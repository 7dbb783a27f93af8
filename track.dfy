/** The cleaned GPS fix every stage after the Cleaner works on. */
module Track {
  import opened JsValues
  import Sorting

  /** A record that passed the Cleaner: a valid timestamp (milliseconds) and finite
      coordinates. The vehicle id may still be missing or empty. */
  datatype Point = Point(vehicleId: Option<string>, lat: real, lon: real, timestamp: int)

  predicate TimeLe(a: Point, b: Point) { a.timestamp <= b.timestamp }

  /** The comparator `(a, b) => a.timestamp - b.timestamp` as "may stay before" */
  function TimeOrder(): (Point, Point) -> bool {
    TimeLe
  }

  lemma TimeOrderIsTotalPreorder()
    ensures Sorting.TotalPreorder(TimeOrder())
  {
  }
}
