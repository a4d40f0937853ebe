/** Conversion of epoch-millisecond differences into whole hours. */
module Hours {

  /** 1000 * 60 * 60, the divisor both fetch.py and map.py use. */
  const MillisPerHour: int := 1000 * 60 * 60

  /** Python's `(to - from) // (1000 * 60 * 60)`: floor division by a positive divisor,
      which is what Dafny's Euclidean `/` computes. */
  function HoursBetween(from: int, to: int): (h: int)
    ensures h * MillisPerHour <= to - from < (h + 1) * MillisPerHour
    ensures from <= to ==> 0 <= h
  {
    (to - from) / MillisPerHour
  }
}
