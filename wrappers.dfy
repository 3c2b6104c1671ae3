/** The optional value used wherever the source returns `None` or may raise. */
module Wrappers {

  datatype Option<+T> = None | Some(value: T)

  /** The smaller of two integers (Python's `min` on two ints). */
  function Min(a: int, b: int): (r: int)
    ensures r <= a && r <= b
    ensures r == a || r == b
  {
    if a <= b then a else b
  }
}
