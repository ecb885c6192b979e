/** Value types shared by every component model. */
module Prelude {

  datatype Option<+T> = None | Some(value: T)

  /** A call that either returns a value or raises an error. */
  datatype Result<+T, +E> = Ok(value: T) | Err(error: E)

  lemma {:induction false} QuotientCompare(a: real, r: real, x: real)
    requires r > 0.0
    ensures a / r >= x <==> a >= x * r
    ensures a / r <= x <==> a <= x * r
  {
    var q := a / r;
    assert q * r == a;
    if q > x {
      assert (q - x) * r > 0.0;
    } else if q < x {
      assert (x - q) * r > 0.0;
    }
  }
}
