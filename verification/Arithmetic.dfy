/** Facts about reals that more than one module needs. */
module Arithmetic {
  lemma Cancel(a: real, b: real, c: real)
    requires c > 0.0 && a * c == b * c
    ensures a == b
  {
    assert (a - b) * c == 0.0;
  }

  lemma CancelLess(x: real, y: real, c: real)
    requires c > 0.0 && x * c >= y * c
    ensures x >= y
  {
    assert (x - y) * c >= 0.0;
  }
}
