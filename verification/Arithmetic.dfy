/** Integer arithmetic as C and C++ do it, and the few facts about multiples used throughout. */
module Arithmetic {

  /** Integer division of C++: truncation toward zero. */
  function TruncDiv(a: int, b: int): int
    requires b != 0
  {
    if (a >= 0) == (b > 0) then Abs(a) / Abs(b) else -(Abs(a) / Abs(b))
  }

  function TruncMod(a: int, b: int): int
    requires b != 0
  {
    a - TruncDiv(a, b) * b
  }

  function Abs(a: int): nat
  {
    if a < 0 then -a else a
  }

  lemma DivBounds(a: int, p: int)
    requires a >= 0 && p > 0
    ensures TruncDiv(a, p) >= 0 && TruncDiv(a, p) * p <= a < TruncDiv(a, p) * p + p
  {
    assert a == p * (a / p) + a % p;
  }

  lemma MulMonotone(a: int, b: int, p: int)
    requires a <= b && p > 0
    ensures a * p <= b * p
  {
  }

  lemma Multiple(k: int, p: int)
    requires p > 0
    ensures (k * p) % p == 0
  {
    var q, r := (k * p) / p, (k * p) % p;
    assert (k - q) * p == r;
    if k - q >= 1 {
      MulMonotone(1, k - q, p);
    } else if k - q <= -1 {
      MulMonotone(k - q, -1, p);
    }
  }
}
