/** Facts about integer multiplication, division and remainder that the
    wheel arithmetic of the clock relies on. Dafny's `/` and `%` agree with
    Python's `//` and `%` whenever the divisor is positive, which is the only
    case the firmware uses. */
module Arith {

  /** Multiplying by a natural number keeps the order. */
  lemma MulMonotone(a: int, b: int, k: nat)
    ensures a <= b ==> a * k <= b * k
  {
  }

  /** Integer division is antitone in the divisor. */
  lemma DivAntitone(x: nat, i: nat, j: nat)
    requires 1 <= i <= j
    ensures x / j <= x / i
  {
    var q := x / j;
    var p := x / i;
    assert q * j <= x;
    MulMonotone(i, j, q);
    assert q * i <= x;
    assert x < (p + 1) * i;
    MulMonotone(p + 1, q, i);
  }

  /** A multiple of `m` strictly between `-m` and `m` is zero. */
  lemma SmallMultiple(k: int, m: int)
    requires m > 0 && -m < k * m < m
    ensures k == 0
  {
    MulMonotone(1, k, m);
    MulMonotone(k, -1, m);
  }

  /** `x % m` is the unique `r` in `[0, m)` with `x == q * m + r`. */
  lemma ModUnique(x: int, m: int, q: int, r: int)
    requires m > 0 && 0 <= r < m && x == q * m + r
    ensures x % m == r && x / m == q
  {
    var q' := x / m;
    var r' := x % m;
    assert x == q' * m + r';
    assert (q - q') * m == r' - r;
    SmallMultiple(q - q', m);
  }

  /** Reducing before adding does not change the residue. */
  lemma ModAddStep(x: int, d: int, m: int)
    requires m > 0
    ensures (x % m + d) % m == (x + d) % m
  {
    var q := x / m;
    assert x == q * m + x % m;
    ModUnique(x + d, m, q + (x % m + d) / m, (x % m + d) % m);
  }

  /** Integer division is monotone in the dividend. */
  lemma DivMonotone(x: int, y: int, d: int)
    requires x <= y && d > 0
    ensures x / d <= y / d
  {
    var p := x / d;
    var q := y / d;
    assert x == p * d + x % d;
    assert y == q * d + y % d;
    MulMonotone(q + 1, p, d);
  }
}
