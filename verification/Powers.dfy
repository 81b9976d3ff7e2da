/** Powers of two. */
module Powers {

  function Pow2(k: nat): (p: nat)
    ensures p > 0
  {
    if k == 0 then 1 else 2 * Pow2(k - 1)
  }

  lemma {:induction false} Pow2Adds(j: nat, k: nat)
    ensures Pow2(j + k) == Pow2(j) * Pow2(k)
  {
    if j > 0 {
      Pow2Adds(j - 1, k);
      Associate(2, Pow2(j - 1), Pow2(k));
    }
  }

  /** ⌊log2 n⌋ */
  function Log2(n: nat): nat
    requires n > 0
  {
    if n == 1 then 0 else 1 + Log2(n / 2)
  }

  lemma {:induction false} Log2Bounds(n: nat)
    requires n > 0
    ensures Pow2(Log2(n)) <= n < Pow2(Log2(n) + 1)
  {
    if n > 1 {
      Log2Bounds(n / 2);
    }
  }

  lemma Monotone(d: nat, e: nat)
    requires e > 0
    ensures d * e >= d
  {
    assert d * e == d * (e - 1) + d;
  }

  /** Division with remainder has one answer. */
  lemma QuotientAndRemainder(n: nat, d: nat, q: nat, r: nat)
    requires r < d && n == r + d * q
    ensures n / d == q && n % d == r
  {
    var q', r' := n / d, n % d;
    assert n == r' + d * q';
    if q' < q {
      Distribute(d, q', q - q');
      Monotone(d, q - q');
    } else if q < q' {
      Distribute(d, q, q' - q);
      Monotone(d, q' - q);
    }
  }

  lemma Associate(a: int, b: int, c: int)
    ensures a * (b * c) == (a * b) * c
  {
  }

  lemma Distribute(a: int, b: int, c: int)
    ensures a * (b + c) == a * b + a * c
  {
  }
}
