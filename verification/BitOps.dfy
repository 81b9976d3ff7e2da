/** Machine words as vectors of bits, bit 0 first, and the operations of the `BitOps` trait on them.
    The width is a parameter, so one definition covers the four implementations (8, 16, 32 and 64 bits). */
module BitOps {
  import opened Powers

  type Word = seq<bool>

  /** The widths the trait is implemented for. */
  predicate IsWidth(len: nat) {
    len == 8 || len == 16 || len == 32 || len == 64
  }

  function Zero(len: nat): (w: Word)
    ensures |w| == len && forall j :: 0 <= j < len ==> !w[j]
  {
    seq(len, _ => false)
  }

  function One(len: nat): (w: Word)
    ensures |w| == len && forall j :: 0 <= j < len ==> w[j] == (j == 0)
  {
    seq(len, j => j == 0)
  }

  function Full(len: nat): (w: Word)
    ensures |w| == len && forall j :: 0 <= j < len ==> w[j]
  {
    seq(len, _ => true)
  }

  function Not(a: Word): (w: Word)
    ensures |w| == |a| && forall j :: 0 <= j < |a| ==> w[j] == !a[j]
  {
    seq(|a|, j requires 0 <= j < |a| => !a[j])
  }

  function And(a: Word, b: Word): (w: Word)
    requires |a| == |b|
    ensures |w| == |a| && forall j :: 0 <= j < |a| ==> w[j] == (a[j] && b[j])
  {
    seq(|a|, j requires 0 <= j < |a| => a[j] && b[j])
  }

  function Or(a: Word, b: Word): (w: Word)
    requires |a| == |b|
    ensures |w| == |a| && forall j :: 0 <= j < |a| ==> w[j] == (a[j] || b[j])
  {
    seq(|a|, j requires 0 <= j < |a| => a[j] || b[j])
  }

  function Xor(a: Word, b: Word): (w: Word)
    requires |a| == |b|
    ensures |w| == |a| && forall j :: 0 <= j < |a| ==> w[j] == (a[j] != b[j])
  {
    seq(|a|, j requires 0 <= j < |a| => a[j] != b[j])
  }

  /** The trait's `rhs`: despite its name, a shift towards the high bits (`<<`).
      Shifting by the width or more is an overflow, hence the precondition. */
  function ShiftUp(a: Word, k: nat): (w: Word)
    requires k < |a|
    ensures |w| == |a| && forall j :: 0 <= j < |a| ==> w[j] == (j >= k && a[j - k])
  {
    seq(|a|, j requires 0 <= j < |a| => j >= k && a[j - k])
  }

  /** The trait's `lhs`: a shift towards the low bits (`>>`). */
  function ShiftDown(a: Word, k: nat): (w: Word)
    requires k < |a|
    ensures |w| == |a| && forall j :: 0 <= j < |a| ==> w[j] == (j + k < |a| && a[j + k])
  {
    seq(|a|, j requires 0 <= j < |a| => j + k < |a| && a[j + k])
  }

  /** The trait's `bool`: some bit is set. */
  predicate IsNonZero(a: Word) {
    a != Zero(|a|)
  }

  // ---- What a word is worth ----

  /** The machine integer with these bits. */
  function Value(w: Word): nat {
    if w == [] then 0 else (if w[0] then 1 else 0) + 2 * Value(w[1..])
  }

  lemma {:induction false} ValueBound(w: Word)
    ensures Value(w) < Pow2(|w|)
  {
    if w != [] {
      ValueBound(w[1..]);
    }
  }

  /** High bits count by their distance from bit 0. */
  lemma {:induction false} ValueConcat(lo: Word, hi: Word)
    ensures Value(lo + hi) == Value(lo) + Pow2(|lo|) * Value(hi)
  {
    if lo == [] {
      assert lo + hi == hi;
    } else {
      assert (lo + hi)[1..] == lo[1..] + hi;
      ValueConcat(lo[1..], hi);
      Associate(2, Pow2(|lo| - 1), Value(hi));
    }
  }

  lemma {:induction false} ZeroValue(len: nat)
    ensures Value(Zero(len)) == 0
  {
    if len > 0 {
      assert Zero(len)[1..] == Zero(len - 1);
      ZeroValue(len - 1);
    }
  }

  /** `one()` is 1 and `full()` the largest value of the width. */
  lemma OneAndFullValue(len: nat)
    requires len > 0
    ensures Value(One(len)) == 1 && Value(Full(len)) == Pow2(len) - 1
  {
    assert One(len)[1..] == Zero(len - 1);
    ZeroValue(len - 1);
    assert Full(len) == Not(Zero(len));
    ZeroValue(len);
    NotValue(Zero(len));
  }

  lemma {:induction false} NotValue(a: Word)
    ensures Value(Not(a)) == Pow2(|a|) - 1 - Value(a)
  {
    if a != [] {
      assert Not(a)[1..] == Not(a[1..]);
      NotValue(a[1..]);
    }
  }

  /** The width's integers and its words are the same things, so that words are equal as integers are. */
  lemma {:induction false} SameValue(a: Word, b: Word)
    requires |a| == |b|
    ensures Value(a) == Value(b) <==> a == b
  {
    if a != [] {
      SameValue(a[1..], b[1..]);
      assert a == [a[0]] + a[1..] && b == [b[0]] + b[1..];
    }
  }

  lemma NonZeroValue(a: Word)
    ensures IsNonZero(a) <==> Value(a) != 0
  {
    ZeroValue(|a|);
    SameValue(a, Zero(|a|));
  }

  lemma ShiftUpParts(a: Word, k: nat)
    requires k < |a|
    ensures var lo, hi := a[..|a| - k], a[|a| - k..];
            && Value(a) == Value(lo) + Pow2(|a| - k) * Value(hi)
            && Value(ShiftUp(a, k)) == Pow2(k) * Value(lo)
  {
    var lo, hi := a[..|a| - k], a[|a| - k..];
    assert a == lo + hi && ShiftUp(a, k) == Zero(k) + lo;
    ValueConcat(lo, hi);
    ValueConcat(Zero(k), lo);
    ZeroValue(k);
  }

  /** Scaling a sum whose second part then becomes a multiple of `d`. */
  lemma ScaledRemainder(x: nat, p: nat, y: nat, q: nat, d: nat)
    requires q * x < d && d == p * q
    ensures (x + p * y) * q % d == q * x
  {
    Distribute(q, x, p * y);
    Associate(q, p, y);
    QuotientAndRemainder((x + p * y) * q, d, y, q * x);
  }

  /** `<<` multiplies, dropping what does not fit the width. */
  lemma ShiftUpValue(a: Word, k: nat)
    requires k < |a|
    ensures Value(ShiftUp(a, k)) == Value(a) * Pow2(k) % Pow2(|a|)
  {
    ShiftUpParts(a, k);
    Pow2Adds(|a| - k, k);
    ValueBound(ShiftUp(a, k));
    ScaledRemainder(Value(a[..|a| - k]), Pow2(|a| - k), Value(a[|a| - k..]), Pow2(k), Pow2(|a|));
  }

  /** `>>` divides. */
  lemma ShiftDownValue(a: Word, k: nat)
    requires k < |a|
    ensures Value(ShiftDown(a, k)) == Value(a) / Pow2(k)
  {
    var lo, hi := a[..k], a[k..];
    assert a == lo + hi && ShiftDown(a, k) == hi + Zero(k);
    ValueConcat(lo, hi);
    ValueConcat(hi, Zero(k));
    ZeroValue(k);
    ValueBound(lo);
    QuotientAndRemainder(Value(a), Pow2(k), Value(hi), Value(lo));
  }

  lemma LowBit(a: Word)
    requires a != []
    ensures a[0] <==> Value(a) % 2 == 1
  {
    QuotientAndRemainder(Value(a), 2, Value(a[1..]), if a[0] then 1 else 0);
  }

  /** Bit `j` is the binary digit of that weight, so that `!`, `&`, `|` and `^` act on the integer's digits. */
  lemma BitOfValue(a: Word, j: nat)
    requires j < |a|
    ensures a[j] <==> Value(a) / Pow2(j) % 2 == 1
  {
    ShiftDownValue(a, j);
    LowBit(ShiftDown(a, j));
  }

  /** Testing one bit by masking, as every reader of the bitmap does. */
  lemma TestBit(a: Word, k: nat)
    requires k < |a|
    ensures IsNonZero(And(a, ShiftUp(One(|a|), k))) == a[k]
  {
    var m := And(a, ShiftUp(One(|a|), k));
    assert forall j :: 0 <= j < |a| && j != k ==> !m[j];
    if a[k] {
      assert m[k];
    } else {
      assert m == Zero(|a|);
    }
  }
}
