/** What a word array means: the set of numbers whose bit is set. */
module BitmapModel {
  import opened BitOps

  /** Values of the source's `usize` on a 64-bit target. */
  type usize = x: int | 0 <= x < 0x1_0000_0000_0000_0000

  // ---- Word indices ----
  // Division by the word length is written by repeated subtraction, which keeps every proof linear;
  // `IndexIsDivision` and `WordStartIsProduct` say that it is the ordinary one.

  /** The word that holds bit `n`: `n / len`. */
  function BitIndex(n: nat, len: nat): nat
    requires len > 0
  {
    if n < len then 0 else 1 + BitIndex(n - len, len)
  }

  /** The place of bit `n` inside its word: `n % len`. */
  function BitPos(n: nat, len: nat): (r: nat)
    requires len > 0
    ensures r < len
  {
    if n < len then n else BitPos(n - len, len)
  }

  /** The first bit of word `i`: `i * len`. */
  function WordStart(i: nat, len: nat): nat {
    if i == 0 then 0 else WordStart(i - 1, len) + len
  }

  lemma {:induction false} WordStartIsProduct(i: nat, len: nat)
    ensures WordStart(i, len) == i * len
  {
    if i > 0 {
      WordStartIsProduct(i - 1, len);
      assert i * len == (i - 1) * len + len;
    }
  }

  lemma {:induction false} IndexIsDivision(n: nat, len: nat)
    requires IsWidth(len)
    ensures BitIndex(n, len) == n / len && BitPos(n, len) == n % len
  {
    if n >= len {
      IndexIsDivision(n - len, len);
    }
  }

  lemma {:induction false} SplitIndex(n: nat, len: nat)
    requires len > 0
    ensures n == WordStart(BitIndex(n, len), len) + BitPos(n, len)
  {
    if n >= len {
      SplitIndex(n - len, len);
    }
  }

  lemma {:induction false} JoinIndex(i: nat, j: nat, len: nat)
    requires j < len
    ensures BitIndex(WordStart(i, len) + j, len) == i && BitPos(WordStart(i, len) + j, len) == j
  {
    if i > 0 {
      JoinIndex(i - 1, j, len);
    }
  }

  /** Word `i` ends before word `k` starts. */
  lemma {:induction false} RowOrder(i: nat, k: nat, len: nat)
    requires i < k
    ensures WordStart(i, len) + len <= WordStart(k, len)
  {
    if i + 1 < k {
      RowOrder(i, k - 1, len);
    }
  }

  lemma InVol(n: nat, size: nat, len: nat)
    requires len > 0
    ensures n < WordStart(size, len) <==> BitIndex(n, len) < size
  {
    SplitIndex(n, len);
    if BitIndex(n, len) < size {
      RowOrder(BitIndex(n, len), size, len);
    } else if size < BitIndex(n, len) {
      RowOrder(size, BitIndex(n, len), len);
    }
  }

  predicate Shaped(words: seq<Word>, len: nat) {
    IsWidth(len) && forall i :: 0 <= i < |words| ==> |words[i]| == len
  }

  function Vol(words: seq<Word>, len: nat): nat {
    WordStart(|words|, len)
  }

  predicate Has(words: seq<Word>, len: nat, n: nat)
    requires Shaped(words, len)
  {
    BitIndex(n, len) < |words| && words[BitIndex(n, len)][BitPos(n, len)]
  }

  ghost function BitSet(words: seq<Word>, len: nat): set<nat>
    requires Shaped(words, len)
  {
    set n: nat | n < Vol(words, len) && Has(words, len, n)
  }

  function Min(a: int, b: int): int {
    if a < b then a else b
  }

  predicate Within(n: int, lo: int, hi: int) {
    lo <= n < hi
  }

  /** The numbers of `[lo, hi)`. */
  ghost function Interval(lo: int, hi: int): set<nat> {
    set n: nat | n < hi && Within(n, lo, hi)
  }

  /** Looking up a bit: the guard `num > volume` lets through exactly one number that has no word. */
  lemma GuardMissesVolume(num: nat, size: nat, len: nat)
    requires len > 0
    ensures !(num > WordStart(size, len)) && BitIndex(num, len) >= size <==> num == WordStart(size, len)
  {
    InVol(num, size, len);
  }

  lemma GrowInterval(i: nat)
    ensures Interval(0, i + 1) == Interval(0, i) + {i}
  {
    assert forall n: nat :: Within(n, 0, i + 1) <==> Within(n, 0, i) || n == i;
  }

  lemma EmptyRange(s: set<nat>, start: nat, vol: nat)
    ensures s + Interval(start, Min(start + 0, vol)) == s && s - Interval(start, start + 0) == s
  {
  }

  /** Membership, bit by bit. */
  lemma BitSetAt(words: seq<Word>, len: nat, i: nat, j: nat)
    requires Shaped(words, len) && i < |words| && j < len
    ensures WordStart(i, len) + j < Vol(words, len)
    ensures WordStart(i, len) + j in BitSet(words, len) <==> words[i][j]
  {
    JoinIndex(i, j, len);
    RowOrder(i, |words|, len);
  }

  /** `now` is `was` with the bits of `[lo, hi)` forced to `value`. */
  ghost predicate Painted(now: seq<Word>, was: seq<Word>, len: nat, lo: int, hi: int, value: bool)
    requires Shaped(now, len) && Shaped(was, len)
  {
    && |now| == |was|
    && forall i, j :: 0 <= i < |now| && 0 <= j < len ==>
         now[i][j] == if lo <= WordStart(i, len) + j < hi then value else was[i][j]
  }

  lemma PaintedBits(now: seq<Word>, was: seq<Word>, len: nat, lo: int, hi: int, value: bool)
    requires Shaped(now, len) && Shaped(was, len) && Painted(now, was, len, lo, hi, value)
    ensures value ==> BitSet(now, len) == BitSet(was, len) + Interval(lo, Min(hi, Vol(was, len)))
    ensures !value ==> BitSet(now, len) == BitSet(was, len) - Interval(lo, hi)
  {
    forall n: nat | n < Vol(was, len)
      ensures Has(now, len, n) == if lo <= n < hi then value else Has(was, len, n)
    {
      InVol(n, |was|, len);
      SplitIndex(n, len);
      var i, j := BitIndex(n, len), BitPos(n, len);
      assert now[i][j] == if lo <= WordStart(i, len) + j < hi then value else was[i][j];
    }
  }

  /** A range update that has reached bit `from` of word `index`, which is bit `done` of the bitmap. */
  ghost predicate Progress(now: seq<Word>, was: seq<Word>, len: nat, lo: int, done: int, index: nat, from: int,
                           value: bool)
    requires Shaped(now, len) && Shaped(was, len)
  {
    lo <= done && done == WordStart(index, len) + from && Painted(now, was, len, lo, done, value)
  }

  /** The mask that paints a word from bit `from` on. */
  predicate MaskFrom(mask: Word, len: nat, from: int, value: bool) {
    |mask| == len && forall j :: 0 <= j < len ==> mask[j] == ((j >= from) == value)
  }

  /** `w` is `was` with a mask applied: bits are set by `or`, cleared by `and`. */
  predicate Masked(w: Word, was: Word, mask: Word, value: bool)
    requires |was| == |mask|
  {
    w == if value then Or(was, mask) else And(was, mask)
  }

  /** A mask cut off above, `drop` bits from the top. */
  predicate MaskCut(mask: Word, whole: Word, drop: nat, value: bool)
    requires drop < |whole|
  {
    mask == if value then And(whole, ShiftDown(Full(|whole|), drop)) else Or(whole, Not(ShiftDown(Full(|whole|), drop)))
  }

  /** Painting one more stretch of one word extends the painted range. */
  lemma PaintWord(now: seq<Word>, mid: seq<Word>, was: seq<Word>, len: nat, lo: int, done: int,
                  index: nat, from: nat, to: nat, value: bool)
    requires Shaped(now, len) && Shaped(mid, len) && Shaped(was, len) && from <= to <= len
    requires Progress(mid, was, len, lo, done, index, from, value)
    requires index < |was| && |now| == |mid| && now == mid[index := now[index]]
    requires forall j :: 0 <= j < len ==> now[index][j] == if from <= j < to then value else mid[index][j]
    ensures Painted(now, was, len, lo, done + to - from, value)
  {
    forall i, j | 0 <= i < |now| && 0 <= j < len
      ensures now[i][j] == if lo <= WordStart(i, len) + j < done + to - from then value else was[i][j]
    {
      if i < index {
        RowOrder(i, index, len);
      } else if index < i {
        RowOrder(index, i, len);
      }
    }
  }

  /** A whole word, or what is left of it. */
  lemma PaintRest(now: seq<Word>, mid: seq<Word>, was: seq<Word>, len: nat, lo: int, done: int,
                  index: nat, from: nat, mask: Word, value: bool)
    requires Shaped(now, len) && Shaped(mid, len) && Shaped(was, len) && from <= len
    requires Progress(mid, was, len, lo, done, index, from, value)
    requires index < |was| && |now| == |mid| && now == mid[index := now[index]]
    requires MaskFrom(mask, len, from, value) && Masked(now[index], mid[index], mask, value)
    ensures Progress(now, was, len, lo, done + len - from, index + 1, 0, value)
  {
    PaintWord(now, mid, was, len, lo, done, index, from, len, value);
  }

  /** The last word of a range that stops inside it. */
  lemma PaintLast(now: seq<Word>, mid: seq<Word>, was: seq<Word>, len: nat, lo: int, done: int, end: nat,
                  index: nat, from: nat, whole: Word, mask: Word, value: bool)
    requires Shaped(now, len) && Shaped(mid, len) && Shaped(was, len) && from < BitPos(end, len)
    requires Progress(mid, was, len, lo, done, index, from, value) && end == WordStart(index, len) + BitPos(end, len)
    requires index < |was| && |now| == |mid| && now == mid[index := now[index]]
    requires MaskFrom(whole, len, from, value) && MaskCut(mask, whole, len - BitPos(end, len), value)
    requires Masked(now[index], mid[index], mask, value)
    ensures value ==> BitSet(now, len) == BitSet(was, len) + Interval(lo, Min(end, Vol(was, len)))
    ensures !value ==> BitSet(now, len) == BitSet(was, len) - Interval(lo, end)
  {
    PaintWord(now, mid, was, len, lo, done, index, from, BitPos(end, len), value);
    PaintedBits(now, was, len, lo, end, value);
  }

  /** A range that ends with a whole word. */
  lemma PaintedToWord(now: seq<Word>, was: seq<Word>, len: nat, lo: int, end: int, index: nat, value: bool)
    requires Shaped(now, len) && Shaped(was, len) && index <= |was|
    requires Progress(now, was, len, lo, end, index, 0, value)
    ensures end <= Vol(was, len)
    ensures value ==> BitSet(now, len) == BitSet(was, len) + Interval(lo, Min(end, Vol(was, len)))
    ensures !value ==> BitSet(now, len) == BitSet(was, len) - Interval(lo, end)
  {
    if index < |was| {
      RowOrder(index, |was|, len);
    }
    PaintedBits(now, was, len, lo, end, value);
  }

  /** A range that runs past the end: what is painted up to the end is all there is to paint. */
  lemma PaintedPastEnd(now: seq<Word>, was: seq<Word>, len: nat, lo: int, hi: int, end: int, value: bool, index: nat)
    requires Shaped(now, len) && Shaped(was, len) && Painted(now, was, len, lo, hi, value)
    requires |was| <= index && WordStart(index, len) <= hi < end
    ensures Vol(was, len) < end
    ensures value ==> BitSet(now, len) == BitSet(was, len) + Interval(lo, Min(end, Vol(was, len)))
    ensures !value ==> BitSet(now, len) == BitSet(was, len) - Interval(lo, end)
  {
    if |was| < index {
      RowOrder(|was|, index, len);
    }
    forall i, j | 0 <= i < |now| && 0 <= j < len
      ensures now[i][j] == if lo <= WordStart(i, len) + j < end then value else was[i][j]
    {
      RowOrder(i, |was|, len);
    }
    PaintedBits(now, was, len, lo, end, value);
  }

  /** Where a range ends that stops strictly inside word `index`. */
  lemma LastWord(end: nat, index: nat, size: nat, from: nat, length: nat, len: nat)
    requires index < size && 0 < length && from + length < len && end == WordStart(index, len) + from + length
    ensures end < WordStart(size, len) && BitPos(end, len) == from + length
    ensures end == WordStart(index, len) + BitPos(end, len)
    ensures BitPos(len - BitPos(end, len), len) == len - BitPos(end, len)
  {
    JoinIndex(index, from + length, len);
    RowOrder(index, size, len);
  }

  /** One word rewritten at one bit. */
  lemma OneBit(now: seq<Word>, was: seq<Word>, len: nat, num: nat)
    requires Shaped(now, len) && Shaped(was, len) && BitIndex(num, len) < |was| == |now|
    requires now == was[BitIndex(num, len) := now[BitIndex(num, len)]]
    requires forall j :: 0 <= j < len && j != BitPos(num, len) ==>
               now[BitIndex(num, len)][j] == was[BitIndex(num, len)][j]
    ensures num < Vol(was, len)
    ensures BitSet(now, len) ==
            if now[BitIndex(num, len)][BitPos(num, len)] then BitSet(was, len) + {num} else BitSet(was, len) - {num}
  {
    InVol(num, |was|, len);
    forall n: nat | n < Vol(was, len)
      ensures Has(now, len, n) == if n == num then now[BitIndex(num, len)][BitPos(num, len)] else Has(was, len, n)
    {
      InVol(n, |was|, len);
      SplitIndex(n, len);
      SplitIndex(num, len);
    }
  }
}
