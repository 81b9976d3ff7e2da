/** What the bitmap's searches and counts return, as statements about sets. */
module BitmapSearch {
  import opened BitOps
  import opened BitmapModel

  // ---- Rank ----

  ghost function Below(s: set<nat>, k: nat): set<nat> {
    set n | n in s && n < k
  }

  /** The number of members of `s` below `k`. */
  ghost function Rank(s: set<nat>, k: nat): nat {
    |Below(s, k)|
  }

  lemma RankStep(s: set<nat>, k: nat)
    ensures Rank(s, 0) == 0
    ensures Rank(s, k + 1) == Rank(s, k) + if k in s then 1 else 0
  {
    assert Below(s, 0) == {};
    if k in s {
      assert Below(s, k + 1) == Below(s, k) + {k};
    } else {
      assert Below(s, k + 1) == Below(s, k);
    }
  }

  lemma RankGap(s: set<nat>, k: nat, m: nat)
    requires k <= m && forall n :: k <= n < m ==> n !in s
    ensures Rank(s, m) == Rank(s, k)
  {
    assert Below(s, m) == Below(s, k);
  }

  lemma RankWordStep(words: seq<Word>, len: nat, i: nat, j: nat)
    requires Shaped(words, len) && i < |words| && j < len
    ensures Rank(BitSet(words, len), WordStart(i, len) + j + 1) ==
            Rank(BitSet(words, len), WordStart(i, len) + j)
            + if IsNonZero(And(words[i], ShiftUp(One(len), j))) then 1 else 0
  {
    TestBit(words[i], j);
    BitSetAt(words, len, i, j);
    RankStep(BitSet(words, len), WordStart(i, len) + j);
  }

  lemma RankEmptyWord(words: seq<Word>, len: nat, i: nat)
    requires Shaped(words, len) && i < |words| && words[i] == Zero(len)
    ensures Rank(BitSet(words, len), WordStart(i + 1, len)) == Rank(BitSet(words, len), WordStart(i, len))
  {
    forall n: nat | WordStart(i, len) <= n < WordStart(i, len) + len
      ensures n !in BitSet(words, len)
    {
      BitSetAt(words, len, i, n - WordStart(i, len));
    }
    RankGap(BitSet(words, len), WordStart(i, len), WordStart(i, len) + len);
  }

  /** Counts over adjacent intervals add up. */
  lemma RankAdds(s: set<nat>, k: nat, m: nat)
    requires k <= m
    ensures Rank(s, m) == Rank(s, k) + |s * Interval(k, m)|
  {
    assert Below(s, m) == Below(s, k) + (s * Interval(k, m));
    assert Below(s, k) !! (s * Interval(k, m));
  }

  lemma {:induction false} IntervalSize(lo: nat, hi: nat)
    requires lo <= hi
    ensures |Interval(lo, hi)| == hi - lo
    decreases hi - lo
  {
    if lo == hi {
      assert Interval(lo, hi) == {};
    } else {
      IntervalSize(lo, hi - 1);
      assert Within(hi - 1, lo, hi);
      assert forall n: nat :: Within(n, lo, hi) <==> Within(n, lo, hi - 1) || n == hi - 1;
      assert Interval(lo, hi) == Interval(lo, hi - 1) + {hi - 1};
    }
  }

  /** Filling an empty in-range interval below `k` raises the count at `k` by exactly its length. */
  lemma RankAfterFill(s: set<nat>, start: nat, length: nat, k: nat)
    requires start + length <= k && s !! Interval(start, start + length)
    ensures Rank(s + Interval(start, start + length), k) == Rank(s, k) + length
  {
    var added := Interval(start, start + length);
    IntervalSize(start, start + length);
    assert forall n: nat :: n in added ==> n < k;
    assert Below(s + added, k) == Below(s, k) + added;
  }

  // ---- Next zero and next bit ----

  /** A word the search passes over: it holds no bit with the wanted value. */
  predicate Barren(words: seq<Word>, len: nat, i: nat, wanted: bool)
    requires i < |words|
  {
    words[i] == if wanted then Zero(len) else Full(len)
  }

  /** The positions the search can stop at. The start position inside a word is dropped to 0 only by a
      word that was scanned, never by one that was passed over. */
  ghost predicate Reached(words: seq<Word>, len: nat, offset: nat, wanted: bool, n: nat)
    requires Shaped(words, len)
  {
    && BitIndex(n, len) < |words|
    && Has(words, len, n) == wanted
    && BitIndex(offset, len) <= BitIndex(n, len)
    && (BitPos(n, len) >= BitPos(offset, len) ||
        exists w :: BitIndex(offset, len) <= w < BitIndex(n, len) && !Barren(words, len, w, wanted))
  }

  /** The search result: the least position it can stop at, else the volume. */
  ghost predicate IsFound(words: seq<Word>, len: nat, offset: nat, wanted: bool, r: nat)
    requires Shaped(words, len)
  {
    && (r == Vol(words, len) || Reached(words, len, offset, wanted, r))
    && forall n: nat :: n < r ==> !Reached(words, len, offset, wanted, n)
  }

  /** Where a search stands before word `i`, about to scan from bit `from`. */
  ghost predicate SearchedTo(words: seq<Word>, len: nat, offset: nat, i: nat, from: nat, wanted: bool)
    requires Shaped(words, len) && i <= |words|
  {
    && BitIndex(offset, len) <= i
    && (if forall w :: BitIndex(offset, len) <= w < i ==> Barren(words, len, w, wanted)
        then from == BitPos(offset, len) else from == 0)
    && forall n: nat :: BitIndex(n, len) < i ==> !Reached(words, len, offset, wanted, n)
  }

  lemma PassWord(words: seq<Word>, len: nat, offset: nat, i: nat, from: nat, wanted: bool)
    requires Shaped(words, len) && i < |words| && SearchedTo(words, len, offset, i, from, wanted)
    requires Barren(words, len, i, wanted)
    ensures SearchedTo(words, len, offset, i + 1, from, wanted)
  {
    assert !(forall w :: BitIndex(offset, len) <= w < i ==> Barren(words, len, w, wanted)) ==>
      exists w :: BitIndex(offset, len) <= w < i + 1 && !Barren(words, len, w, wanted);
  }

  lemma ScanWord(words: seq<Word>, len: nat, offset: nat, i: nat, from: nat, wanted: bool)
    requires Shaped(words, len) && i < |words| && SearchedTo(words, len, offset, i, from, wanted)
    requires !Barren(words, len, i, wanted)
    requires forall k :: from <= k < len ==> words[i][k] != wanted
    ensures SearchedTo(words, len, offset, i + 1, 0, wanted)
  {
  }

  lemma StopAtBit(words: seq<Word>, len: nat, offset: nat, i: nat, from: nat, j: nat, wanted: bool)
    requires Shaped(words, len) && i < |words| && SearchedTo(words, len, offset, i, from, wanted)
    requires from <= j < len && words[i][j] == wanted
    requires forall k :: from <= k < j ==> words[i][k] != wanted
    ensures IsFound(words, len, offset, wanted, WordStart(i, len) + j)
  {
    var r := WordStart(i, len) + j;
    JoinIndex(i, j, len);
    assert Reached(words, len, offset, wanted, r);
    forall n: nat | n < r
      ensures !Reached(words, len, offset, wanted, n)
    {
      SplitIndex(n, len);
      if i < BitIndex(n, len) {
        RowOrder(i, BitIndex(n, len), len);
      }
    }
  }

  lemma NothingFound(words: seq<Word>, len: nat, offset: nat, i: nat, from: nat, wanted: bool)
    requires Shaped(words, len)
    requires (i == |words| && SearchedTo(words, len, offset, i, from, wanted)) || |words| <= BitIndex(offset, len)
    ensures IsFound(words, len, offset, wanted, Vol(words, len))
  {
    forall n: nat | n < Vol(words, len)
      ensures !Reached(words, len, offset, wanted, n)
    {
      InVol(n, |words|, len);
    }
  }

  /** What the documentation asks for: the least position at or after `offset` with the wanted value. */
  ghost predicate IsNext(words: seq<Word>, len: nat, offset: nat, wanted: bool, r: nat)
    requires Shaped(words, len)
  {
    && (r == Vol(words, len) || (offset <= r < Vol(words, len) && Has(words, len, r) == wanted))
    && forall n: nat :: offset <= n < r && n < Vol(words, len) ==> Has(words, len, n) != wanted
  }

  /** No wanted bit hides below the start position of the first word that is scanned after skipping. */
  ghost predicate NothingHidden(words: seq<Word>, len: nat, offset: nat, wanted: bool)
    requires Shaped(words, len)
  {
    forall m, j :: BitIndex(offset, len) < m < |words| && 0 <= j < BitPos(offset, len) && words[m][j] == wanted ==>
      exists w :: BitIndex(offset, len) <= w < m && !Barren(words, len, w, wanted)
  }

  lemma HiddenBitUnreached(words: seq<Word>, len: nat, offset: nat, wanted: bool, r: nat, m: nat, j: nat)
    requires Shaped(words, len) && m < |words| && j < BitPos(offset, len) && r <= WordStart(m, len) + j
    requires forall w :: BitIndex(offset, len) <= w < m ==> Barren(words, len, w, wanted)
    ensures !Reached(words, len, offset, wanted, r)
  {
    SplitIndex(r, len);
    if m < BitIndex(r, len) {
      RowOrder(m, BitIndex(r, len), len);
    } else if BitIndex(offset, len) <= BitIndex(r, len) < m {
      assert Barren(words, len, BitIndex(r, len), wanted);
    }
  }

  lemma HiddenBitPassed(words: seq<Word>, len: nat, offset: nat, wanted: bool, r: nat, m: nat, j: nat)
    requires Shaped(words, len) && IsFound(words, len, offset, wanted, r)
    requires m < |words| && j < BitPos(offset, len)
    requires forall w :: BitIndex(offset, len) <= w < m ==> Barren(words, len, w, wanted)
    ensures WordStart(m, len) + j < r
  {
    JoinIndex(m, j, len);
    InVol(WordStart(m, len) + j, |words|, len);
    if r <= WordStart(m, len) + j {
      HiddenBitUnreached(words, len, offset, wanted, r, m, j);
    }
  }

  lemma HiddenBitMissed(words: seq<Word>, len: nat, offset: nat, wanted: bool, r: nat, m: nat, j: nat)
    requires Shaped(words, len) && IsFound(words, len, offset, wanted, r)
    requires BitIndex(offset, len) < m < |words| && j < BitPos(offset, len) && words[m][j] == wanted
    requires forall w :: BitIndex(offset, len) <= w < m ==> Barren(words, len, w, wanted)
    ensures !IsNext(words, len, offset, wanted, r)
  {
    var n := WordStart(m, len) + j;
    HiddenBitPassed(words, len, offset, wanted, r, m, j);
    JoinIndex(m, j, len);
    InVol(n, |words|, len);
    SplitIndex(offset, len);
    RowOrder(BitIndex(offset, len), m, len);
    assert offset <= n < r && n < Vol(words, len) && Has(words, len, n) == wanted;
  }

  /** The search meets its documentation exactly when nothing is hidden. */
  lemma FoundIsNext(words: seq<Word>, len: nat, offset: nat, wanted: bool, r: nat)
    requires Shaped(words, len) && IsFound(words, len, offset, wanted, r)
    ensures IsNext(words, len, offset, wanted, r) <==> NothingHidden(words, len, offset, wanted)
  {
    if !NothingHidden(words, len, offset, wanted) {
      var m, j :| BitIndex(offset, len) < m < |words| && 0 <= j < BitPos(offset, len) && words[m][j] == wanted &&
        forall w :: BitIndex(offset, len) <= w < m ==> Barren(words, len, w, wanted);
      HiddenBitMissed(words, len, offset, wanted, r, m, j);
    } else {
      SplitIndex(offset, len);
      SplitIndex(r, len);
      InVol(r, |words|, len);
      if r < offset {
        if BitIndex(r, len) < BitIndex(offset, len) { RowOrder(BitIndex(r, len), BitIndex(offset, len), len); }
      }
      if BitIndex(r, len) > BitIndex(offset, len) { RowOrder(BitIndex(offset, len), BitIndex(r, len), len); }
      forall n: nat | offset <= n < r && n < Vol(words, len)
        ensures Has(words, len, n) != wanted
      {
        InVol(n, |words|, len);
        SplitIndex(n, len);
        if BitIndex(n, len) < BitIndex(offset, len) {
          RowOrder(BitIndex(n, len), BitIndex(offset, len), len);
        } else {
          assert !Reached(words, len, offset, wanted, n);
        }
      }
    }
  }

  /** The two conditions a caller can read off the call: a word-aligned start, or a start word worth scanning. */
  lemma SafeStarts(words: seq<Word>, len: nat, offset: nat, wanted: bool)
    requires Shaped(words, len)
    requires BitPos(offset, len) == 0 ||
             (BitIndex(offset, len) < |words| ==> !Barren(words, len, BitIndex(offset, len), wanted))
    ensures NothingHidden(words, len, offset, wanted)
  {
  }

  /** Likewise for set bits: only bit 8 is set, and a search from 1 reports that there is none. */
  lemma HiddenBitExample()
    ensures var words := [Zero(8), Zero(8)[0 := true]];
            IsFound(words, 8, 1, true, 16) && !IsNext(words, 8, 1, true, 16)
  {
    var words := [Zero(8), Zero(8)[0 := true]];
    assert Vol(words, 8) == 16 && BitIndex(8, 8) == 1 && BitPos(8, 8) == 0;
    assert Barren(words, 8, 0, true);
    assert Has(words, 8, 8);
    forall n: nat | n < 16
      ensures !Reached(words, 8, 1, true, n)
    {
      SplitIndex(n, 8);
      InVol(n, 2, 8);
    }
  }

  /** Two 8-bit words, only bit 8 clear: a search for a zero from 1 passes over the full first word, starts
      the second at bit 1, and reports that there is none. */
  lemma HiddenZeroExample()
    ensures var words := [Full(8), Full(8)[0 := false]];
            IsFound(words, 8, 1, false, 16) && !IsNext(words, 8, 1, false, 16)
  {
    var words := [Full(8), Full(8)[0 := false]];
    assert Vol(words, 8) == 16 && BitIndex(8, 8) == 1 && BitPos(8, 8) == 0;
    assert Barren(words, 8, 0, false);
    assert !Has(words, 8, 8);
    forall n: nat | n < 16
      ensures !Reached(words, 8, 1, false, n)
    {
      SplitIndex(n, 8);
      InVol(n, 2, 8);
    }
  }
}
