/** The bitmap: a fixed vector of words, updated in place. */
module Bitmaps {
  import opened Results
  import opened BitOps
  import opened BitmapModel
  import opened BitmapSearch

  datatype BitmapError = OutOfBound(index: nat, bound: nat)

  class Bitmap {
    const len: nat          // bits in a word
    const data: array<Word>

    ghost predicate Valid()
      reads data
    {
      && Shaped(data[..], len)
      && Vol(data[..], len) < 0x1_0000_0000_0000_0000  // the volume is itself a usize
    }

    ghost function Bits(): set<nat>
      requires Valid()
      reads data
    {
      BitSet(data[..], len)
    }

    constructor (len: nat, size: nat)
      requires IsWidth(len) && WordStart(size, len) < 0x1_0000_0000_0000_0000
      ensures Valid() && fresh(data) && this.len == len && data.Length == size
      ensures Bits() == {}
    {
      this.len := len;
      data := new Word[size](_ => Zero(len));
      new;
      assert forall i :: 0 <= i < size ==> data[..][i] == Zero(len);
    }

    function Size(): nat {
      data.Length
    }

    function Volume(): nat {
      WordStart(Size(), len)
    }

    /** The word at which a range from `start` on leaves the bitmap. */
    function FirstMissing(start: nat): nat
      requires len > 0
    {
      if BitIndex(start, len) < Size() then Size() else BitIndex(start, len)
    }

    method Set(num: usize) returns (r: Result<(), BitmapError>)
      requires Valid()
      modifies data
      ensures Valid()
      ensures r == if num < Volume() then Ok(()) else Err(OutOfBound(BitIndex(num, len), Volume()))
      ensures Bits() == if num < Volume() then old(Bits()) + {num} else old(Bits())
    {
      var index := BitIndex(num, len);
      InVol(num, Size(), len);
      if index >= Size() {
        return Err(OutOfBound(index, Volume()));
      }
      ghost var was := data[..];
      data[index] := Or(data[index], ShiftUp(One(len), BitPos(num, len)));
      assert data[..] == was[index := data[index]];
      SplitIndex(num, len);
      OneBit(data[..], was, len, num);
      return Ok(());
    }

    method Clear(num: usize) returns (r: Result<(), BitmapError>)
      requires Valid()
      modifies data
      ensures Valid()
      ensures r == if num < Volume() then Ok(()) else Err(OutOfBound(BitIndex(num, len), Volume()))
      ensures Bits() == old(Bits()) - {num}
    {
      var index := BitIndex(num, len);
      InVol(num, Size(), len);
      if index >= Size() {
        return Err(OutOfBound(index, Volume()));
      }
      ghost var was := data[..];
      data[index] := And(data[index], Not(ShiftUp(One(len), BitPos(num, len))));
      assert data[..] == was[index := data[index]];
      OneBit(data[..], was, len, num);
      return Ok(());
    }

    method Change(num: usize) returns (r: Result<(), BitmapError>)
      requires Valid()
      modifies data
      ensures Valid()
      ensures r == if num < Volume() then Ok(()) else Err(OutOfBound(BitIndex(num, len), Volume()))
      ensures Bits() == if num >= Volume() then old(Bits())
                        else if num in old(Bits()) then old(Bits()) - {num} else old(Bits()) + {num}
    {
      var index := BitIndex(num, len);
      InVol(num, Size(), len);
      if index >= Size() {
        return Err(OutOfBound(index, Volume()));
      }
      ghost var was := data[..];
      data[index] := Xor(data[index], ShiftUp(One(len), BitPos(num, len)));
      assert data[..] == was[index := data[index]];
      OneBit(data[..], was, len, num);
      return Ok(());
    }

    /** The last, partial word of `SetRange`, from bit `from` up to `end`. */
    method SetLastWord(end: nat, index: nat, maskToSet: Word, ghost was: seq<Word>, ghost start: nat,
                       ghost done: nat, ghost from: nat)
      requires Valid() && index < Size() && |was| == Size() && Shaped(was, len)
      requires Progress(data[..], was, len, start, done, index, from, true) && MaskFrom(maskToSet, len, from, true)
      requires done < end < WordStart(index, len) + len
      modifies data
      ensures Valid() && end <= Volume() && Bits() == BitSet(was, len) + Interval(start, Min(end, Volume()))
    {
      LastWord(end, index, Size(), from, end - done, len);
      var stop: usize := end;  // stays inside the last word, so it cannot overflow
      var bitsToSet := len - BitPos(stop, len);
      var maskToSetEnd := ShiftDown(Full(len), BitPos(bitsToSet, len));
      var mask := And(maskToSet, maskToSetEnd);
      ghost var mid := data[..];
      data[index] := Or(data[index], mask);
      assert data[..] == mid[index := data[index]];
      PaintLast(data[..], mid, was, len, start, done, stop, index, from, maskToSet, mask, true);
    }

    method SetRange(start: usize, count: usize) returns (r: Result<(), BitmapError>)
      requires Valid()
      modifies data
      ensures Valid()
      ensures r == if count == 0 || start + count <= Volume() then Ok(())
                   else Err(OutOfBound(FirstMissing(start), Volume()))
      ensures Bits() == old(Bits()) + Interval(start, Min(start + count, Volume()))
    {
      ghost var was := data[..];
      if count == 0 {
        EmptyRange(Bits(), start, Volume());
        return Ok(());
      }
      var index: nat := BitIndex(start, len);
      var bitsToSet := len - BitPos(start, len);
      var maskToSet := ShiftUp(Full(len), BitPos(start, len));
      var length: nat := count;
      ghost var done := start;  // the bits of [start, done) are set
      SplitIndex(start, len);
      while length >= bitsToSet
        invariant Valid() && |data[..]| == |was|
        invariant done + length == start + count && 1 <= bitsToSet <= len
        invariant MaskFrom(maskToSet, len, len - bitsToSet, true)
        invariant Progress(data[..], was, len, start, done, index, len - bitsToSet, true)
        invariant if length == count then index == BitIndex(start, len)
                  else BitIndex(start, len) < index <= Size() && bitsToSet == len
      {
        if index >= Size() {
          PaintedPastEnd(data[..], was, len, start, done, start + count, true, index);
          return Err(OutOfBound(index, Volume()));
        }
        length := length - bitsToSet;
        ghost var mid := data[..];
        data[index] := Or(data[index], maskToSet);
        assert data[..] == mid[index := data[index]];
        PaintRest(data[..], mid, was, len, start, done, index, len - bitsToSet, maskToSet, true);
        done := done + bitsToSet;
        bitsToSet := len;
        maskToSet := Full(len);
        index := index + 1;
      }
      if length > 0 {
        if index >= Size() {
          PaintedPastEnd(data[..], was, len, start, done, start + count, true, index);
          return Err(OutOfBound(index, Volume()));
        }
        SetLastWord(start + count, index, maskToSet, was, start, done, len - bitsToSet);
        return Ok(());
      }
      PaintedToWord(data[..], was, len, start, done, index, true);
      return Ok(());
    }

    /** The last, partial word of `ClearRange`, from bit `from` up to `end`. */
    method ClearLastWord(end: nat, index: nat, maskToClear: Word, ghost was: seq<Word>, ghost start: nat,
                         ghost done: nat, ghost from: nat)
      requires Valid() && index < Size() && |was| == Size() && Shaped(was, len)
      requires Progress(data[..], was, len, start, done, index, from, false) && MaskFrom(maskToClear, len, from, false)
      requires done < end < WordStart(index, len) + len
      modifies data
      ensures Valid() && end <= Volume() && Bits() == BitSet(was, len) - Interval(start, end)
    {
      LastWord(end, index, Size(), from, end - done, len);
      var stop: usize := end;  // stays inside the last word, so it cannot overflow
      var bitsToClear := len - BitPos(stop, len);
      var maskToClearEnd := Not(ShiftDown(Full(len), BitPos(bitsToClear, len)));
      var mask := Or(maskToClear, maskToClearEnd);
      ghost var mid := data[..];
      data[index] := And(data[index], mask);
      assert data[..] == mid[index := data[index]];
      PaintLast(data[..], mid, was, len, start, done, stop, index, from, maskToClear, mask, false);
    }

    method ClearRange(start: usize, count: usize) returns (r: Result<(), BitmapError>)
      requires Valid()
      modifies data
      ensures Valid()
      ensures r == if count == 0 || start + count <= Volume() then Ok(())
                   else Err(OutOfBound(FirstMissing(start), Volume()))
      ensures Bits() == old(Bits()) - Interval(start, start + count)
    {
      ghost var was := data[..];
      if count == 0 {
        EmptyRange(Bits(), start, Volume());
        return Ok(());
      }
      var index: nat := BitIndex(start, len);
      var bitsToClear := len - BitPos(start, len);
      var maskToClear := Not(ShiftUp(Full(len), BitPos(start, len)));
      var length: nat := count;
      ghost var done := start;  // the bits of [start, done) are cleared
      SplitIndex(start, len);
      while length >= bitsToClear
        invariant Valid() && |data[..]| == |was|
        invariant done + length == start + count && 1 <= bitsToClear <= len
        invariant MaskFrom(maskToClear, len, len - bitsToClear, false)
        invariant Progress(data[..], was, len, start, done, index, len - bitsToClear, false)
        invariant if length == count then index == BitIndex(start, len)
                  else BitIndex(start, len) < index <= Size() && bitsToClear == len
      {
        if index >= Size() {
          PaintedPastEnd(data[..], was, len, start, done, start + count, false, index);
          return Err(OutOfBound(index, Volume()));
        }
        length := length - bitsToClear;
        ghost var mid := data[..];
        data[index] := And(data[index], maskToClear);
        assert data[..] == mid[index := data[index]];
        PaintRest(data[..], mid, was, len, start, done, index, len - bitsToClear, maskToClear, false);
        done := done + bitsToClear;
        bitsToClear := len;
        maskToClear := Zero(len);
        index := index + 1;
      }
      if length > 0 {
        if index >= Size() {
          PaintedPastEnd(data[..], was, len, start, done, start + count, false, index);
          return Err(OutOfBound(index, Volume()));
        }
        ClearLastWord(start + count, index, maskToClear, was, start, done, len - bitsToClear);
        return Ok(());
      }
      PaintedToWord(data[..], was, len, start, done, index, false);
      return Ok(());
    }

    /** At `num == Volume()` the bound check passes and the word lookup is out of bounds: a panic. */
    method Contain(num: usize) returns (r: Result<bool, BitmapError>)
      requires Valid() && num != Volume()
      ensures r == if num < Volume() then Ok(num in Bits()) else Err(OutOfBound(num, Volume()))
    {
      if num > Volume() {
        return Err(OutOfBound(num, Volume()));
      }
      InVol(num, Size(), len);
      TestBit(data[BitIndex(num, len)], BitPos(num, len));
      return Ok(IsNonZero(And(data[BitIndex(num, len)], ShiftUp(One(len), BitPos(num, len)))));
    }

    method CountFrontBits(offset: usize) returns (r: Result<nat, BitmapError>)
      requires Valid()
      ensures r == if offset <= Volume() then Ok(Rank(Bits(), offset)) else Err(OutOfBound(offset, Size()))
    {
      if offset > Volume() {
        return Err(OutOfBound(offset, Size()));
      }
      var num := 0;
      ghost var words, bits := data[..], Bits();
      RankStep(bits, 0);
      SplitIndex(offset, len);
      InVol(offset, Size() + 1, len);
      for i := 0 to BitIndex(offset, len) + 1
        invariant i <= BitIndex(offset, len) && num == Rank(bits, WordStart(i, len))
      {
        if i == BitIndex(offset, len) {
          for j := WordStart(i, len) to offset
            invariant num == Rank(bits, j)
          {
            var ret := Contain(j);
            assert ret.Ok?;
            if ret.value {
              num := num + 1;
            }
            RankStep(bits, j);
          }
          break;
        }
        if data[i] != Zero(len) {
          for j := 0 to len
            invariant num == Rank(bits, WordStart(i, len) + j)
          {
            RankWordStep(words, len, i, j);
            if IsNonZero(And(data[i], ShiftUp(One(len), j))) {
              num := num + 1;
            }
          }
        } else {
          RankEmptyWord(words, len, i);
        }
      }
      return Ok(num);
    }

    method FindNextZero(offset: usize) returns (r: Result<nat, BitmapError>)
      requires Valid()
      ensures r.Ok? && IsFound(data[..], len, offset, false, r.value)
    {
      var idx := BitIndex(offset, len);
      var from: nat := BitPos(offset, len);
      SplitIndex(offset, len);
      var i := idx;
      while i < Size()
        invariant idx <= i && from < len
        invariant if idx <= Size() then i <= Size() && SearchedTo(data[..], len, offset, i, from, false) else i == idx
      {
        if data[i] == Full(len) {
          PassWord(data[..], len, offset, i, from, false);
          i := i + 1;
          continue;
        }
        for j := from to len
          invariant forall k :: from <= k < j ==> data[i][k]
        {
          BitSetAt(data[..], len, i, j);
          var c := Contain(WordStart(i, len) + j);
          assert c.Ok?;
          if !c.value {
            StopAtBit(data[..], len, offset, i, from, j, false);
            return Ok(WordStart(i, len) + j);
          }
        }
        ScanWord(data[..], len, offset, i, from, false);
        from := 0;
        i := i + 1;
      }
      NothingFound(data[..], len, offset, i, from, false);
      return Ok(Volume());
    }

    method FindNextBit(offset: usize) returns (r: Result<nat, BitmapError>)
      requires Valid()
      ensures r.Ok? && IsFound(data[..], len, offset, true, r.value)
    {
      var idx := BitIndex(offset, len);
      var from: nat := BitPos(offset, len);
      SplitIndex(offset, len);
      var i := idx;
      while i < Size()
        invariant idx <= i && from < len
        invariant if idx <= Size() then i <= Size() && SearchedTo(data[..], len, offset, i, from, true) else i == idx
      {
        if data[i] == Zero(len) {
          PassWord(data[..], len, offset, i, from, true);
          i := i + 1;
          continue;
        }
        for j := from to len
          invariant forall k :: from <= k < j ==> !data[i][k]
        {
          BitSetAt(data[..], len, i, j);
          var c := Contain(WordStart(i, len) + j);
          assert c.Ok?;
          if c.value {
            StopAtBit(data[..], len, offset, i, from, j, true);
            return Ok(WordStart(i, len) + j);
          }
        }
        ScanWord(data[..], len, offset, i, from, true);
        from := 0;
        i := i + 1;
      }
      NothingFound(data[..], len, offset, i, from, true);
      return Ok(Volume());
    }

    method ClearAll()
      requires Valid()
      modifies data
      ensures Valid() && Bits() == {}
    {
      for i := 0 to Size()
        invariant Valid()
        invariant forall k :: 0 <= k < i ==> data[k] == Zero(len)
      {
        data[i] := Zero(len);
      }
      assert forall i :: 0 <= i < Size() ==> data[..][i] == Zero(len);
    }
  }
}
