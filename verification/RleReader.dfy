/** The run-length / bit-packed decoder for definition levels and dictionary ids. */
module RleReader {
  import opened Numbers
  import opened Hybrid
  import opened Columns

  datatype Mode = RLE | PACKED

  /** A decoded 32-bit pattern as the raw int a dictionary-id vector stores. */
  function IdRaws(ids: seq<int>): (raws: seq<Raw>)
    ensures |raws| == |ids|
  {
    seq(|ids|, i requires 0 <= i < |ids| => Raw32(ids[i]))
  }

  function IdValues(ids: seq<int>): (vs: seq<Value>)
    ensures |vs| == |ids|
  {
    seq(|ids|, i requires 0 <= i < |ids| => IntVal(Signed32(ids[i])))
  }

  lemma WriteNothing(cells: seq<Value>, at: nat, all: seq<int>)
    requires at <= |cells|
    ensures Write(cells, at, IdValues(all[..0])) == cells
  {
  }

  lemma WriteIdsStep(cells: seq<Value>, at: nat, all: seq<int>, k: nat, more: seq<int>)
    requires k <= |all| && more <= all[k..] && at + k + |more| <= |cells|
    ensures Write(Write(cells, at, IdValues(all[..k])), at + k, IdValues(more))
         == Write(cells, at, IdValues(all[..k + |more|]))
  {
    assert IdValues(all[..k + |more|]) == IdValues(all[..k]) + IdValues(more);
    WriteWrite(cells, at, IdValues(all[..k]), IdValues(more));
  }

  lemma FewBytes(bs: seq<byte>)
    ensures |bs| == 0 ==> FromLittleEndian(bs) == 0
    ensures |bs| == 1 ==> FromLittleEndian(bs) == bs[0]
    ensures |bs| == 2 ==> FromLittleEndian(bs) == 0x100 * bs[1] as int + bs[0]
    ensures |bs| == 3 ==> FromLittleEndian(bs) == 0x1_0000 * bs[2] as int + 0x100 * bs[1] as int + bs[0]
    ensures |bs| == 4 ==>
      FromLittleEndian(bs) == 0x100_0000 * bs[3] as int + 0x1_0000 * bs[2] as int + 0x100 * bs[1] as int + bs[0]
  {
    if |bs| > 0 {
      assert FromDigits(bs, 256) == bs[0] + 256 * FromDigits(bs[1..], 256);
      if |bs| <= 4 {
        FewBytes(bs[1..]);
      }
    }
  }

  /**
   One step of the variable-length int loop: `bits` are the low seven bits of what is left and
   `high` is the rest. As long as the number fits 32 bits, shifting wraps only once nothing is left.
   */
  lemma VarIntStep(value: nat, bits: nat, high: nat, shift: nat, total: nat)
    requires total < TWO_32 && bits < 128
    requires shift < 32 ==> value < Pow(2, shift) && total == value + Shl(bits + 128 * high, shift)
    requires shift >= 32 ==> value == total && bits + 128 * high == 0
    ensures var v := BitOr(value, Shl(bits, shift % 32) % TWO_32);
      && v < TWO_32
      && (shift + 7 < 32 ==> v < Pow(2, shift + 7) && total == v + Shl(high, shift + 7))
      && (shift + 7 >= 32 ==> v == total && high == 0)
      && (high == 0 ==> v == total)
  {
    hide BitOr, Shl, Pow;
    ShlZero(shift + 7);
    if shift < 32 {
      ShlSplit7(bits, high, shift);
      Shl7Bound(bits, shift);
      BitOrDisjoint(value, bits, shift);
      if shift + 7 >= 32 && high > 0 {
        ShlAtLeast(high, shift + 7);
        PowOfTwo32();
        PowOfTwoMono(32, shift + 7);
        assert false;
      }
    } else {
      ShlZero(shift % 32);
      BitOrZero(value);
    }
  }

  lemma PowOfTwo32()
    ensures Pow(2, 32) == TWO_32
  {
    PowOfTwo8();
    PowAdd(2, 8, 8);
    PowAdd(2, 16, 16);
  }

  lemma NextRun(s: seq<byte>, w: nat)
    requires HybridValues(s, w) != []
    ensures ParseRun(s, w).Parsed?
    ensures var p := ParseRun(s, w);
      && HybridValues(s, w) == p.value.Values() + HybridValues(p.rest, w)
      && (NoEmptyRuns(s, w) ==> p.value.Values() != [] && NoEmptyRuns(p.rest, w))
  {
  }

  lemma ParseRunCases(s: seq<byte>, w: nat)
    requires ParseRun(s, w).Parsed?
    ensures var u, p := Uleb(s), ParseRun(s, w);
      && u.Parsed? && u.value < TWO_32
      && if u.value % 2 == 0 then
           PaddedBytes(w) <= |u.rest|
           && p.value == RleRun(u.value / 2, FromLittleEndian(u.rest[..PaddedBytes(w)]))
           && p.rest == u.rest[PaddedBytes(w)..]
         else
           var g := UnpackGroups(u.rest, w, u.value / 2);
           g.Parsed? && p == Parsed(PackedRun(g.value), g.rest)
  {
  }

  /** Where a reader stands: what is left of its run, and the runs after it. */
  datatype Position = Position(count: int, stream: seq<byte>, width: nat)
  {
    /** A single read of the value behind the next `n` finds it, or meets an empty run. */
    predicate SingleOk(n: nat) {
      n < count || (width > 0 && 0 <= count && SinglyReadable(stream, width, n - count))
    }

    /** Values from the `lo`-th on are as they were `m` values before. */
    ghost predicate Follows(from: Position, m: nat, lo: nat) {
      forall j: nat | j >= lo :: SingleOk(j) == from.SingleOk(m + j)
    }
  }

  lemma PositionTaken(p: Position, n: nat)
    requires n <= p.count
    ensures p.(count := p.count - n).Follows(p, n, 0)
  {
  }

  /** Opening the next run makes no difference to a value, unless the run is empty and the value the next one. */
  lemma PositionOpened(p: Position)
    requires p.count == 0 && p.width > 0 && ParseRun(p.stream, p.width).Parsed?
    ensures var r := ParseRun(p.stream, p.width);
      Position(|r.value.Values()|, r.rest, p.width).Follows(p, 0, if r.value.Values() == [] then 1 else 0)
  {
  }

  lemma FollowsSelf(p: Position, lo: nat)
    ensures p.Follows(p, 0, lo)
  {
  }

  lemma FollowsOn(p: Position, q: Position, r: Position, m: nat, n: nat, lo: nat, lo1: nat, lo2: nat)
    requires q.Follows(p, m, lo) && r.Follows(q, n, lo1) && lo1 <= lo2 && lo <= n + lo2
    ensures r.Follows(p, m + n, lo2)
  {
    hide Position.SingleOk;
    forall j: nat | j >= lo2 ensures r.SingleOk(j) == p.SingleOk(m + n + j) {
      assert q.SingleOk(n + j) == p.SingleOk(m + (n + j));
    }
  }

  lemma OneTaken(p: Position, q: Position)
    requires q.Follows(p, 0, 0) && q.count > 0
    ensures q.(count := q.count - 1).Follows(p, 1, 0)
  {
    hide Position.SingleOk;
    PositionTaken(q, 1);
    FollowsOn(p, q, q.(count := q.count - 1), 0, 1, 0, 0, 0);
  }

  class VectorizedRleValuesReader {
    const fixedWidth: bool
    const readLength: bool
    var stream: seq<byte>
    var bitWidth: nat
    var bytesWidth: nat
    var mode: Mode
    var currentCount: int
    var currentValue: int
    var currentBuffer: array<int>
    var currentBufferIdx: int
    /** How many values the last packed run unpacked into `currentBuffer`. */
    ghost var unpacked: nat

    ghost predicate Valid()
      reads this
    {
      && bitWidth <= 32 && bytesWidth == PaddedBytes(bitWidth)
      && 0 <= currentCount && 0 <= currentBufferIdx && currentBuffer.Length >= 16
      && (mode == PACKED ==> currentBufferIdx + currentCount == unpacked <= currentBuffer.Length)
      && (mode == PACKED ==> bitWidth > 0)
    }

    ghost function Repr(): set<object>
      reads this
    {
      {this, currentBuffer}
    }

    ghost function Current(): (vs: seq<int>)
      requires Valid()
      reads this, currentBuffer
      ensures |vs| == currentCount
    {
      if mode == RLE then Repeat(currentValue, currentCount)
      else currentBuffer[currentBufferIdx..currentBufferIdx + currentCount]
    }

    /** The values not yet read: the rest of the current run, then the runs left in the stream. */
    ghost function Pending(): (vs: seq<int>)
      requires Valid()
      reads this, currentBuffer
    {
      Current() + if bitWidth == 0 then [] else HybridValues(stream, bitWidth)
    }

    ghost predicate Solid()
      reads this
    {
      bitWidth == 0 || NoEmptyRuns(stream, bitWidth)
    }

    ghost function Place(): Position
      reads this
    {
      Position(currentCount, stream, bitWidth)
    }

    /** For dictionary ids: the bit width is the first byte of the page's values. */
    constructor ForValues()
      ensures Valid() && fresh(currentBuffer) && Unread()
      ensures bitWidth == 0 && !fixedWidth
    {
      fixedWidth, readLength := false, false;
      bitWidth, bytesWidth := 0, 0;
      stream, mode, currentCount, currentValue, currentBufferIdx, unpacked := [], RLE, 0, 0, 0, 0;
      currentBuffer := new int[16];
    }

    /** For levels: the bit width is known; a length prefix is read when `prefixed`. */
    constructor ForLevels(width: nat, prefixed: bool)
      requires width <= 32
      ensures Valid() && fresh(currentBuffer) && Unread()
      ensures bitWidth == width && fixedWidth && readLength == prefixed
    {
      fixedWidth, readLength := true, prefixed;
      bitWidth, bytesWidth := width, PaddedBytes(width);
      stream, mode, currentCount, currentValue, currentBufferIdx, unpacked := [], RLE, 0, 0, 0, 0;
      currentBuffer := new int[16];
    }

    ghost predicate Unread()
      reads this
    {
      mode == RLE && currentCount == 0
    }

    /**
     Attaches the reader to a page's bytes. `rest` is what the caller's stream still holds: all that
     follows a length-prefixed slice, or everything when the reader has no prefix to read.
     */
    method InitFromPage(valueCount: nat, input: seq<byte>) returns (rest: seq<byte>)
      requires Valid() && Unread()
      requires fixedWidth && readLength ==> |input| >= 4 && FromLittleEndian(input[..4]) <= |input| - 4
      requires !fixedWidth && input != [] ==> input[0] <= 32
      modifies this
      ensures Valid() && currentBuffer == old(currentBuffer)
      ensures if fixedWidth then
          bitWidth == old(bitWidth)
          && stream == (if readLength then input[4..][..FromLittleEndian(input[..4])] else input)
          && rest == (if readLength then input[4..][FromLittleEndian(input[..4])..] else input)
        else if input == [] then bitWidth == old(bitWidth) && stream == []
        else bitWidth == input[0] && stream == input[1..]
      ensures Pending() == if bitWidth == 0 then Repeat(0, valueCount) else HybridValues(stream, bitWidth)
    {
      stream := input;
      rest := input;
      if fixedWidth {
        if readLength {
          var length := ReadIntLittleEndian();
          rest := stream[length..];
          stream := stream[..length];
        }
      } else if |stream| > 0 {
        var width := stream[0];
        stream := stream[1..];
        bitWidth, bytesWidth := width, PaddedBytes(width);
      }
      if bitWidth == 0 {
        mode, currentCount, currentValue := RLE, valueCount, 0;
      } else {
        currentCount := 0;
      }
    }

    method ReadUnsignedVarInt() returns (value: nat)
      requires Uleb(stream).Parsed? && Uleb(stream).value < TWO_32
      modifies `stream
      ensures Parsed(value, stream) == old(Uleb(stream))
    {
      ghost var total, rest := Uleb(stream).value, Uleb(stream).rest;
      value := 0;
      var shift := 0;
      var more := true;
      while more
        invariant shift >= 0 && value < TWO_32
        invariant more ==> Uleb(stream).Parsed? && Uleb(stream).rest == rest
        invariant more && shift < 32 ==> value < Pow(2, shift) && total == value + Shl(Uleb(stream).value, shift)
        invariant more && shift >= 32 ==> value == total && Uleb(stream).value == 0
        invariant !more ==> value == total && stream == rest
        decreases more, |stream|
      {
        var b := stream[0];
        stream := stream[1..];
        // value |= (b & 0x7F) << shift, where Java shifts an int by shift mod 32
        var bits := b % 128;
        VarIntStep(value, bits, if b >= 128 then Uleb(stream).value else 0, shift, total);
        value := BitOr(value, Shl(bits, shift % 32) % TWO_32);
        shift := shift + 7;
        more := b >= 128;
      }
    }

    /** Four bytes, least significant first, as a 32-bit pattern. */
    method ReadIntLittleEndian() returns (pattern: nat)
      requires |stream| >= 4
      modifies `stream
      ensures pattern == FromLittleEndian(old(stream)[..4]) && stream == old(stream)[4..]
    {
      FewBytes(stream[..4]);
      var ch4: int, ch3: int, ch2: int, ch1: int := stream[0], stream[1], stream[2], stream[3];
      stream := stream[4..];
      pattern := ch1 * 0x100_0000 + ch2 * 0x1_0000 + ch3 * 0x100 + ch4;
    }

    method ReadIntLittleEndianPaddedOnBitWidth() returns (pattern: nat)
      requires Valid() && bytesWidth <= |stream|
      modifies `stream
      ensures pattern == FromLittleEndian(old(stream)[..bytesWidth]) && stream == old(stream)[bytesWidth..]
      // as many bytes as the bit width needs, and no more
      ensures var k := |old(stream)| - |stream|; 8 * (k - 1) < bitWidth <= 8 * k
    {
      FewBytes(stream[..bytesWidth]);
      if bytesWidth == 0 {
        pattern := 0;
      } else if bytesWidth == 1 {
        pattern := stream[0];
        stream := stream[1..];
      } else if bytesWidth == 2 {
        var ch2: int, ch1: int := stream[0], stream[1];
        stream := stream[2..];
        pattern := ch1 * 0x100 + ch2;
      } else if bytesWidth == 3 {
        var ch3: int, ch2: int, ch1: int := stream[0], stream[1], stream[2];
        stream := stream[3..];
        pattern := ch1 * 0x1_0000 + ch2 * 0x100 + ch3;
      } else {
        pattern := ReadIntLittleEndian();
      }
    }

    /** The run at the front of the old stream is now the current one. */
    twostate predicate OpenedRun()
      reads this, currentBuffer
    {
      var p := ParseRun(old(stream), old(bitWidth));
      && Valid() && p.Parsed? && stream == p.rest && Current() == p.value.Values()
      && if p.value.RleRun? then mode == RLE && currentValue == p.value.value
         else mode == PACKED && currentBufferIdx == 0
    }

    /** The run that a header announces, whose bytes have been taken off `rest`. */
    ghost predicate TakenBehind(header: nat, rest: seq<byte>)
      reads this
    {
      var k := |rest| - |stream|;
      && 0 <= k && stream == rest[k..]
      && if header % 2 == 0 then
           mode == RLE && currentCount == header / 2
           && 8 * (k - 1) < bitWidth <= 8 * k && currentValue == FromLittleEndian(rest[..k])
         else mode == PACKED && currentCount == 8 * (header / 2) && k == bitWidth * (header / 2)
    }

    /**
     Opens the next run. The values still to be read stay the same; a run of length zero leaves
     `currentCount` at zero.
     */
    method ReadNextGroup()
      requires Valid() && currentCount == 0 && |Pending()| > 0
      modifies this, currentBuffer
      ensures Valid() && bitWidth == old(bitWidth) && bitWidth > 0
      ensures currentBuffer == old(currentBuffer) || fresh(currentBuffer)
      ensures Pending() == old(Pending())
      ensures |stream| < |old(stream)|
      ensures old(Solid()) ==> Solid() && currentCount > 0
      ensures OpenedRun()
      ensures old(Uleb(stream)).Parsed? && TakenBehind(old(Uleb(stream)).value, old(Uleb(stream)).rest)
      ensures Place().Follows(old(Place()), 0, if currentCount > 0 then 0 else 1)
    {
      hide UnpackGroups, FromLittleEndian, Uleb, HybridValues, ParseRun, NoEmptyRuns, Repeat;
      hide Position.SingleOk, Position.Follows;
      ghost var input := stream;
      NextRun(input, bitWidth);
      ParseRunCases(input, bitWidth);
      PositionOpened(Place());
      var header := ReadUnsignedVarInt();
      mode := if header % 2 == 0 then RLE else PACKED;
      if mode == RLE {
        currentCount := header / 2;
        currentValue := ReadIntLittleEndianPaddedOnBitWidth();
      } else {
        FillBuffer(header / 2);
      }
    }

    /** The packed case of `readNextGroup`: a larger buffer if need be, filled from its start. */
    method FillBuffer(numGroups: nat)
      requires bitWidth <= 32 && bytesWidth == PaddedBytes(bitWidth) && bitWidth > 0 && currentBuffer.Length >= 16
      requires mode == PACKED && UnpackGroups(stream, bitWidth, numGroups).Parsed?
      modifies `unpacked, `currentCount, `currentBuffer, `currentBufferIdx, `stream, currentBuffer
      ensures Valid() && currentBufferIdx == 0 && currentCount == 8 * numGroups
      ensures currentBuffer == old(currentBuffer) || fresh(currentBuffer)
      ensures Parsed(Current(), stream) == UnpackGroups(old(stream), bitWidth, numGroups)
      ensures var k := |old(stream)| - |stream|; k == bitWidth * numGroups && 0 <= k && stream == old(stream)[k..]
    {
      hide UnpackGroups;
      unpacked := 8 * numGroups;
      currentCount := numGroups * 8;
      if currentBuffer.Length < currentCount {
        currentBuffer := new int[currentCount];
      }
      currentBufferIdx := 0;
      GroupsTaken(stream, bitWidth, numGroups);
      UnpackAll(numGroups);
    }

    /** Lowering the count and, in packed mode, raising the index by `n` takes `n` pending values. */
    twostate lemma Advanced(n: nat)
      requires old(Valid()) && n <= old(currentCount)
      requires currentCount == old(currentCount) - n
      requires currentBufferIdx == old(currentBufferIdx) + if mode == PACKED then n else 0
      requires unchanged(`stream) && unchanged(`bitWidth) && unchanged(`bytesWidth) && unchanged(`mode)
      requires unchanged(`currentValue) && unchanged(`unpacked)
      requires unchanged(`currentBuffer) && unchanged(currentBuffer)
      ensures Valid() && Current() == old(Current())[n..] && Pending() == old(Pending())[n..]
    {
      hide HybridValues;
      var current, all := old(Current()), old(Pending());
      if mode == RLE {
        assert Current() == current[n..];
      } else {
        var at, end := currentBufferIdx, unpacked;
        assert current == currentBuffer[at - n..end] && Current() == currentBuffer[at..end];
      }
      assert all[n..] == current[n..] + all[|current|..];
    }

    /** What the two modes store is the front of what is pending. */
    lemma CurrentFront(n: nat)
      requires Valid() && n <= currentCount
      ensures n <= |Pending()|
      ensures mode == RLE ==> Repeat(currentValue, n) == Pending()[..n] && (n > 0 ==> currentValue == Pending()[0])
      ensures mode == PACKED ==> currentBuffer[currentBufferIdx..currentBufferIdx + n] == Pending()[..n]
    {
      assert Current()[..n] == Pending()[..n];
    }

    /** The next value comes from a run of positive length, now open or about to be opened. */
    ghost predicate ReadyForOne()
      reads this
    {
      currentCount > 0 || (bitWidth > 0 && ParseRun(stream, bitWidth).Parsed?
                           && ParseRun(stream, bitWidth).value.Values() != [])
    }

    lemma ReadyIsSingleOk()
      requires Valid()
      ensures ReadyForOne() <==> Place().SingleOk(0)
    {
    }

    /** Without empty runs before a value, every value can be read singly. */
    lemma SolidIsSingleOk()
      requires Valid() && Solid()
      ensures forall n: nat | n < |Pending()| :: Place().SingleOk(n)
    {
      hide HybridValues, NoEmptyRuns, SinglyReadable;
      if bitWidth > 0 {
        SinglyReadableExactly(stream, bitWidth);
      }
      forall n: nat | n < |Pending()| ensures Place().SingleOk(n) {
        if n >= currentCount {
          assert SinglyReadable(stream, bitWidth, n - currentCount);
        }
      }
    }

    lemma NextIsReady()
      requires Valid() && Solid() && |Pending()| > 0
      ensures ReadyForOne()
    {
      if currentCount == 0 {
        NextRun(stream, bitWidth);
      }
    }

    /**
     Reads one value. The group is fetched once, without a loop: when that group is an empty run,
     the counter goes below zero and the reader is no longer usable. It keeps in step exactly
     when the next run is not empty.
     */
    method ReadInteger() returns (v: int)
      requires Valid() && |Pending()| > 0
      modifies this, currentBuffer
      ensures currentBuffer == old(currentBuffer) || fresh(currentBuffer)
      ensures Valid() <==> old(ReadyForOne())
      ensures bitWidth == old(bitWidth)
      ensures old(ReadyForOne()) ==> v == old(Pending())[0] && Pending() == old(Pending())[1..]
      ensures old(ReadyForOne()) && old(Solid()) ==> Solid()
      ensures old(ReadyForOne()) ==> Place().Follows(old(Place()), 1, 0)
      ensures !old(ReadyForOne()) ==> currentCount == -1
      ensures !old(ReadyForOne()) && old(ParseRun(stream, bitWidth)).value.RleRun? ==>
        v == old(ParseRun(stream, bitWidth)).value.value
    {
      hide HybridValues, ParseRun, NoEmptyRuns, Uleb, Repeat, Pending, Position.SingleOk, Position.Follows;
      FollowsSelf(Place(), 0);
      if currentCount == 0 {
        ReadNextGroup();
      }
      ghost var started := currentCount > 0;
      if started {
        CurrentFront(1);
        OneTaken(old(Place()), Place());
      }
      label Opened:
      currentCount := currentCount - 1;
      if mode == RLE {
        v := currentValue;
      } else {
        v := currentBuffer[currentBufferIdx];
        currentBufferIdx := currentBufferIdx + 1;
      }
      if started {
        Advanced@Opened(1);
      }
    }

    /** `n` values of the current run into `c`, in bulk. */
    method PutCurrent(n: nat, c: ColumnVector, at: nat)
      requires Valid() && n <= currentCount && at + n <= |c.cells|
      modifies `currentCount, `currentBufferIdx, c`cells
      ensures Valid() && n <= |old(Pending())| && Pending() == old(Pending())[n..]
      ensures currentCount == old(currentCount) - n
      ensures c.cells == Write(old(c.cells), at, IdValues(old(Pending())[..n]))
    {
      hide Write, IdValues, Repeat, Current, Pending;
      CurrentFront(n);
      if mode == RLE {
        c.PutAll(at, IdValues(Repeat(currentValue, n)));
      } else {
        c.PutAll(at, IdValues(currentBuffer[currentBufferIdx..currentBufferIdx + n]));
        currentBufferIdx := currentBufferIdx + n;
      }
      currentCount := currentCount - n;
      Advanced(n);
    }

    /** `total` dictionary ids into `c`, starting at slot `rowId`. */
    method ReadIntegers(total: nat, c: ColumnVector, rowId: nat)
      requires Valid() && total <= |Pending()| && rowId + total <= |c.cells|
      modifies this, currentBuffer, c`cells
      ensures Valid() && bitWidth == old(bitWidth)
      ensures currentBuffer == old(currentBuffer) || fresh(currentBuffer)
      ensures Pending() == old(Pending())[total..]
      ensures old(Solid()) ==> Solid()
      ensures Place().Follows(old(Place()), total, 0)
      ensures c.cells == Write(old(c.cells), rowId, IdValues(old(Pending())[..total]))
    {
      hide HybridValues, ParseRun, NoEmptyRuns, Write, IdValues, Repeat, Current, Pending, OpenedRun;
      hide Position.SingleOk, Position.Follows;
      WriteNothing(c.cells, rowId, Pending());
      FollowsSelf(Place(), total);
      ghost var all, cells0, done := Pending(), c.cells, 0;
      var left := total;
      var at := rowId;
      while left > 0
        invariant 0 <= left && done + left == total && at == rowId + done
        invariant Valid() && bitWidth == old(bitWidth)
        invariant currentBuffer == old(currentBuffer) || fresh(currentBuffer)
        invariant Pending() == all[done..]
        invariant old(Solid()) ==> Solid()
        invariant c.cells == Write(cells0, rowId, IdValues(all[..done]))
        invariant Place().Follows(old(Place()), total - left, left)
        decreases left, |stream|
      {
        ghost var before := Place();
        if currentCount == 0 {
          ReadNextGroup();
          FollowsOn(old(Place()), before, Place(), total - left, 0, left, if currentCount > 0 then 0 else 1, left);
        }
        var n := Min(left, currentCount);
        WriteIdsStep(cells0, rowId, all, done, Pending()[..n]);
        PositionTaken(Place(), n);
        FollowsOn(old(Place()), Place(), Place().(count := currentCount - n), total - left, n, left, 0,
                  left - n);
        PutCurrent(n, c, at);
        at := at + n;
        left := left - n;
        done := done + n;
      }
    }

    method SkipIntegers(total: nat)
      requires Valid() && total <= |Pending()|
      modifies this, currentBuffer
      ensures Valid() && bitWidth == old(bitWidth)
      ensures currentBuffer == old(currentBuffer) || fresh(currentBuffer)
      ensures Pending() == old(Pending())[total..]
      ensures old(Solid()) ==> Solid()
      ensures Place().Follows(old(Place()), total, 0)
    {
      hide HybridValues, ParseRun, NoEmptyRuns, Repeat, Current, Pending, OpenedRun;
      hide Position.SingleOk, Position.Follows;
      FollowsSelf(Place(), total);
      ghost var all := Pending();
      var left := total;
      while left > 0
        invariant 0 <= left <= total
        invariant Valid() && bitWidth == old(bitWidth)
        invariant currentBuffer == old(currentBuffer) || fresh(currentBuffer)
        invariant Pending() == all[total - left..]
        invariant Place().Follows(old(Place()), total - left, left)
        invariant old(Solid()) ==> Solid()
        decreases left, |stream|
      {
        ghost var before := Place();
        if currentCount == 0 {
          ReadNextGroup();
          FollowsOn(old(Place()), before, Place(), total - left, 0, left, if currentCount > 0 then 0 else 1, left);
        }
        var n := Min(left, currentCount);
        PositionTaken(Place(), n);
        FollowsOn(old(Place()), Place(), Place().(count := currentCount - n), total - left, n, left, 0,
                  left - n);
        label Taken:
        if mode == PACKED {
          currentBufferIdx := currentBufferIdx + n;
        }
        currentCount := currentCount - n;
        left := left - n;
        Advanced@Taken(n);
      }
    }

    /** The loop of readNextGroup over the groups of a packed run. */
    method UnpackAll(numGroups: nat)
      requires Valid() && mode == PACKED && currentBufferIdx == 0 && currentCount == 8 * numGroups
      requires UnpackGroups(stream, bitWidth, numGroups).Parsed?
      modifies `stream, currentBuffer
      ensures Parsed(Current(), stream) == UnpackGroups(old(stream), bitWidth, numGroups)
    {
      hide Unpack8;
      ghost var all := UnpackGroups(stream, bitWidth, numGroups);
      ghost var left := numGroups;
      var valueIndex := 0;
      while valueIndex < currentCount
        invariant 0 <= left && 0 <= valueIndex && valueIndex + 8 * left == currentCount
        invariant var more := UnpackGroups(stream, bitWidth, left);
          more.Parsed? && more.rest == all.rest && currentBuffer[..valueIndex] + more.value == all.value
      {
        ghost var done := currentBuffer[..valueIndex];
        var vs := Unpack8(stream[..bitWidth], bitWidth);
        stream := stream[bitWidth..];
        forall k | 0 <= k < 8 {
          currentBuffer[valueIndex + k] := vs[k];
        }
        assert currentBuffer[..valueIndex + 8] == done + vs;
        valueIndex := valueIndex + 8;
        left := left - 1;
      }
      assert UnpackGroups(stream, bitWidth, 0) == Parsed([], stream);
      assert currentBuffer[..valueIndex] + [] == currentBuffer[..valueIndex] == Current();
    }
  }
}
