/** The readers on bytes written out by hand, as the formats have them. */
module FormatSamples {
  import opened Numbers
  import opened Hybrid
  import opened Columns
  import opened PlainReader
  import opened RleReader
  import opened RleRuns
  import opened Wire

  // ---- the RLE / bit-packed hybrid

  lemma NothingLeft(w: nat)
    ensures ParseRun([], w) == NoParse && HybridValues([], w) == []
  {
  }

  /** 300, twice, at a width of nine bits: the value takes two bytes. */
  lemma WideRun(s: seq<byte>)
    requires s == [4, 0x2C, 0x01]
    ensures HybridValues(s, 9) == [300, 300]
  {
    assert s[1..] == [0x2C, 0x01] && s[1..][..2] == [0x2C, 0x01] && s[1..][2..] == [];
    FewBytes([0x2C, 0x01]);
    NothingLeft(9);
    assert ParseRun(s, 9) == Parsed(RleRun(2, 300), []);
  }

  /** The numbers 0 to 7 at a width of three bits: the example of Encodings.md. */
  lemma PackedRunOfThree(s: seq<byte>)
    requires s == [3, 0x88, 0xC6, 0xFA]
    ensures HybridValues(s, 3) == [0, 1, 2, 3, 4, 5, 6, 7]
  {
    var group: seq<byte> := [0x88, 0xC6, 0xFA];
    assert s[1..] == group && group[..3] == group && group[3..] == [];
    FewBytes(group);
    assert FromLittleEndian(group) == 0xFAC688;
    PowersOfTwo();
    assert Unpack8(group, 3) == [0, 1, 2, 3, 4, 5, 6, 7];
    NothingLeft(3);
    assert UnpackGroups([], 3, 0) == Parsed([], []);
    assert Unpack8(group[..3], 3) + [] == [0, 1, 2, 3, 4, 5, 6, 7];
    assert UnpackGroups(group, 3, 1) == Parsed([0, 1, 2, 3, 4, 5, 6, 7], []);
    assert Uleb(s) == Parsed(3, group);
    assert ParseRun(s, 3) == Parsed(PackedRun([0, 1, 2, 3, 4, 5, 6, 7]), []);
  }

  lemma PowersOfTwo()
    ensures Pow(2, 0) == 1 && Pow(2, 3) == 8 && Pow(2, 6) == 0x40 && Pow(2, 9) == 0x200 && Pow(2, 12) == 0x1000
    ensures Pow(2, 15) == 0x8000 && Pow(2, 18) == 0x4_0000 && Pow(2, 21) == 0x20_0000
  {
    PowAdd(2, 3, 3);
    PowAdd(2, 6, 3);
    PowAdd(2, 9, 3);
    PowAdd(2, 12, 3);
    PowAdd(2, 15, 3);
    PowAdd(2, 18, 3);
  }

  /** The example of the LEB128 literature: 624485. */
  lemma LongHeader(s: seq<byte>)
    requires s == [0xE5, 0x8E, 0x26, 7]
    ensures Uleb(s) == Parsed(624485, [7])
  {
    assert s[1..] == [0x8E, 0x26, 7] && s[1..][1..] == [0x26, 7] && s[1..][1..][1..] == [7];
    assert Uleb(s[1..][1..]) == Parsed(0x26, [7]);
    assert Uleb(s[1..]) == Parsed(0x8E - 128 + 128 * 0x26, [7]);
  }

  /** Dictionary ids behind their width byte. */
  method ReadIds(input: seq<byte>, count: nat) returns (vs: seq<Value>)
    requires input != [] && 0 < input[0] <= 32 && count == |HybridValues(input[1..], input[0])|
    ensures vs == IdValues(HybridValues(input[1..], input[0]))
  {
    hide HybridValues, FromLittleEndian, IdValues;
    var reader := new VectorizedRleValuesReader.ForValues();
    var _ := reader.InitFromPage(count, input);
    vs := Drain(reader, count);
  }

  /** Levels behind their length. */
  method ReadLevels(input: seq<byte>, width: nat, length: nat, count: nat) returns (vs: seq<Value>, after: seq<byte>)
    requires 0 < width <= 32 && |input| >= 4 && FromLittleEndian(input[..4]) == length <= |input| - 4
    requires count == |HybridValues(input[4..][..length], width)|
    ensures vs == IdValues(HybridValues(input[4..][..length], width)) && after == input[4..][length..]
  {
    hide HybridValues, FromLittleEndian, IdValues;
    var reader := new VectorizedRleValuesReader.ForLevels(width, true);
    after := reader.InitFromPage(count, input);
    vs := Drain(reader, count);
  }

  /** A run of two, a packed group, and the same group as levels with a byte behind them. */
  method ReadRuns() returns (wide: seq<Value>, packed: seq<Value>, levels: seq<Value>, after: seq<byte>)
    ensures wide == [IntVal(300), IntVal(300)]
    ensures packed == [IntVal(0), IntVal(1), IntVal(2), IntVal(3), IntVal(4), IntVal(5), IntVal(6), IntVal(7)]
    ensures levels == packed && after == [99]
  {
    hide HybridValues, FromLittleEndian;
    WideRun([4, 0x2C, 0x01]);
    PackedRunOfThree([3, 0x88, 0xC6, 0xFA]);
    var input: seq<byte> := [9, 4, 0x2C, 0x01];
    assert input[1..] == [4, 0x2C, 0x01];
    wide := ReadIds(input, 2);
    input := [3, 3, 0x88, 0xC6, 0xFA];
    assert input[1..] == [3, 0x88, 0xC6, 0xFA];
    packed := ReadIds(input, 8);
    input := [4, 0, 0, 0, 3, 0x88, 0xC6, 0xFA, 99];
    FewBytes(input[..4]);
    assert input[4..][..4] == [3, 0x88, 0xC6, 0xFA] && input[4..][4..] == [99];
    levels, after := ReadLevels(input, 3, 4, 8);
  }

  // ---- PLAIN

  /** Packed booleans through the reader, from any bit offset. */
  method PackAndRead(bs: seq<bool>, skipped: nat) returns (vs: seq<Value>)
    requires skipped <= |bs|
    ensures |vs| == |bs| - skipped && forall i | 0 <= i < |vs| :: vs[i] == BoolVal(bs[skipped + i])
  {
    hide AllBits, PackBools, BitsLeft;
    var reader := new VectorizedPlainValuesReader();
    reader.InitFromPage(|bs|, PackBools(bs));
    ghost var raws := AllBits(PackBools(bs));
    AllBitsLength(PackBools(bs));
    forall i | 0 <= i < |bs| ensures raws[i] == RawBool(bs[i]) {
      BoolsRoundTrip(bs, i);
    }
    assert reader.Raws(PhysBool) == PlainRaws(PhysBool, PackBools(bs)) == raws;
    reader.SkipBooleans(skipped);
    var c := new ColumnVector(|bs| - skipped);
    reader.ReadBooleans(|bs| - skipped, c, 0);
    vs := c.cells;
    ghost var cells := Cells(BooleanUpdater, raws[skipped..][..|bs| - skipped]);
    assert vs == Payload(cells);
    forall i | 0 <= i < |vs| ensures vs[i] == BoolVal(bs[skipped + i]) {
      assert raws[skipped..][..|bs| - skipped][i] == raws[skipped + i];
    }
  }

  /** 300 and -2 as words, "hi" behind its length, and the bits of 5. */
  lemma PlainBytes()
    ensures Words([0x2C, 1, 0, 0, 0xFE, 0xFF, 0xFF, 0xFF]) == [Raw32(300), Raw32(0xFFFF_FFFE)]
    ensures Convert(IntegerUpdater, Raw32(0xFFFF_FFFE)) == Val(IntVal(-2))
    ensures Binaries([2, 0, 0, 0, 104, 105]) == [RawBinary([104, 105])]
    ensures AllBits([5])[..4] == [RawBool(true), RawBool(false), RawBool(true), RawBool(false)]
  {
    var s: seq<byte> := [0x2C, 1, 0, 0, 0xFE, 0xFF, 0xFF, 0xFF];
    assert s[4 * 0..4 * 0 + 4] == [0x2C, 1, 0, 0] && s[4 * 1..4 * 1 + 4] == [0xFE, 0xFF, 0xFF, 0xFF];
    FewBytes([0x2C, 1, 0, 0]);
    FewBytes([0xFE, 0xFF, 0xFF, 0xFF]);
    var t: seq<byte> := [2, 0, 0, 0, 104, 105];
    assert t[..4] == [2, 0, 0, 0] && t[4..4 + 2] == [104, 105] && t[4 + 2..] == [];
    FewBytes([2, 0, 0, 0]);
    assert Binaries([]) == [];
    PowersOfTwo();
    assert Pow(2, 1) == 2 && Pow(2, 2) == 4;
    assert AllBits([5]) == BitsFrom(5, 0) + AllBits([]);
  }

  // ---- the columns on the wire

  lemma {:induction false} Zeros(w: nat)
    ensures BigEndian(0, w) == seq(w, _ => 0 as byte)
  {
    if w > 0 {
      Zeros(w - 1);
    }
  }

  lemma {:induction false} Ones(w: nat)
    ensures BigEndian(Pow(256, w) - 1, w) == seq(w, _ => 255 as byte)
    decreases w
  {
    if w > 0 {
      var p := Pow(256, w - 1);
      assert Pow(256, w) - 1 == 255 + 256 * (p - 1);
      DivModUnique(p - 1, 255, 256);
      Ones(w - 1);
    }
  }

  /** A long is eight bytes, the highest first, negative ones in two's complement. */
  lemma LongBytes(longs: Column)
    requires longs == Column(LongType, [Number(258), Number(-1)])
    ensures Sendable(longs) && Pack(longs, 2) == [0, 0, 0, 0, 0, 0, 1, 2, 255, 255, 255, 255, 255, 255, 255, 255]
  {
    hide BigEndian, Pow;
    assert Encode(longs, 0) == [0, 0, 0, 0, 0, 0, 1, 2] by { LowBytes(); }
    assert Encode(longs, 1) == [255, 255, 255, 255, 255, 255, 255, 255] by { Ones(8); }
    assert Pack(longs, 0) == [];
    assert Pack(longs, 1) == Pack(longs, 0) + Encode(longs, 0);
    assert Pack(longs, 2) == Pack(longs, 1) + Encode(longs, 1);
  }

  lemma LowBytes()
    ensures BigEndian(258, 8) == [0, 0, 0, 0, 0, 0, 1, 2]
  {
    Zeros(6);
    assert BigEndian(1, 7) == BigEndian(0, 6) + [1];
    assert BigEndian(258, 8) == BigEndian(1, 7) + [2];
  }

  /** Strings are as wide as the longest without the zeros at its end, with zeros behind them; a space is kept. */
  lemma TextBytes(texts: Column)
    requires texts == Column(StringType, [Text([97, 32]), Text([98, 99, 100, 0])])
    ensures Sendable(texts) && Pack(texts, 2) == [97, 32, 0, 98, 99, 100]
  {
    assert Strip([98, 99, 100, 0]) == Strip([98, 99, 100]) == [98, 99, 100] by {
      assert [98, 99, 100, 0][..3] == [98, 99, 100];
    }
    assert Strip([97, 32]) == [97, 32];
    var items := texts.items;
    assert items[..1] == [items[0]] && items[..1][..0] == [];
    assert ItemSize([]) == 1;
    assert ItemSize(items[..1]) == 2;
    assert ItemSize(items) == 3;
    assert Pack(texts, 0) == [];
    assert Pack(texts, 1) == Pack(texts, 0) + Encode(texts, 0);
    assert Pack(texts, 2) == Pack(texts, 1) + Encode(texts, 1);
  }
}
