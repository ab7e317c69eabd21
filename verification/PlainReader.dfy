/**
 The PLAIN decoder (Encodings.md, section "Plain (PLAIN = 0)"). The input stream is the field
 `stream`, the bytes not yet read.
 */
module PlainReader {
  import opened Numbers
  import opened Hybrid
  import opened Columns

  // ---- what the bytes hold

  function Words(s: seq<byte>): (raws: seq<Raw>)
    ensures forall i | 0 <= i < |raws| :: raws[i].Raw32?
  {
    seq(|s| / 4, i requires 0 <= i < |s| / 4 => Raw32(FromLittleEndian(s[4 * i..4 * i + 4])))
  }

  function DoubleWords(s: seq<byte>): (raws: seq<Raw>)
    ensures forall i | 0 <= i < |raws| :: raws[i].Raw64?
  {
    seq(|s| / 8, i requires 0 <= i < |s| / 8 => Raw64(FromLittleEndian(s[8 * i..8 * i + 8])))
  }

  function Bit(b: byte, k: nat): Raw { RawBool(b / Pow(2, k) % 2 == 1) }

  function BitsFrom(b: byte, k: nat): (raws: seq<Raw>)
    requires k <= 8
    ensures forall i | 0 <= i < |raws| :: raws[i] == Bit(b, k + i)
  {
    seq(8 - k, i requires 0 <= i < 8 - k => Bit(b, k + i))
  }

  function AllBits(s: seq<byte>): (raws: seq<Raw>)
    ensures forall i | 0 <= i < |raws| :: raws[i].RawBool?
  {
    if s == [] then [] else BitsFrom(s[0], 0) + AllBits(s[1..])
  }

  /** The bits left in a partly read byte, then those of the bytes after it. */
  function BitsLeft(current: byte, bitOffset: nat, s: seq<byte>): (raws: seq<Raw>)
    requires bitOffset <= 8
    ensures forall i | 0 <= i < |raws| :: raws[i].RawBool?
  {
    if bitOffset == 0 then AllBits(s) else BitsFrom(current, bitOffset) + AllBits(s)
  }

  lemma BitsLeftStep(current: byte, bitOffset: nat, s: seq<byte>)
    requires 0 < bitOffset < 8
    ensures BitsLeft(current, bitOffset, s) == [Bit(current, bitOffset)] + BitsLeft(current, bitOffset + 1, s)
  {
    assert BitsFrom(current, bitOffset) == [Bit(current, bitOffset)] + BitsFrom(current, bitOffset + 1);
  }

  lemma BitsLeftByte(b: byte, s: seq<byte>)
    ensures AllBits([b] + s) == [Bit(b, 0)] + BitsLeft(b, 1, s)
    ensures BitsLeft(b, 8, s) == AllBits(s)
  {
    assert BitsFrom(b, 0) == [Bit(b, 0)] + BitsFrom(b, 1);
    assert ([b] + s)[1..] == s;
  }

  // ---- booleans as the format has them: least significant bit first

  function Digit(raw: Raw): int { if raw == RawBool(true) then 1 else 0 }

  /** The booleans as binary digits, lowest first. */
  function BoolDigits(raws: seq<Raw>): (ds: seq<int>)
    ensures |ds| == |raws| && forall i | 0 <= i < |ds| :: ds[i] == Digit(raws[i])
  {
    seq(|raws|, i requires 0 <= i < |raws| => Digit(raws[i]))
  }

  lemma {:induction false} AllBitsLength(s: seq<byte>)
    ensures |AllBits(s)| == 8 * |s|
  {
    if s != [] {
      AllBitsLength(s[1..]);
    }
  }

  /** The eight booleans of a byte are its binary digits, lowest first. */
  lemma BitsMakeByte(b: byte)
    ensures |AllBits([b])| == 8 && FromDigits(BoolDigits(AllBits([b])), 2) == b
  {
    PowOfTwo8();
    var ds := ToDigits(b, 2, 8);
    assert AllBits([b]) == BitsFrom(b, 0) + AllBits([]);
    forall k | 0 <= k < 8 ensures BoolDigits(AllBits([b]))[k] == ds[k] {
      DigitAt(b, 2, 8, k);
    }
    assert BoolDigits(AllBits([b])) == ds;
    FromToDigits(b, 2, 8);
  }

  /** Eight booleans to the byte, each after the first worth twice the one before; the last byte is filled up. */
  function PackBools(bs: seq<bool>): (s: seq<byte>)
    ensures |bs| <= 8 * |s|
    decreases |bs|
  {
    if bs == [] then []
    else
      var n := if |bs| < 8 then |bs| else 8;
      [BoolByte(bs[..n])] + PackBools(bs[n..])
  }

  function Doubled(bs: seq<bool>): (n: nat)
    ensures n < Pow(2, |bs|)
  {
    if bs == [] then 0 else (if bs[0] then 1 else 0) + 2 * Doubled(bs[1..])
  }

  function BoolByte(bs: seq<bool>): byte
    requires |bs| <= 8
  {
    PowOfTwo8();
    PowOfTwoMono(|bs|, 8);
    Doubled(bs)
  }

  lemma {:induction false} DoubledBit(bs: seq<bool>, k: nat)
    requires k < |bs|
    ensures Doubled(bs) / Pow(2, k) % 2 == if bs[k] then 1 else 0
    decreases k
  {
    if k > 0 {
      DoubledBit(bs[1..], k - 1);
      assert Pow(2, k) == 2 * Pow(2, k - 1);
      DivDiv(Doubled(bs), 2, Pow(2, k - 1));
      assert Doubled(bs) / 2 == Doubled(bs[1..]);
    } else {
      assert Pow(2, 0) == 1;
    }
  }

  /** The bits of packed booleans are the booleans. */
  lemma {:induction false} BoolsRoundTrip(bs: seq<bool>, i: nat)
    requires i < |bs|
    ensures i < |AllBits(PackBools(bs))| && AllBits(PackBools(bs))[i] == RawBool(bs[i])
    decreases |bs|
  {
    var n := if |bs| < 8 then |bs| else 8;
    var s := PackBools(bs);
    assert s[1..] == PackBools(bs[n..]);
    if i < n {
      DoubledBit(bs[..n], i);
      assert AllBits(s)[i] == BitsFrom(s[0], 0)[i];
    } else {
      BoolsRoundTrip(bs[n..], i - n);
      assert AllBits(s)[i] == AllBits(s[1..])[i - n];
    }
  }

  /** Length-prefixed byte strings, up to the first incomplete one. */
  function Binaries(s: seq<byte>): (raws: seq<Raw>)
    ensures forall i | 0 <= i < |raws| :: raws[i].RawBinary?
  {
    if |s| < 4 then []
    else
      var len := FromLittleEndian(s[..4]);
      if len >= TWO_31 || |s| < 4 + len then []
      else [RawBinary(s[4..4 + len])] + Binaries(s[4 + len..])
  }

  lemma WordsDrop(s: seq<byte>, n: nat)
    requires n <= |Words(s)|
    ensures 4 * n <= |s|
    ensures Words(s[4 * n..]) == Words(s)[n..]
  {
    var t := s[4 * n..];
    forall i | 0 <= i < |t| / 4 ensures Words(t)[i] == Words(s)[n + i] {
      assert t[4 * i..4 * i + 4] == s[4 * (n + i)..4 * (n + i) + 4];
    }
  }

  lemma DoubleWordsDrop(s: seq<byte>, n: nat)
    requires n <= |DoubleWords(s)|
    ensures 8 * n <= |s|
    ensures DoubleWords(s[8 * n..]) == DoubleWords(s)[n..]
  {
    var t := s[8 * n..];
    forall i | 0 <= i < |t| / 8 ensures DoubleWords(t)[i] == DoubleWords(s)[n + i] {
      assert t[8 * i..8 * i + 8] == s[8 * (n + i)..8 * (n + i) + 8];
    }
  }

  /** The first byte of a little-endian number is its value modulo 256. */
  lemma LowByte(bs: seq<byte>)
    requires |bs| == 4
    ensures FromLittleEndian(bs) % 0x100 == bs[0]
  {
    DivModUnique(FromDigits(bs[1..], 256), bs[0], 256);
  }

  lemma SliceOfPrefix(s: seq<byte>, lo: nat, hi: nat, n: nat)
    requires lo <= hi <= n <= |s|
    ensures s[..n][lo..hi] == s[lo..hi]
  {
  }

  lemma WordCell(u: Updater, s: seq<byte>, total: nat, i: nat)
    requires i < total && 4 * total <= |s|
    ensures Cells(u, Words(s)[..total])[i] == Convert(u, Raw32(FromLittleEndian(s[..4 * total][4 * i..4 * i + 4])))
  {
    SliceOfPrefix(s, 4 * i, 4 * i + 4, 4 * total);
  }

  lemma DoubleWordCell(u: Updater, s: seq<byte>, total: nat, i: nat)
    requires i < total && 8 * total <= |s|
    ensures Cells(u, DoubleWords(s)[..total])[i]
      == Convert(u, Raw64(FromLittleEndian(s[..8 * total][8 * i..8 * i + 8])))
  {
    SliceOfPrefix(s, 8 * i, 8 * i + 8, 8 * total);
  }

  lemma WriteNone(cells: seq<Value>, at: nat)
    requires at <= |cells|
    ensures Write(cells, at, []) == cells
  {
  }

  /** Writing one more converted value extends the written prefix. */
  lemma WriteOneMore(cells: seq<Value>, at: nat, cs: seq<Cell>, i: nat)
    requires i < |cs| && at + |cs| <= |cells| && AllValues(cs)
    ensures Write(cells, at, Payload(cs[..i]))[at + i := cs[i].value] == Write(cells, at, Payload(cs[..i + 1]))
  {
  }

  function Day(buffer: seq<byte>, i: nat): int
    requires 4 * i + 4 <= |buffer|
  {
    Signed32(FromLittleEndian(buffer[4 * i..4 * i + 4]))
  }

  function Micros(buffer: seq<byte>, i: nat): int
    requires 8 * i + 8 <= |buffer|
  {
    Signed64(FromLittleEndian(buffer[8 * i..8 * i + 8]))
  }

  ghost predicate DaysBefore(buffer: seq<byte>, n: nat, switch: int)
    requires 4 * n <= |buffer|
  {
    exists k :: 0 <= k < n && Day(buffer, k) < switch
  }

  /** Rebasing is the identity from the switch on, so rebasing all or none is rebasing each. */
  lemma IntegerWithRebaseUpdaterCells(s: seq<byte>, total: nat, failIfRebase: bool, cal: Calendar, rebase: bool)
    requires 4 * total <= |s| && cal.Lawful()
    requires rebase <==> DaysBefore(s[..4 * total], total, cal.switchDay)
    ensures var cs := Cells(IntegerWithRebaseUpdater(failIfRebase, cal), Words(s)[..total]);
      && (AllValues(cs) <==> !(rebase && failIfRebase))
      && (!(rebase && failIfRebase) ==> forall i | 0 <= i < total ::
           var v := Day(s[..4 * total], i);
           cs[i] == Val(IntVal(if rebase then cal.days(v) else v)))
  {
    var u := IntegerWithRebaseUpdater(failIfRebase, cal);
    var cs := Cells(u, Words(s)[..total]);
    forall i | 0 <= i < total
      ensures cs[i] == RebaseDays(Day(s[..4 * total], i), failIfRebase, cal)
    {
      WordCell(u, s, total, i);
    }
    if rebase && failIfRebase {
      var k :| 0 <= k < total && Day(s[..4 * total], k) < cal.switchDay;
      assert cs[k] == Rejected;
    }
  }

  ghost predicate MicrosBefore(buffer: seq<byte>, n: nat, switch: int)
    requires 8 * n <= |buffer|
  {
    exists k :: 0 <= k < n && Micros(buffer, k) < switch
  }

  /** Rebasing is the identity from the switch on, so rebasing all or none is rebasing each. */
  lemma LongWithRebaseUpdaterCells(s: seq<byte>, total: nat, failIfRebase: bool, cal: Calendar, rebase: bool)
    requires 8 * total <= |s| && cal.Lawful()
    requires rebase <==> MicrosBefore(s[..8 * total], total, cal.switchMicros)
    ensures var cs := Cells(LongWithRebaseUpdater(failIfRebase, cal), DoubleWords(s)[..total]);
      && (AllValues(cs) <==> !(rebase && failIfRebase))
      && (!(rebase && failIfRebase) ==> forall i | 0 <= i < total ::
           var v := Micros(s[..8 * total], i);
           cs[i] == Val(LongVal(if rebase then cal.micros(v) else v)))
  {
    var u := LongWithRebaseUpdater(failIfRebase, cal);
    var cs := Cells(u, DoubleWords(s)[..total]);
    forall i | 0 <= i < total
      ensures cs[i] == RebaseMicros(Micros(s[..8 * total], i), failIfRebase, cal)
    {
      DoubleWordCell(u, s, total, i);
    }
    if rebase && failIfRebase {
      var k :| 0 <= k < total && Micros(s[..8 * total], k) < cal.switchMicros;
      assert cs[k] == Rejected;
    }
  }

  /** The values a page's bytes hold. */
  function PlainRaws(k: Physical, s: seq<byte>): (raws: seq<Raw>)
  {
    match k
    case PhysBool => AllBits(s)
    case Phys32 => Words(s)
    case Phys64 => DoubleWords(s)
    case PhysBinary => Binaries(s)
  }

  // ---- where n values leave the reader

  datatype PlainState = PlainState(stream: seq<byte>, bitOffset: int, currentByte: byte)
  {
    predicate Has(k: Physical, n: nat) {
      && 0 <= bitOffset < 8
      && match k
         case PhysBool => bitOffset + n <= 8 * |Open()|
         case Phys32 => 4 * n <= |stream|
         case Phys64 => 8 * n <= |stream|
         case PhysBinary => n <= |Binaries(stream)|
    }

    /** The bytes with bits left: the partly read one, if any, and the stream. */
    function Open(): seq<byte> {
      (if bitOffset == 0 then [] else [currentByte]) + stream
    }

    /** The state behind the next `n` values. */
    function After(k: Physical, n: nat): PlainState
      requires Has(k, n)
    {
      match k
      case PhysBool =>
        var p := bitOffset + n;
        BitsInBytes(p, |Open()|);
        PlainState(Open()[Bytes(p)..], BitIn(p), if Bytes(p) == 0 then currentByte else Open()[Bytes(p) - 1])
      case Phys32 => this.(stream := stream[4 * n..])
      case Phys64 => this.(stream := stream[8 * n..])
      case PhysBinary => this.(stream := AfterBinaries(stream, n))
    }
  }

  function AfterBinaries(s: seq<byte>, n: nat): (rest: seq<byte>)
    requires n <= |Binaries(s)|
    ensures Binaries(rest) == Binaries(s)[n..]
    decreases n
  {
    if n == 0 then s else AfterBinaries(s[4 + FromLittleEndian(s[..4])..], n - 1)
  }

  lemma AfterNone(s: seq<byte>)
    ensures AfterBinaries(s, 0) == s
  {
  }

  lemma FirstBinary(s: seq<byte>, n: nat)
    requires 0 < n <= |Binaries(s)|
    ensures |s| >= 4 && |s| >= 4 + FromLittleEndian(s[..4]) && |Words(s)| > 0
    ensures var rest := s[4 + FromLittleEndian(s[..4])..];
      && Binaries(s) == [RawBinary(s[4..4 + FromLittleEndian(s[..4])])] + Binaries(rest)
      && n - 1 <= |Binaries(rest)| && AfterBinaries(s, n) == AfterBinaries(rest, n - 1)
  {
  }

  lemma {:induction false} AfterBinariesSplit(s: seq<byte>, m: nat, n: nat)
    requires m + n <= |Binaries(s)|
    ensures AfterBinaries(AfterBinaries(s, m), n) == AfterBinaries(s, m + n)
    decreases m
  {
    if m > 0 {
      AfterBinariesSplit(s[4 + FromLittleEndian(s[..4])..], m - 1, n);
    }
  }

  /** The bytes that `p` bits touch, those they fill, and the bits in the last one if they do not fill it. */
  function Bytes(p: nat): nat { (p + 7) / 8 }

  function FullBytes(p: nat): nat { p / 8 }

  function BitIn(p: nat): nat { p % 8 }

  lemma BitsInBytes(p: nat, bytes: nat)
    requires p <= 8 * bytes
    ensures Bytes(p) <= bytes
  {
  }

  lemma BitPositions(p: nat, n: nat)
    ensures BitIn(BitIn(p) + n) == BitIn(p + n)
    ensures Bytes(p + n) == FullBytes(p) + Bytes(BitIn(p) + n)
    ensures Bytes(p) == FullBytes(p) + if BitIn(p) == 0 then 0 else 1
    ensures p == 8 * FullBytes(p) + BitIn(p) && BitIn(p) < 8
    ensures Bytes(BitIn(p) + n) == 0 ==> BitIn(p) == 0 && n == 0
  {
  }

  lemma OpenAfter(st: PlainState, m: nat)
    requires st.Has(PhysBool, m)
    ensures FullBytes(st.bitOffset + m) <= |st.Open()|
    ensures st.After(PhysBool, m).Open() == st.Open()[FullBytes(st.bitOffset + m)..]
    ensures st.After(PhysBool, m).bitOffset == BitIn(st.bitOffset + m)
  {
    hide AllBits, Binaries, AfterBinaries, Bytes, FullBytes, BitIn;
    BitPositions(st.bitOffset + m, 0);
    BitsInBytes(st.bitOffset + m, |st.Open()|);
  }

  /** What is behind `m` bytes behind the first `n`. */
  lemma DropTwice(s: seq<byte>, n: nat, m: nat)
    requires n + m <= |s|
    ensures s[n..][m..] == s[n + m..]
    ensures m > 0 ==> s[n..][m - 1] == s[n + m - 1]
  {
  }

  lemma AfterBools(st: PlainState, n: nat)
    requires st.Has(PhysBool, n)
    ensures Bytes(st.bitOffset + n) <= |st.Open()|
    ensures var p := st.bitOffset + n;
      st.After(PhysBool, n)
        == PlainState(st.Open()[Bytes(p)..], BitIn(p),
                      if Bytes(p) == 0 then st.currentByte else st.Open()[Bytes(p) - 1])
  {
    BitsInBytes(st.bitOffset + n, |st.Open()|);
  }

  lemma HasBools(st: PlainState, n: nat)
    ensures st.Has(PhysBool, n) <==> 0 <= st.bitOffset < 8 && st.bitOffset + n <= 8 * |st.Open()|
  {
  }

  lemma AfterBoolsSplit(st: PlainState, m: nat, n: nat)
    requires st.Has(PhysBool, m)
    ensures st.Has(PhysBool, m + n) <==> st.After(PhysBool, m).Has(PhysBool, n)
    ensures st.Has(PhysBool, m + n) ==> st.After(PhysBool, m).After(PhysBool, n) == st.After(PhysBool, m + n)
  {
    hide Bytes, FullBytes, BitIn, PlainState.Open, PlainState.After, PlainState.Has;
    var p, next := st.bitOffset + m, st.After(PhysBool, m);
    HasBools(st, m);
    HasBools(st, m + n);
    HasBools(next, n);
    OpenAfter(st, m);
    BitPositions(p, n);
    AfterBools(st, m);
    if st.Has(PhysBool, m + n) {
      AfterBools(st, m + n);
      AfterBools(next, n);
      DropTwice(st.Open(), FullBytes(p), Bytes(BitIn(p) + n));
    }
  }

  /** Splitting a skip or a read anywhere makes no difference, for booleans at any bit offset too. */
  lemma AfterSplit(st: PlainState, k: Physical, m: nat, n: nat)
    requires st.Has(k, m)
    ensures st.Has(k, m + n) <==> st.After(k, m).Has(k, n)
    ensures st.Has(k, m + n) ==> st.After(k, m).After(k, n) == st.After(k, m + n)
  {
    match k {
      case PhysBool => AfterBoolsSplit(st, m, n);
      case Phys32 =>
      case Phys64 =>
      case PhysBinary =>
        if st.Has(k, m + n) {
          AfterBinariesSplit(st.stream, m, n);
        }
    }
  }

  /** A reader that was in state `from` stands in state `to` behind `n` more values. */
  ghost predicate Behind(from: PlainState, k: Physical, n: nat, to: PlainState) {
    from.Has(k, n) && to == from.After(k, n)
  }

  lemma BehindNothing(st: PlainState, k: Physical)
    requires 0 <= st.bitOffset < 8
    ensures Behind(st, k, 0, st)
  {
  }

  lemma OneBit(st: PlainState)
    requires st.Has(PhysBool, 1)
    ensures st.bitOffset == 0 ==> Behind(st, PhysBool, 1, PlainState(st.stream[1..], 1, st.stream[0]))
    ensures 0 < st.bitOffset < 7 ==> Behind(st, PhysBool, 1, PlainState(st.stream, st.bitOffset + 1, st.currentByte))
    ensures st.bitOffset == 7 ==> Behind(st, PhysBool, 1, PlainState(st.stream, 0, st.currentByte))
  {
  }

  lemma NextBit(st: PlainState)
    requires 0 <= st.bitOffset < 8 && |BitsLeft(st.currentByte, st.bitOffset, st.stream)| > 0
    ensures st.Has(PhysBool, 1)
    ensures st.bitOffset == 0 ==> |st.stream| > 0
    ensures st.bitOffset == 0 ==>
      BitsLeft(st.currentByte, 0, st.stream) == [Bit(st.stream[0], 0)] + BitsLeft(st.stream[0], 1, st.stream[1..])
    ensures st.bitOffset > 0 ==>
      BitsLeft(st.currentByte, st.bitOffset, st.stream)
        == [Bit(st.currentByte, st.bitOffset)] + BitsLeft(st.currentByte, (st.bitOffset + 1) % 8, st.stream)
  {
    if st.bitOffset == 0 {
      BitsLeftByte(st.stream[0], st.stream[1..]);
      assert [st.stream[0]] + st.stream[1..] == st.stream;
    } else if st.bitOffset < 7 {
      BitsLeftStep(st.currentByte, st.bitOffset, st.stream);
    } else {
      assert BitsFrom(st.currentByte, 7) == [Bit(st.currentByte, 7)];
    }
  }

  lemma BehindMore(from: PlainState, k: Physical, m: nat, mid: PlainState, n: nat, to: PlainState)
    requires Behind(from, k, m, mid) && Behind(mid, k, n, to)
    ensures Behind(from, k, m + n, to)
  {
    AfterSplit(from, k, m, n);
  }

  class VectorizedPlainValuesReader {
    var stream: seq<byte>
    var bitOffset: int
    var currentByte: byte

    ghost predicate Valid() reads this { 0 <= bitOffset < 8 }

    ghost function State(): PlainState
      reads this
    {
      PlainState(stream, bitOffset, currentByte)
    }

    /** The stored values not yet read. */
    ghost function Raws(k: Physical): (raws: seq<Raw>)
      reads this
      requires Valid()
      ensures k == PhysBool ==> forall i | 0 <= i < |raws| :: raws[i].RawBool?
    {
      match k
      case PhysBool => BitsLeft(currentByte, bitOffset, stream)
      case Phys32 => Words(stream)
      case Phys64 => DoubleWords(stream)
      case PhysBinary => Binaries(stream)
    }

    constructor ()
      ensures Valid() && bitOffset == 0
    {
      stream := [];
      bitOffset := 0;
      currentByte := 0;
    }

    method InitFromPage(valueCount: nat, input: seq<byte>)
      requires Valid() && bitOffset == 0
      modifies `stream
      ensures Valid() && forall k :: Raws(k) == PlainRaws(k, input)
    {
      stream := input;
    }

    method GetBuffer(length: nat) returns (buffer: seq<byte>)
      requires length <= |stream|
      modifies `stream
      ensures buffer == old(stream)[..length] && stream == old(stream)[length..]
    {
      buffer := stream[..length];
      stream := stream[length..];
    }

    /** ByteBufferInputStream.skip: stops at the end of the stream. */
    method Skip(n: nat)
      modifies `stream
      ensures stream == old(stream)[Min(n, |old(stream)|)..]
    {
      stream := stream[Min(n, |stream|)..];
    }

    // ---- 32-bit values

    method ReadInteger() returns (bits: nat)
      requires Valid() && |Words(stream)| > 0
      modifies `stream
      ensures |old(stream)| >= 4 && bits == FromLittleEndian(old(stream)[..4]) && Raw32(bits) == old(Words(stream))[0]
      ensures Valid() && Behind(old(State()), Phys32, 1, State())
      ensures stream == old(stream)[4..] && Words(stream) == old(Words(stream))[1..]
    {
      WordsDrop(stream, 1);
      assert stream[..4] == stream[4 * 0..4 * 0 + 4];
      var buffer := GetBuffer(4);
      bits := FromLittleEndian(buffer);
    }

    method ReadIntegers(total: nat, c: ColumnVector, rowId: nat)
      requires Valid() && total <= |Words(stream)| && rowId + total <= |c.cells|
      modifies `stream, c`cells
      ensures Valid() && Behind(old(State()), Phys32, total, State())
      ensures stream == old(stream)[4 * total..] && Words(stream) == old(Words(stream))[total..]
      ensures c.cells == Write(old(c.cells), rowId, Payload(Cells(IntegerUpdater, old(Words(stream))[..total])))
    {
      hide Write, FromLittleEndian;
      ghost var input, cells0, cs := stream, c.cells, Cells(IntegerUpdater, Words(stream)[..total]);
      WriteNone(c.cells, rowId);
      assert Payload(cs[..0]) == [];
      WordsDrop(stream, total);
      var buffer := GetBuffer(4 * total);
      for i := 0 to total
        invariant stream == input[4 * total..]
        invariant c.cells == Write(cells0, rowId, Payload(cs[..i]))
      {
        var item := buffer[4 * i..4 * i + 4];
        c.Put(rowId + i, IntVal(Signed32(FromLittleEndian(item))));
        WordCell(IntegerUpdater, input, total, i);
        WriteOneMore(cells0, rowId, cs, i);
      }
      assert cs[..total] == cs;
    }

    method ReadUnsignedIntegers(total: nat, c: ColumnVector, rowId: nat)
      requires Valid() && total <= |Words(stream)| && rowId + total <= |c.cells|
      modifies `stream, c`cells
      ensures Valid() && Behind(old(State()), Phys32, total, State())
      ensures stream == old(stream)[4 * total..] && Words(stream) == old(Words(stream))[total..]
      ensures c.cells == Write(old(c.cells), rowId, Payload(Cells(UnsignedIntegerUpdater, old(Words(stream))[..total])))
    {
      hide Write, FromLittleEndian;
      ghost var input, cells0, cs := stream, c.cells, Cells(UnsignedIntegerUpdater, Words(stream)[..total]);
      WriteNone(c.cells, rowId);
      assert Payload(cs[..0]) == [];
      WordsDrop(stream, total);
      var buffer := GetBuffer(4 * total);
      for i := 0 to total
        invariant stream == input[4 * total..]
        invariant c.cells == Write(cells0, rowId, Payload(cs[..i]))
      {
        var item := buffer[4 * i..4 * i + 4];
        c.Put(rowId + i, LongVal(FromLittleEndian(item)));
        WordCell(UnsignedIntegerUpdater, input, total, i);
        WriteOneMore(cells0, rowId, cs, i);
      }
      assert cs[..total] == cs;
    }

    // Only the first of the four bytes is looked at.
    method ReadBytes(total: nat, c: ColumnVector, rowId: nat)
      requires Valid() && total <= |Words(stream)| && rowId + total <= |c.cells|
      modifies `stream, c`cells
      ensures Valid() && Behind(old(State()), Phys32, total, State())
      ensures stream == old(stream)[4 * total..] && Words(stream) == old(Words(stream))[total..]
      ensures c.cells == Write(old(c.cells), rowId, Payload(Cells(ByteUpdater, old(Words(stream))[..total])))
    {
      hide Write, FromLittleEndian;
      ghost var input, cells0, cs := stream, c.cells, Cells(ByteUpdater, Words(stream)[..total]);
      WriteNone(c.cells, rowId);
      assert Payload(cs[..0]) == [];
      WordsDrop(stream, total);
      var buffer := GetBuffer(4 * total);
      for i := 0 to total
        invariant stream == input[4 * total..]
        invariant c.cells == Write(cells0, rowId, Payload(cs[..i]))
      {
        var item := buffer[4 * i..4 * i + 4];
        LowByte(item);
        c.Put(rowId + i, ByteVal(Signed8(item[0])));
        WordCell(ByteUpdater, input, total, i);
        WriteOneMore(cells0, rowId, cs, i);
      }
      assert cs[..total] == cs;
    }

    method ReadShorts(total: nat, c: ColumnVector, rowId: nat)
      requires Valid() && total <= |Words(stream)| && rowId + total <= |c.cells|
      modifies `stream, c`cells
      ensures Valid() && Behind(old(State()), Phys32, total, State())
      ensures stream == old(stream)[4 * total..] && Words(stream) == old(Words(stream))[total..]
      ensures c.cells == Write(old(c.cells), rowId, Payload(Cells(ShortUpdater, old(Words(stream))[..total])))
    {
      hide Write, FromLittleEndian;
      ghost var input, cells0, cs := stream, c.cells, Cells(ShortUpdater, Words(stream)[..total]);
      WriteNone(c.cells, rowId);
      assert Payload(cs[..0]) == [];
      WordsDrop(stream, total);
      var buffer := GetBuffer(4 * total);
      for i := 0 to total
        invariant stream == input[4 * total..]
        invariant c.cells == Write(cells0, rowId, Payload(cs[..i]))
      {
        var item := buffer[4 * i..4 * i + 4];
        c.Put(rowId + i, ShortVal(Signed16(FromLittleEndian(item) % 0x1_0000)));
        WordCell(ShortUpdater, input, total, i);
        WriteOneMore(cells0, rowId, cs, i);
      }
      assert cs[..total] == cs;
    }

    /**
     Two passes: the first finds out whether any value lies before the calendar switch, the second
     rebases all of them or none. The result is what converting value by value gives, and the
     method throws (`!ok`) exactly when some single value would.
     */
    method ReadIntegersWithRebase(total: nat, c: ColumnVector, rowId: nat, failIfRebase: bool, cal: Calendar)
      returns (ok: bool)
      requires cal.Lawful()
      requires Valid() && total <= |Words(stream)| && rowId + total <= |c.cells|
      modifies `stream, c`cells
      ensures Valid() && Behind(old(State()), Phys32, total, State())
      ensures stream == old(stream)[4 * total..] && Words(stream) == old(Words(stream))[total..]
      ensures ok <==> AllValues(Cells(IntegerWithRebaseUpdater(failIfRebase, cal), old(Words(stream))[..total]))
      ensures c.cells == if !ok then old(c.cells) else
        Write(old(c.cells), rowId, Payload(Cells(IntegerWithRebaseUpdater(failIfRebase, cal),
                                                 old(Words(stream))[..total])))
    {
      hide Convert, Words, FromLittleEndian, Write;
      assert Write(c.cells, rowId, []) == c.cells by { WriteNone(c.cells, rowId); }
      ghost var input, cells0 := stream, c.cells;
      ghost var cs := Cells(IntegerWithRebaseUpdater(failIfRebase, cal), Words(stream)[..total]);
      WordsDrop(stream, total);
      var buffer := GetBuffer(4 * total);
      var rebase := false;
      for i := 0 to total
        invariant rebase <==> DaysBefore(buffer, i, cal.switchDay)
      {
        rebase := rebase || Day(buffer, i) < cal.switchDay;
      }
      IntegerWithRebaseUpdaterCells(input, total, failIfRebase, cal, rebase);
      if rebase && failIfRebase {
        return false;
      }
      assert Payload(cs[..0]) == [];
      for i := 0 to total
        modifies c`cells
        invariant c.cells == Write(cells0, rowId, Payload(cs[..i]))
      {
        var v := Day(buffer, i);
        assert cs[i] == Val(IntVal(if rebase then cal.days(v) else v));
        c.Put(rowId + i, IntVal(if rebase then cal.days(v) else v));
        WriteOneMore(cells0, rowId, cs, i);
      }
      assert cs[..total] == cs;
      ok := true;
    }

    // ---- 64-bit values

    method ReadLong() returns (bits: nat)
      requires Valid() && |DoubleWords(stream)| > 0
      modifies `stream
      ensures Raw64(bits) == old(DoubleWords(stream))[0]
      ensures Valid() && Behind(old(State()), Phys64, 1, State())
      ensures stream == old(stream)[8..] && DoubleWords(stream) == old(DoubleWords(stream))[1..]
    {
      DoubleWordsDrop(stream, 1);
      assert stream[..8] == stream[8 * 0..8 * 0 + 8];
      var buffer := GetBuffer(8);
      bits := FromLittleEndian(buffer);
    }

    method ReadLongs(total: nat, c: ColumnVector, rowId: nat)
      requires Valid() && total <= |DoubleWords(stream)| && rowId + total <= |c.cells|
      modifies `stream, c`cells
      ensures Valid() && Behind(old(State()), Phys64, total, State())
      ensures stream == old(stream)[8 * total..] && DoubleWords(stream) == old(DoubleWords(stream))[total..]
      ensures c.cells == Write(old(c.cells), rowId, Payload(Cells(LongUpdater, old(DoubleWords(stream))[..total])))
    {
      hide Write, FromLittleEndian;
      ghost var input, cells0, cs := stream, c.cells, Cells(LongUpdater, DoubleWords(stream)[..total]);
      WriteNone(c.cells, rowId);
      assert Payload(cs[..0]) == [];
      DoubleWordsDrop(stream, total);
      var buffer := GetBuffer(8 * total);
      for i := 0 to total
        invariant stream == input[8 * total..]
        invariant c.cells == Write(cells0, rowId, Payload(cs[..i]))
      {
        var item := buffer[8 * i..8 * i + 8];
        c.Put(rowId + i, LongVal(Signed64(FromLittleEndian(item))));
        DoubleWordCell(LongUpdater, input, total, i);
        WriteOneMore(cells0, rowId, cs, i);
      }
      assert cs[..total] == cs;
    }

    method ReadDoubles(total: nat, c: ColumnVector, rowId: nat)
      requires Valid() && total <= |DoubleWords(stream)| && rowId + total <= |c.cells|
      modifies `stream, c`cells
      ensures Valid() && Behind(old(State()), Phys64, total, State())
      ensures stream == old(stream)[8 * total..] && DoubleWords(stream) == old(DoubleWords(stream))[total..]
      ensures c.cells == Write(old(c.cells), rowId, Payload(Cells(DoubleUpdater, old(DoubleWords(stream))[..total])))
    {
      hide Write, FromLittleEndian;
      ghost var input, cells0, cs := stream, c.cells, Cells(DoubleUpdater, DoubleWords(stream)[..total]);
      WriteNone(c.cells, rowId);
      assert Payload(cs[..0]) == [];
      DoubleWordsDrop(stream, total);
      var buffer := GetBuffer(8 * total);
      for i := 0 to total
        invariant stream == input[8 * total..]
        invariant c.cells == Write(cells0, rowId, Payload(cs[..i]))
      {
        var item := buffer[8 * i..8 * i + 8];
        c.Put(rowId + i, DoubleVal(FromLittleEndian(item)));
        DoubleWordCell(DoubleUpdater, input, total, i);
        WriteOneMore(cells0, rowId, cs, i);
      }
      assert cs[..total] == cs;
    }

    /**
     Two passes: the first finds out whether any value lies before the calendar switch, the second
     rebases all of them or none. The result is what converting value by value gives, and the
     method throws (`!ok`) exactly when some single value would.
     */
    method ReadLongsWithRebase(total: nat, c: ColumnVector, rowId: nat, failIfRebase: bool, cal: Calendar)
      returns (ok: bool)
      requires cal.Lawful()
      requires Valid() && total <= |DoubleWords(stream)| && rowId + total <= |c.cells|
      modifies `stream, c`cells
      ensures Valid() && Behind(old(State()), Phys64, total, State())
      ensures stream == old(stream)[8 * total..] && DoubleWords(stream) == old(DoubleWords(stream))[total..]
      ensures ok <==> AllValues(Cells(LongWithRebaseUpdater(failIfRebase, cal), old(DoubleWords(stream))[..total]))
      ensures c.cells == if !ok then old(c.cells) else
        Write(old(c.cells), rowId, Payload(Cells(LongWithRebaseUpdater(failIfRebase, cal),
                                                 old(DoubleWords(stream))[..total])))
    {
      hide Convert, DoubleWords, FromLittleEndian, Write;
      assert Write(c.cells, rowId, []) == c.cells by { WriteNone(c.cells, rowId); }
      ghost var input, cells0 := stream, c.cells;
      ghost var cs := Cells(LongWithRebaseUpdater(failIfRebase, cal), DoubleWords(stream)[..total]);
      DoubleWordsDrop(stream, total);
      var buffer := GetBuffer(8 * total);
      var rebase := false;
      for i := 0 to total
        invariant rebase <==> MicrosBefore(buffer, i, cal.switchMicros)
      {
        rebase := rebase || Micros(buffer, i) < cal.switchMicros;
      }
      LongWithRebaseUpdaterCells(input, total, failIfRebase, cal, rebase);
      if rebase && failIfRebase {
        return false;
      }
      assert Payload(cs[..0]) == [];
      for i := 0 to total
        modifies c`cells
        invariant c.cells == Write(cells0, rowId, Payload(cs[..i]))
      {
        var v := Micros(buffer, i);
        assert cs[i] == Val(LongVal(if rebase then cal.micros(v) else v));
        c.Put(rowId + i, LongVal(if rebase then cal.micros(v) else v));
        WriteOneMore(cells0, rowId, cs, i);
      }
      assert cs[..total] == cs;
      ok := true;
    }

    // ---- booleans

    method ReadBoolean() returns (v: bool)
      requires Valid() && |Raws(PhysBool)| > 0
      modifies this
      ensures Valid()
      ensures RawBool(v) == old(Raws(PhysBool))[0] && Raws(PhysBool) == old(Raws(PhysBool))[1..]
      ensures Behind(old(State()), PhysBool, 1, State())
    {
      hide Behind, BitsLeft, AllBits, Words, DoubleWords, Binaries, PlainState.Has;
      NextBit(State());
      OneBit(State());
      if bitOffset == 0 {
        currentByte := stream[0];
        stream := stream[1..];
      }
      v := currentByte / Pow(2, bitOffset) % 2 == 1;
      bitOffset := bitOffset + 1;
      if bitOffset == 8 {
        bitOffset := 0;
      }
    }

    method ReadBooleans(total: nat, c: ColumnVector, rowId: nat)
      requires Valid() && total <= |Raws(PhysBool)| && rowId + total <= |c.cells|
      modifies this, c`cells
      ensures Valid() && Raws(PhysBool) == old(Raws(PhysBool))[total..]
      ensures Behind(old(State()), PhysBool, total, State())
      ensures c.cells == Write(old(c.cells), rowId, Payload(Cells(BooleanUpdater, old(Raws(PhysBool))[..total])))
    {
      hide Write, Behind, BitsLeft, Binaries, Words, DoubleWords;
      ghost var raws, cells0, cs := Raws(PhysBool), c.cells, Cells(BooleanUpdater, Raws(PhysBool)[..total]);
      ghost var state := State();
      BehindNothing(state, PhysBool);
      WriteNone(c.cells, rowId);
      assert Payload(cs[..0]) == [];
      for i := 0 to total
        invariant Valid() && Raws(PhysBool) == raws[i..]
        invariant Behind(state, PhysBool, i, State())
        invariant c.cells == Write(cells0, rowId, Payload(cs[..i]))
      {
        ghost var mid := State();
        var v := ReadBoolean();
        BehindMore(state, PhysBool, i, mid, 1, State());
        c.Put(rowId + i, BoolVal(v));
        assert cs[i] == Convert(BooleanUpdater, raws[i]);
        WriteOneMore(cells0, rowId, cs, i);
      }
      assert cs[..total] == cs;
    }

    method SkipBooleans(total: nat)
      requires Valid() && total <= |Raws(PhysBool)|
      modifies this
      ensures Valid() && Raws(PhysBool) == old(Raws(PhysBool))[total..]
      ensures Behind(old(State()), PhysBool, total, State())
    {
      hide Behind, BitsLeft, Binaries, Words, DoubleWords;
      ghost var raws, state := Raws(PhysBool), State();
      BehindNothing(state, PhysBool);
      for i := 0 to total
        invariant Valid() && Raws(PhysBool) == raws[i..]
        invariant Behind(state, PhysBool, i, State())
      {
        ghost var mid := State();
        var _ := ReadBoolean();
        BehindMore(state, PhysBool, i, mid, 1, State());
      }
    }

    // ---- binary

    method ReadBinary(total: nat, v: ColumnVector, rowId: nat)
      requires Valid() && total <= |Binaries(stream)| && rowId + total <= |v.cells|
      modifies `stream, v`cells
      ensures Valid() && Behind(old(State()), PhysBinary, total, State())
      ensures stream == AfterBinaries(old(stream), total) && Binaries(stream) == old(Binaries(stream))[total..]
      ensures v.cells == Write(old(v.cells), rowId, Payload(Cells(BinaryUpdater, old(Binaries(stream))[..total])))
    {
      hide Write, FromLittleEndian, Binaries, AfterBinaries, Words;
      ghost var input, raws, cells0 := stream, Binaries(stream), v.cells;
      ghost var cs := Cells(BinaryUpdater, Binaries(stream)[..total]);
      WriteNone(v.cells, rowId);
      assert Payload(cs[..0]) == [];
      for i := 0 to total
        invariant Valid() && unchanged(`bitOffset) && unchanged(`currentByte)
        invariant Binaries(stream) == raws[i..] && AfterBinaries(stream, total - i) == AfterBinaries(input, total)
        invariant v.cells == Write(cells0, rowId, Payload(cs[..i]))
      {
        ghost var s := stream;
        FirstBinary(s, total - i);
        assert Binaries(s)[0] == raws[i];
        var len := ReadInteger();
        var buffer := GetBuffer(len);
        assert buffer == s[4..4 + len] && stream == s[4 + len..];
        v.Put(rowId + i, BinaryVal(buffer));
        assert cs[i] == Convert(BinaryUpdater, raws[i]);
        WriteOneMore(cells0, rowId, cs, i);
      }
      assert cs[..total] == cs;
      AfterNone(stream);
    }

    method SkipBinary(total: nat)
      requires Valid() && total <= |Binaries(stream)|
      modifies `stream
      ensures Valid() && Behind(old(State()), PhysBinary, total, State())
      ensures stream == AfterBinaries(old(stream), total) && Binaries(stream) == old(Binaries(stream))[total..]
    {
      hide FromLittleEndian, Binaries, AfterBinaries;
      ghost var input, raws := stream, Binaries(stream);
      for i := 0 to total
        invariant Valid() && unchanged(`bitOffset) && unchanged(`currentByte)
        invariant Binaries(stream) == raws[i..] && AfterBinaries(stream, total - i) == AfterBinaries(input, total)
      {
        FirstBinary(stream, total - i);
        var len := ReadInteger();
        Skip(len);
      }
      AfterNone(stream);
    }

    // skipIntegers, skipBytes and skipShorts
    method SkipWords(total: nat)
      requires Valid() && total <= |Words(stream)|
      modifies `stream
      ensures Valid() && Behind(old(State()), Phys32, total, State())
      ensures stream == old(stream)[4 * total..] && Words(stream) == old(Words(stream))[total..]
    {
      WordsDrop(stream, total);
      Skip(4 * total);
    }

    // skipLongs and skipDoubles
    method SkipDoubleWords(total: nat)
      requires Valid() && total <= |DoubleWords(stream)|
      modifies `stream
      ensures Valid() && Behind(old(State()), Phys64, total, State())
      ensures stream == old(stream)[8 * total..] && DoubleWords(stream) == old(DoubleWords(stream))[total..]
    {
      DoubleWordsDrop(stream, total);
      Skip(8 * total);
    }
  }
}
