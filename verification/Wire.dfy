/**
 The columnar result set between the query server and the JDBC driver: fixed-width big-endian numbers,
 zero-padded strings, each column compressed or not.
 */
module Wire {
  import opened Numbers

  datatype SqlType = StringType | DoubleType | LongType | IntegerType | ShortType | OtherType

  /** A cell; a double is its 64-bit pattern, a string its UTF-8 bytes. */
  datatype Item = Number(n: int) | Text(utf8: seq<byte>)

  datatype Column = Column(t: SqlType, items: seq<Item>)

  /** The result of a query: columns of equal length. */
  datatype Table = Table(numRows: nat, columns: seq<Column>)

  predicate Fits(t: SqlType, x: Item) {
    match t
    case StringType => x.Text?
    case DoubleType => x.Number? && 0 <= x.n < TWO_64
    case LongType => x.Number? && LONG_MIN <= x.n <= LONG_MAX
    case IntegerType => x.Number? && -TWO_31 <= x.n < TWO_31
    case ShortType => x.Number? && -0x8000 <= x.n < 0x8000
    case OtherType => true
  }

  predicate WellTyped(table: Table) {
    forall c | 0 <= c < |table.columns| ::
      |table.columns[c].items| == table.numRows
      && forall r | 0 <= r < table.numRows :: Fits(table.columns[c].t, table.columns[c].items[r])
  }

  /** java.sql.Types; None is the server's exception. */
  function MapDataType(t: SqlType): Option<int> {
    match t
    case StringType => Some(12)
    case DoubleType => Some(8)
    case LongType => Some(4)
    case IntegerType => Some(4)
    case _ => None
  }

  function DataTypeSize(t: SqlType): Option<nat> {
    match t
    case DoubleType => Some(8)
    case LongType => Some(8)
    case IntegerType => Some(4)
    case ShortType => Some(2)
    case _ => None
  }

  predicate Supported(table: Table) {
    forall c | 0 <= c < |table.columns| :: !table.columns[c].t.ShortType? && !table.columns[c].t.OtherType?
  }

  // ---- cells as bytes

  function BigEndian(n: int, w: nat): (bs: seq<byte>)
    ensures |bs| == w
    decreases w
  {
    if w == 0 then [] else BigEndian(n / 256, w - 1) + [n % 256]
  }

  /** The first byte is the highest: byte `i` has the weight 256 to the power of the bytes behind it. */
  lemma {:induction false} BigEndianDigits(n: nat, w: nat, i: nat)
    requires i < w
    ensures BigEndian(n, w)[i] as int == n / Pow(256, w - 1 - i) % 256
    decreases w
  {
    if i < w - 1 {
      BigEndianDigits(n / 256, w - 1, i);
      assert Pow(256, w - 1 - i) == 256 * Pow(256, w - 2 - i);
      DivDiv(n, 256, Pow(256, w - 2 - i));
    } else {
      assert Pow(256, 0) == 1;
    }
  }

  function FromBigEndian(bs: seq<byte>): nat {
    if bs == [] then 0 else 256 * FromBigEndian(bs[..|bs| - 1]) + bs[|bs| - 1]
  }

  lemma {:induction false} BigEndianRoundTrip(n: int, w: nat)
    requires 0 <= n < Pow(256, w)
    ensures FromBigEndian(BigEndian(n, w)) == n
    decreases w
  {
    if w != 0 {
      DivBound(n, 256, Pow(256, w - 1));
      BigEndianRoundTrip(n / 256, w - 1);
      assert BigEndian(n, w)[..w - 1] == BigEndian(n / 256, w - 1);
    }
  }

  lemma {:induction false} FromBigEndianInjective(a: seq<byte>, b: seq<byte>)
    requires |a| == |b| && FromBigEndian(a) == FromBigEndian(b)
    ensures a == b
  {
    if a != [] {
      FromBigEndianInjective(a[..|a| - 1], b[..|b| - 1]);
      assert a == a[..|a| - 1] + [a[|a| - 1]] && b == b[..|b| - 1] + [b[|b| - 1]];
    }
  }

  lemma {:induction false} FromBigEndianBound(bs: seq<byte>)
    ensures FromBigEndian(bs) < Pow(256, |bs|)
  {
    if bs != [] {
      FromBigEndianBound(bs[..|bs| - 1]);
    }
  }

  lemma PowersOf256()
    ensures Pow(256, 4) == TWO_32 && Pow(256, 8) == TWO_64
  {
    assert Pow(256, 2) == 0x1_0000;
    PowAdd(256, 2, 2);
    PowAdd(256, 4, 4);
  }

  /** A numpy byte string does not keep trailing zeros. */
  function Strip(s: seq<byte>): (r: seq<byte>)
    ensures |r| <= |s| && r == s[..|r|]
  {
    if s != [] && s[|s| - 1] == 0 then Strip(s[..|s| - 1]) else s
  }

  /** Only zeros are dropped, and all that stand at the end. */
  lemma {:induction false} StripMeaning(s: seq<byte>)
    ensures forall i | |Strip(s)| <= i < |s| :: s[i] == 0
    ensures Strip(s) == [] || Strip(s)[|Strip(s)| - 1] != 0
  {
    if s != [] && s[|s| - 1] == 0 {
      StripMeaning(s[..|s| - 1]);
    }
  }

  function Pad(s: seq<byte>, size: nat): (r: seq<byte>)
    requires |s| <= size
    ensures |r| == size
  {
    s + seq(size - |s|, _ => 0 as byte)
  }

  lemma {:induction false} StripPad(s: seq<byte>, size: nat)
    requires |s| <= size
    ensures Strip(Pad(s, size)) == Strip(s)
    decreases size
  {
    if |s| < size {
      StripPad(s, size - 1);
      assert Pad(s, size)[..size - 1] == Pad(s, size - 1);
    } else {
      assert Pad(s, size) == s;
    }
  }

  /** numpy's item size for the column: the longest string, at least one byte. */
  function ItemSize(items: seq<Item>): (size: nat)
    ensures size >= 1
    ensures forall i | 0 <= i < |items| && items[i].Text? :: |Strip(items[i].utf8)| <= size
  {
    if items == [] then 1
    else
      var rest := ItemSize(items[..|items| - 1]);
      match items[|items| - 1]
      case Text(s) => if |Strip(s)| > rest then |Strip(s)| else rest
      case Number(_) => rest
  }

  /** The text without the zeros at its end. */
  ghost predicate IsText(s: seq<byte>, text: seq<byte>) {
    && text <= s && (forall i | |text| <= i < |s| :: s[i] == 0)
    && (text == [] || text[|text| - 1] != 0)
  }

  /** No byte more than the longest string needs, but at least one. */
  lemma {:induction false} ItemSizeExact(items: seq<Item>)
    ensures ItemSize(items) == 1
      || exists i, text :: 0 <= i < |items| && items[i].Text? && IsText(items[i].utf8, text)
                           && |text| == ItemSize(items)
  {
    if items != [] {
      var n := |items| - 1;
      ItemSizeExact(items[..n]);
      if ItemSize(items) == ItemSize(items[..n]) {
        if ItemSize(items) != 1 {
          var i, text :| 0 <= i < n && items[..n][i].Text? && IsText(items[..n][i].utf8, text)
            && |text| == ItemSize(items[..n]);
          assert items[i] == items[..n][i];
        }
      } else {
        StripMeaning(items[n].utf8);
        assert IsText(items[n].utf8, Strip(items[n].utf8));
      }
    }
  }

  function CellSize(c: Column): nat {
    match DataTypeSize(c.t) case Some(n) => n case None => ItemSize(c.items)
  }

  function Encode(c: Column, r: nat): (bs: seq<byte>)
    requires r < |c.items| && Fits(c.t, c.items[r]) && Packable(c.t)
    ensures |bs| == CellSize(c)
  {
    match c.items[r]
    case Number(n) => BigEndian(if n < 0 then n + Pow(256, CellSize(c)) else n, CellSize(c))
    case Text(s) => Pad(Strip(s), CellSize(c))
  }

  /** The types the server knows the cell size of. */
  predicate Packable(t: SqlType) { t.StringType? || DataTypeSize(t).Some? }

  predicate Sendable(c: Column) {
    Packable(c.t) && forall r | 0 <= r < |c.items| :: Fits(c.t, c.items[r])
  }

  /** The column's bytes: its first `n` cells one after the other. */
  function Pack(c: Column, n: nat): (bs: seq<byte>)
    requires n <= |c.items| && Sendable(c)
  {
    if n == 0 then [] else Pack(c, n - 1) + Encode(c, n - 1)
  }

  lemma {:induction false} PackLength(c: Column, n: nat)
    requires n <= |c.items| && Sendable(c)
    ensures |Pack(c, n)| == CellSize(c) * n
  {
    hide Encode, CellSize;
    if n > 0 {
      PackLength(c, n - 1);
      assert CellSize(c) * n == CellSize(c) * (n - 1) + CellSize(c);
    }
  }

  predicate Slice(bs: seq<byte>, size: nat, r: nat, cell: seq<byte>) {
    size * r + size <= |bs| && bs[size * r..size * r + size] == cell
  }

  lemma {:induction false} PackSlice(c: Column, n: nat, r: nat)
    requires r < n <= |c.items| && Sendable(c)
    ensures Slice(Pack(c, n), CellSize(c), r, Encode(c, r))
  {
    hide Encode, CellSize;
    var front := Pack(c, n - 1);
    PackLength(c, n - 1);
    if r < n - 1 {
      PackSlice(c, n - 1, r);
      SliceInFront(front, Encode(c, n - 1), CellSize(c), r, Encode(c, r));
    }
  }

  lemma SliceInFront(front: seq<byte>, more: seq<byte>, size: nat, r: nat, cell: seq<byte>)
    requires Slice(front, size, r, cell)
    ensures Slice(front + more, size, r, cell)
  {
  }

  lemma SliceOfFront(bs: seq<byte>, size: nat, r: nat, n: nat, cell: seq<byte>)
    requires Slice(bs, size, r, cell) && r < n && size * n <= |bs|
    ensures 0 <= size * n && Slice(bs[..size * n], size, r, cell)
  {
    MulMono(size, r + 1, n);
    assert size * (r + 1) == size * r + size;
    assert bs[..size * n][size * r..size * r + size] == bs[size * r..size * r + size];
  }

  /** Bytes whose every slice is the cell of the column are the column's bytes. */
  lemma {:induction false} SlicesMakePack(c: Column, n: nat, bs: seq<byte>)
    requires n <= |c.items| && Sendable(c) && |bs| == |Pack(c, n)|
    requires forall r | 0 <= r < n :: Slice(bs, CellSize(c), r, Encode(c, r))
    ensures bs == Pack(c, n)
  {
    hide Encode, CellSize;
    if n > 0 {
      PackLength(c, n);
      PackLength(c, n - 1);
      var size := CellSize(c);
      var at := size * (n - 1);
      assert size * n == at + size;
      forall r | 0 <= r < n - 1 ensures Slice(bs[..at], size, r, Encode(c, r)) {
        SliceOfFront(bs, size, r, n - 1, Encode(c, r));
      }
      SlicesMakePack(c, n - 1, bs[..at]);
      assert Slice(bs, size, n - 1, Encode(c, n - 1));
      assert bs == bs[..at] + bs[at..at + size];
    }
  }

  function Raw(c: Column): (bs: seq<byte>)
    requires Sendable(c)
  {
    Pack(c, |c.items|)
  }

  // ---- the result set on the wire

  /** zstd as a pair of functions; None is a decompression error. */
  datatype Codec = Codec(compress: seq<byte> -> seq<byte>, decompress: seq<byte> -> Option<seq<byte>>)
  {
    ghost predicate Lawful() { forall bs :: decompress(compress(bs)) == Some(bs) }
  }

  datatype ResultSet = ResultSet(
    types: seq<int>, numRows: nat, binaryRows: seq<seq<byte>>, columnTypeBytes: seq<nat>,
    columnBytes: seq<nat>, compressedColumnBytes: seq<nat>, compressedRows: seq<seq<byte>>)

  /** What column `c` travels as. */
  function Sent(c: Column, compression: bool, z: Codec): seq<byte>
    requires Sendable(c)
  {
    if compression then z.compress(Raw(c)) else Raw(c)
  }
}
