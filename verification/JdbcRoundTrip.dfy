/** When a column comes back as it was sent. */
module JdbcRoundTrip {
  import opened Numbers
  import opened Wire
  import opened QueryServer
  import opened JdbcDriver

  /** What the getter is to return: the packed value, a string with its zero padding. */
  function Expected(c: Column, r: nat): (x: Item)
    requires r < |c.items| && Sendable(c)
    ensures c.items[r].Text? ==> x.Text? && Strip(x.utf8) == Strip(c.items[r].utf8)
  {
    match c.items[r]
    case Number(n) => Number(n)
    case Text(s) =>
      StripPad(Strip(s), CellSize(c));
      StripTwice(s);
      Text(Pad(Strip(s), CellSize(c)))
  }

  lemma {:induction false} StripTwice(s: seq<byte>)
    ensures Strip(Strip(s)) == Strip(s)
  {
    if s != [] && s[|s| - 1] == 0 {
      StripTwice(s[..|s| - 1]);
    }
  }

  /**
   In bytes: a number comes back as itself; of a string, the bytes up to its last non-zero one come back, and
   zeros behind them up to the cell size.
   */
  ghost predicate ComesBack(packed: Item, x: Item, size: nat) {
    match packed
    case Number(n) => x == packed
    case Text(s) =>
      && x.Text? && |x.utf8| == size
      && exists text :: IsText(s, text) && text <= x.utf8 && forall i | |text| <= i < size :: x.utf8[i] == 0
  }

  lemma ExpectedComesBack(c: Column, r: nat)
    requires r < |c.items| && Sendable(c)
    ensures ComesBack(c.items[r], Expected(c, r), CellSize(c))
  {
    if c.items[r].Text? {
      var s := c.items[r].utf8;
      StripMeaning(s);
      assert IsText(s, Strip(s));
    }
  }

  /** A string that does not end in zero comes back as exactly its own bytes, and zeros. */
  lemma TextComesBack(packed: Item, x: Item, size: nat)
    requires ComesBack(packed, x, size) && packed.Text?
    requires packed.utf8 == [] || packed.utf8[|packed.utf8| - 1] != 0
    ensures x.Text? && packed.utf8 <= x.utf8 && |x.utf8| == size
    ensures forall i | |packed.utf8| <= i < size :: x.utf8[i] == 0
  {
    var s := packed.utf8;
    var text :| IsText(s, text) && text <= x.utf8 && forall i | |text| <= i < size :: x.utf8[i] == 0;
    assert text == s;
  }

  /** What a getter makes of the bytes of a cell. */
  function Decode(t: SqlType, bs: seq<byte>): Item {
    match t
    case StringType => Text(bs)
    case DoubleType => Number(FromBigEndian(bs))
    case LongType => Number(Signed64(FromBigEndian(bs)))
    case _ => Number(Signed32(FromBigEndian(bs)))
  }

  /** A cell decodes to its value exactly when it has the cell's bytes. */
  lemma CellDecodes(c: Column, r: nat, bs: seq<byte>)
    requires r < |c.items| && Sendable(c) && MapDataType(c.t).Some? && |bs| == CellSize(c)
    ensures Decode(c.t, bs) == Expected(c, r) <==> bs == Encode(c, r)
  {
    hide FromBigEndian, BigEndian, Pow;
    PowersOf256();
    FromBigEndianBound(bs);
    if c.items[r].Number? {
      var n, w := c.items[r].n, CellSize(c);
      var p := if n < 0 then n + Pow(256, w) else n;
      BigEndianRoundTrip(p, w);
      if FromBigEndian(bs) == p {
        FromBigEndianInjective(bs, Encode(c, r));
      }
    }
  }

  /** The getter at row `r`, counted from 0, returns what was packed. */
  predicate RowReadsBack(c: Column, rows: seq<Buffer>, sizes: seq<nat>, ci: nat, r: nat)
    requires Sendable(c) && r < |c.items|
  {
    Get(c.t, rows, sizes, ci + 1, r + 1) == Some(Expected(c, r))
  }

  /** Every row of column `ci` reads as what was packed. */
  predicate ReadsBack(c: Column, rows: seq<Buffer>, sizes: seq<nat>, ci: nat)
    requires Sendable(c)
  {
    forall r | 0 <= r < |c.items| :: RowReadsBack(c, rows, sizes, ci, r)
  }

  lemma CellBounds(size: nat, n: nat, r: nat)
    requires size >= 1 && r < n && size * n < TWO_31
    ensures 0 <= size * r && size * r + size <= size * n
    ensures Wrap32(r) == r && Wrap32(r * size) == size * r
  {
    MulMono(size, r + 1, n);
    MulMono(size, 0, r);
    AtLeast(size, n);
    assert size * (r + 1) == size * r + size;
    assert r * size == size * r;
  }

  /** Getters find the cells of a buffer of the column's length. */
  lemma CellFound(c: Column, rows: seq<Buffer>, ci: nat, r: nat)
    requires Sendable(c) && r < |c.items| && ci < |rows|
    requires |rows[ci].bytes| == |Raw(c)| < TWO_31
    ensures var size := CellSize(c);
      && 0 <= size * r && size * r + size <= |Raw(c)|
      && Cell(rows, ci + 1, r + 1, size) == Some(rows[ci].bytes[size * r..size * r + size])
  {
    hide CellSize, Pack, Wrap32;
    CellSizePositive(c);
    PackLength(c, |c.items|);
    CellBounds(CellSize(c), |c.items|, r);
  }

  lemma CellSizePositive(c: Column)
    ensures CellSize(c) >= 1
  {
  }

  lemma AtLeast(size: nat, n: nat)
    requires size >= 1
    ensures n <= size * n
  {
  }

  lemma GetDecodes(c: Column, rows: seq<Buffer>, sizes: seq<nat>, ci: nat, r: nat)
    requires Sendable(c) && MapDataType(c.t).Some? && r < |c.items|
    requires ci < |rows| && ci < |sizes| && sizes[ci] == CellSize(c) && |rows[ci].bytes| == |Raw(c)| < TWO_31
    ensures var size := CellSize(c);
      && 0 <= size * r && size * r + size <= |rows[ci].bytes|
      && Get(c.t, rows, sizes, ci + 1, r + 1)
         == if c.t.StringType? && rows[ci].Direct? then None
            else Some(Decode(c.t, rows[ci].bytes[size * r..size * r + size]))
  {
    hide Pack, Cell;
    CellFound(c, rows, ci, r);
  }

  lemma RowDecodes(c: Column, rows: seq<Buffer>, sizes: seq<nat>, ci: nat, r: nat)
    requires Sendable(c) && MapDataType(c.t).Some? && r < |c.items|
    requires ci < |rows| && ci < |sizes| && sizes[ci] == CellSize(c) && |rows[ci].bytes| == |Raw(c)| < TWO_31
    ensures RowReadsBack(c, rows, sizes, ci, r)
      <==> (c.t.StringType? ==> rows[ci].Heap?) && Slice(rows[ci].bytes, CellSize(c), r, Encode(c, r))
  {
    hide Pack, CellSize, Encode, Expected, Decode, Cell, Get;
    var size := CellSize(c);
    GetDecodes(c, rows, sizes, ci, r);
    CellDecodes(c, r, rows[ci].bytes[size * r..size * r + size]);
  }

  /** The column reads back exactly when its buffer has its bytes, on the heap if they are strings. */
  lemma BufferReadsBack(c: Column, rows: seq<Buffer>, sizes: seq<nat>, ci: nat)
    requires Sendable(c) && MapDataType(c.t).Some? && |c.items| > 0
    requires ci < |rows| && ci < |sizes| && sizes[ci] == CellSize(c) && |rows[ci].bytes| == |Raw(c)| < TWO_31
    ensures ReadsBack(c, rows, sizes, ci) <==> rows[ci].bytes == Raw(c) && (c.t.StringType? ==> rows[ci].Heap?)
  {
    hide Pack, CellSize, Encode, RowReadsBack, Slice;
    var n := |c.items|;
    forall r | 0 <= r < n
      ensures RowReadsBack(c, rows, sizes, ci, r)
        <==> (c.t.StringType? ==> rows[ci].Heap?) && Slice(rows[ci].bytes, CellSize(c), r, Encode(c, r))
      ensures Slice(Raw(c), CellSize(c), r, Encode(c, r))
    {
      RowDecodes(c, rows, sizes, ci, r);
      PackSlice(c, n, r);
    }
    if ReadsBack(c, rows, sizes, ci) {
      assert RowReadsBack(c, rows, sizes, ci, 0);
      SlicesMakePack(c, n, rows[ci].bytes);
    }
  }

  // ---- whole tables

  /** Columns that 32-bit sizes can describe, compressed or not. */
  predicate Sized(table: Table, compression: bool, z: Codec)
    requires Supported(table) && WellTyped(table)
  {
    forall c | 0 <= c < |table.columns| ::
      |Raw(table.columns[c])| < TWO_31 && |Sent(table.columns[c], compression, z)| < TWO_31
  }

  /** The buffers the driver has for a result. */
  ghost predicate Opened(rs: ResultSet, z: Codec, rows: seq<Buffer>) {
    && |rows| == |rs.binaryRows| + |rs.compressedRows|
    && (forall i | 0 <= i < |rs.binaryRows| :: rows[i] == Heap(rs.binaryRows[i]))
    && forall i | 0 <= i < |rs.compressedRows| :: Some(rows[|rs.binaryRows| + i]) == Unpack(rs, z, i)
  }

  /** Compression happens to leave the length of the column as it is. */
  predicate SameLength(c: Column, z: Codec)
    requires Sendable(c)
  {
    |z.compress(Raw(c))| == |Raw(c)|
  }

  /** How many of the first `n` columns change their length under compression. */
  function Changed(table: Table, z: Codec, n: nat): (k: nat)
    requires Supported(table) && WellTyped(table) && n <= |table.columns|
    ensures k <= n
  {
    if n == 0 then 0 else Changed(table, z, n - 1) + if SameLength(table.columns[n - 1], z) then 0 else 1
  }

  /**
   What decides whether column `c` comes back. A column whose length compression changes is unpacked,
   and if it holds strings, the column the driver takes it for has to hold strings too; one whose
   length stays is taken as it came.
   */
  predicate Intact(table: Table, compression: bool, z: Codec, c: nat)
    requires Supported(table) && WellTyped(table) && c < |table.columns|
  {
    var column := table.columns[c];
    !compression
    || (if SameLength(column, z) then z.compress(Raw(column)) == Raw(column)
        else column.t.StringType? ==> table.columns[Changed(table, z, c)].t.StringType?)
  }

  lemma {:induction false} CountsAgree(table: Table, z: Codec, rs: ResultSet, n: nat, c: nat)
    requires Supported(table) && WellTyped(table) && Carries(rs, table, true, z, n) && c <= n
    ensures Decompressed(rs, c) == Changed(table, z, c)
  {
    hide Pack, CellSize, Encode;
    if c > 0 {
      CountsAgree(table, z, rs, n, c - 1);
    }
  }

  /** The driver never throws on what the server sends. */
  lemma UnpacksSent(table: Table, z: Codec, rs: ResultSet, c: nat)
    requires Supported(table) && WellTyped(table) && z.Lawful()
    requires Describes(rs.types, table) && Carries(rs, table, true, z, |table.columns|) && c < |table.columns|
    ensures Unpack(rs, z, c) == Some(
      if SameLength(table.columns[c], z) then Heap(z.compress(Raw(table.columns[c])))
      else if table.columns[Changed(table, z, c)].t.StringType? then Heap(Raw(table.columns[c]))
      else Direct(Raw(table.columns[c])))
  {
    hide Pack, CellSize;
    CountsAgree(table, z, rs, |table.columns|, c);
    assert Pad(rs.compressedRows[c], |rs.compressedRows[c]|) == rs.compressedRows[c];
  }

  /** The getters return what was packed in column `c`, at every row, exactly when the column is intact. */
  lemma ColumnComesBack(table: Table, compression: bool, z: Codec, rs: ResultSet, rows: seq<Buffer>, c: nat)
    requires Supported(table) && WellTyped(table) && table.numRows > 0 && Sized(table, compression, z) && z.Lawful()
    requires Describes(rs.types, table) && Carries(rs, table, compression, z, |table.columns|)
    requires Opened(rs, z, rows) && c < |table.columns|
    ensures ReadsBack(table.columns[c], rows, rs.columnTypeBytes, c) <==> Intact(table, compression, z, c)
  {
    hide Pack, CellSize, Unpack, ReadsBack;
    var column := table.columns[c];
    if compression {
      UnpacksSent(table, z, rs, c);
      assert Some(rows[|rs.binaryRows| + c]) == Unpack(rs, z, c);
    } else {
      assert rows[c] == Heap(rs.binaryRows[c]);
    }
    BufferReadsBack(column, rows, rs.columnTypeBytes, c);
  }

  lemma {:induction false} AllChange(table: Table, z: Codec, n: nat)
    requires Supported(table) && WellTyped(table) && n <= |table.columns|
    requires forall c | 0 <= c < |table.columns| :: !SameLength(table.columns[c], z)
    ensures Changed(table, z, n) == n
  {
    hide Pack, CellSize, Encode;
    if n > 0 {
      AllChange(table, z, n - 1);
    }
  }

  /** Where compression changes the length of every column, every column is intact. */
  lemma DifferentLengthsSuffice(table: Table, compression: bool, z: Codec, c: nat)
    requires Supported(table) && WellTyped(table) && c < |table.columns|
    requires forall k | 0 <= k < |table.columns| :: !SameLength(table.columns[k], z)
    ensures Intact(table, compression, z, c)
  {
    AllChange(table, z, c);
  }

  /** A lossless codec that keeps the length of four bytes, moving the first to the end. */
  function Rotating(): Codec {
    Codec((bs: seq<byte>) => if |bs| == 4 then bs[1..] + bs[..1] else bs + [1, 2, 3, 4, 5],
          (cs: seq<byte>) =>
            if |cs| == 4 then Some(cs[3..] + cs[..3]) else if |cs| > 4 then Some(cs[..|cs| - 5]) else None)
  }

  lemma RotatingIsLawful()
    ensures Rotating().Lawful()
  {
    var z := Rotating();
    forall bs ensures z.decompress(z.compress(bs)) == Some(bs) {
      if |bs| == 4 {
        var cs := bs[1..] + bs[..1];
        assert cs[3..] + cs[..3] == bs;
      }
    }
  }

  function OneRow(): Table {
    Table(1, [Column(IntegerType, [Number(7)]), Column(StringType, [Text([97])])])
  }

  lemma SevenBytes()
    ensures Sendable(OneRow().columns[0]) && Raw(OneRow().columns[0]) == [0, 0, 0, 7]
  {
    hide Pow;
    var c := OneRow().columns[0];
    assert Pack(c, 0) == [] && Pack(c, 1) == Pack(c, 0) + Encode(c, 0);
    assert BigEndian(7, 4) == BigEndian(0, 3) + [7];
    assert BigEndian(0, 3) == BigEndian(0, 2) + [0];
    assert BigEndian(0, 2) == BigEndian(0, 1) + [0];
    assert BigEndian(0, 1) == BigEndian(0, 0) + [0];
  }

  lemma OneLetter()
    ensures Sendable(OneRow().columns[1]) && |Raw(OneRow().columns[1])| == 1
  {
    hide Pow, BigEndian, Pad;
    var d := OneRow().columns[1];
    assert d.items[..0] == [] && ItemSize(d.items[..0]) == 1;
    assert Strip([97]) == [97];
    PackLength(d, 1);
  }

  /**
   Equal lengths lose data: an integer column of unchanged length is read in its compressed form, and
   the string column after it cannot be read although its own length has changed.
   */
  lemma EqualLengthExample()
    ensures Rotating().Lawful() && WellTyped(OneRow()) && Supported(OneRow())
    ensures !Intact(OneRow(), true, Rotating(), 0) && !Intact(OneRow(), true, Rotating(), 1)
  {
    hide BigEndian, Pow, ItemSize, Strip, Pad, Raw;
    RotatingIsLawful();
    SevenBytes();
    OneLetter();
    var c, d := OneRow().columns[0], OneRow().columns[1];
    assert Rotating().compress(Raw(c))[3] == Raw(c)[0];
    assert SameLength(c, Rotating()) && !SameLength(d, Rotating());
    assert Changed(OneRow(), Rotating(), 0) == 0;
    assert Changed(OneRow(), Rotating(), 1) == 0;
  }

  /** The driver's column, row by row as `next` reaches them. */
  method ReadColumn(reader: QflockResultSet, t: SqlType, columnIndex: int) returns (xs: seq<Option<Item>>)
    requires reader.rowIndex == 0 && reader.resultset.numRows < TWO_31 - 1
    modifies reader`rowIndex
    ensures |xs| == reader.resultset.numRows
    ensures forall r | 0 <= r < |xs| ::
      xs[r] == Get(t, reader.binaryRows, reader.resultset.columnTypeBytes, columnIndex, r + 1)
  {
    xs := [];
    var more := reader.Next();
    while more
      invariant reader.rowIndex == |xs| + 1 && |xs| <= reader.resultset.numRows
      invariant more <==> |xs| < reader.resultset.numRows
      invariant forall r | 0 <= r < |xs| ::
        xs[r] == Get(t, reader.binaryRows, reader.resultset.columnTypeBytes, columnIndex, r + 1)
      decreases reader.resultset.numRows - |xs|
    {
      var x := reader.GetValue(t, columnIndex);
      xs := xs + [x];
      more := reader.Next();
    }
  }

  /** A column of a query, from the server's table to the driver's getters. */
  method QueryColumn(table: Table, compression: bool, z: Codec, c: nat) returns (xs: Option<seq<Option<Item>>>)
    requires WellTyped(table) && table.numRows > 0 && c < |table.columns| && z.Lawful()
    requires Supported(table) ==> Sized(table, compression, z) && table.numRows < TWO_31 - 1
    ensures xs.Some? <==> Supported(table)
    ensures xs.Some? ==> |xs.value| == table.numRows
    ensures xs.Some? ==>
      (Intact(table, compression, z, c)
       <==> forall r | 0 <= r < table.numRows :: xs.value[r] == Some(Expected(table.columns[c], r)))
    ensures xs.Some? && Intact(table, compression, z, c) ==> forall r | 0 <= r < table.numRows ::
      xs.value[r].Some? && ComesBack(table.columns[c].items[r], xs.value[r].value, CellSize(table.columns[c]))
  {
    hide Pack, CellSize, Unpack, Get, Expected, Sized, Intact, ComesBack;
    var rs := ExecQuery(table, compression, z);
    if rs.None? {
      return None;
    }
    var reader := new QflockResultSet(rs.value);
    var ok := reader.GetColumnResults(z);
    assert ok by {
      forall i | 0 <= i < |rs.value.compressedRows| ensures Unpack(rs.value, z, i).Some? {
        UnpacksSent(table, z, rs.value, i);
      }
    }
    ghost var rows := reader.binaryRows;
    assert Opened(rs.value, z, rows);
    var column := table.columns[c];
    var read := ReadColumn(reader, column.t, c + 1);
    ColumnComesBack(table, compression, z, rs.value, rows, c);
    assert forall r | 0 <= r < table.numRows ::
      RowReadsBack(column, rows, rs.value.columnTypeBytes, c, r) <==> read[r] == Some(Expected(column, r));
    forall r | 0 <= r < table.numRows
      ensures ComesBack(column.items[r], Expected(column, r), CellSize(column))
    {
      ExpectedComesBack(column, r);
    }
    xs := Some(read);
  }

  /** Both losses as the caller sees them: neither getter gives what was packed. */
  method LoseColumns() returns (number: Option<Item>, text: Option<Item>)
    ensures number != Some(Number(7)) && text != Some(Text([97]))
  {
    hide Intact;
    EqualLengthExample();
    OneRowSized();
    var xs := QueryColumn(OneRow(), true, Rotating(), 0);
    number := xs.value[0];
    xs := QueryColumn(OneRow(), true, Rotating(), 1);
    text := xs.value[0];
  }

  lemma OneRowSized()
    requires Supported(OneRow()) && WellTyped(OneRow())
    ensures Sized(OneRow(), true, Rotating())
    ensures Expected(OneRow().columns[0], 0) == Number(7) && Expected(OneRow().columns[1], 0) == Text([97])
  {
    PackLength(OneRow().columns[0], 1);
    PackLength(OneRow().columns[1], 1);
  }
}
