/** The driver: columns unpacked from the wire, cells by index arithmetic. */
module JdbcDriver {
  import opened Numbers
  import opened Wire

  // java.sql.Types
  const VARCHAR := 12

  /** A byte buffer; only one on the heap gives access to its array. */
  datatype Buffer = Heap(bytes: seq<byte>) | Direct(bytes: seq<byte>)

  /** How many of the first `i` columns the driver has decompressed: its `columnIndex`. */
  function Decompressed(rs: ResultSet, i: nat): (n: nat)
    requires i <= |rs.columnBytes| && i <= |rs.compressedColumnBytes|
    ensures n <= i
  {
    if i == 0 then 0
    else Decompressed(rs, i - 1) + if rs.columnBytes[i - 1] != rs.compressedColumnBytes[i - 1] then 1 else 0
  }

  /** The buffer for compressed column `i`, or None where the driver throws. */
  function Unpack(rs: ResultSet, z: Codec, i: nat): Option<Buffer>
    requires i < |rs.compressedRows|
  {
    if i >= |rs.columnBytes| || i >= |rs.compressedColumnBytes| then None
    else if rs.columnBytes[i] == rs.compressedColumnBytes[i] then Some(Heap(rs.compressedRows[i]))
    else if |rs.compressedRows[i]| > rs.compressedColumnBytes[i] then None
    else match z.decompress(Pad(rs.compressedRows[i], rs.compressedColumnBytes[i]))
      case None => None
      case Some(bytes) =>
        var column := Decompressed(rs, i);
        if |bytes| != rs.columnBytes[i] || column >= |rs.types| then None
        else Some(if rs.types[column] == VARCHAR then Heap(bytes) else Direct(bytes))
  }

  /** The bytes of a fixed-width cell, rows and columns counted from 1; None is an SQLException. */
  function Cell(rows: seq<Buffer>, columnIndex: int, rIndex: int, size: nat): Option<seq<byte>> {
    if !(1 <= columnIndex <= |rows|) then None
    else
      var bytes, at := rows[columnIndex - 1].bytes, Wrap32(Wrap32(rIndex - 1) * size);
      if 0 <= at && at + size <= |bytes| then Some(bytes[at..at + size]) else None
  }

  function LongAt(rows: seq<Buffer>, columnIndex: int, rIndex: int): Option<int> {
    match Cell(rows, columnIndex, rIndex, 8) case None => None case Some(bs) => Some(Signed64(FromBigEndian(bs)))
  }

  function IntAt(rows: seq<Buffer>, columnIndex: int, rIndex: int): Option<int> {
    match Cell(rows, columnIndex, rIndex, 4) case None => None case Some(bs) => Some(Signed32(FromBigEndian(bs)))
  }

  /** The pattern of the double. */
  function DoubleAt(rows: seq<Buffer>, columnIndex: int, rIndex: int): Option<int> {
    match Cell(rows, columnIndex, rIndex, 8) case None => None case Some(bs) => Some(FromBigEndian(bs))
  }

  /** The bytes of the string, padding and all. */
  function StringAt(rows: seq<Buffer>, sizes: seq<nat>, columnIndex: int, rIndex: int): Option<seq<byte>> {
    if !(1 <= columnIndex <= |rows|) || columnIndex > |sizes| || rows[columnIndex - 1].Direct? then None
    else Cell(rows, columnIndex, rIndex, sizes[columnIndex - 1])
  }

  /** The getter for a column of type `t`. */
  function Get(t: SqlType, rows: seq<Buffer>, sizes: seq<nat>, columnIndex: int, rIndex: int): Option<Item> {
    match t
    case StringType =>
      (match StringAt(rows, sizes, columnIndex, rIndex) case None => None case Some(s) => Some(Text(s)))
    case DoubleType =>
      (match DoubleAt(rows, columnIndex, rIndex) case None => None case Some(n) => Some(Number(n)))
    case LongType =>
      (match LongAt(rows, columnIndex, rIndex) case None => None case Some(n) => Some(Number(n)))
    case _ =>
      (match IntAt(rows, columnIndex, rIndex) case None => None case Some(n) => Some(Number(n)))
  }

  class QflockResultSet {
    const resultset: ResultSet
    var binaryRows: seq<Buffer>
    var rowIndex: int

    constructor (rs: ResultSet)
      ensures resultset == rs && rowIndex == 0
      ensures binaryRows == seq(|rs.binaryRows|, i requires 0 <= i < |rs.binaryRows| => Heap(rs.binaryRows[i]))
    {
      resultset, rowIndex := rs, 0;
      binaryRows := seq(|rs.binaryRows|, i requires 0 <= i < |rs.binaryRows| => Heap(rs.binaryRows[i]));
    }

    /** Unpacks the compressed columns; false is an SQLException. */
    method GetColumnResults(z: Codec) returns (ok: bool)
      modifies `binaryRows
      ensures ok <==> forall i | 0 <= i < |resultset.compressedRows| :: Unpack(resultset, z, i).Some?
      ensures ok ==> |binaryRows| == |old(binaryRows)| + |resultset.compressedRows| && old(binaryRows) <= binaryRows
      ensures ok ==> forall i | 0 <= i < |resultset.compressedRows| ::
        Some(binaryRows[|old(binaryRows)| + i]) == Unpack(resultset, z, i)
    {
      var rs := resultset;
      var columnIndex := 0;
      for i := 0 to |rs.compressedRows|
        invariant i <= |rs.columnBytes| && i <= |rs.compressedColumnBytes| && columnIndex == Decompressed(rs, i)
        invariant |binaryRows| == |old(binaryRows)| + i && old(binaryRows) <= binaryRows
        invariant forall k | 0 <= k < i :: Some(binaryRows[|old(binaryRows)| + k]) == Unpack(rs, z, k)
      {
        if i >= |rs.columnBytes| || i >= |rs.compressedColumnBytes| {
          assert Unpack(rs, z, i).None?;
          return false;
        }
        var colBytes, compColBytes, compRow := rs.columnBytes[i], rs.compressedColumnBytes[i], rs.compressedRows[i];
        if colBytes != compColBytes {
          if |compRow| > compColBytes {
            assert Unpack(rs, z, i).None?;
            return false;
          }
          match z.decompress(Pad(compRow, compColBytes)) {
            case None =>
              assert Unpack(rs, z, i).None?;
              return false;
            case Some(decompressed) =>
              if |decompressed| != colBytes || columnIndex >= |rs.types| {
                assert Unpack(rs, z, i).None?;
                return false;
              }
              if rs.types[columnIndex] == VARCHAR {
                binaryRows := binaryRows + [Heap(decompressed)];
              } else {
                binaryRows := binaryRows + [Direct(decompressed)];
              }
          }
          columnIndex := columnIndex + 1;
        } else {
          binaryRows := binaryRows + [Heap(compRow)];
        }
      }
      ok := true;
    }

    function GetLong(columnIndex: int): Option<int>
      reads this
    {
      LongAt(binaryRows, columnIndex, rowIndex)
    }

    function GetInt(columnIndex: int): Option<int>
      reads this
    {
      IntAt(binaryRows, columnIndex, rowIndex)
    }

    function GetDouble(columnIndex: int): Option<int>
      reads this
    {
      DoubleAt(binaryRows, columnIndex, rowIndex)
    }

    function GetString(columnIndex: int): Option<seq<byte>>
      reads this
    {
      StringAt(binaryRows, resultset.columnTypeBytes, columnIndex, rowIndex)
    }

    /** The typed getter at the row reached. */
    method GetValue(t: SqlType, columnIndex: int) returns (x: Option<Item>)
      ensures x == Get(t, binaryRows, resultset.columnTypeBytes, columnIndex, rowIndex)
    {
      match t {
        case StringType =>
          var s := GetString(columnIndex);
          x := if s.None? then None else Some(Text(s.value));
        case DoubleType =>
          var d := GetDouble(columnIndex);
          x := if d.None? then None else Some(Number(d.value));
        case LongType =>
          var n := GetLong(columnIndex);
          x := if n.None? then None else Some(Number(n.value));
        case _ =>
          var n := GetInt(columnIndex);
          x := if n.None? then None else Some(Number(n.value));
      }
    }

    method Next() returns (more: bool)
      modifies `rowIndex
      ensures rowIndex == Wrap32(old(rowIndex) + 1) && (more <==> rowIndex <= resultset.numRows)
    {
      rowIndex := Wrap32(rowIndex + 1);
      more := rowIndex <= resultset.numRows;
    }
  }
}
