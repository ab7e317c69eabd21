/** The server: a query result packed column by column. */
module QueryServer {
  import opened Numbers
  import opened Wire

  /** `rs` describes the first `n` columns of the table. */
  ghost predicate Carries(rs: ResultSet, table: Table, compression: bool, z: Codec, n: nat)
  {
    var sent := if compression then rs.compressedRows else rs.binaryRows;
    && n <= |table.columns| && rs.numRows == table.numRows
    && (if compression then rs.binaryRows == [] else rs.compressedRows == [])
    && |sent| == |rs.columnTypeBytes| == |rs.columnBytes| == |rs.compressedColumnBytes| == n
    && forall c | 0 <= c < n ::
      && Sendable(table.columns[c])
      && rs.columnTypeBytes[c] == CellSize(table.columns[c]) && rs.columnBytes[c] == |Raw(table.columns[c])|
      && sent[c] == Sent(table.columns[c], compression, z) && rs.compressedColumnBytes[c] == |sent[c]|
  }

  /** The numbers by which java.sql.Types knows the types the server sends. */
  ghost predicate Named(t: SqlType, number: int) {
    match t
    case StringType => number == 12
    case DoubleType => number == 8
    case LongType | IntegerType => number == 4
    case ShortType | OtherType => false
  }

  ghost predicate Describes(types: seq<int>, table: Table) {
    |types| == |table.columns| && forall c | 0 <= c < |types| :: Named(table.columns[c].t, types[c])
  }

  method GetMetadata(table: Table) returns (types: Option<seq<int>>)
    ensures types.Some? <==> Supported(table)
    ensures types.Some? ==> Describes(types.value, table)
  {
    var parts := [];
    for c := 0 to |table.columns|
      invariant |parts| == c && forall k | 0 <= k < c :: MapDataType(table.columns[k].t) == Some(parts[k])
    {
      match MapDataType(table.columns[c].t) {
        case None => return None;
        case Some(t) => parts := parts + [t];
      }
    }
    types := Some(parts);
  }

  /** The result of a query, or the exception for a column type the server does not know. */
  method ExecQuery(table: Table, compression: bool, z: Codec) returns (r: Option<ResultSet>)
    requires WellTyped(table)
    ensures r.Some? <==> Supported(table)
    ensures r.Some? ==> Describes(r.value.types, table)
    ensures r.Some? ==> Carries(r.value, table, compression, z, if table.numRows > 0 then |table.columns| else 0)
  {
    hide Sent, Raw, CellSize;
    var binaryRows: seq<seq<byte>>, compRows: seq<seq<byte>> := [], [];
    var colTypeBytes: seq<nat>, colBytes: seq<nat>, colCompBytes: seq<nat> := [], [], [];
    if table.numRows > 0 {
      for c := 0 to |table.columns|
        invariant Carries(ResultSet([], table.numRows, binaryRows, colTypeBytes, colBytes, colCompBytes, compRows),
                          table, compression, z, c)
      {
        var column := table.columns[c];
        if !Packable(column.t) {
          return None;
        }
        colBytes := colBytes + [|Raw(column)|];
        var bytes := Sent(column, compression, z);
        colCompBytes := colCompBytes + [|bytes|];
        if compression {
          compRows := compRows + [bytes];
        } else {
          binaryRows := binaryRows + [bytes];
        }
        colTypeBytes := colTypeBytes + [CellSize(column)];
      }
    }
    var types := GetMetadata(table);
    match types {
      case None => r := None;
      case Some(ts) =>
        r := Some(ResultSet(ts, table.numRows, binaryRows, colTypeBytes, colBytes, colCompBytes, compRows));
    }
  }
}
