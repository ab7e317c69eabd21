/** Row groups to batches to rows, over all columns of a file. */
module RecordReader {
  import opened Numbers
  import opened Columns
  import opened Rows
  import opened Slots
  import opened ColumnReader
  import opened Batches
  import opened Lanes

  /** `Threw` is the exception of a value that does not convert. */
  datatype Step = More | NoMore | ReachedLastBlock | Threw

  /**
   Row groups that can be read, and in batches of this capacity: where decoding is lazy, no batch has a value
   from a plain page before a dictionary page.
   */
  ghost predicate Supplied(fields: seq<Field>, groups: seq<RowGroup>, capacity: nat) {
    && capacity > 0
    && forall g | 0 <= g < |groups| ::
      groups[g].Sound(fields) && groups[g].InOrder(fields, Plan(capacity, groups[g].rowCount, []))
  }

  lemma EmptyTable(cols: seq<seq<Cell>>)
    ensures Table(cols, 0) == [] && RowsAccepted(Table(cols, 0))
  {
  }

  lemma FirstGroup(fields: seq<Field>, groups: seq<RowGroup>)
    requires groups != [] && forall g | 0 <= g < |groups| :: groups[g].Sound(fields)
    ensures groups[0].rowCount > 0
    ensures Counts(groups) == [groups[0].rowCount] + Counts(groups[1..])
    ensures Total(Counts(groups)) == groups[0].rowCount + Total(Counts(groups[1..]))
    ensures GroupRows(fields, groups)
      == Table(groups[0].Columns(fields), groups[0].rowCount) + GroupRows(fields, groups[1..])
  {
    assert Counts(groups)[1..] == Counts(groups[1..]);
  }

  class VectorizedParquetRecordReader {
    const fields: seq<Field>
    const capacity: nat
    const totalRowCount: nat
    const columnVectors: seq<ColumnVector>
    const returnColumnarBatch: bool
    var columnReaders: seq<VectorizedColumnReader?>
    /** The row groups the file reader has not handed out yet. */
    var rowGroups: seq<RowGroup>
    var batchIdx: nat
    var numBatched: nat
    /** The row count of the columnar batch. */
    var numRows: nat
    var rowsReturned: nat
    var totalCountLoadedSoFar: nat
    /** What the current row group still has to deliver, column by column. */
    ghost var rest: seq<seq<Cell>>
    /** What the columnar batch shows, column by column. */
    ghost var batch: seq<seq<Cell>>
    ghost var repr: set<object>

    /** Counters and row groups. */
    ghost predicate Counting()
      reads this
    {
      && capacity > 0 && rowsReturned <= totalCountLoadedSoFar && Supplied(fields, rowGroups, capacity)
      && totalCountLoadedSoFar + Total(Counts(rowGroups)) <= totalRowCount
      && |rest| == |fields| && |batch| == |fields| && numRows <= capacity
      && (forall i | 0 <= i < |rest| :: |rest[i]| == totalCountLoadedSoFar - rowsReturned)
      && (forall i | 0 <= i < |batch| :: |batch[i]| == numRows)
    }

    ghost predicate Valid()
      reads this, repr
    {
      && Counting() && this !in repr
      && AllReady(fields, columnReaders, columnVectors, repr, capacity, rest, GroupSizes())
      && AllShow(fields, columnReaders, columnVectors, repr, batch) && RowsAccepted(BatchRows())
    }

    /** The rows that no batch has delivered yet. */
    ghost function RowsLeft(): (rows: seq<Row>)
      reads this
      requires Counting()
    {
      Table(rest, totalCountLoadedSoFar - rowsReturned) + GroupRows(fields, rowGroups)
    }

    /** The rows of the columnar batch. */
    ghost function BatchRows(): (rows: seq<Row>)
      reads this
      requires Counting()
    {
      Table(batch, numRows)
    }

    /** The sizes of the batches to come. */
    ghost function Sizes(): seq<nat>
      reads this
      requires Counting()
    {
      Plan(capacity, totalCountLoadedSoFar - rowsReturned, Counts(rowGroups))
    }

    /** Those of the current row group. */
    ghost function GroupSizes(): seq<nat>
      reads this
      requires Counting()
    {
      Plan(capacity, totalCountLoadedSoFar - rowsReturned, [])
    }

    constructor (fileFields: seq<Field>, groups: seq<RowGroup>, total: nat, rowsPerBatch: nat, returnBatches: bool)
      requires Supplied(fileFields, groups, rowsPerBatch) && Total(Counts(groups)) <= total
      ensures Valid() && fresh(repr) && numRows == 0 && rowsReturned == 0 && batchIdx == numBatched == 0
      ensures fields == fileFields && capacity == rowsPerBatch && totalRowCount == total
      ensures returnColumnarBatch == returnBatches
      ensures RowsLeft() == GroupRows(fileFields, groups) && Sizes() == Plan(rowsPerBatch, 0, Counts(groups))
    {
      hide RowGroup.Sound, RowGroup.InOrder;
      PlanHead(rowsPerBatch, 0, []);
      fields, capacity, totalRowCount, rowGroups := fileFields, rowsPerBatch, total, groups;
      returnColumnarBatch := returnBatches;
      batchIdx, numBatched, numRows, rowsReturned, totalCountLoadedSoFar := 0, 0, 0, 0, 0;
      columnReaders := seq(|fileFields|, _ => null);
      var vs, objects := InitBatch(fileFields, rowsPerBatch);
      columnVectors, repr := vs, objects;
      rest, batch := seq(|fileFields|, _ => []), seq(|fileFields|, _ => []);
    }

    /** The next row group, once the current one is used up. */
    method CheckEndOfRowGroup() returns (ok: bool)
      requires Valid() && rowsReturned < totalRowCount
      modifies this
      ensures ok <==> old(Sizes()) != []
      ensures ok ==> Valid() && rowsReturned < totalCountLoadedSoFar
      ensures fresh(repr - old(repr))
      ensures ok ==> RowsLeft() == old(RowsLeft()) && Sizes() == old(Sizes())
      ensures rowsReturned == old(rowsReturned) && numRows == old(numRows) && batch == old(batch)
      ensures batchIdx == old(batchIdx) && numBatched == old(numBatched)
    {
      hide RowGroup.Sound, RowGroup.InOrder, Plan, Table, GroupRows, AllReady, AllShow;
      PlanHead(capacity, totalCountLoadedSoFar - rowsReturned, Counts(rowGroups));
      if rowsReturned != totalCountLoadedSoFar {
        return true;
      }
      if rowGroups == [] {
        return false;
      }
      FirstGroup(fields, rowGroups);
      PlanHead(capacity, rowGroups[0].rowCount, Counts(rowGroups[1..]));
      NextRowGroup();
      ok := true;
    }

    /** `readNextFilteredRowGroup` and new readers for its columns. */
    method NextRowGroup()
      requires Valid() && rowsReturned == totalCountLoadedSoFar && rowGroups != []
      modifies `columnReaders, `repr, `totalCountLoadedSoFar, `rowGroups, `rest
      ensures Valid() && fresh(repr - old(repr)) && RowsLeft() == old(RowsLeft())
      ensures rowGroups == old(rowGroups)[1..]
      ensures totalCountLoadedSoFar == old(totalCountLoadedSoFar) + old(rowGroups)[0].rowCount
    {
      hide RowGroup.Sound, RowGroup.InOrder, Plan, LaneReady, Shows, Table, GroupRows, RowGroup.Cells, RowGroup.Columns;
      hide RowsAccepted, AllReady, AllShow, LanesApart;
      var group := rowGroups[0];
      FirstGroup(fields, rowGroups);
      ghost var readers, objects := columnReaders, repr;
      columnReaders, repr := OpenColumns(fields, group, columnVectors, columnReaders, repr, capacity, rest,
                                         GroupSizes(), Plan(capacity, group.rowCount, []));
      Ready(fields, columnReaders, columnVectors, repr, capacity, group.Columns(fields),
            Plan(capacity, group.rowCount, []));
      StillShown(fields, readers, columnReaders, columnVectors, objects, repr, batch);
      totalCountLoadedSoFar := totalCountLoadedSoFar + group.rowCount;
      rowGroups := rowGroups[1..];
      rest := group.Columns(fields);
      EmptyTable(old(rest));
    }

    /** The next `num` rows are the tops of the columns, and what is behind them is what the columns have below. */
    lemma NextRows(num: nat)
      requires Counting() && num <= totalCountLoadedSoFar - rowsReturned
      ensures num <= |RowsLeft()| && RowsLeft()[..num] == Table(Tops(rest, num), num)
      ensures RowsLeft()
        == Table(Tops(rest, num), num)
           + (Table(Bottoms(rest, num), totalCountLoadedSoFar - rowsReturned - num) + GroupRows(fields, rowGroups))
      ensures RowsAccepted(RowsLeft()[..num]) <==> forall i | 0 <= i < |rest| :: Accepted(rest[i][..num])
    {
      hide Table, GroupRows, RowGroup.Sound, RowGroup.InOrder, RowsAccepted, Accepted, Total, Counts;
      TakeBatch(rest, num, totalCountLoadedSoFar - rowsReturned - num, GroupRows(fields, rowGroups));
    }

    /** The batch itself: every column reads `num` rows. */
    method ReadRows(num: nat) returns (ok: bool)
      requires Valid() && 0 < num == Min(capacity, totalCountLoadedSoFar - rowsReturned)
      requires |columnVectors| == |fields| && NullFree(fields, columnVectors, capacity)
      modifies this, repr
      ensures fresh(repr - old(repr)) && rowGroups == old(rowGroups)
      ensures totalCountLoadedSoFar == old(totalCountLoadedSoFar)
      ensures !ok ==> numRows == old(numRows) && batchIdx == old(batchIdx) && numBatched == old(numBatched)
      ensures ok ==> Valid() && old(RowsLeft()) == BatchRows() + RowsLeft()
      ensures ok ==> numRows == num && rowsReturned == old(rowsReturned) + num && batchIdx == 0 && numBatched == num
      ensures !ok ==> num <= |old(RowsLeft())| && !RowsAccepted(old(RowsLeft())[..num])
    {
      hide LaneReady, Shows, NoNulls, Table, GroupRows, RowGroup.Sound, Accepted, RowsAccepted, LaneAt, LanesApart;
      hide AllReady, AllShow, AllAt, NullFree, Plan, RowGroup.InOrder, Total, Counts;
      ghost var sizes := GroupSizes();
      PlanHead(capacity, totalCountLoadedSoFar - rowsReturned, []);
      NextRows(num);
      ok, repr := ReadColumns(fields, columnReaders, columnVectors, num, repr, capacity, rest, sizes);
      if ok {
        rest, batch := Bottoms(rest, num), Tops(rest, num);
        rowsReturned := rowsReturned + num;
        numRows, numBatched, batchIdx := num, num, 0;
      }
    }

    /**
     Advances to the next batch: as many of the rows left as the current row group has and the
     capacity allows. False once all rows have been returned.
     */
    method NextBatch() returns (step: Step)
      requires Valid()
      modifies this, repr
      ensures fresh(repr - old(repr))
      ensures step.NoMore? <==> old(rowsReturned) == totalRowCount
      ensures step.ReachedLastBlock? <==> old(rowsReturned) < totalRowCount && old(Sizes()) == []
      ensures step.NoMore? ==> Valid() && rowsReturned == old(rowsReturned)
      ensures step.NoMore? ==> RowsLeft() == old(RowsLeft()) && Sizes() == old(Sizes())
      ensures !step.More? ==> numRows == 0 && batchIdx == old(batchIdx) && numBatched == old(numBatched)
      ensures step.More? ==> Valid() && old(RowsLeft()) == BatchRows() + RowsLeft()
      ensures step.More? ==> old(Sizes()) == [numRows] + Sizes()
      ensures step.More? ==> 0 < numRows && rowsReturned == old(rowsReturned) + numRows
      ensures step.More? ==> batchIdx == 0 && numBatched == numRows
      ensures step.Threw? ==> 0 < |old(Sizes())| && old(Sizes())[0] <= |old(RowsLeft())|
      ensures step.Threw? ==> !RowsAccepted(old(RowsLeft())[..old(Sizes())[0]])
    {
      hide LaneReady, Shows, NoNulls, Plan, Table, GroupRows, RowGroup.Sound, Accepted, RowsAccepted, LanesApart;
      hide AllShow;
      ResetVectors(fields, columnReaders, columnVectors, repr, capacity, rest, GroupSizes());
      numRows, batch := 0, seq(|fields|, _ => []);
      EmptyTable(batch);
      NothingShown(fields, columnReaders, columnVectors, repr, capacity, rest, GroupSizes());
      if rowsReturned >= totalRowCount {
        return NoMore;
      }
      var ok := CheckEndOfRowGroup();
      if !ok {
        return ReachedLastBlock;
      }
      var num := Min(capacity, totalCountLoadedSoFar - rowsReturned);
      PlanHead(capacity, totalCountLoadedSoFar - rowsReturned, Counts(rowGroups));
      ok := ReadRows(num);
      step := if ok then More else Threw;
    }

    /** The reader hands out rows: `batchIdx` rows of the batch are out. */
    ghost predicate RowMode()
      reads this
    {
      !returnColumnarBatch && batchIdx <= numBatched && (batchIdx < numBatched ==> numBatched == numRows)
    }

    /** The rows still to be handed out one by one. */
    ghost function Stream(): (rows: seq<Row>)
      reads this
      requires Counting() && RowMode()
    {
      (if batchIdx < numBatched then BatchRows()[batchIdx..] else []) + RowsLeft()
    }

    lemma NothingLeft()
      requires Counting()
      ensures Sizes() == [] ==> RowsLeft() == []
      ensures rowsReturned <= totalRowCount
      ensures rowsReturned == totalRowCount ==> RowsLeft() == [] && Sizes() == []
    {
      hide RowGroup.Sound;
      PlanHead(capacity, totalCountLoadedSoFar - rowsReturned, Counts(rowGroups));
      if rowGroups != [] {
        FirstGroup(fields, rowGroups);
        PlanHead(capacity, rowGroups[0].rowCount, Counts(rowGroups[1..]));
      }
    }

    /** `nextKeyValue` row by row: the next row of the batch or, at its end, the first of the next one. */
    method NextRow() returns (step: Step)
      requires Valid() && RowMode()
      modifies this, repr
      ensures fresh(repr - old(repr))
      ensures step.More? ==> Valid() && RowMode() && 0 < batchIdx <= numBatched == numRows
      ensures step.More? ==> old(Stream()) == [BatchRows()[batchIdx - 1]] + Stream()
      ensures step.More? ==> Accepted(BatchRows()[batchIdx - 1])
      ensures step.More? ==> rowsReturned + |RowsLeft()| == old(rowsReturned + |RowsLeft()|)
      ensures step.NoMore? ==> Valid() && RowMode() && Stream() == old(Stream()) == [] && rowsReturned == totalRowCount
      ensures step.ReachedLastBlock? ==> old(Stream()) == [] && old(rowsReturned) < totalRowCount
      ensures step.Threw? ==> !RowsAccepted(old(Stream()))
    {
      hide LaneReady, Shows, Table, GroupRows, RowGroup.Sound, RowGroup.InOrder, Plan, AllReady, AllShow, RowsAccepted;
      hide Accepted, Total, Counts;
      if batchIdx >= numBatched {
        NothingLeft();
        ghost var rows := RowsLeft();
        assert Stream() == rows;
        step := NextBatch();
        if !step.More? {
          if step.Threw? {
            PrefixAccepted(rows, old(Sizes())[0]);
          }
          return;
        }
      }
      RowAccepted(BatchRows(), batchIdx);
      batchIdx := batchIdx + 1;
      step := More;
    }

    /** Advances to the next batch or, row by row, to the next row. */
    method NextKeyValue() returns (step: Step)
      requires Valid() && (!returnColumnarBatch ==> RowMode())
      modifies this, repr
      ensures fresh(repr - old(repr))
      ensures step.More? || step.NoMore? ==> Valid() && (!returnColumnarBatch ==> RowMode())
      ensures step.More? ==> rowsReturned + |RowsLeft()| == old(rowsReturned + |RowsLeft()|)
      ensures returnColumnarBatch && step.More? ==>
        0 < numRows && old(RowsLeft()) == BatchRows() + RowsLeft() && old(Sizes()) == [numRows] + Sizes()
      ensures returnColumnarBatch ==> (step.NoMore? <==> old(rowsReturned) == totalRowCount)
      ensures returnColumnarBatch ==>
        (step.ReachedLastBlock? <==> old(rowsReturned) < totalRowCount && old(Sizes()) == [])
      ensures returnColumnarBatch && step.Threw? ==>
        && 0 < |old(Sizes())| && old(Sizes())[0] <= |old(RowsLeft())|
        && !RowsAccepted(old(RowsLeft())[..old(Sizes())[0]])
      ensures !returnColumnarBatch && step.More? ==>
        && 0 < batchIdx <= numRows && Accepted(BatchRows()[batchIdx - 1])
        && old(Stream()) == [BatchRows()[batchIdx - 1]] + Stream()
      ensures !returnColumnarBatch && step.NoMore? ==> Stream() == old(Stream()) == [] && rowsReturned == totalRowCount
      ensures !returnColumnarBatch && step.ReachedLastBlock? ==>
        old(Stream()) == [] && old(rowsReturned) < totalRowCount
      ensures !returnColumnarBatch && step.Threw? ==> !RowsAccepted(old(Stream()))
    {
      hide LaneReady, Shows, Table, GroupRows, RowGroup.Sound, Plan, AllReady, AllShow, RowsAccepted, Accepted;
      if returnColumnarBatch {
        step := NextBatch();
      } else {
        step := NextRow();
      }
    }

    /** The row at hand, read through the vectors of the batch. */
    method GetCurrentValue() returns (row: Row)
      requires Valid() && RowMode() && 0 < batchIdx <= numRows
      ensures row == BatchRows()[batchIdx - 1]
    {
      hide AllReady, AllShow, RowsAccepted, Table;
      row := GetRow(batchIdx - 1);
    }

    /** A copy of the rows the columnar batch shows. */
    method CopyBatch() returns (rows: seq<Row>)
      requires Valid()
      ensures rows == BatchRows()
    {
      hide AllReady, AllShow, RowsAccepted, Table, Supplied, GroupRows;
      rows := [];
      for j := 0 to numRows
        invariant rows == BatchRows()[..j]
      {
        var row := GetRow(j);
        rows := rows + [row];
      }
    }

    method GetRow(j: nat) returns (row: Row)
      requires Valid() && j < numRows
      ensures row == BatchRows()[j]
    {
      hide LaneReady;
      row := [];
      for i := 0 to |fields|
        invariant |row| == i && forall c | 0 <= c < i :: row[c] == batch[c][j]
      {
        assert Shows(fields[i], columnVectors[i], batch[i]);
        row := row + [View(fields[i].t.sparkType, columnVectors[i], j)];
      }
    }
  }

  /** A caller's loop over batches. */
  method AllBatches(reader: VectorizedParquetRecordReader) returns (batches: seq<seq<Row>>, last: Step)
    requires reader.Valid()
    modifies reader, reader.repr
    ensures !last.More?
    ensures !last.Threw? ==> Concat(batches) == old(reader.RowsLeft()) && Lengths(batches) == old(reader.Sizes())
    ensures last.Threw? <==> !RowsAccepted(old(reader.RowsLeft()))
    ensures Concat(batches) <= old(reader.RowsLeft()) && Lengths(batches) <= old(reader.Sizes())
    ensures !last.Threw? ==> (last.NoMore? <==> old(reader.rowsReturned) + |Concat(batches)| == reader.totalRowCount)
    ensures last.NoMore? ==> reader.Valid() && reader.rowsReturned == reader.totalRowCount
  {
    hide LaneReady, Shows, Table, GroupRows, RowGroup.Sound, Plan, AllReady, AllShow, RowsAccepted;
    hide VectorizedParquetRecordReader.Counting;
    batches := [];
    AcceptedConcat([], []);
    while true
      invariant reader.Valid() && fresh(reader.repr - old(reader.repr))
      invariant old(reader.RowsLeft()) == Concat(batches) + reader.RowsLeft()
      invariant old(reader.Sizes()) == Lengths(batches) + reader.Sizes()
      invariant RowsAccepted(Concat(batches)) && reader.rowsReturned == old(reader.rowsReturned) + |Concat(batches)|
      decreases reader.totalRowCount - reader.rowsReturned
    {
      reader.NothingLeft();
      ghost var left, size := reader.RowsLeft(), if reader.Sizes() == [] then 0 else reader.Sizes()[0];
      AcceptedConcat(Concat(batches), left);
      last := reader.NextBatch();
      if !last.More? {
        if last.Threw? {
          PrefixAccepted(left, size);
        }
        return;
      }
      reader.NothingLeft();
      var rows := reader.CopyBatch();
      ConcatMore(batches, rows);
      AcceptedConcat(Concat(batches), rows);
      batches := batches + [rows];
    }
  }

  /** `nextKeyValue` and, if there is a row, `getCurrentValue`. */
  method TakeRow(reader: VectorizedParquetRecordReader) returns (row: Row, step: Step)
    requires reader.Valid() && reader.RowMode()
    modifies reader, reader.repr
    ensures fresh(reader.repr - old(reader.repr))
    ensures step.More? ==> reader.Valid() && reader.RowMode() && Accepted(row)
    ensures step.More? ==> old(reader.Stream()) == [row] + reader.Stream()
    ensures step.More? ==>
      reader.rowsReturned + |reader.RowsLeft()| == old(reader.rowsReturned + |reader.RowsLeft()|)
    ensures step.NoMore? || step.ReachedLastBlock? ==> old(reader.Stream()) == []
    ensures step.ReachedLastBlock? ==>
      old(reader.RowsLeft()) == [] && old(reader.rowsReturned) < reader.totalRowCount
    ensures step.Threw? ==> !RowsAccepted(old(reader.Stream()))
  {
    hide LaneReady, Shows, Table, GroupRows, RowGroup.Sound, Plan, AllReady, AllShow, RowsAccepted, Accepted;
    hide VectorizedParquetRecordReader.Counting;
    row := [];
    step := reader.NextKeyValue();
    if step.More? {
      row := reader.GetCurrentValue();
    }
  }

  /** A caller's loop over rows. */
  method AllRowsOneByOne(reader: VectorizedParquetRecordReader) returns (rows: seq<Row>, last: Step)
    requires reader.Valid() && reader.RowMode()
    modifies reader, reader.repr
    ensures !last.More? && rows <= old(reader.Stream())
    ensures !last.Threw? ==> rows == old(reader.Stream())
    ensures last.Threw? <==> !RowsAccepted(old(reader.Stream()))
    ensures last.ReachedLastBlock? ==> old(reader.rowsReturned + |reader.RowsLeft()|) < reader.totalRowCount
  {
    hide LaneReady, Shows, Table, GroupRows, RowGroup.Sound, Plan, AllReady, AllShow, RowsAccepted;
    hide VectorizedParquetRecordReader.Counting, VectorizedParquetRecordReader.RowsLeft;
    hide VectorizedParquetRecordReader.Stream, Accepted;
    rows := [];
    AcceptedConcat([], []);
    while true
      invariant reader.Valid() && reader.RowMode() && fresh(reader.repr - old(reader.repr))
      invariant old(reader.Stream()) == rows + reader.Stream() && RowsAccepted(rows)
      invariant reader.rowsReturned + |reader.RowsLeft()| == old(reader.rowsReturned + |reader.RowsLeft()|)
      decreases |reader.Stream()|
    {
      AcceptedConcat(rows, reader.Stream());
      var row;
      row, last := TakeRow(reader);
      if !last.More? {
        return;
      }
      AcceptedConcat(rows, [row]);
      rows := rows + [row];
    }
  }

  method FileByBatches(fields: seq<Field>, groups: seq<RowGroup>, capacity: nat, total: nat)
    returns (batches: seq<seq<Row>>, last: Step)
    requires Supplied(fields, groups, capacity) && total == Total(Counts(groups))
    ensures last == if RowsAccepted(GroupRows(fields, groups)) then NoMore else Threw
    ensures last.NoMore? ==> Concat(batches) == GroupRows(fields, groups)
    ensures last.NoMore? ==> Lengths(batches) == Plan(capacity, 0, Counts(groups))
  {
    hide LaneReady, Shows, Table, GroupRows, RowGroup.Sound, Plan, AllReady, AllShow, RowsAccepted;
    hide VectorizedParquetRecordReader.Counting;
    var reader := new VectorizedParquetRecordReader(fields, groups, total, capacity, true);
    batches, last := AllBatches(reader);
    GroupRowsCount(fields, groups);
  }

  method FileByRows(fields: seq<Field>, groups: seq<RowGroup>, capacity: nat, total: nat)
    returns (rows: seq<Row>, last: Step)
    requires Supplied(fields, groups, capacity) && total == Total(Counts(groups))
    ensures last == if RowsAccepted(GroupRows(fields, groups)) then NoMore else Threw
    ensures last.NoMore? ==> rows == GroupRows(fields, groups)
  {
    hide LaneReady, Shows, Table, GroupRows, RowGroup.Sound, Plan, AllReady, AllShow, RowsAccepted;
    hide VectorizedParquetRecordReader.Counting;
    var reader := new VectorizedParquetRecordReader(fields, groups, total, capacity, false);
    assert reader.Stream() == GroupRows(fields, groups);
    rows, last := AllRowsOneByOne(reader);
    GroupRowsCount(fields, groups);
  }

  /**
   A file read twice, batch by batch and row by row: either way every row of every row group is seen
   exactly once and in order, in ceil(rows / capacity) batches for each row group; and either way the
   reading fails exactly when some row has a value that does not convert.
   */
  method EveryRowOnce(fields: seq<Field>, groups: seq<RowGroup>, capacity: nat, total: nat)
    returns (batches: seq<seq<Row>>, rows: seq<Row>, last: Step)
    requires Supplied(fields, groups, capacity) && total == Total(Counts(groups))
    ensures last == if RowsAccepted(GroupRows(fields, groups)) then NoMore else Threw
    ensures last.NoMore? ==> Concat(batches) == rows == GroupRows(fields, groups)
    ensures last.NoMore? ==> Lengths(batches) == Plan(capacity, 0, Counts(groups))
    ensures last.NoMore? ==> |batches| == Ceilings(Counts(groups), capacity)
  {
    hide RowGroup.Sound, GroupRows, RowsAccepted, Plan;
    batches, last := FileByBatches(fields, groups, capacity, total);
    rows, last := FileByRows(fields, groups, capacity, total);
    PlanCount(capacity, 0, Counts(groups));
    NoCeiling(capacity);
  }

  lemma {:induction false} GroupRowsCount(fields: seq<Field>, groups: seq<RowGroup>)
    requires forall g | 0 <= g < |groups| :: groups[g].Sound(fields)
    ensures |GroupRows(fields, groups)| == Total(Counts(groups))
  {
    if groups != [] {
      FirstGroup(fields, groups);
      GroupRowsCount(fields, groups[1..]);
    }
  }
}
