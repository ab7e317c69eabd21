/** Reading rows: definition levels and the values of the non-null rows, advanced together. */
module LevelReader {
  import opened Numbers
  import opened Hybrid
  import opened Columns
  import opened RleReader
  import opened ReadState
  import opened Rows
  import U = Updaters

  /** Both readers stand before row `c` of the page: as many levels and as many values are consumed. */
  ghost predicate InStep(levels: VectorizedRleValuesReader, data: U.DataReader, u: Updater, p: Page, c: nat)
    reads levels, levels.currentBuffer, match data case RleIds(r) => {r} case Plain(q) => {q}
    reads data.Repr()
  {
    && levels.Valid() && data.Ready(u) && levels !in data.Repr() && levels.currentBuffer !in data.Repr()
    && p.Complete() && c <= p.count
    && levels.Pending() == p.levels[c..] && data.Contents(u) == p.ValuesFrom(c)
  }

  /** What `levels` reports stays as it was but for the count and the index. */
  twostate predicate SameRun(levels: VectorizedRleValuesReader)
    reads levels, levels.currentBuffer
  {
    && unchanged(levels`stream) && unchanged(levels`bitWidth) && unchanged(levels`bytesWidth)
    && unchanged(levels`mode) && unchanged(levels`currentValue) && unchanged(levels`unpacked)
    && unchanged(levels`currentBuffer) && unchanged(levels.currentBuffer)
  }

  /** The levels of the next `num` rows, as the current run stores them. */
  lemma RunLevels(levels: VectorizedRleValuesReader, p: Page, c: nat, num: nat)
    requires levels.Valid() && c <= |p.levels| && levels.Pending() == p.levels[c..]
    requires num <= levels.currentCount
    ensures c + num <= |p.levels|
    ensures levels.mode == RLE ==> forall k | c <= k < c + num :: p.levels[k] == levels.currentValue
    ensures levels.mode == PACKED ==>
      forall k | c <= k < c + num :: p.levels[k] == levels.currentBuffer[levels.currentBufferIdx + (k - c)]
  {
    levels.CurrentFront(num);
    var front := levels.Pending()[..num];
    forall k | c <= k < c + num ensures p.levels[k] == front[k - c] {
    }
  }

  lemma CompleteLevels(p: Page)
    requires p.Complete()
    ensures p.count <= |p.levels|
  {
  }

  /** The packed case of `SkipInRun`: level by level, one value for each maximum level. */
  method SkipPacked(num: nat, levels: VectorizedRleValuesReader, data: U.DataReader, u: Updater,
                    max: int, ghost p: Page, ghost c: nat)
    requires data.Ready(u) && levels !in data.Repr() && levels.currentBuffer !in data.Repr()
    requires p.Complete() && c + num <= p.count && max == p.max && data.Contents(u) == p.ValuesFrom(c)
    requires 0 <= levels.currentBufferIdx && levels.currentBufferIdx + num <= levels.currentBuffer.Length
    requires forall k | c <= k < c + num :: p.levels[k] == levels.currentBuffer[levels.currentBufferIdx + (k - c)]
    modifies levels`currentBufferIdx, data.Repr()
    ensures levels.currentBufferIdx == old(levels.currentBufferIdx) + num
    ensures data.Ready(u) && levels !in data.Repr() && levels.currentBuffer !in data.Repr()
    ensures fresh(data.Repr() - old(data.Repr()))
    ensures data.Contents(u) == p.ValuesFrom(c + num)
  {
    hide VectorizedRleValuesReader.Pending, VectorizedRleValuesReader.Current, U.DataReader.Contents;
    hide U.DataReader.Ready;
    hide Page.ValuesFrom, Page.Row, Page.Rows, Page.Complete, HybridValues;
    CompleteLevels(p);
    for i := 0 to num
      invariant levels.currentBufferIdx == old(levels.currentBufferIdx) + i
      invariant data.Ready(u) && levels !in data.Repr() && levels.currentBuffer !in data.Repr()
      invariant fresh(data.Repr() - old(data.Repr()))
      invariant data.Contents(u) == p.ValuesFrom(c + i)
    {
      ValuesStep(p, c + i);
      assert p.levels[c + i] == levels.currentBuffer[levels.currentBufferIdx];
      levels.currentBufferIdx := levels.currentBufferIdx + 1;
      if levels.currentBuffer[levels.currentBufferIdx - 1] == max {
        U.SkipValues(u, 1, data);
      }
    }
  }

  /** The values of the next `num` rows, all in the current run, are passed over in either mode. */
  method SkipRunValues(num: nat, levels: VectorizedRleValuesReader, data: U.DataReader, u: Updater,
                       max: int, ghost p: Page, ghost c: nat)
    requires InStep(levels, data, u, p, c) && max == p.max
    requires num <= levels.currentCount && c + num <= p.count
    modifies levels`currentBufferIdx, data.Repr()
    ensures levels.currentBufferIdx == old(levels.currentBufferIdx) + if levels.mode == PACKED then num else 0
    ensures data.Ready(u) && levels !in data.Repr() && levels.currentBuffer !in data.Repr()
    ensures fresh(data.Repr() - old(data.Repr()))
    ensures data.Contents(u) == p.ValuesFrom(c + num)
  {
    hide VectorizedRleValuesReader.Pending, VectorizedRleValuesReader.Current, U.DataReader.Contents;
    hide U.DataReader.Ready;
    hide Page.ValuesFrom, Page.Row, Page.Rows, Page.Complete, HybridValues;
    CompleteLevels(p);
    RunLevels(levels, p, c, num);
    if levels.mode == RLE {
      ValuesRun(p, c, num, levels.currentValue);
      if levels.currentValue == max {
        U.SkipValues(u, num, data);
      }
    } else {
      SkipPacked(num, levels, data, u, max, p, c);
    }
  }

  /** Passes over `num` rows of the current run of levels, and over the values of its non-null ones. */
  method SkipInRun(num: nat, levels: VectorizedRleValuesReader, data: U.DataReader, u: Updater,
                   max: int, ghost p: Page, ghost c: nat)
    requires InStep(levels, data, u, p, c) && max == p.max
    requires num <= levels.currentCount && c + num <= p.count
    modifies levels`currentCount, levels`currentBufferIdx, data.Repr()
    ensures fresh(data.Repr() - old(data.Repr()))
    ensures InStep(levels, data, u, p, c + num)
    ensures SameRun(levels) && levels.currentCount == old(levels.currentCount) - num
  {
    hide VectorizedRleValuesReader.Pending, VectorizedRleValuesReader.Current, U.DataReader.Contents;
    hide U.DataReader.Ready;
    hide Page.ValuesFrom, Page.Row, Page.Rows, Page.Complete, HybridValues;
    CompleteLevels(p);
    SkipRunValues(num, levels, data, u, max, p, c);
    levels.currentCount := levels.currentCount - num;
    levels.Advanced(num);
  }

  /** `readNextGroup` on the levels, while there are rows left. */
  method NextGroup(levels: VectorizedRleValuesReader, data: U.DataReader, u: Updater, ghost p: Page, ghost c: nat)
    requires InStep(levels, data, u, p, c) && c < p.count && levels.currentCount == 0
    modifies levels, levels.currentBuffer
    ensures InStep(levels, data, u, p, c) && levels.bitWidth == old(levels.bitWidth)
    ensures levels.currentBuffer == old(levels.currentBuffer) || fresh(levels.currentBuffer)
    ensures |levels.stream| < |old(levels.stream)|
  {
    hide VectorizedRleValuesReader.Pending, VectorizedRleValuesReader.Current, VectorizedRleValuesReader.OpenedRun;
    hide U.DataReader.Contents, U.DataReader.Ready, VectorizedRleValuesReader.Solid;
    hide Page.ValuesFrom, Page.Row, Page.Rows, Page.Complete, HybridValues;
    CompleteLevels(p);
    levels.ReadNextGroup();
  }

  /** Passes over `n` rows; groups are opened as they are needed, and rows within the current run stay in it. */
  method SkipValues(n: nat, levels: VectorizedRleValuesReader, data: U.DataReader, u: Updater,
                    max: int, ghost p: Page, ghost c: nat)
    requires InStep(levels, data, u, p, c) && max == p.max && c + n <= p.count
    modifies levels, levels.currentBuffer, data.Repr()
    ensures fresh(data.Repr() - old(data.Repr()))
    ensures levels.currentBuffer == old(levels.currentBuffer) || fresh(levels.currentBuffer)
    ensures InStep(levels, data, u, p, c + n) && levels.bitWidth == old(levels.bitWidth)
    ensures |levels.stream| <= |old(levels.stream)|
    ensures n <= old(levels.currentCount) ==> SameRun(levels) && levels.currentCount == old(levels.currentCount) - n
  {
    hide VectorizedRleValuesReader.Pending, VectorizedRleValuesReader.Current, VectorizedRleValuesReader.OpenedRun;
    hide U.DataReader.Contents, U.DataReader.Ready, VectorizedRleValuesReader.Solid;
    hide Page.ValuesFrom, Page.Row, Page.Rows, Page.Complete, HybridValues;
    CompleteLevels(p);
    ghost var done := 0;
    var left := n;
    while left > 0
      invariant done + left == n && 0 <= left
      invariant fresh(data.Repr() - old(data.Repr()))
      invariant levels.currentBuffer == old(levels.currentBuffer) || fresh(levels.currentBuffer)
      invariant InStep(levels, data, u, p, c + done) && levels.bitWidth == old(levels.bitWidth)
      invariant |levels.stream| <= |old(levels.stream)|
      invariant n <= old(levels.currentCount) ==>
        SameRun(levels) && levels.currentCount == old(levels.currentCount) - done
      decreases left, |levels.stream|
    {
      if levels.currentCount == 0 {
        NextGroup(levels, data, u, p, c + done);
      }
      var num := Min(left, levels.currentCount);
      SkipInRun(num, levels, data, u, max, p, c + done);
      left := left - num;
      done := done + num;
    }
  }

  /** The packed case of reading: level by level, a value or a null into each slot. */
  method ReadPacked(n: nat, offset: nat, levels: VectorizedRleValuesReader, data: U.DataReader, u: Updater,
                    max: int, values: ColumnVector, nulls: ColumnVector, ghost p: Page, ghost c: nat)
    returns (ok: bool)
    requires data.Ready(u) && levels !in data.Repr() && levels.currentBuffer !in data.Repr()
    requires p.Complete() && c + n <= p.count && max == p.max && data.Contents(u) == p.ValuesFrom(c)
    requires 0 <= levels.currentBufferIdx && levels.currentBufferIdx + n <= levels.currentBuffer.Length
    requires forall k | c <= k < c + n :: p.levels[k] == levels.currentBuffer[levels.currentBufferIdx + (k - c)]
    requires offset + n <= |values.cells| && offset + n <= |nulls.isNull| && NoNulls(nulls.isNull, offset, offset + n)
    modifies levels`currentBufferIdx, data.Repr(), values`cells, nulls`isNull
    ensures fresh(data.Repr() - old(data.Repr()))
    ensures ok <==> Accepted(p.Rows()[c..c + n])
    ensures ok ==> levels.currentBufferIdx == old(levels.currentBufferIdx) + n
    ensures ok ==> data.Ready(u) && levels !in data.Repr() && levels.currentBuffer !in data.Repr()
    ensures ok ==> data.Contents(u) == p.ValuesFrom(c + n)
    ensures ok ==> Filled(values.cells, nulls.isNull, offset, p.Rows()[c..c + n])
    ensures ok ==> SameOutside(old(values.cells), values.cells, old(nulls.isNull), nulls.isNull, offset, offset + n)
  {
    hide U.DataReader.Contents, U.DataReader.Ready, Page.ValuesFrom, Page.Row, Page.Rows, Page.Complete, Filled;
    hide SameOutside, Updater.Lawful, HybridValues, NonNulls, VectorizedRleValuesReader.Valid, Convert;
    hide VectorizedRleValuesReader.Pending, VectorizedRleValuesReader.Current;
    CompleteLevels(p);
    ghost var rows := p.Rows()[c..c + n];
    NothingFilled(values.cells, nulls.isNull, offset);
    for i := 0 to n
      invariant levels.currentBufferIdx == old(levels.currentBufferIdx) + i
      invariant data.Ready(u) && levels !in data.Repr() && levels.currentBuffer !in data.Repr()
      invariant fresh(data.Repr() - old(data.Repr()))
      invariant data.Contents(u) == p.ValuesFrom(c + i)
      invariant Accepted(rows[..i]) && Filled(values.cells, nulls.isNull, offset, rows[..i])
      invariant |values.cells| == |old(values.cells)| && |nulls.isNull| == |old(nulls.isNull)|
      invariant SameOutside(old(values.cells), values.cells, old(nulls.isNull), nulls.isNull, offset, offset + i)
    {
      ghost var cells, isNull := values.cells, nulls.isNull;
      ValuesStep(p, c + i);
      RowsAt(p, c, n, i);
      assert p.levels[c + i] == levels.currentBuffer[levels.currentBufferIdx];
      levels.currentBufferIdx := levels.currentBufferIdx + 1;
      if levels.currentBuffer[levels.currentBufferIdx - 1] == max {
        ok := U.ReadValue(u, offset + i, values, data);
        if !ok {
          return;
        }
      } else {
        nulls.PutNulls(offset + i, 1);
        assert nulls.isNull == isNull[offset + i := true];
      }
      RowFilled(old(values.cells), cells, values.cells, old(nulls.isNull), isNull, nulls.isNull, offset, rows, i);
    }
    assert rows[..n] == rows;
    ok := true;
  }

  /** The next of the rows is in its slot. */
  lemma RowFilled(cells0: seq<Value>, cells: seq<Value>, cells': seq<Value>,
                  isNull0: seq<bool>, isNull: seq<bool>, isNull': seq<bool>, at: nat, rows: seq<Cell>, i: nat)
    requires i < |rows| && Filled(cells, isNull, at, rows[..i]) && at + i < |cells| && at + i < |isNull|
    requires SameOutside(cells0, cells, isNull0, isNull, at, at + i)
    requires at + i < |isNull0| && !isNull0[at + i] && Accepted(rows[..i])
    requires match rows[i]
      case Null => cells' == cells && isNull' == isNull[at + i := true]
      case Val(v) => cells' == cells[at + i := v] && isNull' == isNull
      case Rejected => false
    ensures Filled(cells', isNull', at, rows[..i + 1]) && Accepted(rows[..i + 1])
    ensures SameOutside(cells0, cells', isNull0, isNull', at, at + i + 1)
    ensures |cells'| == |cells| && |isNull'| == |isNull|
  {
    hide Filled, SameOutside;
    assert rows[..i + 1] == rows[..i] + [rows[i]];
    FilledOneMore(cells0, cells, cells', isNull0, isNull, isNull', at, rows[..i], rows[i]);
  }

  lemma RowsAt(p: Page, c: nat, n: nat, i: nat)
    requires p.Complete() && c + n <= p.count && i < n
    ensures p.Rows()[c..c + n][i] == p.Row(c + i)
  {
  }

  lemma NothingFilled(cells: seq<Value>, isNull: seq<bool>, at: nat)
    requires at <= |cells| && at <= |isNull|
    ensures Filled(cells, isNull, at, []) && SameOutside(cells, cells, isNull, isNull, at, at)
  {
  }

  /** The `switch` on the mode: the next `n` rows, all in the current run, into slots from `offset` on. */
  method ReadRunRows(n: nat, offset: nat, levels: VectorizedRleValuesReader, data: U.DataReader, u: Updater,
                     max: int, values: ColumnVector, nulls: ColumnVector, ghost p: Page, ghost c: nat)
    returns (ok: bool)
    requires InStep(levels, data, u, p, c) && max == p.max
    requires n <= levels.currentCount && c + n <= p.count
    requires offset + n <= |values.cells| && offset + n <= |nulls.isNull| && NoNulls(nulls.isNull, offset, offset + n)
    modifies levels`currentBufferIdx, data.Repr(), values`cells, nulls`isNull
    ensures fresh(data.Repr() - old(data.Repr()))
    ensures ok <==> Accepted(p.Rows()[c..c + n])
    ensures ok ==> levels.currentBufferIdx == old(levels.currentBufferIdx) + if levels.mode == PACKED then n else 0
    ensures ok ==> data.Ready(u) && levels !in data.Repr() && levels.currentBuffer !in data.Repr()
    ensures ok ==> data.Contents(u) == p.ValuesFrom(c + n)
    ensures ok ==> Filled(values.cells, nulls.isNull, offset, p.Rows()[c..c + n])
    ensures ok ==> SameOutside(old(values.cells), values.cells, old(nulls.isNull), nulls.isNull, offset, offset + n)
  {
    hide VectorizedRleValuesReader.Pending, VectorizedRleValuesReader.Current, U.DataReader.Contents;
    hide U.DataReader.Ready;
    hide Page.ValuesFrom, Page.Row, Page.Rows, Page.Complete, HybridValues, Filled, SameOutside, Write;
    CompleteLevels(p);
    RunLevels(levels, p, c, n);
    ghost var rows := p.Rows()[c..c + n];
    if levels.mode == RLE {
      ValuesRun(p, c, n, levels.currentValue);
      if levels.currentValue == max {
        ok := U.ReadValues(u, n, offset, values, data);
        if ok {
          FilledByWrite(old(values.cells), nulls.isNull, offset, rows);
        }
      } else {
        nulls.PutNulls(offset, n);
        assert forall k | 0 <= k < n :: rows[k] == p.Rows()[c + k];
        FilledByNulls(values.cells, old(nulls.isNull), nulls.isNull, offset, rows);
        ok := true;
      }
    } else {
      ok := ReadPacked(n, offset, levels, data, u, max, values, nulls, p, c);
    }
  }

  /** As `ReadRunRows`, and the run's count goes down. */
  method ReadInRun(n: nat, offset: nat, levels: VectorizedRleValuesReader, data: U.DataReader, u: Updater,
                   max: int, values: ColumnVector, nulls: ColumnVector, ghost p: Page, ghost c: nat)
    returns (ok: bool)
    requires InStep(levels, data, u, p, c) && max == p.max
    requires n <= levels.currentCount && c + n <= p.count
    requires offset + n <= |values.cells| && offset + n <= |nulls.isNull| && NoNulls(nulls.isNull, offset, offset + n)
    modifies levels`currentBufferIdx, levels`currentCount, data.Repr(), values`cells, nulls`isNull
    ensures fresh(data.Repr() - old(data.Repr())) && levels.stream == old(levels.stream)
    ensures ok <==> Accepted(p.Rows()[c..c + n])
    ensures ok ==> InStep(levels, data, u, p, c + n)
    ensures ok ==> Filled(values.cells, nulls.isNull, offset, p.Rows()[c..c + n])
    ensures ok ==> SameOutside(old(values.cells), values.cells, old(nulls.isNull), nulls.isNull, offset, offset + n)
  {
    hide VectorizedRleValuesReader.Pending, VectorizedRleValuesReader.Current, U.DataReader.Contents;
    hide U.DataReader.Ready;
    hide Page.ValuesFrom, Page.Row, Page.Rows, Page.Complete, HybridValues, Filled, SameOutside, Accepted;
    CompleteLevels(p);
    ok := ReadRunRows(n, offset, levels, data, u, max, values, nulls, p, c);
    if ok {
      levels.currentCount := levels.currentCount - n;
      levels.Advanced(n);
    }
  }

  /** Where a call stands: rows `start..` of the page seen so far, and what they put into the vectors. */
  ghost predicate Progress(p: Page, f: RowFilter, start: nat, c: nat, at: nat, offset: int,
                           cells0: seq<Value>, cells: seq<Value>, isNull0: seq<bool>, isNull: seq<bool>)
  {
    && p.Complete() && start <= c <= p.count
    && var out := Picked(p.Rows(), p.first, f, start, c);
      && offset == at + |out| && Accepted(out)
      && Filled(cells, isNull, at, out) && SameOutside(cells0, cells, isNull0, isNull, at, at + |out|)
  }

  lemma ProgressStart(p: Page, f: RowFilter, start: nat, at: nat, cells: seq<Value>, isNull: seq<bool>)
    requires p.Complete() && start <= p.count && at <= |cells| && at <= |isNull|
    ensures Progress(p, f, start, start, at, at, cells, cells, isNull, isNull)
  {
  }

  lemma ProgressSkip(p: Page, f: RowFilter, start: nat, c: nat, n: nat, at: nat, offset: int,
                     cells0: seq<Value>, cells: seq<Value>, isNull0: seq<bool>, isNull: seq<bool>)
    requires Progress(p, f, start, c, at, offset, cells0, cells, isNull0, isNull) && c + n <= p.count
    requires forall row | p.first + c <= row < p.first + c + n :: !f.Wants(row)
    ensures Progress(p, f, start, c + n, at, offset, cells0, cells, isNull0, isNull)
  {
    PickedGrow(p.Rows(), p.first, f, start, c, n);
  }

  lemma ProgressRead(p: Page, f: RowFilter, start: nat, c: nat, n: nat, at: nat, offset: int,
                     cells0: seq<Value>, cells1: seq<Value>, cells2: seq<Value>,
                     isNull0: seq<bool>, isNull1: seq<bool>, isNull2: seq<bool>)
    requires Progress(p, f, start, c, at, offset, cells0, cells1, isNull0, isNull1) && c + n <= p.count
    requires forall row | p.first + c <= row < p.first + c + n :: f.Wants(row)
    requires Accepted(p.Rows()[c..c + n]) && Filled(cells2, isNull2, offset, p.Rows()[c..c + n])
    requires SameOutside(cells1, cells2, isNull1, isNull2, offset, offset + n)
    ensures Progress(p, f, start, c + n, at, offset + n, cells0, cells2, isNull0, isNull2)
  {
    hide Filled, SameOutside;
    PickedGrow(p.Rows(), p.first, f, start, c, n);
    FilledConcat(cells0, cells1, cells2, isNull0, isNull1, isNull2, at,
                 Picked(p.Rows(), p.first, f, start, c), p.Rows()[c..c + n]);
  }

  /** Some row among those the call still owes does not convert. */
  ghost predicate Throws(p: Page, f: RowFilter, start: nat, owed: int)
  {
    && p.Complete()
    && (exists c: nat :: start <= c <= p.count && |Picked(p.Rows(), p.first, f, start, c)| <= owed
                         && !Accepted(Picked(p.Rows(), p.first, f, start, c)))
  }

  lemma ThrowsRead(p: Page, f: RowFilter, start: nat, c: nat, n: nat, owed: int, at: nat, offset: int,
                   cells0: seq<Value>, cells: seq<Value>, isNull0: seq<bool>, isNull: seq<bool>)
    requires Progress(p, f, start, c, at, offset, cells0, cells, isNull0, isNull) && c + n <= p.count
    requires forall row | p.first + c <= row < p.first + c + n :: f.Wants(row)
    requires offset + n <= at + owed && !Accepted(p.Rows()[c..c + n])
    ensures Throws(p, f, start, owed)
  {
    PickedGrow(p.Rows(), p.first, f, start, c, n);
    var out := Picked(p.Rows(), p.first, f, start, c);
    var k :| 0 <= k < n && p.Rows()[c..c + n][k] == Rejected;
    assert Picked(p.Rows(), p.first, f, start, c + n)[|out| + k] == Rejected;
  }

  lemma ProgressNoNulls(p: Page, f: RowFilter, start: nat, c: nat, at: nat, offset: int, left: nat, owed: nat,
                        cells0: seq<Value>, cells: seq<Value>, isNull0: seq<bool>, isNull: seq<bool>)
    requires Progress(p, f, start, c, at, offset, cells0, cells, isNull0, isNull)
    requires at + owed <= |isNull0| && at + owed <= |cells0| && NoNulls(isNull0, at, at + owed)
    requires offset + left <= at + owed
    ensures at <= offset && offset + left <= |isNull| && offset + left <= |cells|
    ensures NoNulls(isNull, offset, offset + left)
  {
  }

  /** What one call starts from: the page, its first row, the batch slots it owes, and the vectors as they were. */
  datatype Call = Call(p: Page, f: RowFilter, start: nat, at: nat, owed: nat, cells: seq<Value>, isNull: seq<bool>)
  {
    predicate Room() {
      at + owed <= |cells| && at + owed <= |isNull| && NoNulls(isNull, at, at + owed)
    }
  }

  /** A call under way, about to look at row index `rowId` with `offset` the next slot. */
  ghost predicate Going(call: Call, levels: VectorizedRleValuesReader, state: ParquetReadState, data: U.DataReader,
                        u: Updater, values: ColumnVector, nulls: ColumnVector, rowId: int, offset: int)
    reads levels, levels.currentBuffer, match data case RleIds(r) => {r} case Plain(q) => {q}
    reads data.Repr(), state, values, nulls
  {
    var p := call.p;
    && 0 <= p.first <= rowId && p.first + p.count < LONG_MAX && state.filter == call.f && call.Room()
    && InStep(levels, data, u, p, rowId - p.first) && state.ValidFrom(rowId)
    && Progress(p, call.f, call.start, rowId - p.first, call.at, offset, call.cells, values.cells, call.isNull,
                nulls.isNull)
  }

  /** A new group is opened when the current run is used up; nothing else changes. */
  method OpenGroup(rowId: int, offset: int, levels: VectorizedRleValuesReader, state: ParquetReadState,
                   values: ColumnVector, nulls: ColumnVector, data: U.DataReader, u: Updater, ghost call: Call)
    requires Going(call, levels, state, data, u, values, nulls, rowId, offset) && rowId - call.p.first < call.p.count
    modifies levels, levels.currentBuffer
    ensures levels.currentBuffer == old(levels.currentBuffer) || fresh(levels.currentBuffer)
    ensures Going(call, levels, state, data, u, values, nulls, rowId, offset)
    ensures 0 <= levels.currentCount && |levels.stream| <= |old(levels.stream)|
    ensures levels.currentCount == 0 ==> |levels.stream| < |old(levels.stream)|
  {
    hide VectorizedRleValuesReader.Pending, VectorizedRleValuesReader.OpenedRun, VectorizedRleValuesReader.Solid;
    hide U.DataReader.Contents, U.DataReader.Ready, Canonical, Covers, HybridValues, NoNulls, Progress;
    GoingStep(levels, data, u, call.p, rowId - call.p.first);
    if levels.currentCount == 0 {
      levels.ReadNextGroup();
    }
  }

  /** A range that ends before `rowId` is dropped. */
  method DropRange(rowId: int, offset: int, levels: VectorizedRleValuesReader, state: ParquetReadState,
                   values: ColumnVector, nulls: ColumnVector, data: U.DataReader, u: Updater, ghost call: Call)
    requires Going(call, levels, state, data, u, values, nulls, rowId, offset)
    requires state.currentRange.end < rowId && state.currentRange.start < LONG_MAX && rowId <= LONG_MAX
    modifies state`rowRanges, state`currentRange
    ensures Going(call, levels, state, data, u, values, nulls, rowId, offset)
    ensures |state.Live()| < |old(state.Live())|
  {
    hide Canonical, Covers, NoNulls, Progress, U.DataReader.Contents, U.DataReader.Ready;
    hide VectorizedRleValuesReader.Pending;
    state.NextRange();
    state.RangePassed(rowId);
  }

  lemma GoingParts(levels: VectorizedRleValuesReader, state: ParquetReadState, data: U.DataReader, u: Updater,
                   values: ColumnVector, nulls: ColumnVector, rowId: int, offset: int, call: Call)
    requires Going(call, levels, state, data, u, values, nulls, rowId, offset)
    ensures levels !in data.Repr() && levels.currentBuffer !in data.Repr()
    ensures InStep(levels, data, u, call.p, rowId - call.p.first) && state.ValidFrom(rowId)
    ensures Progress(call.p, call.f, call.start, rowId - call.p.first, call.at, offset,
                     call.cells, values.cells, call.isNull, nulls.isNull)
    ensures rowId - call.p.first <= call.p.count && call.p.first + call.p.count < LONG_MAX && call.p.first <= rowId
    ensures state.filter == call.f
  {
  }

  /** Rows before the current range are passed over. */
  method SkipBeforeRange(n: nat, rowId: int, offset: int, levels: VectorizedRleValuesReader, state: ParquetReadState,
                         values: ColumnVector, nulls: ColumnVector, data: U.DataReader, u: Updater, ghost call: Call)
    requires Going(call, levels, state, data, u, values, nulls, rowId, offset)
    requires state.maxDefinitionLevel == call.p.max
    requires rowId - call.p.first + n <= call.p.count && rowId + n <= state.currentRange.start
    modifies levels, levels.currentBuffer, data.Repr()
    ensures fresh(data.Repr() - old(data.Repr()))
    ensures levels.currentBuffer == old(levels.currentBuffer) || fresh(levels.currentBuffer)
    ensures Going(call, levels, state, data, u, values, nulls, rowId + n, offset)
    ensures |levels.stream| <= |old(levels.stream)|
    ensures n <= old(levels.currentCount) ==> levels.currentCount == old(levels.currentCount) - n
  {
    hide InStep, Progress, Canonical, Covers, VectorizedRleValuesReader.Valid, NoNulls, Accepted, Filled, SameOutside;
    hide U.DataReader.Ready, U.DataReader.Contents, VectorizedRleValuesReader.Pending, Page.Complete, Page.ValuesFrom;
    GoingStep(levels, data, u, call.p, rowId - call.p.first);
    state.BeforeRange(rowId, n);
    ghost var c := rowId - call.p.first;
    SkipValues(n, levels, data, u, state.maxDefinitionLevel, call.p, c);
    ProgressSkip(call.p, call.f, call.start, c, n, call.at, offset, call.cells, values.cells, call.isNull,
                 nulls.isNull);
    state.LaterRow(rowId, rowId + n);
  }

  lemma GoingStep(levels: VectorizedRleValuesReader, data: U.DataReader, u: Updater, p: Page, c: nat)
    requires InStep(levels, data, u, p, c)
    ensures levels.currentCount >= 0 && c <= p.count && p.Complete()
    ensures c < p.count ==> |levels.Pending()| > 0
  {
  }

  /** The case of a run that reaches into the current range: its rows before the range are skipped, those in it read. */
  method ReadOverlap(n: nat, rowId: int, offset: int, levels: VectorizedRleValuesReader, state: ParquetReadState,
                     values: ColumnVector, nulls: ColumnVector, data: U.DataReader, u: Updater, ghost call: Call)
    returns (ok: bool, skipped: int, read: int)
    requires Going(call, levels, state, data, u, values, nulls, rowId, offset)
    requires state.maxDefinitionLevel == call.p.max
    requires n <= levels.currentCount && rowId - call.p.first + n <= call.p.count && offset + n <= call.at + call.owed
    requires state.currentRange.start <= rowId + n && rowId <= state.currentRange.end
    modifies levels, levels.currentBuffer, data.Repr(), values`cells, nulls`isNull
    ensures fresh(data.Repr() - old(data.Repr()))
    ensures levels.currentBuffer == old(levels.currentBuffer) || fresh(levels.currentBuffer)
    ensures !ok ==> Throws(call.p, call.f, call.start, call.owed)
    ensures ok ==> 0 <= skipped && 0 <= read && skipped + read <= n && (n > 0 ==> skipped + read > 0)
    ensures ok ==> Going(call, levels, state, data, u, values, nulls, rowId + skipped + read, offset + read)
    ensures ok ==> |levels.stream| <= |old(levels.stream)|
  {
    hide InStep, Progress, Covers, Canonical, VectorizedRleValuesReader.Valid, NoNulls, Throws, Filled, SameOutside;
    hide Accepted, ParquetReadState.ValidFrom, U.DataReader.Ready, U.DataReader.Contents, Page.Complete;
    hide VectorizedRleValuesReader.Pending, Page.ValuesFrom;
    ghost var c := rowId - call.p.first;
    GoingStep(levels, data, u, call.p, c);
    var start := Max(state.currentRange.start, rowId);
    var end := Min(state.currentRange.end, rowId + n - 1);
    skipped := start - rowId;
    assert start - 1 <= end by { state.RangeInOrder(rowId); }
    if skipped > 0 {
      SkipBeforeRange(skipped, rowId, offset, levels, state, values, nulls, data, u, call);
    }
    read := end - start + 1;
    state.InsideRange(start, start, start + read);
    c := start - call.p.first;
    ProgressNoNulls(call.p, call.f, call.start, c, call.at, offset, read, call.owed, call.cells, values.cells,
                    call.isNull, nulls.isNull);
    ghost var cells1, isNull1 := values.cells, nulls.isNull;
    ok := ReadInRun(read, offset, levels, data, u, state.maxDefinitionLevel, values, nulls, call.p, c);
    if ok {
      ProgressRead(call.p, call.f, call.start, c, read, call.at, offset, call.cells, cells1, values.cells,
                   call.isNull, isNull1, nulls.isNull);
      state.LaterRow(start, start + read);
    } else {
      ThrowsRead(call.p, call.f, call.start, c, read, call.owed, call.at, offset, call.cells, cells1, call.isNull,
                 isNull1);
    }
  }

  /**
   One turn of the loop: a group is opened if need be, then rows are skipped, the range is dropped, or
   rows are read. A turn that moves no row uses up bytes or a range.
   */
  method ReadStep(leftInBatch: nat, leftInPage: nat, rowId: int, offset: int, levels: VectorizedRleValuesReader,
                  state: ParquetReadState, values: ColumnVector, nulls: ColumnVector, data: U.DataReader, u: Updater,
                  ghost call: Call)
    returns (ok: bool, skipped: int, read: int)
    requires Going(call, levels, state, data, u, values, nulls, rowId, offset)
    requires state.maxDefinitionLevel == call.p.max && leftInBatch > 0 && leftInPage > 0
    requires rowId - call.p.first + leftInPage == call.p.count && offset + leftInBatch == call.at + call.owed
    modifies levels, levels.currentBuffer, data.Repr(), values`cells, nulls`isNull, state`rowRanges, state`currentRange
    ensures fresh(data.Repr() - old(data.Repr()))
    ensures levels.currentBuffer == old(levels.currentBuffer) || fresh(levels.currentBuffer)
    ensures !ok ==> Throws(call.p, call.f, call.start, call.owed)
    ensures ok ==> Going(call, levels, state, data, u, values, nulls, rowId + skipped + read, offset + read)
    ensures ok ==> 0 <= skipped && 0 <= read <= leftInBatch && skipped + read <= leftInPage
    ensures ok && skipped + read == 0 ==> |levels.stream| <= |old(levels.stream)|
    ensures ok && skipped + read == 0 && |levels.stream| == |old(levels.stream)| ==>
      |state.Live()| < |old(state.Live())|
  {
    hide Going, InStep, Progress, Throws, NoNulls, Canonical, Covers, ParquetReadState.ValidFrom;
    GoingParts(levels, state, data, u, values, nulls, rowId, offset, call);
    OpenGroup(rowId, offset, levels, state, values, nulls, data, u, call);
    var n := Min(leftInBatch, Min(leftInPage, levels.currentCount));
    var rangeStart := state.currentRange.start;
    var rangeEnd := state.currentRange.end;
    ok, skipped, read := true, 0, 0;
    if rowId + n < rangeStart {
      SkipBeforeRange(n, rowId, offset, levels, state, values, nulls, data, u, call);
      skipped := n;
    } else if rowId > rangeEnd {
      DropRange(rowId, offset, levels, state, values, nulls, data, u, call);
    } else {
      ok, skipped, read := ReadOverlap(n, rowId, offset, levels, state, values, nulls, data, u, call);
    }
  }

  /**
   Reads rows of the page into `values` and `nulls` until the batch is full or the page is used up:
   exactly the rows the filter wants, in order. Not `ok` when the conversion of one of them throws.
   */
  method ReadBatchInternal(levels: VectorizedRleValuesReader, state: ParquetReadState, values: ColumnVector,
                           nulls: ColumnVector, data: U.DataReader, u: Updater, ghost p: Page)
    returns (ok: bool)
    requires state.Valid() && state.maxDefinitionLevel == p.max
    requires 0 <= p.first <= state.rowId && p.first + p.count < LONG_MAX
    requires InStep(levels, data, u, p, state.rowId - p.first)
    requires state.rowId - p.first + state.valuesToReadInPage == p.count && 0 <= state.valuesToReadInPage
    requires 0 <= state.offset && 0 <= state.valuesToReadInBatch
    requires state.offset + state.valuesToReadInBatch <= |values.cells|
    requires state.offset + state.valuesToReadInBatch <= |nulls.isNull|
    requires NoNulls(nulls.isNull, state.offset, state.offset + state.valuesToReadInBatch)
    modifies levels, levels.currentBuffer, data.Repr(), values`cells, nulls`isNull, state
    ensures fresh(data.Repr() - old(data.Repr()))
    ensures levels.currentBuffer == old(levels.currentBuffer) || fresh(levels.currentBuffer)
    ensures !ok ==> Throws(p, state.filter, old(state.rowId) - p.first, old(state.valuesToReadInBatch))
    ensures ok ==> state.Valid() && p.first <= state.rowId && InStep(levels, data, u, p, state.rowId - p.first)
    ensures ok ==> state.valuesToReadInBatch == 0 || state.valuesToReadInPage == 0
    ensures ok ==> state.offset + state.valuesToReadInBatch == old(state.offset + state.valuesToReadInBatch)
    ensures ok ==> state.rowId + state.valuesToReadInPage == old(state.rowId + state.valuesToReadInPage)
    ensures ok ==> 0 <= state.valuesToReadInBatch && 0 <= state.valuesToReadInPage
    ensures ok ==> Progress(p, state.filter, old(state.rowId) - p.first, state.rowId - p.first, old(state.offset),
                            state.offset,
                            old(values.cells), values.cells, old(nulls.isNull), nulls.isNull)
  {
    hide Going, InStep, Progress, Throws, NoNulls, Canonical, Covers, ParquetReadState.ValidFrom, ParquetReadState.Live;
    ghost var call := Call(p, state.filter, state.rowId - p.first, state.offset, state.valuesToReadInBatch,
                           values.cells, nulls.isNull);
    GoingStart(call, levels, state, data, u, values, nulls);
    var offset := state.offset;
    var rowId := state.rowId;
    var leftInBatch := state.valuesToReadInBatch;
    var leftInPage := state.valuesToReadInPage;
    while leftInBatch > 0 && leftInPage > 0
      invariant 0 <= leftInBatch && offset + leftInBatch == call.at + call.owed
      invariant 0 <= leftInPage && rowId - p.first + leftInPage == p.count
      invariant fresh(data.Repr() - old(data.Repr()))
      invariant levels.currentBuffer == old(levels.currentBuffer) || fresh(levels.currentBuffer)
      invariant unchanged(state`offset) && unchanged(state`rowId)
      invariant unchanged(state`valuesToReadInBatch) && unchanged(state`valuesToReadInPage)
      invariant Going(call, levels, state, data, u, values, nulls, rowId, offset)
      decreases leftInPage, |levels.stream|, |state.Live()|
    {
      var skipped, read;
      ok, skipped, read := ReadStep(leftInBatch, leftInPage, rowId, offset, levels, state, values, nulls, data, u,
                                    call);
      if !ok {
        return;
      }
      offset := offset + read;
      leftInBatch := leftInBatch - read;
      rowId := rowId + skipped + read;
      leftInPage := leftInPage - skipped - read;
    }
    ok := true;
    GoingParts(levels, state, data, u, values, nulls, rowId, offset, call);
    state.AdvanceOffsetAndRowId(offset, rowId);
  }

  lemma GoingStart(call: Call, levels: VectorizedRleValuesReader, state: ParquetReadState, data: U.DataReader,
                   u: Updater, values: ColumnVector, nulls: ColumnVector)
    requires state.Valid() && state.filter == call.f && call.Room() && call.cells == values.cells
    requires call.isNull == nulls.isNull
    requires 0 <= call.p.first <= state.rowId && call.p.first + call.p.count < LONG_MAX
    requires call.start == state.rowId - call.p.first && InStep(levels, data, u, call.p, call.start)
    ensures Going(call, levels, state, data, u, values, nulls, state.rowId, call.at)
    ensures levels !in data.Repr() && levels.currentBuffer !in data.Repr()
  {
    ProgressStart(call.p, call.f, call.start, call.at, call.cells, call.isNull);
  }
}
