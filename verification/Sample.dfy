/** A small column from bytes to slots: what the readers rely on can be met, and the result is what the bytes say. */
module Sample {
  import opened Numbers
  import opened Hybrid
  import opened Columns
  import opened PlainReader
  import opened ReadState
  import opened Rows
  import opened ColumnTypes
  import opened Pages
  import opened MixedPages
  import opened Slots
  import opened ColumnReader
  import opened Selection
  import opened Batches
  import opened RleRuns
  import opened ColumnRuns

  /** An optional int column with a dictionary of two entries. */
  function IntColumn(): Column {
    Column(ColumnType(INT32, NoAnnotation, IntegerType, CORRECTED, Calendar(0, d => d, 0, t => t)), 1,
           Some([Raw32(9), Raw32(4)]))
  }

  /** Rows 0 and 1: the first dictionary entry twice. */
  function DictionaryPage(): DataPage
  {
    DataPageV2(2, Some(0), RLE_DICTIONARY, Encoded(RleRun(2, 1)), [1] + Encoded(RleRun(2, 0)))
  }

  /** Rows 2 and 3: a value and a null. */
  function PlainPage(): DataPage {
    LevelBytes();
    AsV1(IntColumn(), 2, Some(2), PLAIN, Encoded(PackedRun([1, 0, 0, 0, 0, 0, 0, 0])), ToLittleEndian(7, 4))
  }

  function Encoded(run: Run): seq<byte>
    requires Encodable(run, 1)
  {
    EncodeRuns([run], 1)
  }

  lemma LevelBytes()
    ensures Encodable(RleRun(2, 1), 1) && Encodable(RleRun(2, 0), 1)
    ensures Encodable(PackedRun([1, 0, 0, 0, 0, 0, 0, 0]), 1)
    ensures |Encoded(PackedRun([1, 0, 0, 0, 0, 0, 0, 0]))| < TWO_31
  {
  }

  /** One encoded run decodes to its values; it is not empty if they are not. */
  lemma OneRun(run: Run)
    requires Encodable(run, 1)
    ensures HybridValues(Encoded(run), 1) == run.Values()
    ensures run.Values() != [] ==> NoEmptyRuns(Encoded(run), 1)
  {
    hide ParseRun, EncodeRun;
    Decoded([run], 1);
    RunRoundTrip(run, 1, []);
    assert RunsValues([run]) == run.Values() + RunsValues([]);
    assert EncodeRuns([run], 1) == EncodeRun(run, 1) + EncodeRuns([], 1);
    assert NoEmptyRuns([], 1) by { assert ParseRun([], 1).NoParse? by { NothingParses(); } }
  }

  lemma NothingParses()
    ensures ParseRun([], 1) == NoParse
  {
  }

  lemma WidthOfOne()
    ensures BitWidth(1) == 1
  {
    assert BitWidth(0) == 0;
  }

  lemma DictionaryPageRows()
    ensures IntColumn().Readable(DictionaryPage())
    ensures IntColumn().PageRows(DictionaryPage()) == [Val(IntVal(9)), Val(IntVal(9))]
  {
    hide HybridValues, NoEmptyRuns, EncodeRuns;
    var k, page := IntColumn(), DictionaryPage();
    WidthOfOne();
    OneRun(RleRun(2, 1));
    OneRun(RleRun(2, 0));
    assert k.Levels(page) == [1, 1];
    assert k.ValueBytes(page)[1..] == Encoded(RleRun(2, 0));
    assert k.Ids(page) == [0, 0];
    var p := k.Stored(page);
    TwoLevels(p);
    assert p.Rows() == [Val(IntVal(0)), Val(IntVal(0))];
  }

  lemma TwoLevels(p: Page)
    requires |p.levels| >= 2 && p.max == 1
    ensures NonNulls(p.levels, 1, 0) == 0
    ensures NonNulls(p.levels, 1, 1) == if p.levels[0] == 1 then 1 else 0
    ensures NonNulls(p.levels, 1, 2) == NonNulls(p.levels, 1, 1) + if p.levels[1] == 1 then 1 else 0
  {
  }

  lemma PlainPageRows()
    ensures IntColumn().Readable(PlainPage())
    ensures IntColumn().PageRows(PlainPage()) == [Val(IntVal(7)), Null]
  {
    hide HybridValues, NoEmptyRuns, EncodeRuns, FromLittleEndian, ToLittleEndian, Pow;
    var k, page := IntColumn(), PlainPage();
    var run, data := PackedRun([1, 0, 0, 0, 0, 0, 0, 0]), ToLittleEndian(7, 4);
    LevelBytes();
    WidthOfOne();
    OneRun(run);
    V1Splits(k, 2, Some(2), PLAIN, Encoded(run), data);
    PowOf256();
    LittleEndianRoundTrip(7, 4);
    assert data[4 * 0..4 * 0 + 4] == data;
    assert Words(data) == [Raw32(7)];
    var p := k.Stored(page);
    TwoLevels(p);
    assert p.Rows() == [Val(IntVal(7)), Null];
  }

  function Sheet(): seq<DataPage> { [DictionaryPage(), PlainPage()] }

  /** Rows 1, 2 and 3, read in a batch of two, an empty one and a batch of one, all across both pages. */
  method ReadSample() returns (cells: seq<Cell>)
    ensures cells == [Val(IntVal(9)), Val(IntVal(7)), Null]
  {
    hide Column.Readable, Column.PageRows, Picked, Chunk, IntColumn, DictionaryPage, PlainPage, Encoded, Suppliable;
    DictionaryPageRows();
    PlainPageRows();
    SampleSizes();
    SampleChunk();
    SampleKinds();
    cells := ReadTwoPages(IntColumn(), DictionaryPage(), PlainPage(), [1, 2, 3], [2, 0, 1]);
  }

  method ReadTwoPages(k: Column, a: DataPage, b: DataPage, ids: seq<int>, sizes: seq<nat>) returns (cells: seq<Cell>)
    requires Suppliable(k, [a, b], Some(ids)) && k.Readable(a) && k.Readable(b) && a.IsDictionary()
    requires forall i | 0 <= i < |sizes| :: sizes[i] <= 2
    requires Total(sizes) == |Chunk(k, [a, b], Only(ids))| && Accepted(Chunk(k, [a, b], Only(ids)))
    ensures cells == Chunk(k, [a, b], Only(ids))
  {
    hide Column.Readable, Chunk, Accepted, InOrder, InRowOrder;
    DictionaryThenAny(k, a, b, Some(ids), sizes);
    ghost var all := Chunk(k, [a, b], Only(ids));
    assert all[..|all|] == all;
    var ok;
    ok, cells := ReadInBatches(k, [a, b], Some(ids), sizes, 2);
  }

  lemma TwoPages(k: Column, a: DataPage, b: DataPage, f: RowFilter)
    requires k.t.GetUpdater().Some? && k.Readable(a) && k.Readable(b)
    ensures Chunk(k, [a, b], f)
      == Picked(k.PageRows(a), a.First(), f, 0, a.valueCount) + Picked(k.PageRows(b), b.First(), f, 0, b.valueCount)
    ensures InRowOrder([a, b], f, 0) <== 0 <= a.First() && a.First() + a.valueCount <= b.First()
    ensures Parts(k, [a, b], f) == [PartFrom(k, a, f, 0), PartFrom(k, b, f, 0)]
  {
    hide Column.Readable, Column.PageRows, Picked, ColumnType.GetUpdater;
    assert [a, b][1..] == [b] && [b][1..] == [];
    assert Chunk(k, [], f) == [] && Parts(k, [], f) == [];
    var end := a.First() + a.valueCount;
    assert InRowOrder([], f, b.First() + b.valueCount);
    assert end <= b.First() ==> InRowOrder([b], f, end);
  }

  lemma PickedFromSample(rowsA: seq<Cell>, rowsB: seq<Cell>, f: RowFilter)
    requires |rowsA| == |rowsB| == 2 && f == Only([1, 2, 3])
    ensures Picked(rowsA, 0, f, 0, 2) == [rowsA[1]] && Picked(rowsB, 2, f, 0, 2) == rowsB
  {
    hide Picked;
    PickedSplit(rowsA, 0, f, 0, 1, 2);
    PickedNone(rowsA, 0, f, 0, 1);
    PickedAll(rowsA, 0, f, 1, 2);
    PickedAll(rowsB, 2, f, 0, 2);
  }

  lemma SampleSizes()
    ensures Total([2, 0, 1]) == 3
  {
    assert [2, 0, 1][1..] == [0, 1] && [0, 1][1..] == [1] && [1][1..] == [];
    assert Total([1]) == 1 && Total([0, 1]) == 1;
  }

  lemma SampleSound()
    ensures IntColumn().Sound() && IntColumn().t.cal.Lawful()
  {
    WidthOfOne();
  }

  lemma SampleChunk()
    requires IntColumn().Readable(DictionaryPage()) && IntColumn().Readable(PlainPage())
    requires IntColumn().PageRows(DictionaryPage()) == [Val(IntVal(9)), Val(IntVal(9))]
    requires IntColumn().PageRows(PlainPage()) == [Val(IntVal(7)), Null]
    ensures Suppliable(IntColumn(), Sheet(), Some([1, 2, 3]))
    ensures Chunk(IntColumn(), Sheet(), Only([1, 2, 3])) == [Val(IntVal(9)), Val(IntVal(7)), Null]
  {
    hide Column.Readable, Column.PageRows, Picked, Column.Sound, Chunk, InRowOrder, IntColumn, Encoded, Parts;
    var f, a, b := Only([1, 2, 3]), DictionaryPage(), PlainPage();
    SampleSound();
    TwoPages(IntColumn(), a, b, f);
    PickedFromSample(IntColumn().PageRows(a), IntColumn().PageRows(b), f);
  }

  lemma DictionaryThenAny(k: Column, a: DataPage, b: DataPage, rowIndexes: Option<seq<int>>, sizes: seq<nat>)
    requires k.t.GetUpdater().Some? && k.Readable(a) && k.Readable(b) && a.IsDictionary()
    ensures InOrder(k, [a, b], rowIndexes, sizes)
  {
    hide Column.Readable, Column.PageRows, Picked, Parts, Orderly, ColumnType.GetUpdater;
    TwoPages(k, a, b, FilterOf(rowIndexes));
    DictionaryFirstIsOrderly(Parts(k, [a, b], FilterOf(rowIndexes)), sizes);
  }

  lemma SampleKinds()
    ensures DictionaryPage().IsDictionary() && IntColumn().t.GetUpdater().Some?
  {
    hide Encoded;
  }

  // ---- the pages the other way round

  /**
   A plain page and then a dictionary page, read in one batch into a new vector: the dictionary comes over the
   slot with the value 7, which then reads as entry 0, since zero is what its id slot holds.
   */
  method ReadMixed() returns (ghost wanted: seq<Cell>, cells: seq<Cell>)
    ensures wanted == [Val(IntVal(7)), Null, Val(IntVal(9)), Val(IntVal(9))]
    ensures cells == [Val(IntVal(9)), Null, Val(IntVal(9)), Val(IntVal(9))]
  {
    hide Column.Readable, Column.PageRows, Picked, Parts, Flat, Plains, Play, Goal.Succeeds, Goal.Shown;
    hide VectorizedColumnReader.Valid, VectorizedColumnReader.Left, Column.Sound, View, Encoded, MixedParts;
    hide DictionaryPage, PlainPage, Suppliable, IdsKnown, Goal.Lost;
    DictionaryPageRows();
    PlainPageRows();
    MixedSupplied();
    var v := new ColumnVector(4);
    var r := new VectorizedColumnReader(IntColumn(), [PlainPage(), DictionaryPage()], None);
    wanted := r.Remaining();
    ghost var g := r.NextGoal(4, v);
    assert forall i: nat | i < 4 :: g.stale[i] == IntVal(0);
    MixedGoal(g, r.Left());
    var ok := r.ReadBatch(4, v);
    cells := [];
    for i := 0 to 4
      invariant |cells| == i && forall j: nat | j < i :: cells[j] == g.Shown(IntColumn(), g.end.attached, j)
    {
      cells := cells + [View(IntegerType, v, i)];
    }
  }

  function MixedParts(): seq<Part> {
    [Part(false, [Val(IntVal(7)), Null]), Part(true, [Val(IntVal(9)), Val(IntVal(9))])]
  }

  lemma MixedSupplied()
    requires IntColumn().Readable(DictionaryPage()) && IntColumn().Readable(PlainPage())
    requires IntColumn().PageRows(DictionaryPage()) == [Val(IntVal(9)), Val(IntVal(9))]
    requires IntColumn().PageRows(PlainPage()) == [Val(IntVal(7)), Null]
    ensures Suppliable(IntColumn(), [PlainPage(), DictionaryPage()], None)
    ensures Parts(IntColumn(), [PlainPage(), DictionaryPage()], AllRows) == MixedParts()
    ensures Flat(MixedParts()) == [Val(IntVal(7)), Null, Val(IntVal(9)), Val(IntVal(9))]
  {
    hide Column.Readable, Column.PageRows, Picked, Column.Sound, Encoded, Parts;
    var k, a, b := IntColumn(), PlainPage(), DictionaryPage();
    SampleSound();
    TwoPages(k, a, b, AllRows);
    PickedAll(k.PageRows(a), a.First(), AllRows, 0, 2);
    PickedAll(k.PageRows(b), b.First(), AllRows, 0, 2);
    assert k.PageRows(a)[0..2] == k.PageRows(a) && k.PageRows(b)[0..2] == k.PageRows(b);
    assert PartFrom(k, a, AllRows, 0) == MixedParts()[0] && PartFrom(k, b, AllRows, 0) == MixedParts()[1];
    var p, q := MixedParts()[0], MixedParts()[1];
    assert [p, q][1..] == [q] && [q][1..] == [] && Flat([q]) == q.cells + Flat([]);
  }

  /** The goal of a batch over both pages: slot 0 is lost. */
  lemma MixedGoal(g: Goal, parts: seq<Part>)
    requires parts == MixedParts() && g.Sound() && g.cells == Flat(parts) && g.plains == Plains(parts) && g.total == 4
    requires g.end == Play(parts, 0, 4, 0, 0) && forall i: nat | i < 4 :: g.stale[i] == IntVal(0)
    ensures g.Succeeds(IntColumn())
    ensures g.Shown(IntColumn(), g.end.attached, 0) == Val(IntVal(9)) && g.Shown(IntColumn(), g.end.attached, 1) == Null
    ensures g.Shown(IntColumn(), g.end.attached, 2) == g.Shown(IntColumn(), g.end.attached, 3) == Val(IntVal(9))
  {
    var p, q := MixedParts()[0], MixedParts()[1];
    assert [p, q][1..] == [q] && [q][1..] == [];
    assert Flat([q]) == q.cells && Plains([q]) == Flags(q);
    assert g.plains == Flags(p) + Flags(q);
    assert Play([q], 2, 4, 0, 0) == Outcome(4, 0, [Part(true, q.cells[2..])]);
    assert g.end.attached == 4 && g.end.decoded == 0;
    assert g.cells[..4] == [Val(IntVal(7)), Null, Val(IntVal(9)), Val(IntVal(9))];
  }
}
