/** A whole column chunk, its pages in any order, read through one reused vector in batches of any sizes. */
module AnyOrder {
  import opened Numbers
  import opened Columns
  import opened ReadState
  import opened Rows
  import opened ColumnTypes
  import opened Pages
  import opened MixedPages
  import opened Slots
  import opened ColumnReader
  import opened Batches

  /** What is left of the parts when `i` batches have been read. */
  function PartsAt(parts: seq<Part>, sizes: seq<nat>, i: nat): seq<Part>
    requires i <= |sizes|
    decreases i
  {
    if i == 0 then parts else Play(PartsAt(parts, sizes, i - 1), 0, sizes[i - 1], 0, 0).rest
  }

  /** The goal of batch `i`, but for the ids the vector holds. */
  predicate GoalAt(parts: seq<Part>, sizes: seq<nat>, i: nat, g: Goal)
    requires i < |sizes|
  {
    var left := PartsAt(parts, sizes, i);
    && g.Sound() && g.total == sizes[i] && g.cells == Flat(left) && g.plains == Plains(left)
    && g.end == Play(left, 0, sizes[i], 0, 0)
  }

  /** The ids that one batch leaves to the next: those of its dictionary cells, and the old ones elsewhere. */
  predicate LeavesIds(k: Column, g: Goal, next: Goal)
    requires g.Sound() && next.Sound() && k.t.GetUpdater().Some? && k.dictionary.Some?
  {
    forall i: nat | i < g.total && i < next.total ::
      if g.plains[i] then next.stale[i] == g.stale[i]
      else g.cells[i] == Null || k.Meaning(Val(next.stale[i])) == g.cells[i]
  }

  /** The goals of the batches read: the vector starts with zeros, and each batch leaves its ids to the next. */
  predicate Goals(k: Column, parts: seq<Part>, sizes: seq<nat>, goals: seq<Goal>)
    requires k.t.GetUpdater().Some?
  {
    && |goals| <= |sizes| && (forall i: nat | i < |goals| :: GoalAt(parts, sizes, i, goals[i]))
    && (goals != [] ==> forall j: nat | j < goals[0].total :: goals[0].stale[j] == IntVal(0))
    && (k.dictionary.Some? ==> forall i: nat | 0 < i < |goals| :: LeavesIds(k, goals[i - 1], goals[i]))
  }

  /** What a batch shows. */
  function ShownBy(k: Column, g: Goal): (cs: seq<Cell>)
    requires g.Sound() && k.t.GetUpdater().Some?
    ensures |cs| == g.total && forall i: nat | i < g.total :: cs[i] == g.Shown(k, g.end.attached, i)
  {
    seq(g.total, i requires 0 <= i < g.total => g.Shown(k, g.end.attached, i))
  }

  /** What the first `n` batches show, one after the other. */
  function ShownByAll(k: Column, goals: seq<Goal>, n: nat): seq<Cell>
    requires n <= |goals| && k.t.GetUpdater().Some? && forall i: nat | i < |goals| :: goals[i].Sound()
    decreases n
  {
    if n == 0 then [] else ShownByAll(k, goals, n - 1) + ShownBy(k, goals[n - 1])
  }

  lemma {:induction false} ShownByFirst(k: Column, goals: seq<Goal>, g: Goal, n: nat)
    requires n <= |goals| && k.t.GetUpdater().Some? && g.Sound() && forall i: nat | i < |goals| :: goals[i].Sound()
    ensures ShownByAll(k, goals + [g], n) == ShownByAll(k, goals, n)
    decreases n
  {
    if n > 0 {
      ShownByFirst(k, goals, g, n - 1);
    }
  }

  /** A vector a reader can be given, apart from it. */
  ghost predicate Usable(r: VectorizedColumnReader, v: ColumnVector, capacity: nat)
    reads r, r.readState, r.Repr(), v, v.dictionaryIds
  {
    && r.Valid() && r.Apart(v) && |v.cells| == |v.isNull| == capacity
    && (v.dictionary.Some? ==> r.k.t.IsLazyDecodingSupported())
  }

  /** One batch into a cleared vector. */
  method OneBatch(r: VectorizedColumnReader, v: ColumnVector, size: nat, capacity: nat)
    returns (ok: bool, cells: seq<Cell>, ghost g: Goal)
    requires Usable(r, v, capacity) && size <= capacity && size <= |r.Remaining()|
    modifies r.Repr(), v, if v.dictionaryIds == null then {} else {v.dictionaryIds}
    ensures fresh(r.Repr() - old(r.Repr())) && (v.dictionaryIds == old(v.dictionaryIds) || fresh(v.dictionaryIds))
    ensures g.Sound() && g.total == size && g.cells == old(r.Remaining()) && g.plains == Plains(old(r.Left()))
    ensures g.end == Play(old(r.Left()), 0, size, 0, 0) && g.stale == old(v.IdsLeft(size))
    ensures r.k.t.GetUpdater().Some? && (ok <==> g.Succeeds(r.k))
    ensures ok ==> Usable(r, v, capacity) && r.Left() == g.end.rest && r.Remaining() == old(r.Remaining())[size..]
    ensures ok ==> cells == ShownBy(r.k, g)
    ensures ok && r.k.dictionary.Some? ==>
      HasIds(v, size) && IdsKnown(r.k, v.dictionaryIds.cells, size, g)
  {
    hide VectorizedColumnReader.Valid, VectorizedColumnReader.Left, Goal.Succeeds, Goal.Shown, View, IdsKnown;
    hide ColumnType.IsLazyDecodingSupported, ColumnType.GetUpdater, Play, Flat, Plains;
    r.ValidSound();
    ghost var ids := v.IdsLeft(size);
    v.Reset();
    assert v.IdsLeft(size) == ids;
    g := r.NextGoal(size, v);
    ok := r.ReadBatch(size, v);
    cells := [];
    if ok {
      for i := 0 to size
        invariant cells == ShownBy(r.k, g)[..i]
      {
        cells := cells + [View(r.k.t.sparkType, v, i)];
      }
    }
  }

  /** The state between batches. */
  ghost predicate Between(k: Column, parts: seq<Part>, sizes: seq<nat>, i: nat, goals: seq<Goal>,
                          r: VectorizedColumnReader, v: ColumnVector, capacity: nat)
    reads r, r.readState, r.Repr(), v, v.dictionaryIds
  {
    && Usable(r, v, capacity) && r.k == k && k.t.GetUpdater().Some?
    && i <= |sizes| && |goals| == i && (forall j: nat | j < i :: goals[j].Sound() && goals[j].Succeeds(k))
    && Goals(k, parts, sizes, goals) && r.Left() == PartsAt(parts, sizes, i)
    && Total(sizes[i..]) <= |r.Remaining()|
    && (if i == 0 then v.dictionaryIds == null
        else k.dictionary.Some? ==>
          HasIds(v, goals[i - 1].total) && IdsKnown(k, v.dictionaryIds.cells, goals[i - 1].total, goals[i - 1]))
  }

  /** One more goal. */
  lemma NextGoals(k: Column, parts: seq<Part>, sizes: seq<nat>, i: nat, goals: seq<Goal>, g: Goal,
                  r: VectorizedColumnReader, v: ColumnVector, capacity: nat)
    requires Between(k, parts, sizes, i, goals, r, v, capacity) && i < |sizes|
    requires g.Sound() && g.total == sizes[i] && g.cells == r.Remaining() && g.plains == Plains(r.Left())
    requires g.end == Play(r.Left(), 0, sizes[i], 0, 0) && g.stale == v.IdsLeft(sizes[i])
    ensures Goals(k, parts, sizes, goals + [g])
  {
    hide VectorizedColumnReader.Valid, VectorizedColumnReader.Left, Play, Flat, Plains, PartsAt, Column.Meaning;
    var all := goals + [g];
    assert GoalAt(parts, sizes, i, g);
    forall j: nat | j < |all| ensures GoalAt(parts, sizes, j, all[j]) {
      assert j < i ==> all[j] == goals[j];
    }
    if k.dictionary.Some? {
      forall j: nat | 0 < j < |all| ensures LeavesIds(k, all[j - 1], all[j]) {
        if j == i {
          assert all[i - 1] == goals[i - 1] && all[i] == g;
        } else {
          assert all[j] == goals[j] && all[j - 1] == goals[j - 1];
        }
      }
    }
    assert all[0] == if i == 0 then g else goals[0];
  }

  /** The batch with its goal, and the state behind it. */
  method NextBatch(k: Column, sizes: seq<nat>, i: nat, r: VectorizedColumnReader, v: ColumnVector, capacity: nat,
                   ghost parts: seq<Part>, ghost goals: seq<Goal>)
    returns (ok: bool, cells: seq<Cell>, ghost g: Goal)
    requires Between(k, parts, sizes, i, goals, r, v, capacity) && i < |sizes| && sizes[i] <= capacity
    modifies r.Repr(), v, if v.dictionaryIds == null then {} else {v.dictionaryIds}
    ensures fresh(r.Repr() - old(r.Repr())) && (v.dictionaryIds == old(v.dictionaryIds) || fresh(v.dictionaryIds))
    ensures g.Sound() && k.t.GetUpdater().Some? && Goals(k, parts, sizes, goals + [g]) && (ok <==> g.Succeeds(k))
    ensures ok ==> Between(k, parts, sizes, i + 1, goals + [g], r, v, capacity) && cells == ShownBy(k, g)
  {
    hide VectorizedColumnReader.Valid, VectorizedColumnReader.Left, Goal.Succeeds, Goal.Shown, Play, Flat, Plains;
    hide IdsKnown, Goals;
    assert Total(sizes[i..]) == sizes[i] + Total(sizes[i + 1..]) by {
      assert sizes[i..][1..] == sizes[i + 1..];
    }
    ghost var next := Goal(r.Remaining(), Plains(r.Left()), v.IdsLeft(sizes[i]), sizes[i],
                           Play(r.Left(), 0, sizes[i], 0, 0));
    NextGoals(k, parts, sizes, i, goals, next, r, v, capacity);
    ok, cells, g := OneBatch(r, v, sizes[i], capacity);
    assert g == next;
  }

  /**
   Whatever the order of the pages and the sizes of the batches: the slots of the batches put together are
   what the goals of the batches say, and the reading throws exactly when one of the goals does not succeed.
   */
  method ReadAnyOrder(k: Column, pages: seq<DataPage>, rowIndexes: Option<seq<int>>, sizes: seq<nat>, capacity: nat)
    returns (ok: bool, cells: seq<Cell>, ghost goals: seq<Goal>)
    requires Suppliable(k, pages, rowIndexes) && (forall i | 0 <= i < |sizes| :: sizes[i] <= capacity)
    requires Total(sizes) <= |Chunk(k, pages, FilterOf(rowIndexes))|
    ensures k.t.GetUpdater().Some? && Goals(k, Parts(k, pages, FilterOf(rowIndexes)), sizes, goals)
    ensures ok <==> |goals| == |sizes| && forall i: nat | i < |goals| :: goals[i].Succeeds(k)
    ensures !ok ==> goals != [] && !goals[|goals| - 1].Succeeds(k)
    ensures !ok ==> forall i: nat | i < |goals| - 1 :: goals[i].Succeeds(k)
    ensures ok ==> cells == ShownByAll(k, goals, |goals|)
  {
    hide VectorizedColumnReader.Valid, VectorizedColumnReader.Left, Goal.Succeeds, Goal.Shown, Column.Readable, Chunk;
    hide InRowOrder, Parts, Play, Flat, Plains, IdsKnown, LeavesIds, GoalAt;
    ghost var parts := Parts(k, pages, FilterOf(rowIndexes));
    PartsAreChunk(k, pages, FilterOf(rowIndexes));
    var v := new ColumnVector(capacity);
    var r := new VectorizedColumnReader(k, pages, rowIndexes);
    cells, goals := [], [];
    assert sizes[0..] == sizes;
    for i := 0 to |sizes|
      invariant Between(k, parts, sizes, i, goals, r, v, capacity)
      invariant fresh(r.Repr()) && fresh(v) && (v.dictionaryIds == null || fresh(v.dictionaryIds))
      invariant cells == ShownByAll(k, goals, i)
    {
      var more;
      ghost var g;
      ok, more, g := NextBatch(k, sizes, i, r, v, capacity, parts, goals);
      ShownByFirst(k, goals, g, i);
      goals := goals + [g];
      if !ok {
        assert !goals[i].Succeeds(k);
        return;
      }
      cells := cells + more;
    }
    ok := true;
  }
}
