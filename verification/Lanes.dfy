/** The columns of a file side by side: a reader and a vector for each, apart from one another. */
module Lanes {
  import opened Numbers
  import opened Columns
  import opened ReadState
  import opened Rows
  import opened ColumnTypes
  import opened Pages
  import opened MixedPages
  import opened Slots
  import opened ColumnReader
  import opened Batches

  /** A requested column; `missing` when the file does not have it. */
  datatype Field = Field(t: ColumnType, max: nat, missing: bool)

  datatype ColumnChunk = ColumnChunk(dictionary: Option<seq<Raw>>, pages: seq<DataPage>)

  datatype RowGroup = RowGroup(rowCount: nat, rowIndexes: Option<seq<int>>, chunks: seq<ColumnChunk>)
  {
    /** The chunk of a column is readable and delivers as many cells as the group has rows. */
    ghost predicate ChunkSound(f: Field, c: ColumnChunk) {
      var k := Column(f.t, f.max, c.dictionary);
      Suppliable(k, c.pages, rowIndexes) && |Chunk(k, c.pages, FilterOf(rowIndexes))| == rowCount
    }

    ghost predicate Sound(fields: seq<Field>) {
      && rowCount > 0 && |chunks| == |fields|
      && forall i | 0 <= i < |fields| :: fields[i].missing || ChunkSound(fields[i], chunks[i])
    }

    /** Read in batches of these sizes, no column of the group loses a value of a plain page to a dictionary page. */
    ghost predicate InOrder(fields: seq<Field>, sizes: seq<nat>)
      requires Sound(fields)
    {
      forall i | 0 <= i < |fields| :: fields[i].missing || ChunkInOrder(fields[i], chunks[i], sizes)
    }

    ghost predicate ChunkInOrder(f: Field, c: ColumnChunk, sizes: seq<nat>)
      requires ChunkSound(f, c)
    {
      f.t.IsLazyDecodingSupported() ==>
        Orderly(Parts(Column(f.t, f.max, c.dictionary), c.pages, FilterOf(rowIndexes)), sizes)
    }

    /** The group's cells of column `i`. */
    function Cells(fields: seq<Field>, i: nat): (cs: seq<Cell>)
      requires Sound(fields) && i < |fields|
      ensures |cs| == rowCount
    {
      if fields[i].missing then seq(rowCount, _ => Null)
      else Chunk(Column(fields[i].t, fields[i].max, chunks[i].dictionary), chunks[i].pages, FilterOf(rowIndexes))
    }

    function Columns(fields: seq<Field>): (cols: seq<seq<Cell>>)
      requires Sound(fields)
      ensures |cols| == |fields| && forall i | 0 <= i < |cols| :: cols[i] == Cells(fields, i) && |cols[i]| == rowCount
    {
      seq(|fields|, i requires 0 <= i < |fields| => Cells(fields, i))
    }
  }

  /** The rows of row groups, in order. */
  ghost function GroupRows(fields: seq<Field>, groups: seq<RowGroup>): seq<Row>
    requires forall g | 0 <= g < |groups| :: groups[g].Sound(fields)
  {
    if groups == [] then [] else Table(groups[0].Columns(fields), groups[0].rowCount) + GroupRows(fields, groups[1..])
  }

  function Counts(groups: seq<RowGroup>): (ns: seq<nat>)
    ensures |ns| == |groups|
  {
    seq(|groups|, g requires 0 <= g < |groups| => groups[g].rowCount)
  }

  // ---- one column: its reader, if the file has it, and its vector

  ghost function Lane(r: VectorizedColumnReader?, v: ColumnVector): set<object>
    reads v, r
  {
    {v} + (if v.dictionaryIds == null then {} else {v.dictionaryIds}) + (if r == null then {} else {r} + r.owned)
  }

  /**
   The column still has exactly the cells `rest` of the current row group to deliver, and can deliver them
   in batches of `sizes`.
   */
  ghost predicate LaneReady(f: Field, r: VectorizedColumnReader?, v: ColumnVector, capacity: nat, rest: seq<Cell>,
                            sizes: seq<nat>)
    reads v, r, Lane(r, v)
  {
    && VectorReady(f, v, capacity)
    && (if f.missing then r == null && forall i | 0 <= i < |rest| :: rest[i] == Null
        else if r == null then rest == []
        else r.Owns() && ReaderReady(f, r, v, rest, sizes))
  }

  ghost predicate ReaderReady(f: Field, r: VectorizedColumnReader, v: ColumnVector, rest: seq<Cell>, sizes: seq<nat>)
    reads v, v.dictionaryIds, r, r.owned
    requires r.Owns()
  {
    r.k.t == f.t && r.Valid() && r.Remaining() == rest && r.Apart(v)
    && v !in r.owned && (v.dictionaryIds != null ==> v.dictionaryIds !in r.owned)
    && (f.t.IsLazyDecodingSupported() ==> Orderly(r.Left(), sizes))
  }

  /** A vector of at least `capacity` slots; all its slots are null when the file does not have the column. */
  ghost predicate VectorReady(f: Field, v: ColumnVector, capacity: nat)
    reads v, v.dictionaryIds
  {
    && capacity <= |v.cells| && capacity <= |v.isNull|
    && (v.dictionaryIds != null ==> v.dictionaryIds != v && |v.dictionaryIds.cells| == |v.dictionaryIds.isNull|)
    && (v.dictionary.Some? ==> f.t.IsLazyDecodingSupported())
    && (f.missing ==> v.dictionary == None && forall i | 0 <= i < |v.isNull| :: v.isNull[i])
  }

  /** The vector shows `cs` in its first slots. */
  ghost predicate Shows(f: Field, v: ColumnVector, cs: seq<Cell>)
    reads v, v.dictionaryIds
  {
    && |cs| <= |v.cells| && |cs| <= |v.isNull| && (|cs| > 0 && v.dictionary.Some? ==> v.dictionaryIds != null)
    && forall i | 0 <= i < |cs| :: View(f.t.sparkType, v, i) == cs[i]
  }

  /** The column before (or, `done`, after) its turn in a batch of `num` rows. */
  ghost predicate LaneAt(f: Field, r: VectorizedColumnReader?, v: ColumnVector, capacity: nat, rest: seq<Cell>,
                         sizes: seq<nat>, num: nat, done: bool)
    reads v, r, Lane(r, v)
  {
    && num <= |rest| && num <= capacity && sizes != [] && sizes[0] == num
    && (if done then LaneReady(f, r, v, capacity, rest[num..], sizes[1..]) && Shows(f, v, rest[..num])
        else LaneReady(f, r, v, capacity, rest, sizes) && (!f.missing ==> NoNulls(v.isNull, 0, num)))
  }

  /** The turn of one column in `nextBatch`: nothing to do when the file does not have it. */
  method ReadLane(f: Field, r: VectorizedColumnReader?, v: ColumnVector, num: nat, ghost capacity: nat,
                  ghost rest: seq<Cell>,
                  ghost sizes: seq<nat>)
    returns (ok: bool)
    requires LaneAt(f, r, v, capacity, rest, sizes, num, false)
    modifies Lane(r, v)
    ensures ok <==> Accepted(rest[..num])
    ensures ok ==> fresh(Lane(r, v) - old(Lane(r, v))) && LaneAt(f, r, v, capacity, rest, sizes, num, true)
  {
    hide VectorizedColumnReader.Valid, VectorizedColumnReader.Left, Accepted, NoNulls, LazyGet;
    hide ColumnType.IsLazyDecodingSupported, ColumnType.GetUpdater, Orderly, Play, Flat, Plains;
    hide Goal.Shown, Goal.Succeeds, Goal.Undisturbed;
    ok := true;
    if r != null {
      r.OwnsRepr();
      r.ValidSound();
      ghost var g := r.NextGoal(num, v);
      CalmShows(g, r.k, r.Left(), sizes);
      ok := r.ReadBatch(num, v);
    } else {
      NothingRejected(rest, num);
    }
  }

  /** The next of the batches of an orderly sequence. */
  lemma CalmShows(g: Goal, k: Column, parts: seq<Part>, sizes: seq<nat>)
    requires g.Sound() && k.t.GetUpdater().Some? && g.cells == Flat(parts) && g.plains == Plains(parts)
    requires sizes != [] && g.total == sizes[0] && g.end == Play(parts, 0, g.total, 0, 0)
    requires k.t.IsLazyDecodingSupported() ==> Orderly(parts, sizes)
    ensures forall i: nat | i < g.total :: g.Shown(k, g.end.attached, i) == g.cells[i]
    ensures g.Succeeds(k) <==> Accepted(g.cells[..g.total])
    ensures k.t.IsLazyDecodingSupported() ==> Orderly(g.end.rest, sizes[1..])
  {
    PlayGrows(parts, 0, g.total, 0, 0);
    UndisturbedShows(g, k);
  }

  lemma NothingRejected(rest: seq<Cell>, num: nat)
    requires num <= |rest| && forall i | 0 <= i < |rest| :: rest[i] == Null
    ensures Accepted(rest[..num])
  {
  }

  ghost predicate LanesApart(rs: seq<VectorizedColumnReader?>, vs: seq<ColumnVector>, repr: set<object>)
    reads repr
  {
    && |rs| == |vs|
    && (forall i | 0 <= i < |vs| :: vs[i] in repr && (rs[i] != null ==> rs[i] in repr) && Lane(rs[i], vs[i]) <= repr)
    && forall i, j | 0 <= i < j < |vs| :: Lane(rs[i], vs[i]) !! Lane(rs[j], vs[j])
  }

  /** The first `done` columns have had their turn in a batch of `num` rows. */
  ghost predicate AllAt(fields: seq<Field>, rs: seq<VectorizedColumnReader?>, vs: seq<ColumnVector>, repr: set<object>,
                        capacity: nat, rest: seq<seq<Cell>>, sizes: seq<nat>, num: nat, done: nat)
    reads repr
  {
    && LanesApart(rs, vs, repr) && |fields| == |vs| == |rest|
    && forall i | 0 <= i < |vs| :: LaneAt(fields[i], rs[i], vs[i], capacity, rest[i], sizes, num, i < done)
  }

  method ReadColumn(fields: seq<Field>, rs: seq<VectorizedColumnReader?>, vs: seq<ColumnVector>, num: nat, i: nat,
                    ghost repr0: set<object>, ghost capacity: nat, ghost rest: seq<seq<Cell>>,
                      ghost sizes: seq<nat>)
    returns (ok: bool, ghost repr: set<object>)
    requires AllAt(fields, rs, vs, repr0, capacity, rest, sizes, num, i) && i < |vs|
    modifies Lane(rs[i], vs[i])
    ensures ok <==> Accepted(rest[i][..num])
    ensures fresh(repr - repr0)
    ensures ok ==> AllAt(fields, rs, vs, repr, capacity, rest, sizes, num, i + 1)
  {
    hide LaneAt, Accepted;
    repr := repr0;
    ok := ReadLane(fields[i], rs[i], vs[i], num, capacity, rest[i], sizes);
    if ok {
      repr := repr0 + Lane(rs[i], vs[i]);
      // the other columns are as they were
      forall j | 0 <= j < |vs| && j != i
        ensures Lane(rs[j], vs[j]) == old(Lane(rs[j], vs[j]))
        ensures LaneAt(fields[j], rs[j], vs[j], capacity, rest[j], sizes, num, j < i + 1)
      {
        assert old(Lane(rs[j], vs[j])) !! old(Lane(rs[i], vs[i]));
        assert old(Lane(rs[j], vs[j])) <= repr0;
      }
    }
  }

  /** The loop of `nextBatch` over the columns. */
  method ReadEach(fields: seq<Field>, rs: seq<VectorizedColumnReader?>, vs: seq<ColumnVector>, num: nat,
                     ghost repr0: set<object>, ghost capacity: nat, ghost rest: seq<seq<Cell>>,
                      ghost sizes: seq<nat>)
    returns (ok: bool, ghost repr: set<object>)
    requires AllAt(fields, rs, vs, repr0, capacity, rest, sizes, num, 0) && forall i | 0 <= i < |rest| ::
      num <= |rest[i]|
    modifies repr0
    ensures ok <==> forall i | 0 <= i < |rest| :: Accepted(rest[i][..num])
    ensures fresh(repr - repr0)
    ensures ok ==> AllAt(fields, rs, vs, repr, capacity, rest, sizes, num, |rest|)
  {
    hide LaneAt, Accepted;
    repr := repr0;
    for i := 0 to |rs|
      invariant fresh(repr - repr0)
      invariant AllAt(fields, rs, vs, repr, capacity, rest, sizes, num, i)
      invariant forall j | 0 <= j < i :: Accepted(rest[j][..num])
    {
      ok, repr := ReadColumn(fields, rs, vs, num, i, repr, capacity, rest, sizes);
      if !ok {
        return;
      }
    }
    ok := true;
  }

  ghost predicate AllReady(fields: seq<Field>, rs: seq<VectorizedColumnReader?>, vs: seq<ColumnVector>,
                           repr: set<object>,
                           capacity: nat, rest: seq<seq<Cell>>, sizes: seq<nat>)
    reads repr
  {
    && LanesApart(rs, vs, repr) && |fields| == |vs| == |rest|
    && forall i | 0 <= i < |vs| :: LaneReady(fields[i], rs[i], vs[i], capacity, rest[i], sizes)
  }

  ghost predicate AllShow(fields: seq<Field>, rs: seq<VectorizedColumnReader?>, vs: seq<ColumnVector>,
                          repr: set<object>,
                          batch: seq<seq<Cell>>)
    reads repr
  {
    && LanesApart(rs, vs, repr) && |fields| == |vs| == |batch|
    && forall i | 0 <= i < |vs| :: Shows(fields[i], vs[i], batch[i])
  }

  method ResetVector(f: Field, r: VectorizedColumnReader?, v: ColumnVector, ghost capacity: nat, ghost rest: seq<Cell>,
                  ghost sizes: seq<nat>)
    requires LaneReady(f, r, v, capacity, rest, sizes) && !f.missing
    modifies v`isNull
    ensures LaneReady(f, r, v, capacity, rest, sizes)
    ensures forall n: nat | n <= capacity :: NoNulls(v.isNull, 0, n)
  {
    hide VectorizedColumnReader.Valid, VectorizedColumnReader.Left, ColumnType.IsLazyDecodingSupported, Orderly;
    v.Reset();
  }

  /** Every column is ready and its vector, unless it is a constant one, has no nulls. */
  ghost predicate Cleared(fields: seq<Field>, rs: seq<VectorizedColumnReader?>, vs: seq<ColumnVector>,
                          repr: set<object>,
                          capacity: nat, rest: seq<seq<Cell>>, sizes: seq<nat>, upTo: nat)
    reads repr
  {
    && AllReady(fields, rs, vs, repr, capacity, rest, sizes)
    && forall i | 0 <= i < |vs| && i < upTo && !fields[i].missing ::
      capacity <= |vs[i].isNull| && NoNulls(vs[i].isNull, 0, capacity)
  }

  method ResetColumn(fields: seq<Field>, rs: seq<VectorizedColumnReader?>, vs: seq<ColumnVector>, i: nat,
                     ghost repr: set<object>, ghost capacity: nat, ghost rest: seq<seq<Cell>>,
                      ghost sizes: seq<nat>)
    requires Cleared(fields, rs, vs, repr, capacity, rest, sizes, i) && i < |vs|
    modifies vs[i]
    ensures Cleared(fields, rs, vs, repr, capacity, rest, sizes, i + 1)
  {
    hide LaneReady, NoNulls;
    if !fields[i].missing {
      ResetVector(fields[i], rs[i], vs[i], capacity, rest[i], sizes);
      forall j | 0 <= j < |vs| && j != i
        ensures vs[j] != vs[i] && Lane(rs[j], vs[j]) == old(Lane(rs[j], vs[j]))
        ensures LaneReady(fields[j], rs[j], vs[j], capacity, rest[j], sizes)
      {
        assert vs[j] in Lane(rs[j], vs[j]) && vs[i] in Lane(rs[i], vs[i]);
      }
      assert LaneReady(fields[i], rs[i], vs[i], capacity, rest[i], sizes);
      VectorIsReady(fields[i], rs[i], vs[i], capacity, rest[i], sizes);
    }
  }

  lemma VectorIsReady(f: Field, r: VectorizedColumnReader?, v: ColumnVector, capacity: nat, rest: seq<Cell>,
                      sizes: seq<nat>)
    requires LaneReady(f, r, v, capacity, rest, sizes)
    ensures VectorReady(f, v, capacity)
  {
  }

  /** `nextBatch` starts with every vector free of nulls, except the constant ones. */
  method ResetVectors(fields: seq<Field>, rs: seq<VectorizedColumnReader?>, vs: seq<ColumnVector>,
                      ghost repr: set<object>, ghost capacity: nat, ghost rest: seq<seq<Cell>>,
                      ghost sizes: seq<nat>)
    requires AllReady(fields, rs, vs, repr, capacity, rest, sizes)
    modifies repr
    ensures Cleared(fields, rs, vs, repr, capacity, rest, sizes, |vs|)
  {
    hide LaneReady, NoNulls;
    for i := 0 to |vs|
      invariant Cleared(fields, rs, vs, repr, capacity, rest, sizes, i)
    {
      ResetColumn(fields, rs, vs, i, repr, capacity, rest, sizes);
    }
  }

  /** A reader of a column chunk, before its first page. */
  method OpenColumn(f: Field, k: Column, pages: seq<DataPage>, rowIndexes: Option<seq<int>>, v: ColumnVector,
                    ghost capacity: nat, ghost sizes: seq<nat>)
    returns (r: VectorizedColumnReader)
    requires Suppliable(k, pages, rowIndexes) && f == Field(k.t, k.max, false) && VectorReady(f, v, capacity)
    requires k.t.IsLazyDecodingSupported() ==> Orderly(Parts(k, pages, FilterOf(rowIndexes)), sizes)
    ensures fresh(r) && fresh(r.owned)
    ensures LaneReady(f, r, v, capacity, Chunk(k, pages, FilterOf(rowIndexes)), sizes)
  {
    hide VectorizedColumnReader.Valid, VectorizedColumnReader.Left, Column.Readable, Chunk, InRowOrder;
    hide Parts, Flat, Orderly, ColumnType.IsLazyDecodingSupported, ColumnType.GetUpdater;
    PartsAreChunk(k, pages, FilterOf(rowIndexes));
    r := new VectorizedColumnReader(k, pages, rowIndexes);
  }

  method OpenField(fields: seq<Field>, group: RowGroup, i: nat, v: ColumnVector, ghost capacity: nat,
                   ghost sizes: seq<nat>)
    returns (r: VectorizedColumnReader)
    requires group.Sound(fields) && group.InOrder(fields, sizes)
    requires i < |fields| && !fields[i].missing && VectorReady(fields[i], v, capacity)
    ensures fresh(r) && fresh(r.owned) && LaneReady(fields[i], r, v, capacity, group.Cells(fields, i), sizes)
  {
    hide Suppliable, LaneReady, VectorReady, Chunk, Orderly, Parts, ColumnType.IsLazyDecodingSupported;
    var c := group.chunks[i];
    assert group.ChunkSound(fields[i], c) && group.ChunkInOrder(fields[i], c, sizes);
    r := OpenColumn(fields[i], Column(fields[i].t, fields[i].max, c.dictionary), c.pages, group.rowIndexes, v,
                    capacity, sizes);
  }

  /** `checkEndOfRowGroup`: readers for all columns of the next row group. */
  method OpenColumns(fields: seq<Field>, group: RowGroup, vs: seq<ColumnVector>,
                     ghost rs0: seq<VectorizedColumnReader?>,
                     ghost repr0: set<object>, ghost capacity: nat, ghost rest0: seq<seq<Cell>>,
                     ghost sizes0: seq<nat>, ghost sizes: seq<nat>)
    returns (rs: seq<VectorizedColumnReader?>, ghost repr: set<object>)
    requires AllReady(fields, rs0, vs, repr0, capacity, rest0, sizes0) && group.Sound(fields)
    requires group.InOrder(fields, sizes)
    ensures AllReady(fields, rs, vs, repr, capacity, group.Columns(fields), sizes) && fresh(repr - repr0)
  {
    hide VectorReady, RowGroup.Sound, RowGroup.InOrder, RowGroup.Cells, LaneReady, LanesApart;
    NoReaders(rs0, vs, repr0);
    rs := seq(|fields|, _ => null);
    repr := repr0;
    forall j | 0 <= j < |vs| ensures VectorReady(fields[j], vs[j], capacity) {
      VectorIsReady(fields[j], rs0[j], vs[j], capacity, rest0[j], sizes0);
    }
    for i := 0 to |fields|
      invariant |rs| == |vs| && LanesApart(rs, vs, repr) && fresh(repr - repr0)
      invariant forall j | 0 <= j < |vs| :: VectorReady(fields[j], vs[j], capacity)
      invariant forall j | i <= j < |vs| :: rs[j] == null
      invariant forall j | 0 <= j < i :: LaneReady(fields[j], rs[j], vs[j], capacity, group.Cells(fields, j), sizes)
    {
      if !fields[i].missing {
        var r := OpenField(fields, group, i, vs[i], capacity, sizes);
        ReaderApart(rs, vs, repr, i, r);
        forall j | 0 <= j < i ensures LaneReady(fields[j], rs[j], vs[j], capacity, group.Cells(fields, j), sizes) {
          assert vs[j] in Lane(rs[j], vs[j]);
        }
        rs := rs[i := r];
        repr := repr + Lane(r, vs[i]);
      } else {
        MissingReady(fields, group, i, vs[i], capacity, sizes);
      }
    }
  }

  lemma NoReaders(rs: seq<VectorizedColumnReader?>, vs: seq<ColumnVector>, repr: set<object>)
    requires LanesApart(rs, vs, repr)
    ensures |rs| == |vs| && LanesApart(seq(|vs|, _ => null), vs, repr)
  {
    forall i, j | 0 <= i < j < |vs| ensures Lane(null, vs[i]) !! Lane(null, vs[j]) {
      assert Lane(rs[i], vs[i]) !! Lane(rs[j], vs[j]);
    }
  }

  /** A reader that shares nothing with any lane joins a lane that has none. */
  lemma ReaderApart(rs: seq<VectorizedColumnReader?>, vs: seq<ColumnVector>, repr: set<object>, i: nat,
                    r: VectorizedColumnReader)
    requires LanesApart(rs, vs, repr) && i < |vs| && rs[i] == null && r !in repr && r.owned !! repr
    ensures LanesApart(rs[i := r], vs, repr + Lane(r, vs[i])) && Lane(r, vs[i]) - repr <= {r} + r.owned
  {
  }

  lemma MissingReady(fields: seq<Field>, group: RowGroup, i: nat, v: ColumnVector, capacity: nat, sizes: seq<nat>)
    requires group.Sound(fields) && i < |fields| && fields[i].missing && VectorReady(fields[i], v, capacity)
    ensures LaneReady(fields[i], null, v, capacity, group.Cells(fields, i), sizes)
  {
  }

  /** The vectors of the batch; those of missing columns are all null from the start. */
  method InitBatch(fields: seq<Field>, capacity: nat) returns (vs: seq<ColumnVector>, ghost repr: set<object>)
    ensures fresh(repr) && |vs| == |fields|
    ensures AllReady(fields, seq(|fields|, _ => null), vs, repr, capacity, seq(|fields|, _ => []), [])
    ensures AllShow(fields, seq(|fields|, _ => null), vs, repr, seq(|fields|, _ => []))
  {
    vs, repr := [], {};
    for i := 0 to |fields|
      invariant |vs| == i && fresh(repr)
      invariant forall j | 0 <= j < i ::
        vs[j] in repr && vs[j].dictionaryIds == null && VectorReady(fields[j], vs[j], capacity)
      invariant forall j | 0 <= j < i :: vs[j].dictionary == None
      invariant forall j, k | 0 <= j < k < i :: vs[j] != vs[k]
    {
      var v := new ColumnVector(capacity);
      if fields[i].missing {
        v.PutNulls(0, capacity);
      }
      vs, repr := vs + [v], repr + {v};
    }
  }

  /** No slot of a vector is null, but for the columns the file does not have. */
  ghost predicate NullFree(fields: seq<Field>, vs: seq<ColumnVector>, capacity: nat)
    reads vs
    requires |vs| == |fields|
  {
    forall i | 0 <= i < |vs| && !fields[i].missing :: capacity <= |vs[i].isNull| && NoNulls(vs[i].isNull, 0, capacity)
  }

  lemma BeforeTurns(fields: seq<Field>, rs: seq<VectorizedColumnReader?>, vs: seq<ColumnVector>, repr: set<object>,
                    capacity: nat, rest: seq<seq<Cell>>, sizes: seq<nat>, num: nat)
    requires AllReady(fields, rs, vs, repr, capacity, rest, sizes) && num <= capacity && sizes != [] && sizes[0] == num
    requires |vs| == |fields| && NullFree(fields, vs, capacity) && forall i | 0 <= i < |rest| :: num <= |rest[i]|
    ensures AllAt(fields, rs, vs, repr, capacity, rest, sizes, num, 0)
  {
    hide LaneReady;
  }

  lemma AfterTurns(fields: seq<Field>, rs: seq<VectorizedColumnReader?>, vs: seq<ColumnVector>, repr: set<object>,
                   capacity: nat, rest: seq<seq<Cell>>, sizes: seq<nat>, num: nat)
    requires AllAt(fields, rs, vs, repr, capacity, rest, sizes, num, |rest|) && sizes != []
    requires forall i | 0 <= i < |rest| :: num <= |rest[i]|
    ensures AllReady(fields, rs, vs, repr, capacity, Bottoms(rest, num), sizes[1..])
    ensures AllShow(fields, rs, vs, repr, Tops(rest, num))
  {
    hide LaneReady, Shows;
  }

  /** New readers do not change what the vectors show. */
  lemma StillShown(fields: seq<Field>, rs0: seq<VectorizedColumnReader?>, rs: seq<VectorizedColumnReader?>,
                   vs: seq<ColumnVector>, repr0: set<object>, repr: set<object>, batch: seq<seq<Cell>>)
    requires AllShow(fields, rs0, vs, repr0, batch) && LanesApart(rs, vs, repr)
    ensures AllShow(fields, rs, vs, repr, batch)
  {
    hide Shows;
  }

  lemma Ready(fields: seq<Field>, rs: seq<VectorizedColumnReader?>, vs: seq<ColumnVector>, repr: set<object>,
              capacity: nat, rest: seq<seq<Cell>>, sizes: seq<nat>)
    requires AllReady(fields, rs, vs, repr, capacity, rest, sizes)
    ensures LanesApart(rs, vs, repr)
  {
  }

  lemma NothingShown(fields: seq<Field>, rs: seq<VectorizedColumnReader?>, vs: seq<ColumnVector>, repr: set<object>,
                     capacity: nat, rest: seq<seq<Cell>>, sizes: seq<nat>)
    requires AllReady(fields, rs, vs, repr, capacity, rest, sizes)
    ensures AllShow(fields, rs, vs, repr, seq(|fields|, _ => []))
  {
    hide LaneReady;
  }

  /** All columns read `num` rows into their vectors. */
  method ReadColumns(fields: seq<Field>, rs: seq<VectorizedColumnReader?>, vs: seq<ColumnVector>, num: nat,
                     ghost repr0: set<object>, ghost capacity: nat, ghost rest: seq<seq<Cell>>, ghost sizes: seq<nat>)
    returns (ok: bool, ghost repr: set<object>)
    requires AllReady(fields, rs, vs, repr0, capacity, rest, sizes) && NullFree(fields, vs, capacity)
    requires num <= capacity && sizes != [] && sizes[0] == num && forall i | 0 <= i < |rest| :: num <= |rest[i]|
    modifies repr0
    ensures ok <==> forall i | 0 <= i < |rest| :: Accepted(rest[i][..num])
    ensures fresh(repr - repr0)
    ensures ok ==> AllReady(fields, rs, vs, repr, capacity, Bottoms(rest, num), sizes[1..])
    ensures ok ==> AllShow(fields, rs, vs, repr, Tops(rest, num))
  {
    hide LaneReady, AllShow, AllAt, Accepted, NoNulls;
    BeforeTurns(fields, rs, vs, repr0, capacity, rest, sizes, num);
    ok, repr := ReadEach(fields, rs, vs, num, repr0, capacity, rest, sizes);
    if ok {
      AfterTurns(fields, rs, vs, repr, capacity, rest, sizes, num);
    }
  }
}
