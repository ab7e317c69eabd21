/** A whole column chunk read through one reused vector, in batches of any sizes. */
module ColumnRuns {
  import opened Numbers
  import opened Columns
  import opened ReadState
  import opened Rows
  import opened ColumnTypes
  import opened Pages
  import opened MixedPages
  import opened Slots
  import opened ColumnReader
  import opened Batches
  import opened Lanes
  import Selection

  /** The slots of a batch as a caller sees them. */
  method CopySlots(f: Field, v: ColumnVector, n: nat, ghost shown: seq<Cell>) returns (cells: seq<Cell>)
    requires Shows(f, v, shown) && |shown| == n
    ensures cells == shown
  {
    cells := [];
    for i := 0 to n
      invariant cells == shown[..i]
    {
      cells := cells + [View(f.t.sparkType, v, i)];
    }
  }

  /** One batch: the vector is cleared, filled and looked at. */
  method OneBatch(f: Field, r: VectorizedColumnReader, v: ColumnVector, size: nat,
                  ghost capacity: nat, ghost rest: seq<Cell>, ghost sizes: seq<nat>)
    returns (ok: bool, cells: seq<Cell>)
    requires LaneReady(f, r, v, capacity, rest, sizes) && !f.missing && size <= capacity && size <= |rest|
    requires sizes != [] && sizes[0] == size
    modifies Lane(r, v)
    ensures ok <==> Accepted(rest[..size])
    ensures ok ==> fresh(Lane(r, v) - old(Lane(r, v))) && LaneReady(f, r, v, capacity, rest[size..], sizes[1..])
    ensures ok ==> cells == rest[..size]
  {
    hide LaneReady, Shows, Accepted, NoNulls;
    ResetVector(f, r, v, capacity, rest, sizes);
    VectorIsReady(f, r, v, capacity, rest, sizes);
    ok := ReadLane(f, r, v, size, capacity, rest, sizes);
    cells := [];
    if ok {
      cells := CopySlots(f, v, size, rest[..size]);
    }
  }

  lemma AcceptedSplit(cs: seq<Cell>, m: nat, n: nat)
    requires m + n <= |cs|
    ensures Accepted(cs[..m + n]) <==> Accepted(cs[..m]) && Accepted(cs[m..][..n])
    ensures cs[..m + n] == cs[..m] + cs[m..][..n] && cs[m..][n..] == cs[m + n..]
  {
    assert cs[..m + n] == cs[..m] + cs[m..][..n];
    if Accepted(cs[..m + n]) {
      forall i | 0 <= i < m ensures cs[..m][i] != Rejected {
        assert cs[..m][i] == cs[..m + n][i];
      }
      forall i | 0 <= i < n ensures cs[m..][..n][i] != Rejected {
        assert cs[m..][..n][i] == cs[..m + n][m + i];
      }
    }
  }

  lemma {:induction false} TotalSplit(sizes: seq<nat>, i: nat)
    requires i < |sizes|
    ensures Total(sizes[..i + 1]) == Total(sizes[..i]) + sizes[i]
    ensures Total(sizes[..i + 1]) <= Total(sizes)
    decreases i
  {
    if i > 0 {
      TotalSplit(sizes[1..], i - 1);
      assert sizes[..i + 1][1..] == sizes[1..][..i] && sizes[..i][1..] == sizes[1..][..i - 1];
    } else {
      assert sizes[..1][1..] == [] && sizes[..0] == [];
    }
  }

  /** Read in batches of `sizes`, no value of a plain page is lost to a dictionary page. */
  predicate InOrder(k: Column, pages: seq<DataPage>, rowIndexes: Option<seq<int>>, sizes: seq<nat>)
    requires k.t.GetUpdater().Some? && forall i | 0 <= i < |pages| :: k.Readable(pages[i])
  {
    k.t.IsLazyDecodingSupported() ==> Orderly(Parts(k, pages, FilterOf(rowIndexes)), sizes)
  }

  /**
   However the column is split into batches, empty ones included, the slots of the batches put
   together are the wanted rows of its pages, in order.
   */
  method ReadInBatches(k: Column, pages: seq<DataPage>, rowIndexes: Option<seq<int>>, sizes: seq<nat>, capacity: nat)
    returns (ok: bool, cells: seq<Cell>)
    requires Suppliable(k, pages, rowIndexes) && (forall i | 0 <= i < |sizes| :: sizes[i] <= capacity)
    requires InOrder(k, pages, rowIndexes, sizes) && Total(sizes) <= |Chunk(k, pages, FilterOf(rowIndexes))|
    ensures ok <==> Accepted(Chunk(k, pages, FilterOf(rowIndexes))[..Total(sizes)])
    ensures ok ==> cells == Chunk(k, pages, FilterOf(rowIndexes))[..Total(sizes)]
  {
    hide Column.Readable, Chunk, InRowOrder, Accepted, LaneReady, Orderly, Parts, ColumnType.IsLazyDecodingSupported;
    ghost var all := Chunk(k, pages, FilterOf(rowIndexes));
    var f := Field(k.t, k.max, false);
    var v := new ColumnVector(capacity);
    var r := OpenColumn(f, k, pages, rowIndexes, v, capacity, sizes);
    cells := [];
    ghost var done := 0;
    NothingRejectedYet(all);
    assert all[0..] == all && sizes[..0] == [] && sizes[0..] == sizes;
    for i := 0 to |sizes|
      invariant 0 <= done <= Total(sizes) && done == Total(sizes[..i]) && fresh(Lane(r, v))
      invariant LaneReady(f, r, v, capacity, all[done..], sizes[i..]) && cells == all[..done] && Accepted(all[..done])
    {
      TotalSplit(sizes, i);
      AcceptedSplit(all, done, sizes[i]);
      var more;
      ok, more := OneBatch(f, r, v, sizes[i], capacity, all[done..], sizes[i..]);
      assert sizes[i..][1..] == sizes[i + 1..];
      done := done + sizes[i];
      if !ok {
        AcceptedSplit(all, done, Total(sizes) - done);
        return;
      }
      cells := cells + more;
    }
    assert sizes[..|sizes|] == sizes;
    ok := true;
  }

  lemma NothingRejectedYet(all: seq<Cell>)
    ensures Accepted(all[..0])
  {
  }

  /** With row indexes: what comes back is, index by index, the row looked up in the pages. */
  method ReadRowsAt(k: Column, pages: seq<DataPage>, ids: seq<int>, sizes: seq<nat>, capacity: nat)
    returns (ok: bool, cells: seq<Cell>)
    requires Suppliable(k, pages, Some(ids)) && (forall i | 0 <= i < |sizes| :: sizes[i] <= capacity)
    requires InOrder(k, pages, Some(ids), sizes)
    requires Total(sizes) == |ids| && forall i | 0 <= i < |ids| :: Selection.RowAt(k, pages, ids[i]).Some?
    ensures ok <==> forall i | 0 <= i < |ids| :: Selection.RowAt(k, pages, ids[i]).value != Rejected
    ensures ok ==> |cells| == |ids| && forall i | 0 <= i < |ids| :: Some(cells[i]) == Selection.RowAt(k, pages, ids[i])
  {
    hide Column.Readable, Chunk, InRowOrder, InOrder, Selection.RowAt;
    Selection.ChunkIsLookup(k, pages, ids);
    ghost var all := Chunk(k, pages, Only(ids));
    assert all[..|ids|] == all;
    ok, cells := ReadInBatches(k, pages, Some(ids), sizes, capacity);
  }
}
