/** Row ranges and the cursors over batch, page and ranges. */
module ReadState {
  import opened Numbers

  datatype RowRange = RowRange(start: int, end: int)

  const MAX_ROW_RANGE := RowRange(LONG_MIN, LONG_MAX)
  const END_ROW_RANGE := RowRange(LONG_MAX, LONG_MIN)

  /** The rows a reader is asked for: all of them, or those of an increasing list of indexes. */
  datatype RowFilter = AllRows | Only(indexes: seq<int>)
  {
    predicate Wants(row: int) {
      match this
      case AllRows => true
      case Only(ids) => row in ids
    }
  }

  function FilterOf(rowIndexes: Option<seq<int>>): RowFilter {
    match rowIndexes case None => AllRows case Some(ids) => Only(ids)
  }

  predicate Increasing(s: seq<int>) { forall j, k | 0 <= j < k < |s| :: s[j] < s[k] }

  predicate Holds(r: RowRange, row: int) { r.start <= row <= r.end }

  ghost predicate Covers(rs: seq<RowRange>, row: int) { exists k :: 0 <= k < |rs| && Holds(rs[k], row) }

  /** Non-empty ranges in order, with a gap between any two. */
  ghost predicate Canonical(rs: seq<RowRange>) {
    && (forall k | 0 <= k < |rs| :: rs[k].start <= rs[k].end)
    && (forall j, k | 0 <= j < k < |rs| :: rs[j].end + 1 < rs[k].start)
  }

  function Span(r: RowRange): seq<int> {
    if r.start > r.end then [] else seq(r.end - r.start + 1, i => r.start + i)
  }

  /** The rows of the ranges, one after the other. */
  function Expand(rs: seq<RowRange>): seq<int> {
    if rs == [] then [] else Expand(rs[..|rs| - 1]) + Span(rs[|rs| - 1])
  }

  lemma ExpandAppend(rs: seq<RowRange>, r: RowRange)
    ensures Expand(rs + [r]) == Expand(rs) + Span(r)
  {
    assert (rs + [r])[..|rs|] == rs;
  }

  lemma SpanGrow(start: int, end: int)
    requires start <= end
    ensures Span(RowRange(start, end)) + [end + 1] == Span(RowRange(start, end + 1))
  {
  }

  lemma {:induction false} ExpandHolds(rs: seq<RowRange>, row: int)
    ensures row in Expand(rs) <==> Covers(rs, row)
  {
    if rs != [] {
      var front, last := rs[..|rs| - 1], rs[|rs| - 1];
      ExpandHolds(front, row);
      assert row in Span(last) <==> Holds(last, row) by {
        if Holds(last, row) {
          assert Span(last)[row - last.start] == row;
        }
      }
      if Covers(front, row) {
        var k :| 0 <= k < |front| && Holds(front[k], row);
        assert Holds(rs[k], row);
      }
      if Covers(rs, row) {
        var k :| 0 <= k < |rs| && Holds(rs[k], row);
        assert k < |front| ==> Holds(front[k], row);
      }
    }
  }

  /** `ranges` followed by the open range hold exactly the indexes seen so far. */
  ghost predicate Built(ranges: seq<RowRange>, open: RowRange, seen: seq<int>) {
    && seen != [] && open.end == seen[|seen| - 1]
    && Canonical(ranges + [open]) && Expand(ranges + [open]) == seen
    && Bounded(ranges + [open])
  }

  ghost predicate Bounded(rs: seq<RowRange>) {
    forall k | 0 <= k < |rs| :: LONG_MIN < rs[k].start && rs[k].end <= LONG_MAX
  }

  lemma BuiltFirst(idx: int)
    requires LONG_MIN < idx <= LONG_MAX
    ensures Built([], RowRange(idx, idx), [idx])
  {
    var open := RowRange(idx, idx);
    assert [] + [open] == [open];
    ExpandAppend([], open);
    assert Span(open) == [idx];
  }

  lemma BuiltGrow(ranges: seq<RowRange>, open: RowRange, seen: seq<int>)
    requires Built(ranges, open, seen) && open.end < LONG_MAX
    ensures Built(ranges, RowRange(open.start, open.end + 1), seen + [open.end + 1])
  {
    hide Expand;
    var rs := ranges + [open];
    assert rs[|ranges|] == open;
    ExpandAppend(ranges, open);
    SpanGrow(open.start, open.end);
    ExpandAppend(ranges, RowRange(open.start, open.end + 1));
    var grown := ranges + [RowRange(open.start, open.end + 1)];
    assert forall k | 0 <= k < |grown| :: grown[k].start == rs[k].start;
    assert forall k | 0 <= k < |grown| - 1 :: grown[k] == rs[k];
  }

  lemma BuiltGap(ranges: seq<RowRange>, open: RowRange, seen: seq<int>, idx: int)
    requires Built(ranges, open, seen) && open.end + 1 < idx <= LONG_MAX
    ensures Built(ranges + [open], RowRange(idx, idx), seen + [idx])
  {
    var rs := ranges + [open];
    assert rs[|ranges|] == open;
    ExpandAppend(rs, RowRange(idx, idx));
    assert Span(RowRange(idx, idx)) == [idx];
  }

  /** The ranges are exactly the maximal runs of consecutive indexes, in order. */
  method ConstructRanges(rowIndexes: seq<int>) returns (ranges: seq<RowRange>)
    requires Increasing(rowIndexes)
    requires forall k | 0 <= k < |rowIndexes| :: LONG_MIN < rowIndexes[k] <= LONG_MAX
    ensures Canonical(ranges) && Expand(ranges) == rowIndexes && Bounded(ranges)
  {
    hide Canonical, Expand;
    ranges := [];
    var currentStart := LONG_MIN;
    var previous := LONG_MIN;
    var next := 0;
    while next < |rowIndexes|
      invariant 0 <= next <= |rowIndexes|
      invariant next == 0 ==> ranges == [] && currentStart == previous == LONG_MIN
      invariant next > 0 ==> previous == rowIndexes[next - 1] && currentStart > LONG_MIN
      invariant next > 0 ==> Built(ranges, RowRange(currentStart, previous), rowIndexes[..next])
    {
      var idx := rowIndexes[next];
      assert rowIndexes[..next + 1] == rowIndexes[..next] + [idx];
      if currentStart == LONG_MIN {
        BuiltFirst(idx);
        currentStart := idx;
      } else if previous + 1 != idx {
        BuiltGap(ranges, RowRange(currentStart, previous), rowIndexes[..next], idx);
        ranges := ranges + [RowRange(currentStart, previous)];
        currentStart := idx;
      } else {
        BuiltGrow(ranges, RowRange(currentStart, previous), rowIndexes[..next]);
      }
      previous := idx;
      next := next + 1;
    }
    assert rowIndexes[..next] == rowIndexes;
    if previous != LONG_MIN {
      ranges := ranges + [RowRange(currentStart, previous)];
    } else {
      NothingBuilt();
    }
  }

  lemma NothingBuilt()
    ensures Canonical([]) && Expand([]) == []
  {
  }

  // ---- no shorter list of ranges has the same rows

  function UpTo(n: nat): set<int> { if n == 0 then {} else UpTo(n - 1) + {n - 1} }

  lemma {:induction false} UpToCount(n: nat)
    ensures |UpTo(n)| == n && forall i :: i in UpTo(n) <==> 0 <= i < n
  {
    if n > 0 {
      UpToCount(n - 1);
    }
  }

  lemma {:induction false} DistinctCount(ws: seq<int>)
    requires forall j, k | 0 <= j < k < |ws| :: ws[j] != ws[k]
    ensures |set w | w in ws| == |ws|
  {
    if ws != [] {
      var n := |ws| - 1;
      DistinctCount(ws[..n]);
      assert (set w | w in ws) == (set w | w in ws[..n]) + {ws[n]};
    }
  }

  ghost predicate SameRows(rs: seq<RowRange>, others: seq<RowRange>) {
    forall row :: Covers(rs, row) <==> Covers(others, row)
  }

  /** For each of the first `n` ranges, the index of an interval of `others` holding its start. */
  lemma {:induction false} Homes(rs: seq<RowRange>, others: seq<RowRange>, n: nat) returns (ws: seq<int>)
    requires Canonical(rs) && SameRows(rs, others) && n <= |rs|
    ensures |ws| == n
    ensures forall k | 0 <= k < n :: 0 <= ws[k] < |others| && Holds(others[ws[k]], rs[k].start)
  {
    if n == 0 {
      ws := [];
    } else {
      ws := Homes(rs, others, n - 1);
      assert Holds(rs[n - 1], rs[n - 1].start);
      assert Covers(others, rs[n - 1].start);
      var w :| 0 <= w < |others| && Holds(others[w], rs[n - 1].start);
      ws := ws + [w];
    }
  }

  lemma GapUncovered(rs: seq<RowRange>, j: nat, k: nat)
    requires Canonical(rs) && j < k < |rs|
    ensures !Covers(rs, rs[j].end + 1)
  {
    forall m | 0 <= m < |rs| ensures !Holds(rs[m], rs[j].end + 1) {
      assert m < j ==> rs[m].end + 1 < rs[j].start;
      assert m > j ==> rs[j].end + 1 < rs[m].start;
    }
  }

  lemma NoSharedHome(rs: seq<RowRange>, others: seq<RowRange>, j: nat, k: nat, w: nat)
    requires Canonical(rs) && SameRows(rs, others) && j < k < |rs| && w < |others|
    ensures !Holds(others[w], rs[j].start) || !Holds(others[w], rs[k].start)
  {
    GapUncovered(rs, j, k);
    assert !Holds(others[w], rs[j].end + 1) by {
      assert !Covers(others, rs[j].end + 1);
    }
  }

  /** Any list of intervals, in any order and overlapping or not, that has the same rows is at least as long. */
  lemma RangesMinimal(rs: seq<RowRange>, others: seq<RowRange>)
    requires Canonical(rs) && SameRows(rs, others)
    ensures |rs| <= |others|
  {
    var ws := Homes(rs, others, |rs|);
    forall j, k | 0 <= j < k < |ws| ensures ws[j] != ws[k] {
      NoSharedHome(rs, others, j, k, ws[j]);
    }
    DistinctCount(ws);
    UpToCount(|others|);
    var used := set w | w in ws;
    assert used <= UpTo(|others|);
    assert |UpTo(|others|) - used| == |UpTo(|others|)| - |used|;
  }

  lemma CoversTail(live: seq<RowRange>, i: int)
    requires live != [] && live[0].end < i
    ensures Covers(live, i) <==> Covers(live[1..], i)
  {
    if Covers(live, i) {
      var k :| 0 <= k < |live| && Holds(live[k], i);
      assert Holds(live[1..][k - 1], i);
    }
    if Covers(live[1..], i) {
      var k :| 0 <= k < |live[1..]| && Holds(live[1..][k], i);
      assert Holds(live[k + 1], i);
    }
  }

  lemma RangesSelect(ids: seq<int>, ranges: seq<RowRange>)
    requires Canonical(ranges) && Expand(ranges) == ids
    ensures forall i :: i in ids <==> Covers(ranges, i)
  {
    forall i ensures i in ids <==> Covers(ranges, i) {
      ExpandHolds(ranges, i);
    }
  }

  lemma FirstRange(ranges: seq<RowRange>)
    requires Canonical(ranges) && ranges != []
    ensures ranges[0] != END_ROW_RANGE
  {
  }

  lemma AllRowsRange()
    ensures Canonical([MAX_ROW_RANGE])
  {
  }

  class ParquetReadState {
    /** The ranges the iterator has not handed out yet; None when there are no row indexes. */
    var rowRanges: Option<seq<RowRange>>
    var currentRange: RowRange
    const maxDefinitionLevel: int
    var rowId: int
    var offset: int
    var valuesToReadInPage: int
    var valuesToReadInBatch: int
    ghost const filter: RowFilter

    /** The ranges that can still select a row. */
    ghost function Live(): seq<RowRange>
      reads this
    {
      match rowRanges
      case None => [MAX_ROW_RANGE]
      case Some(rest) => if currentRange == END_ROW_RANGE then [] else [currentRange] + rest
    }

    /** No wanted row from `row` on has been given up. */
    ghost predicate ValidFrom(row: int)
      reads this
    {
      && Canonical(Live())
      && (filter.AllRows? <==> rowRanges.None?)
      && (rowRanges.None? ==> currentRange == MAX_ROW_RANGE)
      && (rowRanges.Some? && currentRange == END_ROW_RANGE ==> rowRanges == Some([]))
      && (filter.Only? ==> forall i | row <= i :: filter.Wants(i) <==> Covers(Live(), i))
    }

    ghost predicate Valid()
      reads this
    {
      ValidFrom(rowId)
    }

    constructor (maxLevel: int, rowIndexes: Option<seq<int>>)
      requires rowIndexes.Some? ==> Increasing(rowIndexes.value)
      requires rowIndexes.Some? ==>
        forall k | 0 <= k < |rowIndexes.value| :: LONG_MIN < rowIndexes.value[k] <= LONG_MAX
      ensures Valid() && maxDefinitionLevel == maxLevel && rowId == 0 && valuesToReadInPage == 0
      ensures valuesToReadInBatch == 0 && offset == 0
      ensures filter == FilterOf(rowIndexes)
    {
      hide Expand, Canonical, Covers, Bounded;
      maxDefinitionLevel := maxLevel;
      filter := FilterOf(rowIndexes);
      rowId, offset, valuesToReadInPage, valuesToReadInBatch := 0, 0, 0, 0;
      rowRanges := None;
      new;
      if rowIndexes.Some? {
        var ranges := ConstructRanges(rowIndexes.value);
        rowRanges := Some(ranges);
        RangesSelect(rowIndexes.value, ranges);
      }
      ghost var ranges := rowRanges;
      AllRowsRange();
      NextRange();
      if ranges.Some? && ranges.value != [] {
        FirstRange(ranges.value);
        assert Live() == [ranges.value[0]] + ranges.value[1..] == ranges.value;
      }
    }

    method ResetForNewBatch(batchSize: nat)
      modifies `offset, `valuesToReadInBatch
      ensures offset == 0 && valuesToReadInBatch == batchSize
    {
      offset := 0;
      valuesToReadInBatch := batchSize;
    }

    method ResetForNewPage(totalValuesInPage: nat, pageFirstRowIndex: int)
      modifies `valuesToReadInPage, `rowId
      ensures valuesToReadInPage == totalValuesInPage && rowId == pageFirstRowIndex
      ensures old(Valid()) && (filter.AllRows? || old(rowId) <= pageFirstRowIndex) ==> Valid()
    {
      valuesToReadInPage := totalValuesInPage;
      rowId := pageFirstRowIndex;
    }

    method AdvanceOffsetAndRowId(newOffset: int, newRowId: int)
      modifies `valuesToReadInBatch, `valuesToReadInPage, `offset, `rowId
      ensures offset == newOffset && rowId == newRowId
      ensures offset + valuesToReadInBatch == old(offset + valuesToReadInBatch)
      ensures rowId + valuesToReadInPage == old(rowId + valuesToReadInPage)
      ensures old(ValidFrom(newRowId)) ==> Valid()
    {
      valuesToReadInBatch := valuesToReadInBatch - (newOffset - offset);
      valuesToReadInPage := valuesToReadInPage - (newRowId - rowId);
      offset := newOffset;
      rowId := newRowId;
    }

    method NextRange()
      modifies `rowRanges, `currentRange
      ensures match old(rowRanges)
        case None => rowRanges == None && currentRange == MAX_ROW_RANGE
        case Some(rest) =>
          if rest == [] then rowRanges == Some([]) && currentRange == END_ROW_RANGE
          else rowRanges == Some(rest[1..]) && currentRange == rest[0]
    {
      match rowRanges
      case None => currentRange := MAX_ROW_RANGE;
      case Some(rest) =>
        if |rest| == 0 {
          currentRange := END_ROW_RANGE;
        } else {
          currentRange := rest[0];
          rowRanges := Some(rest[1..]);
        }
    }

    /** Moving to the next range once the current one has ended below `row` gives up no wanted row from there on. */
    twostate lemma RangePassed(row: int)
      requires old(ValidFrom(row)) && old(currentRange) != END_ROW_RANGE && old(currentRange.end) < row
      requires old(rowRanges).Some?
      requires var rest := old(rowRanges).value;
        if rest == [] then rowRanges == Some([]) && currentRange == END_ROW_RANGE
        else rowRanges == Some(rest[1..]) && currentRange == rest[0]
      ensures ValidFrom(row) && Live() == old(Live())[1..]
    {
      var live := old(Live());
      assert Live() == live[1..] by {
        assert |live| > 1 ==> live[1] == currentRange && live[1].start <= live[1].end;
      }
      forall i | row <= i ensures Covers(live, i) <==> Covers(live[1..], i) {
        CoversTail(live, i);
      }
    }

    /** Rows before the current range are wanted by no range. */
    lemma BeforeRange(row: int, n: nat)
      requires ValidFrom(row) && LONG_MIN <= row && row + n <= currentRange.start
      ensures forall i | row <= i < row + n :: !filter.Wants(i)
    {
      if filter.Only? {
        forall i | row <= i < row + n ensures !Covers(Live(), i) {
          var live := Live();
          forall k | 0 <= k < |live| ensures !Holds(live[k], i) {
            assert k > 0 ==> live[0].end + 1 < live[k].start;
          }
        }
      }
    }

    /** Rows in the current range are wanted. */
    lemma InsideRange(row: int, lo: int, hi: int)
      requires ValidFrom(row) && row <= lo && currentRange.start <= lo && hi <= currentRange.end + 1
      requires currentRange != END_ROW_RANGE
      ensures forall i | lo <= i < hi :: filter.Wants(i)
    {
      if filter.Only? {
        forall i | lo <= i < hi ensures filter.Wants(i) {
          assert Holds(Live()[0], i);
          assert Covers(Live(), i);
        }
      }
    }

    lemma LaterRow(row: int, later: int)
      requires ValidFrom(row) && row <= later
      ensures ValidFrom(later)
    {
    }

    lemma RangeInOrder(row: int)
      requires ValidFrom(row)
      ensures currentRange != END_ROW_RANGE ==> currentRange.start <= currentRange.end
    {
      assert currentRange != END_ROW_RANGE ==> currentRange == Live()[0];
    }
  }
}
