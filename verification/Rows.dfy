/**
 What a page means: its rows, decoded from levels and values, and the rows a filter picks.
 This is the specification the readers are proved against.
 */
module Rows {
  import opened Columns
  import opened ReadState

  /** How many of the first `j` levels are the maximum. */
  function NonNulls(levels: seq<int>, max: int, j: nat): nat
    requires j <= |levels|
    decreases j
  {
    if j == 0 then 0 else NonNulls(levels, max, j - 1) + if levels[j - 1] == max then 1 else 0
  }

  lemma {:induction false} NonNullsMono(levels: seq<int>, max: int, i: nat, j: nat)
    requires i <= j <= |levels|
    ensures NonNulls(levels, max, i) <= NonNulls(levels, max, j)
    ensures i < j && levels[i] == max ==> NonNulls(levels, max, i) < NonNulls(levels, max, j)
    decreases j
  {
    if i < j {
      NonNullsMono(levels, max, i, j - 1);
      if i == j - 1 {
        assert NonNulls(levels, max, j) == NonNulls(levels, max, i) + if levels[i] == max then 1 else 0;
      }
    }
  }

  /** A stretch of equal levels has all of its rows non-null, or none. */
  lemma {:induction false} NonNullsRun(levels: seq<int>, max: int, i: nat, n: nat, v: int)
    requires i + n <= |levels| && forall k | i <= k < i + n :: levels[k] == v
    ensures NonNulls(levels, max, i + n) == NonNulls(levels, max, i) + if v == max then n else 0
    decreases n
  {
    if n > 0 {
      NonNullsRun(levels, max, i, n - 1, v);
    }
  }

  /**
   A page of a flat column: `count` rows from row index `first` on. The levels may go on after
   the last row, as a bit-packed run is padded to a multiple of eight.
   */
  datatype Page = Page(levels: seq<int>, values: seq<Cell>, max: int, first: int, count: nat)
  {
    /** Enough levels for the rows and enough values for the non-null ones. */
    predicate Complete() {
      count <= |levels| && NonNulls(levels, max, count) <= |values|
    }

    /** Row `j`: null, or the value whose rank is the number of non-null rows before it. */
    function Row(j: nat): Cell
      requires Complete() && j < count
    {
      NonNullsMono(levels, max, j, count);
      if levels[j] == max then values[NonNulls(levels, max, j)] else Null
    }

    function Rows(): (rows: seq<Cell>)
      requires Complete()
      ensures |rows| == count
    {
      seq(count, j requires 0 <= j < count => Row(j))
    }

    /** The values not consumed by the first `j` rows. */
    function ValuesFrom(j: nat): (cs: seq<Cell>)
      requires Complete() && j <= count
    {
      NonNullsMono(levels, max, j, count);
      values[NonNulls(levels, max, j)..]
    }
  }

  lemma ValuesStep(p: Page, c: nat)
    requires p.Complete() && c < p.count
    ensures p.levels[c] == p.max ==>
      |p.ValuesFrom(c)| > 0 && p.Row(c) == p.ValuesFrom(c)[0] && p.ValuesFrom(c + 1) == p.ValuesFrom(c)[1..]
    ensures p.levels[c] != p.max ==> p.Row(c) == Null && p.ValuesFrom(c + 1) == p.ValuesFrom(c)
  {
    NonNullsMono(p.levels, p.max, c, p.count);
  }

  /** Rows of a stretch of maximum levels are the next values; of any other level, nulls. */
  lemma ValuesRun(p: Page, c: nat, n: nat, v: int)
    requires p.Complete() && c + n <= p.count && forall k | c <= k < c + n :: p.levels[k] == v
    ensures v == p.max ==>
      && n <= |p.ValuesFrom(c)|
      && p.Rows()[c..c + n] == p.ValuesFrom(c)[..n] && p.ValuesFrom(c + n) == p.ValuesFrom(c)[n..]
    ensures v != p.max ==>
      p.ValuesFrom(c + n) == p.ValuesFrom(c) && forall k | c <= k < c + n :: p.Rows()[k] == Null
  {
    NonNullsRun(p.levels, p.max, c, n, v);
    NonNullsMono(p.levels, p.max, c + n, p.count);
    if v == p.max {
      forall k | 0 <= k < n ensures p.Rows()[c + k] == p.ValuesFrom(c)[k] {
        NonNullsRun(p.levels, p.max, c, k, v);
      }
    }
  }

  /** The rows lo..hi of a page that starts at row index `first`, as far as the filter wants them. */
  function Picked(rows: seq<Cell>, first: int, f: RowFilter, lo: nat, hi: nat): (cs: seq<Cell>)
    requires hi <= |rows|
    decreases hi
  {
    if hi <= lo then []
    else Picked(rows, first, f, lo, hi - 1) + if f.Wants(first + hi - 1) then [rows[hi - 1]] else []
  }

  lemma {:induction false} PickedSplit(rows: seq<Cell>, first: int, f: RowFilter, lo: nat, mid: nat, hi: nat)
    requires lo <= mid <= hi <= |rows|
    ensures Picked(rows, first, f, lo, hi) == Picked(rows, first, f, lo, mid) + Picked(rows, first, f, mid, hi)
    decreases hi
  {
    if mid < hi {
      PickedSplit(rows, first, f, lo, mid, hi - 1);
    }
  }

  lemma {:induction false} PickedNone(rows: seq<Cell>, first: int, f: RowFilter, lo: nat, hi: nat)
    requires lo <= hi <= |rows| && forall row | first + lo <= row < first + hi :: !f.Wants(row)
    ensures Picked(rows, first, f, lo, hi) == []
    decreases hi
  {
    if lo < hi {
      PickedNone(rows, first, f, lo, hi - 1);
      assert !f.Wants(first + (hi - 1));
    }
  }

  lemma {:induction false} PickedAll(rows: seq<Cell>, first: int, f: RowFilter, lo: nat, hi: nat)
    requires lo <= hi <= |rows| && forall row | first + lo <= row < first + hi :: f.Wants(row)
    ensures Picked(rows, first, f, lo, hi) == rows[lo..hi]
    decreases hi
  {
    if lo < hi {
      PickedAll(rows, first, f, lo, hi - 1);
      assert f.Wants(first + (hi - 1));
      assert rows[lo..hi] == rows[lo..hi - 1] + [rows[hi - 1]];
    }
  }

  lemma {:induction false} PickedAccepted(rows: seq<Cell>, first: int, f: RowFilter, lo: nat, hi: nat)
    requires hi <= |rows| && Accepted(rows)
    ensures Accepted(Picked(rows, first, f, lo, hi))
    decreases hi
  {
    if lo < hi {
      PickedAccepted(rows, first, f, lo, hi - 1);
    }
  }

  lemma PickedGrow(rows: seq<Cell>, first: int, f: RowFilter, lo: nat, c: nat, n: nat)
    requires lo <= c && c + n <= |rows|
    ensures (forall row | first + c <= row < first + c + n :: !f.Wants(row)) ==>
      Picked(rows, first, f, lo, c + n) == Picked(rows, first, f, lo, c)
    ensures (forall row | first + c <= row < first + c + n :: f.Wants(row)) ==>
      Picked(rows, first, f, lo, c + n) == Picked(rows, first, f, lo, c) + rows[c..c + n]
  {
    PickedSplit(rows, first, f, lo, c, c + n);
    if forall row | first + c <= row < first + c + n :: !f.Wants(row) {
      PickedNone(rows, first, f, c, c + n);
    }
    if forall row | first + c <= row < first + c + n :: f.Wants(row) {
      PickedAll(rows, first, f, c, c + n);
    }
  }

  /** Slots from `at` on hold `cs`: null flags where they are null, values elsewhere. */
  predicate Filled(cells: seq<Value>, isNull: seq<bool>, at: nat, cs: seq<Cell>) {
    && at + |cs| <= |cells| && at + |cs| <= |isNull|
    && forall k | 0 <= k < |cs| ::
         match cs[k]
         case Null => isNull[at + k]
         case Val(v) => !isNull[at + k] && cells[at + k] == v
         case Rejected => false
  }

  /** Nothing outside slots lo..hi differs. */
  predicate SameOutside(cells: seq<Value>, cells': seq<Value>, isNull: seq<bool>, isNull': seq<bool>, lo: int,
                        hi: int) {
    && |cells'| == |cells| && |isNull'| == |isNull|
    && (forall i | 0 <= i < |cells| && !(lo <= i < hi) :: cells'[i] == cells[i])
    && (forall i | 0 <= i < |isNull| && !(lo <= i < hi) :: isNull'[i] == isNull[i])
  }

  predicate NoNulls(isNull: seq<bool>, lo: nat, hi: nat)
    requires hi <= |isNull|
  {
    forall i | lo <= i < hi :: !isNull[i]
  }

  lemma FilledByWrite(cells: seq<Value>, isNull: seq<bool>, at: nat, cs: seq<Cell>)
    requires AllValues(cs) && at + |cs| <= |cells| && at + |cs| <= |isNull| && NoNulls(isNull, at, at + |cs|)
    ensures Filled(Write(cells, at, Payload(cs)), isNull, at, cs)
    ensures SameOutside(cells, Write(cells, at, Payload(cs)), isNull, isNull, at, at + |cs|)
  {
  }

  lemma FilledByNulls(cells: seq<Value>, isNull: seq<bool>, isNull': seq<bool>, at: nat, cs: seq<Cell>)
    requires at + |cs| <= |cells| && at + |cs| <= |isNull| == |isNull'|
    requires forall k | 0 <= k < |cs| :: cs[k] == Null
    requires forall i | 0 <= i < |isNull| :: isNull'[i] == (at <= i < at + |cs| || isNull[i])
    ensures Filled(cells, isNull', at, cs)
    ensures SameOutside(cells, cells, isNull, isNull', at, at + |cs|)
  {
  }

  /** One more cell after the filled ones. */
  lemma FilledOneMore(cells0: seq<Value>, cells: seq<Value>, cells': seq<Value>,
                      isNull0: seq<bool>, isNull: seq<bool>, isNull': seq<bool>, at: nat, cs: seq<Cell>, c: Cell)
    requires Filled(cells, isNull, at, cs) && at + |cs| < |cells| && at + |cs| < |isNull|
    requires SameOutside(cells0, cells, isNull0, isNull, at, at + |cs|)
    requires !isNull0[at + |cs|]
    requires match c
      case Null => cells' == cells && isNull' == isNull[at + |cs| := true]
      case Val(v) => cells' == cells[at + |cs| := v] && isNull' == isNull
      case Rejected => false
    ensures Filled(cells', isNull', at, cs + [c])
    ensures SameOutside(cells0, cells', isNull0, isNull', at, at + |cs| + 1)
  {
  }

  lemma FilledConcat(cells0: seq<Value>, cells1: seq<Value>, cells2: seq<Value>,
                     isNull0: seq<bool>, isNull1: seq<bool>, isNull2: seq<bool>, at: nat, a: seq<Cell>, b: seq<Cell>)
    requires Filled(cells1, isNull1, at, a) && SameOutside(cells0, cells1, isNull0, isNull1, at, at + |a|)
    requires Filled(cells2, isNull2, at + |a|, b)
    requires SameOutside(cells1, cells2, isNull1, isNull2, at + |a|, at + |a| + |b|)
    ensures Filled(cells2, isNull2, at, a + b)
    ensures SameOutside(cells0, cells2, isNull0, isNull2, at, at + |a + b|)
  {
  }
}
