/** Rows, and how a reader of limited capacity divides row groups into batches. */
module Batches {
  import opened Numbers
  import opened Columns

  /** One cell per column. */
  type Row = seq<Cell>

  /** The first `n` rows of a table given by its columns. */
  function Table(cols: seq<seq<Cell>>, n: nat): (rows: seq<Row>)
    requires forall i | 0 <= i < |cols| :: n <= |cols[i]|
    ensures |rows| == n && forall j | 0 <= j < n :: |rows[j]| == |cols|
    ensures forall j, i | 0 <= j < n && 0 <= i < |cols| :: rows[j][i] == cols[i][j]
  {
    seq(n, j requires 0 <= j < n => seq(|cols|, i requires 0 <= i < |cols| => cols[i][j]))
  }

  function Tops(cols: seq<seq<Cell>>, n: nat): (r: seq<seq<Cell>>)
    requires forall i | 0 <= i < |cols| :: n <= |cols[i]|
    ensures |r| == |cols| && forall i | 0 <= i < |r| :: r[i] == cols[i][..n]
  {
    seq(|cols|, i requires 0 <= i < |cols| => cols[i][..n])
  }

  function Bottoms(cols: seq<seq<Cell>>, n: nat): (r: seq<seq<Cell>>)
    requires forall i | 0 <= i < |cols| :: n <= |cols[i]|
    ensures |r| == |cols| && forall i | 0 <= i < |r| :: r[i] == cols[i][n..]
  {
    seq(|cols|, i requires 0 <= i < |cols| => cols[i][n..])
  }

  lemma TableSplit(cols: seq<seq<Cell>>, n: nat, m: nat)
    requires forall i | 0 <= i < |cols| :: n + m <= |cols[i]|
    ensures Table(cols, n + m) == Table(Tops(cols, n), n) + Table(Bottoms(cols, n), m)
  {
    var split := Table(Tops(cols, n), n) + Table(Bottoms(cols, n), m);
    forall j | 0 <= j < n + m ensures Table(cols, n + m)[j] == split[j] {
      if j >= n {
        assert split[j] == Table(Bottoms(cols, n), m)[j - n];
      }
      assert |split[j]| == |cols|;
      forall i | 0 <= i < |cols| ensures Table(cols, n + m)[j][i] == split[j][i] {
      }
    }
  }

  predicate RowsAccepted(rows: seq<Row>) {
    forall j | 0 <= j < |rows| :: Accepted(rows[j])
  }

  lemma RowAccepted(rows: seq<Row>, j: nat)
    requires RowsAccepted(rows) && j < |rows|
    ensures Accepted(rows[j])
  {
  }

  lemma PrefixAccepted(rows: seq<Row>, n: nat)
    requires n <= |rows|
    ensures RowsAccepted(rows) ==> RowsAccepted(rows[..n])
  {
  }

  lemma AcceptedByRow(cols: seq<seq<Cell>>, n: nat)
    requires forall i | 0 <= i < |cols| :: n <= |cols[i]|
    ensures RowsAccepted(Table(cols, n)) <==> forall i | 0 <= i < |cols| :: Accepted(cols[i][..n])
  {
    var rows := Table(cols, n);
    if RowsAccepted(rows) {
      forall i, j | 0 <= i < |cols| && 0 <= j < n ensures cols[i][..n][j] != Rejected {
        assert rows[j][i] != Rejected;
      }
    } else {
      var j :| 0 <= j < |rows| && !Accepted(rows[j]);
      var i :| 0 <= i < |rows[j]| && rows[j][i] == Rejected;
      assert cols[i][..n][j] == Rejected;
    }
  }

  /** What a batch of `n` rows takes off the rows left, and when all of it is accepted. */
  lemma TakeBatch(cols: seq<seq<Cell>>, n: nat, m: nat, later: seq<Row>)
    requires forall i | 0 <= i < |cols| :: n + m <= |cols[i]|
    ensures var top := Table(Tops(cols, n), n);
      && Table(cols, n + m) + later == top + (Table(Bottoms(cols, n), m) + later)
      && (Table(cols, n + m) + later)[..n] == top
      && (RowsAccepted(top) <==> forall i | 0 <= i < |cols| :: Accepted(cols[i][..n]))
  {
    hide Table, RowsAccepted, Accepted;
    TableSplit(cols, n, m);
    AcceptedByRow(Tops(cols, n), n);
    forall i | 0 <= i < |cols| ensures Tops(cols, n)[i][..n] == cols[i][..n] {
    }
  }

  function Concat<T>(parts: seq<seq<T>>): seq<T> {
    if parts == [] then [] else Concat(parts[..|parts| - 1]) + parts[|parts| - 1]
  }

  function Lengths<T>(parts: seq<seq<T>>): (ns: seq<nat>)
    ensures |ns| == |parts|
  {
    seq(|parts|, i requires 0 <= i < |parts| => |parts[i]|)
  }

  lemma ConcatMore<T>(parts: seq<seq<T>>, part: seq<T>)
    ensures Concat(parts + [part]) == Concat(parts) + part
    ensures Lengths(parts + [part]) == Lengths(parts) + [|part|]
  {
    assert (parts + [part])[..|parts|] == parts;
  }

  lemma AcceptedConcat(a: seq<Row>, b: seq<Row>)
    ensures RowsAccepted([]) && (|b| == 1 ==> (RowsAccepted(b) <==> Accepted(b[0])))
    ensures RowsAccepted(a + b) <==> RowsAccepted(a) && RowsAccepted(b)
  {
    if RowsAccepted(a + b) {
      forall j | 0 <= j < |b| ensures Accepted(b[j]) {
        assert b[j] == (a + b)[|a| + j];
      }
      forall j | 0 <= j < |a| ensures Accepted(a[j]) {
        assert a[j] == (a + b)[j];
      }
    }
  }

  function Total(ns: seq<nat>): nat {
    if ns == [] then 0 else ns[0] + Total(ns[1..])
  }

  // ---- the sizes of the batches

  /**
   The sizes of the batches to come, with `left` rows of a row group still to read and row groups of
   the given sizes after it: a batch takes as much of its row group as fits.
   */
  function Plan(capacity: nat, left: nat, groups: seq<nat>): (sizes: seq<nat>)
    requires capacity > 0
    decreases |groups|, left
  {
    if left > 0 then [Min(capacity, left)] + Plan(capacity, left - Min(capacity, left), groups)
    else if groups == [] then []
    else Plan(capacity, groups[0], groups[1..])
  }

  lemma PlanHead(capacity: nat, left: nat, groups: seq<nat>)
    requires capacity > 0
    ensures left > 0 ==>
      Plan(capacity, left, groups)
        == [Min(capacity, left)] + Plan(capacity, left - Min(capacity, left), groups)
    ensures left == 0 && groups == [] ==> Plan(capacity, left, groups) == []
    ensures left == 0 && groups != [] ==> Plan(capacity, left, groups) == Plan(capacity, groups[0], groups[1..])
  {
  }

  /** Batches are neither empty nor over capacity, and together have all the rows. */
  lemma {:induction false} PlanIsFull(capacity: nat, left: nat, groups: seq<nat>)
    requires capacity > 0
    ensures var sizes := Plan(capacity, left, groups);
      Total(sizes) == left + Total(groups) && forall i | 0 <= i < |sizes| :: 0 < sizes[i] <= capacity
    decreases |groups|, left
  {
    if left > 0 {
      PlanIsFull(capacity, left - Min(capacity, left), groups);
    } else if groups != [] {
      PlanIsFull(capacity, groups[0], groups[1..]);
    }
  }

  /** No batch straddles a row group: the plan of the groups is the plans of each group put together. */
  lemma {:induction false} PlanByGroup(capacity: nat, left: nat, groups: seq<nat>)
    requires capacity > 0
    ensures Plan(capacity, left, groups) == Plan(capacity, left, []) + Plan(capacity, 0, groups)
    decreases left
  {
    if left > 0 {
      PlanByGroup(capacity, left - Min(capacity, left), groups);
    } else {
      assert Plan(capacity, 0, []) == [];
    }
  }

  function CeilDiv(n: nat, d: nat): nat
    requires d > 0
  {
    (n + d - 1) / d
  }

  /** The least number of batches of `d` rows that hold `n` rows. */
  lemma CeilDivExact(n: nat, d: nat)
    requires d > 0
    ensures d * (CeilDiv(n, d) - 1) < n <= d * CeilDiv(n, d)
  {
    var q, r := (n + d - 1) / d, (n + d - 1) % d;
    assert n + d - 1 == d * q + r && d * (q - 1) == d * q - d;
  }

  function Ceilings(groups: seq<nat>, capacity: nat): nat
    requires capacity > 0
  {
    if groups == [] then 0 else CeilDiv(groups[0], capacity) + Ceilings(groups[1..], capacity)
  }

  lemma CeilDivStep(n: nat, d: nat)
    requires d > 0 && n > 0
    ensures CeilDiv(n, d) == 1 + CeilDiv(n - Min(d, n), d)
  {
    if n >= d {
      var q, r := (n - 1) / d, (n - 1) % d;
      assert n + d - 1 == r + d * (q + 1);
      DivModUnique(q + 1, r, d);
    } else {
      DivModUnique(1, n - 1, d);
      DivModUnique(0, d - 1, d);
    }
  }

  lemma NoCeiling(d: nat)
    requires d > 0
    ensures CeilDiv(0, d) == 0
  {
    DivModUnique(0, d - 1, d);
  }

  /** A row group of n rows takes the ceiling of n / capacity batches. */
  lemma {:induction false} PlanCount(capacity: nat, left: nat, groups: seq<nat>)
    requires capacity > 0
    ensures |Plan(capacity, left, groups)| == CeilDiv(left, capacity) + Ceilings(groups, capacity)
    decreases |groups|, left
  {
    if left > 0 {
      CeilDivStep(left, capacity);
      PlanCount(capacity, left - Min(capacity, left), groups);
    } else {
      NoCeiling(capacity);
      if groups != [] {
        PlanCount(capacity, groups[0], groups[1..]);
      }
    }
  }
}
