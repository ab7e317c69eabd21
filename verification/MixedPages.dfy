/**
 Batches over pages of both kinds. Where decoding is lazy, a dictionary page attaches its dictionary to
 the whole batch, so that slots filled by a plain page before it are read through whatever ids the
 vector still holds there. This module says what a batch then shows, and when that is what it should.
 */
module MixedPages {
  import opened Numbers
  import opened Columns
  import opened ReadState
  import opened Rows
  import opened Pages

  /** The wanted cells of a page that are still to be delivered. */
  datatype Part = Part(dictionary: bool, cells: seq<Cell>)

  function Parts(k: Column, pages: seq<DataPage>, f: RowFilter): (parts: seq<Part>)
    requires k.t.GetUpdater().Some? && forall i | 0 <= i < |pages| :: k.Readable(pages[i])
    ensures |parts| == |pages|
  {
    if pages == [] then []
    else
      [Part(pages[0].IsDictionary(), Picked(k.PageRows(pages[0]), pages[0].First(), f, 0, pages[0].valueCount))]
      + Parts(k, pages[1..], f)
  }

  function Flat(parts: seq<Part>): (cs: seq<Cell>) {
    if parts == [] then [] else parts[0].cells + Flat(parts[1..])
  }

  /** Which of the cells come from plain pages. */
  function Plains(parts: seq<Part>): (ps: seq<bool>)
    ensures |ps| == |Flat(parts)|
  {
    if parts == [] then [] else Flags(parts[0]) + Plains(parts[1..])
  }

  function Flags(part: Part): (ps: seq<bool>)
    ensures |ps| == |part.cells| && forall i | 0 <= i < |ps| :: ps[i] == !part.dictionary
  {
    seq(|part.cells|, _ => !part.dictionary)
  }

  lemma {:induction false} PartsAreChunk(k: Column, pages: seq<DataPage>, f: RowFilter)
    requires k.t.GetUpdater().Some? && forall i | 0 <= i < |pages| :: k.Readable(pages[i])
    ensures Flat(Parts(k, pages, f)) == Chunk(k, pages, f)
    decreases |pages|
  {
    hide Column.Readable, Column.PageRows, Picked;
    if pages != [] {
      PartsAreChunk(k, pages[1..], f);
      var part := Part(pages[0].IsDictionary(), Picked(k.PageRows(pages[0]), pages[0].First(), f, 0,
                                                       pages[0].valueCount));
      assert Parts(k, pages, f) == [part] + Parts(k, pages[1..], f);
    }
  }

  /**
   Where a batch ends: slots below `attached` have been under an attached dictionary, those below
   `decoded` have then been given the values of their ids; `rest` is what is left of the pages.
   */
  datatype Outcome = Outcome(attached: nat, decoded: nat, rest: seq<Part>)

  /** A batch of `total` slots played over the parts, from slot `at` on. */
  function Play(parts: seq<Part>, at: nat, total: nat, attached: nat, decoded: nat): Outcome
    decreases |parts|
  {
    if at >= total then Outcome(attached, decoded, parts)
    else if parts == [] then Outcome(attached, decoded, [])
    else
      var part, end := parts[0], at + |parts[0].cells|;
      var attached' := if part.dictionary then Min(end, total) else attached;
      var decoded' := if part.dictionary then decoded else attached;
      if end >= total
      then Outcome(attached', decoded', [Part(part.dictionary, part.cells[total - at..])] + parts[1..])
      else Play(parts[1..], end, total, attached', decoded')
  }

  /** Reading `n` cells of the first part: all of them, or as many as fill the batch. */
  lemma PlayStep(part: Part, rest: seq<Part>, at: nat, total: nat, attached: nat, decoded: nat, n: nat)
    requires at < total && n <= |part.cells| && at + n <= total && (at + n == total || n == |part.cells|)
    ensures Play([part] + rest, at, total, attached, decoded)
      == Play([Part(part.dictionary, part.cells[n..])] + rest, at + n, total,
              if part.dictionary then at + n else attached, if part.dictionary then decoded else attached)
  {
    var parts, after := [part] + rest, [Part(part.dictionary, part.cells[n..])] + rest;
    assert parts[1..] == rest && after[1..] == rest;
  }

  /** A part with nothing left makes no difference once its turn is over. */
  lemma PlaySpent(part: Part, rest: seq<Part>, at: nat, total: nat, attached: nat, decoded: nat)
    requires at < total && part.cells == []
    requires if part.dictionary then attached == at else decoded == attached
    ensures Play([part] + rest, at, total, attached, decoded) == Play(rest, at, total, attached, decoded)
  {
    assert ([part] + rest)[1..] == rest;
  }

  lemma {:induction false} PlayGrows(parts: seq<Part>, at: nat, total: nat, attached: nat, decoded: nat)
    requires decoded <= attached <= at <= total
    ensures var end := Play(parts, at, total, attached, decoded);
      attached <= end.attached <= total && decoded <= end.decoded <= end.attached
    ensures at < total && parts != [] && !parts[0].dictionary ==>
      attached <= Play(parts, at, total, attached, decoded).decoded
    decreases |parts|
  {
    if at < total && parts != [] && at + |parts[0].cells| < total {
      var end := at + |parts[0].cells|;
      if parts[0].dictionary {
        PlayGrows(parts[1..], end, total, end, decoded);
      } else {
        PlayGrows(parts[1..], end, total, attached, attached);
      }
    }
  }

  /** A batch to be read: its cells and those after it, which come from plain pages, and the ids the vector holds. */
  datatype Goal = Goal(cells: seq<Cell>, plains: seq<bool>, stale: seq<Value>, total: nat, end: Outcome)
  {
    predicate Sound() {
      total <= |cells| == |plains| && total <= |stale|
    }

    /**
     What slot `i` reads as when the slots below `attached` are under the dictionary: a value from a
     plain page is lost to the meaning of the id left in its slot.
     */
    function Shown(k: Column, attached: nat, i: nat): Cell
      requires Sound() && i < total && k.t.GetUpdater().Some?
    {
      if Lost(k, attached, i) then k.Meaning(Val(stale[i])) else cells[i]
    }

    predicate Lost(k: Column, attached: nat, i: nat)
      requires Sound() && i < total
    {
      && k.dictionary.Some? && k.t.IsLazyDecodingSupported()
      && i < attached && plains[i] && cells[i] != Null
    }

    predicate AllShown(k: Column, attached: nat, upTo: nat)
      requires Sound() && upTo <= total && k.t.GetUpdater().Some?
    {
      forall i: nat | i < upTo :: Shown(k, attached, i) != Rejected
    }

    /** The batch does not throw: its cells convert, and so do the ids that are decoded before a plain page. */
    predicate Succeeds(k: Column)
      requires Sound() && k.t.GetUpdater().Some?
    {
      Accepted(cells[..total]) && AllShown(k, end.decoded, total)
    }

    /** No plain page has delivered a value to the batch before a dictionary page takes its turn. */
    predicate Undisturbed()
      requires Sound()
    {
      forall i: nat | i < total && i < end.attached :: !plains[i] || cells[i] == Null
    }
  }

  /**
   A batch that is undisturbed, or decoded at once, shows its cells, and throws exactly when one of them does
   not convert.
   */
  lemma UndisturbedShows(g: Goal, k: Column)
    requires g.Sound() && k.t.GetUpdater().Some? && g.end.decoded <= g.end.attached
    requires k.t.IsLazyDecodingSupported() ==> g.Undisturbed()
    ensures forall i: nat | i < g.total :: g.Shown(k, g.end.attached, i) == g.cells[i]
    ensures g.Succeeds(k) <==> Accepted(g.cells[..g.total])
  {
    forall i: nat | i < g.total ensures g.Shown(k, g.end.decoded, i) == g.cells[i] {
    }
    if Accepted(g.cells[..g.total]) {
      forall i: nat | i < g.total ensures g.Shown(k, g.end.decoded, i) != Rejected {
        assert g.cells[..g.total][i] != Rejected;
      }
    }
  }

  predicate Ids(vs: seq<Value>) {
    forall i | 0 <= i < |vs| :: vs[i].IntVal? && vs[i].n >= 0
  }

  predicate ShowsWith(g: Goal, k: Column, stale: seq<Value>)
    requires g.Sound() && k.t.GetUpdater().Some? && |stale| >= g.total
  {
    forall i: nat | i < g.total :: g.(stale := stale).Shown(k, g.end.attached, i) == g.cells[i]
  }

  /**
   A batch shows its cells exactly when each lost value is the meaning of the id in its slot; and it does so
   whatever ids the vector holds exactly when it is undisturbed.
   */
  lemma ShowsExactlyWhen(g: Goal, k: Column)
    requires g.Sound() && k.t.GetUpdater().Some? && k.dictionary.Some? && k.t.IsLazyDecodingSupported()
    requires Accepted(g.cells[..g.total])
    ensures (forall i: nat | i < g.total :: g.Shown(k, g.end.attached, i) == g.cells[i])
      <==> forall i: nat | i < g.total && g.Lost(k, g.end.attached, i) :: k.Meaning(Val(g.stale[i])) == g.cells[i]
    ensures (forall stale: seq<Value> | |stale| >= g.total && Ids(stale) :: ShowsWith(g, k, stale)) <==> g.Undisturbed()
  {
    if forall stale: seq<Value> | |stale| >= g.total && Ids(stale) :: ShowsWith(g, k, stale) {
      // ids that a chunk with a larger dictionary may have left
      var none := seq(g.total, _ => IntVal(|k.dictionary.value|));
      assert ShowsWith(g, k, none);
      forall i: nat | i < g.total && i < g.end.attached ensures !g.plains[i] || g.cells[i] == Null {
        assert g.(stale := none).Shown(k, g.end.attached, i) == g.cells[i] == g.cells[..g.total][i];
      }
    }
  }

  // ---- chunks

  /** In batches of these sizes, none is disturbed. */
  predicate Orderly(parts: seq<Part>, sizes: seq<nat>)
    decreases |sizes|
  {
    sizes == []
    || (Calm(parts, sizes[0]) && Orderly(Play(parts, 0, sizes[0], 0, 0).rest, sizes[1..]))
  }

  predicate Calm(parts: seq<Part>, total: nat) {
    var attached := Play(parts, 0, total, 0, 0).attached;
    forall i: nat | i < attached && i < total && i < |Flat(parts)| :: !Plains(parts)[i] || Flat(parts)[i] == Null
  }

  predicate DictionaryFirst(parts: seq<Part>) {
    forall j, k | 0 <= j < k < |parts| :: parts[k].dictionary ==> parts[j].dictionary
  }

  predicate NoPlainBelow(parts: seq<Part>, at: nat, bound: nat) {
    forall j: nat | j < |Flat(parts)| && at + j < bound :: !Plains(parts)[j]
  }

  /** Dictionary pages before plain ones: no batch is disturbed, whatever the sizes. */
  lemma {:induction false} DictionaryFirstIsOrderly(parts: seq<Part>, sizes: seq<nat>)
    requires DictionaryFirst(parts)
    ensures Orderly(parts, sizes)
    decreases |sizes|
  {
    if sizes != [] {
      DictionaryFirstIsCalm(parts, 0, sizes[0], 0, 0);
      assert Calm(parts, sizes[0]) by {
        assert NoPlainBelow(parts, 0, Play(parts, 0, sizes[0], 0, 0).attached);
      }
      DictionaryFirstIsOrderly(Play(parts, 0, sizes[0], 0, 0).rest, sizes[1..]);
    }
  }

  lemma {:induction false} DictionaryFirstIsCalm(parts: seq<Part>, at: nat, total: nat, attached: nat, decoded: nat)
    requires DictionaryFirst(parts) && attached <= at
    ensures var end := Play(parts, at, total, attached, decoded);
      DictionaryFirst(end.rest) && NoPlainBelow(parts, at, end.attached)
    ensures parts != [] && !parts[0].dictionary ==> Play(parts, at, total, attached, decoded).attached == attached
    decreases |parts|
  {
    if at < total && parts != [] {
      var part, end := parts[0], at + |parts[0].cells|;
      if end >= total {
        var left := [Part(part.dictionary, part.cells[total - at..])] + parts[1..];
        assert forall j | 1 <= j < |left| :: left[j] == parts[j];
      } else {
        var attached' := if part.dictionary then end else attached;
        assert forall j | 0 <= j < |parts[1..]| :: parts[1..][j] == parts[j + 1];
        DictionaryFirstIsCalm(parts[1..], end, total, attached', if part.dictionary then decoded else attached);
        assert !part.dictionary && parts[1..] != [] ==> !parts[1].dictionary;
      }
      var last := Play(parts, at, total, attached, decoded).attached;
      forall j: nat | j < |Flat(parts)| && at + j < last ensures !Plains(parts)[j] {
        if j < |part.cells| {
          assert Plains(parts)[j] == Flags(part)[j];
        } else {
          assert Plains(parts)[j] == Plains(parts[1..])[j - |part.cells|];
        }
      }
    }
  }
}
