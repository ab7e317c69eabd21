/**
 The specification of a chunk against a second one: with row indexes, what the chunk delivers is,
 index by index, the row found by looking the index up in the pages; without them, all rows in order.
 Pages of either version with the same levels and values hold the same rows.
 */
module Selection {
  import opened Numbers
  import opened Hybrid
  import opened Columns
  import opened ReadState
  import opened Rows
  import opened Pages

  /** The row with index `row`, in whichever page has it. */
  function RowAt(k: Column, pages: seq<DataPage>, row: int): Option<Cell>
    requires k.t.GetUpdater().Some? && forall i | 0 <= i < |pages| :: k.Readable(pages[i])
  {
    if pages == [] then None
    else if pages[0].First() <= row < pages[0].First() + pages[0].valueCount
    then Some(k.PageRows(pages[0])[row - pages[0].First()])
    else RowAt(k, pages[1..], row)
  }

  /** How many of the indexes are below `x`. */
  function Below(ids: seq<int>, x: int): (n: nat)
    ensures n <= |ids|
  {
    if ids == [] then 0 else Below(ids[..|ids| - 1], x) + if ids[|ids| - 1] < x then 1 else 0
  }

  lemma {:induction false} BelowSplits(ids: seq<int>, x: int)
    requires Increasing(ids)
    ensures forall i | 0 <= i < |ids| :: ids[i] < x <==> i < Below(ids, x)
  {
    if ids != [] {
      BelowSplits(ids[..|ids| - 1], x);
    }
  }

  lemma {:induction false} BelowIs(ids: seq<int>, x: int, n: nat)
    requires Increasing(ids) && n <= |ids|
    requires (n > 0 ==> ids[n - 1] < x) && (n < |ids| ==> ids[n] >= x)
    ensures Below(ids, x) == n
  {
    if ids != [] {
      BelowIs(ids[..|ids| - 1], x, if n == |ids| then n - 1 else n);
    }
  }

  lemma BelowStep(ids: seq<int>, x: int)
    requires Increasing(ids)
    ensures Below(ids, x + 1) == Below(ids, x) + if x in ids then 1 else 0
    ensures x in ids ==> Below(ids, x) < |ids| && ids[Below(ids, x)] == x
  {
    hide Below;
    BelowSplits(ids, x);
    var a := Below(ids, x);
    if a < |ids| && ids[a] == x {
      BelowIs(ids, x + 1, a + 1);
    } else {
      BelowIs(ids, x + 1, a);
      forall j | 0 <= j < |ids| ensures ids[j] != x {
        assert j > a ==> ids[j] > ids[a];
      }
    }
  }

  /** `picked` are the rows of the indexes at positions a..b, all of which lie in the page's first `hi` rows. */
  ghost predicate Window(rows: seq<Cell>, first: int, ids: seq<int>, a: nat, b: nat, hi: nat, picked: seq<Cell>) {
    && a <= b <= |ids| && |picked| == b - a && hi <= |rows|
    && forall i | a <= i < b :: first <= ids[i] < first + hi && picked[i - a] == rows[ids[i] - first]
  }

  /** Picking from a page by an increasing list of indexes takes the indexes of the page in order. */
  lemma {:induction false} PickedAt(rows: seq<Cell>, first: int, ids: seq<int>, hi: nat)
    requires Increasing(ids) && hi <= |rows|
    ensures Window(rows, first, ids, Below(ids, first), Below(ids, first + hi), hi,
                   Picked(rows, first, Only(ids), 0, hi))
    decreases hi
  {
    hide Below;
    if hi > 0 {
      PickedAt(rows, first, ids, hi - 1);
      BelowStep(ids, first + (hi - 1));
      assert first + hi == first + (hi - 1) + 1;
    }
  }

  lemma {:induction false} LaterRowAt(k: Column, pages: seq<DataPage>, ids: seq<int>, from: int, row: int)
    requires k.t.GetUpdater().Some? && forall i | 0 <= i < |pages| :: k.Readable(pages[i])
    requires InRowOrder(pages, Only(ids), from) && row < from
    ensures RowAt(k, pages, row) == None
    decreases |pages|
  {
    if pages != [] {
      LaterRowAt(k, pages[1..], ids, pages[0].First() + pages[0].valueCount, row);
    }
  }

  lemma {:induction false} ChunkAtFrom(k: Column, pages: seq<DataPage>, ids: seq<int>, from: int)
    requires k.t.GetUpdater().Some? && forall i | 0 <= i < |pages| :: k.Readable(pages[i])
    requires Increasing(ids) && InRowOrder(pages, Only(ids), from)
    requires forall i | 0 <= i < |ids| :: ids[i] >= from ==> RowAt(k, pages, ids[i]).Some?
    ensures Delivers(k, pages, ids, Below(ids, from), Chunk(k, pages, Only(ids)))
    decreases |pages|
  {
    hide Column.Readable, Column.PageRows, Below, Picked, Chunk, RowAt, Delivers;
    BelowSplits(ids, from);
    if pages == [] {
      RowAtNowhere(k, pages);
      BelowIs(ids, from, |ids|);
      NothingDelivered(k, pages, ids);
    } else {
      var page, rest := pages[0], pages[1..];
      var first, end := page.First(), page.First() + page.valueCount;
      var a, b := Below(ids, from), Below(ids, end);
      BelowSplits(ids, end);
      // no index lies before the page: it would be in no page
      if a < |ids| && ids[a] < first {
        LaterRowAt(k, pages, ids, first, ids[a]);
        assert false;
      }
      BelowIs(ids, first, a);
      PickedAt(k.PageRows(page), first, ids, page.valueCount);
      forall i | 0 <= i < |ids| && ids[i] >= end ensures RowAt(k, rest, ids[i]).Some? {
        RowAtStep(k, pages, ids[i]);
      }
      ChunkAtFrom(k, rest, ids, end);
      DeliverMore(k, pages, ids, a, b);
    }
  }

  /** `c` holds the rows of the indexes from position `a` on. */
  ghost predicate Delivers(k: Column, pages: seq<DataPage>, ids: seq<int>, a: nat, c: seq<Cell>)
    requires k.t.GetUpdater().Some? && forall i | 0 <= i < |pages| :: k.Readable(pages[i])
  {
    && a <= |ids| && |c| == |ids| - a
    && forall i | 0 <= i < |c| :: RowAt(k, pages, ids[a + i]) == Some(c[i])
  }

  lemma RowAtNowhere(k: Column, pages: seq<DataPage>)
    requires k.t.GetUpdater().Some? && pages == []
    ensures forall row :: RowAt(k, pages, row) == None
  {
  }

  lemma RowAtStep(k: Column, pages: seq<DataPage>, row: int)
    requires k.t.GetUpdater().Some? && pages != [] && forall i | 0 <= i < |pages| :: k.Readable(pages[i])
    ensures var first, end := pages[0].First(), pages[0].First() + pages[0].valueCount;
      RowAt(k, pages, row)
        == if first <= row < end then Some(k.PageRows(pages[0])[row - first]) else RowAt(k, pages[1..], row)
  {
  }

  lemma NothingDelivered(k: Column, pages: seq<DataPage>, ids: seq<int>)
    requires k.t.GetUpdater().Some? && pages == []
    ensures Delivers(k, pages, ids, |ids|, Chunk(k, pages, Only(ids)))
  {
  }

  lemma DeliverMore(k: Column, pages: seq<DataPage>, ids: seq<int>, a: nat, b: nat)
    requires k.t.GetUpdater().Some? && pages != [] && forall i | 0 <= i < |pages| :: k.Readable(pages[i])
    requires a <= b <= |ids| && Increasing(ids)
    requires Window(k.PageRows(pages[0]), pages[0].First(), ids, a, b, pages[0].valueCount,
                    Picked(k.PageRows(pages[0]), pages[0].First(), Only(ids), 0, pages[0].valueCount))
    requires forall i | b <= i < |ids| :: ids[i] >= pages[0].First() + pages[0].valueCount
    requires Delivers(k, pages[1..], ids, b, Chunk(k, pages[1..], Only(ids)))
    ensures Delivers(k, pages, ids, a, Chunk(k, pages, Only(ids)))
  {
    hide Column.Readable, Column.PageRows, RowAt, Picked, Increasing;
    var picked := Picked(k.PageRows(pages[0]), pages[0].First(), Only(ids), 0, pages[0].valueCount);
    var rest := Chunk(k, pages[1..], Only(ids));
    var c := Chunk(k, pages, Only(ids));
    assert c == picked + rest;
    forall i | 0 <= i < |c| ensures RowAt(k, pages, ids[a + i]) == Some(c[i]) {
      RowAtStep(k, pages, ids[a + i]);
      if i >= b - a {
        assert c[i] == rest[i - (b - a)] && ids[a + i] == ids[b + (i - (b - a))];
      }
    }
  }

  /** Each wanted index yields its own row, in order, and nothing else is delivered. */
  lemma ChunkIsLookup(k: Column, pages: seq<DataPage>, ids: seq<int>)
    requires k.t.GetUpdater().Some? && forall i | 0 <= i < |pages| :: k.Readable(pages[i])
    requires Increasing(ids) && InRowOrder(pages, Only(ids), 0) && forall i | 0 <= i < |ids| :: ids[i] >= 0
    requires forall i | 0 <= i < |ids| :: RowAt(k, pages, ids[i]).Some?
    ensures |Chunk(k, pages, Only(ids))| == |ids|
    ensures forall i | 0 <= i < |ids| :: Some(Chunk(k, pages, Only(ids))[i]) == RowAt(k, pages, ids[i])
  {
    hide Column.Readable, Column.PageRows, Picked, Chunk, RowAt, Below;
    BelowIs(ids, 0, 0);
    ChunkAtFrom(k, pages, ids, 0);
    forall i | 0 <= i < |ids| ensures Some(Chunk(k, pages, Only(ids))[i]) == RowAt(k, pages, ids[i]) {
      assert ids[0 + i] == ids[i];
    }
  }

  function AllRowsOf(k: Column, pages: seq<DataPage>): seq<Cell>
    requires k.t.GetUpdater().Some? && forall i | 0 <= i < |pages| :: k.Readable(pages[i])
  {
    if pages == [] then [] else k.PageRows(pages[0]) + AllRowsOf(k, pages[1..])
  }

  lemma {:induction false} ChunkIsEverything(k: Column, pages: seq<DataPage>)
    requires k.t.GetUpdater().Some? && forall i | 0 <= i < |pages| :: k.Readable(pages[i])
    ensures Chunk(k, pages, AllRows) == AllRowsOf(k, pages)
    decreases |pages|
  {
    if pages != [] {
      hide Column.Readable, Column.PageRows, Picked;
      assert k.PageRows(pages[0])[0..pages[0].valueCount] == k.PageRows(pages[0]);
      PickedAll(k.PageRows(pages[0]), pages[0].First(), AllRows, 0, pages[0].valueCount);
      ChunkIsEverything(k, pages[1..]);
    }
  }

  // ---- page versions

  /** The V1 page with the given level and value bytes: one stream, the levels behind their length. */
  function AsV1(k: Column, count: nat, first: Option<nat>, e: Encoding, levels: seq<byte>, data: seq<byte>): DataPage
    requires |levels| < TWO_31
  {
    DataPageV1(count, first, RLE, e, if k.max == 0 then data else ToLittleEndian(|levels|, 4) + levels + data)
  }

  /** The V2 page: levels and values apart. */
  function AsV2(count: nat, first: Option<nat>, e: Encoding, levels: seq<byte>, data: seq<byte>): DataPage {
    DataPageV2(count, first, e, levels, data)
  }

  lemma V1Splits(k: Column, count: nat, first: Option<nat>, e: Encoding, levels: seq<byte>, data: seq<byte>)
    requires |levels| < TWO_31
    ensures var v1 := AsV1(k, count, first, e, levels, data);
      k.Splits(v1) && k.ValueBytes(v1) == data && (k.max != 0 ==> k.LevelBytes(v1) == levels)
  {
    if k.max != 0 {
      hide Pow, FromLittleEndian, ToLittleEndian;
      var prefix := ToLittleEndian(|levels|, 4);
      PowOf256();
      LittleEndianRoundTrip(|levels|, 4);
      ThreeParts(prefix, levels, data);
    }
  }

  /** A page is read alike in both versions, with or without levels. */
  lemma PageVersionsAgree(k: Column, count: nat, first: Option<nat>, e: Encoding, levels: seq<byte>, data: seq<byte>)
    requires k.t.GetUpdater().Some? && |levels| < TWO_31
    ensures var v1, v2 := AsV1(k, count, first, e, levels, data), AsV2(count, first, e, levels, data);
      && (k.Readable(v1) <==> k.Readable(v2))
      && (k.Readable(v1) ==> k.PageRows(v1) == k.PageRows(v2))
  {
    V1Splits(k, count, first, e, levels, data);
    var v1, v2 := AsV1(k, count, first, e, levels, data), AsV2(count, first, e, levels, data);
    assert k.Stored(v1) == k.Stored(v2);
  }
}
