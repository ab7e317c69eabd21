/** What the slots of a batch hold while pages of both kinds are read into it, and how dictionaries come and go. */
module Slots {
  import opened Numbers
  import opened Columns
  import opened Rows
  import opened ColumnTypes
  import opened Pages
  import opened MixedPages
  import U = Updaters

  /** What reading slot `i` gives: through the dictionary if one is attached, directly otherwise. */
  function View(t: SparkType, column: ColumnVector, i: nat): Cell
    requires i < |column.isNull| && i < |column.cells|
    requires column.dictionary.Some? ==> column.dictionaryIds != null
    reads column, column.dictionaryIds
  {
    if column.isNull[i] then Null
    else match column.dictionary
      case None => Val(column.cells[i])
      case Some(d) =>
        var ids := column.dictionaryIds.cells;
        if i < |ids| && ids[i].IntVal? && 0 <= ids[i].n < |d.entries|
        then LazyGet(t, d.needTransform, d.entries[ids[i].n]) else Rejected
  }

  /** Slots lo..hi have their null flags, and ids that mean what the slots are to show. */
  predicate IdsHold(k: Column, ids: seq<Value>, isNull: seq<bool>, lo: nat, hi: nat, g: Goal, attached: nat)
    requires k.dictionary.Some? && k.t.GetUpdater().Some?
  {
    && g.Sound() && hi <= |ids| && hi <= |isNull| && hi <= g.total && NullsMatch(isNull, hi, g)
    && forall i: nat | lo <= i < hi :: isNull[i] || g.Shown(k, attached, i) == k.Meaning(Val(ids[i]))
  }

  /** Slots lo..hi have their null flags, and values that are what the slots are to show. */
  predicate ValuesHold(k: Column, cells: seq<Value>, isNull: seq<bool>, lo: nat, hi: nat, g: Goal, attached: nat)
    requires k.t.GetUpdater().Some?
  {
    && g.Sound() && hi <= |cells| && hi <= |isNull| && hi <= g.total && NullsMatch(isNull, hi, g)
    && forall i: nat | lo <= i < hi :: isNull[i] || g.Shown(k, attached, i) == Val(cells[i])
  }

  predicate NullsMatch(isNull: seq<bool>, hi: nat, g: Goal)
    requires g.Sound() && hi <= |isNull| && hi <= g.total
  {
    forall i | 0 <= i < hi :: isNull[i] == g.cells[i].Null?
  }

  /** Slots filled from dictionary pages have the ids of their cells; the others have what was left in them. */
  predicate IdsKnown(k: Column, ids: seq<Value>, off: nat, g: Goal)
    requires k.dictionary.Some? && k.t.GetUpdater().Some? && g.Sound() && g.total <= |ids|
  {
    forall i: nat | i < g.total ::
      if i < off && !g.plains[i] then g.cells[i] == Null || g.cells[i] == k.Meaning(Val(ids[i]))
      else ids[i] == g.stale[i]
  }

  /** Every value from a plain page has come under the dictionary. */
  predicate Covered(g: Goal, off: nat, attached: nat)
    requires g.Sound() && off <= g.total
  {
    forall i: nat | i < off && g.plains[i] && g.cells[i] != Null :: i < attached
  }

  ghost predicate HasIds(column: ColumnVector, total: nat)
    reads column, column.dictionaryIds
  {
    && column.dictionaryIds != null && column.dictionaryIds != column
    && total <= |column.dictionaryIds.cells| == |column.dictionaryIds.isNull|
  }

  /**
   The first `off` slots of a batch. Ids are known throughout. With no dictionary attached every slot has
   its value. An attached dictionary is the reader's own, except at the very start, when it may be left
   over from the batch before; it then covers all slots.
   */
  ghost predicate Filling(k: Column, column: ColumnVector, off: int, g: Goal, attached: nat, decoded: nat)
    reads column, column.dictionaryIds
    requires k.t.GetUpdater().Some?
  {
    && g.Sound() && 0 <= off <= g.total && g.total <= |column.cells| && g.total <= |column.isNull|
    && NoNulls(column.isNull, off, g.total) && NullsMatch(column.isNull, off, g)
    && (k.dictionary.Some? ==> HasIds(column, g.total) && IdsKnown(k, column.dictionaryIds.cells, off, g))
    && (column.dictionary.None? ==> ValuesHold(k, column.cells, column.isNull, 0, off, g, attached))
    && (column.dictionary.Some? ==> k.t.IsLazyDecodingSupported())
    && (column.dictionary.Some? && off > 0 ==>
          && k.dictionary.Some? && column.dictionary == Some(Dictionary(k.dictionary.value, k.t.NeedTransform()))
          && Covered(g, off, attached))
    && decoded <= attached <= off && Accepted(g.cells[..off]) && g.AllShown(k, decoded, off)
  }

  lemma FillingRoom(k: Column, column: ColumnVector, off: int, g: Goal, attached: nat, decoded: nat)
    requires k.t.GetUpdater().Some? && Filling(k, column, off, g, attached, decoded)
    ensures g.Sound() && 0 <= off <= g.total && g.total <= |column.cells| && g.total <= |column.isNull|
    ensures NoNulls(column.isNull, off, g.total) && NullsMatch(column.isNull, off, g)
    ensures decoded <= attached <= off && Accepted(g.cells[..off]) && g.AllShown(k, decoded, off)
    ensures k.dictionary.Some? ==> HasIds(column, g.total) && IdsKnown(k, column.dictionaryIds.cells, off, g)
    ensures column.dictionary.None? ==> ValuesHold(k, column.cells, column.isNull, 0, off, g, attached)
    ensures column.dictionary.Some? ==> k.t.IsLazyDecodingSupported()
  {
  }

  /** Under the own dictionary the ids mean what the slots are to show. */
  lemma IdsUnderDictionary(k: Column, ids: seq<Value>, isNull: seq<bool>, off: nat, g: Goal, attached: nat)
    requires k.t.GetUpdater().Some? && k.dictionary.Some? && k.t.IsLazyDecodingSupported()
    requires g.Sound() && off <= g.total && g.total <= |ids| && off <= |isNull| && NullsMatch(isNull, off, g)
    requires IdsKnown(k, ids, off, g) && Covered(g, off, attached)
    ensures IdsHold(k, ids, isNull, 0, off, g, attached)
  {
    hide Column.Meaning;
  }

  /**
   `decodeDictionaryIds`: the non-null slots of `total` slots from `offset` on get the values of
   their ids. It throws at the first id whose value does not convert.
   */
  method DecodeDictionaryIds(k: Column, total: nat, offset: nat, column: ColumnVector, ids: ColumnVector,
                             ghost g: Goal, ghost attached: nat)
    returns (ok: bool)
    requires k.dictionary.Some? && k.t.GetUpdater().Some? && column != ids
    requires IdsHold(k, ids.cells, column.isNull, offset, offset + total, g, attached)
    requires offset + total <= |column.cells|
    modifies column`cells
    ensures ok <==> forall i: nat | offset <= i < offset + total :: g.Shown(k, attached, i) != Rejected
    ensures |column.cells| == |old(column.cells)|
    ensures forall i | 0 <= i < |column.cells| && !(offset <= i < offset + total) ::
      column.cells[i] == old(column.cells)[i]
    ensures ok ==> ValuesHold(k, column.cells, column.isNull, offset, offset + total, g, attached)
  {
    hide DecodeId, Goal.Lost;
    for i := offset to offset + total
      invariant |column.cells| == |old(column.cells)|
      invariant forall j | 0 <= j < |column.cells| && !(offset <= j < i) :: column.cells[j] == old(column.cells)[j]
      invariant ValuesHold(k, column.cells, column.isNull, offset, i, g, attached)
      invariant forall j: nat | offset <= j < i :: g.Shown(k, attached, j) != Rejected
    {
      if !column.isNull[i] {
        ok := U.DecodeSingleDictionaryId(k.U(), i, column, ids.cells[i], k.dictionary.value);
        assert g.Shown(k, attached, i) == k.Meaning(Val(ids.cells[i]));
        if !ok {
          return;
        }
      } else {
        NullShown(g, k, attached, i);
      }
    }
    ok := true;
  }

  lemma NullShown(g: Goal, k: Column, attached: nat, i: nat)
    requires g.Sound() && i < g.total && g.cells[i] == Null && k.t.GetUpdater().Some?
    ensures g.Shown(k, attached, i) == Null
  {
  }

  /**
   Before a plain page is read, slots that hold dictionary ids get their values and the dictionary is
   detached. It throws where an id below does not convert, be it a lost slot's.
   */
  method DetachDictionary(k: Column, off: nat, column: ColumnVector, ghost g: Goal, ghost attached: nat,
                          ghost decoded: nat)
    returns (ok: bool)
    requires k.t.GetUpdater().Some? && Filling(k, column, off, g, attached, decoded)
    modifies column`cells, column`dictionary
    ensures ok <==> g.AllShown(k, attached, off)
    ensures ok ==> column.dictionary == None && |column.cells| == |old(column.cells)|
    ensures ok ==> ValuesHold(k, column.cells, column.isNull, 0, off, g, attached)
  {
    ok := true;
    if column.dictionary.Some? && off != 0 {
      // the batch holds dictionary-encoded slots and cannot mix them with plain ones
      IdsUnderDictionary(k, column.dictionaryIds.cells, column.isNull, off, g, attached);
      ok := DecodeDictionaryIds(k, off, 0, column, column.dictionaryIds, g, attached);
      if !ok {
        return;
      }
    } else {
      forall i: nat | i < off ensures g.Shown(k, attached, i) != Rejected {
        if g.cells[i] == Null {
          NullShown(g, k, attached, i);
        }
      }
    }
    column.dictionary := None;
  }

  /** What a plain page has put into the slots behind `off`. */
  lemma FilledByPlain(k: Column, column: ColumnVector, off: nat, out: seq<Cell>, g: Goal, attached: nat,
                      cells0: seq<Value>, isNull0: seq<bool>)
    requires k.t.GetUpdater().Some? && column.dictionary == None && g.Sound()
    requires off + |out| <= g.total && g.total <= |cells0| && g.total <= |isNull0| && NoNulls(isNull0, off, g.total)
    requires k.dictionary.Some? ==> HasIds(column, g.total) && IdsKnown(k, column.dictionaryIds.cells, off, g)
    requires ValuesHold(k, cells0, isNull0, 0, off, g, attached) && attached <= off
    requires Accepted(g.cells[..off]) && g.AllShown(k, attached, off)
    requires Filled(column.cells, column.isNull, off, out) && Accepted(out)
    requires SameOutside(cells0, column.cells, isNull0, column.isNull, off, off + |out|)
    requires g.cells[off..off + |out|] == out && forall i | off <= i < off + |out| :: g.plains[i]
    ensures Filling(k, column, off + |out|, g, attached, attached)
  {
    hide Column.Meaning;
    var end := off + |out|;
    AcceptedMore(g.cells, off, out);
    forall i: nat | off <= i < end
      ensures column.isNull[i] == g.cells[i].Null? && g.Shown(k, attached, i) == g.cells[i] == out[i - off]
      ensures column.isNull[i] || g.Shown(k, attached, i) == Val(column.cells[i])
    {
      assert g.cells[off..end][i - off] == g.cells[i];
    }
    forall i: nat | i < off
      ensures column.isNull[i] == g.cells[i].Null?
      ensures column.isNull[i] || g.Shown(k, attached, i) == Val(column.cells[i])
    {
      assert column.cells[i] == cells0[i] && column.isNull[i] == isNull0[i];
    }
  }

  lemma AcceptedMore(target: seq<Cell>, off: nat, out: seq<Cell>)
    requires off + |out| <= |target| && Accepted(target[..off]) && Accepted(out) && target[off..off + |out|] == out
    ensures Accepted(target[..off + |out|])
  {
    assert target[..off + |out|] == target[..off] + out;
  }

  /** A dictionary that cannot be detached makes the batch fail. */
  lemma DetachFails(g: Goal, k: Column, off: nat, attached: nat)
    requires g.Sound() && off <= g.total && k.t.GetUpdater().Some? && attached <= g.end.decoded
    requires Accepted(g.cells[..off]) && !g.AllShown(k, attached, off)
    ensures !g.Succeeds(k)
  {
    var i: nat :| i < off && g.Shown(k, attached, i) == Rejected;
    assert g.cells[..off][i] != Rejected;
    assert g.Shown(k, g.end.decoded, i) == Rejected;
  }

  lemma CellFails(g: Goal, k: Column, off: nat, out: nat)
    requires g.Sound() && off + out <= g.total && k.t.GetUpdater().Some? && !Accepted(g.cells[off..off + out])
    ensures !g.Succeeds(k)
  {
    var i :| 0 <= i < out && g.cells[off..off + out][i] == Rejected;
    assert g.cells[..g.total][off + i] == Rejected;
  }

  /** What a dictionary page has put into the ids behind `off`; slots below are as they were. */
  lemma IdsFilled(k: Column, ids0: seq<Value>, ids1: seq<Value>, isNull0: seq<bool>, isNull1: seq<bool>,
                  off: nat, out: seq<Cell>, g: Goal)
    requires k.dictionary.Some? && k.t.GetUpdater().Some? && g.Sound() && off + |out| <= g.total
    requires g.total <= |ids0| && IdsKnown(k, ids0, off, g)
    requires g.total <= |isNull0| && NullsMatch(isNull0, off, g) && NoNulls(isNull0, off, g.total)
    requires Filled(ids1, isNull1, off, out) && SameOutside(ids0, ids1, isNull0, isNull1, off, off + |out|)
    requires g.cells[off..off + |out|] == k.Meanings(out)
    requires forall i | off <= i < off + |out| :: !g.plains[i]
    ensures |ids1| == |ids0| && |isNull1| == |isNull0| && NoNulls(isNull1, off + |out|, g.total)
    ensures IdsKnown(k, ids1, off + |out|, g) && NullsMatch(isNull1, off + |out|, g)
  {
    hide DecodeId;
    forall i: nat | off <= i < off + |out|
      ensures isNull1[i] == g.cells[i].Null? && (g.cells[i] == Null || g.cells[i] == k.Meaning(Val(ids1[i])))
    {
      assert g.cells[off..off + |out|][i - off] == g.cells[i] == k.Meaning(out[i - off]);
    }
    forall i: nat | i < g.total && !(off <= i < off + |out|) ensures ids1[i] == ids0[i] && isNull1[i] == isNull0[i] {
    }
  }

  /** Filling later slots leaves the values of the earlier ones. */
  lemma ValuesKept(k: Column, cells: seq<Value>, ids0: seq<Value>, ids1: seq<Value>, isNull0: seq<bool>,
                   isNull1: seq<bool>,
                   off: nat, hi: nat, g: Goal, attached: nat)
    requires k.t.GetUpdater().Some? && ValuesHold(k, cells, isNull0, 0, off, g, attached)
    requires SameOutside(ids0, ids1, isNull0, isNull1, off, hi)
    ensures ValuesHold(k, cells, isNull1, 0, off, g, attached)
  {
  }

  /** Where decoding is lazy, the ids of a page never make it throw. */
  lemma LazyMeanings(k: Column, out: seq<Cell>)
    requires k.Sound() && k.dictionary.Some? && k.t.IsLazyDecodingSupported() && k.IdsInRange(out) && Accepted(out)
    ensures Accepted(k.Meanings(out))
  {
    forall i | 0 <= i < |out| ensures k.Meanings(out)[i] != Rejected {
      if out[i].Val? {
        LazyIsEager(k.t, k.dictionary.value[out[i].value.n]);
      }
    }
  }

  /** The getter through the attached dictionary gives the meaning of the id, and throws where there is none. */
  lemma ViewIsMeaning(k: Column, column: ColumnVector, i: nat)
    requires k.Sound() && k.dictionary.Some? && k.t.IsLazyDecodingSupported()
    requires i < |column.isNull| && i < |column.cells| && !column.isNull[i]
    requires column.dictionaryIds != null && i < |column.dictionaryIds.cells|
    requires column.dictionary == Some(Dictionary(k.dictionary.value, k.t.NeedTransform()))
    ensures View(k.t.sparkType, column, i) == k.Meaning(Val(column.dictionaryIds.cells[i]))
  {
    var id := column.dictionaryIds.cells[i];
    if id.IntVal? && 0 <= id.n < |k.dictionary.value| {
      LazyIsEager(k.t, k.dictionary.value[id.n]);
    }
  }

  /** Values decoded before, and those of a page just decoded at once. */
  lemma ValuesBoth(k: Column, cells0: seq<Value>, cells1: seq<Value>, isNull: seq<bool>, mid: nat, hi: nat,
                   g: Goal, attached: nat)
    requires k.t.GetUpdater().Some? && attached <= mid <= hi
    requires ValuesHold(k, cells0, isNull, 0, mid, g, attached)
    requires ValuesHold(k, cells1, isNull, mid, hi, g, hi)
    requires |cells1| == |cells0| && forall i | 0 <= i < mid :: cells1[i] == cells0[i]
    requires k.t.IsLazyDecodingSupported() ==> mid == 0
    ensures ValuesHold(k, cells1, isNull, 0, hi, g, hi)
  {
    hide Column.Meaning;
    forall i: nat | i < mid ensures g.Shown(k, hi, i) == g.Shown(k, attached, i) {
    }
  }

  /**
   The end of a turn on a dictionary page, whose ids are in place: the dictionary is attached, and with it
   come all slots of the batch so far; or the new slots are decoded at once.
   */
  method AttachOrDecode(k: Column, startOffset: nat, offset: nat, startsPage: bool, column: ColumnVector,
                        ids: ColumnVector,
                        ghost g: Goal, ghost attached: nat, ghost decoded: nat)
    returns (ok: bool)
    requires k.Sound() && k.dictionary.Some? && g.Sound() && startOffset <= offset <= g.total
    requires g.total <= |column.cells| && g.total <= |column.isNull|
    requires HasIds(column, g.total) && ids == column.dictionaryIds && IdsKnown(k, ids.cells, offset, g)
    requires NoNulls(column.isNull, offset, g.total) && NullsMatch(column.isNull, offset, g)
    requires forall i | startOffset <= i < offset :: !g.plains[i]
    requires column.dictionary.None? ==> ValuesHold(k, column.cells, column.isNull, 0, startOffset, g, attached)
    requires column.dictionary.Some? ==> k.t.IsLazyDecodingSupported()
    requires decoded <= attached <= startOffset && Accepted(g.cells[..startOffset])
    requires g.AllShown(k, decoded, startOffset)
    requires k.t.IsLazyDecodingSupported() ==> Accepted(g.cells[startOffset..offset])
    requires startOffset == 0 || startsPage
    modifies column`cells, column`dictionary
    ensures !ok ==> !g.Succeeds(k)
    ensures ok ==> Filling(k, column, offset, g, offset, decoded) && |column.cells| == |old(column.cells)|
  {
    hide Column.Meaning, IdsKnown, NoNulls, NullsMatch, Accepted, Goal.AllShown, ValuesHold, IdsHold, Goal.Shown;
    ok := true;
    if column.dictionary.Some? || (startsPage && k.t.IsLazyDecodingSupported()) {
      column.dictionary := Some(Dictionary(k.dictionary.value, k.t.NeedTransform()));
    } else {
      ghost var cells0 := column.cells;
      NewIds(k, ids.cells, column.isNull, startOffset, offset, g);
      ok := DecodeDictionaryIds(k, offset - startOffset, startOffset, column, ids, g, offset);
      NewShown(k, g, startOffset, offset, offset);
      if !ok {
        CellFails(g, k, startOffset, offset - startOffset);
        return;
      }
      ValuesBoth(k, cells0, column.cells, column.isNull, startOffset, offset, g, attached);
    }
    NewShown(k, g, startOffset, offset, decoded);
    AllAccepted(k, g, startOffset, offset, decoded);
  }

  /** The ids of a dictionary page mean its cells, whatever is attached. */
  lemma NewIds(k: Column, ids: seq<Value>, isNull: seq<bool>, lo: nat, hi: nat, g: Goal)
    requires k.t.GetUpdater().Some? && k.dictionary.Some? && g.Sound() && lo <= hi <= g.total && g.total <= |ids|
    requires hi <= |isNull| && IdsKnown(k, ids, hi, g) && NullsMatch(isNull, hi, g)
    requires forall i | lo <= i < hi :: !g.plains[i]
    ensures IdsHold(k, ids, isNull, lo, hi, g, hi)
  {
    hide Column.Meaning;
  }

  lemma NewShown(k: Column, g: Goal, lo: nat, hi: nat, attached: nat)
    requires k.t.GetUpdater().Some? && g.Sound() && lo <= hi <= g.total
    requires forall i | lo <= i < hi :: !g.plains[i]
    ensures Accepted(g.cells[lo..hi]) <==> forall i: nat | lo <= i < hi :: g.Shown(k, attached, i) != Rejected
  {
    if Accepted(g.cells[lo..hi]) {
      forall i: nat | lo <= i < hi ensures g.Shown(k, attached, i) != Rejected {
        assert g.cells[lo..hi][i - lo] != Rejected;
      }
    }
    if forall i: nat | lo <= i < hi :: g.Shown(k, attached, i) != Rejected {
      forall i | 0 <= i < hi - lo ensures g.cells[lo..hi][i] != Rejected {
        assert g.Shown(k, attached, lo + i) != Rejected;
      }
    }
  }

  lemma AllAccepted(k: Column, g: Goal, lo: nat, hi: nat, decoded: nat)
    requires k.t.GetUpdater().Some? && g.Sound() && lo <= hi <= g.total
    requires Accepted(g.cells[..lo]) && Accepted(g.cells[lo..hi]) && g.AllShown(k, decoded, lo)
    requires forall i: nat | lo <= i < hi :: g.Shown(k, decoded, i) != Rejected
    ensures Accepted(g.cells[..hi]) && g.AllShown(k, decoded, hi)
  {
    assert g.cells[..hi] == g.cells[..lo] + g.cells[lo..hi];
  }

  /** A full batch shows what the goal says, slot by slot. */
  lemma FullBatch(k: Column, column: ColumnVector, g: Goal, attached: nat, decoded: nat)
    requires k.Sound() && Filling(k, column, g.total, g, attached, decoded)
    ensures g.total > 0 && column.dictionary.Some? ==> column.dictionaryIds != null
    ensures forall i: nat | i < g.total :: View(k.t.sparkType, column, i) == g.Shown(k, attached, i)
  {
    hide Column.Meaning;
    if g.total > 0 && column.dictionary.Some? {
      IdsUnderDictionary(k, column.dictionaryIds.cells, column.isNull, g.total, g, attached);
    }
    forall i: nat | i < g.total ensures View(k.t.sparkType, column, i) == g.Shown(k, attached, i) {
      if column.isNull[i] {
        NullShown(g, k, attached, i);
      } else if column.dictionary.Some? {
        ViewIsMeaning(k, column, i);
      }
    }
  }
}
