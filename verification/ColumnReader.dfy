/** One column of a row group: pages in, batches of slots out. */
module ColumnReader {
  import opened Numbers
  import opened Hybrid
  import opened Columns
  import opened PlainReader
  import opened RleReader
  import opened ReadState
  import opened Rows
  import opened ColumnTypes
  import opened Pages
  import opened MixedPages
  import opened Slots
  import U = Updaters
  import L = LevelReader

  // ---- from pages to cells

  lemma PlainRows(k: Column, page: DataPage)
    requires k.t.GetUpdater().Some? && k.Readable(page)
    ensures k.Splits(page)
    ensures k.Stored(page).Complete() && k.Stored(page).max == k.max && k.Stored(page).first == page.First()
    ensures k.Stored(page).count == page.valueCount && page.First() + page.valueCount < LONG_MAX
    ensures !page.IsDictionary() ==> k.PageRows(page) == k.Stored(page).Rows()
    ensures page.IsDictionary() ==> k.dictionary.Some? && k.PageRows(page) == k.Meanings(k.Stored(page).Rows())
    ensures page.IsDictionary() ==> k.IdsInRange(k.Stored(page).Rows()) && Accepted(k.Stored(page).Rows())
  {
    if page.IsDictionary() {
      U.IdCells(k.Ids(page), 0);
      var p := k.Stored(page);
      forall j | 0 <= j < p.count ensures p.Rows()[j] != Rejected {
        NonNullsMono(p.levels, p.max, j, p.count);
        assert p.Rows()[j] == p.Row(j);
      }
    }
  }

  lemma ProgressOut(p: Page, f: RowFilter, c0: nat, c1: nat, at: nat, offset: int,
                    cells0: seq<Value>, cells: seq<Value>, isNull0: seq<bool>, isNull: seq<bool>)
    requires L.Progress(p, f, c0, c1, at, offset, cells0, cells, isNull0, isNull)
    ensures var out := Picked(p.Rows(), p.first, f, c0, c1);
      && offset == at + |out| && Accepted(out)
      && Filled(cells, isNull, at, out) && SameOutside(cells0, cells, isNull0, isNull, at, at + |out|)
    ensures |cells| == |cells0| && |isNull| == |isNull0| && c0 <= c1 <= p.count
  {
  }

  /** What is left of a page from its row `c` on. */
  function PartFrom(k: Column, page: DataPage, f: RowFilter, c: nat): Part
    requires k.t.GetUpdater().Some? && k.Readable(page)
  {
    Part(page.IsDictionary(), Picked(k.PageRows(page), page.First(), f, c, page.valueCount))
  }

  /** The rows that a call has delivered are the front of the page's part, and what it leaves is the rest of it. */
  lemma PickedFront(rows: seq<Cell>, first: int, f: RowFilter, c0: nat, c1: nat, count: nat)
    requires c0 <= c1 <= count <= |rows|
    ensures var part, n := Picked(rows, first, f, c0, count), |Picked(rows, first, f, c0, c1)|;
      && n <= |part| && part[..n] == Picked(rows, first, f, c0, c1) && part[n..] == Picked(rows, first, f, c1, count)
    ensures c1 == count ==> |Picked(rows, first, f, c0, c1)| == |Picked(rows, first, f, c0, count)|
  {
    PickedSplit(rows, first, f, c0, c1, count);
  }

  /** `n` more slots of a batch are filled from the first part. */
  lemma Advance(g: Goal, off: nat, part: Part, rest: seq<Part>, n: nat, attached: nat, decoded: nat)
    requires off < g.total && n <= |part.cells| && off + n <= g.total && (off + n == g.total || n == |part.cells|)
    requires |g.plains| == |g.cells| && off <= |g.cells|
    requires g.cells[off..] == Flat([part] + rest) && g.plains[off..] == Plains([part] + rest)
    requires Play([part] + rest, off, g.total, attached, decoded) == g.end
    ensures off + n <= |g.cells| && g.cells[off..off + n] == part.cells[..n]
    ensures forall i | off <= i < off + n :: g.plains[i] == !part.dictionary
    ensures var after := [Part(part.dictionary, part.cells[n..])] + rest;
      && g.cells[off + n..] == Flat(after) && g.plains[off + n..] == Plains(after)
      && Play(after, off + n, g.total, if part.dictionary then off + n else attached,
              if part.dictionary then decoded else attached) == g.end
  {
    hide Play;
    PlayStep(part, rest, off, g.total, attached, decoded, n);
    var parts, after := [part] + rest, [Part(part.dictionary, part.cells[n..])] + rest;
    assert parts[1..] == rest && after[1..] == rest;
    var cells, plains := g.cells[off..], g.plains[off..];
    assert cells == part.cells + Flat(rest) && plains == Flags(part) + Plains(rest);
    assert cells[n..] == g.cells[off + n..] && plains[n..] == g.plains[off + n..];
    assert Flags(part)[n..] == Flags(after[0]);
    forall i | off <= i < off + n ensures g.plains[i] == !part.dictionary {
      assert plains[i - off] == Flags(part)[i - off];
    }
  }

  /** The page behind a turn no longer matters. */
  lemma SpentFront(g: Goal, off: nat, spent: Part, parts: seq<Part>, attached: nat, decoded: nat)
    requires spent.cells == [] && off < g.total && off <= |g.cells| == |g.plains|
    requires if spent.dictionary then attached == off else decoded == attached
    requires g.cells[off..] == Flat([spent] + parts) && g.plains[off..] == Plains([spent] + parts)
    requires Play([spent] + parts, off, g.total, attached, decoded) == g.end
    ensures g.cells[off..] == Flat(parts) && g.plains[off..] == Plains(parts)
    ensures Play(parts, off, g.total, attached, decoded) == g.end
  {
    hide Play;
    PlaySpent(spent, parts, off, g.total, attached, decoded);
    assert ([spent] + parts)[1..] == parts;
    assert Flags(spent) + Plains(parts) == Plains(parts) && spent.cells + Flat(parts) == Flat(parts);
  }

  lemma NoParts(k: Column, pages: seq<DataPage>, f: RowFilter)
    requires k.t.GetUpdater().Some? && forall i | 0 <= i < |pages| :: k.Readable(pages[i])
    ensures pages == [] ==> Flat(Parts(k, pages, f)) == []
  {
  }

  lemma ThrowsInTarget(p: Page, f: RowFilter, c0: nat, owed: nat, rest: seq<Cell>, target: seq<Cell>, off: nat)
    requires L.Throws(p, f, c0, owed) && c0 <= p.count && off + owed <= |target|
    requires target[off..] == Picked(p.Rows(), p.first, f, c0, p.count) + rest
    ensures !Accepted(target[..off + owed])
  {
    var c: nat :| c0 <= c <= p.count && |Picked(p.Rows(), p.first, f, c0, c)| <= owed
      && !Accepted(Picked(p.Rows(), p.first, f, c0, c));
    PickedFront(p.Rows(), p.first, f, c0, c, p.count);
    var out, part := Picked(p.Rows(), p.first, f, c0, c), Picked(p.Rows(), p.first, f, c0, p.count);
    var i :| 0 <= i < |out| && out[i] == Rejected;
    assert target[off..][i] == part[i] == part[..|out|][i];
    assert target[..off + owed][off + i] == target[off..][i];
  }

  lemma FlatFront(part: Part, rest: seq<Part>)
    ensures Flat([part] + rest) == part.cells + Flat(rest)
  {
    assert ([part] + rest)[1..] == rest;
  }

  lemma CellsFail(g: Goal, k: Column)
    requires g.Sound() && k.t.GetUpdater().Some? && !Accepted(g.cells[..g.total])
    ensures !g.Succeeds(k)
  {
  }

  lemma IdsDoNotThrow(p: Page, f: RowFilter, c0: nat, owed: int)
    requires p.Complete() && Accepted(p.Rows())
    ensures !L.Throws(p, f, c0, owed)
  {
    forall c: nat | c0 <= c <= p.count ensures Accepted(Picked(p.Rows(), p.first, f, c0, c)) {
      PickedAccepted(p.Rows(), p.first, f, c0, c);
    }
  }

  /** What a dictionary page delivers is the meanings of the ids picked. */
  lemma DictionaryOut(k: Column, page: DataPage, f: RowFilter, c0: nat, c1: nat)
    requires k.t.GetUpdater().Some? && k.Readable(page) && page.IsDictionary() && c0 <= c1 <= page.valueCount
    ensures var out := Picked(k.Stored(page).Rows(), page.First(), f, c0, c1);
      && k.IdsInRange(out) && Picked(k.PageRows(page), page.First(), f, c0, c1) == k.Meanings(out)
  {
    hide Column.Readable, Column.Stored, Column.Splits, Picked, Page.Rows, Column.Meanings, Column.IdsInRange;
    PlainRows(k, page);
    var rows := k.Stored(page).Rows();
    PickedMeanings(k, rows, page.First(), f, c0, c1);
    PickedInRange(k, rows, page.First(), f, c0, c1);
  }

  /** What a turn on a plain page has done. */
  lemma PlainRead(k: Column, page: DataPage, f: RowFilter, c0: nat, c1: nat, rest: seq<Part>, g: Goal,
                  off: nat, offset: int, attached: nat, decoded: nat, column: ColumnVector,
                  cells0: seq<Value>, isNull0: seq<bool>)
    requires k.t.GetUpdater().Some? && k.Readable(page) && !page.IsDictionary() && c0 <= page.valueCount
    requires k.Splits(page)
    requires L.Progress(k.Stored(page), f, c0, c1, off, offset, cells0, column.cells, isNull0, column.isNull)
    requires offset == g.total || c1 == page.valueCount
    requires g.Sound() && off < g.total && offset <= g.total && g.total <= |cells0| && g.total <= |isNull0|
    requires g.cells[off..] == Flat([PartFrom(k, page, f, c0)] + rest)
    requires g.plains[off..] == Plains([PartFrom(k, page, f, c0)] + rest)
    requires Play([PartFrom(k, page, f, c0)] + rest, off, g.total, attached, decoded) == g.end
    requires column.dictionary == None && NoNulls(isNull0, off, g.total)
    requires k.dictionary.Some? ==> HasIds(column, g.total) && IdsKnown(k, column.dictionaryIds.cells, off, g)
    requires ValuesHold(k, cells0, isNull0, 0, off, g, attached) && attached <= off
    requires Accepted(g.cells[..off]) && g.AllShown(k, attached, off)
    ensures off <= offset && c0 <= c1 <= page.valueCount
    ensures |column.cells| == |cells0| && |column.isNull| == |isNull0|
    ensures Filling(k, column, offset, g, attached, attached)
    ensures var after := [PartFrom(k, page, f, c1)] + rest;
      && g.cells[offset..] == Flat(after) && g.plains[offset..] == Plains(after)
      && Play(after, offset, g.total, attached, attached) == g.end
  {
    hide ColumnType.GetUpdater, ColumnType.IsLazyDecodingSupported, ColumnType.Matched, Column.Readable, Column.Stored;
    hide Column.Splits, Column.PageRows, L.Progress, Picked, ValuesHold, Filled, SameOutside, NoNulls, Accepted;
    hide Page.Rows, Page.Complete, IdsKnown, NullsMatch, Play, Flat, Plains, Goal.AllShown, Filling, HasIds;
    var p := k.Stored(page);
    PlainRows(k, page);
    ProgressOut(p, f, c0, c1, off, offset, cells0, column.cells, isNull0, column.isNull);
    PickedFront(k.PageRows(page), page.First(), f, c0, c1, page.valueCount);
    var out := Picked(p.Rows(), p.first, f, c0, c1);
    Advance(g, off, PartFrom(k, page, f, c0), rest, |out|, attached, decoded);
    FilledByPlain(k, column, off, out, g, attached, cells0, isNull0);
  }

  /** What a turn on a dictionary page has done once its ids are in place. */
  lemma IdsRead(k: Column, page: DataPage, f: RowFilter, c0: nat, c1: nat, rest: seq<Part>, g: Goal,
                off: nat, offset: int, attached: nat, decoded: nat, cells: seq<Value>,
                ids0: seq<Value>, ids1: seq<Value>, isNull0: seq<bool>, isNull1: seq<bool>)
    requires k.Sound() && k.Readable(page) && page.IsDictionary() && c0 <= page.valueCount && k.Splits(page)
    requires L.Progress(k.Stored(page), f, c0, c1, off, offset, ids0, ids1, isNull0, isNull1)
    requires offset == g.total || c1 == page.valueCount
    requires g.Sound() && off < g.total && offset <= g.total && g.total <= |ids0| && g.total <= |isNull0|
    requires IdsKnown(k, ids0, off, g) && NullsMatch(isNull0, off, g) && NoNulls(isNull0, off, g.total)
    requires g.cells[off..] == Flat([PartFrom(k, page, f, c0)] + rest)
    requires g.plains[off..] == Plains([PartFrom(k, page, f, c0)] + rest)
    requires Play([PartFrom(k, page, f, c0)] + rest, off, g.total, attached, decoded) == g.end
    ensures off <= offset && |ids1| == |ids0| && |isNull1| == |isNull0| && NoNulls(isNull1, offset, g.total)
    ensures IdsKnown(k, ids1, offset, g) && NullsMatch(isNull1, offset, g)
    ensures forall i | off <= i < offset :: !g.plains[i]
    ensures ValuesHold(k, cells, isNull0, 0, off, g, attached) ==> ValuesHold(k, cells, isNull1, 0, off, g, attached)
    ensures k.t.IsLazyDecodingSupported() ==> Accepted(g.cells[off..offset])
    ensures c0 <= c1 <= page.valueCount
    ensures var after := [PartFrom(k, page, f, c1)] + rest;
      && g.cells[offset..] == Flat(after) && g.plains[offset..] == Plains(after)
      && Play(after, offset, g.total, offset, decoded) == g.end
  {
    hide ColumnType.GetUpdater, ColumnType.IsLazyDecodingSupported, ColumnType.Matched, Column.Readable, Column.Stored;
    hide Column.Splits, Column.PageRows, L.Progress, Picked, ValuesHold, Filled, SameOutside, NoNulls, Accepted;
    hide Page.Rows, Page.Complete, IdsKnown, NullsMatch, Play, Flat, Plains, Column.Meanings, Column.IdsInRange;
    var p := k.Stored(page);
    PlainRows(k, page);
    ProgressOut(p, f, c0, c1, off, offset, ids0, ids1, isNull0, isNull1);
    PickedFront(k.PageRows(page), page.First(), f, c0, c1, page.valueCount);
    var out := Picked(p.Rows(), p.first, f, c0, c1);
    DictionaryOut(k, page, f, c0, c1);
    Advance(g, off, PartFrom(k, page, f, c0), rest, |out|, attached, decoded);
    IdsFilled(k, ids0, ids1, isNull0, isNull1, off, out, g);
    if ValuesHold(k, cells, isNull0, 0, off, g, attached) {
      ValuesKept(k, cells, ids0, ids1, isNull0, isNull1, off, offset, g, attached);
    }
    if k.t.IsLazyDecodingSupported() {
      LazyMeanings(k, out);
    }
  }

  lemma FirstPage(k: Column, pages: seq<DataPage>, f: RowFilter, from: int)
    requires pages != [] && k.t.GetUpdater().Some? && InRowOrder(pages, f, from)
    requires forall i | 0 <= i < |pages| :: k.Readable(pages[i])
    ensures f.AllRows? || from <= pages[0].First()
    ensures InRowOrder(pages[1..], f, pages[0].First() + pages[0].valueCount)
    ensures Parts(k, pages, f)
      == [PartFrom(k, pages[0], f, 0)] + Parts(k, pages[1..], f)
  {
  }

  lemma NothingFrom(k: Column, page: DataPage, f: RowFilter)
    requires k.t.GetUpdater().Some? && k.Readable(page)
    ensures PartFrom(k, page, f, page.valueCount) == Part(page.IsDictionary(), [])
  {
  }

  lemma ReadableParts(k: Column, page: DataPage)
    requires k.t.GetUpdater().Some? && k.Readable(page)
    ensures k.Splits(page) && k.Supports(page)
    ensures page.IsDictionary() && k.ValueBytes(page) != [] ==> k.ValueBytes(page)[0] <= 32
  {
  }

  /** A value reader that has just been given a page's value bytes. */
  ghost predicate Attached(data: U.DataReader, dictionary: bool, input: seq<byte>, valueCount: nat)
    reads match data case RleIds(r) => {r} case Plain(p) => {p}
    reads data.Repr()
  {
    match data
    case RleIds(r) =>
      && dictionary && r.Valid() && r.Pending() == IdSequence(input, valueCount)
      && (input == [] || input[0] == 0 || NoEmptyRuns(input[1..], input[0]) ==> r.Solid())
    case Plain(p) =>
      !dictionary && p.Valid() && forall kind :: p.Raws(kind) == PlainRaws(kind, input)
  }

  datatype PageResult = PageRead(valueCount: nat) | PageUnsupported

  class VectorizedColumnReader {
    const k: Column
    const readState: ParquetReadState
    var isCurrentPageDictionaryEncoded: bool
    var dataColumn: Option<U.DataReader>
    var defColumn: VectorizedRleValuesReader?
    var pageFirstRowIndex: int
    /** The pages the page reader has not handed out yet. */
    var pages: seq<DataPage>
    ghost var current: Option<DataPage>
    /** Every object the reader has used so far. */
    ghost var owned: set<object>

    ghost function Repr(): set<object>
      reads this, if dataColumn.Some? then (match dataColumn.value case RleIds(r) => {r} case Plain(p) => {p}) else {}
      reads if defColumn == null then {} else {defColumn}
    {
      {this, readState}
      + (if defColumn == null then {} else defColumn.Repr())
      + (if dataColumn.None? then {} else dataColumn.value.Repr())
    }

    /** `owned` includes all of `Repr()`. */
    ghost predicate Owns()
      reads this, owned
      ensures Owns() ==> Repr() <= owned
    {
      && this in owned && readState in owned
      && (defColumn != null ==> defColumn in owned && defColumn.currentBuffer in owned)
      && (dataColumn.Some? ==>
            match dataColumn.value
            case RleIds(r) => r in owned && r.currentBuffer in owned
            case Plain(p) => p in owned)
    }

    lemma OwnsRepr()
      requires Owns()
      ensures Repr() <= owned
    {
    }

    /** The updater the value reader of a page works for. */
    function PageUpdater(page: DataPage): Updater
      requires k.t.GetUpdater().Some?
    {
      if page.IsDictionary() then IntegerUpdater else k.U()
    }

    /** Both readers of the current page stand before the row of `readState`. */
    ghost predicate Reading()
      reads this, readState, Repr()
      requires k.t.GetUpdater().Some?
    {
      match current
      case None => readState.valuesToReadInPage == 0 && readState.rowId == 0
      case Some(page) =>
        && k.Readable(page) && defColumn != null && dataColumn.Some?
        && isCurrentPageDictionaryEncoded == page.IsDictionary() && pageFirstRowIndex == page.First()
        && (page.IsDictionary() <==> dataColumn.value.RleIds?)
        && page.First() <= readState.rowId && 0 <= readState.valuesToReadInPage
        && readState.rowId - page.First() + readState.valuesToReadInPage == page.valueCount
        && L.InStep(defColumn, dataColumn.value, PageUpdater(page), k.Stored(page), readState.rowId - page.First())
    }

    ghost predicate Valid()
      reads this, readState, Repr()
    {
      && k.Sound() && k.t.cal.Lawful()
      && readState.Valid() && readState.maxDefinitionLevel == k.max
      && (forall i | 0 <= i < |pages| :: k.Readable(pages[i]))
      && InRowOrder(pages, readState.filter,
                    if current.None? then 0 else current.value.First() + current.value.valueCount)
      && Reading()
    }

    /** What is still to be delivered: the wanted rows left in the current page, then those of the other pages. */
    ghost function Left(): seq<Part>
      reads this, readState, Repr()
      requires Valid()
    {
      (match current
       case None => []
       case Some(page) => [PartFrom(k, page, readState.filter, readState.rowId - page.First())])
      + Parts(k, pages, readState.filter)
    }

    ghost function Remaining(): seq<Cell>
      reads this, readState, Repr()
      requires Valid()
    {
      Flat(Left())
    }

    /** What a batch of `total` slots into the vector is to read, and what it will do. */
    ghost function NextGoal(total: nat, column: ColumnVector): (g: Goal)
      reads this, readState, Repr(), column, column.dictionaryIds
      requires Valid() && total <= |Remaining()|
      ensures g.Sound() && g.total == total && g.cells == Remaining()
    {
      Goal(Remaining(), Plains(Left()), column.IdsLeft(total), total,
           Play(Left(), 0, total, 0, 0))
    }

    constructor (column: Column, pageList: seq<DataPage>, rowIndexes: Option<seq<int>>)
      requires Suppliable(column, pageList, rowIndexes)
      ensures Valid() && fresh(Repr()) && k == column && Owns() && fresh(owned)
      ensures readState.filter == FilterOf(rowIndexes)
      ensures Left() == Parts(column, pageList, FilterOf(rowIndexes))
    {
      hide Column.Readable, Canonical, Covers, InRowOrder, Column.Sound;
      k := column;
      readState := new ParquetReadState(column.max, rowIndexes);
      isCurrentPageDictionaryEncoded := column.dictionary.Some?;
      dataColumn, defColumn, pageFirstRowIndex, pages, current := None, null, 0, pageList, None;
      new;
      owned := {this, readState};
    }

    /** A value reader for the page's encoding, over the page's value bytes. */
    method InitDataReader(pageValueCount: nat, encoding: Encoding, input: seq<byte>) returns (ok: bool)
      requires encoding.UsesDictionary() && input != [] ==> input[0] <= 32
      modifies `dataColumn, `isCurrentPageDictionaryEncoded
      ensures ok <==>
        encoding.PLAIN? || ((encoding.PLAIN_DICTIONARY? || encoding.RLE_DICTIONARY?) && k.dictionary.Some?)
      ensures ok ==> dataColumn.Some? && encoding.UsesDictionary() == dataColumn.value.RleIds?
      ensures ok ==> isCurrentPageDictionaryEncoded == encoding.UsesDictionary()
      ensures ok ==> fresh(dataColumn.value.Repr())
      ensures ok ==> Attached(dataColumn.value, encoding.UsesDictionary(), input, pageValueCount)
    {
      hide HybridValues, NoEmptyRuns;
      if encoding.UsesDictionary() {
        dataColumn := None;
        if k.dictionary.None? {
          return false;
        }
        var rle := new VectorizedRleValuesReader.ForValues();
        dataColumn := Some(U.RleIds(rle));
        isCurrentPageDictionaryEncoded := true;
        var _ := rle.InitFromPage(pageValueCount, input);
      } else {
        if encoding != PLAIN {
          return false;
        }
        var plain := new VectorizedPlainValuesReader();
        dataColumn := Some(U.Plain(plain));
        isCurrentPageDictionaryEncoded := false;
        plain.InitFromPage(pageValueCount, input);
      }
      ok := true;
    }

    /** The level reader of a page, by its version; `rest` is the stream its values are read from. */
    method InitLevelReader(page: DataPage) returns (rest: seq<byte>)
      requires k.Splits(page) && k.Sound()
      modifies `defColumn
      ensures defColumn != null && fresh(defColumn.Repr()) && defColumn.Valid()
      ensures defColumn.Pending() == k.Levels(page) && rest == k.ValueBytes(page)
    {
      hide HybridValues, BitWidth, FromLittleEndian;
      PowOfTwo32();
      BitWidthBound(k.max, 32);
      var bitWidth := BitWidth(k.max);
      var levels;
      if page.DataPageV1? {
        levels := new VectorizedRleValuesReader.ForLevels(bitWidth, bitWidth != 0);
        rest := levels.InitFromPage(page.valueCount, page.bytes);
      } else {
        // the page keeps levels and values apart: no length in the stream
        levels := new VectorizedRleValuesReader.ForLevels(bitWidth, false);
        rest := levels.InitFromPage(page.valueCount, page.definitionLevels);
        rest := page.data;
      }
      defColumn := levels;
    }

    /** readPageV1 and readPageV2: level and value readers for the page, or the exception for its encodings. */
    method LoadPage(page: DataPage) returns (r: PageResult)
      requires k.Splits(page) && k.Sound() && k.t.cal.Lawful()
      requires page.IsDictionary() && k.ValueBytes(page) != [] ==> k.ValueBytes(page)[0] <= 32
      modifies `dataColumn, `defColumn, `isCurrentPageDictionaryEncoded, `pageFirstRowIndex
      ensures r == if k.Supports(page) then PageRead(page.valueCount) else PageUnsupported
      ensures pageFirstRowIndex == match page.firstRowIndex case None => 0 case Some(i) => i
      ensures r.PageRead? ==> defColumn != null && dataColumn.Some?
      ensures r.PageRead? ==> fresh(defColumn.Repr()) && fresh(dataColumn.value.Repr())
      ensures r.PageRead? ==> isCurrentPageDictionaryEncoded == page.IsDictionary() == dataColumn.value.RleIds?
      ensures r.PageRead? && k.Readable(page) ==>
        L.InStep(defColumn, dataColumn.value, PageUpdater(page), k.Stored(page), 0)
    {
      hide Column.Splits, Column.ValueBytes, Column.Levels, Column.Stored, Column.Readable, Attached, L.InStep;
      hide VectorizedRleValuesReader.Valid, VectorizedRleValuesReader.Pending;
      pageFirstRowIndex := page.First();
      if page.DataPageV1? && !page.dlEncoding.RLE? && k.max != 0 {
        return PageUnsupported;
      }
      var rest := InitLevelReader(page);
      label Levels:
      var ok := InitDataReader(page.valueCount, page.valueEncoding, rest);
      if !ok {
        return PageUnsupported;
      }
      if k.Readable(page) {
        LoadedInStep(page);
      }
      return PageRead(page.valueCount);
    }

    lemma UpdaterLawful(page: DataPage)
      requires k.t.GetUpdater().Some? && k.t.cal.Lawful()
      ensures PageUpdater(page).Lawful()
    {
    }

    lemma LoadedInStep(page: DataPage)
      requires k.Sound() && k.t.cal.Lawful() && k.Readable(page) && defColumn != null && dataColumn.Some?
      requires defColumn.Valid() && defColumn.Repr() !! dataColumn.value.Repr() && defColumn.Pending() == k.Levels(page)
      requires Attached(dataColumn.value, page.IsDictionary(), k.ValueBytes(page), page.valueCount)
      ensures L.InStep(defColumn, dataColumn.value, PageUpdater(page), k.Stored(page), 0)
    {
      hide HybridValues, NoEmptyRuns, BitWidth, FromLittleEndian, Column.Levels, Column.ValueBytes, IdSequence;
      hide ColumnType.GetUpdater, ColumnType.IsLazyDecodingSupported, ColumnType.Matched, Updater.Lawful, Convert;
      hide PlainRaws, VectorizedPlainValuesReader.Raws, Column.IdsInRange, VectorizedRleValuesReader.Pending;
      UpdaterLawful(page);
      var p := k.Stored(page);
      assert p.levels[0..] == p.levels;
      assert p.ValuesFrom(0) == p.values;
    }

    /** The vector and its ids are separate from each other and from the reader. */
    ghost predicate Apart(column: ColumnVector)
      reads this, Repr(), column, column.dictionaryIds
    {
      && column !in Repr()
      && (column.dictionaryIds != null ==>
            column.dictionaryIds !in Repr() && column.dictionaryIds != column
            && |column.dictionaryIds.cells| == |column.dictionaryIds.isNull|)
    }

    /** Where a batch stands: what is filled, and what is still owed of the goal. */
    ghost predicate Batch(column: ColumnVector, g: Goal, attached: nat, decoded: nat)
      reads this, readState, Repr(), column, column.dictionaryIds
    {
      && Valid() && Apart(column)
      && 0 <= readState.valuesToReadInBatch && readState.offset + readState.valuesToReadInBatch == g.total
      && Filling(k, column, readState.offset, g, attached, decoded)
      && Owes(g, readState.offset, attached, decoded)
    }

    ghost predicate Owes(g: Goal, off: nat, attached: nat, decoded: nat)
      reads this, readState, Repr()
      requires Valid()
    {
      && off <= |g.cells| == |g.plains|
      && g.cells[off..] == Flat(Left()) && g.plains[off..] == Plains(Left())
      && Play(Left(), off, g.total, attached, decoded) == g.end
    }

    /** Between turns: a batch goes on with a new page, but for its first turn. */
    ghost predicate Settled(attached: nat, decoded: nat)
      reads this, readState
    {
      && 0 <= readState.valuesToReadInPage
      && (readState.valuesToReadInBatch > 0 ==> readState.offset == 0 || readState.valuesToReadInPage == 0)
      && (readState.valuesToReadInPage == 0 && current.Some? ==>
            if current.value.IsDictionary() then attached == readState.offset else decoded == attached)
    }

    /** One turn of `readBatch` on a plain page. */
    method StepPlain(column: ColumnVector, ghost g: Goal, ghost attached: nat, ghost decoded: nat)
      returns (ok: bool)
      requires Batch(column, g, attached, decoded) && current.Some? && !current.value.IsDictionary()
      requires readState.valuesToReadInBatch > 0
      modifies Repr(), column`cells, column`isNull, column`dictionary
      ensures !ok ==> !g.Succeeds(k)
      ensures ok ==> Batch(column, g, attached, attached) && Settled(attached, attached)
      ensures ok ==> readState.valuesToReadInBatch <= old(readState.valuesToReadInBatch)
      ensures ok ==> readState.valuesToReadInPage <= old(readState.valuesToReadInPage)
      ensures ok ==> readState.valuesToReadInBatch == 0 || readState.valuesToReadInPage == 0
      ensures ok ==> pages == old(pages) && current == old(current) && column.dictionaryIds == old(column.dictionaryIds)
      ensures ok ==> |column.cells| == |old(column.cells)| && |column.isNull| == |old(column.isNull)|
      ensures owned == old(owned) && fresh(Repr() - old(Repr()))
    {
      hide ColumnType.GetUpdater, ColumnType.IsLazyDecodingSupported, ColumnType.Matched, Updater.Lawful;
      hide Column.Readable, Column.Stored, Column.Splits, Column.PageRows, InRowOrder, L.InStep, L.Throws, L.Progress;
      hide Filling, Picked, Parts, ValuesHold, Filled, SameOutside, NoNulls, ParquetReadState.ValidFrom, Accepted;
      hide Page.Rows, Page.Complete, IdsKnown, NullsMatch, Goal.AllShown, Goal.Succeeds, Play, Flat, Plains;
      hide U.DataReader.Ready, U.DataReader.Contents, VectorizedRleValuesReader.Valid;
      hide VectorizedRleValuesReader.Pending;
      FillingRoom(k, column, readState.offset, g, attached, decoded);
      PlainRows(k, current.value);
      ghost var page, f, off := current.value, readState.filter, readState.offset;
      ghost var c0, p, rest := readState.rowId - page.First(), k.Stored(page), Parts(k, pages, f);
      ghost var part := PartFrom(k, page, f, c0);
      PlayGrows([part] + rest, off, g.total, attached, decoded);
      ok := DetachDictionary(k, readState.offset, column, g, attached, decoded);
      if !ok {
        DetachFails(g, k, off, attached);
        return;
      }
      ghost var cells0, isNull0 := column.cells, column.isNull;
      ok := L.ReadBatchInternal(defColumn, readState, column, column, dataColumn.value, k.U(), p);
      if !ok {
        FlatFront(part, rest);
        ThrowsInTarget(p, f, c0, g.total - off, Flat(rest), g.cells, off);
        CellsFail(g, k);
        return;
      }
      PlainRead(k, page, f, c0, readState.rowId - page.First(), rest, g, off, readState.offset, attached, decoded,
                column, cells0, isNull0);
    }

    /** One turn of `readBatch` on a dictionary page. */
    method StepDictionary(column: ColumnVector, ids: ColumnVector, ghost g: Goal, ghost attached: nat,
                          ghost decoded: nat)
      returns (ok: bool)
      requires Batch(column, g, attached, decoded) && current.Some? && current.value.IsDictionary()
      requires readState.valuesToReadInBatch > 0 && ids == column.dictionaryIds
      requires readState.offset == 0 || readState.rowId == pageFirstRowIndex
      modifies Repr(), column`cells, column`isNull, column`dictionary, ids`cells
      ensures !ok ==> !g.Succeeds(k)
      ensures ok ==> 0 <= readState.offset && Batch(column, g, readState.offset, decoded)
      ensures ok ==> 0 <= readState.offset && Settled(readState.offset, decoded)
      ensures ok ==> readState.valuesToReadInBatch <= old(readState.valuesToReadInBatch)
      ensures ok ==> readState.valuesToReadInPage <= old(readState.valuesToReadInPage)
      ensures ok ==> readState.valuesToReadInBatch == 0 || readState.valuesToReadInPage == 0
      ensures ok ==> pages == old(pages) && current == old(current) && column.dictionaryIds == old(column.dictionaryIds)
      ensures ok ==> |column.cells| == |old(column.cells)| && |column.isNull| == |old(column.isNull)|
      ensures owned == old(owned) && fresh(Repr() - old(Repr()))
    {
      hide ColumnType.GetUpdater, ColumnType.IsLazyDecodingSupported, ColumnType.Matched, Updater.Lawful;
      hide Column.Readable, Column.Stored, Column.Splits, Column.PageRows, InRowOrder, L.InStep, L.Throws, L.Progress;
      hide Filling, Picked, Parts, ValuesHold, Filled, SameOutside, NoNulls, ParquetReadState.ValidFrom, Accepted;
      hide Page.Rows, Page.Complete, IdsKnown, NullsMatch, Goal.AllShown, Goal.Succeeds, Play, Flat, Plains;
      hide Column.Meanings, Column.IdsInRange;
      hide U.DataReader.Ready, U.DataReader.Contents, VectorizedRleValuesReader.Valid;
      hide VectorizedRleValuesReader.Pending;
      FillingRoom(k, column, readState.offset, g, attached, decoded);
      PlainRows(k, current.value);
      ghost var page, f, off := current.value, readState.filter, readState.offset;
      ghost var c0, p, rest := readState.rowId - page.First(), k.Stored(page), Parts(k, pages, f);
      ghost var part := PartFrom(k, page, f, c0);
      ghost var ids0, isNull0 := ids.cells, column.isNull;
      var startOffset := readState.offset;
      var startRowId := readState.rowId;
      ok := L.ReadBatchInternal(defColumn, readState, ids, column, dataColumn.value, IntegerUpdater, p);
      if !ok {
        IdsDoNotThrow(p, f, c0, g.total - off);
        assert false;
      }
      IdsRead(k, page, f, c0, readState.rowId - page.First(), rest, g, off, readState.offset, attached, decoded,
              column.cells, ids0, ids.cells, isNull0, column.isNull);
      ok := AttachOrDecode(k, startOffset, readState.offset, startRowId == pageFirstRowIndex, column, ids,
                           g, attached, decoded);
    }

    /** `readPage` and `resetForNewPage`: the next page becomes the current one. */
    method NextPage(column: ColumnVector, ghost g: Goal, ghost attached: nat, ghost decoded: nat)
      requires Batch(column, g, attached, decoded) && Settled(attached, decoded)
      requires readState.valuesToReadInPage == 0 && readState.valuesToReadInBatch > 0
      modifies this, readState
      ensures Batch(column, g, attached, decoded) && current.Some? && readState.rowId == pageFirstRowIndex
      ensures |old(pages)| > 0 && pages == old(pages)[1..] && owned == old(owned)
      ensures fresh(Repr() - old(Repr()))
      ensures readState.valuesToReadInBatch == old(readState.valuesToReadInBatch)
    {
      hide ColumnType.GetUpdater, ColumnType.IsLazyDecodingSupported, ColumnType.Matched, Updater.Lawful;
      hide Column.Stored, Column.PageRows, L.InStep, Filling, Accepted, ParquetReadState.ValidFrom, Picked;
      hide Column.Readable, Column.Supports, Column.Splits, Column.ValueBytes, InRowOrder, Parts, HasIds, BitWidth;
      hide Canonical, Covers, RowFilter.Wants, Play, Flat, Plains, Reading, PartFrom, NoNulls, NullsMatch;
      hide Goal.Shown, Goal.AllShown, ValuesHold, IdsKnown;
      PagesLeft(column, g, attached, decoded);
      FirstPage(k, pages, readState.filter,
                if current.None? then 0 else current.value.First() + current.value.valueCount);
      var page := pages[0];
      pages := pages[1..];
      OpenPage(page);
      FillingRoom(k, column, readState.offset, g, attached, decoded);
    }

    method OpenPage(page: DataPage)
      requires k.Sound() && k.t.cal.Lawful() && k.Readable(page)
      modifies `dataColumn, `defColumn, `isCurrentPageDictionaryEncoded, `pageFirstRowIndex, `current
      modifies readState`valuesToReadInPage, readState`rowId
      ensures Reading() && current == Some(page) && fresh(Repr() - {this, readState})
      ensures readState.rowId == page.First() == pageFirstRowIndex && readState.valuesToReadInPage == page.valueCount
      ensures old(readState.Valid()) && (readState.filter.AllRows? || old(readState.rowId) <= page.First()) ==>
        readState.Valid()
    {
      hide ColumnType.GetUpdater, ColumnType.IsLazyDecodingSupported, ColumnType.Matched, Updater.Lawful;
      hide Column.Stored, Column.Readable, Column.Supports, Column.Splits, Column.ValueBytes, L.InStep;
      hide ParquetReadState.ValidFrom, BitWidth;
      ReadableParts(k, page);
      var r := LoadPage(page);
      current := Some(page);
      readState.ResetForNewPage(r.valueCount, pageFirstRowIndex);
    }

    /** A batch that is not full has pages left; the page behind it no longer matters. */
    lemma PagesLeft(column: ColumnVector, g: Goal, attached: nat, decoded: nat)
      requires Batch(column, g, attached, decoded) && Settled(attached, decoded)
      requires readState.valuesToReadInPage == 0 && readState.valuesToReadInBatch > 0
      ensures pages != [] && readState.offset <= |g.cells| == |g.plains|
      ensures readState.rowId == if current.Some? then current.value.First() + current.value.valueCount else 0
      ensures var parts := Parts(k, pages, readState.filter);
        && g.cells[readState.offset..] == Flat(parts) && g.plains[readState.offset..] == Plains(parts)
        && Play(parts, readState.offset, g.total, attached, decoded) == g.end
    {
      hide Column.Readable, Column.PageRows, Picked, L.InStep, Column.Stored, Play, Flat, Plains, PartFrom, Parts;
      hide NullsMatch, NoNulls, ValuesHold, IdsKnown, Accepted, Goal.AllShown, InRowOrder, Canonical, Covers;
      hide ColumnType.GetUpdater, ColumnType.IsLazyDecodingSupported, ColumnType.Matched, Updater.Lawful;
      var parts := Parts(k, pages, readState.filter);
      assert [] + parts == parts;
      if current.Some? {
        NothingFrom(k, current.value, readState.filter);
        SpentFront(g, readState.offset, Part(current.value.IsDictionary(), []), parts, attached, decoded);
      }
      NoParts(k, pages, readState.filter);
    }

    /** Takes note of the objects allocated on the way. */
    ghost method Own()
      requires Valid()
      modifies `owned
      ensures Valid() && Left() == old(Left()) && Repr() == old(Repr())
      ensures Owns() && owned == old(owned) + Repr()
    {
      hide Column.Stored, Column.PageRows, Column.Readable, Column.Splits, InRowOrder, Picked, Parts;
      hide Canonical, Covers, L.InStep, ParquetReadState.ValidFrom;
      owned := owned + Repr();
    }

    /** The page at hand is read as its encoding asks. */
    method Step(column: ColumnVector, ids: ColumnVector?, ghost g: Goal, ghost attached: nat, ghost decoded: nat)
      returns (ok: bool, ghost attached': nat, ghost decoded': nat)
      requires Batch(column, g, attached, decoded) && current.Some? && readState.valuesToReadInBatch > 0
      requires readState.offset == 0 || readState.rowId == pageFirstRowIndex
      requires k.dictionary.Some? ==> ids == column.dictionaryIds
      modifies Repr(), column`cells, column`isNull, column`dictionary
      modifies if k.dictionary.Some? && ids != null then {ids} else {}
      ensures fresh(Repr() - old(Repr())) && column.dictionaryIds == old(column.dictionaryIds) && owned == old(owned)
      ensures !ok ==> !g.Succeeds(k)
      ensures ok ==> Batch(column, g, attached', decoded') && Settled(attached', decoded')
      ensures ok ==> |column.cells| == |old(column.cells)| && |column.isNull| == |old(column.isNull)|
      ensures ok ==> pages == old(pages)
      ensures ok ==> readState.valuesToReadInBatch <= old(readState.valuesToReadInBatch)
      ensures ok ==> readState.valuesToReadInPage <= old(readState.valuesToReadInPage)
      ensures ok ==> readState.valuesToReadInBatch == 0 || readState.valuesToReadInPage == 0
    {
      hide ColumnType.GetUpdater, ColumnType.IsLazyDecodingSupported, ColumnType.Matched, Updater.Lawful;
      hide Column.Stored, Column.PageRows, Column.Readable, Column.Splits, L.InStep, ParquetReadState.ValidFrom;
      hide Picked, InRowOrder, Parts, Filling, Accepted, NoNulls, Valid, Left, Batch, Goal.Succeeds;
      hide U.DataReader.Ready, U.DataReader.Contents, Column.Sound;
      hide VectorizedRleValuesReader.Valid, VectorizedRleValuesReader.Pending;
      OnPage(column, g, attached, decoded);
      if isCurrentPageDictionaryEncoded {
        ok := StepDictionary(column, ids, g, attached, decoded);
        attached', decoded' := if 0 <= readState.offset then readState.offset else 0, decoded;
      } else {
        ok := StepPlain(column, g, attached, decoded);
        attached', decoded' := attached, attached;
      }
    }

    /** One turn of the loop of `readBatch`: a page is loaded if need be, and read. */
    method Turn(column: ColumnVector, ids: ColumnVector?, ghost g: Goal, ghost attached: nat, ghost decoded: nat)
      returns (ok: bool, ghost attached': nat, ghost decoded': nat)
      requires Batch(column, g, attached, decoded) && Settled(attached, decoded) && readState.valuesToReadInBatch > 0
      requires k.dictionary.Some? ==> ids == column.dictionaryIds
      modifies Repr(), column`cells, column`isNull, column`dictionary
      modifies if k.dictionary.Some? && ids != null then {ids} else {}
      ensures fresh(Repr() - old(Repr())) && column.dictionaryIds == old(column.dictionaryIds) && owned == old(owned)
      ensures !ok ==> !g.Succeeds(k)
      ensures ok ==> Batch(column, g, attached', decoded') && Settled(attached', decoded')
      ensures ok ==> |column.cells| == |old(column.cells)| && |column.isNull| == |old(column.isNull)|
      ensures ok ==> |pages| <= |old(pages)|
      ensures ok && |pages| == |old(pages)| ==>
        readState.valuesToReadInBatch + readState.valuesToReadInPage
          < old(readState.valuesToReadInBatch + readState.valuesToReadInPage)
    {
      hide ColumnType.GetUpdater, ColumnType.IsLazyDecodingSupported, ColumnType.Matched, Updater.Lawful;
      hide Column.Stored, Column.PageRows, Column.Readable, Column.Splits, L.InStep, ParquetReadState.ValidFrom;
      hide Picked, InRowOrder, Parts, Filling, Accepted, NoNulls, Valid, Left, Batch, Goal.Succeeds;
      hide U.DataReader.Ready, U.DataReader.Contents, Column.Sound;
      hide VectorizedRleValuesReader.Valid, VectorizedRleValuesReader.Pending;
      if readState.valuesToReadInPage == 0 {
        NextPage(column, g, attached, decoded);
      }
      OnPage(column, g, attached, decoded);
      ok, attached', decoded' := Step(column, ids, g, attached, decoded);
    }

    /** The batch cursors start over; the page and what remains of the column stay. */
    method Restart(total: nat)
      requires Valid()
      modifies readState
      ensures Valid() && Left() == old(Left()) && Repr() == old(Repr())
      ensures readState.offset == 0 && readState.valuesToReadInBatch == total
    {
      hide Column.Stored, Column.PageRows, Column.Readable, Column.Splits, InRowOrder, Picked, Parts;
      hide Canonical, Covers, U.DataReader.Contents, U.DataReader.Ready, VectorizedRleValuesReader.Pending;
      hide Page.Complete, Page.ValuesFrom;
      readState.ResetForNewBatch(total);
    }

    lemma BatchStart(column: ColumnVector, g: Goal)
      requires Valid() && g.Sound() && g.cells == Remaining() && g.plains == Plains(Left())
      requires g.end == Play(Left(), 0, g.total, 0, 0)
      requires readState.offset == 0 && readState.valuesToReadInBatch == g.total
      requires g.total <= |column.cells| && g.total <= |column.isNull| && NoNulls(column.isNull, 0, g.total)
      requires Apart(column)
      requires k.dictionary.Some? ==> HasIds(column, g.total)
      requires k.dictionary.Some? ==> column.dictionaryIds.cells[..g.total] == g.stale
      requires column.dictionary.Some? ==> k.t.IsLazyDecodingSupported()
      ensures Batch(column, g, 0, 0) && Settled(0, 0)
    {
      hide Column.Readable, Column.PageRows, Picked, L.InStep, Column.Stored, Play, Left, Flat, Plains;
      assert g.cells[0..] == g.cells && g.plains[0..] == g.plains;
    }

    /** The page at hand. */
    lemma OnPage(column: ColumnVector, g: Goal, attached: nat, decoded: nat)
      requires Batch(column, g, attached, decoded)
      requires current.Some? || readState.valuesToReadInPage != 0
      ensures current.Some? && isCurrentPageDictionaryEncoded == current.value.IsDictionary()
      ensures current.value.IsDictionary() ==> k.dictionary.Some? && column.dictionaryIds != null
      ensures readState.valuesToReadInPage >= 0 && readState.offset >= 0
    {
    }

    /** A full batch shows what its goal says. */
    lemma BatchEnd(column: ColumnVector, g: Goal, attached: nat, decoded: nat)
      requires Batch(column, g, attached, decoded) && readState.valuesToReadInBatch == 0
      ensures Valid() && Remaining() == g.cells[g.total..] && Left() == g.end.rest && g.Succeeds(k)
      ensures Apart(column)
      ensures g.total <= |column.cells| && g.total <= |column.isNull|
      ensures column.dictionary.Some? ==> k.t.IsLazyDecodingSupported()
      ensures g.total > 0 && column.dictionary.Some? ==> column.dictionaryIds != null
      ensures k.dictionary.Some? ==> HasIds(column, g.total) && IdsKnown(k, column.dictionaryIds.cells, g.total, g)
      ensures forall i: nat | i < g.total :: View(k.t.sparkType, column, i) == g.Shown(k, g.end.attached, i)
    {
      hide Column.Readable, Column.Stored, Column.PageRows, L.InStep, Reading, Left, View, Goal.Shown, Flat, Plains;
      assert k.Sound() by { ValidSound(); }
      FullBatch(k, column, g, attached, decoded);
      assert g.end == Outcome(attached, decoded, Left());
    }

    lemma ValidSound()
      requires Valid()
      ensures k.Sound()
    {
    }

    /** The loop of `readBatch`. */
    method Fill(column: ColumnVector, ids: ColumnVector?, ghost g: Goal)
      returns (ok: bool, ghost attached: nat, ghost decoded: nat)
      requires Batch(column, g, 0, 0) && Settled(0, 0) && (k.dictionary.Some? ==> ids == column.dictionaryIds)
      requires 0 <= readState.valuesToReadInBatch
      modifies Repr(), column`cells, column`isNull, column`dictionary
      modifies if k.dictionary.Some? && ids != null then {ids} else {}
      ensures fresh(Repr() - old(Repr())) && column.dictionaryIds == old(column.dictionaryIds) && owned == old(owned)
      ensures !ok ==> !g.Succeeds(k)
      ensures ok ==> Batch(column, g, attached, decoded) && readState.valuesToReadInBatch == 0
      ensures ok ==> |column.cells| == |old(column.cells)| && |column.isNull| == |old(column.isNull)|
    {
      hide Batch, Goal.Succeeds;
      attached, decoded := 0, 0;
      while readState.valuesToReadInBatch > 0
        invariant Batch(column, g, attached, decoded) && Settled(attached, decoded)
        invariant column.dictionaryIds == old(column.dictionaryIds)
        invariant fresh(Repr() - old(Repr())) && owned == old(owned) && 0 <= readState.valuesToReadInBatch
        invariant |column.cells| == |old(column.cells)| && |column.isNull| == |old(column.isNull)|
        decreases |pages|, readState.valuesToReadInBatch + readState.valuesToReadInPage
      {
        ok, attached, decoded := Turn(column, ids, g, attached, decoded);
        if !ok {
          return;
        }
        BatchLeft(column, g, attached, decoded);
      }
      ok := true;
    }

    lemma BatchLeft(column: ColumnVector, g: Goal, attached: nat, decoded: nat)
      requires Batch(column, g, attached, decoded)
      ensures 0 <= readState.valuesToReadInBatch
    {
    }

    /**
     Reads the next `total` cells of the column into the slots of `column`. Slot by slot the vector shows
     what the goal of the batch says: the cell, unless a dictionary attached later in the batch has made
     the slot read as the id that happened to be left in it. Throws exactly when one of the cells does not
     convert, or such an id, once its slot has to be decoded.
     */
    method ReadBatch(total: nat, column: ColumnVector) returns (ok: bool)
      requires Valid() && total <= |Remaining()|
      requires total <= |column.cells| && total <= |column.isNull| && NoNulls(column.isNull, 0, total)
      requires Apart(column)
      requires column.dictionary.Some? ==> k.t.IsLazyDecodingSupported()
      modifies Repr(), column, if column.dictionaryIds == null then {} else {column.dictionaryIds}
      ensures fresh(Repr() - old(Repr()))
      ensures ok ==> Owns() && owned == old(owned) + Repr()
      ensures column.dictionaryIds == old(column.dictionaryIds) || fresh(column.dictionaryIds)
      ensures ok <==> old(NextGoal(total, column)).Succeeds(k)
      ensures ok ==> Valid() && Left() == old(NextGoal(total, column)).end.rest
      ensures ok ==> Remaining() == old(Remaining())[total..]
      ensures ok ==> total <= |column.cells| && total <= |column.isNull|
      ensures ok ==> |column.cells| == |old(column.cells)| && |column.isNull| == |old(column.isNull)|
      ensures ok ==> column.dictionary.Some? ==> k.t.IsLazyDecodingSupported()
      ensures ok ==> Apart(column)
      ensures ok && total > 0 && column.dictionary.Some? ==> column.dictionaryIds != null
      ensures ok && k.dictionary.Some? ==>
        HasIds(column, total) && IdsKnown(k, column.dictionaryIds.cells, total, old(NextGoal(total, column)))
      ensures ok ==> forall i: nat | i < total ::
        View(k.t.sparkType, column, i)
          == old(NextGoal(total, column)).Shown(k, old(NextGoal(total, column)).end.attached, i)
    {
      hide ColumnType.GetUpdater, ColumnType.IsLazyDecodingSupported, ColumnType.Matched, Updater.Lawful;
      hide Column.Stored, Column.PageRows, Column.Readable, Column.Splits, L.InStep, ParquetReadState.ValidFrom;
      hide Picked, InRowOrder, Parts, Filling, Accepted, NoNulls, Valid, Left, View, Batch, Column.Sound, IdsKnown;
      hide U.DataReader.Ready, U.DataReader.Contents, Goal.Succeeds, Goal.Shown, Play, Flat, Plains, Settled;
      hide VectorizedRleValuesReader.Valid, VectorizedRleValuesReader.Pending;
      ghost var g := NextGoal(total, column);
      var ids: ColumnVector? := null;
      if k.dictionary.Some? {
        ids := column.ReserveDictionaryIds(total);
      }
      Restart(total);
      BatchStart(column, g);
      ghost var attached, decoded;
      ok, attached, decoded := Fill(column, ids, g);
      if !ok {
        return;
      }
      BatchEnd(column, g, attached, decoded);
      Own();
      ok := true;
    }
  }
}
