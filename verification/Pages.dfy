/** Data pages of a column chunk as bytes, the rows they hold, and the rows a filter picks from a chunk. */
module Pages {
  import opened Numbers
  import opened Hybrid
  import opened Columns
  import opened PlainReader
  import opened RleReader
  import opened ReadState
  import opened Rows
  import opened ColumnTypes

  datatype Encoding = PLAIN | PLAIN_DICTIONARY | RLE | RLE_DICTIONARY | OTHER
  {
    predicate UsesDictionary() { PLAIN_DICTIONARY? || RLE_DICTIONARY? }
  }

  datatype DataPage =
    | DataPageV1(valueCount: nat, firstRowIndex: Option<nat>, dlEncoding: Encoding, valueEncoding: Encoding,
                 bytes: seq<byte>)
    | DataPageV2(valueCount: nat, firstRowIndex: Option<nat>, valueEncoding: Encoding, definitionLevels: seq<byte>,
                 data: seq<byte>)
  {
    function First(): nat {
      match firstRowIndex case None => 0 case Some(i) => i
    }

    predicate IsDictionary() { valueEncoding.UsesDictionary() }
  }

  /** BytesUtils.getWidthFromMaxInt */
  function BitWidth(max: nat): (w: nat)
    ensures w == 0 <==> max == 0
  {
    if max == 0 then 0 else 1 + BitWidth(max / 2)
  }

  lemma {:induction false} BitWidthBound(max: nat, k: nat)
    requires max < Pow(2, k)
    ensures BitWidth(max) <= k
    decreases k
  {
    if max > 0 {
      BitWidthBound(max / 2, k - 1);
    }
  }

  /** The width is the number of binary digits of the largest level. */
  lemma {:induction false} BitWidthExact(max: nat)
    requires max > 0
    ensures Pow(2, BitWidth(max) - 1) <= max < Pow(2, BitWidth(max))
  {
    if max > 1 {
      BitWidthExact(max / 2);
      var p := Pow(2, BitWidth(max / 2) - 1);
      assert Pow(2, BitWidth(max) - 1) == 2 * p && Pow(2, BitWidth(max)) == 4 * p;
    } else {
      assert BitWidth(max) == 1 + BitWidth(0) && Pow(2, 0) == 1;
    }
  }

  /** The dictionary ids: the bit width in one byte, then runs; zeros when there is no width. */
  function IdSequence(bs: seq<byte>, valueCount: nat): seq<int> {
    if bs == [] || bs[0] == 0 then Repeat(0, valueCount) else HybridValues(bs[1..], bs[0])
  }

  /** What a reader knows of its column: type, maximum definition level, dictionary. */
  datatype Column = Column(t: ColumnType, max: nat, dictionary: Option<seq<Raw>>)
  {
    /** Supported types, matched where decoding may be lazy, and a dictionary of the column's kind. */
    predicate Sound() {
      && t.GetUpdater().Some? && (t.IsLazyDecodingSupported() ==> t.Matched()) && max < TWO_31
      && (dictionary.Some? ==> forall i | 0 <= i < |dictionary.value| :: OfKind(dictionary.value[i], t.Kind()))
    }

    function U(): Updater
      requires t.GetUpdater().Some?
    {
      t.GetUpdater().value
    }

    /** The encodings the reader supports; for others it throws. */
    predicate Supports(page: DataPage) {
      && (page.DataPageV1? && max != 0 ==> page.dlEncoding.RLE?)
      && (if page.IsDictionary() then dictionary.Some? else page.valueEncoding.PLAIN?)
    }

    // A V1 page has its levels behind a length prefix, unless there are none; a V2 page keeps them apart.
    predicate Splits(page: DataPage) {
      page.DataPageV1? && max != 0 ==> |page.bytes| >= 4 && FromLittleEndian(page.bytes[..4]) <= |page.bytes| - 4
    }

    function LevelBytes(page: DataPage): seq<byte>
      requires Splits(page)
    {
      if page.DataPageV2? then page.definitionLevels
      else if max == 0 then page.bytes
      else page.bytes[4..][..FromLittleEndian(page.bytes[..4])]
    }

    function ValueBytes(page: DataPage): seq<byte>
      requires Splits(page)
    {
      if page.DataPageV2? then page.data
      else if max == 0 then page.bytes
      else page.bytes[4..][FromLittleEndian(page.bytes[..4])..]
    }

    function Levels(page: DataPage): seq<int>
      requires Splits(page)
    {
      if max == 0 then Repeat(0, page.valueCount) else HybridValues(LevelBytes(page), BitWidth(max))
    }

    function Ids(page: DataPage): seq<int>
      requires Splits(page)
    {
      IdSequence(ValueBytes(page), page.valueCount)
    }

    /** The page as levels and raw values: ids for a dictionary page, plain values otherwise. */
    function Stored(page: DataPage): Page
      requires Splits(page) && t.GetUpdater().Some?
    {
      Page(Levels(page),
           if page.IsDictionary() then Cells(IntegerUpdater, IdRaws(Ids(page)))
           else Cells(U(), PlainRaws(U().Kind(), ValueBytes(page))),
           max, page.First(), page.valueCount)
    }

    /** An id means the dictionary entry it names, decoded. */
    function Meaning(c: Cell): Cell
      requires dictionary.Some? && t.GetUpdater().Some?
    {
      match c
      case Val(id) => DecodeId(U(), dictionary.value, id)
      case _ => c
    }

    function Meanings(cs: seq<Cell>): (ms: seq<Cell>)
      requires dictionary.Some? && t.GetUpdater().Some?
      ensures |ms| == |cs|
    {
      seq(|cs|, i requires 0 <= i < |cs| => Meaning(cs[i]))
    }

    predicate IdsInRange(cs: seq<Cell>)
      requires dictionary.Some?
    {
      forall i | 0 <= i < |cs| :: cs[i].Val? ==> cs[i].value.IntVal? && 0 <= cs[i].value.n < |dictionary.value|
    }

    /**
     A page the reader can read: supported encodings, a level and, where it is the maximum, a value for
     each row; for a dictionary page a sensible width, no empty runs, and ids the dictionary has.
     */
    predicate Readable(page: DataPage)
      requires t.GetUpdater().Some?
    {
      && Supports(page) && Splits(page) && Stored(page).Complete()
      && page.First() + page.valueCount < LONG_MAX
      && (page.IsDictionary() ==> IdsReadable(page))
    }

    predicate IdsReadable(page: DataPage)
      requires t.GetUpdater().Some? && page.IsDictionary() && Supports(page) && Splits(page) && Stored(page).Complete()
    {
      && (ValueBytes(page) != [] ==> ValueBytes(page)[0] <= 32)
      && (ValueBytes(page) != [] && ValueBytes(page)[0] != 0 ==>
            NoEmptyRuns(ValueBytes(page)[1..], ValueBytes(page)[0]))
      && IdsInRange(Stored(page).Rows())
    }

    /** The rows of a page, whatever its encoding and version. */
    function PageRows(page: DataPage): (rows: seq<Cell>)
      requires t.GetUpdater().Some? && Readable(page)
      ensures |rows| == page.valueCount
    {
      if page.IsDictionary() then Meanings(Stored(page).Rows()) else Stored(page).Rows()
    }
  }

  /** The rows of the chunk that the filter wants, in order. */
  function Chunk(k: Column, pages: seq<DataPage>, f: RowFilter): seq<Cell>
    requires k.t.GetUpdater().Some? && forall i | 0 <= i < |pages| :: k.Readable(pages[i])
  {
    if pages == [] then []
    else Picked(k.PageRows(pages[0]), pages[0].First(), f, 0, pages[0].valueCount) + Chunk(k, pages[1..], f)
  }

  lemma {:induction false} PickedMeanings(k: Column, rows: seq<Cell>, first: int, f: RowFilter, lo: nat, hi: nat)
    requires k.dictionary.Some? && k.t.GetUpdater().Some? && hi <= |rows|
    ensures Picked(k.Meanings(rows), first, f, lo, hi) == k.Meanings(Picked(rows, first, f, lo, hi))
    decreases hi
  {
    hide Column.Meaning;
    if lo < hi {
      PickedMeanings(k, rows, first, f, lo, hi - 1);
    }
  }

  lemma {:induction false} PickedInRange(k: Column, rows: seq<Cell>, first: int, f: RowFilter, lo: nat, hi: nat)
    requires k.dictionary.Some? && hi <= |rows| && k.IdsInRange(rows)
    ensures k.IdsInRange(Picked(rows, first, f, lo, hi))
    decreases hi
  {
    if lo < hi {
      PickedInRange(k, rows, first, f, lo, hi - 1);
    }
  }

  /** With row indexes, pages come in row order: each starts at or after the end of the one before. */
  predicate InRowOrder(pages: seq<DataPage>, f: RowFilter, from: int) {
    f.AllRows? || pages == []
    || (from <= pages[0].First() && InRowOrder(pages[1..], f, pages[0].First() + pages[0].valueCount))
  }

  /**
   What a reader of the chunk is given: a sound column, pages it can read, in order, and increasing
   non-negative row indexes, if any.
   */
  ghost predicate Suppliable(k: Column, pages: seq<DataPage>, rowIndexes: Option<seq<int>>) {
    && k.Sound() && k.t.cal.Lawful() && (forall i | 0 <= i < |pages| :: k.Readable(pages[i]))
    && (rowIndexes.Some? ==>
          && Increasing(rowIndexes.value)
          && forall i | 0 <= i < |rowIndexes.value| :: 0 <= rowIndexes.value[i] <= LONG_MAX)
    && InRowOrder(pages, FilterOf(rowIndexes), 0)
  }
}
