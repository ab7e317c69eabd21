# Verified model of the QFlock columnar readers

QFlock runs SQL near its storage. This project models, in Dafny, the three places where it moves
columns of bytes, and proves that what comes out is what went in.

1. **The vectorized Parquet reader** of the Spark extension. A column chunk arrives as pages of bytes:
   definition levels and dictionary ids in the RLE / bit-packed hybrid, values in PLAIN. The reader
   turns them into batches of slots, row group by row group, and with row indexes delivers only the rows asked
   for. Two cursors (levels and values), runs that cross batches and ranges, ranges that cross pages, a
   reused buffer and a dictionary that may stay attached to the vector have to agree all the time.
   The specification (modules `Hybrid`, `Columns`, `Rows`, `Pages`, `MixedPages`, `Selection`, `Batches`) is
   independent of all that: decode the levels, give each non-null row the value whose rank is the number of non-null rows before it,
   select the wanted rows. The readers (`RleReader`, `PlainReader`, `Updaters`, `ReadState`,
   `LevelReader`, `Slots`, `ColumnReader`, `Lanes`, `RecordReader`) are classes and loops with the source's own
   fields and branches, proved against it. `RleRuns`, `ColumnRuns` and `AnyOrder` hold whole runs, `Sample` a small column read from
   its bytes, `FormatSamples` readers and packers on bytes written out by hand.
   The byte format is that of the Apache Parquet format, Encodings.md, sections "Run Length Encoding /
   Bit-Packing Hybrid (RLE = 3)", "Plain (PLAIN = 0)" and "Dictionary Encoding".
2. **The JDBC result set**: `Wire` (cells as bytes), `QueryServer` (packing), `JdbcDriver` (unpacking
   and the getters), `JdbcRoundTrip` (when a column comes back).
3. **The WebHDFS file** with its one reused prefetch buffer: `WebHdfs`.

`dafny verify dfyconfig.toml` checks everything.

## How to read the model

- A cell is `Null`, `Val(v)` or `Rejected`; `Rejected` is a value whose conversion throws (rebasing in
  EXCEPTION mode, milliseconds that overflow as microseconds, an id without an entry). Methods that can throw return `ok`; most contracts say exactly when.
- `Pending`, `Contents`, `Remaining`, `RowsLeft` and `Stream` are what a reader has yet to deliver. A
  contract of the form "`Remaining` loses its first n cells and these are what the slots show" states
  order, completeness and absence of duplicates at once.
- Numbers are unbounded; the widths that matter are written out: 32- and 64-bit patterns, the
  narrowing to bytes and shorts, the shift modulo 32, the wrap-around in the driver's index arithmetic.
- A stream is the sequence of bytes not yet read.
- `hide` statements in proofs only keep definitions the proof does not need away from the solver.

## What the reader relies on

The source demands these of its callers or of the files, and the contracts state them (`Suppliable`, `Readable`, `RowGroup.Sound`):

- row indexes are increasing and non-negative; with row indexes, pages come in row order;
- a batch never asks for more rows than remain, and starts with no null flags in the vector;
- where decoding may be lazy, the types match (`ColumnTypes.LazyAgreesExactlyWhenMatched`);
- where decoding may be lazy, no batch gets a value from a plain page before a dictionary page takes its
  turn in it (`Orderly`, asked for by `RecordReader.EveryRowOnce` and `ColumnRuns.ReadInBatches` for the
  batches they read; it holds whenever dictionary pages come first in a chunk). `ReadBatch` itself does
  not ask for it, nor does `AnyOrder.ReadAnyOrder`: their contracts say what is shown for any order;
- a page has a level for each row and a value for each maximum level; dictionary ids are in range and
  no empty run stands before one of them (empty runs of levels are allowed);
- every row group has at least one row, and `capacity` is positive.

## Findings

- `readInteger` fetches the next run once. If that run is empty, it returns a value that is not in the
  data and leaves the count at -1; the bulk reads and skips, which loop, do not mind. The exact
  condition is in the contract of `RleReader.VectorizedRleValuesReader.ReadInteger`, an input in
  `RleRuns.ReadAtEmptyRun`.
- A dictionary page attaches its dictionary to the whole batch. A value that a plain page has put into the
  batch before it is then read through the id left in its slot, and a plain page after it makes the loss
  permanent. `MixedPages.ShowsExactlyWhen` has the exact condition, `Sample.ReadMixed` an input.
- Lazy and eager decoding differ for an INT32 column that is read as a date without being annotated as
  one, in LEGACY and EXCEPTION mode: plain pages are rebased, an attached dictionary is not.
- The driver tells compressed columns by a changed length. A column whose length compression keeps is
  read in its compressed form. Besides, its column counter stands still there, so that a string column
  further on can be taken for a number column and then cannot be read.
- A WebHDFS read that runs past the end of the file gives the clipped data from the server but stale or
  zero bytes from the prefetch buffer.

## Model

| member | source | states |
|---|---|---|
| `RecordReader.EveryRowOnce` | `spark/extensions/src/main/java/org/apache/spark/extension/parquet/VectorizedParquetRecordReader.java:211-227` | A file read batch by batch and, again, row by row yields every row of every row group exactly once and in order, both ways alike; each row group of n rows takes ceil(n / capacity) batches; both fail exactly when some row holds a value whose conversion throws; where decoding is lazy, provided no planned batch gets a plain value before a dictionary page |
| `ColumnRuns.ReadInBatches` | `spark/extensions/src/main/java/org/apache/spark/extension/parquet/VectorizedColumnReader.java:164-235` | For any pages, any row indexes or none, and any batch sizes (empty ones included), the slots of the batches put together are the wanted rows, in order, and it throws exactly when a row asked for does not convert; where decoding is lazy, provided no batch gets a plain value before a dictionary page |
| `ColumnRuns.ReadRowsAt` | `spark/extensions/src/main/java/org/apache/spark/extension/parquet/VectorizedColumnReader.java:164-235` | With row indexes, slot i is the row found by looking index i up in the pages, under any split into batches and pages |
| `AnyOrder.ReadAnyOrder` | `spark/extensions/src/main/java/org/apache/spark/extension/parquet/VectorizedColumnReader.java:164-235` | For pages in any order and any batch sizes, lazy decoding or not: the slots of the batches put together are what the goals of the batches say, where the vector starts with zero ids and each batch leaves the ids of its dictionary cells to the next; it throws exactly when one of the goals does not succeed |
| `Sample.ReadSample` | `spark/extensions/src/main/java/org/apache/spark/extension/parquet/VectorizedColumnReader.java:164-235` | A dictionary page and a plain page, encoded by the format and read for rows 1, 2 and 3 in batches of two, none and one: what the readers rely on can be met, and 9, 7 and null come out |
| `ColumnReader.VectorizedColumnReader.ReadBatch` | `spark/extensions/src/main/java/org/apache/spark/extension/parquet/VectorizedColumnReader.java:164-235` | One call from any reachable state, pages of both kinds in any order: slot i reads, through the dictionary if one is attached, as the i-th cell still owed, unless it is a value from a plain page that a later dictionary page of the batch has come over: then as the entry that the id left in its slot names; what is owed loses exactly these cells; it throws exactly when one of them does not convert, or such an id that has to be decoded; a dictionary left over from the batch before does no harm |
| `MixedPages.ShowsExactlyWhen` | `spark/extensions/src/main/java/org/apache/spark/extension/parquet/VectorizedColumnReader.java:182-228` | A batch shows its cells if and only if each value that a dictionary page has come over is the meaning of the id in its slot; and it does so whatever the ids if and only if no plain page has given the batch a value before a dictionary page takes its turn |
| `MixedPages.UndisturbedShows` | `spark/extensions/src/main/java/org/apache/spark/extension/parquet/VectorizedColumnReader.java:182-233` | A batch that is undisturbed, or of a type that is decoded at once, shows its cells and throws exactly when one of them does not convert |
| `MixedPages.DictionaryFirstIsOrderly` | `spark/extensions/src/main/java/org/apache/spark/extension/parquet/VectorizedColumnReader.java:182-233` | With dictionary pages before plain ones no batch of any sizes is disturbed |
| `Sample.ReadMixed` | `spark/extensions/src/main/java/org/apache/spark/extension/parquet/VectorizedColumnReader.java:164-235` | The reader run on a plain page and then a dictionary page in one batch: the slot with the value 7 reads as 9 |
| `LevelReader.ReadBatchInternal` | `spark/extensions/src/main/java/org/apache/spark/extension/parquet/VectorizedRleValuesReader.java:186-254` | Terminates on runs, pages and ranges of any shape; delivers exactly the picked rows of the page up to where it stops, level and value reader in step there; offset plus what is left of the batch and row plus what is left of the page are constant; slots outside the old and new offset keep their contents; throws only for a wanted row that does not convert |
| `RleRuns.EncodeAndDrain` | `spark/extensions/src/main/java/org/apache/spark/extension/parquet/VectorizedRleValuesReader.java:95-145` | For every bit width from 0 to 32, every list of encoded runs and each of the three ways to start (width known, known behind a length prefix, in the first byte), initialising and draining gives the encoded integers as 32-bit patterns; behind a length prefix the caller's stream is left with what follows the runs |
| `FormatSamples.ReadRuns` | `spark/extensions/src/main/java/org/apache/spark/extension/parquet/VectorizedRleValuesReader.java:95-145` | The readers on bytes written out: 4 44 1 at width 9 gives 300, 300; the bit-packed group 136 198 250 at width 3 gives 0 to 7, also behind a length prefix with a byte left over |
| `RleRuns.PerformAll` | `spark/extensions/src/main/java/org/apache/spark/extension/parquet/VectorizedRleValuesReader.java:145-156` | Any mix of single reads, bulk reads and skips returns the corresponding pieces of one fixed sequence and leaves the rest of it, as long as no single read meets an empty run |
| `RleRuns.SkipThenRead` | `spark/extensions/src/main/java/org/apache/spark/extension/parquet/VectorizedRleValuesReader.java:145-156` | After any skip, a single read finds its value and leaves the reader usable if and only if the value does not stand right behind an empty run; otherwise the count is -1 |
| `Hybrid.SinglyReadableExactly` | `spark/extensions/src/main/java/org/apache/spark/extension/parquet/VectorizedRleValuesReader.java:145-156` | Every value of a stream can be read singly if and only if no empty run stands before a value |
| `RleReader.VectorizedRleValuesReader.SolidIsSingleOk` | `spark/extensions/src/main/java/org/apache/spark/extension/parquet/VectorizedRleValuesReader.java:145-156` | From any state of a reader without empty runs before a value, every value left can be read singly |
| `RleRuns.SolidIsSafe` | `spark/extensions/src/main/java/org/apache/spark/extension/parquet/VectorizedRleValuesReader.java:145-156` | Without empty runs before a value, any mix of reads and skips is safe |
| `ColumnTypes.LazyAgreesExactlyWhenMatched` | `spark/extensions/src/main/java/org/apache/spark/extension/parquet/VectorizedColumnReader.java:138-159` | Decoding on access through the dictionary agrees with eager decoding on every stored value if and only if the Spark type is the one the Parquet type stands for; an INT32 column without a date annotation read as a date in LEGACY mode is one that differs |
| `JdbcRoundTrip.QueryColumn` | `jdbc/driver/src/main/java/com/github/qflock/jdbc/QflockResultSet.java:105-145` | From the table at the server to the driver's getters, row by row as `next` reaches them: every value of a column comes back if and only if the column is intact, which is decided by the lengths before and after compression; in an intact column a number comes back as itself, and a string as its bytes up to the last non-zero one with zeros up to the cell size |
| `JdbcRoundTrip.ColumnComesBack` | `jdbc/server/thrift_handler.py:193-238` | The typed getters return what was packed, at every row, exactly when the column is intact: its length changes and, for strings, the column the driver takes it for holds strings too; or its compressed bytes are its bytes; or nothing is compressed |
| `JdbcRoundTrip.ExpectedComesBack` | `jdbc/server/thrift_handler.py:201-227` | What an intact column gives back, in bytes: numbers as they are, strings up to their last non-zero byte with zeros up to the cell size |
| `JdbcRoundTrip.TextComesBack` | `jdbc/server/thrift_handler.py:201-227` | A packed string that does not end in zero comes back as exactly its own bytes, followed by zeros up to the cell size |
| `WebHdfs.PerformAll` | `storage/metastore/pyhdfs/webhdfs.py:65-130` | Over any run of seeks, prefetches and reads whose reads are inside the file, the reads are those of a plain file; prefetches, also past the end and over a reused buffer, change nothing |
| `WebHdfs.ReplayRead` | `storage/metastore/pyhdfs/webhdfs.py:93-119` | The next read of a run on a plain file gives the bytes from the offset to the end for -1, otherwise as many as asked for, and goes on behind them |
| `WebHdfs.ReplayMove` | `storage/metastore/pyhdfs/webhdfs.py:65-91` | A seek moves the offset from the start, from here or from the end; a prefetch leaves it |
| `WebHdfs.WebHdfsFile.Read` | `storage/metastore/pyhdfs/webhdfs.py:93-119` | The data is the file's, clipped at its end, if and only if the request ends inside the file or is not served from the buffer; -1 gives the file from the offset to its end and stands at the end, a length inside the file gives that many bytes from the offset on; the byte count advances by the length |
| `RecordReader.VectorizedParquetRecordReader.NextBatch` | `spark/extensions/src/main/java/org/apache/spark/extension/parquet/VectorizedParquetRecordReader.java:305-323` | False exactly when all rows are returned, and then for good; otherwise the batch is the next rows of the current row group, its size the next of the planned ones; throws exactly for a row that does not convert; reaching the last block too early is its own outcome |
| `RecordReader.VectorizedParquetRecordReader.CheckEndOfRowGroup` | `spark/extensions/src/main/java/org/apache/spark/extension/parquet/VectorizedParquetRecordReader.java:354-378` | Opens the next row group when the current one is used up; rows left and planned batches stay the same; fails exactly when no row group with rows is left |
| `RecordReader.VectorizedParquetRecordReader.ReadRows` | `spark/extensions/src/main/java/org/apache/spark/extension/parquet/VectorizedParquetRecordReader.java:312-320` | All columns, each with its own reader and vector, advance together; the batch and the rows left make up the old rows left |
| `RecordReader.VectorizedParquetRecordReader.NextKeyValue` | `spark/extensions/src/main/java/org/apache/spark/extension/parquet/VectorizedParquetRecordReader.java:211-221` | In row mode the stream of rows loses exactly its first row, which is the one `getCurrentValue` gives; in batch mode it is `nextBatch`, with all its outcomes |
| `RecordReader.VectorizedParquetRecordReader.NextRow` | `spark/extensions/src/main/java/org/apache/spark/extension/parquet/VectorizedParquetRecordReader.java:217-220` | The stream of rows loses exactly its first row; it is empty when false comes back, and holds a row that does not convert when the call throws |
| `RecordReader.VectorizedParquetRecordReader.GetCurrentValue` | `spark/extensions/src/main/java/org/apache/spark/extension/parquet/VectorizedParquetRecordReader.java:224-227` | The row at `batchIdx - 1`, read through the vectors, is the row of the batch |
| `RecordReader.AllBatches` | `spark/extensions/src/main/java/org/apache/spark/extension/parquet/VectorizedParquetRecordReader.java:305-323` | A loop over `nextBatch` collects all rows left, in batches of the planned sizes; it throws exactly when some row does not convert |
| `RecordReader.AllRowsOneByOne` | `spark/extensions/src/main/java/org/apache/spark/extension/parquet/VectorizedParquetRecordReader.java:211-227` | A loop over `nextKeyValue` collects the stream of rows |
| `Batches.PlanIsFull` | `spark/extensions/src/main/java/org/apache/spark/extension/parquet/VectorizedParquetRecordReader.java:312-317` | Batches are neither empty nor over capacity and together have all rows |
| `Batches.PlanByGroup` | `spark/extensions/src/main/java/org/apache/spark/extension/parquet/VectorizedParquetRecordReader.java:312-317` | No batch straddles a row group |
| `Batches.PlanCount` | `spark/extensions/src/main/java/org/apache/spark/extension/parquet/VectorizedParquetRecordReader.java:305-323` | The number of batches is the sum over the row groups of ceil(rows / capacity) |
| `Batches.CeilDivExact` | `spark/extensions/src/main/java/org/apache/spark/extension/parquet/VectorizedParquetRecordReader.java:305-323` | Ceil(rows / capacity) is the least number of batches that hold the rows |
| `Lanes.ReadColumns` | `spark/extensions/src/main/java/org/apache/spark/extension/parquet/VectorizedParquetRecordReader.java:313-316` | The loop over the columns: each column's cells are shown by its own vector, and reading one column leaves all others as they were |
| `Lanes.ResetVectors` | `spark/extensions/src/main/java/org/apache/spark/extension/parquet/VectorizedParquetRecordReader.java:306-308` | After the reset no vector has a null slot, except those of missing columns, which stay all null |
| `RecordReader.VectorizedParquetRecordReader.NextRowGroup` | `spark/extensions/src/main/java/org/apache/spark/extension/parquet/VectorizedParquetRecordReader.java:356-377` | The next row group's columns take the place of the spent ones: rows left and what the vectors show stay the same |
| `Lanes.OpenColumns` | `spark/extensions/src/main/java/org/apache/spark/extension/parquet/VectorizedParquetRecordReader.java:354-378` | New readers for all columns of a row group, each before the group's cells; missing columns get none |
| `Lanes.InitBatch` | `spark/extensions/src/main/java/org/apache/spark/extension/parquet/VectorizedParquetRecordReader.java:240-275` | Vectors of the batch capacity; those of missing columns are null in every slot |
| `ColumnReader.VectorizedColumnReader.StepPlain` | `spark/extensions/src/main/java/org/apache/spark/extension/parquet/VectorizedColumnReader.java:222-232` | A turn on a plain page: dictionary-encoded slots of the batch are materialised first and the dictionary is detached; afterwards all slots hold their values, and the level and value readers stand behind them |
| `ColumnReader.VectorizedColumnReader.StepDictionary` | `spark/extensions/src/main/java/org/apache/spark/extension/parquet/VectorizedColumnReader.java:182-221` | A turn on a dictionary page keeps the slot invariant: slots from dictionary pages have their ids, the others what was left in them, and either the reader's own dictionary is attached and covers all slots or all slots are materialised |
| `Slots.AttachOrDecode` | `spark/extensions/src/main/java/org/apache/spark/extension/parquet/VectorizedColumnReader.java:191-221` | Whether the dictionary is attached, over all slots of the batch so far, or the new slots are decoded at once, the slots read as the batch's goal says; throws only when an id's value does not convert |
| `Slots.DetachDictionary` | `spark/extensions/src/main/java/org/apache/spark/extension/parquet/VectorizedColumnReader.java:223-228` | Slots under the dictionary get the values of their ids, a left-over dictionary is dropped when nothing has been read; throws exactly when one of these ids does not convert |
| `Slots.DecodeDictionaryIds` | `spark/extensions/src/main/java/org/apache/spark/extension/parquet/ParquetVectorUpdater.java:67-78` | The non-null slots of the stretch, and no others, get the values of their ids; throws exactly when one of them does not convert |
| `Updaters.DecodeSingleDictionaryId` | `spark/extensions/src/main/java/org/apache/spark/extension/parquet/ParquetVectorUpdaterFactory.java:220-730` | Updater by updater, the entry that an id names is decoded into the slot; throws for an id the dictionary does not have, an entry that does not convert, and always for booleans |
| `Slots.ViewIsMeaning` | `spark/extensions/src/main/java/org/apache/spark/extension/parquet/VectorizedColumnReader.java:191-218` | The vector's getter through the attached dictionary gives what decoding the id at once gives |
| `Slots.FullBatch` | `spark/extensions/src/main/java/org/apache/spark/extension/parquet/VectorizedColumnReader.java:182-233` | A full batch reads, slot by slot, as its goal says, with the dictionary attached or not |
| `ColumnReader.VectorizedColumnReader.NextPage` | `spark/extensions/src/main/java/org/apache/spark/extension/parquet/VectorizedColumnReader.java:174-177` | Loading the next page neither loses nor repeats a cell that is owed |
| `ColumnReader.VectorizedColumnReader.LoadPage` | `spark/extensions/src/main/java/org/apache/spark/extension/parquet/VectorizedColumnReader.java:237-334` | Level and value readers stand at the page's first row; throws exactly for an unsupported encoding or a missing dictionary |
| `ColumnReader.VectorizedColumnReader.InitDataReader` | `spark/extensions/src/main/java/org/apache/spark/extension/parquet/VectorizedColumnReader.java:262-293` | The value reader is the one the encoding asks for, over the page's value bytes |
| `ColumnReader.VectorizedColumnReader.InitLevelReader` | `spark/extensions/src/main/java/org/apache/spark/extension/parquet/VectorizedColumnReader.java:295-334` | The level reader of either page version yields the page's levels; the values start behind the length-prefixed levels of a V1 page, or at once when it has none |
| `Selection.PageVersionsAgree` | `spark/extensions/src/main/java/org/apache/spark/extension/parquet/VectorizedColumnReader.java:295-334` | A V1 and a V2 page with the same levels and values are readable alike and hold the same rows, also at maximum level 0 |
| `Selection.ChunkIsLookup` | `spark/extensions/src/main/java/org/apache/spark/extension/parquet/ParquetReadState.java:72-98` | The rows a filter of row indexes picks from the pages are, index by index, the rows looked up in the pages, and no others |
| `Selection.ChunkIsEverything` | `spark/extensions/src/main/java/org/apache/spark/extension/parquet/ParquetReadState.java:143-145` | Without row indexes the chunk is all rows of all pages |
| `LevelReader.SkipValues` | `spark/extensions/src/main/java/org/apache/spark/extension/parquet/VectorizedRleValuesReader.java:260-288` | Skipping n rows leaves both readers in step n rows further on, across runs of either kind |
| `LevelReader.SkipPacked` | `spark/extensions/src/main/java/org/apache/spark/extension/parquet/VectorizedRleValuesReader.java:275-282` | In a packed run one value is skipped for each maximum level |
| `LevelReader.ReadRunRows` | `spark/extensions/src/main/java/org/apache/spark/extension/parquet/VectorizedRleValuesReader.java:227-244` | Rows of the current run: values at maximum levels, nulls elsewhere, nothing outside touched |
| `LevelReader.ReadStep` | `spark/extensions/src/main/java/org/apache/spark/extension/parquet/VectorizedRleValuesReader.java:198-251` | One turn of the loop: skip before the range, drop a range that has ended, or read the overlap; each keeps the readers in step and makes progress |
| `Rows.ValuesRun` | `spark/extensions/src/main/java/org/apache/spark/extension/parquet/VectorizedRleValuesReader.java:227-244` | Rows of a stretch of maximum levels are the next values in order; of any other level, nulls |
| `ReadState.ConstructRanges` | `spark/extensions/src/main/java/org/apache/spark/extension/parquet/ParquetReadState.java:72-98` | The ranges expand to exactly the given indexes and are sorted and non-adjacent |
| `ReadState.RangesMinimal` | `spark/extensions/src/main/java/org/apache/spark/extension/parquet/ParquetReadState.java:72-98` | No list of intervals with the same rows is shorter |
| `ReadState.ParquetReadState.RangePassed` | `spark/extensions/src/main/java/org/apache/spark/extension/parquet/ParquetReadState.java:143-151` | Dropping a range that ends below the current row gives up no wanted row from there on |
| `ReadState.ParquetReadState.BeforeRange` | `spark/extensions/src/main/java/org/apache/spark/extension/parquet/VectorizedRleValuesReader.java:205-208` | Rows before the current range are wanted by no range |
| `ReadState.ParquetReadState.InsideRange` | `spark/extensions/src/main/java/org/apache/spark/extension/parquet/VectorizedRleValuesReader.java:211-225` | Rows in the current range are wanted |
| `ReadState.ParquetReadState.AdvanceOffsetAndRowId` | `spark/extensions/src/main/java/org/apache/spark/extension/parquet/ParquetReadState.java:133-138` | Offset plus rest of the batch, and row plus rest of the page, stay constant |
| `ReadState.ParquetReadState.ResetForNewPage` | `spark/extensions/src/main/java/org/apache/spark/extension/parquet/ParquetReadState.java:111-114` | Jumping forward to the next page's first row gives up no wanted row |
| `RleReader.VectorizedRleValuesReader.InitFromPage` | `spark/extensions/src/main/java/org/apache/spark/extension/parquet/VectorizedRleValuesReader.java:95-117` | The values to read are the decoded runs of the bytes behind the length prefix or the width byte, or as many zeros as the page has values |
| `RleReader.VectorizedRleValuesReader.ReadInteger` | `spark/extensions/src/main/java/org/apache/spark/extension/parquet/VectorizedRleValuesReader.java:145-156` | Returns the next value and stays usable if and only if the current run has values left or the next run is not empty; on an empty run the count falls to -1 |
| `RleReader.VectorizedRleValuesReader.ReadIntegers` | `spark/extensions/src/main/java/org/apache/spark/extension/parquet/VectorizedRleValuesReader.java:294-312` | Writes the next n values into the n slots and takes them off the sequence, over runs of any kind, empty ones included |
| `RleReader.VectorizedRleValuesReader.SkipIntegers` | `spark/extensions/src/main/java/org/apache/spark/extension/parquet/VectorizedRleValuesReader.java:391-406` | Takes n values off the sequence unread |
| `RleReader.VectorizedRleValuesReader.ReadNextGroup` | `spark/extensions/src/main/java/org/apache/spark/extension/parquet/VectorizedRleValuesReader.java:504-535` | Opening a run leaves the sequence as it is, whether the buffer is reused or replaced; of the stream it takes the header and, for a repeated run, the k bytes with 8(k - 1) < bit width <= 8k, whose little-endian number is the value, or `bit width` bytes for each packed group |
| `RleReader.VectorizedRleValuesReader.ReadUnsignedVarInt` | `spark/extensions/src/main/java/org/apache/spark/extension/parquet/VectorizedRleValuesReader.java:451-463` | The shift-and-or loop, with shifts taken modulo 32, reads the ULEB128 number |
| `RleReader.VectorizedRleValuesReader.ReadIntLittleEndianPaddedOnBitWidth` | `spark/extensions/src/main/java/org/apache/spark/extension/parquet/VectorizedRleValuesReader.java:477-499` | Takes the k bytes with 8(k - 1) < bit width <= 8k and gives their little-endian number |
| `Hybrid.RepeatedValueBytes` | `spark/extensions/src/main/java/org/apache/spark/extension/parquet/VectorizedRleValuesReader.java:477-499` | The value of an encoded repeated run has k bytes with 8(k - 1) < bit width <= 8k |
| `Hybrid.LittleEndianDigits` | `spark/extensions/src/main/java/org/apache/spark/extension/parquet/VectorizedRleValuesReader.java:466-475` | A little-endian number has its bytes as digits to base 256, the first one lowest |
| `Hybrid.GroupBit` | `spark/extensions/src/main/java/org/apache/spark/extension/parquet/VectorizedRleValuesReader.java:519-529` | Bit j of value i of a packed group is bit w * i + j of the group, counted from the lowest bit of its first byte |
| `Pages.BitWidthExact` | `spark/extensions/src/main/java/org/apache/spark/extension/parquet/VectorizedColumnReader.java:295-334` | The bit width of the levels is the least that holds the maximum level |
| `Hybrid.HybridRoundTrip` | `spark/extensions/src/main/java/org/apache/spark/extension/parquet/VectorizedRleValuesReader.java:504-535` | Decoding any encoded run list gives the values of its runs, whatever bytes follow |
| `Hybrid.GroupRoundTrip` | `spark/extensions/src/main/java/org/apache/spark/extension/parquet/VectorizedRleValuesReader.java:519-529` | Unpacking a bit-packed group of eight gives the eight values |
| `Hybrid.UlebRoundTrip` | `spark/extensions/src/main/java/org/apache/spark/extension/parquet/VectorizedRleValuesReader.java:451-463` | Decoding an encoded ULEB128 number gives the number and the bytes behind it |
| `FormatSamples.LongHeader` | `spark/extensions/src/main/java/org/apache/spark/extension/parquet/VectorizedRleValuesReader.java:451-463` | The bytes 229 142 38 are 624485 |
| `RleRuns.ReadAtEmptyRun` | `spark/extensions/src/main/java/org/apache/spark/extension/parquet/VectorizedRleValuesReader.java:145-156` | At the bytes 0 5 4 7, width 8: the sequence is 7, 7, but the single read takes the 5 of the empty run and leaves the count at -1 |
| `Updaters.SkipValues` | `spark/extensions/src/main/java/org/apache/spark/extension/parquet/ParquetVectorUpdaterFactory.java:196-226` | `skipValues` of every updater takes exactly n values off the reader and, for PLAIN, leaves it in the very state reading them leaves it in |
| `Updaters.ReadValues` | `spark/extensions/src/main/java/org/apache/spark/extension/parquet/ParquetVectorUpdaterFactory.java:196-730` | `readValues` of every updater writes what converting value by value gives, throws exactly when one conversion throws, and leaves a PLAIN reader in the state skipping leaves it in |
| `Updaters.ReadValue` | `spark/extensions/src/main/java/org/apache/spark/extension/parquet/ParquetVectorUpdaterFactory.java:196-730` | `readValue` writes the converted next value, and throws exactly when its conversion does |
| `Updaters.ReadOneByOne` | `spark/extensions/src/main/java/org/apache/spark/extension/parquet/ParquetVectorUpdaterFactory.java:586-605` | The updaters without a bulk form loop over single values and stop at the first that throws |
| `PlainReader.AfterSplit` | `spark/extensions/src/main/java/org/apache/spark/extension/parquet/VectorizedPlainValuesReader.java:57-98` | Splitting a read or a skip anywhere makes no difference to the state it ends in, for booleans at any bit offset too |
| `PlainReader.VectorizedPlainValuesReader.ReadIntegersWithRebase` | `spark/extensions/src/main/java/org/apache/spark/extension/parquet/VectorizedPlainValuesReader.java:113-139` | The two-pass bulk rebase writes what rebasing value by value writes, and throws if and only if some single value would |
| `PlainReader.VectorizedPlainValuesReader.ReadLongsWithRebase` | `spark/extensions/src/main/java/org/apache/spark/extension/parquet/VectorizedPlainValuesReader.java:175-207` | The same for 64-bit microseconds |
| `PlainReader.IntegerWithRebaseUpdaterCells` | `spark/extensions/src/main/java/org/apache/spark/extension/parquet/ParquetVectorUpdaterFactory.java:1050-1060` | As rebasing is the identity from the switch day on, rebasing all values or none is rebasing each |
| `PlainReader.LongWithRebaseUpdaterCells` | `spark/extensions/src/main/java/org/apache/spark/extension/parquet/ParquetVectorUpdaterFactory.java:1062-1076` | The same from the switch instant on |
| `PlainReader.VectorizedPlainValuesReader.ReadBooleans` | `spark/extensions/src/main/java/org/apache/spark/extension/parquet/VectorizedPlainValuesReader.java:57-63` | The next n bits from any bit offset, in the order of `AllBits`, which `PlainReader.BitsMakeByte` ties to the byte |
| `PlainReader.VectorizedPlainValuesReader.SkipBooleans` | `spark/extensions/src/main/java/org/apache/spark/extension/parquet/VectorizedPlainValuesReader.java:65-70` | Leaves the same byte, bit offset and stream as reading n booleans |
| `PlainReader.VectorizedPlainValuesReader.ReadBoolean` | `spark/extensions/src/main/java/org/apache/spark/extension/parquet/VectorizedPlainValuesReader.java:284-300` | The next bit in that order; a new byte is taken at offset 0 |
| `PlainReader.BitsMakeByte` | `spark/extensions/src/main/java/org/apache/spark/extension/parquet/VectorizedPlainValuesReader.java:284-300` | The eight booleans of a byte, read as binary digits with the least significant first, are the byte |
| `PlainReader.BoolsRoundTrip` | `spark/extensions/src/main/java/org/apache/spark/extension/parquet/VectorizedPlainValuesReader.java:284-300` | Booleans packed by doubling are the bits of the packed bytes |
| `FormatSamples.PackAndRead` | `spark/extensions/src/main/java/org/apache/spark/extension/parquet/VectorizedPlainValuesReader.java:57-70` | Packed booleans, skipped and read by the reader, come back from any offset on |
| `FormatSamples.PlainBytes` | `spark/extensions/src/main/java/org/apache/spark/extension/parquet/VectorizedPlainValuesReader.java:72-93` | Bytes written out: words, a length-prefixed string and booleans |
| `PlainReader.VectorizedPlainValuesReader.ReadBinary` | `spark/extensions/src/main/java/org/apache/spark/extension/parquet/VectorizedPlainValuesReader.java:333-346` | The next n length-prefixed byte strings |
| `PlainReader.VectorizedPlainValuesReader.SkipBinary` | `spark/extensions/src/main/java/org/apache/spark/extension/parquet/VectorizedPlainValuesReader.java:348-353` | Leaves the stream where reading n byte strings leaves it |
| `PlainReader.VectorizedPlainValuesReader.ReadIntegers` | `spark/extensions/src/main/java/org/apache/spark/extension/parquet/VectorizedPlainValuesReader.java:81-93` | The next n little-endian words as ints, and the stream behind them |
| `PlainReader.VectorizedPlainValuesReader.ReadBytes` | `spark/extensions/src/main/java/org/apache/spark/extension/parquet/VectorizedPlainValuesReader.java:250-261` | The first byte of each word is the word's low byte |
| `PlainReader.VectorizedPlainValuesReader.SkipWords` | `spark/extensions/src/main/java/org/apache/spark/extension/parquet/VectorizedPlainValuesReader.java:96-98` | Leaves the stream where reading n words leaves it |
| `PlainReader.VectorizedPlainValuesReader.SkipDoubleWords` | `spark/extensions/src/main/java/org/apache/spark/extension/parquet/VectorizedPlainValuesReader.java:157-159` | Leaves the stream where reading n double words leaves it |
| `ColumnTypes.LazyIsEager` | `spark/extensions/src/main/java/org/apache/spark/extension/parquet/VectorizedColumnReader.java:138-159` | For matched types that support lazy decoding, the vector's getter through the dictionary gives the eagerly converted value and never throws |
| `ColumnTypes.SupportedTypes` | `spark/extensions/src/main/java/org/apache/spark/extension/parquet/ParquetVectorUpdaterFactory.java:70-180` | The types that have an updater, of those modelled |
| `ColumnTypes.WordReadsAs` | `spark/extensions/src/main/java/org/apache/spark/extension/parquet/ParquetVectorUpdaterFactory.java:78-102` | What each 32-bit pattern reads as, by type: the number, the unsigned number, its low byte or low 16 bits, or the date; in LEGACY mode by the calendar, in EXCEPTION mode rejected exactly before the switch |
| `ColumnTypes.DoubleWordReadsAs` | `spark/extensions/src/main/java/org/apache/spark/extension/parquet/ParquetVectorUpdaterFactory.java:103-127` | What each 64-bit pattern reads as: the number, or the timestamp, with milliseconds times 1000 or rejected if that overflows; rebased as dates are |
| `ColumnTypes.OthersReadAs` | `spark/extensions/src/main/java/org/apache/spark/extension/parquet/ParquetVectorUpdaterFactory.java:73-77` | Booleans, doubles and strings read as they are stored |
| `ColumnTypes.StoredAs` | `spark/extensions/src/main/java/org/apache/spark/extension/parquet/ParquetVectorUpdaterFactory.java:70-180` | How wide the stored values of each type are |
| `ColumnTypes.LazyExceptFor` | `spark/extensions/src/main/java/org/apache/spark/extension/parquet/VectorizedColumnReader.java:138-159` | Decoding is put off for all types but booleans, dates and timestamps to be rebased, and milliseconds |
| `Columns.EntriesByNumber` | `spark/extensions/src/main/java/org/apache/spark/extension/parquet/ParquetVectorUpdater.java:67-78` | Ids number the dictionary's entries from 0 in order |
| `QueryServer.ExecQuery` | `jdbc/server/thrift_handler.py:193-253` | The result set carries, column by column, the packed bytes or their compressed form with all sizes, and the numbers java.sql.Types has for the types; fails exactly for an unsupported column type |
| `JdbcDriver.QflockResultSet.GetColumnResults` | `jdbc/driver/src/main/java/com/github/qflock/jdbc/QflockResultSet.java:105-145` | The unpacked buffers, in order; throws exactly when one column cannot be unpacked |
| `JdbcRoundTrip.ReadColumn` | `jdbc/driver/src/main/java/com/github/qflock/jdbc/QflockResultSet.java:798-802` | A loop over `next` reaches each row once, in order, and stops behind the last one |
| `JdbcRoundTrip.GetDecodes` | `jdbc/driver/src/main/java/com/github/qflock/jdbc/QflockResultSet.java:360-475` | The index arithmetic of each typed getter, wrap-around included, finds the cell of its row, and a string needs a buffer on the heap |
| `JdbcRoundTrip.RowDecodes` | `jdbc/driver/src/main/java/com/github/qflock/jdbc/QflockResultSet.java:360-475` | A getter returns the packed value if and only if the buffer has the cell's bytes at its place |
| `JdbcRoundTrip.BufferReadsBack` | `jdbc/driver/src/main/java/com/github/qflock/jdbc/QflockResultSet.java:360-475` | A column reads back at every row if and only if its buffer has exactly the packed bytes, and is on the heap if they are strings |
| `JdbcRoundTrip.CellDecodes` | `jdbc/server/thrift_handler.py:201-227` | A cell decodes to its value if and only if it has the bytes the server packs, for each type |
| `JdbcRoundTrip.UnpacksSent` | `jdbc/driver/src/main/java/com/github/qflock/jdbc/QflockResultSet.java:105-145` | The driver throws on nothing the server sends, and takes column c for the column whose number is the count of columns decompressed before |
| `JdbcRoundTrip.DifferentLengthsSuffice` | `jdbc/driver/src/main/java/com/github/qflock/jdbc/QflockResultSet.java:114` | Where compression changes the length of every column, every column is intact |
| `JdbcRoundTrip.EqualLengthExample` | `jdbc/driver/src/main/java/com/github/qflock/jdbc/QflockResultSet.java:114-140` | With a lossless codec that keeps the length of one column, that column is lost and the string column after it too |
| `JdbcRoundTrip.LoseColumns` | `jdbc/driver/src/main/java/com/github/qflock/jdbc/QflockResultSet.java:114-140` | The same, run from the server to the getters: neither gives what was packed |
| `Wire.PackSlice` | `jdbc/server/thrift_handler.py:224-238` | Cell r of a column is its r-th slice |
| `Wire.SlicesMakePack` | `jdbc/server/thrift_handler.py:224-238` | Bytes of the right length whose every slice is the cell of the column are the column's bytes |
| `Wire.BigEndianRoundTrip` | `jdbc/server/thrift_handler.py:224` | Big-endian bytes read back as the number |
| `Wire.BigEndianDigits` | `jdbc/server/thrift_handler.py:224` | A big-endian number has its bytes as digits to base 256, the last one lowest |
| `Wire.StripMeaning` | `jdbc/server/thrift_handler.py:205-208` | What is packed of a string is the string without the zeros at its end: only zeros are dropped, and none is left at the end |
| `Wire.ItemSizeExact` | `jdbc/server/thrift_handler.py:205-208` | A cell has one byte, or as many as some string of the column needs |
| `FormatSamples.LongBytes` | `jdbc/server/thrift_handler.py:201-227` | The longs 258 and -1 as packed bytes |
| `FormatSamples.TextBytes` | `jdbc/server/thrift_handler.py:201-227` | The strings 'a ' and 'bcd' with a zero at its end as packed bytes: the space stays, the zero goes |
| `WebHdfs.WebHdfsFile.Prefetch` | `storage/metastore/pyhdfs/webhdfs.py:75-91` | The front of the buffer is what the server answered; in a buffer that is reused the bytes behind it stay |
| `WebHdfs.WebHdfsFile.HitIsFile` | `storage/metastore/pyhdfs/webhdfs.py:101-105` | Inside the file the buffered bytes are the file's |
| `WebHdfs.WebHdfsFile.ReadInto` | `storage/metastore/pyhdfs/webhdfs.py:121-125` | Fills the front of the caller's buffer with what `read` gives and leaves the rest |
| `WebHdfs.Perform` | `storage/metastore/pyhdfs/webhdfs.py:65-130` | Any single operation inside the file moves the offset as on a plain file, and a read returns the file's bytes there |
| `WebHdfs.WebHdfsFile.Clone` | `storage/metastore/pyhdfs/webhdfs.py:49-51` | A second handle at the same offset, without a buffer |
| `WebHdfs.PastTheEnd` | `storage/metastore/pyhdfs/webhdfs.py:93-105` | A three-byte file read past its end from the buffer gives four bytes, not one |

## Left out

- The Parquet, Spark, Hadoop and Thrift libraries: page readers, streams and vectors are sequences and small classes; `unpack8Values` is bit unpacking from the format.
- zstd is a pair of functions with the inverse law; the Julian/Gregorian tables are functions that are the identity from the switch on.
- Updaters for FLOAT, INT96, decimals, fixed-length byte arrays, unsigned longs and `DowncastLongUpdater`, and time-zone conversion; doubles are bit patterns.
- `ParquetDictionary` and the vector's getters are modelled from what the column reader relies on (`LazyGet`); their source is not part of this model.
- Repetition levels: the columns are flat, so nothing is consumed for them.
- The branch for byte buffers without a backing array in the PLAIN reader: it writes the same values as the other one.
- Pages.Column.IdsReadable: asks that no empty run stand before any id of a dictionary page; only ids of rows in bit-packed level runs are read singly, so pages whose empty id runs stand elsewhere are readable as well.
- A new vector for ids is taken to hold zeros, as memory on the heap does; off the heap it may hold anything, so that the 9 of `Sample.ReadMixed` is what happens on the heap.
- Partition columns, `close`, progress, schema checks on opening, and the copying of a batch by a caller; the vectors are allocated by the constructor instead of on first use.
- Columns of a chunk with zero values and dictionaries that cannot be decoded, for which the constructor of the column reader throws.
- Counts and sizes are taken to fit their Java types: pages, batches and wire columns below 2^31, row counts below 2^63.
- LevelReader.ReadBatchInternal: for a value that does not convert it states only that some wanted row within the batch throws, as the contents of the vector are then not used.
- JdbcRoundTrip.QueryColumn: covers tables of non-null columns whose bytes, compressed or not, stay below 2^31; `getObject` and the numeric getters on columns of another type are not covered.
- JdbcDriver.QflockResultSet.GetColumnResults: takes each received buffer as an array of its own; buffers that share the transport's array are not modelled.
- WebHdfs.WebHdfsFile.Read: for an offset outside the file it says only how far the offset moves and how much data there can be, as the server's error body is arbitrary; reads after `close`, and `read()` from beyond the end, are not covered.
- Thread locks, metadata getters, the metastore scripts, launchers and benchmarks.
