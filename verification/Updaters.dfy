/**
 The value reader behind a page's levels, and the type-specific updaters that move its values
 into a vector. The Java interface VectorizedValuesReader has two implementations that matter
 here, so it is a datatype of two cases.
 */
module Updaters {
  import opened Numbers
  import opened Hybrid
  import opened Columns
  import opened PlainReader
  import opened RleReader

  datatype DataReader =
    | RleIds(rle: VectorizedRleValuesReader)
    | Plain(plain: VectorizedPlainValuesReader)
  {
    ghost function Repr(): set<object>
      reads match this case RleIds(r) => {r} case Plain(p) => {p}
    {
      match this
      case RleIds(r) => r.Repr()
      case Plain(p) => {p}
    }

    /** Dictionary ids are only read as plain ints, one by one as well as in bulk. */
    ghost predicate Ready(u: Updater)
      reads match this case RleIds(r) => {r} case Plain(p) => {p}
    {
      match this
      case RleIds(r) => u.IntegerUpdater? && r.Valid() && r.Solid()
      case Plain(p) => p.Valid() && u.Lawful()
    }

    /** The rows' non-null cells still to be read, as this updater sees them. */
    ghost function Contents(u: Updater): (cs: seq<Cell>)
      reads match this case RleIds(r) => {r} case Plain(p) => {p}
      reads Repr()
      requires Ready(u)
      ensures forall i | 0 <= i < |cs| :: cs[i] != Null
    {
      match this
      case RleIds(r) => Cells(u, IdRaws(r.Pending()))
      case Plain(p) => Cells(u, p.Raws(u.Kind()))
    }
  }

  lemma CellsDrop(u: Updater, raws: seq<Raw>, n: nat)
    requires n <= |raws|
    ensures Cells(u, raws[n..]) == Cells(u, raws)[n..]
    ensures Cells(u, raws[..n]) == Cells(u, raws)[..n]
  {
  }

  lemma IdCells(ids: seq<int>, n: nat)
    requires n <= |ids|
    ensures Cells(IntegerUpdater, IdRaws(ids[n..])) == Cells(IntegerUpdater, IdRaws(ids))[n..]
    ensures Cells(IntegerUpdater, IdRaws(ids[..n])) == Cells(IntegerUpdater, IdRaws(ids))[..n]
    ensures AllValues(Cells(IntegerUpdater, IdRaws(ids)))
    ensures Payload(Cells(IntegerUpdater, IdRaws(ids))[..n]) == IdValues(ids[..n])
  {
  }

  /** `skipValues` of every updater: `total` values leave the reader unseen. */
  method SkipValues(u: Updater, total: nat, reader: DataReader)
    requires reader.Ready(u) && total <= |reader.Contents(u)|
    modifies reader.Repr()
    ensures reader.Ready(u) && fresh(reader.Repr() - old(reader.Repr()))
    ensures reader.Contents(u) == old(reader.Contents(u))[total..]
    ensures reader.Plain? ==> Behind(old(reader.plain.State()), u.Kind(), total, reader.plain.State())
  {
    hide HybridValues, Words, DoubleWords, Binaries, AllBits, Convert, Behind;
    match reader {
      case RleIds(r) =>
        IdCells(r.Pending(), total);
        r.SkipIntegers(total);
      case Plain(p) =>
        CellsDrop(u, p.Raws(u.Kind()), total);
        match u.Kind()
        case PhysBool => p.SkipBooleans(total);
        case Phys32 => p.SkipWords(total);
        case Phys64 => p.SkipDoubleWords(total);
        case PhysBinary => p.SkipBinary(total);
    }
  }

  /** `readValue` of the updaters of 32-bit values. */
  method ReadWord(u: Updater, offset: nat, values: ColumnVector, p: VectorizedPlainValuesReader) returns (ok: bool)
    requires p.Valid() && u.Kind().Phys32? && |Words(p.stream)| > 0 && offset < |values.cells|
    modifies p, values`cells
    ensures p.Valid() && Words(p.stream) == old(Words(p.stream))[1..] && Behind(old(p.State()), Phys32, 1, p.State())
    ensures ok <==> Convert(u, old(Words(p.stream))[0]) != Rejected
    ensures ok ==> values.cells == old(values.cells)[offset := Convert(u, old(Words(p.stream))[0]).value]
  {
    hide Words, Behind;
    ok := true;
    var n := p.ReadInteger();
    match u {
      case IntegerUpdater => values.Put(offset, IntVal(Signed32(n)));
      case UnsignedIntegerUpdater => values.Put(offset, LongVal(n));
      case ByteUpdater => values.Put(offset, ByteVal(Signed8(n % 0x100)));
      case ShortUpdater => values.Put(offset, ShortVal(Signed16(n % 0x1_0000)));
      case IntegerWithRebaseUpdater(fail, cal) =>
        match RebaseDays(Signed32(n), fail, cal) {
          case Val(v) => values.Put(offset, v);
          case _ => ok := false;
        }
    }
  }

  /** `readValue` of the updaters of 64-bit values. */
  method ReadDoubleWord(u: Updater, offset: nat, values: ColumnVector, p: VectorizedPlainValuesReader)
    returns (ok: bool)
    requires p.Valid() && u.Kind().Phys64? && |DoubleWords(p.stream)| > 0 && offset < |values.cells|
    modifies p, values`cells
    ensures p.Valid() && DoubleWords(p.stream) == old(DoubleWords(p.stream))[1..]
    ensures Behind(old(p.State()), Phys64, 1, p.State())
    ensures ok <==> Convert(u, old(DoubleWords(p.stream))[0]) != Rejected
    ensures ok ==> values.cells == old(values.cells)[offset := Convert(u, old(DoubleWords(p.stream))[0]).value]
  {
    hide DoubleWords, Behind;
    ok := true;
    var n := p.ReadLong();
    match u {
      case LongUpdater => values.Put(offset, LongVal(Signed64(n)));
      case DoubleUpdater => values.Put(offset, DoubleVal(n));
      case LongWithRebaseUpdater(fail, cal) =>
        match RebaseMicros(Signed64(n), fail, cal) {
          case Val(v) => values.Put(offset, v);
          case _ => ok := false;
        }
      case LongAsMicrosUpdater =>
        match MillisToMicros(Signed64(n)) {
          case Some(t) => values.Put(offset, LongVal(t));
          case None => ok := false;
        }
      case LongAsMicrosRebaseUpdater(fail, cal) =>
        match MillisToMicros(Signed64(n)) {
          case None => ok := false;
          case Some(t) =>
            match RebaseMicros(t, fail, cal)
            case Val(v) => values.Put(offset, v);
            case _ => ok := false;
        }
    }
  }

  /** `readValue`: one value into one slot. Not `ok` when its conversion throws. */
  method ReadValue(u: Updater, offset: nat, values: ColumnVector, reader: DataReader) returns (ok: bool)
    requires reader.Ready(u) && |reader.Contents(u)| > 0 && offset < |values.cells|
    modifies reader.Repr(), values`cells
    ensures fresh(reader.Repr() - old(reader.Repr()))
    ensures ok <==> old(reader.Contents(u))[0] != Rejected
    ensures ok ==> reader.Ready(u) && reader.Contents(u) == old(reader.Contents(u))[1..]
    ensures ok ==> values.cells == old(values.cells)[offset := old(reader.Contents(u))[0].value]
    ensures ok && reader.Plain? ==> Behind(old(reader.plain.State()), u.Kind(), 1, reader.plain.State())
  {
    hide HybridValues, Words, DoubleWords, AllBits, Behind;
    ok := true;
    match reader {
      case RleIds(r) =>
        IdCells(r.Pending(), 1);
        r.NextIsReady();
        var id := r.ReadInteger();
        values.Put(offset, IntVal(Signed32(id)));
      case Plain(p) =>
        CellsDrop(u, p.Raws(u.Kind()), 1);
        match u.Kind()
        case PhysBool =>
          var b := p.ReadBoolean();
          values.Put(offset, BoolVal(b));
        case PhysBinary =>
          p.ReadBinary(1, values, offset);
        case Phys32 =>
          ok := ReadWord(u, offset, values, p);
        case Phys64 =>
          ok := ReadDoubleWord(u, offset, values, p);
    }
  }

  // The decode methods of a Parquet dictionary; None is the exception for a dictionary of another type.
  function DecodeToInt(raw: Raw): Option<int> { if raw.Raw32? then Some(raw.bits) else None }

  function DecodeToLong(raw: Raw): Option<int> { if raw.Raw64? then Some(raw.bits) else None }

  function DecodeToBinary(raw: Raw): Option<seq<byte>> { if raw.RawBinary? then Some(raw.bytes) else None }

  /** `decodeSingleDictionaryId` of the updaters of 32-bit values. */
  method DecodeWord(u: Updater, offset: nat, values: ColumnVector, raw: Raw) returns (ok: bool)
    requires u.Kind().Phys32? && offset < |values.cells|
    modifies values`cells
    ensures ok <==> Convert(u, raw) != Rejected
    ensures values.cells == if ok then old(values.cells)[offset := Convert(u, raw).value] else old(values.cells)
  {
    var bits := DecodeToInt(raw);
    if bits.None? {
      return false;
    }
    var n := bits.value;
    ok := true;
    match u {
      case IntegerUpdater => values.Put(offset, IntVal(Signed32(n)));
      case UnsignedIntegerUpdater => values.Put(offset, LongVal(n));
      case ByteUpdater => values.Put(offset, ByteVal(Signed8(n % 0x100)));
      case ShortUpdater => values.Put(offset, ShortVal(Signed16(n % 0x1_0000)));
      case IntegerWithRebaseUpdater(fail, cal) =>
        match RebaseDays(Signed32(n), fail, cal) {
          case Val(v) => values.Put(offset, v);
          case _ => ok := false;
        }
    }
  }

  /** `decodeSingleDictionaryId` of the updaters of 64-bit values. */
  method DecodeDoubleWord(u: Updater, offset: nat, values: ColumnVector, raw: Raw) returns (ok: bool)
    requires u.Kind().Phys64? && offset < |values.cells|
    modifies values`cells
    ensures ok <==> Convert(u, raw) != Rejected
    ensures values.cells == if ok then old(values.cells)[offset := Convert(u, raw).value] else old(values.cells)
  {
    var bits := DecodeToLong(raw);
    if bits.None? {
      return false;
    }
    var n := bits.value;
    ok := true;
    match u {
      case LongUpdater => values.Put(offset, LongVal(Signed64(n)));
      case DoubleUpdater => values.Put(offset, DoubleVal(n));
      case LongWithRebaseUpdater(fail, cal) =>
        match RebaseMicros(Signed64(n), fail, cal) {
          case Val(v) => values.Put(offset, v);
          case _ => ok := false;
        }
      case LongAsMicrosUpdater =>
        match MillisToMicros(Signed64(n)) {
          case Some(t) => values.Put(offset, LongVal(t));
          case None => ok := false;
        }
      case LongAsMicrosRebaseUpdater(fail, cal) =>
        match MillisToMicros(Signed64(n)) {
          case None => ok := false;
          case Some(t) =>
            match RebaseMicros(t, fail, cal)
            case Val(v) => values.Put(offset, v);
            case _ => ok := false;
        }
    }
  }

  /**
   `decodeSingleDictionaryId`: the entry that an id names into one slot. It throws for an id that the
   dictionary does not have, for an entry that does not convert, and always for booleans.
   */
  method DecodeSingleDictionaryId(u: Updater, offset: nat, values: ColumnVector, id: Value, dictionary: seq<Raw>)
    returns (ok: bool)
    requires offset < |values.cells|
    modifies values`cells
    ensures ok <==> DecodeId(u, dictionary, id) != Rejected
    ensures values.cells
      == if ok then old(values.cells)[offset := DecodeId(u, dictionary, id).value] else old(values.cells)
  {
    if u.BooleanUpdater? || !id.IntVal? || !(0 <= id.n < |dictionary|) {
      return false;
    }
    var raw := dictionary[id.n];
    match u.Kind() {
      case Phys32 => ok := DecodeWord(u, offset, values, raw);
      case Phys64 => ok := DecodeDoubleWord(u, offset, values, raw);
      case PhysBinary =>
        var bytes := DecodeToBinary(raw);
        ok := bytes.Some?;
        if ok {
          values.Put(offset, BinaryVal(bytes.value));
        }
    }
  }

  /** `readValues`: `total` values into slots from `offset` on, in bulk where the updater has a bulk form. */
  method ReadValues(u: Updater, total: nat, offset: nat, values: ColumnVector, reader: DataReader)
    returns (ok: bool)
    requires reader.Ready(u) && total <= |reader.Contents(u)| && offset + total <= |values.cells|
    modifies reader.Repr(), values`cells
    ensures fresh(reader.Repr() - old(reader.Repr()))
    ensures ok <==> AllValues(old(reader.Contents(u))[..total])
    ensures ok ==> reader.Ready(u) && reader.Contents(u) == old(reader.Contents(u))[total..]
    ensures ok ==> values.cells == Write(old(values.cells), offset, Payload(old(reader.Contents(u))[..total]))
    ensures ok && reader.Plain? ==> Behind(old(reader.plain.State()), u.Kind(), total, reader.plain.State())
  {
    hide HybridValues, Words, DoubleWords, Binaries, AllBits, Write, Behind;
    ok := true;
    match reader {
      case RleIds(r) =>
        IdCells(r.Pending(), total);
        r.ReadIntegers(total, values, offset);
      case Plain(p) =>
        CellsDrop(u, p.Raws(u.Kind()), total);
        match u
        case BooleanUpdater => p.ReadBooleans(total, values, offset);
        case BinaryUpdater => p.ReadBinary(total, values, offset);
        case IntegerUpdater => p.ReadIntegers(total, values, offset);
        case UnsignedIntegerUpdater => p.ReadUnsignedIntegers(total, values, offset);
        case ByteUpdater => p.ReadBytes(total, values, offset);
        case ShortUpdater => p.ReadShorts(total, values, offset);
        case IntegerWithRebaseUpdater(fail, cal) =>
          ok := p.ReadIntegersWithRebase(total, values, offset, fail, cal);
        case LongUpdater => p.ReadLongs(total, values, offset);
        case DoubleUpdater => p.ReadDoubles(total, values, offset);
        case LongWithRebaseUpdater(fail, cal) =>
          ok := p.ReadLongsWithRebase(total, values, offset, fail, cal);
        case _ =>
          ok := ReadOneByOne(u, total, offset, values, reader);
    }
  }

  lemma PayloadOfNone()
    ensures Payload([]) == []
  {
  }

  lemma WriteOneMoreOf(cells: seq<Value>, at: nat, all: seq<Cell>, i: nat)
    requires i < |all| && at + i < |cells| && AllValues(all[..i]) && all[i].Val?
    ensures AllValues(all[..i + 1])
    ensures Write(cells, at, Payload(all[..i]))[at + i := all[i].value] == Write(cells, at, Payload(all[..i + 1]))
  {
    var cs := all[..i + 1];
    assert AllValues(cs);
    assert cs[..i] == all[..i] && cs[..i + 1] == cs;
    WriteOneMore(cells, at, cs, i);
  }

  /** The loop over `readValue` of the updaters without a bulk form: it throws at the first value that does. */
  method ReadOneByOne(u: Updater, total: nat, offset: nat, values: ColumnVector, reader: DataReader)
    returns (ok: bool)
    requires reader.Ready(u) && total <= |reader.Contents(u)| && offset + total <= |values.cells|
    modifies reader.Repr(), values`cells
    ensures fresh(reader.Repr() - old(reader.Repr()))
    ensures ok <==> AllValues(old(reader.Contents(u))[..total])
    ensures ok ==> reader.Ready(u) && reader.Contents(u) == old(reader.Contents(u))[total..]
    ensures ok ==> values.cells == Write(old(values.cells), offset, Payload(old(reader.Contents(u))[..total]))
    ensures ok && reader.Plain? ==> Behind(old(reader.plain.State()), u.Kind(), total, reader.plain.State())
  {
    hide HybridValues, Words, DoubleWords, Binaries, AllBits, Write, Convert, Payload, Behind;
    ghost var all, cells0 := reader.Contents(u), values.cells;
    WriteNone(cells0, offset);
    if reader.Plain? {
      BehindNothing(reader.plain.State(), u.Kind());
    }
    assert all[..0] == [] && Payload([]) == [] by { PayloadOfNone(); }
    for i := 0 to total
      invariant reader.Ready(u) && fresh(reader.Repr() - old(reader.Repr()))
      invariant reader.Contents(u) == all[i..]
      invariant AllValues(all[..i]) && values.cells == Write(cells0, offset, Payload(all[..i]))
      invariant reader.Plain? ==> Behind(old(reader.plain.State()), u.Kind(), i, reader.plain.State())
    {
      ghost var state := match reader case Plain(p) => p.State() case RleIds(_) => PlainState([], 0, 0);
      ok := ReadValue(u, offset + i, values, reader);
      assert all[..total][i] == all[i];
      if !ok {
        return;
      }
      WriteOneMoreOf(cells0, offset, all, i);
      if reader.Plain? {
        BehindMore(old(reader.plain.State()), u.Kind(), i, state, 1, reader.plain.State());
      }
    }
    ok := true;
  }
}
