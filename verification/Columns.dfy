/**
 Column values: what a Parquet page or dictionary stores (`Raw`), what a batch holds (`Value`),
 what a row reads as (`Cell`), the conversion each updater performs, and the column vector.
 */
module Columns {
  import opened Numbers

  /** A stored value; the numbers are bit patterns. */
  datatype Raw = Raw32(bits: int) | Raw64(bits: int) | RawBool(b: bool) | RawBinary(bytes: seq<byte>)

  datatype Physical = PhysBool | Phys32 | Phys64 | PhysBinary

  predicate OfKind(raw: Raw, k: Physical) {
    match k
    case PhysBool => raw.RawBool?
    case Phys32 => raw.Raw32? && 0 <= raw.bits < TWO_32
    case Phys64 => raw.Raw64? && 0 <= raw.bits < TWO_64
    case PhysBinary => raw.RawBinary?
  }

  datatype Value =
    | BoolVal(b: bool)
    | ByteVal(n: int)
    | ShortVal(n: int)
    | IntVal(n: int)
    | LongVal(n: int)
    | DoubleVal(bits: int)
    | BinaryVal(bytes: seq<byte>)

  /** A row of a column: null, a value, or a value whose conversion throws. */
  datatype Cell = Null | Val(value: Value) | Rejected

  predicate Accepted(cs: seq<Cell>) { forall i | 0 <= i < |cs| :: cs[i] != Rejected }

  predicate AllValues(cs: seq<Cell>) { forall i | 0 <= i < |cs| :: cs[i].Val? }

  function Payload(cs: seq<Cell>): (vs: seq<Value>)
    requires AllValues(cs)
    ensures |vs| == |cs|
  {
    seq(|cs|, i requires 0 <= i < |cs| => cs[i].value)
  }

  /** The calendar tables of RebaseDateTime. Days and micros from the switch on do not move. */
  datatype Calendar = Calendar(switchDay: int, days: int -> int, switchMicros: int, micros: int -> int)
  {
    ghost predicate Lawful() {
      && (forall d :: d >= switchDay ==> days(d) == d)
      && (forall t :: t >= switchMicros ==> micros(t) == t)
    }
  }

  datatype Updater =
    | BooleanUpdater
    | IntegerUpdater
    | UnsignedIntegerUpdater
    | ByteUpdater
    | ShortUpdater
    | IntegerWithRebaseUpdater(failIfRebase: bool, cal: Calendar)
    | LongUpdater
    | LongWithRebaseUpdater(failIfRebase: bool, cal: Calendar)
    | LongAsMicrosUpdater
    | LongAsMicrosRebaseUpdater(failIfRebase: bool, cal: Calendar)
    | DoubleUpdater
    | BinaryUpdater
  {
    function Kind(): Physical {
      match this
      case BooleanUpdater => PhysBool
      case BinaryUpdater => PhysBinary
      case LongUpdater | LongWithRebaseUpdater(_, _) | LongAsMicrosUpdater
         | LongAsMicrosRebaseUpdater(_, _) | DoubleUpdater => Phys64
      case _ => Phys32
    }

    ghost predicate Lawful() {
      match this
      case IntegerWithRebaseUpdater(_, cal) => cal.Lawful()
      case LongWithRebaseUpdater(_, cal) => cal.Lawful()
      case LongAsMicrosRebaseUpdater(_, cal) => cal.Lawful()
      case _ => true
    }
  }

  function RebaseDays(day: int, failIfRebase: bool, cal: Calendar): Cell {
    if failIfRebase then if day < cal.switchDay then Rejected else Val(IntVal(day))
    else Val(IntVal(cal.days(day)))
  }

  function RebaseMicros(t: int, failIfRebase: bool, cal: Calendar): Cell {
    if failIfRebase then if t < cal.switchMicros then Rejected else Val(LongVal(t))
    else Val(LongVal(cal.micros(t)))
  }

  /** DateTimeUtils.millisToMicros multiplies exactly: None is its ArithmeticException. */
  function MillisToMicros(millis: int): Option<int> {
    if LONG_MIN <= millis * 1000 <= LONG_MAX then Some(millis * 1000) else None
  }

  /** What one stored value becomes in the batch. */
  function Convert(u: Updater, raw: Raw): (c: Cell)
    ensures c != Null
  {
    match (u, raw)
    case (BooleanUpdater, RawBool(b)) => Val(BoolVal(b))
    case (IntegerUpdater, Raw32(p)) => Val(IntVal(Signed32(p)))
    case (UnsignedIntegerUpdater, Raw32(p)) => Val(LongVal(p))
    case (ByteUpdater, Raw32(p)) => Val(ByteVal(Signed8(p % 0x100)))
    case (ShortUpdater, Raw32(p)) => Val(ShortVal(Signed16(p % 0x1_0000)))
    case (IntegerWithRebaseUpdater(f, cal), Raw32(p)) => RebaseDays(Signed32(p), f, cal)
    case (LongUpdater, Raw64(p)) => Val(LongVal(Signed64(p)))
    case (LongWithRebaseUpdater(f, cal), Raw64(p)) => RebaseMicros(Signed64(p), f, cal)
    case (LongAsMicrosUpdater, Raw64(p)) =>
      (match MillisToMicros(Signed64(p))
       case None => Rejected
       case Some(t) => Val(LongVal(t)))
    case (LongAsMicrosRebaseUpdater(f, cal), Raw64(p)) =>
      (match MillisToMicros(Signed64(p))
       case None => Rejected
       case Some(t) => RebaseMicros(t, f, cal))
    case (DoubleUpdater, Raw64(p)) => Val(DoubleVal(p))
    case (BinaryUpdater, RawBinary(bs)) => Val(BinaryVal(bs))
    case _ => Rejected
  }

  /** What a dictionary id becomes. Ids outside the dictionary throw, and so does any id of a boolean column. */
  function DecodeId(u: Updater, dictionary: seq<Raw>, id: Value): (c: Cell)
    ensures c != Null
  {
    if u.BooleanUpdater? || !id.IntVal? || !(0 <= id.n < |dictionary|) then Rejected else Convert(u, dictionary[id.n])
  }

  /** Ids number the entries from 0 in the order of the dictionary. */
  lemma EntriesByNumber(u: Updater, dictionary: seq<Raw>, raw: Raw, id: Value)
    requires !u.BooleanUpdater? && id.IntVal? && id.n <= |dictionary|
    ensures DecodeId(u, dictionary + [raw], id)
      == if id.n == |dictionary| then Convert(u, raw) else DecodeId(u, dictionary, id)
  {
  }

  function Cells(u: Updater, raws: seq<Raw>): (cs: seq<Cell>)
    ensures |cs| == |raws|
    ensures forall i | 0 <= i < |cs| :: cs[i] != Null
  {
    seq(|raws|, i requires 0 <= i < |raws| => Convert(u, raws[i]))
  }

  // ---- vectors

  /** `cells` with `vs` written from slot `at` on. */
  function Write(cells: seq<Value>, at: nat, vs: seq<Value>): (r: seq<Value>)
    requires at + |vs| <= |cells|
    ensures |r| == |cells|
  {
    cells[..at] + vs + cells[at + |vs|..]
  }

  lemma WriteWrite(cells: seq<Value>, at: nat, a: seq<Value>, b: seq<Value>)
    requires at + |a| + |b| <= |cells|
    ensures Write(Write(cells, at, a), at + |a|, b) == Write(cells, at, a + b)
  {
  }

  /** The dictionary a vector decodes through, with ParquetDictionary's transform flag. */
  datatype Dictionary = Dictionary(entries: seq<Raw>, needTransform: bool)

  class ColumnVector {
    var cells: seq<Value>
    var isNull: seq<bool>
    var dictionary: Option<Dictionary>
    var dictionaryIds: ColumnVector?

    constructor (capacity: nat)
      ensures |cells| == |isNull| == capacity
      ensures forall i | 0 <= i < capacity :: !isNull[i] && cells[i] == IntVal(0)
      ensures dictionary == None && dictionaryIds == null
    {
      cells := seq(capacity, _ => IntVal(0));
      isNull := seq(capacity, _ => false);
      dictionary := None;
      dictionaryIds := null;
    }

    method Put(i: nat, v: Value)
      requires i < |cells|
      modifies `cells
      ensures cells == old(cells)[i := v]
    {
      cells := cells[i := v];
    }

    method PutAll(at: nat, vs: seq<Value>)
      requires at + |vs| <= |cells|
      modifies `cells
      ensures cells == Write(old(cells), at, vs)
    {
      cells := Write(cells, at, vs);
    }

    method PutNulls(at: nat, n: nat)
      requires at + n <= |isNull|
      modifies `isNull
      ensures |isNull| == |old(isNull)|
      ensures forall i | 0 <= i < |isNull| :: isNull[i] == (at <= i < at + n || old(isNull)[i])
    {
      isNull := isNull[..at] + seq(n, _ => true) + isNull[at + n..];
    }

    /** Slots become non-null again; cells and the dictionary stay. */
    method Reset()
      modifies `isNull
      ensures |isNull| == |old(isNull)| && forall i | 0 <= i < |isNull| :: !isNull[i]
    {
      isNull := seq(|isNull|, _ => false);
    }

    /** What the child vector holds in slot `i` before anything is written: what is left there, or zero. */
    ghost function IdLeft(i: nat): Value
      reads this, dictionaryIds
    {
      if dictionaryIds != null && i < |dictionaryIds.cells| then dictionaryIds.cells[i] else IntVal(0)
    }

    ghost function IdsLeft(n: nat): (ids: seq<Value>)
      reads this, dictionaryIds
      ensures |ids| == n && forall i: nat | i < n :: ids[i] == IdLeft(i)
    {
      seq(n, i requires 0 <= i < n reads this, dictionaryIds => IdLeft(i))
    }

    /** The child vector for dictionary ids, created on first use and reused (and reset) later. */
    method ReserveDictionaryIds(capacity: nat) returns (ids: ColumnVector)
      requires dictionaryIds != null ==> dictionaryIds != this && |dictionaryIds.cells| == |dictionaryIds.isNull|
      modifies `dictionaryIds, if dictionaryIds == null then {} else {dictionaryIds}
      ensures ids == dictionaryIds && ids != this
      ensures ids == old(dictionaryIds) || fresh(ids)
      ensures |ids.cells| == |ids.isNull| >= capacity
      ensures ids.cells[..capacity] == old(IdsLeft(capacity))
      ensures cells == old(cells) && isNull == old(isNull) && dictionary == old(dictionary)
    {
      if dictionaryIds == null {
        dictionaryIds := new ColumnVector(capacity);
      } else {
        dictionaryIds.Reset();
        if |dictionaryIds.cells| < capacity {
          var more := capacity - |dictionaryIds.cells|;
          dictionaryIds.cells := dictionaryIds.cells + seq(more, _ => IntVal(0));
          dictionaryIds.isNull := dictionaryIds.isNull + seq(more, _ => false);
        }
      }
      ids := dictionaryIds;
    }
  }
}
