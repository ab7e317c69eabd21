/**
 Which updater a column gets, and when its dictionary may stay attached to the vector so that
 values are decoded on access (`LazyGet`) instead of when the batch is read (`Convert`).
 */
module ColumnTypes {
  import opened Numbers
  import opened Columns

  datatype PrimitiveTypeName = BOOLEAN | INT32 | INT64 | DOUBLE | BINARY

  datatype Annotation = NoAnnotation | DateAnnotation | TimestampMillis | TimestampMicros | UnsignedInt(bits: nat)

  datatype SparkType =
    | BooleanType | ByteType | ShortType | IntegerType | LongType
    | DateType | TimestampType | DoubleType | StringType

  datatype RebaseMode = LEGACY | EXCEPTION | CORRECTED

  datatype ColumnType = ColumnType(
    typeName: PrimitiveTypeName, annotation: Annotation, sparkType: SparkType, mode: RebaseMode, cal: Calendar)
  {
    function Kind(): Physical {
      match typeName
      case BOOLEAN => PhysBool
      case INT32 => Phys32
      case INT64 | DOUBLE => Phys64
      case BINARY => PhysBinary
    }

    /** getUpdater; None is the exception for an unsupported pair of types. */
    function GetUpdater(): (r: Option<Updater>)
      ensures r.Some? ==> r.value.Kind() == Kind()
      ensures r.Some? && cal.Lawful() ==> r.value.Lawful()
    {
      match typeName
      case BOOLEAN => if sparkType.BooleanType? then Some(BooleanUpdater) else None
      case INT32 =>
        if sparkType.IntegerType? then Some(IntegerUpdater)
        else if sparkType.LongType? && annotation == UnsignedInt(32) then Some(UnsignedIntegerUpdater)
        else if sparkType.ByteType? then Some(ByteUpdater)
        else if sparkType.ShortType? then Some(ShortUpdater)
        else if sparkType.DateType? then
          if mode.CORRECTED? then Some(IntegerUpdater) else Some(IntegerWithRebaseUpdater(mode.EXCEPTION?, cal))
        else None
      case INT64 =>
        if sparkType.LongType? then Some(LongUpdater)
        else if annotation.TimestampMicros? then
          if mode.CORRECTED? then Some(LongUpdater) else Some(LongWithRebaseUpdater(mode.EXCEPTION?, cal))
        else if annotation.TimestampMillis? then
          if mode.CORRECTED? then Some(LongAsMicrosUpdater) else Some(LongAsMicrosRebaseUpdater(mode.EXCEPTION?, cal))
        else None
      case DOUBLE => if sparkType.DoubleType? then Some(DoubleUpdater) else None
      case BINARY => if sparkType.StringType? then Some(BinaryUpdater) else None
    }

    predicate IsLazyDecodingSupported() {
      match typeName
      case INT32 => !annotation.DateAnnotation? || mode.CORRECTED?
      case INT64 => if annotation.TimestampMicros? then mode.CORRECTED? else !annotation.TimestampMillis?
      case DOUBLE | BINARY => true
      case BOOLEAN => false
    }

    predicate NeedTransform() { annotation == UnsignedInt(32) || annotation == UnsignedInt(64) }

    /**
     The Spark type is the one the Parquet type stands for: a date column is annotated as a date,
     an unsigned int is read as a long, and other 64-bit ints as longs or timestamps.
     */
    predicate Matched() {
      && (typeName.INT32? && sparkType.DateType? && !mode.CORRECTED? ==> annotation.DateAnnotation?)
      && (NeedTransform() ==> typeName.DOUBLE? || (typeName.INT32? && sparkType.LongType?))
      && (typeName.INT64? ==> sparkType.LongType? || sparkType.TimestampType?)
    }
  }

  // ---- what each supported type reads as, in numbers and by the calendar

  /** The pairs of types the reader supports. */
  lemma SupportedTypes(t: ColumnType)
    ensures t.GetUpdater().Some? <==>
      match t.typeName
      case BOOLEAN => t.sparkType.BooleanType?
      case INT32 =>
        || t.sparkType.IntegerType? || t.sparkType.ByteType? || t.sparkType.ShortType? || t.sparkType.DateType?
        || (t.sparkType.LongType? && t.annotation == UnsignedInt(32))
      case INT64 => t.sparkType.LongType? || t.annotation.TimestampMicros? || t.annotation.TimestampMillis?
      case DOUBLE => t.sparkType.DoubleType?
      case BINARY => t.sparkType.StringType?
  {
  }

  /** The value of `width` bits that the pattern `p` stands for in two's complement. */
  ghost predicate StandsFor(p: int, n: int, width: int) {
    -width <= 2 * n < width && (n == p || n == p - width)
  }

  /** What a date or a timestamp becomes, given the calendar's table and switch. */
  ghost predicate Rebased(mode: RebaseMode, n: int, table: int -> int, switch: int, c: Cell, wrap: int -> Value) {
    match mode
    case CORRECTED => c == Val(wrap(n))
    case LEGACY => c == Val(wrap(table(n)))
    case EXCEPTION => c == if n < switch then Rejected else Val(wrap(n))
  }

  /** 32-bit columns: the low byte, the low 16 bits, the number, the unsigned number, or a date. */
  lemma WordReadsAs(t: ColumnType, p: int, n: int)
    requires t.GetUpdater().Some? && t.typeName.INT32?
    requires 0 <= p < 0x1_0000_0000 && StandsFor(p, n, 0x1_0000_0000)
    ensures var c := Convert(t.GetUpdater().value, Raw32(p));
      match t.sparkType
      case IntegerType => c == Val(IntVal(n))
      case LongType => c == Val(LongVal(p))
      case ByteType => c.Val? && c.value.ByteVal? && StandsFor(p % 256, c.value.n, 256)
      case ShortType => c.Val? && c.value.ShortVal? && StandsFor(p % 65536, c.value.n, 65536)
      case DateType => Rebased(t.mode, n, t.cal.days, t.cal.switchDay, c, (v: int) => IntVal(v))
      case _ => false
  {
  }

  /** 64-bit columns: the number, or a timestamp in microseconds, given in these or in milliseconds. */
  lemma DoubleWordReadsAs(t: ColumnType, p: int, n: int)
    requires t.GetUpdater().Some? && t.typeName.INT64?
    requires 0 <= p < 0x1_0000_0000_0000_0000 && StandsFor(p, n, 0x1_0000_0000_0000_0000)
    ensures var c := Convert(t.GetUpdater().value, Raw64(p));
      if t.sparkType.LongType? then c == Val(LongVal(n))
      else if t.annotation.TimestampMicros?
      then Rebased(t.mode, n, t.cal.micros, t.cal.switchMicros, c, (v: int) => LongVal(v))
      else if -0x8000_0000_0000_0000 <= n * 1000 <= 0x7FFF_FFFF_FFFF_FFFF
      then Rebased(t.mode, n * 1000, t.cal.micros, t.cal.switchMicros, c, (v: int) => LongVal(v))
      else c == Rejected
  {
  }

  /** The other columns are stored as they read. */
  lemma OthersReadAs(t: ColumnType, b: bool, p: int, bs: seq<byte>)
    requires t.GetUpdater().Some?
    ensures var u := t.GetUpdater().value;
      && (t.typeName.BOOLEAN? ==> Convert(u, RawBool(b)) == Val(BoolVal(b)))
      && (t.typeName.DOUBLE? ==> Convert(u, Raw64(p)) == Val(DoubleVal(p)))
      && (t.typeName.BINARY? ==> Convert(u, RawBinary(bs)) == Val(BinaryVal(bs)))
  {
  }

  /** How wide the values of a page are. */
  lemma StoredAs(t: ColumnType)
    requires t.GetUpdater().Some?
    ensures t.GetUpdater().value.Kind()
      == match t.typeName
         case BOOLEAN => PhysBool
         case INT32 => Phys32
         case INT64 => Phys64
         case DOUBLE => Phys64
         case BINARY => PhysBinary
  {
  }

  /** Decoding is put off for all columns but booleans and those whose dates or timestamps have to be changed. */
  lemma LazyExceptFor(t: ColumnType)
    ensures !t.IsLazyDecodingSupported() <==>
      || t.typeName.BOOLEAN?
      || (t.typeName.INT32? && t.annotation.DateAnnotation? && !t.mode.CORRECTED?)
      || (t.typeName.INT64? && t.annotation.TimestampMicros? && !t.mode.CORRECTED?)
      || (t.typeName.INT64? && t.annotation.TimestampMillis?)
  {
  }

  /** What the vector's getter for `t` returns through a ParquetDictionary; Rejected where it throws. */
  function LazyGet(t: SparkType, needTransform: bool, raw: Raw): Cell {
    match (t, raw)
    case (IntegerType, Raw32(p)) => if needTransform then Rejected else Val(IntVal(Signed32(p)))
    case (DateType, Raw32(p)) => if needTransform then Rejected else Val(IntVal(Signed32(p)))
    case (ByteType, Raw32(p)) => if needTransform then Rejected else Val(ByteVal(Signed8(p % 0x100)))
    case (ShortType, Raw32(p)) => if needTransform then Rejected else Val(ShortVal(Signed16(p % 0x1_0000)))
    case (LongType, Raw32(p)) => if needTransform then Val(LongVal(p)) else Rejected
    case (LongType, Raw64(p)) => if needTransform then Rejected else Val(LongVal(Signed64(p)))
    case (TimestampType, Raw64(p)) => if needTransform then Rejected else Val(LongVal(Signed64(p)))
    case (DoubleType, Raw64(p)) => Val(DoubleVal(p))
    case (StringType, RawBinary(bs)) => if needTransform then Rejected else Val(BinaryVal(bs))
    case _ => Rejected
  }

  /** For matched types, decoding on access gives what decoding at once gives, and never throws. */
  lemma LazyIsEager(t: ColumnType, raw: Raw)
    requires t.GetUpdater().Some? && t.IsLazyDecodingSupported() && t.Matched() && OfKind(raw, t.Kind())
    ensures LazyGet(t.sparkType, t.NeedTransform(), raw) == Convert(t.GetUpdater().value, raw)
    ensures Convert(t.GetUpdater().value, raw).Val?
  {
  }

  /** Some int32 day before the switch is moved by the calendar, and the switch is an int32 day too. */
  ghost predicate Shifts(cal: Calendar) {
    && -TWO_31 <= cal.switchDay < TWO_31
    && exists d :: -TWO_31 <= d < cal.switchDay && cal.days(d) != d
  }

  function Pattern32(n: int): int { if n >= 0 then n else n + TWO_32 }

  /**
   Lazy decoding agrees with eager decoding on every stored value exactly when the types match.
   One way to miss it: an INT32 column without a date annotation that is read as a date in LEGACY
   mode is rebased in plain pages and in eagerly decoded ones, but not through an attached dictionary.
   */
  lemma LazyAgreesExactlyWhenMatched(t: ColumnType)
    requires t.GetUpdater().Some? && t.IsLazyDecodingSupported() && t.cal.Lawful() && Shifts(t.cal)
    ensures (forall raw | OfKind(raw, t.Kind()) ::
               LazyGet(t.sparkType, t.NeedTransform(), raw) == Convert(t.GetUpdater().value, raw)) <==> t.Matched()
  {
    if t.Matched() {
      forall raw | OfKind(raw, t.Kind())
        ensures LazyGet(t.sparkType, t.NeedTransform(), raw) == Convert(t.GetUpdater().value, raw)
      {
        LazyIsEager(t, raw);
      }
    } else {
      var raw := Disagreement(t);
    }
  }

  lemma Disagreement(t: ColumnType) returns (raw: Raw)
    requires t.GetUpdater().Some? && t.IsLazyDecodingSupported() && t.cal.Lawful() && Shifts(t.cal) && !t.Matched()
    ensures OfKind(raw, t.Kind())
    ensures LazyGet(t.sparkType, t.NeedTransform(), raw) != Convert(t.GetUpdater().value, raw)
  {
    if t.typeName.INT32? && t.sparkType.DateType? && !t.mode.CORRECTED? {
      if t.NeedTransform() {
        raw := Raw32(Pattern32(t.cal.switchDay));
      } else {
        var d :| -TWO_31 <= d < t.cal.switchDay && t.cal.days(d) != d;
        raw := Raw32(Pattern32(d));
      }
    } else {
      raw := match t.Kind()
        case PhysBool => RawBool(true)
        case Phys32 => Raw32(0)
        case Phys64 => Raw64(0)
        case PhysBinary => RawBinary([]);
    }
  }
}
