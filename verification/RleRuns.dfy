/** Whole runs of the run-length / bit-packed decoder: encoded integers drained, reads and skips mixed. */
module RleRuns {
  import opened Numbers
  import opened Hybrid
  import opened Columns
  import opened RleReader

  // ---- from encoded runs to integers

  lemma {:induction false} ZeroWidth(runs: seq<Run>)
    requires forall run | run in runs :: Encodable(run, 0)
    ensures RunsValues(runs) == Repeat(0, |RunsValues(runs)|)
  {
    if runs != [] {
      ZeroWidth(runs[1..]);
      assert Encodable(runs[0], 0) && Pow(2, 0) == 1;
      assert runs[0].Values() == Repeat(0, |runs[0].Values()|);
    }
  }

  /** How `initFromPage` starts: the bit width known, known behind a length prefix, or in the first byte. */
  datatype Start = KnownWidth | LengthPrefix | WidthByte

  /** The bytes a reader of that kind is given: the encoded runs, introduced as it expects, and what follows them. */
  function Framed(start: Start, w: byte, bytes: seq<byte>, tail: seq<byte>): seq<byte> {
    match start
    case KnownWidth => bytes
    case LengthPrefix => ToLittleEndian(|bytes|, 4) + bytes + tail
    case WidthByte => [w] + bytes
  }

  /** A reader set up for the bytes; `after` is what its caller's stream still holds. */
  method Attach(start: Start, w: byte, count: nat, bytes: seq<byte>, tail: seq<byte>)
    returns (reader: VectorizedRleValuesReader, after: seq<byte>)
    requires w <= 32 && (start.LengthPrefix? ==> |bytes| < TWO_31)
    ensures fresh(reader) && fresh(reader.currentBuffer) && reader.Valid()
    ensures reader.Pending() == if w == 0 then Repeat(0, count) else HybridValues(bytes, w)
    ensures start.LengthPrefix? ==> after == tail
  {
    hide HybridValues, FromLittleEndian, ToLittleEndian, Pow;
    var input := Framed(start, w, bytes, tail);
    if start.WidthByte? {
      reader := new VectorizedRleValuesReader.ForValues();
      assert ([w] + bytes)[1..] == bytes;
    } else {
      reader := new VectorizedRleValuesReader.ForLevels(w, start.LengthPrefix?);
      if start.LengthPrefix? {
        PowOf256();
        LittleEndianRoundTrip(|bytes|, 4);
        ThreeParts(ToLittleEndian(|bytes|, 4), bytes, tail);
      }
    }
    after := reader.InitFromPage(count, input);
  }

  /**
   The integers of a run list, encoded and drained, for every bit width and each way to start; as the
   ints that their 32-bit patterns are. Behind a length prefix the caller's stream is left with what
   follows the runs.
   */
  method EncodeAndDrain(runs: seq<Run>, w: byte, start: Start, tail: seq<byte>)
    returns (vs: seq<Value>, after: seq<byte>)
    requires w <= 32 && forall run | run in runs :: Encodable(run, w)
    requires start.LengthPrefix? ==> |EncodeRuns(runs, w)| < TWO_31
    ensures vs == IdValues(RunsValues(runs))
    ensures start.LengthPrefix? ==> after == tail
  {
    hide HybridValues, EncodeRuns, RunsValues, IdValues, FromLittleEndian;
    var bytes, count := EncodeRuns(runs, w), |RunsValues(runs)|;
    var reader;
    reader, after := Attach(start, w, count, bytes, tail);
    if w == 0 {
      ZeroWidth(runs);
    } else {
      Decoded(runs, w);
    }
    vs := Drain(reader, count);
  }

  /** All that is left in the reader, read in bulk. */
  method Drain(reader: VectorizedRleValuesReader, count: nat) returns (vs: seq<Value>)
    requires reader.Valid() && count == |reader.Pending()|
    modifies reader, reader.currentBuffer
    ensures vs == IdValues(old(reader.Pending()))
  {
    hide HybridValues, VectorizedRleValuesReader.Pending;
    var c := new ColumnVector(count);
    ghost var all := reader.Pending();
    reader.ReadIntegers(count, c, 0);
    assert all[..count] == all;
    vs := c.cells;
  }

  lemma Decoded(runs: seq<Run>, w: byte)
    requires 0 < w <= 32 && forall run | run in runs :: Encodable(run, w)
    ensures HybridValues(EncodeRuns(runs, w), w) == RunsValues(runs)
  {
    HybridRoundTrip(runs, w, []);
    NoBytes(w);
    assert EncodeRuns(runs, w) + [] == EncodeRuns(runs, w);
  }

  lemma NoBytes(w: byte)
    ensures HybridValues([], w) == []
  {
  }

  /**
   A single read at an empty run: the run is fetched once, its value 5 is taken although the sequence
   is 7, 7, and the count falls below zero.
   */
  method ReadAtEmptyRun() returns (v: int, ghost pending: seq<int>, count: int)
    ensures pending == [7, 7] && v == 5 && count == -1
  {
    hide HybridValues, ParseRun;
    var reader := new VectorizedRleValuesReader.ForLevels(8, false);
    var input: seq<byte> := [0, 5, 4, 7];
    EmptyRunExample(input);
    var _ := reader.InitFromPage(2, input);
    pending := reader.Pending();
    v := reader.ReadInteger();
    count := reader.currentCount;
  }

  // ---- reads and skips mixed

  datatype Op = One | Many(n: nat) | Skip(n: nat)
  {
    function Takes(): nat {
      match this case One => 1 case Many(n) => n case Skip(n) => n
    }
  }

  function Taken(ops: seq<Op>): nat {
    if ops == [] then 0 else ops[0].Takes() + Taken(ops[1..])
  }

  /** What each read of the run returns: its piece of the one sequence. */
  function Pieces(ops: seq<Op>, vs: seq<int>): seq<seq<Value>>
    requires Taken(ops) <= |vs|
  {
    if ops == [] then []
    else
      var n := ops[0].Takes();
      (if ops[0].Skip? then [] else [IdValues(vs[..n])]) + Pieces(ops[1..], vs[n..])
  }

  lemma NoOps()
    ensures Taken([]) == 0 && Pieces([], []) == []
    ensures forall vs :: Pieces([], vs) == []
  {
  }

  lemma FirstOp(ops: seq<Op>, vs: seq<int>)
    requires ops != [] && Taken(ops) <= |vs|
    ensures Taken(ops) == ops[0].Takes() + Taken(ops[1..])
    ensures Pieces(ops, vs)
      == (if ops[0].Skip? then [] else [IdValues(vs[..ops[0].Takes()])]) + Pieces(ops[1..], vs[ops[0].Takes()..])
  {
  }

  /** No single read of the run meets an empty run: bulk reads and skips loop over these. */
  predicate Safe(ops: seq<Op>, at: nat, p: Position) {
    ops == [] || ((ops[0].One? ==> p.SingleOk(at)) && Safe(ops[1..], at + ops[0].Takes(), p))
  }

  lemma FirstSafe(ops: seq<Op>, at: nat, p: Position)
    requires ops != [] && Safe(ops, at, p)
    ensures (ops[0].One? ==> p.SingleOk(at)) && Safe(ops[1..], at + ops[0].Takes(), p)
  {
  }

  /** What is safe stays safe `n` values on. */
  lemma {:induction false} SafeOn(ops: seq<Op>, at: nat, n: nat, p: Position, q: Position)
    requires Safe(ops, at, p) && q.Follows(p, n, 0) && n <= at
    ensures Safe(ops, at - n, q)
    decreases |ops|
  {
    hide Position.SingleOk;
    if ops != [] {
      assert q.SingleOk(at - n) == p.SingleOk(n + (at - n));
      SafeOn(ops[1..], at + ops[0].Takes(), n, p, q);
    }
  }

  lemma {:induction false} SolidIsSafe(ops: seq<Op>, at: nat, p: Position, count: nat)
    requires at + Taken(ops) <= count && forall n: nat | n < count :: p.SingleOk(n)
    ensures Safe(ops, at, p)
    decreases |ops|
  {
    if ops != [] {
      SolidIsSafe(ops[1..], at + ops[0].Takes(), p, count);
    }
  }

  lemma FollowsAt(p: Position, q: Position, n: nat)
    requires q.Follows(p, n, 0)
    ensures q.SingleOk(0) == p.SingleOk(n)
  {
    hide Position.SingleOk;
    assert q.SingleOk(0) == p.SingleOk(n + 0);
  }

  /** After any skip, a single read finds its value and leaves the reader usable exactly when it meets no empty run. */
  method SkipThenRead(reader: VectorizedRleValuesReader, n: nat) returns (v: int)
    requires reader.Valid() && n < |reader.Pending()|
    modifies reader, reader.currentBuffer
    ensures reader.Valid() <==> old(reader.Place()).SingleOk(n)
    ensures reader.Valid() ==> v == old(reader.Pending())[n] && reader.Pending() == old(reader.Pending())[n + 1..]
    ensures !reader.Valid() ==> reader.currentCount == -1
  {
    hide HybridValues, NoEmptyRuns, VectorizedRleValuesReader.Pending, VectorizedRleValuesReader.ReadyForOne;
    hide Position.SingleOk, Position.Follows;
    ghost var place := reader.Place();
    reader.SkipIntegers(n);
    reader.ReadyIsSingleOk();
    FollowsAt(place, reader.Place(), n);
    v := reader.ReadInteger();
  }

  method Perform(reader: VectorizedRleValuesReader, op: Op) returns (piece: seq<Value>)
    requires reader.Valid() && (op.One? ==> reader.Place().SingleOk(0)) && op.Takes() <= |reader.Pending()|
    modifies reader, reader.currentBuffer
    ensures reader.Valid() && reader.Place().Follows(old(reader.Place()), op.Takes(), 0)
    ensures reader.Pending() == old(reader.Pending())[op.Takes()..]
    ensures reader.currentBuffer == old(reader.currentBuffer) || fresh(reader.currentBuffer)
    ensures !op.Skip? ==> piece == IdValues(old(reader.Pending())[..op.Takes()])
  {
    hide HybridValues, NoEmptyRuns, Position.SingleOk, Position.Follows;
    piece := [];
    match op {
      case One =>
        reader.ReadyIsSingleOk();
        var v := reader.ReadInteger();
        piece := [IntVal(Signed32(v))];
      case Many(n) =>
        var c := new ColumnVector(n);
        reader.ReadIntegers(n, c, 0);
        piece := c.cells;
      case Skip(n) =>
        reader.SkipIntegers(n);
    }
  }

  /** Any mix of single reads, bulk reads and skips gives the pieces of one fixed sequence. */
  method PerformAll(reader: VectorizedRleValuesReader, ops: seq<Op>) returns (pieces: seq<seq<Value>>)
    requires reader.Valid() && Taken(ops) <= |reader.Pending()| && Safe(ops, 0, reader.Place())
    modifies reader, reader.currentBuffer
    ensures reader.Valid() && pieces == Pieces(ops, old(reader.Pending()))
    ensures reader.Pending() == old(reader.Pending())[Taken(ops)..]
    ensures reader.currentBuffer == old(reader.currentBuffer) || fresh(reader.currentBuffer)
    decreases |ops|
  {
    hide HybridValues, NoEmptyRuns, VectorizedRleValuesReader.Pending, VectorizedRleValuesReader.Valid, IdValues;
    hide Position.SingleOk, Position.Follows, Taken, Pieces, Safe;
    NoOps();
    if ops == [] {
      return [];
    }
    ghost var all, place := reader.Pending(), reader.Place();
    FirstOp(ops, all);
    FirstSafe(ops, 0, place);
    var piece := Perform(reader, ops[0]);
    SafeOn(ops[1..], ops[0].Takes(), ops[0].Takes(), place, reader.Place());
    var more := PerformAll(reader, ops[1..]);
    assert all[ops[0].Takes()..][Taken(ops[1..])..] == all[Taken(ops)..];
    pieces := if ops[0].Skip? then more else [piece] + more;
  }
}
