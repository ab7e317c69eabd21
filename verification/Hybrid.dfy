/**
 The RLE / bit-packed hybrid byte format of Apache Parquet (Encodings.md, section
 "Run Length Encoding / Bit-Packing Hybrid (RLE = 3)"): a decoder over byte sequences,
 an encoder, and the proof that the decoder inverts the encoder.
 */
module Hybrid {
  import opened Numbers

  datatype Parsed<+T> = NoParse | Parsed(value: T, rest: seq<byte>)

  datatype Run =
    | RleRun(count: nat, value: nat)
    | PackedRun(values: seq<int>)
  {
    function Values(): seq<int> {
      match this
      case RleRun(n, v) => Repeat(v, n)
      case PackedRun(vs) => vs
    }
  }

  function Repeat(v: int, n: nat): seq<int> { seq(n, _ => v) }

  function FromLittleEndian(bs: seq<byte>): (n: nat)
  {
    FromDigitsBound(bs, 256);
    FromDigits(bs, 256)
  }

  function ToLittleEndian(n: nat, len: nat): (bs: seq<byte>)
    ensures |bs| == len
  {
    ToDigits(n, 256, len)
  }

  /** A little-endian number has its bytes as its digits to base 256, the first one lowest. */
  lemma LittleEndianDigits(bs: seq<byte>, i: nat)
    requires i < |bs|
    ensures FromLittleEndian(bs) < Pow(256, |bs|) && FromLittleEndian(bs) / Pow(256, i) % 256 == bs[i]
  {
    FromDigitsBound(bs, 256);
    ToFromDigits(bs, 256);
    DigitAt(FromLittleEndian(bs), 256, |bs|, i);
  }

  lemma LittleEndianRoundTrip(n: nat, len: nat)
    requires n < Pow(256, len)
    ensures FromLittleEndian(ToLittleEndian(n, len)) == n
  {
    FromToDigits(n, 256, len);
  }

  lemma PowOf256()
    ensures Pow(256, 4) == TWO_32
  {
    assert Pow(256, 2) == 0x1_0000;
    PowAdd(256, 2, 2);
  }

  lemma ThreeParts(a: seq<byte>, b: seq<byte>, c: seq<byte>)
    ensures var s := a + b + c;
      s[..|a|] == a && s[|a|..][..|b|] == b && s[|a|..][|b|..] == c
  {
    assert (a + b + c)[|a|..] == b + c;
  }

  /** The bytes that `bitWidth` bits need, and no more. */
  function PaddedBytes(bitWidth: nat): (k: nat)
    ensures 8 * (k - 1) < bitWidth <= 8 * k
  {
    (bitWidth + 7) / 8
  }

  // ---- decoding

  /** An unsigned LEB128 number of any length. */
  function Uleb(s: seq<byte>): (r: Parsed<nat>)
    ensures r.Parsed? ==> |r.rest| < |s|
  {
    if s == [] then NoParse
    else if s[0] < 128 then Parsed(s[0], s[1..])
    else match Uleb(s[1..])
      case NoParse => NoParse
      case Parsed(v, rest) => Parsed(s[0] - 128 + 128 * v, rest)
  }

  /** Eight values of `w` bits each from `w` bytes: value `i` starts at bit `w * i`. */
  function Unpack8(bs: seq<byte>, w: nat): (vs: seq<int>)
    ensures |vs| == 8
  {
    seq(8, i requires 0 <= i < 8 => FromLittleEndian(bs) / Pow(2, w * i) % Pow(2, w))
  }

  function UnpackGroups(bs: seq<byte>, w: nat, groups: nat): (r: Parsed<seq<int>>)
    ensures r.Parsed? ==> |r.value| == 8 * groups && |r.rest| <= |bs|
    decreases groups
  {
    if groups == 0 then Parsed([], bs)
    else if |bs| < w then NoParse
    else match UnpackGroups(bs[w..], w, groups - 1)
      case NoParse => NoParse
      case Parsed(vs, rest) => Parsed(Unpack8(bs[..w], w) + vs, rest)
  }

  lemma {:induction false} GroupsTaken(bs: seq<byte>, w: nat, groups: nat)
    requires UnpackGroups(bs, w, groups).Parsed?
    ensures w * groups <= |bs| && UnpackGroups(bs, w, groups).rest == bs[w * groups..]
    decreases groups
  {
    if groups > 0 {
      GroupsTaken(bs[w..], w, groups - 1);
      assert w * groups == w + w * (groups - 1);
      assert bs[w..][w * (groups - 1)..] == bs[w * groups..];
    }
  }

  /** The next run, when the header and the run's payload are complete and the counts fit an int. */
  function ParseRun(s: seq<byte>, w: nat): (r: Parsed<Run>)
    ensures r.Parsed? ==> |r.rest| < |s|
  {
    match Uleb(s)
    case NoParse => NoParse
    case Parsed(h, rest) =>
      var k := PaddedBytes(w);
      var groups := h / 2;
      if h >= TWO_32 then NoParse
      else if h % 2 == 0 then
        if |rest| < k then NoParse
        else Parsed(RleRun(groups, FromLittleEndian(rest[..k])), rest[k..])
      else if 8 * groups >= TWO_31 then NoParse
      else match UnpackGroups(rest, w, groups)
        case NoParse => NoParse
        case Parsed(vs, rest') => Parsed(PackedRun(vs), rest')
  }

  /** Every value held by the complete runs at the front of `s`; what follows them is ignored. */
  function HybridValues(s: seq<byte>, w: nat): seq<int>
    decreases |s|
  {
    match ParseRun(s, w)
    case NoParse => []
    case Parsed(run, rest) => run.Values() + HybridValues(rest, w)
  }

  /** No run of length zero stands before a value. */
  predicate NoEmptyRuns(s: seq<byte>, w: nat)
    decreases |s|
  {
    match ParseRun(s, w)
    case NoParse => true
    case Parsed(run, rest) => (run.Values() == [] ==> HybridValues(rest, w) == []) && NoEmptyRuns(rest, w)
  }

  /**
   Value `r` does not stand right behind an empty run, where the end of the run before counts as being read:
   a run is only opened for a value that is asked for.
   */
  predicate SinglyReadable(s: seq<byte>, w: nat, r: nat)
    decreases |s|
  {
    match ParseRun(s, w)
    case NoParse => false
    case Parsed(run, rest) =>
      var n := |run.Values()|;
      r < n || ((n > 0 || r > 0) && SinglyReadable(rest, w, r - n))
  }

  predicate AllSinglyReadable(s: seq<byte>, w: nat) {
    forall r: nat | r < |HybridValues(s, w)| :: SinglyReadable(s, w, r)
  }

  /** Every value can be read singly exactly when no empty run stands before a value. */
  lemma {:induction false} SinglyReadableExactly(s: seq<byte>, w: nat)
    ensures AllSinglyReadable(s, w) <==> NoEmptyRuns(s, w)
    decreases |s|
  {
    hide ParseRun;
    var p := ParseRun(s, w);
    if p.Parsed? {
      SinglyReadableExactly(p.rest, w);
      var n, more := |p.value.Values()|, |HybridValues(p.rest, w)|;
      assert |HybridValues(s, w)| == n + more;
      if n == 0 && more > 0 {
        assert !SinglyReadable(s, w, 0);
      } else if n > 0 {
        if AllSinglyReadable(s, w) {
          forall r: nat | r < more ensures SinglyReadable(p.rest, w, r) {
            assert SinglyReadable(s, w, n + r);
          }
        }
        if AllSinglyReadable(p.rest, w) {
          forall r: nat | r < n + more ensures SinglyReadable(s, w, r) {
            assert r >= n ==> SinglyReadable(p.rest, w, r - n);
          }
        }
      }
    }
  }

  // ---- encoding

  function EncodeUleb(n: nat): (s: seq<byte>)
  {
    if n < 128 then [n] else [n % 128 + 128] + EncodeUleb(n / 128)
  }

  function PackGroups(vs: seq<int>, w: nat, groups: nat): seq<byte>
    requires Digits(vs, Pow(2, w)) && |vs| == 8 * groups
    decreases groups
  {
    if groups == 0 then [] else Pack8(vs[..8], w) + PackGroups(vs[8..], w, groups - 1)
  }

  function Pack8(vs: seq<int>, w: nat): (bs: seq<byte>)
    requires Digits(vs, Pow(2, w))
    ensures |bs| == w
  {
    FromDigitsBound(vs, Pow(2, w));
    ToLittleEndian(FromDigits(vs, Pow(2, w)), w)
  }

  predicate Encodable(run: Run, w: nat) {
    match run
    case RleRun(n, v) => n < TWO_31 && v < Pow(2, w)
    case PackedRun(vs) => |vs| % 8 == 0 && |vs| < TWO_31 && Digits(vs, Pow(2, w))
  }

  function EncodeRun(run: Run, w: nat): seq<byte>
    requires Encodable(run, w)
  {
    match run
    case RleRun(n, v) => EncodeUleb(2 * n) + ToLittleEndian(v, PaddedBytes(w))
    case PackedRun(vs) => EncodeUleb(2 * (|vs| / 8) + 1) + PackGroups(vs, w, |vs| / 8)
  }

  function EncodeRuns(runs: seq<Run>, w: nat): seq<byte>
    requires forall run | run in runs :: Encodable(run, w)
  {
    if runs == [] then [] else EncodeRun(runs[0], w) + EncodeRuns(runs[1..], w)
  }

  function RunsValues(runs: seq<Run>): seq<int>
  {
    if runs == [] then [] else runs[0].Values() + RunsValues(runs[1..])
  }

  // ---- the decoder inverts the encoder

  lemma {:induction false} UlebRoundTrip(n: nat, tail: seq<byte>)
    ensures Uleb(EncodeUleb(n) + tail) == Parsed(n, tail)
    decreases n
  {
    var s := EncodeUleb(n) + tail;
    if n < 128 {
      assert s[1..] == tail;
    } else {
      UlebRoundTrip(n / 128, tail);
      assert s[1..] == EncodeUleb(n / 128) + tail;
    }
  }

  lemma GroupRoundTrip(vs: seq<int>, w: nat)
    requires |vs| == 8 && Digits(vs, Pow(2, w))
    ensures Unpack8(Pack8(vs, w), w) == vs
  {
    var n := FromDigits(vs, Pow(2, w));
    FromDigitsBound(vs, Pow(2, w));
    assert n < Pow(256, w) by {
      PowPow(2, w, 8);
      PowPow(2, 8, w);
      PowOfTwo8();
      assert w * 8 == 8 * w;
    }
    LittleEndianRoundTrip(n, w);
    ToFromDigits(vs, Pow(2, w));
    var unpacked := Unpack8(ToLittleEndian(n, w), w);
    forall i | 0 <= i < 8 ensures unpacked[i] == vs[i] {
      DigitAt(n, Pow(2, w), |vs|, i);
      PowPow(2, w, i);
    }
  }

  lemma {:induction false} PackedRoundTrip(vs: seq<int>, w: nat, groups: nat, tail: seq<byte>)
    requires Digits(vs, Pow(2, w)) && |vs| == 8 * groups
    ensures UnpackGroups(PackGroups(vs, w, groups) + tail, w, groups) == Parsed(vs, tail)
    decreases groups
  {
    hide Unpack8, Pack8;
    var bs := PackGroups(vs, w, groups) + tail;
    if groups == 0 {
      assert bs == tail;
    } else {
      GroupRoundTrip(vs[..8], w);
      PackedRoundTrip(vs[8..], w, groups - 1, tail);
      assert bs[..w] == Pack8(vs[..8], w);
      assert bs[w..] == PackGroups(vs[8..], w, groups - 1) + tail;
      assert vs[..8] + vs[8..] == vs;
    }
  }

  lemma PowOfTwo8()
    ensures Pow(2, 8) == 256
  {
    assert Pow(2, 4) == 16;
    PowAdd(2, 4, 4);
  }

  lemma RleValueFits(v: nat, w: nat)
    requires v < Pow(2, w)
    ensures v < Pow(256, PaddedBytes(w))
  {
    var k := PaddedBytes(w);
    PowOfTwo8();
    PowPow(2, 8, k);
    PowAdd(2, w, 8 * k - w);
    MulMono(Pow(2, w), 1, Pow(2, 8 * k - w));
  }

  lemma RleRunRoundTrip(n: nat, v: nat, w: nat, tail: seq<byte>)
    requires Encodable(RleRun(n, v), w)
    ensures ParseRun(EncodeRun(RleRun(n, v), w) + tail, w) == Parsed(RleRun(n, v), tail)
  {
    var value := ToLittleEndian(v, PaddedBytes(w));
    UlebRoundTrip(2 * n, value + tail);
    assert EncodeRun(RleRun(n, v), w) + tail == EncodeUleb(2 * n) + (value + tail);
    RleValueFits(v, w);
    LittleEndianRoundTrip(v, PaddedBytes(w));
    assert (value + tail)[..PaddedBytes(w)] == value;
    assert (value + tail)[PaddedBytes(w)..] == tail;
  }

  lemma PackedRunRoundTrip(vs: seq<int>, w: nat, tail: seq<byte>)
    requires Encodable(PackedRun(vs), w)
    ensures ParseRun(EncodeRun(PackedRun(vs), w) + tail, w) == Parsed(PackedRun(vs), tail)
  {
    hide Unpack8, Pack8, EncodeUleb, Uleb, UnpackGroups, PackGroups;
    var packed := PackGroups(vs, w, |vs| / 8);
    var groups := |vs| / 8;
    UlebRoundTrip(2 * groups + 1, packed + tail);
    assert EncodeRun(PackedRun(vs), w) + tail == EncodeUleb(2 * groups + 1) + (packed + tail);
    PackedRoundTrip(vs, w, groups, tail);
  }

  lemma RunRoundTrip(run: Run, w: nat, tail: seq<byte>)
    requires Encodable(run, w)
    ensures ParseRun(EncodeRun(run, w) + tail, w) == Parsed(run, tail)
  {
    match run
    case RleRun(n, v) => RleRunRoundTrip(n, v, w, tail);
    case PackedRun(vs) => PackedRunRoundTrip(vs, w, tail);
  }

  /** Decoding an encoded run list gives the values of the runs, whatever bytes follow. */
  lemma {:induction false} HybridRoundTrip(runs: seq<Run>, w: nat, tail: seq<byte>)
    requires forall run | run in runs :: Encodable(run, w)
    ensures HybridValues(EncodeRuns(runs, w) + tail, w) == RunsValues(runs) + HybridValues(tail, w)
    decreases |runs|
  {
    hide ParseRun, EncodeRun;
    if runs == [] {
      assert EncodeRuns(runs, w) + tail == tail;
    } else {
      var more := EncodeRuns(runs[1..], w) + tail;
      assert EncodeRuns(runs, w) + tail == EncodeRun(runs[0], w) + more;
      RunRoundTrip(runs[0], w, more);
      HybridRoundTrip(runs[1..], w, tail);
    }
  }

  /**
   An empty run decodes to nothing, so the next value is that of the run after it; a reader that
   takes the value of the run it has just opened without looking at its length gets 5, not 7.
   */
  lemma EmptyRunExample(s: seq<byte>)
    requires s == [0, 5, 4, 7]
    ensures ParseRun(s, 8) == Parsed(RleRun(0, 5), [4, 7]) && HybridValues(s, 8) == [7, 7]
    ensures RleRun(0, 5).Values() == []
  {
    assert s[1..] == [5, 4, 7] && s[1..][..1] == [5] && s[1..][1..] == [4, 7];
    assert FromDigits([5], 256) == 5 && FromDigits([7], 256) == 7;
    var t: seq<byte> := [4, 7];
    assert t[1..] == [7] && t[1..][..1] == [7] && t[1..][1..] == [];
    assert ParseRun(t, 8) == Parsed(RleRun(2, 7), []);
    assert ParseRun([], 8) == NoParse;
  }

  // ---- the format in bytes and bits

  /** The value of a repeated run takes the bytes its bit width needs, and no more. */
  lemma RepeatedValueBytes(n: nat, v: nat, w: nat)
    requires Encodable(RleRun(n, v), w)
    ensures var k := |EncodeRun(RleRun(n, v), w)| - |EncodeUleb(2 * n)|; 8 * (k - 1) < w <= 8 * k
  {
  }

  /** Dividing by a power of two is dividing by whole bytes first. */
  lemma BytesFirst(n: nat, i: nat, j: nat)
    ensures n / Pow(2, 8 * i + j) == n / Pow(256, i) / Pow(2, j)
  {
    hide Pow;
    PowOfTwo8();
    PowPow(2, 8, i);
    PowAdd(2, 8 * i, j);
    DivDiv(n, Pow(2, 8 * i), Pow(2, j));
  }

  /** Bit `p` of a little-endian number is bit `p % 8` of byte `p / 8`. */
  lemma BitOfByte(bs: seq<byte>, p: nat)
    requires p < 8 * |bs|
    ensures FromLittleEndian(bs) / Pow(2, p) % 2 == bs[p / 8] / Pow(2, p % 8) % 2
  {
    hide FromLittleEndian, Pow;
    var n, i, j := FromLittleEndian(bs), p / 8, p % 8;
    LittleEndianDigits(bs, i);
    BytesFirst(n, i, j);
    LowBit(n / Pow(256, i), j);
  }

  /** The low eight bits of a number are those of its remainder modulo 256. */
  lemma LowBit(m: nat, j: nat)
    requires j < 8
    ensures m / Pow(2, j) % 2 == m % 256 / Pow(2, j) % 2
  {
    BitBelow(m, j, 8);
    PowOfTwo8();
  }

  /** Bit `j` of a number is bit `j` of its remainder modulo a higher power of two. */
  lemma {:induction false} BitBelow(m: nat, j: nat, w: nat)
    requires j < w
    ensures m / Pow(2, j) % 2 == m % Pow(2, w) / Pow(2, j) % 2
    decreases j
  {
    var half := Pow(2, w - 1);
    assert Pow(2, w) == 2 * half;
    var q, r := m / (2 * half), m % (2 * half);
    assert m == r + 2 * (half * q);
    if j == 0 {
      assert Pow(2, 0) == 1;
    } else {
      var p := Pow(2, j - 1);
      assert Pow(2, j) == 2 * p;
      DivDiv(m, 2, p);
      DivDiv(r, 2, p);
      assert m / 2 == r / 2 + half * q;
      assert 0 <= r / 2 < half;
      DivModUnique(q, r / 2, half);
      BitBelow(m / 2, j - 1, w - 1);
    }
  }

  /** Bit `j` of value `i` of a group is bit `w * i + j` of the group, from the low bit of its first byte on. */
  lemma GroupBit(bs: seq<byte>, w: nat, i: nat, j: nat)
    requires |bs| == w && i < 8 && j < w
    ensures var p := w * i + j;
      && p < 8 * w && Unpack8(bs, w)[i] / Pow(2, j) % 2 == bs[p / 8] / Pow(2, p % 8) % 2
  {
    var n, p := FromLittleEndian(bs), w * i + j;
    MulMono(w, i, 7);
    assert p < 8 * w;
    BitBelow(n / Pow(2, w * i), j, w);
    DivDiv(n, Pow(2, w * i), Pow(2, j));
    PowAdd(2, w * i, j);
    BitOfByte(bs, p);
  }
}
