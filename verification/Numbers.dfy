/** Bytes, fixed-width integers and positional notation. */
module Numbers {
  datatype Option<+T> = None | Some(value: T)

  type byte = b: int | 0 <= b < 256

  const TWO_31: int := 0x8000_0000
  const TWO_32: int := 0x1_0000_0000
  const TWO_63: int := 0x8000_0000_0000_0000
  const TWO_64: int := 0x1_0000_0000_0000_0000
  const LONG_MIN: int := -0x8000_0000_0000_0000
  const LONG_MAX: int := 0x7FFF_FFFF_FFFF_FFFF

  function Min(a: int, b: int): (m: int)
    ensures m <= a && m <= b && (m == a || m == b)
  {
    if a <= b then a else b
  }

  function Max(a: int, b: int): (m: int)
    ensures m >= a && m >= b && (m == a || m == b)
  {
    if a >= b then a else b
  }

  // The two's complement reading of a bit pattern.
  function Signed8(p: int): int { if p < 128 then p else p - 256 }

  function Signed16(p: int): int { if p < 0x8000 then p else p - 0x1_0000 }

  function Signed32(p: int): int { if p < TWO_31 then p else p - TWO_32 }

  function Signed64(p: int): int { if p < TWO_63 then p else p - TWO_64 }

  // Java int arithmetic: the value that 32-bit wrap-around leaves.
  function Wrap32(n: int): int { Signed32(n % TWO_32) }

  lemma Wrap32Exact(n: int)
    ensures -TWO_31 <= Wrap32(n) < TWO_31 && (n - Wrap32(n)) % TWO_32 == 0
  {
  }

  function Pow(b: nat, n: nat): (r: nat)
    ensures b > 0 ==> r > 0
    decreases n
  {
    if n == 0 then 1 else b * Pow(b, n - 1)
  }

  lemma {:induction false} PowAdd(b: nat, m: nat, n: nat)
    ensures Pow(b, m + n) == Pow(b, m) * Pow(b, n)
    decreases m
  {
    if m != 0 {
      PowAdd(b, m - 1, n);
      MulAssoc(b, Pow(b, m - 1), Pow(b, n));
    }
  }

  lemma {:induction false} PowPow(b: nat, m: nat, n: nat)
    ensures Pow(Pow(b, m), n) == Pow(b, m * n)
    decreases n
  {
    if n != 0 {
      PowPow(b, m, n - 1);
      PowAdd(b, m, m * (n - 1));
      assert m + m * (n - 1) == m * n;
    } else {
      assert m * n == 0;
    }
  }

  lemma MulAssoc(a: int, b: int, c: int)
    ensures a * (b * c) == (a * b) * c
  {
  }

  lemma {:induction false} MulMono(a: nat, x: nat, y: nat)
    requires x <= y
    ensures 0 <= a * x <= a * y
    decreases y
  {
    if x < y {
      MulMono(a, x, y - 1);
      assert a * y == a * (y - 1) + a;
    }
  }

  lemma MulLess(b: nat, f: nat, p: nat)
    requires b > 0 && f < p
    ensures 0 <= b * f <= b * p - b
  {
    MulMono(b, f, p - 1);
    assert b * p == b * (p - 1) + b;
  }

  lemma DivModUnique(q: int, r: int, b: int)
    requires 0 <= r < b
    ensures (r + b * q) / b == q && (r + b * q) % b == r
  {
    var n := r + b * q;
    var d := n / b - q;
    assert n == b * (n / b) + n % b;
    assert b * (n / b) - b * q == b * d;
    assert d >= 1 ==> b * d >= b;
    assert d <= -1 ==> b * d <= -b;
  }

  lemma DivBound(n: int, b: int, p: int)
    requires b > 0 && 0 <= n < b * p
    ensures 0 <= n / b < p
    ensures n == b * (n / b) + n % b
  {
    var q := n / b;
    assert n == b * q + n % b;
    assert q >= p ==> b * q >= b * p;
    assert q < 0 ==> b * q <= -b;
  }

  // ---- positional notation, least significant digit first

  predicate Digits(ds: seq<int>, b: int) { forall i | 0 <= i < |ds| :: 0 <= ds[i] < b }

  function FromDigits(ds: seq<int>, b: int): int
  {
    if ds == [] then 0 else ds[0] + b * FromDigits(ds[1..], b)
  }

  function ToDigits(n: int, b: int, len: nat): (ds: seq<int>)
    requires b > 0
    ensures |ds| == len && Digits(ds, b)
    decreases len
  {
    if len == 0 then [] else [n % b] + ToDigits(n / b, b, len - 1)
  }

  lemma {:induction false} FromDigitsBound(ds: seq<int>, b: int)
    requires b > 0 && Digits(ds, b)
    ensures 0 <= FromDigits(ds, b) < Pow(b, |ds|)
  {
    if ds != [] {
      FromDigitsBound(ds[1..], b);
      MulLess(b, FromDigits(ds[1..], b), Pow(b, |ds| - 1));
    }
  }

  lemma {:induction false} ToFromDigits(ds: seq<int>, b: int)
    requires b > 0 && Digits(ds, b)
    ensures ToDigits(FromDigits(ds, b), b, |ds|) == ds
  {
    if ds != [] {
      DivModUnique(FromDigits(ds[1..], b), ds[0], b);
      ToFromDigits(ds[1..], b);
    }
  }

  lemma {:induction false} FromToDigits(n: int, b: int, len: nat)
    requires b > 0 && 0 <= n < Pow(b, len)
    ensures FromDigits(ToDigits(n, b, len), b) == n
    decreases len
  {
    if len != 0 {
      DivBound(n, b, Pow(b, len - 1));
      FromToDigits(n / b, b, len - 1);
      assert ToDigits(n, b, len)[1..] == ToDigits(n / b, b, len - 1);
    }
  }

  lemma DivDiv(n: int, a: int, b: int)
    requires n >= 0 && a > 0 && b > 0
    ensures a * b > 0 && n / a / b == n / (a * b)
  {
    var q := n / a;
    TwoDivisions(n, a, b, q, n % a, q / b, q % b);
    DivModUnique(q / b, a * (q % b) + n % a, a * b);
  }

  lemma TwoDivisions(n: int, a: int, b: int, q: int, r: int, t: int, u: int)
    requires n == a * q + r && 0 <= r < a
    requires q == b * t + u && 0 <= u < b
    ensures n == (a * u + r) + (a * b) * t
    ensures 0 <= a * u + r < a * b
  {
    assert a * q == a * (b * t) + a * u;
    MulAssoc(a, b, t);
    MulLess(a, u, b);
  }

  /** A digit is what division by its weight leaves modulo the base. */
  lemma {:induction false} DigitAt(n: nat, b: nat, len: nat, i: nat)
    requires b > 0 && i < len
    ensures ToDigits(n, b, len)[i] == n / Pow(b, i) % b
    decreases i
  {
    var p := if i > 0 then Pow(b, i - 1) else 1;
    assert ToDigits(n, b, len) == [n % b] + ToDigits(n / b, b, len - 1);
    if i > 0 {
      assert Pow(b, i) == b * p;
      DigitAt(n / b, b, len - 1, i - 1);
      DivDiv(n, b, p);
    } else {
      assert Pow(b, i) == 1;
    }
  }

  // ---- bitwise "or" of non-negative integers, bit by bit

  function BitOr(a: nat, b: nat): nat
    decreases a + b
  {
    if a == 0 then b
    else if b == 0 then a
    else Max(a % 2, b % 2) + 2 * BitOr(a / 2, b / 2)
  }

  lemma BitOrZero(a: nat)
    ensures BitOr(a, 0) == a
  {
  }

  /** `b` shifted left by `s` bits, without a width limit. */
  function Shl(b: nat, s: nat): (r: nat)
    decreases s
  {
    if s == 0 then b else 2 * Shl(b, s - 1)
  }

  lemma BitOrEven(a: nat, c: nat)
    ensures BitOr(a, 2 * c) == a % 2 + 2 * BitOr(a / 2, c)
  {
    var d := 2 * c;
    assert d / 2 == c && d % 2 == 0;
    if a == 0 || c == 0 {
      assert BitOr(a, d) == a + d && BitOr(a / 2, c) == a / 2 + c;
    } else {
      assert BitOr(a, d) == Max(a % 2, d % 2) + 2 * BitOr(a / 2, d / 2);
    }
  }

  // Or-ing in a number shifted beyond the bits already present adds it.
  lemma {:induction false} BitOrDisjoint(a: nat, b: nat, s: nat)
    requires a < Pow(2, s)
    ensures BitOr(a, Shl(b, s)) == a + Shl(b, s)
    decreases s
  {
    if s != 0 {
      BitOrEven(a, Shl(b, s - 1));
      BitOrDisjoint(a / 2, b, s - 1);
    }
  }

  /** The seven low bits and the rest of a number, both in their place. */
  lemma {:induction false} ShlSplit7(low: nat, high: nat, s: nat)
    ensures Shl(low + 128 * high, s) == Shl(low, s) + Shl(high, s + 7)
    decreases s
  {
    if s != 0 {
      ShlSplit7(low, high, s - 1);
    } else {
      assert Shl(high, 3) == 8 * high;
      assert Shl(high, 6) == 64 * high;
    }
  }

  lemma {:induction false} Shl7Bound(low: nat, s: nat)
    requires low < 128
    ensures Shl(low, s) + Pow(2, s) <= Pow(2, s + 7)
    decreases s
  {
    if s != 0 {
      Shl7Bound(low, s - 1);
    } else {
      assert Pow(2, 3) == 8;
      assert Pow(2, 6) == 64;
    }
  }

  lemma {:induction false} ShlZero(s: nat)
    ensures Shl(0, s) == 0
    decreases s
  {
    if s != 0 {
      ShlZero(s - 1);
    }
  }

  lemma {:induction false} ShlAtLeast(b: nat, s: nat)
    requires b > 0
    ensures Shl(b, s) >= Pow(2, s)
    decreases s
  {
    if s != 0 {
      ShlAtLeast(b, s - 1);
    }
  }

  lemma {:induction false} PowOfTwoMono(m: nat, n: nat)
    requires m <= n
    ensures Pow(2, m) <= Pow(2, n)
    decreases n
  {
    if m < n {
      PowOfTwoMono(m, n - 1);
    }
  }
}
