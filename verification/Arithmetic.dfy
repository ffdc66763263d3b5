/** 64-bit division built from the x86 DIVL instruction (pintos/src/lib/arithmetic.c).

    Machine words are integers with explicit ranges. Every shift and every cast of the C code
    goes through a Wrap function, so that the proofs show which of them lose bits. */
module Arithmetic {
  import opened Bits

  const B32: int := 0x1_0000_0000
  const B63: int := 0x8000_0000_0000_0000
  const B64: int := 0x1_0000_0000_0000_0000

  type U32 = x: int | 0 <= x < B32
  type U64 = x: int | 0 <= x < B64
  type I32 = x: int | -0x8000_0000 <= x < 0x8000_0000
  type I64 = x: int | -B63 <= x < B63

  function Wrap32(x: int): U32 { x % B32 }
  function Wrap64(x: int): U64 { x % B64 }

  /** Conversion of an arbitrary value to a signed 64-bit (32-bit) integer, two's complement. */
  function ToI64(x: int): I64 { var u := Wrap64(x); if u < B63 then u else u - B64 }
  function ToI32(x: int): I32 { var u := Wrap32(x); if u < 0x8000_0000 then u else u - B32 }

  /** q is the floor of n / d, said without division. */
  ghost predicate IsQuotient(n: int, d: int, q: int) {
    q * d <= n < q * d + d
  }

  function Abs(x: int): nat { if x < 0 then -x else x }

  /** C's division: the quotient is truncated toward zero and the remainder has the sign of n. */
  function TruncDiv(n: int, d: int): int
    requires d != 0
  {
    var q := Abs(n) / Abs(d);
    if (n < 0) == (d < 0) then q else -q
  }

  function TruncRem(n: int, d: int): int
    requires d != 0
  {
    n - d * TruncDiv(n, d)
  }

  // ----- products and quotients

  lemma MulLe(a: int, b: int, c: int)
    requires a <= b && 0 <= c
    ensures a * c <= b * c
  {
  }

  lemma MulLt(a: int, b: int, c: int)
    requires a < b && 0 < c
    ensures a * c < b * c
  {
  }

  lemma MulCancel(a: int, b: int, c: int)
    requires a * c < b * c && 0 < c
    ensures a < b
  {
    if b <= a { MulLe(b, a, c); }
  }

  lemma MulAssoc(a: int, b: int, c: int)
    ensures (a * b) * c == a * (b * c) == (a * c) * b
  {
  }

  lemma QuotientUnique(n: int, d: int, p: int, q: int)
    requires d > 0 && IsQuotient(n, d, p) && IsQuotient(n, d, q)
    ensures p == q
  {
    assert (p + 1) * d == p * d + d && (q + 1) * d == q * d + d;
    MulCancel(p, q + 1, d);
    MulCancel(q, p + 1, d);
  }

  lemma DivIsQuotient(n: int, d: int)
    requires d > 0
    ensures IsQuotient(n, d, n / d)
  {
    assert n == d * (n / d) + n % d;
  }

  lemma QuotientRange(n: nat, d: int, q: int)
    requires d > 0 && IsQuotient(n, d, q)
    ensures 0 <= q <= n
  {
    assert (q + 1) * d == q * d + d;
    MulCancel(0, q + 1, d);
    MulLe(1, d, q);
  }

  lemma Pow2Add(i: nat, j: nat)
    ensures Pow2(i + j) == Pow2(i) * Pow2(j)
  {
    if i > 0 {
      Pow2Add(i - 1, j);
      assert i + j - 1 == (i - 1) + j;
      MulAssoc(2, Pow2(i - 1), Pow2(j));
    }
  }

  lemma Pow2Values()
    ensures Pow2(1) == 2 && Pow2(2) == 4 && Pow2(4) == 16 && Pow2(8) == 0x100 && Pow2(16) == 0x1_0000
    ensures Pow2(32) == B32
  {
    assert Pow2(4) == 16;
    Pow2Add(4, 4);
    Pow2Add(8, 8);
    Pow2Add(16, 16);
  }

  // ----- divl, shifts and nlz

  /** The DIVL instruction. It traps unless the quotient fits in 32 bits, that is, unless
      n < 2^32 * d; so a call that meets this precondition is a call that cannot trap. */
  method Divl(n: U64, d: U32) returns (q: U32)
    requires d != 0 && n < B32 * d
    ensures IsQuotient(n, d, q)
  {
    DivIsQuotient(n, d);
    QuotientRange(n, d, n / d);
    MulCancel(n / d, B32, d);
    q := n / d;
  }

  method ShiftRight(x: U64, k: nat) returns (r: U64)
    ensures IsQuotient(x, Pow2(k), r)
  {
    DivIsQuotient(x, Pow2(k));
    QuotientRange(x, Pow2(k), x / Pow2(k));
    r := x / Pow2(k);
  }

  method ShiftLeft(x: U64, k: nat) returns (r: U64)
    ensures r == Wrap64(x * Pow2(k))
  {
    r := Wrap64(x * Pow2(k));
  }

  /** Shifting y == x << n further left by k bits, where c == 2^k, loses no bits as long as the
      result stays below 2^32. */
  lemma ShiftFurther(x: int, n: nat, y: U32, k: nat, c: int)
    requires y == x * Pow2(n) && c == Pow2(k) && y * c < B32
    ensures Wrap32(y * c) == y * c == x * Pow2(n + k)
  {
    Pow2Add(n, k);
    MulAssoc(x, Pow2(n), c);
    MulLe(0, y, c);
  }

  /** One stage of nlz: x, which is x0 << n and at least lo, is shifted by k bits if it is below t == 2^32 / 2^k. */
  method Stage(ghost x0: int, x: U32, n: nat, k: nat, c: int, t: int, ghost lo: int) returns (y: U32, m: nat)
    requires c == Pow2(k) && t * c == B32 && lo * c == t && x == x0 * Pow2(n) && 0 <= lo <= x
    ensures y == x0 * Pow2(m) && y >= t && n <= m <= n + k
  {
    if x < t {
      MulLt(x, t, c);
      MulLe(lo, x, c);
      ShiftFurther(x0, n, x, k, c);
      return Wrap32(x * c), n + k;
    }
    return x, n;
  }

  /** The number of leading zero bits: the shift that brings x's top set bit to bit 31. */
  method Nlz(x0: U32) returns (n: nat)
    requires x0 != 0
    ensures n <= 31
    ensures 0x8000_0000 <= x0 * Pow2(n) < B32
  {
    Pow2Values();
    var x: U32 := x0;
    n := 0;
    x, n := Stage(x0, x, n, 16, 0x1_0000, 0x1_0000, 1);
    x, n := Stage(x0, x, n, 8, 0x100, 0x100_0000, 0x1_0000);
    x, n := Stage(x0, x, n, 4, 0x10, 0x1000_0000, 0x100_0000);
    x, n := Stage(x0, x, n, 2, 4, 0x4000_0000, 0x1000_0000);
    x, n := Stage(x0, x, n, 1, 2, 0x8000_0000, 0x4000_0000);
  }

  // ----- udiv64: divisors below 2^32

  /** With n == 2^32 * n1 + n0 and n1 == t * d + r, the quotient of 2^32 * r + n0 and 2^32 * t
      add up to the quotient of n. */
  lemma PartialQuotients(d: int, n1: int, n0: int, r: int, t: int, low: int)
    requires n1 == t * d + r && IsQuotient(B32 * r + n0, d, low)
    ensures IsQuotient(B32 * n1 + n0, d, low + B32 * t)
  {
    assert (low + B32 * t) * d == low * d + B32 * (t * d);
  }

  method DivMod(n: U32, d: U32) returns (r: U32, t: U32)
    requires d != 0
    ensures n == t * d + r && r < d
  {
    DivIsQuotient(n, d);
    QuotientRange(n, d, n / d);
    r, t := n % d, n / d;
  }

  /** The expression b * high + low of the C code, where b == 2^32. */
  method Combine(high: U32, low: U32) returns (m: U64)
    ensures m == B32 * high + low
  {
    m := Wrap64(Wrap64(B32 * high) + low);
  }

  method DivideBySmall(n: U64, d: U64) returns (q: U64)
    requires 0 < d < B32
    ensures IsQuotient(n, d, q)
  {
    var n1: U32 := Wrap32(n / B32);
    var n0: U32 := Wrap32(n);
    var d0: U32 := Wrap32(d);
    assert n == B32 * n1 + n0 && d0 == d;
    var r, t := DivMod(n1, d0);
    var m := Combine(r, n0);
    var low := Divl(m, d0);
    PartialQuotients(d0, n1, n0, r, t, low);
    q := Combine(t, low);
  }

  // ----- udiv64: divisors of 2^32 and above

  /** Shifting d left by s, where p == 2^s and p * w == 2^32, keeps all its bits. */
  lemma NormalisedRange(d: U64, d1: int, p: int, w: int)
    requires 0 < p && 0 < w && p * w == B32 && IsQuotient(d, B32, d1)
    requires 0x8000_0000 <= d1 * p < B32
    ensures 0x8000_0000 * B32 <= d * p < B64
  {
    MulCancel(d1, w, p);
    MulLe(d1 + 1, w, p);
    MulLt(d, (d1 + 1) * B32, p);
    MulLe(d1 * B32, d, p);
    MulAssoc(d1 + 1, B32, p);
    MulAssoc(d1, B32, p);
  }

  /** The high word v of the shifted divisor: v * w approximates d from below by less than w. */
  lemma NormalisedDivisor(d: int, p: int, w: int, v: int)
    requires 0 < p && 0 < w && p * w == B32 && IsQuotient(d * p, B32, v)
    ensures IsQuotient(d, w, v)
  {
    MulAssoc(v, w, p);
    MulAssoc(v + 1, w, p);
    assert (v + 1) * w == v * w + w;
    MulCancel(d, (v + 1) * w, p);
    MulCancel(v * w, d + 1, p);
  }

  lemma SquareBound(d: int, v: int, w: int)
    requires 0x8000_0000 <= v && 2 <= w && v * w <= d
    ensures (0x4000_0000_0000_0000 * w) * w <= d * (v * w)
  {
    var h, D := 0x8000_0000 * w, v * w;
    MulLe(0x8000_0000, v, w);
    MulLe(h, D, h);
    MulLe(h, D, D);
    MulLe(D, d, D);
    MulAssoc(0x8000_0000, w, h);
    MulAssoc(0x8000_0000 * 0x8000_0000, w, w);
  }

  /** The error of the approximation is too small to move the quotient by more than one. */
  lemma EstimateError(n: U64, d: int, v: int, w: int)
    requires 0x8000_0000 <= v && IsQuotient(d, w, v) && (w == 2 || 4 <= w)
    ensures n * (d - v * w) < d * (v * w)
  {
    var e := d - v * w;
    SquareBound(d, v, w);
    MulLe(n, B64 - 1, e);
    if w == 2 {
      assert e == 0 || e == 1;
    } else {
      MulLe(4, w, w);
      MulAssoc(0x4000_0000_0000_0000, w, w);
    }
  }

  lemma QuotientsClose(n: nat, d: int, D: int, Q: int, q: int)
    requires 0 < D <= d && n * (d - D) < d * D
    requires IsQuotient(n, d, Q) && IsQuotient(n, D, q)
    ensures Q <= q <= Q + 1
  {
    QuotientRange(n, d, Q);
    MulLe(D, d, Q);
    assert (q + 1) * D == q * D + D;
    MulCancel(Q, q + 1, D);
    // q * D * d <= n * d < d * D + n * D < d * D + (Q + 1) * d * D
    assert (Q + 1) * d == Q * d + d;
    MulLe(q * D, n, d);
    MulLt(n, (Q + 1) * d, D);
    MulAssoc(q, D, d);
    MulAssoc(Q + 1, d, D);
    var P := D * d;
    assert n * (d - D) == n * d - n * D;
    assert (Q + 2) * P == (Q + 1) * P + P;
    MulLt(0, D, d);
    MulCancel(q, Q + 2, P);
  }

  /** Halving, dividing by v and shifting right by h, where c == 2^h, divides by v * 2c. */
  lemma ComposedQuotient(n: int, v: int, c: int, t: int, e: int)
    requires 0 < v && 0 < c && IsQuotient(n / 2, v, t) && IsQuotient(t, c, e)
    ensures IsQuotient(n, v * (2 * c), e)
  {
    MulLe(e * c, t, v);
    MulLe(t + 1, e * c + c, v);
    MulAssoc(e, c, v);
    assert (t + 1) * v == t * v + v && (e * c + c) * v == (e * c) * v + c * v;
    assert e * (v * (2 * c)) == 2 * (e * (c * v)) && v * (2 * c) == 2 * (c * v);
  }

  /** The large-divisor estimate is the exact quotient or one more than it: Q is the floor of n / d,
      v the normalised high word of d, t the quotient divl returns and e the shifted estimate. */
  lemma EstimateIsQuotientOrOneMore(n: U64, d: int, v: int, s: nat, t: int, e: int, Q: int)
    requires s <= 31 && 0x8000_0000 <= v && IsQuotient(d, Pow2(32 - s), v)
    requires IsQuotient(n / 2, v, t) && IsQuotient(t, Pow2(31 - s), e) && IsQuotient(n, d, Q)
    ensures e == Q || e == Q + 1
  {
    var w := Pow2(32 - s);
    assert w == 2 * Pow2(31 - s);
    assert s < 31 ==> Pow2(31 - s) == 2 * Pow2(30 - s);
    ComposedQuotient(n, v, Pow2(31 - s), t, e);
    EstimateError(n, d, v, w);
    MulLt(0, v, w);
    QuotientsClose(n, d, v * w, Q, e);
  }

  lemma LargeDividendFits(n: U64, v: int)
    requires 0x8000_0000 <= v
    ensures n / 2 < B32 * v
  {
  }

  lemma {:induction false} TopWord(x: int)
    requires 0x8000_0000 * B32 <= x < B64
    ensures Wrap64(x) == x && Wrap32(x / B32) == x / B32 && IsQuotient(x, B32, x / B32) && 0x8000_0000 <= x / B32
  {
  }

  /** The high word of the divisor shifted so that its top bit is set */
  method HighWord(d: U64, s: nat) returns (v: U32)
    requires B32 <= d && s <= 31 && 0x8000_0000 <= (d / B32) * Pow2(s) < B32
    ensures 0x8000_0000 <= v && IsQuotient(d, Pow2(32 - s), v)
  {
    Pow2Values();
    Pow2Add(s, 32 - s);
    NormalisedRange(d, d / B32, Pow2(s), Pow2(32 - s));
    TopWord(d * Pow2(s));
    var shifted := ShiftLeft(d, s);
    v := Wrap32(shifted / B32);
    NormalisedDivisor(d, Pow2(s), Pow2(32 - s), v);
  }

  /** The estimate divl (n >> 1, (d << s) >> 32) >> (31 - s). */
  method Estimate(n: U64, d: U64, s: nat, ghost Q: int) returns (e: U64)
    requires B32 <= d && s <= 31 && 0x8000_0000 <= (d / B32) * Pow2(s) < B32 && IsQuotient(n, d, Q)
    ensures e == Q || e == Q + 1
  {
    var v := HighWord(d, s);
    LargeDividendFits(n, v);
    var t := Divl(n / 2, v);
    e := ShiftRight(t, 31 - s);
    EstimateIsQuotientOrOneMore(n, d, v, s, t, e, Q);
  }

  /** Nothing wraps in the correction step, and its test tells the two estimates apart. */
  lemma Correction(n: U64, d: U64, Q: int, e: int)
    requires 0 < d <= n && IsQuotient(n, d, Q) && (e == Q || e == Q + 1)
    ensures 1 <= e && 0 <= (e - 1) * d <= n
    ensures n - (e - 1) * d < d <==> e == Q + 1
  {
    assert (Q + 1) * d == Q * d + d;
    MulCancel(1, Q + 1, d);
    MulLe(0, e - 1, d);
    assert (Q - 1) * d == Q * d - d;
  }

  method DivideByLarge(n: U64, d: U64) returns (q: U64)
    requires B32 <= d <= n
    ensures IsQuotient(n, d, q)
  {
    ghost var Q := n / d;
    DivIsQuotient(n, d);
    var d1: U32 := Wrap32(d / B32);
    var s := Nlz(d1);
    var e := Estimate(n, d, s, Q);
    Correction(n, d, Q, e);
    q := Corrected(n, d, e);
  }

  /** The expression n - (q - 1) * d < d ? q - 1 : q. */
  method Corrected(n: U64, d: U64, e: U64) returns (q: U64)
    requires 1 <= e && 0 <= (e - 1) * d <= n
    ensures q == if n - (e - 1) * d < d then e - 1 else e
  {
    q := if Wrap64(n - Wrap64(Wrap64(e - 1) * d)) < d then Wrap64(e - 1) else e;
  }

  /** Unsigned 64-bit division: the floor of n / d for every nonzero d. Each Divl call below meets
      Divl's precondition, so none can trap. */
  method Udiv64(n: U64, d: U64) returns (q: U64)
    requires d != 0
    ensures q == n / d
  {
    if d / B32 == 0 {
      q := DivideBySmall(n, d);
    } else if n < d {
      q := 0;
    } else {
      q := DivideByLarge(n, d);
    }
    DivIsQuotient(n, d);
    QuotientUnique(n, d, q, n / d);
  }

  // ----- the remaining routines

  predicate RemainderFits(n: U64, d: U64)
    requires d != 0
  {
    n % d < B32
  }

  /** Every remainder fits 32 bits exactly if the divisor is at most 2^32. A larger one goes wrong for n == 2^32, whose
      remainder is 2^32 and is returned as 0. */
  lemma {:induction false} RemaindersFitIff(d: U64)
    requires d != 0
    ensures (forall n: U64 :: RemainderFits(n, d)) <==> d <= B32
    ensures d > B32 ==> B32 % d == B32 && (B32 % d) % B32 == 0
  {
    if d <= B32 {
      forall n: U64 ensures RemainderFits(n, d) { assert n % d < d; }
    } else {
      DivIsQuotient(B32, d);
      QuotientUnique(B32, d, 0, B32 / d);
      assert !RemainderFits(B32, d);
    }
  }

  /** The remainder is truncated to 32 bits by the return type. */
  method Umod64(n: U64, d: U64) returns (r: U32)
    requires d != 0
    ensures d <= B32 ==> r == n % d
    ensures r == n % d <==> RemainderFits(n, d)
    ensures r == (n % d) % B32
  {
    var q := Udiv64(n, d);
    DivIsQuotient(n, d);
    QuotientRange(n, d, q);
    MulLe(0, q, d);
    assert n == q * d + n % d;
    RemaindersFitIff(d);
    r := Narrowed(n, d, q);
  }

  method Narrowed(n: U64, d: U64, q: U64) returns (r: U32)
    requires 0 <= n - q * d
    ensures r == (n - q * d) % B32
  {
    MulLe(0, q, d);
    assert d * q == q * d;
    r := Wrap32(Wrap64(n - Wrap64(d * q)));
  }

  /** The negation idiom -(uint64_t) n computes the magnitude, also of the least integer. */
  method Magnitude(n: I64) returns (m: U64)
    ensures m == Abs(n)
  {
    m := if n >= 0 then Wrap64(n) else Wrap64(0 - Wrap64(n));
  }

  /** The conversions in the last line of sdiv64. */
  method Signed(sameSign: bool, q: U64) returns (r: I64)
    requires q <= B63
    ensures sameSign && q == B63 ==> r == -B63
    ensures !(sameSign && q == B63) ==> r == if sameSign then q else -(q as int)
  {
    r := if sameSign then ToI64(q) else ToI64(0 - ToI64(q));
  }

  lemma UnitDivisor(n: int, d: int, q: int)
    requires 0 <= n <= B63 && d > 0 && IsQuotient(n, d, q)
    ensures 0 <= q <= n && (q == B63 <==> d == 1 && n == B63)
  {
    QuotientRange(n, d, q);
    if q == B63 {
      MulCancel(d, 2, B63) by { assert d * B63 < 2 * B63; }
    }
  }

  /** Signed division truncates toward zero exactly when the quotient is representable, that is,
      in every case but the least integer divided by -1. */
  method Sdiv64(n: I64, d: I64) returns (q: I64)
    requires d != 0
    ensures q == TruncDiv(n, d) <==> !(n == -B63 && d == -1)
    ensures n == -B63 && d == -1 ==> q == -B63
  {
    var nAbs := Magnitude(n);
    var dAbs := Magnitude(d);
    var qAbs := Udiv64(nAbs, dAbs);
    DivIsQuotient(nAbs, dAbs);
    UnitDivisor(nAbs, dAbs, qAbs);
    q := Signed((n < 0) == (d < 0), qAbs);
  }

  /** Values that agree modulo 2^64 still agree after narrowing through int64_t to int32_t. */
  lemma SameLowWord(x: int, y: int, k: int)
    requires x == y + k * B64
    ensures ToI32(x) == ToI32(y)
  {
    QuotientUnique(x, B32, x / B32, y / B32 + k * B32);
  }

  method NarrowedSigned(n: I64, p: int) returns (r: I32)
    ensures r == ToI32(n - p)
  {
    r := ToI32(ToI64(n - ToI64(p)));
    ghost var x := ToI64(p);
    SameLowWord(n - p, n - x, (x - p) / B64);
    ghost var y := ToI64(n - x);
    SameLowWord(n - x, y, (n - x - y) / B64);
  }

  predicate SignedRemainderFits(n: I64, d: I64)
    requires d != 0
  {
    -0x8000_0000 <= TruncRem(n, d) < 0x8000_0000
  }

  /** Every signed remainder fits exactly if the divisor's magnitude is at most 2^31. With a larger one the remainder
      of 2^31 is 2^31 and is returned as -2^31. */
  lemma {:induction false} SignedRemaindersFitIff(d: I64)
    requires d != 0
    ensures (forall n: I64 :: SignedRemainderFits(n, d)) <==> Abs(d) <= 0x8000_0000
    ensures Abs(d) > 0x8000_0000 ==>
      TruncRem(0x8000_0000, d) == 0x8000_0000 && ToI32(TruncRem(0x8000_0000, d)) == -0x8000_0000
  {
    if Abs(d) <= 0x8000_0000 {
      forall n: I64 ensures SignedRemainderFits(n, d) { SmallDivisorFits(n, d); }
    } else {
      LargeDivisorFails(d);
      assert !SignedRemainderFits(0x8000_0000, d);
    }
  }

  lemma {:induction false} SmallDivisorFits(n: I64, d: I64)
    requires d != 0 && Abs(d) <= 0x8000_0000
    ensures SignedRemainderFits(n, d)
  {
    TruncatingDivisionIsC(n, d);
  }

  lemma {:induction false} LargeDivisorFails(d: I64)
    requires Abs(d) > 0x8000_0000
    ensures TruncRem(0x8000_0000, d) == 0x8000_0000 && ToI32(TruncRem(0x8000_0000, d)) == -0x8000_0000
  {
    DivIsQuotient(0x8000_0000, Abs(d));
    QuotientUnique(0x8000_0000, Abs(d), 0, 0x8000_0000 / Abs(d));
  }

  lemma {:induction false} FitsIff(x: int)
    ensures ToI32(x) == x <==> -0x8000_0000 <= x < 0x8000_0000
  {
  }

  /** The signed remainder, narrowed to 32 bits: right exactly when the true remainder fits. */
  method Smod64(n: I64, d: I64) returns (r: I32)
    requires d != 0
    ensures r == ToI32(TruncRem(n, d))
    ensures Abs(d) <= 0x8000_0000 ==> r == TruncRem(n, d)
    ensures r == TruncRem(n, d) <==> SignedRemainderFits(n, d)
  {
    var q := Sdiv64(n, d);
    r := NarrowedSigned(n, d * q);
    RemainderFrom(n, d, q);
    FitsIff(TruncRem(n, d));
    if Abs(d) <= 0x8000_0000 { SmallDivisorFits(n, d); }
  }

  /** Where the quotient is not representable the remainder is still right modulo 2^32. */
  lemma {:induction false} RemainderFrom(n: I64, d: I64, q: I64)
    requires d != 0 && (q == TruncDiv(n, d) <==> !(n == -B63 && d == -1)) && (n == -B63 && d == -1 ==> q == -B63)
    ensures ToI32(n - d * q) == ToI32(TruncRem(n, d))
  {
    if n == -B63 && d == -1 {
      assert TruncDiv(n, d) == B63;
      SameLowWord(TruncRem(n, d), n - d * q, 1);
    }
  }

  /** The truncating quotient and remainder are the ones C defines: they recompose n, the
      remainder is smaller than the divisor and takes the sign of n. */
  lemma TruncatingDivisionIsC(n: int, d: int)
    requires d != 0
    ensures n == d * TruncDiv(n, d) + TruncRem(n, d)
    ensures Abs(TruncRem(n, d)) < Abs(d)
    ensures TruncRem(n, d) == 0 || (TruncRem(n, d) < 0 <==> n < 0)
  {
    var a: int, c: int := Abs(n), Abs(d);
    var q: int := a / c;
    DivIsQuotient(a, c);
    assert d * TruncDiv(n, d) == (if n < 0 then -(q * c) else q * c);
  }
}
