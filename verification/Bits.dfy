/** Bitwise operations on unsigned machine words, modelled as natural numbers.

    Bit(x, k) is the meaning of a word; the operations are defined digit by digit and each has a lemma
    that says what it does to every bit. */
module Bits {

  function Pow2(k: nat): (r: nat)
    ensures r > 0
  {
    if k == 0 then 1 else 2 * Pow2(k - 1)
  }

  predicate Bit(x: nat, k: nat) {
    if k == 0 then x % 2 == 1 else Bit(x / 2, k - 1)
  }

  function Digit(b: bool): nat { if b then 1 else 0 }

  function And(x: nat, y: nat): nat {
    if x == 0 || y == 0 then 0 else 2 * And(x / 2, y / 2) + Digit(x % 2 == 1 && y % 2 == 1)
  }

  function Or(x: nat, y: nat): nat {
    if x == 0 then y else if y == 0 then x else 2 * Or(x / 2, y / 2) + Digit(x % 2 == 1 || y % 2 == 1)
  }

  function Xor(x: nat, y: nat): nat {
    if x == 0 then y else if y == 0 then x else 2 * Xor(x / 2, y / 2) + Digit((x % 2 == 1) != (y % 2 == 1))
  }

  /** The complement of x in a word of w bits. */
  function Not(x: nat, w: nat): nat
    requires x < Pow2(w)
  {
    Pow2(w) - 1 - x
  }

  lemma {:induction false} ZeroBit(k: nat)
    ensures !Bit(0, k)
  {
    if k > 0 { ZeroBit(k - 1); }
  }

  /** Adding a lowest digit moves the other bits up. */
  lemma {:induction false} Shifted(n: nat, b: bool, k: nat)
    ensures Bit(2 * n + Digit(b), k) <==> if k == 0 then b else Bit(n, k - 1)
  {
    assert (2 * n + Digit(b)) / 2 == n;
  }

  lemma {:induction false} AndBit(x: nat, y: nat, k: nat)
    ensures Bit(And(x, y), k) <==> Bit(x, k) && Bit(y, k)
    decreases k
  {
    if x == 0 || y == 0 {
      ZeroBit(k);
    } else {
      Shifted(And(x / 2, y / 2), x % 2 == 1 && y % 2 == 1, k);
      if k > 0 { AndBit(x / 2, y / 2, k - 1); }
    }
  }

  lemma {:induction false} OrBit(x: nat, y: nat, k: nat)
    ensures Bit(Or(x, y), k) <==> Bit(x, k) || Bit(y, k)
    decreases k
  {
    if x == 0 || y == 0 {
      ZeroBit(k);
    } else {
      Shifted(Or(x / 2, y / 2), x % 2 == 1 || y % 2 == 1, k);
      if k > 0 { OrBit(x / 2, y / 2, k - 1); }
    }
  }

  lemma {:induction false} XorBit(x: nat, y: nat, k: nat)
    ensures Bit(Xor(x, y), k) <==> Bit(x, k) != Bit(y, k)
    decreases k
  {
    if x == 0 || y == 0 {
      ZeroBit(k);
    } else {
      Shifted(Xor(x / 2, y / 2), (x % 2 == 1) != (y % 2 == 1), k);
      if k > 0 { XorBit(x / 2, y / 2, k - 1); }
    }
  }

  lemma {:induction false} NotBit(x: nat, w: nat, k: nat)
    requires x < Pow2(w) && k < w
    ensures Bit(Not(x, w), k) <==> !Bit(x, k)
    decreases k
  {
    if k > 0 {
      assert Not(x, w) / 2 == Not(x / 2, w - 1);
      NotBit(x / 2, w - 1, k - 1);
    }
  }

  lemma {:induction false} PowBit(n: nat, k: nat)
    ensures Bit(Pow2(n), k) <==> k == n
    decreases k
  {
    if n == 0 {
      if k > 0 { ZeroBit(k - 1); }
    } else if k > 0 {
      PowBit(n - 1, k - 1);
    }
  }

  /** A word is nonzero exactly if one of its bits is set. */
  lemma {:induction false} SomeBit(x: nat) returns (k: nat)
    requires x != 0
    ensures Bit(x, k)
  {
    if x % 2 == 1 {
      k := 0;
    } else {
      var j := SomeBit(x / 2);
      k := j + 1;
    }
  }

  lemma {:induction false} Fits(x: nat, y: nat, w: nat)
    requires x < Pow2(w) && y < Pow2(w)
    ensures And(x, y) <= x && And(x, y) <= y && Or(x, y) < Pow2(w) && Xor(x, y) < Pow2(w)
    decreases x
  {
    if x != 0 && y != 0 {
      Fits(x / 2, y / 2, w - 1);
    }
  }

  /** The test the source makes: the word and the mask of one bit have something in common. */
  lemma {:induction false} MaskTest(x: nat, n: nat)
    ensures And(x, Pow2(n)) != 0 <==> Bit(x, n)
  {
    if And(x, Pow2(n)) != 0 {
      var k := SomeBit(And(x, Pow2(n)));
      AndBit(x, Pow2(n), k);
      PowBit(n, k);
    }
    AndBit(x, Pow2(n), n);
    PowBit(n, n);
    ZeroBit(n);
  }

  lemma {:induction false} PowIncreases(n: nat, m: nat)
    requires n < m
    ensures 2 * Pow2(n) <= Pow2(m)
    decreases m
  {
    if n < m - 1 { PowIncreases(n, m - 1); }
  }

  // ----- masks of low bits and powers of two

  lemma {:induction false} HalfMod(x: nat, m: nat)
    requires m > 0
    ensures x % (2 * m) == 2 * (x / 2 % m) + x % 2
  {
    var q, r := x / 2 / m, x / 2 % m;
    assert x / 2 == q * m + r;
    assert x == q * (2 * m) + (2 * r + x % 2);
    Remainder(x, 2 * m, q, 2 * r + x % 2);
  }

  lemma {:induction false} Remainder(x: nat, d: nat, q: nat, r: nat)
    requires d > 0 && x == q * d + r && r < d
    ensures x % d == r
  {
    var e := x / d - q;
    assert e * d == r - x % d;
    assert e >= 1 ==> e * d >= d;
    assert e <= -1 ==> e * d + d <= 0;
  }

  lemma {:induction false} MaskStep(x: nat, m: nat)
    requires m > 0
    ensures And(x, 2 * m - 1) == 2 * And(x / 2, m - 1) + x % 2
  {
    if x != 0 {
      assert (2 * m - 1) / 2 == m - 1 && (2 * m - 1) % 2 == 1;
    }
  }

  lemma {:induction false} MaskModStep(x: nat, m: nat)
    requires m > 0 && And(x / 2, m - 1) == x / 2 % m
    ensures And(x, 2 * m - 1) == x % (2 * m)
  {
    MaskStep(x, m);
    HalfMod(x, m);
  }

  /** Masking with 2^k - 1 is reduction modulo 2^k. */
  lemma {:induction false} MaskMod(x: nat, k: nat)
    ensures And(x, Pow2(k) - 1) == x % Pow2(k)
    decreases k
  {
    if k > 0 {
      MaskMod(x / 2, k - 1);
      MaskModStep(x, Pow2(k - 1));
    }
  }

  ghost predicate PowerOfTwo(x: nat) {
    exists k: nat :: x == Pow2(k)
  }

  lemma {:induction false} EvenPower(x: nat)
    requires x > 0 && x % 2 == 0
    ensures PowerOfTwo(x) <==> PowerOfTwo(x / 2)
  {
    if PowerOfTwo(x) {
      var k: nat :| x == Pow2(k);
      assert x / 2 == Pow2(k - 1);
    }
    if PowerOfTwo(x / 2) {
      var k: nat :| x / 2 == Pow2(k);
      assert x == Pow2(k + 1);
    }
  }

  lemma {:induction false} OddPower(x: nat)
    requires x % 2 == 1
    ensures PowerOfTwo(x) <==> x == 1
  {
    assert Pow2(0) == 1;
    forall k: nat | x == Pow2(k) ensures x == 1 {}
  }

  /** The largest power of two that is no larger than x. */
  function Top(x: nat): (r: nat)
    requires x > 0
    ensures r <= x < 2 * r
  {
    if x == 1 then 1 else 2 * Top(x / 2)
  }

  lemma {:induction false} TopIsPower(x: nat)
    requires x > 0
    ensures PowerOfTwo(Top(x))
  {
    if x == 1 {
      assert Pow2(0) == 1;
    } else {
      TopIsPower(x / 2);
      var k: nat :| Top(x / 2) == Pow2(k);
      assert Top(x) == Pow2(k + 1);
    }
  }

  /** x & (x - 1) is smaller than x but keeps the top bit, unless x is a power of two, when it is 0. */
  lemma {:induction false} ClearLowest(x: nat)
    requires x > 0
    ensures And(x, x - 1) == 0 <==> PowerOfTwo(x)
    ensures And(x, x - 1) < x
    ensures And(x, x - 1) != 0 ==> Top(And(x, x - 1)) == Top(x)
    ensures PowerOfTwo(x) ==> Top(x) == x
  {
    if x % 2 == 1 {
      ClearOdd(x);
      OddPower(x);
    } else {
      ClearEven(x);
      ClearLowest(x / 2);
      EvenPower(x);
    }
  }

  lemma {:induction false} ClearOdd(x: nat)
    requires x % 2 == 1
    ensures And(x, x - 1) == x - 1
    ensures x > 1 ==> Top(x - 1) == Top(x)
  {
    AndSame(x / 2);
    assert (x - 1) / 2 == x / 2;
  }

  lemma {:induction false} ClearEven(x: nat)
    requires x > 0 && x % 2 == 0
    ensures And(x, x - 1) == 2 * And(x / 2, x / 2 - 1) && Top(x) == 2 * Top(x / 2)
    ensures And(x, x - 1) != 0 ==> Top(And(x, x - 1)) == 2 * Top(And(x / 2, x / 2 - 1))
  {
    assert (x - 1) / 2 == x / 2 - 1;
  }

  lemma {:induction false} AndSame(x: nat)
    ensures And(x, x) == x
  {
    if x != 0 { AndSame(x / 2); }
  }
}
