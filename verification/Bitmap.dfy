/** The packed bitmap (pintos/src/lib/kernel/bitmap.c): an array of 32-bit elements that stands for a
    sequence of bits. Contents() is that sequence, and every operation is specified on it. */
module Bitmaps {
  import opened Bits
  import opened Options

  const ELEM_BITS: nat := 32

  type Elem = x: nat | x < 0x1_0000_0000

  /** The index stands for BITMAP_ERROR when there is none. */
  type Index = Option<nat>

  lemma {:induction false} ElemRange()
    ensures Pow2(ELEM_BITS) == 0x1_0000_0000
  {
    assert Pow2(8) == 256;
    assert Pow2(16) == 65536;
    assert Pow2(24) == 16777216;
  }

  /** The cnt bits from start on are all v. */
  ghost predicate AllAre(s: seq<bool>, start: nat, cnt: nat, v: bool)
    requires start + cnt <= |s|
  {
    forall k :: start <= k < start + cnt ==> s[k] == v
  }

  /** s with the cnt bits from start on set to v */
  ghost function Filled(s: seq<bool>, start: nat, cnt: nat, v: bool): (t: seq<bool>)
    requires start + cnt <= |s|
    ensures |t| == |s| && AllAre(t, start, cnt, v)
    ensures forall k :: 0 <= k < |s| && !(start <= k < start + cnt) ==> t[k] == s[k]
  {
    seq(|s|, k requires 0 <= k < |s| => if start <= k < start + cnt then v else s[k])
  }

  function CountOf(s: seq<bool>, v: bool): nat {
    if s == [] then 0 else CountOf(s[..|s| - 1], v) + Digit(s[|s| - 1] == v)
  }

  lemma {:induction false} CountNext(s: seq<bool>, start: nat, i: nat, v: bool)
    requires start + i < |s|
    ensures CountOf(s[start..start + i + 1], v) == CountOf(s[start..start + i], v) + Digit(s[start + i] == v)
  {
    assert s[start..start + i + 1][..i] == s[start..start + i];
  }

  /** A first fit: the lowest index from start on where cnt bits are v. */
  ghost predicate FirstFit(s: seq<bool>, start: nat, cnt: nat, v: bool, r: Index) {
    match r
    case Some(i) => start <= i && i + cnt <= |s| && AllAre(s, i, cnt, v) && forall j :: start <= j < i ==>
      !AllAre(s, j, cnt, v)
    case None => forall j: nat :: start <= j && j + cnt <= |s| ==> !AllAre(s, j, cnt, v)
  }

  /** A run of no bits is found at the start of the search, wherever that is. */
  lemma {:induction false} NothingFitsAtStart(s: seq<bool>, start: nat, v: bool, r: Index)
    requires start <= |s| && FirstFit(s, start, 0, v, r)
    ensures r == Some(start)
  {
    assert AllAre(s, start, 0, v);
  }

  // ----- one bit of one element

  function BitMask(i: nat): (m: Elem)
    ensures m == Pow2(i % ELEM_BITS)
  {
    ElemRange();
    PowIncreases(i % ELEM_BITS, ELEM_BITS);
    Pow2(i % ELEM_BITS)
  }

  function Marked(x: Elem, i: nat): Elem {
    ElemRange();
    Fits(x, BitMask(i), ELEM_BITS);
    Or(x, BitMask(i))
  }

  function Cleared(x: Elem, i: nat): Elem {
    ElemRange();
    Fits(x, Not(BitMask(i), ELEM_BITS), ELEM_BITS);
    And(x, Not(BitMask(i), ELEM_BITS))
  }

  function Flipped(x: Elem, i: nat): Elem {
    ElemRange();
    Fits(x, BitMask(i), ELEM_BITS);
    Xor(x, BitMask(i))
  }

  /** Each of the three instructions changes the bit it is meant to change and no other. */
  ghost predicate ChangedAt(x: Elem, i: nat, k: nat) {
    && (Bit(Marked(x, i), k) <==> Bit(x, k) || k == i % ELEM_BITS)
    && (Bit(Cleared(x, i), k) <==> Bit(x, k) && k != i % ELEM_BITS)
    && (Bit(Flipped(x, i), k) <==> Bit(x, k) != (k == i % ELEM_BITS))
  }

  lemma {:induction false} OneBitChanges(x: Elem, i: nat, k: nat)
    requires k < ELEM_BITS
    ensures ChangedAt(x, i, k)
  {
    ElemRange();
    PowBit(i % ELEM_BITS, k);
    OrBit(x, BitMask(i), k);
    AndBit(x, Not(BitMask(i), ELEM_BITS), k);
    NotBit(BitMask(i), ELEM_BITS, k);
    XorBit(x, BitMask(i), k);
  }

  predicate TestBit(x: Elem, i: nat): (b: bool)
    ensures b <==> Bit(x, i % ELEM_BITS)
  {
    MaskTest(x, i % ELEM_BITS);
    And(x, BitMask(i)) != 0
  }

  class Bitmap {
    const bitCnt: nat
    const bits: array<Elem>

    ghost predicate Valid() {
      bits.Length == (bitCnt + ELEM_BITS - 1) / ELEM_BITS
    }

    ghost function Contents(): (s: seq<bool>)
      requires Valid()
      reads bits
      ensures |s| == bitCnt
    {
      seq(bitCnt, i requires 0 <= i < bitCnt reads bits => Bit(bits[i / ELEM_BITS], i % ELEM_BITS))
    }

    constructor (bitCnt: nat)
      ensures Valid() && fresh(bits) && this.bitCnt == bitCnt
      ensures Contents() == seq(bitCnt, _ => false)
    {
      this.bitCnt := bitCnt;
      this.bits := new Elem[(bitCnt + ELEM_BITS - 1) / ELEM_BITS];
      new;
      SetAll(false);
    }

    method Mark(i: nat)
      requires Valid() && i < bitCnt
      modifies bits
      ensures Contents() == old(Contents())[i := true]
    {
      ghost var s, x := Contents(), bits[i / ELEM_BITS];
      bits[i / ELEM_BITS] := Marked(bits[i / ELEM_BITS], i);
      forall j | 0 <= j < bitCnt ensures Contents()[j] == s[i := true][j] { OneBitChanges(x, i, j % ELEM_BITS); }
    }

    method Reset(i: nat)
      requires Valid() && i < bitCnt
      modifies bits
      ensures Contents() == old(Contents())[i := false]
    {
      ghost var s, x := Contents(), bits[i / ELEM_BITS];
      bits[i / ELEM_BITS] := Cleared(bits[i / ELEM_BITS], i);
      forall j | 0 <= j < bitCnt ensures Contents()[j] == s[i := false][j] { OneBitChanges(x, i, j % ELEM_BITS); }
    }

    method Flip(i: nat)
      requires Valid() && i < bitCnt
      modifies bits
      ensures Contents() == old(Contents())[i := !old(Contents())[i]]
    {
      ghost var s, x := Contents(), bits[i / ELEM_BITS];
      bits[i / ELEM_BITS] := Flipped(bits[i / ELEM_BITS], i);
      forall j | 0 <= j < bitCnt ensures Contents()[j] == s[i := !s[i]][j] { OneBitChanges(x, i, j % ELEM_BITS); }
    }

    method Set(i: nat, v: bool)
      requires Valid() && i < bitCnt
      modifies bits
      ensures Contents() == old(Contents())[i := v]
    {
      if v { Mark(i); } else { Reset(i); }
    }

    method Test(i: nat) returns (v: bool)
      requires Valid() && i < bitCnt
      ensures v == Contents()[i]
    {
      v := TestBit(bits[i / ELEM_BITS], i);
    }

    method SetMultiple(start: nat, cnt: nat, v: bool)
      requires Valid() && start + cnt <= bitCnt
      modifies bits
      ensures Contents() == Filled(old(Contents()), start, cnt, v)
    {
      var i := 0;
      while i < cnt
        invariant i <= cnt
        invariant Contents() == Filled(old(Contents()), start, i, v)
      {
        Set(start + i, v);
        i := i + 1;
      }
    }

    method SetAll(v: bool)
      requires Valid()
      modifies bits
      ensures Contents() == seq(bitCnt, _ => v)
    {
      SetMultiple(0, bitCnt, v);
    }

    method Count(start: nat, cnt: nat, v: bool) returns (n: nat)
      requires Valid() && start + cnt <= bitCnt
      ensures n == CountOf(Contents()[start..start + cnt], v)
    {
      n := 0;
      var i := 0;
      while i < cnt
        invariant i <= cnt && n == CountOf(Contents()[start..start + i], v)
      {
        CountNext(Contents(), start, i, v);
        var b := Test(start + i);
        if b == v { n := n + 1; }
        i := i + 1;
      }
    }

    method Contains(start: nat, cnt: nat, v: bool) returns (found: bool)
      requires Valid() && start + cnt <= bitCnt
      ensures found <==> v in Contents()[start..start + cnt]
      ensures found <==> !AllAre(Contents(), start, cnt, !v)
    {
      var i := 0;
      while i < cnt
        invariant i <= cnt && AllAre(Contents(), start, i, !v)
      {
        var b := Test(start + i);
        if b == v {
          assert Contents()[start..start + cnt][i] == v;
          return true;
        }
        i := i + 1;
      }
      return false;
    }

    method All(start: nat, cnt: nat) returns (r: bool)
      requires Valid() && start + cnt <= bitCnt
      ensures r <==> AllAre(Contents(), start, cnt, true)
    {
      var c := Contains(start, cnt, false);
      return !c;
    }

    method Scan(start: nat, cnt: nat, v: bool) returns (r: Index)
      requires Valid() && start <= bitCnt
      ensures FirstFit(Contents(), start, cnt, v, r)
    {
      if cnt <= bitCnt {
        var last := bitCnt - cnt;
        var i := start;
        while i <= last
          invariant start <= i
          invariant forall j :: start <= j < i && j <= last ==> !AllAre(Contents(), j, cnt, v)
        {
          var c := Contains(i, cnt, !v);
          if !c { return Some(i); }
          i := i + 1;
        }
      }
      return None;
    }

    /** bitmap_scan_and_flip without interference: first fit, and the bits found are flipped. */
    method ScanAndFlip(start: nat, cnt: nat, v: bool) returns (r: Index)
      requires Valid() && start <= bitCnt
      modifies bits
      ensures FirstFit(old(Contents()), start, cnt, v, r)
      ensures Contents() == if r.Some? then Filled(old(Contents()), r.value, cnt, !v) else old(Contents())
    {
      r := Scan(start, cnt, v);
      if r.Some? {
        SetMultiple(r.value, cnt, !v);
      }
    }
  }

  /** What a first fit allocates can be told apart: filling and then refilling it gives back the map. */
  lemma {:induction false} FlipBack(s: seq<bool>, start: nat, cnt: nat, v: bool, i: nat)
    requires FirstFit(s, start, cnt, v, Some(i))
    ensures Filled(Filled(s, i, cnt, !v), i, cnt, v) == s
  {
  }

  /** There is at most one first fit. */
  lemma {:induction false} FirstFitUnique(s: seq<bool>, start: nat, cnt: nat, v: bool, q: Index, r: Index)
    requires FirstFit(s, start, cnt, v, q) && FirstFit(s, start, cnt, v, r)
    ensures q == r
  {
    if q.Some? && r.Some? {
      assert AllAre(s, q.value, cnt, v) && AllAre(s, r.value, cnt, v);
    }
  }
}
