/** The part of printf that zero-padded octal conversions use (pintos/src/lib/stdio.c): format_integer with
    the 0 flag and a field width, and vsnprintf's output into a bounded buffer. */
module Stdio {
  import opened CStrings
  import opened Queues

  const ZERO: Byte := 48   // '0'

  function Pow8(k: nat): (r: nat)
    ensures r > 0
  {
    if k == 0 then 1 else 8 * Pow8(k - 1)
  }

  /** The lowest w octal digits of v, highest first */
  function Render(v: nat, w: nat): (s: seq<Byte>)
    ensures |s| == w && forall i :: 0 <= i < w ==> ZERO <= s[i] <= ZERO + 7
  {
    if w == 0 then [] else Render(v / 8, w - 1) + [ZERO + v % 8]
  }

  /** The number that a sequence of octal digits stands for */
  function Value(s: seq<Byte>): nat
    requires forall i :: 0 <= i < |s| ==> ZERO <= s[i] <= ZERO + 7
  {
    if s == [] then 0 else 8 * Value(s[..|s| - 1]) + (s[|s| - 1] - ZERO)
  }

  lemma {:induction false} ValueOfRender(v: nat, w: nat)
    requires v < Pow8(w)
    ensures Value(Render(v, w)) == v
  {
    if w > 0 {
      ValueOfRender(v / 8, w - 1);
      assert Render(v, w)[..w - 1] == Render(v / 8, w - 1);
    }
  }

  /** The digits of v as format_integer's first loop leaves them in its buffer, lowest first */
  function Reversed(v: nat): seq<Byte> {
    if v == 0 then [] else [ZERO + v % 8] + Reversed(v / 8)
  }

  lemma {:induction false} ReversedLength(v: nat, w: nat)
    requires v < Pow8(w)
    ensures |Reversed(v)| <= w
  {
    if v != 0 { ReversedLength(v / 8, w - 1); }
  }

  function Zeros(n: nat): (r: seq<Byte>)
    ensures |r| == n
  {
    seq(n, _ => ZERO)
  }

  lemma {:induction false} RenderZero(w: nat)
    ensures Render(0, w) == Zeros(w)
  {
    if w > 0 { RenderZero(w - 1); }
  }

  lemma {:induction false} RenderIsPadded(v: nat, w: nat)
    requires |Reversed(v)| <= w
    ensures Render(v, w) == Zeros(w - |Reversed(v)|) + Backwards(Reversed(v))
  {
    if v == 0 {
      RenderZero(w);
    } else {
      var r := Reversed(v / 8);
      RenderIsPadded(v / 8, w - 1);
      assert Backwards([ZERO + v % 8] + r) == Backwards(r) + [ZERO + v % 8];
    }
  }

  /** What is in the buffer when it is output: the digits lowest first, a single zero for zero */
  function Digits(v: nat): (s: seq<Byte>)
    ensures |s| > 0
  {
    if v == 0 then [ZERO] else Reversed(v)
  }

  /** There are as many digits as the number needs, and no more. */
  lemma {:induction false} DigitsNeeded(v: nat)
    ensures var n := |Digits(v)|; v < Pow8(n) && (n > 1 ==> Pow8(n - 1) <= v)
  {
    if v >= 8 {
      DigitsNeeded(v / 8);
      var n := |Digits(v / 8)|;
      assert Pow8(n + 1) == 8 * Pow8(n) && |Digits(v)| == n + 1;
    } else {
      assert v > 0 ==> Reversed(v) == [ZERO + v % 8] + Reversed(0);
    }
  }

  lemma {:induction false} DigitsFit(v: nat)
    requires v < 0x1_0000_0000_0000_0000
    ensures |Reversed(v)| <= 22
  {
    assert Pow8(8) == 16777216;
    assert Pow8(16) == 281474976710656;
    assert Pow8(22) == 73786976294838206464;
    ReversedLength(v, 22);
  }

  lemma {:induction false} PaddedDigits(v: nat, pad: nat)
    ensures Zeros(pad) + Backwards(Digits(v)) == Render(v, pad + |Digits(v)|)
  {
    if v == 0 { RenderZero(pad + 1); } else { RenderIsPadded(v, pad + |Digits(v)|); }
  }

  lemma {:induction false} NextDigit(done: seq<Byte>, v: nat)
    requires v > 0
    ensures |Reversed(v)| == 1 + |Reversed(v / 8)|
    ensures done + [ZERO + v % 8] + Reversed(v / 8) == done + Reversed(v)
  {
    assert Reversed(v) == [ZERO + v % 8] + Reversed(v / 8);
  }

  /** The loops of format_integer that fill the buffer */
  method Accumulate(value: nat, buf: array<Byte>) returns (n: nat)
    requires value < 0x1_0000_0000_0000_0000 && buf.Length == 64
    modifies buf
    ensures n <= 22 && buf[..n] == Digits(value)
  {
    n := 0;
    var v := value;
    ghost var done: seq<Byte> := [];
    DigitsFit(value);
    while v > 0
      invariant n + |Reversed(v)| <= 22 && buf[..n] == done && done + Reversed(v) == Reversed(value)
      decreases v
    {
      NextDigit(done, v);
      buf[n] := ZERO + v % 8;
      done := done + [ZERO + v % 8];
      v := v / 8;
      n := n + 1;
    }
    assert done + [] == done;
    var precision := 1;
    while n < precision && n < buf.Length - 1
      invariant n <= 22 && (n == 0 ==> value == 0) && (n > 0 ==> buf[..n] == Digits(value))
    {
      buf[n] := ZERO;
      n := n + 1;
    }
  }

  function Max(a: nat, b: nat): nat { if a < b then b else a }

  /** format_integer for %0<width>o: at least width digits, and more if the number needs them */
  method FormatOctal(value: nat, width: nat) returns (out: seq<Byte>)
    requires value < 0x1_0000_0000_0000_0000
    ensures out == Render(value, Max(width, |Digits(value)|))
  {
    var buf := new Byte[64];
    var n := Accumulate(value, buf);
    var pad: int := width - n;
    if pad < 0 { pad := 0; }
    var zeros := OutputDup(ZERO, pad);
    var digits := OutputBackwards(buf, n);
    PaddedDigits(value, pad);
    return zeros + digits;
  }

  method OutputDup(ch: Byte, cnt: nat) returns (out: seq<Byte>)
    ensures out == seq(cnt, _ => ch)
  {
    out := [];
    while |out| < cnt
      invariant |out| <= cnt && out == seq(|out|, _ => ch)
    {
      out := out + [ch];
    }
  }

  method OutputBackwards(buf: array<Byte>, n: nat) returns (out: seq<Byte>)
    requires n <= buf.Length
    ensures out == Backwards(buf[..n])
  {
    out := [];
    var cp: nat := n;
    while cp > 0
      invariant cp <= n && out == Backwards(buf[..n])[..n - cp]
    {
      cp := cp - 1;
      out := out + [buf[cp]];
    }
  }

  lemma {:induction false} Stored(s: seq<Byte>, t: seq<Byte>, ofs: nat, chars: seq<Byte>, size: nat)
    requires size > 0 && ofs + size <= |s| == |t|
    requires var p := if |chars| < size then |chars| else size - 1;
      forall k :: 0 <= k < |s| ==>
        t[k] == if ofs <= k < ofs + p then chars[k - ofs] else if k == ofs + p then 0 else s[k]
    ensures Written(s, t, ofs, Clipped(chars, size))
  {
  }

  /** vsnprintf: characters are stored as long as there is room for a null byte after them; length is the
      number there would have been. */
  method SnPrintOctal(a: array<Byte>, ofs: nat, size: nat, width: nat, value: nat) returns (length: nat)
    requires ofs + size <= a.Length && value < 0x1_0000_0000_0000_0000
    modifies a
    ensures length == Max(width, |Digits(value)|)
    ensures size > 0 ==> Written(old(a[..]), a[..], ofs, Clipped(Render(value, length), size))
    ensures size == 0 ==> a[..] == old(a[..])
  {
    var chars := FormatOctal(value, width);
    var max := if size > 0 then size - 1 else 0;
    var p := 0;
    length := 0;
    while length < |chars|
      invariant length <= |chars| && p == (if length < max then length else max)
      invariant forall k :: 0 <= k < a.Length ==> a[k] == if ofs <= k < ofs + p then chars[k - ofs] else old(a[k])
    {
      if length < max {
        a[ofs + p] := chars[length];
        p := p + 1;
      }
      length := length + 1;
    }
    if size > 0 {
      a[ofs + p] := 0;
      Stored(old(a[..]), a[..], ofs, chars, size);
    }
  }
}
