/** ustar archive headers (pintos/src/lib/ustar.c): making and parsing the 512-byte header of the "ustar
    Interchange Format" described with the pax utility in IEEE Std 1003.1-2001. */
module Ustar {
  import opened CStrings
  import opened Options
  import opened Stdio

  const HEADER_SIZE: nat := 512
  const CHKSUM_START: nat := 148
  const CHKSUM_END: nat := 156

  const REGULAR: Byte := 48     // '0'
  const DIRECTORY: Byte := 53   // '5'
  const SLASH: Byte := 47
  const DOT: Byte := 46
  const SPACE: Byte := 32

  const USTAR: seq<Byte> := [117, 115, 116, 97, 114]   // "ustar"
  const ROOT: seq<Byte> := [114, 111, 111, 116]        // "root"
  const MTIME: nat := 1136102400

  // ----- file names

  /** The name starts with "/", "./" or "../". */
  predicate Antisocial(s: seq<Byte>) {
    || (|s| >= 1 && s[0] == SLASH)
    || (|s| >= 2 && s[0] == DOT && s[1] == SLASH)
    || (|s| >= 3 && s[0] == DOT && s[1] == DOT && s[2] == SLASH)
  }

  /** What the loop drops: everything up to and including the first slash */
  function Skip(s: seq<Byte>): (n: nat)
    requires Antisocial(s)
    ensures 0 < n <= |s| && s[n - 1] == SLASH && forall j :: 0 <= j < n - 1 ==> s[j] != SLASH
  {
    if s[0] == SLASH then 1 else if s[1] == SLASH then 2 else 3
  }

  function Dropped(s: seq<Byte>): seq<Byte> {
    if Antisocial(s) then Dropped(s[Skip(s)..]) else s
  }

  /** strip_antisocial_prefixes */
  function Stripped(s: seq<Byte>): seq<Byte> {
    var t := Dropped(s); if t == [] || t == [DOT, DOT] then [DOT] else t
  }

  method StripAntisocialPrefixes(name: seq<Byte>) returns (r: seq<Byte>)
    ensures r == Stripped(name)
  {
    r := name;
    while Antisocial(r)
      invariant Dropped(r) == Dropped(name)
      decreases |r|
    {
      assert r[Skip(r) - 1] == SLASH;
      var i := StrChr(r, SLASH);
      assert i + 1 == Skip(r);
      r := r[i + 1..];
    }
    if r == [] || r == [DOT, DOT] { r := [DOT]; }
  }

  /** strchr for a character that is there */
  method StrChr(s: seq<Byte>, c: Byte) returns (i: nat)
    requires c in s
    ensures i < |s| && s[i] == c && forall j :: 0 <= j < i ==> s[j] != c
  {
    i := 0;
    while s[i] != c
      invariant i < |s| && (forall j :: 0 <= j < i ==> s[j] != c)
      decreases |s| - i
    {
      i := i + 1;
    }
  }

  lemma {:induction false} DroppedIsSuffix(s: seq<Byte>) returns (p: seq<Byte>)
    ensures s == p + Dropped(s) && !Antisocial(Dropped(s))
  {
    p := [];
    if Antisocial(s) {
      var q := DroppedIsSuffix(s[Skip(s)..]);
      p := s[..Skip(s)] + q;
    }
  }

  /** No stripped name leads out of the directory at its beginning, and stripping it again changes nothing. */
  lemma {:induction false} StrippedIsSafe(s: seq<Byte>)
    ensures !Antisocial(Stripped(s)) && Stripped(s) != [] && Stripped(s) != [DOT, DOT]
    ensures Stripped(Stripped(s)) == Stripped(s)
    ensures NulFree(s) ==> NulFree(Stripped(s))
  {
    var p := DroppedIsSuffix(s);
    var t := Dropped(s);
    assert forall i :: 0 <= i < |t| ==> t[i] == s[|p| + i];
  }

  /** "/", "./" and "../" */
  const PREFIXES: set<seq<Byte>> := {[SLASH], [DOT, SLASH], [DOT, DOT, SLASH]}

  ghost predicate Social(s: seq<Byte>) {
    s != [] && s != [DOT, DOT] && forall q | q in PREFIXES :: !(q <= s)
  }

  /** What stripping is: a name that begins with none of the prefixes stays as it is, a prefix makes no difference,
      and nothing and ".." become ".". */
  ghost predicate Strips(strip: seq<Byte> -> seq<Byte>) {
    && (forall s | Social(s) :: strip(s) == s)
    && (forall q, s | q in PREFIXES :: strip(q + s) == strip(s))
    && strip([]) == [DOT] && strip([DOT, DOT]) == [DOT]
  }

  lemma {:induction false} StrippedStrips()
    ensures Strips(Stripped)
  {
    forall s | Social(s) ensures Stripped(s) == s {
      assert [SLASH] in PREFIXES && [DOT, SLASH] in PREFIXES && [DOT, DOT, SLASH] in PREFIXES;
      assert !Antisocial(s);
    }
    forall q, s | q in PREFIXES ensures Stripped(q + s) == Stripped(s) {
      assert Antisocial(q + s) && Skip(q + s) == |q| && (q + s)[|q|..] == s;
    }
  }

  /** And there is no other function like it. */
  lemma {:induction false} StrippedIsOnly(strip: seq<Byte> -> seq<Byte>, s: seq<Byte>)
    requires Strips(strip)
    ensures strip(s) == Stripped(s)
  {
    StrippedStrips();
    if q :| q in PREFIXES && q <= s {
      assert s == q + s[|q|..];
      StrippedIsOnly(strip, s[|q|..]);
    } else if s != [] && s != [DOT, DOT] {
      assert Social(s);
    }
  }

  // ----- octal fields

  predicate OctalDigits(s: seq<Byte>) { forall i :: 0 <= i < |s| ==> ZERO <= s[i] <= ZERO + 7 }

  /** The number of octal digits that s starts with */
  function DigitRun(s: seq<Byte>): (n: nat)
    ensures n <= |s| && OctalDigits(s[..n]) && (n < |s| ==> !(ZERO <= s[n] <= ZERO + 7))
  {
    if s == [] || !(ZERO <= s[0] <= ZERO + 7) then 0
    else
      var n := DigitRun(s[1..]);
      assert s[..n + 1] == [s[0]] + s[1..][..n];
      n + 1
  }

  const ULONG_MAX: nat := 0xffff_ffff

  /** The meaning of an octal field: digits, at least one, ended by a space or a null byte, whose value fits
      an unsigned long */
  function OctalField(s: seq<Byte>): Option<nat> {
    var n := DigitRun(s);
    if 0 < n < |s| && (s[n] == SPACE || s[n] == 0) && Value(s[..n]) <= ULONG_MAX then Some(Value(s[..n])) else None
  }

  /** A field stands for v exactly if it starts with octal digits for v, which fits, and a space or a null byte. */
  lemma {:induction false} OctalFieldIff(s: seq<Byte>, v: nat)
    ensures OctalField(s) == Some(v) <==> v <= ULONG_MAX && exists n :: 0 < n < |s| && IsOctal(s, n, v)
  {
    if OctalField(s) == Some(v) {
      assert IsOctal(s, DigitRun(s), v);
    } else if n :| 0 < n < |s| && IsOctal(s, n, v) {
      RunIsUnique(s, n);
    }
  }

  ghost predicate IsOctal(s: seq<Byte>, n: nat, v: nat)
    requires n < |s|
  {
    (forall i :: 0 <= i < n ==> ZERO <= s[i] <= ZERO + 7) && Value(s[..n]) == v && (s[n] == SPACE || s[n] == 0)
  }

  lemma {:induction false} NextDigit(s: seq<Byte>, n: nat)
    requires n < |s| && OctalDigits(s[..n + 1])
    ensures OctalDigits(s[..n]) && Value(s[..n + 1]) == 8 * Value(s[..n]) + (s[n] - ZERO)
  {
    assert s[..n + 1][..n] == s[..n];
    assert forall i :: 0 <= i < n ==> s[..n][i] == s[..n + 1][i];
  }

  lemma {:induction false} LongerIsLarger(s: seq<Byte>, i: nat, n: nat)
    requires i <= n <= |s| && OctalDigits(s[..n])
    ensures OctalDigits(s[..i]) && Value(s[..i]) <= Value(s[..n])
    decreases n - i
  {
    if i < n {
      NextDigit(s, n - 1);
      LongerIsLarger(s, i, n - 1);
    }
  }

  lemma {:induction false} RunIsUnique(s: seq<Byte>, n: nat)
    requires n <= |s| && OctalDigits(s[..n]) && (n < |s| ==> !(ZERO <= s[n] <= ZERO + 7))
    ensures n == DigitRun(s)
  {
    var m := DigitRun(s);
    assert forall i :: 0 <= i < m ==> s[..m][i] == s[i];
    assert forall i :: 0 <= i < n ==> s[..n][i] == s[i];
  }

  method ParseOctalField(s: seq<Byte>) returns (r: Option<nat>)
    ensures r == OctalField(s)
  {
    var value, ofs := 0, 0;
    while ofs < |s|
      invariant ofs <= |s| && OctalDigits(s[..ofs]) && value == Value(s[..ofs]) <= ULONG_MAX
    {
      var c := s[ofs];
      if ZERO <= c <= ZERO + 7 {
        assert OctalDigits(s[..ofs + 1]);
        NextDigit(s, ofs);
        if value > ULONG_MAX / 8 {
          RunIsLonger(s, ofs + 1);
          LongerIsLarger(s, ofs + 1, DigitRun(s));
          return None;
        }
        value := c - ZERO + value * 8;
      } else {
        RunIsUnique(s, ofs);
        return if c == SPACE || c == 0 then (if ofs > 0 then Some(value) else None) else None;
      }
      ofs := ofs + 1;
    }
    RunIsUnique(s, ofs);
    return None;
  }

  lemma {:induction false} RunIsLonger(s: seq<Byte>, n: nat)
    requires n <= |s| && OctalDigits(s[..n])
    ensures n <= DigitRun(s)
  {
    assert forall i :: 0 <= i < n ==> s[..n][i] == s[i];
  }

  /** What snprintf writes with a width that is large enough is read back as the same number. */
  lemma {:induction false} ParseOfRender(v: nat, w: nat)
    requires w > 0 && v < Pow8(w) && v <= ULONG_MAX
    ensures OctalField(Render(v, w) + [0]) == Some(v)
  {
    var s := Render(v, w) + [0];
    assert s[..w] == Render(v, w);
    RunIsUnique(s, w);
    ValueOfRender(v, w);
  }

  // ----- the checksum

  /** The bytes before n, with those of the chksum field taken to be spaces, added up */
  function Sum(h: seq<Byte>, n: nat): (r: nat)
    requires n <= |h|
    ensures r <= 255 * n
  {
    if n == 0 then 0
    else Sum(h, n - 1) + (if CHKSUM_START <= n - 1 < CHKSUM_END then SPACE else h[n - 1])
  }

  method CalculateChksum(h: seq<Byte>) returns (chksum: nat)
    requires |h| == HEADER_SIZE
    ensures chksum == Sum(h, HEADER_SIZE)
  {
    chksum := 0;
    var i := 0;
    while i < HEADER_SIZE
      invariant i <= HEADER_SIZE && chksum == Sum(h, i)
    {
      var inField := i >= CHKSUM_START && i < CHKSUM_END;
      chksum := chksum + if inField then SPACE else h[i];
      i := i + 1;
    }
  }

  /** The checksum does not depend on its own field. */
  lemma {:induction false} SumIgnoresField(g: seq<Byte>, h: seq<Byte>, n: nat)
    requires |g| == |h| && n <= |h| && forall i :: 0 <= i < |h| && !(CHKSUM_START <= i < CHKSUM_END) ==> g[i] == h[i]
    ensures Sum(g, n) == Sum(h, n)
  {
    if n > 0 { SumIgnoresField(g, h, n - 1); }
  }

  function Total(s: seq<Byte>): nat { if s == [] then 0 else Total(s[..|s| - 1]) + s[|s| - 1] }

  /** It is the sum of all the other bytes and of eight spaces. */
  lemma {:induction false} SumIsTotal(h: seq<Byte>)
    requires |h| == HEADER_SIZE
    ensures Sum(h, HEADER_SIZE) == Total(h[..CHKSUM_START]) + 8 * 32 + Total(h[CHKSUM_END..])
  {
    SumBefore(h, CHKSUM_START);
    SumBehind(h, HEADER_SIZE);
    assert h[CHKSUM_END..HEADER_SIZE] == h[CHKSUM_END..];
  }

  lemma {:induction false} SumBefore(h: seq<Byte>, n: nat)
    requires n <= CHKSUM_START && n <= |h|
    ensures Sum(h, n) == Total(h[..n])
  {
    if n > 0 {
      SumBefore(h, n - 1);
      assert h[..n][..n - 1] == h[..n - 1];
    }
  }

  lemma {:induction false} SumBehind(h: seq<Byte>, n: nat)
    requires CHKSUM_END <= n <= |h|
    ensures Sum(h, n) == Sum(h, CHKSUM_START) + 8 * 32 + Total(h[CHKSUM_END..n])
  {
    if n > CHKSUM_END {
      SumBehind(h, n - 1);
      assert h[CHKSUM_END..n][..n - 1 - CHKSUM_END] == h[CHKSUM_END..n - 1];
    } else {
      SumWithin(h, n);
    }
  }

  lemma {:induction false} SumWithin(h: seq<Byte>, n: nat)
    requires CHKSUM_START <= n <= CHKSUM_END && n <= |h|
    ensures Sum(h, n) == Sum(h, CHKSUM_START) + (n - CHKSUM_START) * 32
  {
    if n > CHKSUM_START { SumWithin(h, n - 1); }
  }

  // ----- headers as lists of fields

  datatype Field = Field(ofs: nat, bytes: seq<Byte>)

  predicate Covers(f: Field, i: nat) { f.ofs <= i < f.ofs + |f.bytes| }

  /** Byte i of a header that was cleared and into which then the fields were written in order */
  function ByteAt(fs: seq<Field>, i: nat): Byte {
    if fs == [] then 0
    else if Covers(fs[|fs| - 1], i) then fs[|fs| - 1].bytes[i - fs[|fs| - 1].ofs]
    else ByteAt(fs[..|fs| - 1], i)
  }

  ghost predicate Represents(h: seq<Byte>, fs: seq<Field>) {
    |h| == HEADER_SIZE && forall i :: 0 <= i < HEADER_SIZE ==> h[i] == ByteAt(fs, i)
  }

  lemma {:induction false} AddField(h: seq<Byte>, h': seq<Byte>, fs: seq<Field>, k: nat)
    requires k < |fs| && Represents(h, fs[..k]) && Written(h, h', fs[k].ofs, fs[k].bytes)
    ensures Represents(h', fs[..k + 1])
  {
    assert fs[..k + 1][..k] == fs[..k];
  }

  ghost predicate Apart(f: Field, g: Field) { f.ofs + |f.bytes| <= g.ofs || g.ofs + |g.bytes| <= f.ofs }

  /** A field that none of the later ones overlaps is there in the end. */
  lemma {:induction false} FieldKept(fs: seq<Field>, k: nat, i: nat)
    requires k < |fs| && Covers(fs[k], i) && forall j | k < j < |fs| :: Apart(fs[j], fs[k])
    ensures ByteAt(fs, i) == fs[k].bytes[i - fs[k].ofs]
  {
    if k < |fs| - 1 {
      FieldKept(fs[..|fs| - 1], k, i);
    }
  }

  lemma {:induction false} NotCovered(fs: seq<Field>, i: nat)
    requires forall j | 0 <= j < |fs| :: !Covers(fs[j], i)
    ensures ByteAt(fs, i) == 0
  {
    if fs != [] { NotCovered(fs[..|fs| - 1], i); }
  }

  // ----- making headers

  function Octal(v: nat, w: nat): seq<Byte> { Render(v, w) + [0] }

  function Unsigned(size: int): nat
    requires -0x8000_0000 <= size < 0x8000_0000
  {
    if size < 0 then size + 0x1_0000_0000 else size
  }

  /** The fields of a header but for the checksum, in the order in which they are written */
  function Fields(name: seq<Byte>, kind: Byte, size: int): (fs: seq<Field>)
    requires -0x8000_0000 <= size < 0x8000_0000
    ensures |fs| == 11
  {
    [Field(0, name + [0]),
     Field(100, Octal(if kind == REGULAR then 420 else 493, 7)),
     Field(108, Zeros(7) + [0]),
     Field(116, Zeros(7) + [0]),
     Field(124, Octal(Unsigned(size), 11)),
     Field(136, Octal(MTIME, 11)),
     Field(156, [kind]),
     Field(257, USTAR + [0]),
     Field(263, [ZERO, ZERO]),
     Field(297, ROOT + [0]),
     Field(265, ROOT + [0])]
  }

  lemma {:induction false} DigitsAtMost(v: nat, w: nat)
    requires w > 0 && v < Pow8(w)
    ensures |Digits(v)| <= w
  {
    ReversedLength(v, w);
  }

  lemma {:induction false} Powers()
    ensures Pow8(7) == 2097152 && Pow8(11) == 8589934592
  {
    assert Pow8(4) == 4096;
  }

  // Each of these writes field k of the list.

  method PutOctal(a: array<Byte>, ofs: nat, w: nat, v: nat, ghost fs: seq<Field>, ghost k: nat)
    requires ofs + w + 1 <= a.Length && w > 0 && v < Pow8(w) && v <= ULONG_MAX
    requires k < |fs| && fs[k] == Field(ofs, Octal(v, w)) && Represents(a[..], fs[..k])
    modifies a
    ensures Represents(a[..], fs[..k + 1]) && Written(old(a[..]), a[..], ofs, Octal(v, w))
  {
    ghost var h := a[..];
    DigitsAtMost(v, w);
    var _ := SnPrintOctal(a, ofs, w + 1, w, v);
    AddField(h, a[..], fs, k);
  }

  method PutString(a: array<Byte>, ofs: nat, size: nat, s: seq<Byte>, ghost fs: seq<Field>, ghost k: nat)
    requires ofs + size <= a.Length && |s| < size
    requires k < |fs| && fs[k] == Field(ofs, s + [0]) && Represents(a[..], fs[..k])
    modifies a
    ensures Represents(a[..], fs[..k + 1])
  {
    ghost var h := a[..];
    var len := StrLCpy(a, ofs, s, size);
    AddField(h, a[..], fs, k);
  }

  method PutByte(a: array<Byte>, ofs: nat, b: Byte, ghost fs: seq<Field>, ghost k: nat)
    requires ofs < a.Length && k < |fs| && fs[k] == Field(ofs, [b]) && Represents(a[..], fs[..k])
    modifies a
    ensures Represents(a[..], fs[..k + 1])
  {
    ghost var h := a[..];
    a[ofs] := b;
    AddField(h, a[..], fs, k);
  }

  method PutVersion(a: array<Byte>, ghost fs: seq<Field>, ghost k: nat)
    requires a.Length == HEADER_SIZE && k < |fs| && fs[k] == Field(263, [ZERO, ZERO]) && Represents(a[..], fs[..k])
    modifies a
    ensures Represents(a[..], fs[..k + 1])
  {
    ghost var h := a[..];
    a[263], a[264] := ZERO, ZERO;
    AddField(h, a[..], fs, k);
  }

  /** The final header: the fields, and the checksum of the whole */
  ghost predicate IsHeader(h: seq<Byte>, name: seq<Byte>, kind: Byte, size: int)
    requires -0x8000_0000 <= size < 0x8000_0000
  {
    |h| == HEADER_SIZE && Represents(h, Fields(name, kind, size) + [Field(CHKSUM_START, Octal(Sum(h, HEADER_SIZE), 7))])
  }

  method FillName(a: array<Byte>, name: seq<Byte>, kind: Byte, size: int)
    requires a.Length == HEADER_SIZE && |name| <= 99 && -0x8000_0000 <= size < 0x8000_0000
    modifies a
    ensures Represents(a[..], Fields(name, kind, size)[..2])
  {
    MemSet(a, 0);
    Powers();
    var mode := if kind == REGULAR then 420 else 493;
    ghost var fs := Fields(name, kind, size);
    PutString(a, 0, 100, name, fs, 0);
    PutOctal(a, 100, 7, mode, fs, 1);
  }

  method FillIds(a: array<Byte>, name: seq<Byte>, kind: Byte, size: int)
    requires a.Length == HEADER_SIZE && -0x8000_0000 <= size < 0x8000_0000
    requires Represents(a[..], Fields(name, kind, size)[..2])
    modifies a
    ensures Represents(a[..], Fields(name, kind, size)[..4])
  {
    ghost var fs := Fields(name, kind, size);
    PutString(a, 108, 8, Zeros(7), fs, 2);
    PutString(a, 116, 8, Zeros(7), fs, 3);
  }

  method FillSize(a: array<Byte>, name: seq<Byte>, kind: Byte, size: int)
    requires a.Length == HEADER_SIZE && -0x8000_0000 <= size < 0x8000_0000
      && Represents(a[..], Fields(name, kind, size)[..4])
    modifies a
    ensures Represents(a[..], Fields(name, kind, size)[..7])
  {
    Powers();
    ghost var fs := Fields(name, kind, size);
    PutOctal(a, 124, 11, Unsigned(size), fs, 4);
    PutOctal(a, 136, 11, MTIME, fs, 5);
    PutByte(a, 156, kind, fs, 6);
  }

  method FillMagic(a: array<Byte>, name: seq<Byte>, kind: Byte, size: int)
    requires a.Length == HEADER_SIZE && -0x8000_0000 <= size < 0x8000_0000
      && Represents(a[..], Fields(name, kind, size)[..7])
    modifies a
    ensures Represents(a[..], Fields(name, kind, size))
  {
    ghost var fs := Fields(name, kind, size);
    PutString(a, 257, 6, USTAR, fs, 7);
    PutVersion(a, fs, 8);
    PutString(a, 297, 32, ROOT, fs, 9);
    PutString(a, 265, 32, ROOT, fs, 10);
    assert fs[..11] == fs;
  }

  /** ustar_make_header: fails exactly if the stripped name is too long */
  method MakeHeader(name: seq<Byte>, kind: Byte, size: int, a: array<Byte>) returns (ok: bool)
    requires a.Length == HEADER_SIZE && (kind == REGULAR || kind == DIRECTORY) && -0x8000_0000 <= size < 0x8000_0000
    modifies a
    ensures ok <==> |Stripped(name)| <= 99
    ensures ok ==> IsHeader(a[..], Stripped(name), kind, size)
    ensures !ok ==> a[..] == old(a[..])
  {
    var stripped := StripAntisocialPrefixes(name);
    if |stripped| > 99 { return false; }
    FillName(a, stripped, kind, size);
    FillIds(a, stripped, kind, size);
    FillSize(a, stripped, kind, size);
    FillMagic(a, stripped, kind, size);
    ghost var h := a[..];
    var chksum := CalculateChksum(a[..]);
    Powers();
    ghost var fs := Fields(stripped, kind, size) + [Field(CHKSUM_START, Octal(chksum, 7))];
    assert fs[..11] == Fields(stripped, kind, size) && fs[..12] == fs;
    PutOctal(a, CHKSUM_START, 7, chksum, fs, 11);
    SumIgnoresField(h, a[..], HEADER_SIZE);
    return true;
  }

  // ----- parsing headers

  datatype Parsed = Eof | Entry(name: seq<Byte>, kind: Byte, size: nat) | Error(message: string)

  ghost predicate AllZeros(h: seq<Byte>) { forall i :: 0 <= i < |h| ==> h[i] == 0 }

  method IsAllZeros(h: seq<Byte>) returns (r: bool)
    ensures r <==> AllZeros(h)
  {
    var i := 0;
    while i < |h|
      invariant i <= |h| && forall j :: 0 <= j < i ==> h[j] == 0
    {
      if h[i] != 0 { return false; }
      i := i + 1;
    }
    return true;
  }

  const INT_MAX: nat := 0x7fff_ffff

  /** ustar_parse_header */
  ghost function Parse(h: seq<Byte>): Parsed
    requires |h| == HEADER_SIZE
  {
    if AllZeros(h) then Eof
    else if h[257..263] != USTAR + [0] then Error("not a ustar archive")
    else if h[263] != ZERO || h[264] != ZERO then Error("invalid ustar version")
    else if OctalField(h[148..156]).None? then Error("corrupt chksum field")
    else if OctalField(h[148..156]).value != Sum(h, HEADER_SIZE) then Error("checksum mismatch")
    else if h[99] != 0 || h[345] != 0 then Error("file name too long")
    else if h[156] != REGULAR && h[156] != DIRECTORY then Error("unimplemented file type")
    else if h[156] == REGULAR && OctalField(h[124..136]).None? then Error("corrupt file size field")
    else if h[156] == REGULAR && OctalField(h[124..136]).value > INT_MAX then Error("file too large")
    else Entry(Stripped(CString(h[..100])), h[156], if h[156] == REGULAR then OctalField(h[124..136]).value else 0)
  }

  method ParseHeader(h: seq<Byte>) returns (r: Parsed)
    requires |h| == HEADER_SIZE
    ensures r == Parse(h)
  {
    var zeros := IsAllZeros(h);
    if zeros { return Eof; }
    if h[257..263] != USTAR + [0] { return Error("not a ustar archive"); }
    if h[263] != ZERO || h[264] != ZERO { return Error("invalid ustar version"); }
    var chksum := ParseOctalField(h[148..156]);
    if chksum.None? { return Error("corrupt chksum field"); }
    var sum := CalculateChksum(h);
    if chksum.value != sum { return Error("checksum mismatch"); }
    if h[99] != 0 || h[345] != 0 { return Error("file name too long"); }
    if h[156] != REGULAR && h[156] != DIRECTORY { return Error("unimplemented file type"); }
    var size := 0;
    if h[156] == REGULAR {
      var s := ParseOctalField(h[124..136]);
      if s.None? { return Error("corrupt file size field"); }
      if s.value > INT_MAX { return Error("file too large"); }
      size := s.value;
    }
    var name := StripAntisocialPrefixes(CString(h[..100]));
    return Entry(name, h[156], size);
  }

  /** The checks and their messages, in the order in which they are made */
  const MESSAGES: seq<string> := ["not a ustar archive", "invalid ustar version", "corrupt chksum field",
    "checksum mismatch", "file name too long", "unimplemented file type", "corrupt file size field", "file too large"]

  ghost predicate Fails(h: seq<Byte>, k: nat)
    requires |h| == HEADER_SIZE
  {
    var sum, size := OctalField(h[148..156]), OctalField(h[124..136]);
    if k == 0 then h[257..263] != [117, 115, 116, 97, 114, 0]
    else if k == 1 then h[263..265] != [48, 48]
    else if k == 2 then sum.None?
    else if k == 3 then sum != Some(Total(h[..148]) + 8 * 32 + Total(h[156..]))
    else if k == 4 then !(h[99] == 0 == h[345])
    else if k == 5 then h[156] !in {48, 53}
    else if k == 6 then h[156] == 48 && size.None?
    else h[156] == 48 && size.Some? && size.value > 0x7fff_ffff
  }

  /** The end of the archive is exactly a header of zeros; any other is accepted exactly if no check fails, and
      otherwise rejected with the message of the first that does. */
  lemma {:induction false} ParseChecks(h: seq<Byte>)
    requires |h| == HEADER_SIZE
    ensures Parse(h).Eof? <==> forall i :: 0 <= i < |h| ==> h[i] == 0
    ensures Parse(h).Entry? <==> !Parse(h).Eof? && forall k: nat | k < 8 :: !Fails(h, k)
    ensures Parse(h).Error? ==> exists k: nat :: FirstFailure(h, k) && Parse(h).message == MESSAGES[k]
    ensures Parse(h).Entry? ==>
      Parse(h).kind == h[156] && if h[156] == 48 then OctalField(h[124..136]) == Some(Parse(h).size)
        else Parse(h).size == 0
  {
    SumIsTotal(h);
    assert h[263..265] == [h[263], h[264]];
    var k := if Fails(h, 0) then 0 else if Fails(h, 1) then 1 else if Fails(h, 2) then 2 else if Fails(h, 3) then 3
      else if Fails(h, 4) then 4 else if Fails(h, 5) then 5 else if Fails(h, 6) then 6 else if Fails(h, 7) then 7
        else 8;
    assert forall j: nat | j < k :: !Fails(h, j);
    if k < 8 { assert FirstFailure(h, k); }
  }

  ghost predicate FirstFailure(h: seq<Byte>, k: nat)
    requires |h| == HEADER_SIZE
  {
    k < 8 && Fails(h, k) && forall j: nat | j < k :: !Fails(h, j)
  }

  // ----- parsing undoes making

  lemma {:induction false} FieldIn(h: seq<Byte>, fs: seq<Field>, k: nat)
    requires Represents(h, fs) && k < |fs| && fs[k].ofs + |fs[k].bytes| <= HEADER_SIZE && forall j | k < j < |fs| ::
      Apart(fs[j], fs[k])
    ensures h[fs[k].ofs..fs[k].ofs + |fs[k].bytes|] == fs[k].bytes
  {
    forall i | fs[k].ofs <= i < fs[k].ofs + |fs[k].bytes| ensures h[i] == fs[k].bytes[i - fs[k].ofs] {
      FieldKept(fs, k, i);
    }
  }

  /** The fields that parsing looks at, as making left them */
  lemma {:induction false} HeaderFields(h: seq<Byte>, name: seq<Byte>, kind: Byte, size: int)
    requires -0x8000_0000 <= size < 0x8000_0000 && |name| <= 99 && IsHeader(h, name, kind, size)
    ensures h[..|name| + 1] == name + [0]
    ensures h[124..136] == Octal(Unsigned(size), 11)
    ensures h[148..156] == Octal(Sum(h, HEADER_SIZE), 7)
  {
    var fs := Fields(name, kind, size) + [Field(CHKSUM_START, Octal(Sum(h, HEADER_SIZE), 7))];
    FieldIn(h, fs, 0);
    FieldIn(h, fs, 4);
    FieldIn(h, fs, 11);
  }

  lemma {:induction false} HeaderMarks(h: seq<Byte>, name: seq<Byte>, kind: Byte, size: int)
    requires -0x8000_0000 <= size < 0x8000_0000 && |name| <= 99 && IsHeader(h, name, kind, size)
    ensures h[156] == kind && h[257..263] == USTAR + [0] && h[263] == ZERO && h[264] == ZERO
  {
    var fs := Fields(name, kind, size) + [Field(CHKSUM_START, Octal(Sum(h, HEADER_SIZE), 7))];
    FieldIn(h, fs, 6);
    FieldIn(h, fs, 7);
    FieldIn(h, fs, 8);
    assert h[156..157][0] == kind;
    assert h[263..265][0] == ZERO && h[263..265][1] == ZERO;
  }

  lemma {:induction false} HeaderGaps(h: seq<Byte>, name: seq<Byte>, kind: Byte, size: int)
    requires -0x8000_0000 <= size < 0x8000_0000 && |name| <= 99 && IsHeader(h, name, kind, size)
    ensures h[99] == 0 && h[345] == 0
  {
    var fs := Fields(name, kind, size) + [Field(CHKSUM_START, Octal(Sum(h, HEADER_SIZE), 7))];
    NotCovered(fs, 345);
    if |name| < 99 { NotCovered(fs, 99); } else { FieldIn(h, fs, 0); assert h[..100][99] == (name + [0])[99]; }
  }

  /** The header as a reader other than this one finds it: the fields at the places, and with the values, that the
      ustar format has for them. */
  lemma {:induction false} HeaderLayout(h: seq<Byte>, name: seq<Byte>, kind: Byte, size: int)
    requires -0x8000_0000 <= size < 0x8000_0000 && |name| <= 99 && IsHeader(h, name, kind, size)
    ensures OctalField(h[100..108]) == Some(if kind == REGULAR then 420 else 493)
    ensures OctalField(h[108..116]) == Some(0) && OctalField(h[116..124]) == Some(0)
    ensures OctalField(h[136..148]) == Some(1136102400)
    ensures h[265..270] == h[297..302] == [114, 111, 111, 116, 0]
  {
    var fs := Fields(name, kind, size) + [Field(CHKSUM_START, Octal(Sum(h, HEADER_SIZE), 7))];
    HeaderModes(h, name, kind, size);
    HeaderIds(h, name, kind, size);
    FieldIn(h, fs, 9);
    FieldIn(h, fs, 10);
  }

  lemma {:induction false} HeaderModes(h: seq<Byte>, name: seq<Byte>, kind: Byte, size: int)
    requires -0x8000_0000 <= size < 0x8000_0000 && |name| <= 99 && IsHeader(h, name, kind, size)
    ensures OctalField(h[100..108]) == Some(if kind == REGULAR then 420 else 493)
    ensures OctalField(h[136..148]) == Some(1136102400)
  {
    var fs := Fields(name, kind, size) + [Field(CHKSUM_START, Octal(Sum(h, HEADER_SIZE), 7))];
    Powers();
    NumberAt(h, fs, 1, 7, if kind == REGULAR then 420 else 493);
    NumberAt(h, fs, 5, 11, MTIME);
  }

  lemma {:induction false} HeaderIds(h: seq<Byte>, name: seq<Byte>, kind: Byte, size: int)
    requires -0x8000_0000 <= size < 0x8000_0000 && |name| <= 99 && IsHeader(h, name, kind, size)
    ensures OctalField(h[108..116]) == Some(0) && OctalField(h[116..124]) == Some(0)
  {
    var fs := Fields(name, kind, size) + [Field(CHKSUM_START, Octal(Sum(h, HEADER_SIZE), 7))];
    RenderZero(7);
    NumberAt(h, fs, 2, 7, 0);
    NumberAt(h, fs, 3, 7, 0);
  }

  lemma {:induction false} NumberAt(h: seq<Byte>, fs: seq<Field>, k: nat, w: nat, v: nat)
    requires Represents(h, fs) && k < |fs| && fs[k].bytes == Octal(v, w) && fs[k].ofs + w < HEADER_SIZE
    requires w > 0 && v < Pow8(w) && v <= ULONG_MAX && forall j | k < j < |fs| :: Apart(fs[j], fs[k])
    ensures OctalField(h[fs[k].ofs..fs[k].ofs + w + 1]) == Some(v)
  {
    FieldIn(h, fs, k);
    ParseOfRender(v, w);
  }

  /** For every name without null bytes whose stripped form is not too long, and every kind and size, parsing
      the header gives back the stripped name, the kind and the size, which for a directory is 0; a regular
      file of negative size is rejected. */
  lemma {:induction false} ParseUndoesMake(name: seq<Byte>, kind: Byte, size: int, h: seq<Byte>)
    requires NulFree(name) && |Stripped(name)| <= 99 && (kind == REGULAR || kind == DIRECTORY)
    requires -0x8000_0000 <= size < 0x8000_0000 && IsHeader(h, Stripped(name), kind, size)
    ensures Parse(h) ==
      if kind == DIRECTORY then Entry(Stripped(name), DIRECTORY, 0)
      else if size >= 0 then Entry(Stripped(name), REGULAR, size)
      else Error("file too large")
  {
    var n := Stripped(name);
    StrippedIsSafe(name);
    HeaderFields(h, n, kind, size);
    HeaderMarks(h, n, kind, size);
    HeaderGaps(h, n, kind, size);
    Powers();
    ParseOfRender(Sum(h, HEADER_SIZE), 7);
    ParseOfRender(Unsigned(size), 11);
    CStringOf(n, h[|n| + 1..100]);
    assert h[..100] == n + [0] + h[|n| + 1..100];
    assert !AllZeros(h);
  }

  /** Whatever the header, a name that parsing accepts does not start with "/", "./" or "../", is neither empty nor
      "..", and holds no null byte. */
  lemma {:induction false} ParsedNameIsSafe(h: seq<Byte>)
    requires |h| == HEADER_SIZE && Parse(h).Entry?
    ensures var n := Parse(h).name; !Antisocial(n) && n != [] && n != [DOT, DOT] && NulFree(n)
    ensures Parse(h).size <= INT_MAX
  {
    CStringNulFree(h[..100]);
    StrippedIsSafe(CString(h[..100]));
  }

  lemma {:induction false} SumChanges(g: seq<Byte>, h: seq<Byte>, i: nat, n: nat)
    requires |g| == |h| && n <= |h| && i < |h| && g == h[i := g[i]] && !(CHKSUM_START <= i < CHKSUM_END)
    ensures Sum(g, n) + (if i < n then h[i] as int else 0) == Sum(h, n) + (if i < n then g[i] as int else 0)
  {
    if n > 0 { SumChanges(g, h, i, n - 1); }
  }

  /** The checksum does its work: changing one byte outside its field makes a good header bad. */
  lemma {:induction false} DamageIsDetected(g: seq<Byte>, h: seq<Byte>, i: nat)
    requires |g| == |h| == HEADER_SIZE && Parse(h).Entry? && i < HEADER_SIZE && g == h[i := g[i]] && g[i] != h[i]
    requires !(CHKSUM_START <= i < CHKSUM_END)
    ensures Parse(g).Error?
  {
    SumChanges(g, h, i, HEADER_SIZE);
    assert g[148..156] == h[148..156];
    assert h[257..263][0] == 117 && h[257..263][1] == 115;
    assert g[257] != 0 || g[258] != 0;
  }
}
