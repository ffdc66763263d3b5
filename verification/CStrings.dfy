/** Byte buffers and null-terminated strings (pintos/src/lib/string.c). A string is the sequence of its
    bytes before the null byte. */
module CStrings {

  type Byte = x: int | 0 <= x < 256

  ghost predicate NulFree(s: seq<Byte>) {
    forall i :: 0 <= i < |s| ==> s[i] != 0
  }

  /** t is s with b written at ofs, and otherwise unchanged. */
  ghost predicate Written(s: seq<Byte>, t: seq<Byte>, ofs: nat, b: seq<Byte>) {
    && |t| == |s| && ofs + |b| <= |s|
    && forall i :: 0 <= i < |s| ==> t[i] == if ofs <= i < ofs + |b| then b[i - ofs] else s[i]
  }

  /** s and t agree but for the bytes from lo up to hi. */
  ghost predicate SameOutside(s: seq<Byte>, t: seq<Byte>, lo: nat, hi: nat) {
    |t| == |s| && forall i :: 0 <= i < |s| && !(lo <= i < hi) ==> t[i] == s[i]
  }

  method MemCpy(a: array<Byte>, ofs: nat, src: seq<Byte>)
    requires ofs + |src| <= a.Length
    modifies a
    ensures Written(old(a[..]), a[..], ofs, src)
  {
    var i := 0;
    while i < |src|
      invariant i <= |src|
      invariant forall k :: 0 <= k < a.Length ==> a[k] == if ofs <= k < ofs + i then src[k - ofs] else old(a[k])
    {
      a[ofs + i] := src[i];
      i := i + 1;
    }
  }

  method MemSet(a: array<Byte>, value: Byte)
    modifies a
    ensures forall k :: 0 <= k < a.Length ==> a[k] == value
  {
    var i := 0;
    while i < a.Length
      invariant i <= a.Length && forall k :: 0 <= k < i ==> a[k] == value
    {
      a[i] := value;
      i := i + 1;
    }
  }

  /** What strlcpy and snprintf leave in a buffer of size bytes: as much of s as fits, and a null byte. */
  function Clipped(s: seq<Byte>, size: nat): (t: seq<Byte>)
    requires size > 0
    ensures |t| <= size
  {
    (if |s| < size then s else s[..size - 1]) + [0]
  }

  lemma {:induction false} ClippedIs(s: seq<Byte>, size: nat, n: nat)
    requires size > 0 && n <= |s|
    ensures Clipped(s, size) == s[..n] + [0] <==> n == |s| < size || n == size - 1 < |s|
  {
    if Clipped(s, size) == s[..n] + [0] { assert |Clipped(s, size)| == n + 1; } else { assert s[..|s|] == s; }
  }

  /** strlcpy into the size bytes at ofs: n is the length of src, which has not been copied as a whole if it is size
      or more. */
  method StrLCpy(a: array<Byte>, ofs: nat, src: seq<Byte>, size: nat) returns (n: nat)
    requires ofs + size <= a.Length
    modifies a
    ensures n == |src|
    ensures if size == 0 then a[..] == old(a[..]) else Written(old(a[..]), a[..], ofs, Clipped(src, size))
  {
    n := |src|;
    if size > 0 {
      var dstLen := if n < size - 1 then n else size - 1;
      MemCpy(a, ofs, src[..dstLen]);
      a[ofs + dstLen] := 0;
    }
  }

  /** The string that starts at the beginning of s, if there is a null byte in it */
  function CString(s: seq<Byte>): seq<Byte> {
    if s == [] || s[0] == 0 then [] else [s[0]] + CString(s[1..])
  }

  lemma {:induction false} CStringOf(s: seq<Byte>, rest: seq<Byte>)
    requires NulFree(s)
    ensures CString(s + [0] + rest) == s
  {
    if s != [] {
      CStringOf(s[1..], rest);
      assert (s + [0] + rest)[1..] == s[1..] + [0] + rest;
    }
  }

  lemma {:induction false} CStringNulFree(s: seq<Byte>)
    ensures NulFree(CString(s))
  {
    if s != [] && s[0] != 0 { CStringNulFree(s[1..]); }
  }
}
