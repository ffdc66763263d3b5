/** A new process's argument stack (pintos/src/userprog/process.c: push, reverse, init_cmd_line) and the
    tokenizer it uses (pintos/src/lib/string.c: strtok_r). */
module CmdLine {
  import opened CStrings
  import opened Options
  import opened Pages
  import opened Queues
  import opened Words

  const SPACE: Byte := 32

  // ----- what the arguments are

  /** The first index from i on that is not a space, and the first that is; the end of s if there is none */
  function SkipSpaces(s: seq<Byte>, i: nat): (a: nat)
    requires i <= |s|
    ensures i <= a <= |s| && (forall j :: i <= j < a ==> s[j] == SPACE) && (a < |s| ==> s[a] != SPACE)
    decreases |s| - i
  {
    if i < |s| && s[i] == SPACE then SkipSpaces(s, i + 1) else i
  }

  function SkipWord(s: seq<Byte>, i: nat): (b: nat)
    requires i <= |s|
    ensures i <= b <= |s| && (forall j :: i <= j < b ==> s[j] != SPACE) && (b < |s| ==> s[b] == SPACE)
    decreases |s| - i
  {
    if i < |s| && s[i] != SPACE then SkipWord(s, i + 1) else i
  }

  datatype Span = Span(start: nat, end: nat)

  /** Where the words of s are, from index i on */
  function Spans(s: seq<Byte>, i: nat): seq<Span>
    requires i <= |s|
    decreases |s| - i
  {
    var a := SkipSpaces(s, i);
    if a == |s| then []
    else
      var b := SkipWord(s, a);
      [Span(a, b)] + Spans(s, if b < |s| then b + 1 else b)
  }

  /** w is a word of s: not empty, without spaces, and not part of a longer one. */
  ghost predicate IsWord(s: seq<Byte>, w: Span) {
    && w.start < w.end <= |s| && (forall j :: w.start <= j < w.end ==> s[j] != SPACE)
    && (w.start > 0 ==> s[w.start - 1] == SPACE) && (w.end < |s| ==> s[w.end] == SPACE)
  }

  predicate Boundary(s: seq<Byte>, i: nat) {
    i <= |s| && (0 < i < |s| ==> s[i - 1] == SPACE)
  }

  /** The spans are words of s, in order. */
  lemma {:induction false} SpansAreWords(s: seq<Byte>, i: nat)
    requires Boundary(s, i)
    ensures forall k :: 0 <= k < |Spans(s, i)| ==> IsWord(s, Spans(s, i)[k]) && i <= Spans(s, i)[k].start
    ensures forall j, k :: 0 <= j < k < |Spans(s, i)| ==> Spans(s, i)[j].end < Spans(s, i)[k].start
    decreases |s| - i
  {
    var a := SkipSpaces(s, i);
    if a < |s| {
      var b := SkipWord(s, a);
      SpansAreWords(s, if b < |s| then b + 1 else b);
    }
  }

  lemma {:induction false} WordHere(s: seq<Byte>, i: nat, w: Span)
    requires Boundary(s, i) && IsWord(s, w) && i <= w.start
    ensures var a := SkipSpaces(s, i);
      a < |s| && var b := SkipWord(s, a); w == Span(a, b) || b < w.start
  {
    var a := SkipSpaces(s, i);
    assert s[w.start] != SPACE;
    assert a <= w.start;
    var b := SkipWord(s, a);
    if a < w.start {
      assert s[w.start - 1] == SPACE;
      assert b < w.start;
    }
  }

  /** Every word of s is among them. */
  lemma {:induction false} AllWords(s: seq<Byte>, i: nat, w: Span)
    requires Boundary(s, i) && IsWord(s, w) && i <= w.start
    ensures w in Spans(s, i)
    decreases |s| - i
  {
    WordHere(s, i, w);
    var a := SkipSpaces(s, i);
    var b := SkipWord(s, a);
    var next := if b < |s| then b + 1 else b;
    assert Spans(s, i) == [Span(a, b)] + Spans(s, next);
    if w != Span(a, b) {
      AllWords(s, next, w);
    }
  }

  // ----- the tokenizer

  /** From index i on the string cmd is in a at base, null-terminated. */
  ghost predicate StringAt(a: seq<Byte>, base: nat, cmd: seq<Byte>, i: nat) {
    && base + |cmd| < |a| && i <= |cmd| && NulFree(cmd) && a[base + |cmd|] == 0
    && forall j :: i <= j < |cmd| ==> a[base + j] == cmd[j]
  }

  /** The position after the word at p */
  method EndOfWord(a: array<Byte>, t: nat, ghost base: nat, ghost cmd: seq<Byte>, ghost i: nat) returns (p: nat)
    requires t == base + i && StringAt(a[..], base, cmd, i)
    ensures p == base + SkipWord(cmd, i)
  {
    p := t;
    while !(a[p] == SPACE || a[p] == 0)
      invariant t <= p <= base + |cmd| && SkipWord(cmd, p - base) == SkipWord(cmd, i)
      decreases base + |cmd| - p
    {
      p := p + 1;
    }
  }

  /** strtok_r with the delimiter " ", applied at position s to what is left of the string cmd */
  method StrTokR(a: array<Byte>, s: nat, ghost base: nat, ghost cmd: seq<Byte>, ghost i: nat)
    returns (token: Option<nat>, save: nat)
    requires s == base + i && StringAt(a[..], base, cmd, i)
    modifies a
    ensures forall j :: 0 <= j < base ==> a[j] == old(a[j])
    ensures var t := SkipSpaces(cmd, i);
      if t == |cmd| then token == None && save == base + |cmd| && a[..] == old(a[..])
      else
        var u := SkipWord(cmd, t);
        token == Some(base + t) && save == base + (if u < |cmd| then u + 1 else u) && a[..] == old(a[..])[base + u := 0]
  {
    var t := s;
    while a[t] == SPACE || a[t] == 0
      invariant s <= t <= base + |cmd| && a[..] == old(a[..]) && SkipSpaces(cmd, t - base) == SkipSpaces(cmd, i)
      decreases base + |cmd| - t
    {
      if a[t] == 0 { return None, t; }
      t := t + 1;
    }
    var p := EndOfWord(a, t, base, cmd, t - base);
    if a[p] != 0 {
      a[p] := 0;
      save := p + 1;
    } else {
      save := p;
    }
    return Some(t), save;
  }

  // ----- words on the stack

  ghost predicate WordsAt(page: seq<Byte>, ofs: nat, ws: seq<Word>) {
    ofs + 4 * |ws| <= |page| && forall i :: 0 <= i < |ws| ==> WordIs(page, ofs + 4 * i, ws[i])
  }

  lemma {:induction false} WordsKept(p: seq<Byte>, q: seq<Byte>, ofs: nat, ws: seq<Word>)
    requires WordsAt(p, ofs, ws) && |q| == |p| && forall i :: ofs <= i < ofs + 4 * |ws| ==> q[i] == p[i]
    ensures WordsAt(q, ofs, ws)
  {
    forall i | 0 <= i < |ws| ensures WordIs(q, ofs + 4 * i, ws[i]) {
      assert WordIs(p, ofs + 4 * i, ws[i]);
      assert q[ofs + 4 * i..ofs + 4 * i + 4] == p[ofs + 4 * i..ofs + 4 * i + 4];
    }
  }

  function Padded(size: nat): nat { (size + 3) / 4 * 4 }

  /** It is the least number of whole words that hold that many bytes. */
  lemma {:induction false} PaddedIsLeast(size: nat, n: nat)
    ensures Padded(size) % 4 == 0 && (size <= 4 * n <==> Padded(size) <= 4 * n)
  {
  }

  /** push: the bytes end where the stack began, and the stack pointer stays aligned; none if there is no room */
  method Push(a: array<Byte>, ofs: nat, buf: seq<Byte>) returns (r: Option<nat>, ofs': nat)
    requires a.Length == PGSIZE && ofs <= PGSIZE
    modifies a
    ensures r.Some? <==> Padded(|buf|) <= ofs
    ensures r.None? ==> ofs' == ofs && a[..] == old(a[..])
    ensures r.Some? ==>
      ofs' == ofs - Padded(|buf|) && r.value == ofs - |buf| && Written(old(a[..]), a[..], ofs - |buf|, buf)
  {
    var padsize := (|buf| + 3) / 4 * 4;
    if ofs < padsize { return None, ofs; }
    ofs' := ofs - padsize;
    MemCpy(a, ofs' + (padsize - |buf|), buf);
    return Some(ofs' + (padsize - |buf|)), ofs';
  }

  lemma {:induction false} WordPushed(p: seq<Byte>, q: seq<Byte>, ofs: nat, ws: seq<Word>, v: Word)
    requires WordsAt(p, ofs, ws) && 4 <= ofs && Written(p, q, ofs - 4, WordBytes(v))
    ensures WordsAt(q, ofs - 4, [v] + ws)
  {
    WordsKept(p, q, ofs, ws);
    assert q[ofs - 4..ofs] == WordBytes(v);
    forall i | 0 <= i < |ws| + 1 ensures WordIs(q, ofs - 4 + 4 * i, ([v] + ws)[i]) {
      if i > 0 { assert WordIs(q, ofs + 4 * (i - 1), ws[i - 1]); }
    }
  }

  method PushWord(a: array<Byte>, ofs: nat, v: Word, ghost ws: seq<Word>) returns (ok: bool, ofs': nat)
    requires a.Length == PGSIZE && ofs <= PGSIZE && WordsAt(a[..], ofs, ws)
    modifies a
    ensures ok <==> 4 <= ofs
    ensures !ok ==> a[..] == old(a[..]) && ofs' == ofs
    ensures ok ==> ofs' == ofs - 4 && WordsAt(a[..], ofs', [v] + ws) && forall i :: ofs <= i < PGSIZE ==>
      a[i] == old(a[i])
  {
    ghost var p := a[..];
    var r;
    r, ofs' := Push(a, ofs, WordBytes(v));
    ok := r.Some?;
    if ok {
      WordPushed(p, a[..], ofs, ws, v);
      assert forall i :: ofs <= i < PGSIZE ==> a[..][i] == p[i];
    }
  }

  // ----- reverse

  /** Two different words exchanged, byte by byte */
  method SwapWords(a: array<Byte>, ofs: nat, i: nat, j: nat, ghost ws: seq<Word>)
    requires i < j < |ws| && WordsAt(a[..], ofs, ws)
    modifies a
    ensures WordsAt(a[..], ofs, ws[i := ws[j]][j := ws[i]])
    ensures forall k :: 0 <= k < a.Length && !(ofs <= k < ofs + 4 * |ws|) ==> a[k] == old(a[k])
  {
    ghost var p := a[..];
    var x, y := ofs + 4 * i, ofs + 4 * j;
    var tmp, other := a[x..x + 4], a[y..y + 4];
    assert WordIs(p, x, ws[i]) && WordIs(p, y, ws[j]);
    MemCpy(a, x, other);
    ghost var q := a[..];
    MemCpy(a, y, tmp);
    SwappedWords(p, q, a[..], ofs, i, j, ws);
    assert forall k :: 0 <= k < a.Length && !(ofs <= k < ofs + 4 * |ws|) ==> a[..][k] == p[k];
  }

  lemma {:induction false} SwappedWords(p: seq<Byte>, q: seq<Byte>, r: seq<Byte>, ofs: nat, i: nat, j: nat,
        ws: seq<Word>)
    requires i < j < |ws| && WordsAt(p, ofs, ws)
    requires Written(p, q, ofs + 4 * i, WordBytes(ws[j])) && Written(q, r, ofs + 4 * j, WordBytes(ws[i]))
    ensures WordsAt(r, ofs, ws[i := ws[j]][j := ws[i]])
  {
    forall k | 0 <= k < |ws| ensures WordIs(r, ofs + 4 * k, ws[i := ws[j]][j := ws[i]][k]) {
      assert WordIs(p, ofs + 4 * k, ws[k]);
      var o := ofs + 4 * k;
      if k == i {
        assert r[o..o + 4] == WordBytes(ws[j]);
      } else if k == j {
        assert r[o..o + 4] == WordBytes(ws[i]);
      } else {
        assert r[o..o + 4] == p[o..o + 4];
      }
    }
  }

  /** ws with the first i and the last i of its first argc words exchanged */
  ghost function Mirrored(ws: seq<Word>, argc: nat, i: nat): (r: seq<Word>)
    requires 2 * i <= argc + 1 <= |ws| + 1
    ensures |r| == |ws|
  {
    seq(|ws|, k requires 0 <= k < |ws| => if k < argc && (k < i || argc - i <= k) then ws[argc - 1 - k] else ws[k])
  }

  lemma {:induction false} MirrorNext(ws: seq<Word>, argc: nat, i: nat)
    requires 2 * i + 1 < argc <= |ws|
    ensures var m, j := Mirrored(ws, argc, i), argc - 1 - i; Mirrored(ws, argc, i + 1) == m[i := m[j]][j := m[i]]
  {
  }

  lemma {:induction false} MirrorDone(ws: seq<Word>, argc: nat, i: nat)
    requires argc <= 2 * i + 1 && 2 * i <= argc + 1 && argc <= |ws|
    ensures Mirrored(ws, argc, i) == Backwards(ws[..argc]) + ws[argc..]
  {
  }

  method SwapNext(a: array<Byte>, ofs: nat, i: nat, j: nat, ghost argc: nat, ghost ws: seq<Word>)
    requires 2 * i + 1 < argc <= |ws| && j == argc - 1 - i && WordsAt(a[..], ofs, Mirrored(ws, argc, i))
    modifies a
    ensures WordsAt(a[..], ofs, Mirrored(ws, argc, i + 1)) && SameOutside(old(a[..]), a[..], ofs, ofs + 4 * |ws|)
  {
    MirrorNext(ws, argc, i);
    SwapWords(a, ofs, i, j, Mirrored(ws, argc, i));
  }

  method Reverse(a: array<Byte>, ofs: nat, argc: nat, ghost ws: seq<Word>)
    requires argc <= |ws| && WordsAt(a[..], ofs, ws)
    modifies a
    ensures WordsAt(a[..], ofs, Backwards(ws[..argc]) + ws[argc..])
      && SameOutside(old(a[..]), a[..], ofs, ofs + 4 * |ws|)
  {
    var n: int, i := argc, 0;
    assert Mirrored(ws, argc, 0) == ws;
    while n > 1
      invariant n == argc - 2 * i && 0 <= 2 * i <= argc + 1 && WordsAt(a[..], ofs, Mirrored(ws, argc, i))
      invariant SameOutside(old(a[..]), a[..], ofs, ofs + 4 * |ws|)
      decreases n
    {
      SwapNext(a, ofs, i, i + n - 1, argc, ws);
      n, i := n - 2, i + 1;
    }
    MirrorDone(ws, argc, i);
  }

  // ----- init_cmd_line

  /** Word w of the command line is in place, with a null byte after it. */
  ghost predicate TokenAt(page: seq<Byte>, base: nat, cmd: seq<Byte>, w: Span) {
    && w.start <= w.end <= |cmd| && base + |cmd| < |page| && page[base + w.end] == 0
    && forall j :: w.start <= j < w.end ==> page[base + j] == cmd[j]
  }

  /** The first k words are. */
  ghost predicate TokensAt(page: seq<Byte>, base: nat, cmd: seq<Byte>, args: seq<Span>, k: nat) {
    k <= |args| && forall j :: 0 <= j < k ==> TokenAt(page, base, cmd, args[j])
  }

  /** How far tokenizing has come: the first k words have been cut off, and the rest starts at index i. */
  ghost predicate Progress(page: seq<Byte>, base: nat, cmd: seq<Byte>, args: seq<Span>, k: nat, i: nat) {
    && k <= |args| && i <= |cmd| && StringAt(page, base, cmd, i) && Spans(cmd, i) == args[k..]
    && TokensAt(page, base, cmd, args, k) && forall j :: 0 <= j < k ==> args[j].end < i || i == |cmd|
  }

  lemma {:induction false} OneMore(p: seq<Byte>, base: nat, cmd: seq<Byte>, args: seq<Span>, k: nat, i: nat)
    requires Progress(p, base, cmd, args, k, i) && SkipSpaces(cmd, i) < |cmd|
    ensures var t := SkipSpaces(cmd, i); var u := SkipWord(cmd, t);
      && k < |args| && args[k] == Span(t, u)
      && Progress(p[base + u := 0], base, cmd, args, k + 1, if u < |cmd| then u + 1 else u)
  {
    var t := SkipSpaces(cmd, i);
    var u := SkipWord(cmd, t);
    var q, i' := p[base + u := 0], if u < |cmd| then u + 1 else u;
    SpansNext(cmd, args, k, i);
    forall j | 0 <= j < k + 1 ensures TokenAt(q, base, cmd, args[j]) {
      if j < k { assert TokenAt(p, base, cmd, args[j]) && args[j].end < i; }
    }
  }

  lemma {:induction false} NoMore(p: seq<Byte>, base: nat, cmd: seq<Byte>, args: seq<Span>, k: nat, i: nat)
    requires Progress(p, base, cmd, args, k, i) && SkipSpaces(cmd, i) == |cmd|
    ensures k == |args| && Progress(p, base, cmd, args, k, |cmd|)
  {
    assert Spans(cmd, |cmd|) == [];
    assert |args[k..]| == |args| - k;
  }

  lemma {:induction false} SpansNext(cmd: seq<Byte>, args: seq<Span>, k: nat, i: nat)
    requires i <= |cmd| && k <= |args| && Spans(cmd, i) == args[k..] && SkipSpaces(cmd, i) < |cmd|
    ensures var t := SkipSpaces(cmd, i); var u := SkipWord(cmd, t);
      k < |args| && args[k] == Span(t, u) && Spans(cmd, if u < |cmd| then u + 1 else u) == args[k + 1..]
  {
    var t := SkipSpaces(cmd, i);
    var u := SkipWord(cmd, t);
    assert args[k..] == [Span(t, u)] + Spans(cmd, if u < |cmd| then u + 1 else u);
    assert args[k] == args[k..][0];
    assert args[k + 1..] == args[k..][1..];
  }

  /** What NextArg leaves: page q, k' words cut off, and the rest from index i' on */
  method NextArg(a: array<Byte>, s: nat, ghost base: nat, ghost cmd: seq<Byte>, ghost args: seq<Span>, ghost k: nat,
        ghost i: nat)
    returns (karg: Option<nat>, save: nat, ghost q: seq<Byte>, ghost k': nat, ghost i': nat)
    requires s == base + i && Progress(a[..], base, cmd, args, k, i)
    modifies a
    ensures save == base + i' && a[..] == q && forall j :: 0 <= j < base ==> a[j] == old(a[j])
    ensures k' == (if k < |args| then k + 1 else k) && karg == if k < |args| then Some(base + args[k].start) else None
    ensures Progress(q, base, cmd, args, k', i')
  {
    ghost var t := SkipSpaces(cmd, i);
    q := a[..];
    if t < |cmd| {
      OneMore(q, base, cmd, args, k, i);
      ghost var u := SkipWord(cmd, t);
      q, k', i' := q[base + u := 0], k + 1, if u < |cmd| then u + 1 else u;
    } else {
      NoMore(q, base, cmd, args, k, i);
      k', i' := k, |cmd|;
    }
    karg, save := StrTokR(a, s, base, cmd, i);
  }

  lemma {:induction false} ProgressKept(p: seq<Byte>, q: seq<Byte>, base: nat, cmd: seq<Byte>, args: seq<Span>, k: nat,
        i: nat)
    requires Progress(p, base, cmd, args, k, i) && |q| == |p| && forall j :: base <= j < |p| ==> q[j] == p[j]
    ensures Progress(q, base, cmd, args, k, i)
  {
    forall j | 0 <= j < k ensures TokenAt(q, base, cmd, args[j]) { assert TokenAt(p, base, cmd, args[j]); }
  }

  // ----- pointers to the words

  ghost predicate Small(addr: nat, args: seq<Span>) {
    addr + PGSIZE <= 0x1_0000_0000 && forall k :: 0 <= k < |args| ==> args[k].start < PGSIZE
  }

  /** The pointers to the first k words */
  ghost function Pointers(addr: nat, args: seq<Span>, k: nat): (ws: seq<Word>)
    requires Small(addr, args) && k <= |args|
    ensures |ws| == k
  {
    seq(k, j requires 0 <= j < k => addr + args[j].start)
  }

  /** The stack while they are pushed: that to the last word is on top, and a null pointer at the bottom. */
  ghost predicate Pushed(page: seq<Byte>, ofs: nat, addr: nat, args: seq<Span>, k: nat) {
    Small(addr, args) && k <= |args| && WordsAt(page, ofs, Backwards(Pointers(addr, args, k)) + [0])
  }

  lemma {:induction false} PointersNext(addr: nat, args: seq<Span>, k: nat)
    requires Small(addr, args) && k < |args|
    ensures [(addr + args[k].start) as Word] + (Backwards(Pointers(addr, args, k)) + [0]) == Backwards(Pointers(addr,
      args, k + 1)) + [0]
  {
  }

  method PushPointer(a: array<Byte>, ofs: nat, uarg: Word, ghost addr: nat, ghost args: seq<Span>, ghost k: nat)
    returns (ok: bool, ofs': nat)
    requires a.Length == PGSIZE && ofs <= PGSIZE && k < |args| && Small(addr, args) && uarg == addr + args[k].start
    requires Pushed(a[..], ofs, addr, args, k)
    modifies a
    ensures ok <==> 4 <= ofs
    ensures ok ==> ofs' == ofs - 4 && Pushed(a[..], ofs', addr, args, k + 1) && SameOutside(old(a[..]), a[..], 0, ofs)
  {
    PointersNext(addr, args, k);
    ok, ofs' := PushWord(a, ofs, uarg, Backwards(Pointers(addr, args, k)) + [0]);
  }

  method PushArg(a: array<Byte>, ofs: nat, uarg: Word, ghost p: seq<Byte>, ghost addr: nat, ghost base: nat,
        ghost cmd: seq<Byte>, ghost args: seq<Span>, ghost k: nat, ghost k': nat, ghost i: nat)
    returns (ok: bool, ofs': nat, ghost q: seq<Byte>)
    requires a.Length == PGSIZE && ofs + 4 * k + 4 <= base && k < |args| && uarg == addr + args[k].start && k' == k + 1
    requires a[..] == p && Pushed(p, ofs, addr, args, k) && Progress(p, base, cmd, args, k', i)
    modifies a
    ensures ok <==> 4 <= ofs
    ensures a[..] == q
    ensures ok ==> ofs' == ofs - 4 && Pushed(q, ofs', addr, args, k') && Progress(q, base, cmd, args, k', i)
  {
    ok, ofs' := PushPointer(a, ofs, uarg, addr, args, k);
    q := a[..];
    if ok { ProgressKept(p, q, base, cmd, args, k', i); }
  }

  method CutArg(a: array<Byte>, s: nat, ghost p: seq<Byte>, ghost ofs: nat, ghost addr: nat, ghost base: nat,
        ghost cmd: seq<Byte>, ghost args: seq<Span>, ghost k: nat, ghost i: nat)
    returns (karg: Option<nat>, save: nat, ghost q: seq<Byte>, ghost k': nat, ghost i': nat)
    requires s == base + i && ofs + 4 * k + 4 <= base && k <= |args|
    requires a[..] == p && Pushed(p, ofs, addr, args, k) && Progress(p, base, cmd, args, k, i)
    modifies a
    ensures a[..] == q && save == base + i' && Pushed(q, ofs, addr, args, k) && Progress(q, base, cmd, args, k', i')
    ensures k' == (if k < |args| then k + 1 else k) && karg == if k < |args| then Some(base + args[k].start) else None
  {
    karg, save, q, k', i' := NextArg(a, s, base, cmd, args, k, i);
    WordsKept(p, q, ofs, Backwards(Pointers(addr, args, k)) + [0]);
  }

  /** The loop after argc pointers have been pushed: karg is the next word, which has been cut off as the k-th, and
      the rest of the string starts at save. */
  ghost predicate Midway(page: seq<Byte>, ofs: nat, addr: nat, base: nat, cmd: seq<Byte>, args: seq<Span>, argc: nat,
        karg: Option<nat>, save: nat, k: nat, i: nat) {
    && argc <= |args| && save == base + i && k == (if argc < |args| then argc + 1 else argc)
    && karg == (if argc < |args| then Some(base + args[argc].start) else None)
    && Pushed(page, ofs, addr, args, argc) && Progress(page, base, cmd, args, k, i)
  }

  lemma {:induction false} NextPointer(page: seq<Byte>, ofs: nat, addr: nat, base: nat, cmd: seq<Byte>, args: seq<Span>,
        argc: nat, karg: nat, save: nat, k: nat, i: nat)
    requires Midway(page, ofs, addr, base, cmd, args, argc, Some(karg), save, k, i)
    ensures argc < |args| && k == argc + 1 && karg == base + args[argc].start && addr + args[argc].start < 0x1_0000_0000
  {
  }

  /** One round of the loop: push the pointer to the word at karg, and cut off the next word */
  method PushAndCut(a: array<Byte>, ofs: nat, upage: nat, karg: nat, save: nat, ghost p: seq<Byte>, ghost addr: nat,
        ghost base: nat, ghost cmd: seq<Byte>, ghost args: seq<Span>, ghost argc: nat, ghost k: nat, ghost i: nat)
    returns (ok: bool, ofs': nat, karg': Option<nat>, save': nat, ghost q: seq<Byte>, ghost k': nat, ghost i': nat)
    requires a.Length == PGSIZE && ofs + 4 * argc + 4 <= base && addr == upage + base && a[..] == p
    requires Midway(p, ofs, addr, base, cmd, args, argc, Some(karg), save, k, i)
    modifies a
    ensures ok <==> 4 <= ofs
    ensures a[..] == q
    ensures ok ==> ofs' == ofs - 4 && Midway(q, ofs', addr, base, cmd, args, k, karg', save', k', i')
  {
    NextPointer(p, ofs, addr, base, cmd, args, argc, karg, save, k, i);
    karg', save', k', i' := None, 0, 0, 0;
    ok, ofs', q := PushArg(a, ofs, upage + karg, p, addr, base, cmd, args, argc, k, i);
    if ok {
      karg', save', q, k', i' := CutArg(a, save, q, ofs', addr, base, cmd, args, k, i);
    }
  }

  lemma {:induction false} WordsAreSmall(cmd: seq<Byte>, addr: nat)
    requires |cmd| < PGSIZE && addr + PGSIZE <= 0x1_0000_0000
    ensures Small(addr, Spans(cmd, 0))
  {
    SpansAreWords(cmd, 0);
  }

  /** The loop that pushes a pointer to each word; upage is the address the page will have. */
  method PushArgs(a: array<Byte>, ofs0: nat, upage: nat, base: nat, ghost cmd: seq<Byte>, ghost args: seq<Span>)
    returns (ok: bool, ofs: nat, argc: nat)
    requires a.Length == PGSIZE && ofs0 + 4 <= base && ofs0 % 4 == 0 && args == Spans(cmd, 0)
      && Small(upage + base, args)
    requires StringAt(a[..], base, cmd, 0) && WordsAt(a[..], ofs0, [0])
    modifies a
    ensures ok <==> 4 * |args| <= ofs0
    ensures ok ==> argc == |args| && ofs == ofs0 - 4 * argc
    ensures ok ==> Pushed(a[..], ofs, upage + base, args, argc) && TokensAt(a[..], base, cmd, args, argc)
  {
    ofs, argc := ofs0, 0;
    ghost var k, i := 0, 0;
    assert Backwards(Pointers(upage + base, args, 0)) + [0] == [0];
    var karg, save;
    ghost var p, addr := a[..], upage + base;
    karg, save, p, k, i := CutArg(a, base, p, ofs0, addr, base, cmd, args, 0, 0);
    while karg.Some?
      invariant argc <= |args| && ofs == ofs0 - 4 * argc && a[..] == p
      invariant Midway(p, ofs, addr, base, cmd, args, argc, karg, save, k, i)
      decreases |args| - argc
    {
      var pushed;
      pushed, ofs, karg, save, p, k,
        i := PushAndCut(a, ofs, upage, karg.value, save, p, addr, base, cmd, args, argc, k, i);
      if !pushed { return false, ofs, argc; }
      argc := argc + 1;
    }
    return true, ofs, argc;
  }

  lemma {:induction false} TokensKept(p: seq<Byte>, q: seq<Byte>, base: nat, cmd: seq<Byte>, args: seq<Span>, k: nat)
    requires TokensAt(p, base, cmd, args, k) && |q| == |p| && forall j :: base <= j < |p| ==> q[j] == p[j]
    ensures TokensAt(q, base, cmd, args, k)
  {
    forall j | 0 <= j < k ensures TokenAt(q, base, cmd, args[j]) { assert TokenAt(p, base, cmd, args[j]); }
  }

  lemma {:induction false} BackwardsTwice(ws: seq<Word>)
    ensures Backwards(Backwards(ws)) == ws && (Backwards(ws) + [0])[..|ws|] == Backwards(ws)
      && (Backwards(ws) + [0])[|ws|..] == [0]
  {
  }

  /** The null pointer and the pointers to the words, in the order of the words */
  method PushPointers(a: array<Byte>, ofs0: nat, upage: nat, base: nat, ghost cmd: seq<Byte>, ghost args: seq<Span>)
    returns (ok: bool, ofs: nat, argc: nat)
    requires a.Length == PGSIZE && ofs0 <= base && ofs0 % 4 == 0 && args == Spans(cmd, 0) && Small(upage + base, args)
    requires StringAt(a[..], base, cmd, 0)
    modifies a
    ensures ok <==> 4 * |args| + 4 <= ofs0
    ensures ok ==> argc == |args| && ofs == ofs0 - 4 * argc - 4
    ensures ok ==>
      WordsAt(a[..], ofs, Pointers(upage + base, args, argc) + [0]) && TokensAt(a[..], base, cmd, args, argc)
  {
    argc := 0;
    ghost var p := a[..];
    assert WordsAt(a[..], ofs0, []);
    ok, ofs := PushWord(a, ofs0, 0, []);
    if !ok { return; }
    assert StringAt(a[..], base, cmd, 0) by { assert forall j :: base <= j < PGSIZE ==> a[..][j] == p[j]; }
    assert [0 as Word] + [] == [0];
    ok, ofs, argc := PushArgs(a, ofs, upage, base, cmd, args);
    if !ok { return; }
    p := a[..];
    ghost var ws := Pointers(upage + base, args, argc);
    BackwardsTwice(ws);
    Reverse(a, ofs, argc, Backwards(ws) + [0]);
    TokensKept(p, a[..], base, cmd, args, argc);
  }

  /** The stack a process starts with: a return address, argc, argv, the pointers, and a null pointer */
  ghost function Frame(upage: nat, ofs: nat, base: nat, args: seq<Span>): seq<Word>
    requires Small(upage + base, args) && upage + ofs + 12 < 0x1_0000_0000 && |args| < 0x1_0000_0000
  {
    [0, |args| as Word, (upage + ofs + 12) as Word] + (Pointers(upage + base, args, |args|) + [0])
  }

  /** How many bytes of the page are needed */
  function Needed(cmd: seq<Byte>): nat { Padded(|cmd| + 1) + 4 * |Spans(cmd, 0)| + 16 }

  /** The stack at offset ofs of the page, and the words of cmd at base */
  ghost predicate StackAt(page: seq<Byte>, upage: nat, ofs: nat, base: nat, cmd: seq<Byte>, args: seq<Span>) {
    && |page| == PGSIZE && upage + 2 * PGSIZE <= 0x1_0000_0000 && ofs < PGSIZE && |args| < PGSIZE
      && base + |cmd| + 1 == PGSIZE
    && Small(upage + base, args) && WordsAt(page, ofs, Frame(upage, ofs, base, args))
      && TokensAt(page, base, cmd, args, |args|)
  }

  ghost predicate StackOk(page: seq<Byte>, upage: nat, esp: nat, cmd: seq<Byte>) {
    && Needed(cmd) <= PGSIZE && |cmd| < PGSIZE && esp == upage + (PGSIZE - Needed(cmd))
    && StackAt(page, upage, PGSIZE - Needed(cmd), PGSIZE - |cmd| - 1, cmd, Spans(cmd, 0))
  }

  method PushFrame(a: array<Byte>, ofs0: nat, upage: nat, argc: nat, ghost ws: seq<Word>) returns (ok: bool, ofs: nat)
    requires a.Length == PGSIZE && ofs0 <= PGSIZE && upage + 2 * PGSIZE <= 0x1_0000_0000 && argc < PGSIZE
      && WordsAt(a[..], ofs0, ws)
    modifies a
    ensures ok <==> 12 <= ofs0
    ensures ok ==> ofs == ofs0 - 12 && WordsAt(a[..], ofs, [0, argc as Word, (upage + ofs0) as Word] + ws)
    ensures ok ==> forall i :: ofs0 <= i < PGSIZE ==> a[i] == old(a[i])
  {
    ok, ofs := PushWord(a, ofs0, upage + ofs0, ws);
    if !ok { return; }
    ghost var ws1 := [(upage + ofs0) as Word] + ws;
    ok, ofs := PushWord(a, ofs, argc, ws1);
    if !ok { return; }
    ghost var ws2 := [argc as Word] + ws1;
    ok, ofs := PushWord(a, ofs, 0, ws2);
    assert [0 as Word] + ws2 == [0, argc as Word, (upage + ofs0) as Word] + ws;
  }

  method CopyCmdLine(a: array<Byte>, cmd: seq<Byte>) returns (copy: Option<nat>, ofs: nat)
    requires a.Length == PGSIZE && NulFree(cmd)
    modifies a
    ensures copy.Some? <==> Padded(|cmd| + 1) <= PGSIZE
    ensures copy.Some? ==>
      copy.value + |cmd| + 1 == PGSIZE && ofs == PGSIZE - Padded(|cmd| + 1) && StringAt(a[..], copy.value, cmd, 0)
  {
    copy, ofs := Push(a, PGSIZE, cmd + [0]);
    if copy.Some? {
      assert forall j :: 0 <= j < |cmd| + 1 ==> a[..][copy.value + j] == (cmd + [0])[j];
    }
  }

  method FinishStack(a: array<Byte>, ofs0: nat, upage: nat, argc: nat, ghost base: nat, ghost cmd: seq<Byte>,
        ghost args: seq<Span>)
    returns (ok: bool, ofs: nat)
    requires a.Length == PGSIZE && ofs0 <= base && upage + 2 * PGSIZE <= 0x1_0000_0000 && argc == |args| < PGSIZE
      && base + |cmd| + 1 == PGSIZE
    requires Small(upage + base, args) && WordsAt(a[..], ofs0, Pointers(upage + base, args, argc) + [0])
      && TokensAt(a[..], base, cmd, args, argc)
    modifies a
    ensures ok <==> 12 <= ofs0
    ensures ok ==> ofs == ofs0 - 12 && StackAt(a[..], upage, ofs, base, cmd, args)
  {
    ghost var p := a[..];
    ok, ofs := PushFrame(a, ofs0, upage, argc, Pointers(upage + base, args, argc) + [0]);
    if ok { TokensKept(p, a[..], base, cmd, args, argc); }
  }

  /** init_cmd_line succeeds exactly if there is room for everything. */
  method InitCmdLine(a: array<Byte>, upage: nat, cmd: seq<Byte>) returns (ok: bool, esp: nat)
    requires a.Length == PGSIZE && NulFree(cmd) && upage + 2 * PGSIZE <= 0x1_0000_0000
    modifies a
    ensures ok <==> Needed(cmd) <= PGSIZE
    ensures ok ==> StackOk(a[..], upage, esp, cmd)
  {
    esp := 0;
    var ofs, copy, argc;
    copy, ofs := CopyCmdLine(a, cmd);
    if copy.None? { return false, 0; }
    WordsAreSmall(cmd, upage + copy.value);
    ok, ofs, argc := PushPointers(a, ofs, upage, copy.value, cmd, Spans(cmd, 0));
    if !ok { return; }
    ok, ofs := FinishStack(a, ofs, upage, argc, copy.value, cmd, Spans(cmd, 0));
    esp := upage + ofs;
  }

  // ----- what a process finds on its stack

  lemma {:induction false} FrameWord(page: seq<Byte>, ofs: nat, ws: seq<Word>, k: nat)
    requires WordsAt(page, ofs, ws) && k < |ws|
    ensures ofs + 4 * k + 4 <= |page| && WordAt(page, ofs + 4 * k) == ws[k]
  {
    assert WordIs(page, ofs + 4 * k, ws[k]);
    ReadWord(page, ofs + 4 * k, ws[k]);
  }

  /** argv[i] is an address in the page, where there is a null-terminated copy of word i. */
  lemma {:induction false} ArgumentsAreWords(page: seq<Byte>, upage: nat, ofs: nat, base: nat, cmd: seq<Byte>,
        args: seq<Span>, i: nat)
    requires StackAt(page, upage, ofs, base, cmd, args) && NulFree(cmd) && i < |args| && IsWord(cmd, args[i])
    ensures ofs + 16 + 4 * i <= PGSIZE && base + args[i].start < PGSIZE
    ensures WordAt(page, ofs + 12 + 4 * i) == upage + (base + args[i].start)
    ensures CString(page[base + args[i].start..]) == cmd[args[i].start..args[i].end]
  {
    FrameWord(page, ofs, Frame(upage, ofs, base, args), 3 + i);
    assert TokenAt(page, base, cmd, args[i]);
    WordIsCopied(page, base, cmd, args[i]);
  }

  /** Above a null return address argc is the number of words, argv points right behind, and there is a null pointer
      after the last argument. */
  lemma {:induction false} CountsAndEnds(page: seq<Byte>, upage: nat, ofs: nat, base: nat, cmd: seq<Byte>,
        args: seq<Span>)
    requires StackAt(page, upage, ofs, base, cmd, args)
    ensures ofs + 16 + 4 * |args| <= PGSIZE
    ensures WordAt(page, ofs) == 0 && WordAt(page, ofs + 4) == |args| && WordAt(page, ofs + 8) == upage + ofs + 12
      && WordAt(page, ofs + 12 + 4 * |args|) == 0
  {
    var ws := Frame(upage, ofs, base, args);
    FrameWord(page, ofs, ws, 0);
    FrameWord(page, ofs, ws, 1);
    FrameWord(page, ofs, ws, 2);
    FrameWord(page, ofs, ws, 3 + |args|);
  }

  lemma {:induction false} StackIsAligned(page: seq<Byte>, upage: nat, esp: nat, cmd: seq<Byte>)
    requires StackOk(page, upage, esp, cmd) && upage % 4 == 0
    ensures esp % 4 == 0 && upage <= esp < upage + PGSIZE
  {
    NeededIsAligned(cmd);
    AlignedBelow(upage, Needed(cmd));
  }

  lemma {:induction false} AlignedBelow(upage: nat, n: nat)
    requires upage % 4 == 0 && n % 4 == 0 && n <= PGSIZE
    ensures (upage + (PGSIZE - n)) % 4 == 0
  {
  }

  lemma {:induction false} NeededIsAligned(cmd: seq<Byte>)
    ensures Needed(cmd) % 4 == 0
  {
  }

  lemma {:induction false} WordIsCopied(page: seq<Byte>, base: nat, cmd: seq<Byte>, w: Span)
    requires TokenAt(page, base, cmd, w) && NulFree(cmd) && |page| == PGSIZE
    ensures CString(page[base + w.start..]) == cmd[w.start..w.end]
  {
    var t := cmd[w.start..w.end];
    var rest := page[base + w.end + 1..];
    assert page[base + w.start..] == t + [0] + rest;
    CStringOf(t, rest);
  }
}
