/** Longest common substrings (project4/longest_common_substring.c, project4/3way-openmp/p4_omp.c): the
    dynamic programme, and the way threads share out the pairs of adjacent lines. */
module Lcs {
  import opened CStrings

  // ----- common substrings

  /** The n characters of a from p on are those of b from q on. */
  ghost predicate CommonAt(a: seq<Byte>, b: seq<Byte>, p: nat, q: nat, n: nat) {
    p + n <= |a| && q + n <= |b| && forall i :: p <= i < p + n ==> a[i] == b[i - p + q]
  }

  /** The table's entry for (i, j): how many characters that end there, at i in a and at j in b, agree */
  function Agree(a: seq<Byte>, b: seq<Byte>, i: nat, j: nat): (n: nat)
    requires i < |a| && j < |b|
    ensures n <= i + 1 && n <= j + 1
  {
    if a[i] != b[j] then 0 else if i == 0 || j == 0 then 1 else Agree(a, b, i - 1, j - 1) + 1
  }

  lemma {:induction false} AgreeIsCommon(a: seq<Byte>, b: seq<Byte>, i: nat, j: nat)
    requires i < |a| && j < |b|
    ensures CommonAt(a, b, i + 1 - Agree(a, b, i, j), j + 1 - Agree(a, b, i, j), Agree(a, b, i, j))
  {
    if a[i] == b[j] && i > 0 && j > 0 {
      AgreeIsCommon(a, b, i - 1, j - 1);
    }
  }

  /** No longer substrings that end there agree. */
  lemma {:induction false} AgreeIsLongest(a: seq<Byte>, b: seq<Byte>, p: nat, q: nat, n: nat)
    requires n > 0 && CommonAt(a, b, p, q, n)
    ensures n <= Agree(a, b, p + n - 1, q + n - 1)
  {
    assert a[p + n - 1] == b[q + n - 1];
    if n > 1 {
      AgreeIsLongest(a, b, p, q, n - 1);
    }
  }

  /** p and n are where in a, and how long, the answer is: a longest common substring, the first in a. */
  ghost predicate IsLongest(a: seq<Byte>, b: seq<Byte>, p: nat, n: nat) {
    && (exists q: nat :: CommonAt(a, b, p, q, n))
    && (forall p': nat, q': nat, m: nat | CommonAt(a, b, p', q', m) :: m <= n)
    && (n > 0 ==> forall p': nat, q': nat | CommonAt(a, b, p', q', n) :: p <= p')
  }

  /** There is one answer only. */
  lemma {:induction false} LongestIsUnique(a: seq<Byte>, b: seq<Byte>, p: nat, n: nat, p': nat, n': nat)
    requires IsLongest(a, b, p, n) && IsLongest(a, b, p', n')
    ensures n == n' && (n > 0 ==> p == p') && p + n <= |a| && p' + n' <= |a| && a[p..p + n] == a[p'..p' + n']
  {
    var q: nat :| CommonAt(a, b, p, q, n);
    var q': nat :| CommonAt(a, b, p', q', n');
  }

  // ----- the dynamic programme

  /** (i, j) comes before (k, l) in the order in which the table is filled. */
  predicate Before(i: nat, j: nat, k: nat, l: nat) {
    i < k || (i == k && j < l)
  }

  /** The running maximum after all entries before (k, l) have been filled in */
  ghost predicate MaxSoFar(a: seq<Byte>, b: seq<Byte>, k: nat, l: nat, n: nat, iMax: nat, jMax: nat) {
    && (forall i: nat, j: nat | i < |a| && j < |b| && Before(i, j, k, l) :: Agree(a, b, i, j) <= n)
    && (n > 0 ==> iMax < |a| && jMax < |b| && Before(iMax, jMax, k, l) && Agree(a, b, iMax, jMax) == n)
    && (n > 0 ==> forall i: nat, j: nat | i < iMax && j < |b| :: Agree(a, b, i, j) < n)
  }

  lemma {:induction false} NextEntry(a: seq<Byte>, b: seq<Byte>, k: nat, l: nat, n: nat, iMax: nat, jMax: nat)
    requires k < |a| && l < |b| && MaxSoFar(a, b, k, l, n, iMax, jMax)
    ensures if Agree(a, b, k, l) > n then MaxSoFar(a, b, k, l + 1, Agree(a, b, k, l), k, l)
      else MaxSoFar(a, b, k, l + 1, n, iMax, jMax)
  {
  }

  lemma {:induction false} NextRow(a: seq<Byte>, b: seq<Byte>, k: nat, n: nat, iMax: nat, jMax: nat)
    requires MaxSoFar(a, b, k, |b|, n, iMax, jMax)
    ensures MaxSoFar(a, b, k + 1, 0, n, iMax, jMax)
  {
  }

  ghost predicate Filled(a: seq<Byte>, b: seq<Byte>, t: array2<nat>, k: nat, l: nat)
    reads t
    requires t.Length0 == |a| && t.Length1 == |b|
  {
    forall i: nat, j: nat | i < |a| && j < |b| && Before(i, j, k, l) :: t[i, j] == Agree(a, b, i, j)
  }

  method FillRow(a: seq<Byte>, b: seq<Byte>, t: array2<nat>, k: nat, n0: nat, i0: nat, j0: nat)
    returns (n: nat, iMax: nat, jMax: nat)
    requires t.Length0 == |a| && t.Length1 == |b| && k < |a| && Filled(a, b, t, k, 0)
      && MaxSoFar(a, b, k, 0, n0, i0, j0)
    modifies t
    ensures Filled(a, b, t, k + 1, 0) && MaxSoFar(a, b, k + 1, 0, n, iMax, jMax)
  {
    n, iMax, jMax := n0, i0, j0;
    var l := 0;
    while l < |b|
      invariant l <= |b| && Filled(a, b, t, k, l) && MaxSoFar(a, b, k, l, n, iMax, jMax)
    {
      NextEntry(a, b, k, l, n, iMax, jMax);
      if a[k] == b[l] {
        if k == 0 || l == 0 {
          t[k, l] := 1;
        } else {
          t[k, l] := t[k - 1, l - 1] + 1;
        }
        if t[k, l] > n {
          n, iMax, jMax := t[k, l], k, l;
        }
      } else {
        t[k, l] := 0;
      }
      l := l + 1;
    }
    NextRow(a, b, k, n, iMax, jMax);
  }

  lemma {:induction false} MaxIsLongest(a: seq<Byte>, b: seq<Byte>, n: nat, iMax: nat, jMax: nat)
    requires MaxSoFar(a, b, |a|, 0, n, iMax, jMax)
    ensures n <= iMax + 1 || n == 0
    ensures IsLongest(a, b, if n == 0 then 0 else iMax + 1 - n, n)
  {
    if n == 0 {
      assert CommonAt(a, b, 0, 0, 0);
    } else {
      AgreeIsCommon(a, b, iMax, jMax);
    }
    forall p: nat, q: nat, m: nat | CommonAt(a, b, p, q, m) ensures m <= n && (m == n > 0 ==> iMax + 1 - n <= p) {
      if m > 0 {
        AgreeIsLongest(a, b, p, q, m);
      }
    }
  }

  /** lcs_dynamic: the length is returned, and the substring written to ret with a null byte. */
  method LcsDynamic(ret: array<Byte>, a: seq<Byte>, b: seq<Byte>) returns (n: nat, ghost p: nat)
    requires |a| < ret.Length || |b| < ret.Length
    modifies ret
    ensures IsLongest(a, b, p, n) && p + n <= |a| && n < ret.Length
    ensures ret[..n] == a[p..p + n] && ret[n] == 0
    ensures forall i :: n < i < ret.Length ==> ret[i] == old(ret[i])
  {
    var t := new nat[|a|, |b|];
    n := 0;
    var iMax: nat, jMax: nat, k: nat := 0, 0, 0;
    while k < |a|
      invariant k <= |a| && Filled(a, b, t, k, 0) && MaxSoFar(a, b, k, 0, n, iMax, jMax)
      modifies t
    {
      n, iMax, jMax := FillRow(a, b, t, k, n, iMax, jMax);
      k := k + 1;
    }
    MaxIsLongest(a, b, n, iMax, jMax);
    p := if n == 0 then 0 else iMax + 1 - n;
    ghost var q: nat :| CommonAt(a, b, p, q, n);
    CopyOut(ret, a, iMax, n);
  }

  method CopyOut(ret: array<Byte>, a: seq<Byte>, iMax: nat, n: nat)
    requires n < ret.Length && (n > 0 ==> n <= iMax + 1 <= |a|)
    modifies ret
    ensures n > 0 ==> ret[..n] == a[iMax + 1 - n..iMax + 1]
    ensures ret[n] == 0 && forall i :: n < i < ret.Length ==> ret[i] == old(ret[i])
  {
    var i := 0;
    while i < n
      invariant i <= n && (forall j :: 0 <= j < i ==> ret[j] == a[iMax - n + 1 + j]) && forall j ::
        i <= j < ret.Length ==> ret[j] == old(ret[j])
    {
      ret[i] := a[iMax - n + i + 1];
      i := i + 1;
    }
    ret[n] := 0;
  }

  // ----- sharing out the lines

  /** What thandle writes for a pair of lines */
  const NONE: seq<Byte> := [78, 111, 32, 99, 111, 109, 109, 111, 110, 32, 115, 117, 98, 115, 116, 114, 105, 110, 103,
    46]

  ghost predicate IsAnswer(a: seq<Byte>, b: seq<Byte>, r: seq<Byte>) {
    exists p: nat, n: nat :: IsLongest(a, b, p, n) && p + n <= |a| && r == if n > 0 then a[p..p + n] else NONE
  }

  lemma {:induction false} AnswerIsUnique(a: seq<Byte>, b: seq<Byte>, r: seq<Byte>, r': seq<Byte>)
    requires IsAnswer(a, b, r) && IsAnswer(a, b, r')
    ensures r == r'
  {
    var p: nat, n: nat :| IsLongest(a, b, p, n) && p + n <= |a| && r == if n > 0 then a[p..p + n] else NONE;
    var p': nat, n': nat :| IsLongest(a, b, p', n') && p' + n' <= |a| && r' == if n' > 0 then a[p'..p' + n'] else NONE;
    LongestIsUnique(a, b, p, n, p', n');
  }

  /** The numbers of threads and lines; each thread gets per lines. */
  datatype Config = Config(threads: nat, per: nat, maxLines: nat)

  ghost predicate ConfigOk(c: Config) { c.maxLines == c.threads * c.per && c.maxLines < 0x1_0000_0000 }

  const WORD: nat := 0x1_0000_0000_0000_0000

  function Start(c: Config, t: nat): nat { t * c.per }

  /** The end of the range, computed with unsigned arithmetic: lines - 1 wraps around if there are none. */
  function End(c: Config, lines: nat, t: nat): nat {
    var last := if lines == 0 then WORD - 1 else lines - 1;
    if Start(c, t) + c.per > last then last else Start(c, t) + c.per
  }

  predicate InRange(c: Config, lines: nat, t: nat, k: nat) { Start(c, t) <= k < End(c, lines, t) }

  lemma {:induction false} NextStart(c: Config, t: nat)
    ensures Start(c, t + 1) == Start(c, t) + c.per
  {
    assert (t + 1) * c.per == t * c.per + c.per;
  }

  lemma {:induction false} Ordered(c: Config, t: nat, u: nat)
    requires t < u
    ensures Start(c, t) + c.per <= Start(c, u)
    decreases u - t
  {
    NextStart(c, t);
    if t + 1 < u { Ordered(c, t + 1, u); }
  }

  /** No line belongs to two threads. */
  lemma {:induction false} RangesDisjoint(c: Config, lines: nat, t: nat, u: nat, k: nat)
    requires InRange(c, lines, t, k) && InRange(c, lines, u, k)
    ensures t == u
  {
    if t < u { Ordered(c, t, u); } else if u < t { Ordered(c, u, t); }
  }

  lemma {:induction false} OwnerOf(c: Config, k: nat) returns (t: nat)
    requires ConfigOk(c) && k < c.maxLines
    ensures t < c.threads && Start(c, t) <= k < Start(c, t) + c.per
  {
    t := 0;
    assert Start(c, 0) == 0;
    while k >= Start(c, t) + c.per
      invariant t < c.threads && Start(c, t) <= k
      decreases c.threads - t
    {
      NextStart(c, t);
      assert t + 1 == c.threads ==> Start(c, c.threads) == c.maxLines;
      t := t + 1;
    }
  }

  /** Every line but the last belongs to a thread. */
  lemma {:induction false} RangesCover(c: Config, lines: nat, k: nat) returns (t: nat)
    requires ConfigOk(c) && 1 <= lines <= c.maxLines && k < lines - 1
    ensures t < c.threads && InRange(c, lines, t, k)
  {
    t := OwnerOf(c, k);
  }

  ghost predicate Covered(c: Config, lines: nat, k: nat) {
    exists t: nat :: t < c.threads && InRange(c, lines, t, k)
  }

  ghost predicate Partition(c: Config, lines: nat) {
    forall k: nat :: Covered(c, lines, k) <==> k + 1 < lines
  }

  /** The threads' ranges make up exactly the pairs of adjacent lines if, and only if, there is a line. */
  lemma {:induction false} PartitionIff(c: Config, lines: nat)
    requires ConfigOk(c) && lines <= c.maxLines && c.maxLines > 0
    ensures Partition(c, lines) <==> lines >= 1
  {
    if lines >= 1 {
      forall k: nat ensures Covered(c, lines, k) <==> k + 1 < lines {
        if k + 1 < lines { var t := RangesCover(c, lines, k); }
      }
    } else {
      var t := OwnerOf(c, 0);
      assert InRange(c, 0, t, 0);
      assert Covered(c, 0, 0);
    }
  }

  /** The program's own numbers */
  const PROGRAM: Config := Config(16, 1000000 / 16, 1000000)

  lemma {:induction false} ProgramConfig()
    ensures ConfigOk(PROGRAM)
  {
  }

  // ----- any interleaving of the threads

  /** next is the line each thread is at; out is lcs_data as far as it has been written. */
  datatype State = State(next: seq<nat>, out: map<nat, seq<Byte>>)

  /** Thread t does its next line, for which lcs_dynamic gives r. */
  datatype Action = Work(t: nat, r: seq<Byte>)

  ghost predicate Enabled(c: Config, data: seq<seq<Byte>>, s: State, a: Action) {
    && a.t < |s.next| && s.next[a.t] < End(c, |data|, a.t) && s.next[a.t] + 1 < |data|
    && IsAnswer(data[s.next[a.t]], data[s.next[a.t] + 1], a.r)
  }

  function Step(s: State, a: Action): State
    requires a.t < |s.next|
  {
    State(s.next[a.t := s.next[a.t] + 1], s.out[s.next[a.t] := a.r])
  }

  function Initial(c: Config): State { State(seq(c.threads, t requires 0 <= t => Start(c, t)), map[]) }

  ghost predicate IsRun(c: Config, data: seq<seq<Byte>>, ss: seq<State>, acts: seq<Action>) {
    && |ss| == |acts| + 1 && ss[0] == Initial(c)
    && forall i :: 0 <= i < |acts| ==> Enabled(c, data, ss[i], acts[i]) && Step(ss[i], acts[i]) == ss[i + 1]
  }

  /** Line k has been done by its thread. */
  ghost predicate Done(c: Config, lines: nat, s: State, k: nat) {
    exists t: nat :: t < |s.next| && InRange(c, lines, t, k) && k < s.next[t]
  }

  /** What has been written is right, and it is what the threads have got past. */
  ghost predicate Inv(c: Config, data: seq<seq<Byte>>, s: State) {
    && |s.next| == c.threads
    && (forall t: nat :: t < c.threads ==>
      Start(c, t) <= s.next[t] && (s.next[t] == Start(c, t) || s.next[t] <= End(c, |data|, t)))
    && (forall k: nat :: k in s.out <==> Done(c, |data|, s, k))
    && (forall k | k in s.out :: k + 1 < |data| && IsAnswer(data[k], data[k + 1], s.out[k]))
  }

  lemma {:induction false} StepKeepsInv(c: Config, data: seq<seq<Byte>>, s: State, a: Action)
    requires Inv(c, data, s) && Enabled(c, data, s, a)
    ensures Inv(c, data, Step(s, a))
  {
    var s', lines, j := Step(s, a), |data|, s.next[a.t];
    forall k: nat ensures k in s'.out <==> Done(c, lines, s', k) { StepDoes(c, lines, s, a, k); }
  }

  /** Thread t's step does the line it is at, and no other. */
  lemma {:induction false} StepDoes(c: Config, lines: nat, s: State, a: Action, k: nat)
    requires a.t < |s.next| && InRange(c, lines, a.t, s.next[a.t])
    ensures Done(c, lines, Step(s, a), k) <==> Done(c, lines, s, k) || k == s.next[a.t]
  {
    var s' := Step(s, a);
    if k == s.next[a.t] {
      assert k < s'.next[a.t];
    }
    if Done(c, lines, s, k) {
      var t: nat :| t < |s.next| && InRange(c, lines, t, k) && k < s.next[t];
      assert k < s'.next[t];
    }
    if Done(c, lines, s', k) && k != s.next[a.t] {
      var t: nat :| t < |s'.next| && InRange(c, lines, t, k) && k < s'.next[t];
      assert k < s.next[t];
    }
  }

  lemma {:induction false} RunKeepsInv(c: Config, data: seq<seq<Byte>>, ss: seq<State>, acts: seq<Action>, i: nat)
    requires IsRun(c, data, ss, acts) && i < |ss|
    ensures Inv(c, data, ss[i])
  {
    if i == 0 {
      forall k: nat ensures !Done(c, |data|, ss[0], k) {}
    } else {
      var j := i - 1;
      RunKeepsInv(c, data, ss, acts, j);
      assert Enabled(c, data, ss[j], acts[j]) && Step(ss[j], acts[j]) == ss[j + 1];
      StepKeepsInv(c, data, ss[j], acts[j]);
    }
  }

  /** A thread that has not come to the end of its range can do its next line, which and the one after it are there. */
  lemma {:induction false} GoesOn(c: Config, data: seq<seq<Byte>>, ss: seq<State>, acts: seq<Action>, t: nat,
        r: seq<Byte>)
    requires 1 <= |data| && IsRun(c, data, ss, acts)
    requires t < c.threads && t < |ss[|acts|].next| && ss[|acts|].next[t] < End(c, |data|, t)
    ensures ss[|acts|].next[t] + 1 < |data|
    ensures var k := ss[|acts|].next[t];
      Enabled(c, data, ss[|acts|], Work(t, r)) <==> IsAnswer(data[k], data[k + 1], r)
  {
  }

  /** All threads have come to the ends of their ranges. */
  ghost predicate Finished(c: Config, lines: nat, s: State) {
    |s.next| == c.threads && forall t: nat :: t < c.threads ==> s.next[t] >= End(c, lines, t)
  }

  /** However the threads interleave, once they have all come to the ends of their ranges lcs_data holds
      the answer for every pair of adjacent lines, and nothing else has been written. */
  lemma {:induction false} AllPairsAnswered(c: Config, data: seq<seq<Byte>>, ss: seq<State>, acts: seq<Action>, k: nat)
    requires ConfigOk(c) && 1 <= |data| <= c.maxLines && IsRun(c, data, ss, acts)
    requires Finished(c, |data|, ss[|acts|])
    ensures k in ss[|acts|].out <==> k + 1 < |data|
    ensures k + 1 < |data| ==> IsAnswer(data[k], data[k + 1], ss[|acts|].out[k])
  {
    var s := ss[|acts|];
    RunKeepsInv(c, data, ss, acts, |acts|);
    if k + 1 < |data| {
      var t := RangesCover(c, |data|, k);
      assert Done(c, |data|, s, k);
    }
  }

  /** The program's output does not depend on how its threads interleave. */
  lemma {:induction false} OutputIsDetermined(data: seq<seq<Byte>>, ss: seq<State>, acts: seq<Action>, ss': seq<State>,
        acts': seq<Action>)
    requires 1 <= |data| <= PROGRAM.maxLines && IsRun(PROGRAM, data, ss, acts) && IsRun(PROGRAM, data, ss', acts')
    requires Finished(PROGRAM, |data|, ss[|acts|]) && Finished(PROGRAM, |data|, ss'[|acts'|])
    ensures ss[|acts|].out == ss'[|acts'|].out
  {
    ProgramConfig();
    var m, m' := ss[|acts|].out, ss'[|acts'|].out;
    forall k: nat ensures (k in m <==> k in m') && (k in m ==> m[k] == m'[k]) {
      AllPairsAnswered(PROGRAM, data, ss, acts, k);
      AllPairsAnswered(PROGRAM, data, ss', acts', k);
      if k + 1 < |data| { AnswerIsUnique(data[k], data[k + 1], m[k], m'[k]); }
    }
  }
}
