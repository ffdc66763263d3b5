/** The order theory and the functional form of list_sort (pintos/src/lib/kernel/list.c).

    Everything here is about sequences; module Lists shows that the code that moves node pointers
    computes these functions. */
module MergeSort {

  /** Always true; mentioning a triple makes the verifier apply negative transitivity to it. */
  ghost predicate Triple<T>(x: T, y: T, z: T) { true }

  /** What a list_less_func has to be, on the elements it is applied to: a strict weak order. */
  ghost predicate StrictWeakOrder<T>(less: (T, T) -> bool, S: set<T>) {
    && (forall x, y | x in S && y in S :: less(x, y) ==> !less(y, x))
    && (forall x, y, z {:trigger Triple(x, y, z)} | x in S && y in S && z in S ::
          Triple(x, y, z) && !less(x, y) && !less(y, z) ==> !less(x, z))
  }

  /** All elements of s are in S. */
  ghost predicate Within<T>(s: seq<T>, S: set<T>) {
    forall i :: 0 <= i < |s| ==> s[i] in S
  }

  /** No element is less than its predecessor; this is what is_sorted tests. */
  predicate Sorted<T>(less: (T, T) -> bool, s: seq<T>) {
    forall i :: 0 < i < |s| ==> !less(s[i], s[i - 1])
  }

  predicate Equivalent<T>(less: (T, T) -> bool, x: T, y: T) {
    !less(x, y) && !less(y, x)
  }

  /** The elements of s that are equivalent to x, in the order they have in s. */
  function Class<T>(less: (T, T) -> bool, s: seq<T>, x: T): seq<T> {
    if s == [] then []
    else Front(less, s[0], x) + Class(less, s[1..], x)
  }

  /** For every x in S, the elements of s that are equivalent to x, in order. */
  ghost function Classes<T>(less: (T, T) -> bool, S: set<T>, s: seq<T>): map<T, seq<T>> {
    map x | x in S :: Class(less, s, x)
  }

  /** t is a permutation of s that keeps equivalent elements in their order. */
  ghost predicate StablePermutation<T>(less: (T, T) -> bool, S: set<T>, s: seq<T>, t: seq<T>) {
    multiset(t) == multiset(s) && Classes(less, S, t) == Classes(less, S, s)
  }

  lemma {:induction false} SortedIsPairwise<T>(less: (T, T) -> bool, S: set<T>, s: seq<T>, i: nat, j: nat)
    requires StrictWeakOrder(less, S) && Within(s, S) && Sorted(less, s) && i < j < |s|
    ensures !less(s[j], s[i])
  {
    if i + 1 < j {
      SortedIsPairwise(less, S, s, i, j - 1);
      assert Triple(s[j], s[j - 1], s[i]);
    }
  }

  lemma {:induction false} ClassConcat<T>(less: (T, T) -> bool, s: seq<T>, t: seq<T>, x: T)
    ensures Class(less, s + t, x) == Class(less, s, x) + Class(less, t, x)
  {
    if s == [] {
      assert s + t == t;
    } else {
      ClassConcat(less, s[1..], t, x);
      assert (s + t)[1..] == s[1..] + t;
      ConcatAssoc(Front(less, s[0], x), Class(less, s[1..], x), Class(less, t, x));
    }
  }

  lemma {:induction false} ConcatAssoc<T>(a: seq<T>, b: seq<T>, c: seq<T>)
    ensures (a + b) + c == a + (b + c)
  {
  }

  lemma {:induction false} ClassEmpty<T>(less: (T, T) -> bool, s: seq<T>, x: T)
    requires forall y | y in s :: !Equivalent(less, y, x)
    ensures Class(less, s, x) == []
  {
    if s != [] {
      assert s[0] in s;
      ClassEmpty(less, s[1..], x);
    }
  }

  // ----- merging two sorted runs

  function Merge<T>(less: (T, T) -> bool, a: seq<T>, b: seq<T>): (m: seq<T>)
    ensures |m| == |a| + |b|
    decreases |a| + |b|
  {
    if a == [] then b
    else if b == [] then a
    else if !less(b[0], a[0]) then [a[0]] + Merge(less, a[1..], b)
    else [b[0]] + Merge(less, a, b[1..])
  }

  lemma {:induction false} MergeMultiset<T>(less: (T, T) -> bool, a: seq<T>, b: seq<T>)
    ensures multiset(Merge(less, a, b)) == multiset(a) + multiset(b)
    decreases |a| + |b|
  {
    if a != [] && b != [] {
      assert a == [a[0]] + a[1..] && b == [b[0]] + b[1..];
      if !less(b[0], a[0]) {
        MergeMultiset(less, a[1..], b);
      } else {
        MergeMultiset(less, a, b[1..]);
      }
    }
  }

  lemma {:induction false} PrependSorted<T>(less: (T, T) -> bool, x: T, s: seq<T>)
    requires Sorted(less, s) && (s != [] ==> !less(s[0], x))
    ensures Sorted(less, [x] + s)
  {
    var r := [x] + s;
    forall i | 0 < i < |r| ensures !less(r[i], r[i - 1]) {
      if i > 1 { assert !less(s[i - 1], s[i - 2]); }
    }
  }

  lemma {:induction false} MergeSorted<T>(less: (T, T) -> bool, S: set<T>, a: seq<T>, b: seq<T>)
    requires StrictWeakOrder(less, S) && Within(a, S) && Within(b, S) && Sorted(less, a) && Sorted(less, b)
    ensures Sorted(less, Merge(less, a, b))
    decreases |a| + |b|
  {
    if a != [] && b != [] {
      if !less(b[0], a[0]) {
        MergeSorted(less, S, a[1..], b);
        PrependSorted(less, a[0], Merge(less, a[1..], b));
      } else {
        MergeSorted(less, S, a, b[1..]);
        PrependSorted(less, b[0], Merge(less, a, b[1..]));
      }
    }
  }

  lemma {:induction false} TailSorted<T>(less: (T, T) -> bool, S: set<T>, s: seq<T>)
    requires s != [] && Within(s, S) && Sorted(less, s)
    ensures Within(s[1..], S) && Sorted(less, s[1..])
  {
  }

  /** Stability of the merge: within one class, the left run's elements precede the right run's. */
  lemma {:induction false} MergeStable<T>(less: (T, T) -> bool, S: set<T>, a: seq<T>, b: seq<T>, x: T)
    requires StrictWeakOrder(less, S) && Within(a, S) && Within(b, S) && x in S
    requires Sorted(less, a) && Sorted(less, b)
    ensures Class(less, Merge(less, a, b), x) == Class(less, a, x) + Class(less, b, x)
    decreases |a| + |b|
  {
    if a == [] {
      assert Class(less, a, x) + Class(less, b, x) == Class(less, b, x);
    } else if b == [] {
      assert Class(less, a, x) + Class(less, b, x) == Class(less, a, x);
    } else if !less(b[0], a[0]) {
      TailSorted(less, S, a);
      MergeStable(less, S, a[1..], b, x);
      ClassTake(less, a[0], Merge(less, a[1..], b), x, Class(less, a[1..], x), Class(less, b, x));
    } else {
      TailSorted(less, S, b);
      MergeStable(less, S, a, b[1..], x);
      if Equivalent(less, b[0], x) {
        SmallerThanAll(less, S, a, b[0], x);
        ClassEmpty(less, a, x);
      }
      ClassSkip(less, b[0], Merge(less, a, b[1..]), x, Class(less, a, x), Class(less, b[1..], x));
    }
  }

  function Front<T>(less: (T, T) -> bool, y: T, x: T): seq<T> {
    if Equivalent(less, y, x) then [y] else []
  }

  /** An element taken from the left run comes first. */
  lemma {:induction false} ClassTake<T>(less: (T, T) -> bool, y: T, s: seq<T>, x: T, ca: seq<T>, cb: seq<T>)
    requires Class(less, s, x) == ca + cb
    ensures Class(less, [y] + s, x) == (Front(less, y, x) + ca) + cb
  {
    ClassCons(less, y, s, x);
  }

  /** An element taken from the right run is of another class or meets no element of its class on the left. */
  lemma {:induction false} ClassSkip<T>(less: (T, T) -> bool, y: T, s: seq<T>, x: T, ca: seq<T>, cb: seq<T>)
    requires Class(less, s, x) == ca + cb && (Equivalent(less, y, x) ==> ca == [])
    ensures Class(less, [y] + s, x) == ca + (Front(less, y, x) + cb)
  {
    ClassCons(less, y, s, x);
  }

  lemma {:induction false} ClassCons<T>(less: (T, T) -> bool, y: T, s: seq<T>, x: T)
    ensures Class(less, [y] + s, x) == Front(less, y, x) + Class(less, s, x)
  {
    assert ([y] + s)[1..] == s;
  }

  lemma {:induction false} SmallerThanAll<T>(less: (T, T) -> bool, S: set<T>, a: seq<T>, y: T, x: T)
    requires StrictWeakOrder(less, S) && Within(a, S) && x in S && y in S && Sorted(less, a)
    requires a != [] && less(y, a[0]) && Equivalent(less, y, x)
    ensures forall z | z in a :: !Equivalent(less, z, x)
  {
    forall i | 0 <= i < |a| ensures !Equivalent(less, a[i], x) {
      if 0 < i { SortedIsPairwise(less, S, a, 0, i); }
      // y < a[0] <= a[i], so y < a[i]; and y ~ x, so x < a[i]
      assert Triple(y, a[i], a[0]) && Triple(y, x, a[i]);
    }
  }

  // ----- natural runs

  /** The length of the first natural run of s: the longest nondecreasing prefix. */
  function RunEnd<T>(less: (T, T) -> bool, s: seq<T>): (k: nat)
    requires s != []
    ensures 1 <= k <= |s|
  {
    if |s| == 1 || less(s[1], s[0]) then 1 else 1 + RunEnd(less, s[1..])
  }

  lemma {:induction false} RunEndIsMaximal<T>(less: (T, T) -> bool, s: seq<T>)
    requires s != []
    ensures Sorted(less, s[..RunEnd(less, s)])
    ensures RunEnd(less, s) < |s| ==> less(s[RunEnd(less, s)], s[RunEnd(less, s) - 1])
  {
    if !(|s| == 1 || less(s[1], s[0])) {
      RunEndIsMaximal(less, s[1..]);
      var k := RunEnd(less, s);
      PrependSorted(less, s[0], s[1..][..k - 1]);
      assert [s[0]] + s[1..][..k - 1] == s[..k];
    }
  }

  /** The number of places where a natural run ends before the end of s. */
  function Descents<T>(less: (T, T) -> bool, s: seq<T>): nat {
    if |s| < 2 then 0
    else (if less(s[1], s[0]) then 1 else 0) + Descents(less, s[1..])
  }

  /** The number of natural runs of s. */
  function Runs<T>(less: (T, T) -> bool, s: seq<T>): nat {
    if s == [] then 0 else 1 + Descents(less, s)
  }

  lemma {:induction false} DescentsConcat<T>(less: (T, T) -> bool, s: seq<T>, t: seq<T>)
    requires s != [] && t != []
    ensures Descents(less, s + t) ==
      Descents(less, s) + Descents(less, t) + if less(t[0], s[|s| - 1]) then 1 else 0
  {
    if |s| == 1 {
      assert (s + t)[1..] == t;
    } else {
      DescentsConcat(less, s[1..], t);
      assert (s + t)[1..] == s[1..] + t;
    }
  }

  lemma {:induction false} SortedHasOneRun<T>(less: (T, T) -> bool, s: seq<T>)
    ensures Sorted(less, s) <==> Runs(less, s) <= 1
  {
    if |s| >= 2 {
      SortedHasOneRun(less, s[1..]);
      if Sorted(less, s) {
        assert forall i :: 0 < i < |s| - 1 ==> s[1..][i] == s[i + 1] && s[1..][i - 1] == s[i];
      }
      if Sorted(less, s[1..]) && !less(s[1], s[0]) {
        PrependSorted(less, s[0], s[1..]);
        assert [s[0]] + s[1..] == s;
      }
    }
  }

  lemma {:induction false} RunsConcat<T>(less: (T, T) -> bool, s: seq<T>, t: seq<T>)
    ensures Runs(less, s + t) <= Runs(less, s) + Runs(less, t)
    ensures s != [] && t != [] && less(t[0], s[|s| - 1]) ==> Runs(less, s + t) == Runs(less, s) + Runs(less, t)
  {
    if s == [] {
      assert s + t == t;
    } else if t == [] {
      assert s + t == s;
    } else {
      DescentsConcat(less, s, t);
    }
  }

  /** The natural runs of s are its first run and the runs of the rest. */
  lemma {:induction false} FirstRun<T>(less: (T, T) -> bool, s: seq<T>, m: nat)
    requires s != [] && m == RunEnd(less, s)
    ensures Runs(less, s) == 1 + Runs(less, s[m..])
  {
    var a, c := s[..m], s[m..];
    assert s == a + c;
    RunEndIsMaximal(less, s);
    SortedHasOneRun(less, a);
    RunsConcat(less, a, c);
  }

  // ----- merging two adjacent runs in the middle of a list

  lemma {:induction false} MergedClass<T>(less: (T, T) -> bool, S: set<T>, out: seq<T>, a: seq<T>, b: seq<T>,
        rest: seq<T>, x: T)
    requires StrictWeakOrder(less, S) && Within(a, S) && Within(b, S) && x in S
    requires Sorted(less, a) && Sorted(less, b)
    ensures Class(less, out + Merge(less, a, b) + rest, x) == Class(less, out + (a + b) + rest, x)
  {
    MergeStable(less, S, a, b, x);
    ClassConcat(less, a, b, x);
    ClassConcat(less, out, Merge(less, a, b), x);
    ClassConcat(less, out + Merge(less, a, b), rest, x);
    ClassConcat(less, out, a + b, x);
    ClassConcat(less, out + (a + b), rest, x);
  }

  /** Merging two adjacent sorted runs permutes the whole list stably ... */
  lemma {:induction false} MergedStable<T>(less: (T, T) -> bool, S: set<T>, out: seq<T>, a: seq<T>, b: seq<T>,
        rest: seq<T>)
    requires StrictWeakOrder(less, S) && Within(out + (a + b) + rest, S) && Sorted(less, a) && Sorted(less, b)
    ensures StablePermutation(less, S, out + (a + b) + rest, out + Merge(less, a, b) + rest)
  {
    var s := out + (a + b) + rest;
    MergeMultiset(less, a, b);
    WithinParts(out, a, b, rest, S);
    forall x | x in S ensures Class(less, out + Merge(less, a, b) + rest, x) == Class(less, s, x) {
      MergedClass(less, S, out, a, b, rest, x);
    }
  }

  lemma {:induction false} WithinParts<T>(out: seq<T>, a: seq<T>, b: seq<T>, rest: seq<T>, S: set<T>)
    requires Within(out + (a + b) + rest, S)
    ensures Within(a, S) && Within(b, S)
  {
    var s := out + (a + b) + rest;
    assert forall i :: 0 <= i < |a| ==> a[i] == s[|out| + i];
    assert forall i :: 0 <= i < |b| ==> b[i] == s[|out| + |a| + i];
  }

  /** ... and adds at most one run to those already put out. */
  lemma {:induction false} MergedRun<T>(less: (T, T) -> bool, S: set<T>, out: seq<T>, a: seq<T>, b: seq<T>)
    requires StrictWeakOrder(less, S) && Within(a, S) && Within(b, S) && Sorted(less, a) && Sorted(less, b)
    ensures Runs(less, out + Merge(less, a, b)) <= Runs(less, out) + 1
  {
    MergeSorted(less, S, a, b);
    SortedHasOneRun(less, Merge(less, a, b));
    RunsConcat(less, out, Merge(less, a, b));
  }

  lemma {:induction false} SameMultisetWithin<T>(s: seq<T>, t: seq<T>, S: set<T>)
    requires multiset(t) == multiset(s) && Within(s, S)
    ensures Within(t, S)
  {
    forall i | 0 <= i < |t| ensures t[i] in S {
      assert t[i] in multiset(t);
    }
  }

  // ----- one pass over the list

  /** The state of a pass over orig: the list is cur, its first o elements are the output, which cnt
      merges produced, and the runs after them are still those of orig. */
  ghost predicate PassState<T>(less: (T, T) -> bool, S: set<T>, orig: seq<T>, cur: seq<T>, o: nat, cnt: nat) {
    && o <= |cur| == |orig|
    && Runs(less, cur[..o]) <= cnt
    && 2 * cnt + Runs(less, cur[o..]) == Runs(less, orig)
    && StablePermutation(less, S, orig, cur)
  }

  /** The list after the two natural runs at cur[o..m] and cur[m..n] have been merged. */
  function MergedAt<T>(less: (T, T) -> bool, cur: seq<T>, o: nat, m: nat, n: nat): (r: seq<T>)
    requires o <= m <= n <= |cur|
    ensures |r| == |cur|
  {
    cur[..o] + Merge(less, cur[o..m], cur[m..n]) + cur[n..]
  }

  /** cur[o..m] and cur[m..n] are the first two natural runs behind the output. */
  ghost predicate NextRuns<T>(less: (T, T) -> bool, cur: seq<T>, o: nat, m: nat, n: nat) {
    && o < m < n <= |cur|
    && m == o + RunEnd(less, cur[o..])
    && n == m + RunEnd(less, cur[m..])
  }

  lemma {:induction false} NextRunsSorted<T>(less: (T, T) -> bool, cur: seq<T>, o: nat, m: nat, n: nat)
    requires NextRuns(less, cur, o, m, n)
    ensures Sorted(less, cur[o..m]) && Sorted(less, cur[m..n])
    ensures Runs(less, cur[o..]) == 2 + Runs(less, cur[n..])
  {
    RunEndIsMaximal(less, cur[o..]);
    RunEndIsMaximal(less, cur[m..]);
    SuffixSlices(cur, o, m);
    SuffixSlices(cur, m, n);
    FirstRun(less, cur[o..], m - o);
    FirstRun(less, cur[m..], n - m);
  }

  lemma {:induction false} SuffixSlices<T>(s: seq<T>, o: nat, m: nat)
    requires o <= m <= |s|
    ensures s[o..][..m - o] == s[o..m] && s[o..][m - o..] == s[m..]
  {
  }

  lemma {:induction false} StepStable<T>(less: (T, T) -> bool, S: set<T>, cur: seq<T>, o: nat, m: nat, n: nat)
    requires StrictWeakOrder(less, S) && Within(cur, S) && o <= m <= n <= |cur|
    requires Sorted(less, cur[o..m]) && Sorted(less, cur[m..n])
    ensures StablePermutation(less, S, cur, MergedAt(less, cur, o, m, n))
  {
    assert cur == cur[..o] + (cur[o..m] + cur[m..n]) + cur[n..];
    MergedStable(less, S, cur[..o], cur[o..m], cur[m..n], cur[n..]);
  }

  lemma {:induction false} StepRuns<T>(less: (T, T) -> bool, S: set<T>, cur: seq<T>, o: nat, m: nat, n: nat)
    requires StrictWeakOrder(less, S) && Within(cur, S) && o <= m <= n <= |cur|
    requires Sorted(less, cur[o..m]) && Sorted(less, cur[m..n])
    ensures Runs(less, MergedAt(less, cur, o, m, n)[..n]) <= Runs(less, cur[..o]) + 1
    ensures MergedAt(less, cur, o, m, n)[n..] == cur[n..]
  {
    MergedRun(less, S, cur[..o], cur[o..m], cur[m..n]);
    assert MergedAt(less, cur, o, m, n)[..n] == cur[..o] + Merge(less, cur[o..m], cur[m..n]);
  }

  lemma {:induction false} PassStep<T>(less: (T, T) -> bool, S: set<T>, orig: seq<T>, cur: seq<T>, o: nat, cnt: nat,
        m: nat, n: nat)
    requires StrictWeakOrder(less, S) && Within(orig, S)
    requires PassState(less, S, orig, cur, o, cnt) && NextRuns(less, cur, o, m, n)
    ensures PassState(less, S, orig, MergedAt(less, cur, o, m, n), n, cnt + 1)
  {
    SameMultisetWithin(orig, cur, S);
    NextRunsSorted(less, cur, o, m, n);
    StepStable(less, S, cur, o, m, n);
    StepRuns(less, S, cur, o, m, n);
  }

  /** A pass that ends behind its last merge, or with an unpaired run, counted the pairs of runs of
      orig and leaves at most that many runs. */
  lemma {:induction false} PassEnd<T>(less: (T, T) -> bool, S: set<T>, orig: seq<T>, cur: seq<T>, o: nat, cnt: nat)
    requires PassState(less, S, orig, cur, o, cnt)
    requires o < |cur| ==> RunEnd(less, cur[o..]) == |cur| - o
    ensures var outputs := if o < |cur| then cnt + 1 else cnt;
      outputs == (Runs(less, orig) + 1) / 2 && Runs(less, cur) <= outputs
  {
    assert cur == cur[..o] + cur[o..];
    if o < |cur| {
      FirstRun(less, cur[o..], |cur| - o);
      assert cur[o..][|cur| - o..] == [];
    }
    RunsConcat(less, cur[..o], cur[o..]);
  }

  // ----- the result is determined

  lemma {:induction false} FirstIsLeast<T>(less: (T, T) -> bool, S: set<T>, t: seq<T>, y: T)
    requires StrictWeakOrder(less, S) && Within(t, S) && Sorted(less, t) && y in t
    ensures !less(y, t[0])
  {
    var i :| 0 <= i < |t| && t[i] == y;
    if 0 < i {
      SortedIsPairwise(less, S, t, 0, i);
    }
  }

  /** A sorted stable permutation is unique, so "sorted and stable" says exactly what a sort returns. */
  lemma {:induction false} SortedStableUnique<T>(less: (T, T) -> bool, S: set<T>, t: seq<T>, u: seq<T>)
    requires StrictWeakOrder(less, S) && Within(t, S) && Within(u, S)
    requires Sorted(less, t) && Sorted(less, u) && StablePermutation(less, S, t, u)
    ensures t == u
  {
    assert forall x | x in S :: Classes(less, S, t)[x] == Classes(less, S, u)[x];
    if t == [] || u == [] {
      assert |multiset(t)| == |t| && |multiset(u)| == |u|;
    } else {
      var y := t[0];
      SameFirst(less, S, t, u);
      TailSorted(less, S, t);
      TailSorted(less, S, u);
      TailMultiset(t);
      TailMultiset(u);
      forall x | x in S ensures Class(less, t[1..], x) == Class(less, u[1..], x) {
        SameTail(Front(less, y, x), Class(less, t[1..], x), Class(less, u[1..], x));
      }
      SortedStableUnique(less, S, t[1..], u[1..]);
    }
  }

  lemma {:induction false} TailMultiset<T>(s: seq<T>)
    requires s != []
    ensures multiset(s[1..]) == multiset(s) - multiset{s[0]}
  {
    assert s == [s[0]] + s[1..];
  }

  lemma {:induction false} SameTail<T>(a: seq<T>, b: seq<T>, c: seq<T>)
    requires a + b == a + c
    ensures b == c
  {
    assert b == (a + b)[|a|..] && c == (a + c)[|a|..];
  }

  lemma {:induction false} SameFirst<T>(less: (T, T) -> bool, S: set<T>, t: seq<T>, u: seq<T>)
    requires StrictWeakOrder(less, S) && Within(t, S) && Within(u, S) && t != [] && u != []
    requires Sorted(less, t) && Sorted(less, u) && multiset(t) == multiset(u)
    requires Class(less, t, t[0]) == Class(less, u, t[0])
    ensures t[0] == u[0]
  {
    assert u[0] in multiset(t) && t[0] in multiset(u);
    FirstIsLeast(less, S, t, u[0]);
    FirstIsLeast(less, S, u, t[0]);
    assert Front(less, t[0], t[0]) == [t[0]] && Front(less, u[0], t[0]) == [u[0]];
    assert Class(less, t, t[0])[0] == t[0] && Class(less, u, t[0])[0] == u[0];
  }

  // ----- insertion into a sorted list

  /** The position list_insert_ordered chooses: before the first element that x is less than. */
  function InsertionPoint<T>(less: (T, T) -> bool, s: seq<T>, x: T): (k: nat)
    ensures k <= |s|
    ensures forall i :: 0 <= i < k ==> !less(x, s[i])
    ensures k < |s| ==> less(x, s[k])
  {
    if s == [] || less(x, s[0]) then 0 else 1 + InsertionPoint(less, s[1..], x)
  }

  function InsertOrdered<T>(less: (T, T) -> bool, s: seq<T>, x: T): seq<T> {
    var k := InsertionPoint(less, s, x);
    s[..k] + [x] + s[k..]
  }

  /** Ordered insertion keeps a sorted list sorted ... */
  lemma {:induction false} InsertOrderedSorted<T>(less: (T, T) -> bool, S: set<T>, s: seq<T>, x: T)
    requires StrictWeakOrder(less, S) && Within(s, S) && x in S && Sorted(less, s)
    ensures Sorted(less, InsertOrdered(less, s, x))
  {
    var k := InsertionPoint(less, s, x);
    var r := InsertOrdered(less, s, x);
    forall i | 0 < i < |r| ensures !less(r[i], r[i - 1]) {
      if i < k {
        assert !less(s[i], s[i - 1]);
      } else if i > k + 1 {
        assert !less(s[i - 1], s[i - 2]);
      }
    }
  }

  /** ... and adds x behind the elements equivalent to it. */
  lemma {:induction false} InsertOrderedStable<T>(less: (T, T) -> bool, S: set<T>, s: seq<T>, x: T)
    requires StrictWeakOrder(less, S) && Within(s, S) && x in S && Sorted(less, s)
    ensures Class(less, InsertOrdered(less, s, x), x) == Class(less, s, x) + [x]
  {
    var k := InsertionPoint(less, s, x);
    var a, b := s[..k], s[k..];
    if b != [] {
      SmallerThanAll(less, S, b, x, x);
    }
    ClassEmpty(less, b, x);
    ClassInserted(less, a, x, b, x);
    assert a + b == s;
  }

  /** The other elements keep their order. */
  lemma {:induction false} InsertOrderedKeeps<T>(less: (T, T) -> bool, s: seq<T>, x: T, y: T)
    requires !Equivalent(less, x, y)
    ensures multiset(InsertOrdered(less, s, x)) == multiset(s) + multiset{x}
    ensures Class(less, InsertOrdered(less, s, x), y) == Class(less, s, y)
  {
    var k := InsertionPoint(less, s, x);
    assert s == s[..k] + s[k..];
    ClassBetween(less, s[..k], x, s[k..], y);
    OneMore(s[..k], x, s[k..]);
  }

  lemma {:induction false} OneMore<T>(a: seq<T>, x: T, b: seq<T>)
    ensures multiset(a + [x] + b) == multiset(a + b) + multiset{x}
  {
  }

  lemma {:induction false} ClassBetween<T>(less: (T, T) -> bool, a: seq<T>, x: T, b: seq<T>, y: T)
    requires !Equivalent(less, x, y)
    ensures Class(less, a + [x] + b, y) == Class(less, a + b, y)
  {
    assert Class(less, [x], y) == [];
    ClassConcat(less, a, b, y);
    ClassConcat(less, a + [x], b, y);
    ClassConcat(less, a, [x], y);
  }

  lemma {:induction false} ClassInserted<T>(less: (T, T) -> bool, a: seq<T>, y: T, b: seq<T>, x: T)
    requires Class(less, b, x) == []
    ensures Class(less, a + b, x) == Class(less, a, x)
    ensures Class(less, a + [y] + b, x) == Class(less, a, x) + Front(less, y, x)
  {
    assert Class(less, [y], x) == Front(less, y, x) + [] == Front(less, y, x);
    ClassConcat(less, a, b, x);
    ClassConcat(less, a + [y], b, x);
    ClassConcat(less, a, [y], x);
  }
}
