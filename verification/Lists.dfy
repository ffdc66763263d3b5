/** Doubly linked lists with two header elements (pintos/src/lib/kernel/list.c).

    A chain is the sequence of elements from a list's head to its tail. Linked says that the prev
    and next fields in the heap spell out that sequence; every operation below is specified by
    what it does to the chain. The chain and the positions in it are ghost: the code itself only
    follows and assigns pointers, as the C code does. */
module Lists {
  import opened MergeSort
  import opened Queues

  class ListElem {
    var prev: ListElem?
    var next: ListElem?

    constructor ()
      ensures prev == null && next == null
    {
      prev, next := null, null;
    }
  }

  ghost function NodesOf(s: seq<ListElem>): set<ListElem> {
    set e | e in s
  }

  /** The sequences s and t have no element in common. */
  ghost predicate Apart(s: seq<ListElem>, t: seq<ListElem>) {
    forall i, j :: 0 <= i < |s| && 0 <= j < |t| ==> s[i] != t[j]
  }

  ghost predicate Linked(s: seq<ListElem>)
    reads s
  {
    && |s| >= 2
    && Distinct(s)
    && s[0].prev == null
    && s[|s| - 1].next == null
    && (forall i {:trigger s[i].next} :: 0 <= i < |s| - 1 ==> s[i].next == s[i + 1])
    && (forall i {:trigger s[i].prev} :: 0 < i < |s| ==> s[i].prev == s[i - 1])
  }

  // ----- chain arithmetic

  ghost function Inserted(s: seq<ListElem>, k: nat, e: ListElem): seq<ListElem>
    requires k <= |s|
  {
    s[..k] + [e] + s[k..]
  }

  /** The position in s of the element that is at position x once the elements from position i up to
      position j have been moved to just before position k. */
  ghost function MovedFrom(i: nat, j: nat, k: nat, x: nat): (y: nat)
    requires i <= j && (k <= i || j <= k)
  {
    if k <= i then
      if x < k || j <= x then x else if x < k + (j - i) then x - k + i else x - (j - i)
    else
      if x < i || k <= x then x else if x < k - (j - i) then x + (j - i) else x - (k - j)
  }

  /** s with the elements from position i up to position j moved to just before position k. */
  ghost function Moved(s: seq<ListElem>, i: nat, j: nat, k: nat): seq<ListElem>
    requires i <= j <= |s| && k <= |s| && (k <= i || j <= k)
  {
    seq(|s|, x requires 0 <= x < |s| => s[MovedFrom(i, j, k, x)])
  }

  /** The range between two others has changed places with what was between it and position k. */
  lemma {:induction false} MovedIs(s: seq<ListElem>, i: nat, j: nat, k: nat)
    requires i <= j <= |s| && k <= |s| && (k <= i || j <= k)
    ensures Moved(s, i, j, k)
         == if k <= i then s[..k] + s[i..j] + s[k..i] + s[j..] else s[..i] + s[j..k] + s[i..j] + s[k..]
  {
  }

  // ----- insertion, removal and splicing

  /** Inserts elem just before the element before, which is at position k of the chain s. */
  method ListInsert(before: ListElem, elem: ListElem, ghost s: seq<ListElem>, ghost k: nat)
    requires Linked(s) && 0 < k < |s| && s[k] == before && elem !in s
    modifies before, before.prev, elem
    ensures Linked(Inserted(s, k, elem))
  {
    elem.prev := before.prev;
    elem.next := before;
    before.prev.next := elem;
    before.prev := elem;
  }

  /** Removes elem, at position k of the chain s, and returns the element that followed it. The
      removed element keeps its own links. */
  method ListRemove(elem: ListElem, ghost s: seq<ListElem>, ghost k: nat) returns (follower: ListElem)
    requires Linked(s) && 0 < k < |s| - 1 && s[k] == elem
    modifies elem.prev, elem.next
    ensures Linked(s[..k] + s[k + 1..]) && follower == s[k + 1]
    ensures elem.prev == s[k - 1] && elem.next == s[k + 1]
  {
    elem.prev.next := elem.next;
    elem.next.prev := elem.prev;
    follower := elem.next;
  }

  /** The elements of t are linked to one another in order; the outer links of t are left open. */
  ghost predicate Segment(t: seq<ListElem>)
    reads t
  {
    && t != []
    && Distinct(t)
    && (forall i {:trigger t[i].next} :: 0 <= i < |t| - 1 ==> t[i].next == t[i + 1])
    && (forall i {:trigger t[i].prev} :: 0 < i < |t| ==> t[i].prev == t[i - 1])
  }

  /** The first half of list_splice: takes the elements first...end out of the chain s. */
  method Cut(first: ListElem, end: ListElem, ghost s: seq<ListElem>, ghost i: nat, ghost j: nat)
    requires Linked(s) && 0 < i < j < |s| && s[i] == first && s[j - 1] == end
    modifies first.prev, end.next
    ensures Linked(s[..i] + s[j..]) && Segment(s[i..j])
  {
    first.prev.next := end.next;
    end.next.prev := first.prev;
  }

  /** The second half of list_splice: puts the segment t just before position k of the chain d. */
  method Paste(before: ListElem, first: ListElem, end: ListElem, ghost t: seq<ListElem>, ghost d: seq<ListElem>,
        ghost k: nat)
    requires Segment(t) && t[0] == first && t[|t| - 1] == end
    requires Linked(d) && 0 < k < |d| && d[k] == before && Apart(t, d)
    modifies before, before.prev, first, end
    ensures Linked(d[..k] + t + d[k..])
  {
    ghost var r := d[..k] + t + d[k..];
    Interleaved(t, d, k);
    first.prev := before.prev;
    end.next := before;
    before.prev.next := first;
    before.prev := end;
    forall p | 0 <= p < |r| - 1 ensures r[p].next == r[p + 1] {
      if p < k - 1 {
        assert d[p].next == d[p + 1];
      } else if k <= p < k + |t| - 1 {
        assert t[p - k].next == t[p - k + 1];
      } else if k + |t| <= p {
        assert d[p - |t|].next == d[p - |t| + 1];
      }
    }
    forall p | 0 < p < |r| ensures r[p].prev == r[p - 1] {
      if p < k {
        assert d[p].prev == d[p - 1];
      } else if k < p < k + |t| {
        assert t[p - k].prev == t[p - k - 1];
      } else if k + |t| < p {
        assert d[p - |t|].prev == d[p - |t| - 1];
      }
    }
  }

  lemma Interleaved(t: seq<ListElem>, d: seq<ListElem>, k: nat)
    requires Distinct(t) && Distinct(d) && k <= |d| && Apart(t, d)
    ensures Distinct(d[..k] + t + d[k..])
  {
  }

  /** list_splice within one chain: moves the elements from first up to, but not including, last to
      just before the element before. Splicing a range into its own middle is not allowed. */
  method ListSplice(before: ListElem, first: ListElem, last: ListElem, ghost s: seq<ListElem>, ghost i: nat,
        ghost j: nat, ghost k: nat)
    returns (ghost t: seq<ListElem>)
    requires Linked(s) && 0 < i <= j < |s| && s[i] == first && s[j] == last
    requires 0 < k < |s| && s[k] == before && (k < i || j <= k || i == j)
    modifies before, before.prev, first, first.prev, last, last.prev
    ensures Linked(t)
    ensures i < j ==> t == Moved(s, i, j, k)
    ensures i == j ==> t == s
  {
    if first == last {
      return s;
    }
    var end := last.prev;
    ghost var rest := s[..i] + s[j..];
    ghost var k' := if k < i then k else k - (j - i);
    CutApart(s, i, j);
    Cut(first, end, s, i, j);
    assert rest[k'] == before && before.prev == rest[k' - 1];
    Paste(before, first, end, s[i..j], rest, k');
    t := rest[..k'] + s[i..j] + rest[k'..];
    MovedIsCutAndPasted(s, i, j, k);
  }

  /** list_splice between two chains: takes the range out of the chain s and puts it into the chain d. */
  method ListSpliceAcross(before: ListElem, first: ListElem, last: ListElem, ghost s: seq<ListElem>, ghost i: nat,
        ghost j: nat, ghost d: seq<ListElem>, ghost k: nat)
    requires Linked(s) && 0 < i <= j < |s| && s[i] == first && s[j] == last
    requires Linked(d) && 0 < k < |d| && d[k] == before && Apart(s, d)
    modifies before, before.prev, first, first.prev, last, last.prev
    ensures Linked(s[..i] + s[j..]) && Linked(d[..k] + s[i..j] + d[k..])
  {
    if first == last {
      assert s[..i] + s[j..] == s && d[..k] + s[i..j] + d[k..] == d;
      return;
    }
    var end := last.prev;
    ghost var rest := s[..i] + s[j..];
    CutApart(s, i, j);
    Cut(first, end, s, i, j);
    Paste(before, first, end, s[i..j], d, k);
    assert Linked(rest);
  }

  /** A range of a chain and the rest of the chain have no element in common. */
  lemma CutApart(s: seq<ListElem>, i: nat, j: nat)
    requires Distinct(s) && i < j <= |s|
    ensures Apart(s[i..j], s[..i] + s[j..])
    ensures forall e | e in s[i..j] || e in s[..i] + s[j..] :: e in s
  {
  }

  lemma MovedIsCutAndPasted(s: seq<ListElem>, i: nat, j: nat, k: nat)
    requires i < j <= |s| && k <= |s| && (k < i || j <= k)
    ensures var c := s[..i] + s[j..]; var k' := if k < i then k else k - (j - i);
      c[..k'] + s[i..j] + c[k'..] == Moved(s, i, j, k)
  {
    var c, k' := s[..i] + s[j..], if k < i then k else k - (j - i);
    var r, m := c[..k'] + s[i..j] + c[k'..], Moved(s, i, j, k);
    forall x | 0 <= x < |s| ensures r[x] == m[x] {
      if x < k' {
        assert r[x] == c[x];
      } else if x < k' + (j - i) {
        assert r[x] == s[i..j][x - k'];
      } else {
        assert r[x] == c[x - (j - i)];
      }
    }
  }

  // ----- runs and merging

  /** Finds the end of the natural run that starts at a, not looking past b. */
  method FindEndOfRun(a: ListElem, b: ListElem, less: (ListElem, ListElem) -> bool, ghost s: seq<ListElem>,
        ghost i: nat, ghost j: nat)
    returns (e: ListElem, ghost k: nat)
    requires Linked(s) && 0 < i < j < |s| && s[i] == a && s[j] == b
    ensures i < k <= j && s[k] == e && k == i + RunEnd(less, s[i..j])
  {
    e, k := a.next, i + 1;
    while e != b && !less(e, e.prev)
      invariant i < k <= j && s[k] == e
      invariant RunEnd(less, s[i..j]) == k - 1 - i + RunEnd(less, s[k - 1..j])
      decreases j - k
    {
      assert s[k - 1..j][1..] == s[k..j];
      e, k := e.next, k + 1;
    }
  }

  /** Merges the adjacent runs a0...a1b0 and a1b0...b1, at positions i, m and j of the chain s whose
      elements are in N, in place. */
  method InplaceMerge(a0: ListElem, a1b0: ListElem, b1: ListElem, less: (ListElem, ListElem) -> bool,
        ghost s: seq<ListElem>, ghost i: nat, ghost m: nat, ghost j: nat, ghost N: set<ListElem>)
    returns (ghost t: seq<ListElem>)
    requires Linked(s) && Within(s, N)
    requires 0 < i <= m <= j < |s| && s[i] == a0 && s[m] == a1b0 && s[j] == b1
    modifies N
    ensures Linked(t) && t == MergedAt(less, s, i, m, j)
  {
    var x, y := a0, a1b0;
    ghost var st := Merging(s, i, m);
    ghost var result := Outcome(less, st, i, j);
    while x != y && y != b1
      invariant Linked(st.t) && Within(st.t, N) && |st.t| == |s|
      invariant i <= st.p <= st.q <= j && st.t[st.p] == x && st.t[st.q] == y && st.t[j] == b1
      invariant Outcome(less, st, i, j) == result
      decreases 2 * j - st.p - st.q
    {
      ghost var n;
      x, y, n := MergeStep(x, y, less, st, N);
      StepKeepsOutcome(less, st, n, i, j);
      NextElements(less, st, n, j, N);
      st := n;
    }
    t := st.t;
    MergeDone(less, s, i, m, j, st);
  }

  /** One iteration of inplace_merge: passes over the front of the left run, or moves the front of the
      right run before it. */
  method MergeStep(a0: ListElem, a1b0: ListElem, less: (ListElem, ListElem) -> bool, ghost st: Merging,
        ghost N: set<ListElem>)
    returns (x: ListElem, y: ListElem, ghost n: Merging)
    requires Linked(st.t) && Within(st.t, N) && 0 < st.p < st.q < |st.t| - 1 && st.t[st.p] == a0 && st.t[st.q] == a1b0
    modifies N
    ensures IsNext(less, st, n) && Linked(n.t) && n.t[n.p] == x && n.t[n.q] == y
  {
    x, y := a0, a1b0;
    if !less(y, x) {
      x := x.next;
      n := Merging(st.t, st.p + 1, st.q);
    } else {
      y := y.next;
      ghost var t := ListSplice(x, y.prev, y, st.t, st.q, st.q + 1, st.p);
      n := Merging(t, st.p + 1, st.q + 1);
      MovedElements(st.t, st.p, st.q);
    }
  }

  /** The state of a merge of two runs of the chain t: the left run's remainder starts at position p,
      the right run's remainder at position q; what precedes position p is merged already. */
  datatype Merging = Merging(t: seq<ListElem>, p: nat, q: nat)

  /** One iteration takes the merge from state st to state n. */
  ghost predicate IsNext(less: (ListElem, ListElem) -> bool, st: Merging, n: Merging)
    requires st.p < st.q < |st.t|
  {
    if less(st.t[st.q], st.t[st.p]) then
      n.t == Moved(st.t, st.q, st.q + 1, st.p) && n.p == st.p + 1 && n.q == st.q + 1
    else
      n.t == st.t && n.p == st.p + 1 && n.q == st.q
  }

  datatype Snapshot = Snapshot(chain: seq<ListElem>)

  ghost function Joined(pre: seq<ListElem>, done: seq<ListElem>, rest: seq<ListElem>, post: seq<ListElem>): Snapshot {
    Snapshot(pre + (done + rest) + post)
  }

  lemma {:induction false} JoinedShift(pre: seq<ListElem>, done: seq<ListElem>, x: ListElem, rest: seq<ListElem>,
        post: seq<ListElem>)
    ensures Joined(pre, done + [x], rest, post) == Joined(pre, done, [x] + rest, post)
  {
    ConcatAssoc(done, [x], rest);
  }

  /** The chain that the merge will end with. */
  ghost function Outcome(less: (ListElem, ListElem) -> bool, st: Merging, i: nat, j: nat): Snapshot
    requires i <= st.p <= st.q <= j <= |st.t|
  {
    Joined(st.t[..i], st.t[i..st.p], Merge(less, st.t[st.p..st.q], st.t[st.q..j]), st.t[j..])
  }

  lemma {:induction false} StepKeepsOutcome(less: (ListElem, ListElem) -> bool, st: Merging, n: Merging, i: nat, j: nat)
    requires i <= st.p < st.q < j < |st.t| && IsNext(less, st, n)
    ensures |n.t| == |st.t| && n.q <= j && Outcome(less, n, i, j) == Outcome(less, st, i, j)
  {
    if less(st.t[st.q], st.t[st.p]) { MergeTakesRight(less, st, n, i, j); } else { MergeTakesLeft(less, st, n, i, j); }
  }

  lemma {:induction false} MergeTakesLeft(less: (ListElem, ListElem) -> bool, st: Merging, n: Merging, i: nat, j: nat)
    requires i <= st.p < st.q < j < |st.t| && !less(st.t[st.q], st.t[st.p]) && n == Merging(st.t, st.p + 1, st.q)
    ensures Outcome(less, n, i, j) == Outcome(less, st, i, j)
  {
    var t, p, q := st.t, st.p, st.q;
    MergeUnfoldLeft(less, t, p, q, j);
    assert t[i..p + 1] == t[i..p] + [t[p]];
    var rest := Merge(less, t[p + 1..q], t[q..j]);
    OutcomeIs(less, st, i, j, t[..i], t[i..p], t[p..q], t[q..j], t[j..], [t[p]] + rest);
    OutcomeIs(less, n, i, j, t[..i], t[i..p] + [t[p]], t[p + 1..q], t[q..j], t[j..], rest);
    JoinedShift(t[..i], t[i..p], t[p], rest, t[j..]);
  }

  lemma {:induction false} MergeTakesRight(less: (ListElem, ListElem) -> bool, st: Merging, n: Merging, i: nat, j: nat)
    requires i <= st.p < st.q < j < |st.t| && less(st.t[st.q], st.t[st.p]) && IsNext(less, st, n)
    ensures |n.t| == |st.t| && n.q <= j && Outcome(less, n, i, j) == Outcome(less, st, i, j)
  {
    MovedSlices(st.t, i, st.p, st.q, j);
    RightTaken(less, st, n, i, j);
  }

  lemma {:induction false} RightTaken(less: (ListElem, ListElem) -> bool, st: Merging, n: Merging, i: nat, j: nat)
    requires i <= st.p < st.q < j < |st.t| == |n.t| && less(st.t[st.q], st.t[st.p]) && n.p == st.p + 1
      && n.q == st.q + 1
    requires n.t[..i] == st.t[..i] && n.t[j..] == st.t[j..] && n.t[i..n.p] == st.t[i..st.p] + [st.t[st.q]]
    requires n.t[n.p..n.q] == st.t[st.p..st.q] && n.t[n.q..j] == st.t[st.q + 1..j]
    ensures Outcome(less, n, i, j) == Outcome(less, st, i, j)
  {
    var t, p, q := st.t, st.p, st.q;
    MergeUnfoldRight(less, t, p, q, j);
    var rest := Merge(less, t[p..q], t[q + 1..j]);
    OutcomeIs(less, st, i, j, t[..i], t[i..p], t[p..q], t[q..j], t[j..], [t[q]] + rest);
    OutcomeIs(less, n, i, j, t[..i], t[i..p] + [t[q]], t[p..q], t[q + 1..j], t[j..], rest);
    JoinedShift(t[..i], t[i..p], t[q], rest, t[j..]);
  }

  lemma {:induction false} OutcomeIs(less: (ListElem, ListElem) -> bool, st: Merging, i: nat, j: nat,
        pre: seq<ListElem>, done: seq<ListElem>, a: seq<ListElem>, b: seq<ListElem>, post: seq<ListElem>,
        rest: seq<ListElem>)
    requires i <= st.p <= st.q <= j <= |st.t| && pre == st.t[..i] && done == st.t[i..st.p] && post == st.t[j..]
    requires a == st.t[st.p..st.q] && b == st.t[st.q..j] && rest == Merge(less, a, b)
    ensures Outcome(less, st, i, j) == Joined(pre, done, rest, post)
  {
  }

  lemma {:induction false} MergeUnfoldLeft(less: (ListElem, ListElem) -> bool, t: seq<ListElem>, p: nat, q: nat, j: nat)
    requires p < q < j < |t| && !less(t[q], t[p])
    ensures Merge(less, t[p..q], t[q..j]) == [t[p]] + Merge(less, t[p + 1..q], t[q..j])
  {
    assert t[p..q][1..] == t[p + 1..q];
  }

  lemma {:induction false} MergeUnfoldRight(less: (ListElem, ListElem) -> bool, t: seq<ListElem>, p: nat, q: nat,
        j: nat)
    requires p < q < j < |t| && less(t[q], t[p])
    ensures Merge(less, t[p..q], t[q..j]) == [t[q]] + Merge(less, t[p..q], t[q + 1..j])
  {
    assert t[q..j][1..] == t[q + 1..j];
  }

  lemma {:induction false} MovedSlices(t: seq<ListElem>, i: nat, p: nat, q: nat, j: nat)
    requires i <= p < q < j < |t|
    ensures var u := Moved(t, q, q + 1, p);
      && u[..i] == t[..i] && u[j..] == t[j..] && u[i..p + 1] == t[i..p] + [t[q]]
      && u[p + 1..q + 1] == t[p..q] && u[q + 1..j] == t[q + 1..j]
  {
    var u := Moved(t, q, q + 1, p);
    forall x | p < x <= q ensures u[x] == t[x - 1] {}
    assert u[p + 1..q + 1] == t[p..q];
  }

  lemma {:induction false} MovedElements(t: seq<ListElem>, p: nat, q: nat)
    requires p < q < |t| - 1
    ensures var u := Moved(t, q, q + 1, p); |u| == |t| && u[p + 1] == t[p] && u[q + 1] == t[q + 1]
  {
  }

  lemma {:induction false} NextElements(less: (ListElem, ListElem) -> bool, st: Merging, n: Merging, j: nat,
        N: set<ListElem>)
    requires Within(st.t, N) && st.p < st.q < j < |st.t| && IsNext(less, st, n)
    ensures Within(n.t, N) && |n.t| == |st.t| && n.t[j] == st.t[j]
  {
  }

  lemma {:induction false} MergeDone(less: (ListElem, ListElem) -> bool, s: seq<ListElem>, i: nat, m: nat, j: nat,
        st: Merging)
    requires i <= m <= j <= |s| == |st.t| && i <= st.p <= st.q <= j && (st.p == st.q || st.q == j)
    requires Outcome(less, st, i, j) == Outcome(less, Merging(s, i, m), i, j)
    ensures st.t == MergedAt(less, s, i, m, j)
  {
    var Merging(t, p, q) := st;
    assert t[i..p] + Merge(less, t[p..q], t[q..j]) == t[i..j];
    InThree(t, i, j);
    assert s[i..i] + Merge(less, s[i..m], s[m..j]) == Merge(less, s[i..m], s[m..j]);
  }

  lemma {:induction false} InThree(t: seq<ListElem>, i: nat, j: nat)
    requires i <= j <= |t|
    ensures t == t[..i] + t[i..j] + t[j..]
  {
  }

  /** The elements of a chain between its head and its tail. */
  ghost function Interior(s: seq<ListElem>): seq<ListElem>
    requires |s| >= 2
  {
    s[1..|s| - 1]
  }

  /** One iteration of a pass of list_sort over orig, whose elements are E: finds the two runs at the front of the
      remaining list, which starts at position i of the chain s, and merges them, so that the remaining list
      then starts at position n. If there is no second run, nothing changes and last is true. */
  method MergeNextRuns(a0: ListElem, tail: ListElem, less: (ListElem, ListElem) -> bool, ghost s: seq<ListElem>,
        ghost i: nat, ghost S: set<ListElem>, ghost E: set<ListElem>, ghost orig: seq<ListElem>, ghost cnt: nat)
    returns (b1: ListElem, last: bool, ghost t: seq<ListElem>, ghost n: nat)
    requires Linked(s) && NodesOf(s) == S && 0 < i < |s| - 1 && s[i] == a0 && s[|s| - 1] == tail
    requires StrictWeakOrder(less, E) && PassState(less, E, orig, Interior(s), i - 1, cnt) && Within(orig, E)
    modifies S
    ensures Linked(t) && NodesOf(t) == S && |t| == |s| && t[0] == s[0] && t[|t| - 1] == tail
    ensures last ==> t == s && RunEnd(less, Interior(s)[i - 1..]) == |s| - 1 - i
    ensures !last ==> i < n < |t| && b1 == t[n] && PassState(less, E, orig, Interior(t), n - 1, cnt + 1)
  {
    ghost var m;
    b1, last, t, m, n := MergeFront(a0, tail, less, s, i, S);
    if last { InteriorSuffix(s, i); } else { PassContinues(less, E, orig, s, t, i, cnt, m, n); }
  }

  method MergeFront(a0: ListElem, tail: ListElem, less: (ListElem, ListElem) -> bool, ghost s: seq<ListElem>,
        ghost i: nat, ghost S: set<ListElem>)
    returns (b1: ListElem, last: bool, ghost t: seq<ListElem>, ghost m: nat, ghost n: nat)
    requires Linked(s) && NodesOf(s) == S && 0 < i < |s| - 1 && s[i] == a0 && s[|s| - 1] == tail
    modifies S
    ensures Linked(t) && i < m < |s| && m == i + RunEnd(less, s[i..|s| - 1]) && (last <==> m == |s| - 1)
    ensures last ==> t == s
    ensures !last ==>
      m < n < |s| && n == m + RunEnd(less, s[m..|s| - 1]) && t == MergedAt(less, s, i, m, n) && b1 == s[n]
  {
    var a1b0;
    a1b0, m := FindEndOfRun(a0, tail, less, s, i, |s| - 1);
    last := a1b0 == tail;
    if last {
      b1, t, n := tail, s, m;
    } else {
      b1, t, n := MergeWithNextRun(a0, a1b0, tail, less, s, i, m, S);
    }
  }

  /** Merges the run from a0 to a1b0 with the run that follows it. */
  method MergeWithNextRun(a0: ListElem, a1b0: ListElem, tail: ListElem, less: (ListElem, ListElem) -> bool,
        ghost s: seq<ListElem>, ghost i: nat, ghost m: nat, ghost S: set<ListElem>)
    returns (b1: ListElem, ghost t: seq<ListElem>, ghost n: nat)
    requires Linked(s) && NodesOf(s) == S && 0 < i < m < |s| - 1
    requires s[i] == a0 && s[m] == a1b0 && s[|s| - 1] == tail
    modifies S
    ensures m < n < |s| && n == m + RunEnd(less, s[m..|s| - 1])
    ensures Linked(t) && t == MergedAt(less, s, i, m, n) && b1 == s[n]
  {
    NodesWithin(s);
    b1, n := FindEndOfRun(a1b0, tail, less, s, m, |s| - 1);
    t := InplaceMerge(a0, a1b0, b1, less, s, i, m, n, S);
  }

  lemma {:induction false} NodesWithin(s: seq<ListElem>)
    ensures Within(s, NodesOf(s))
  {
  }

  lemma {:induction false} SliceOfSlice(s: seq<ListElem>, a: nat, b: nat, c: nat, d: nat)
    requires a <= b <= |s| && c <= d <= b - a
    ensures s[a..b][c..d] == s[a + c..a + d]
  {
    assert forall x :: 0 <= x < d - c ==> s[a..b][c..d][x] == s[a + c + x];
  }

  lemma {:induction false} InteriorSuffix(s: seq<ListElem>, i: nat)
    requires 1 <= i < |s|
    ensures Interior(s)[i - 1..] == s[i..|s| - 1]
  {
    SliceOfSlice(s, 1, |s| - 1, i - 1, |s| - 2);
  }

  lemma {:induction false} PassContinues(less: (ListElem, ListElem) -> bool, S: set<ListElem>, orig: seq<ListElem>,
        s: seq<ListElem>, t: seq<ListElem>, i: nat, cnt: nat, m: nat, n: nat)
    requires StrictWeakOrder(less, S) && Within(orig, S)
    requires 1 <= i < m < n < |s| && t == MergedAt(less, s, i, m, n)
      && PassState(less, S, orig, Interior(s), i - 1, cnt)
    requires m == i + RunEnd(less, s[i..|s| - 1]) && n == m + RunEnd(less, s[m..|s| - 1])
    ensures NodesOf(t) == NodesOf(s) && t[0] == s[0] && t[n] == s[n] && t[|t| - 1] == s[|s| - 1]
    ensures PassState(less, S, orig, Interior(t), n - 1, cnt + 1)
  {
    MergeKeepsEnds(less, s, i, m, n);
    SameNodes(less, s, i, m, n);
    InteriorState(less, S, orig, s, t, i, cnt, m, n);
  }

  lemma {:induction false} InteriorState(less: (ListElem, ListElem) -> bool, S: set<ListElem>, orig: seq<ListElem>,
        s: seq<ListElem>, t: seq<ListElem>, i: nat, cnt: nat, m: nat, n: nat)
    requires StrictWeakOrder(less, S) && Within(orig, S)
    requires 1 <= i < m < n < |s| && t == MergedAt(less, s, i, m, n)
      && PassState(less, S, orig, Interior(s), i - 1, cnt)
    requires m == i + RunEnd(less, s[i..|s| - 1]) && n == m + RunEnd(less, s[m..|s| - 1])
    ensures PassState(less, S, orig, Interior(t), n - 1, cnt + 1)
  {
    MergedElems(less, s, i, m, n);
    NextRunsOfInterior(less, s, i, m, n);
    PassStepTo(less, S, orig, Interior(s), Interior(t), i - 1, cnt, m - 1, n - 1);
  }

  lemma {:induction false} PassStepTo(less: (ListElem, ListElem) -> bool, S: set<ListElem>, orig: seq<ListElem>,
        cur: seq<ListElem>, next: seq<ListElem>, o: nat, cnt: nat, m: nat, n: nat)
    requires StrictWeakOrder(less, S) && Within(orig, S)
    requires PassState(less, S, orig, cur, o, cnt) && NextRuns(less, cur, o, m, n)
      && next == MergedAt(less, cur, o, m, n)
    ensures PassState(less, S, orig, next, n, cnt + 1)
  {
    PassStep(less, S, orig, cur, o, cnt, m, n);
  }

  lemma {:induction false} NextRunsOfInterior(less: (ListElem, ListElem) -> bool, s: seq<ListElem>, i: nat, m: nat,
        n: nat)
    requires 1 <= i < m < n < |s|
    requires m == i + RunEnd(less, s[i..|s| - 1]) && n == m + RunEnd(less, s[m..|s| - 1])
    ensures NextRuns(less, Interior(s), i - 1, m - 1, n - 1)
  {
    InteriorSuffix(s, i);
    InteriorSuffix(s, m);
  }

  lemma {:induction false} MergeKeepsEnds(less: (ListElem, ListElem) -> bool, s: seq<ListElem>, i: nat, m: nat, n: nat)
    requires 1 <= i <= m <= n < |s|
    ensures var t := MergedAt(less, s, i, m, n); t[0] == s[0] && t[n] == s[n] && t[|t| - 1] == s[|s| - 1]
  {
  }

  /** The chain after a merge holds the same elements. */
  lemma {:induction false} SameNodes(less: (ListElem, ListElem) -> bool, s: seq<ListElem>, i: nat, m: nat, n: nat)
    requires i <= m <= n <= |s|
    ensures NodesOf(s) == NodesOf(MergedAt(less, s, i, m, n))
  {
    var t := MergedAt(less, s, i, m, n);
    MergeMultiset(less, s[i..m], s[m..n]);
    InFour(s, i, m, n);
    NodesByMultiset(s, t);
  }

  lemma {:induction false} InFour(s: seq<ListElem>, i: nat, m: nat, n: nat)
    requires i <= m <= n <= |s|
    ensures multiset(s) == multiset(s[..i]) + (multiset(s[i..m]) + multiset(s[m..n])) + multiset(s[n..])
  {
    assert s == s[..i] + s[i..m] + s[m..n] + s[n..];
  }

  lemma {:induction false} NodesByMultiset(s: seq<ListElem>, t: seq<ListElem>)
    requires multiset(s) == multiset(t)
    ensures NodesOf(s) == NodesOf(t)
  {
    assert forall e | e in s :: e in multiset(s);
    assert forall e | e in t :: e in multiset(t);
  }

  lemma {:induction false} MergedElems(less: (ListElem, ListElem) -> bool, s: seq<ListElem>, i: nat, m: nat, n: nat)
    requires 1 <= i <= m <= n < |s|
    ensures Interior(MergedAt(less, s, i, m, n)) == MergedAt(less, Interior(s), i - 1, m - 1, n - 1)
  {
    SliceOfSlice(s, 1, |s| - 1, i - 1, m - 1);
    SliceOfSlice(s, 1, |s| - 1, m - 1, n - 1);
    SliceOfSlice(s, 1, |s| - 1, 0, i - 1);
    InteriorSuffix(s, n);
    var mid := Merge(less, s[i..m], s[m..n]);
    var t, r := s[..i] + mid + s[n..], s[1..i] + mid + s[n..|s| - 1];
    forall x | 0 <= x < |r| ensures t[x + 1] == r[x] {
      if x < i - 1 {
        assert r[x] == s[1..i][x];
      } else if x < n - 1 {
        assert r[x] == mid[x - (i - 1)] && t[x + 1] == mid[x + 1 - i];
      } else {
        assert r[x] == s[n..|s| - 1][x - (n - 1)] && t[x + 1] == s[n..][x + 1 - n];
      }
    }
    assert Interior(t) == r;
  }

  lemma {:induction false} PassStart(less: (ListElem, ListElem) -> bool, orig: seq<ListElem>)
    requires StrictWeakOrder(less, NodesOf(orig))
    ensures Within(orig, NodesOf(orig)) && PassState(less, NodesOf(orig), orig, orig, 0, 0)
  {
    assert orig[0..] == orig;
  }

  lemma {:induction false} PassStops(less: (ListElem, ListElem) -> bool, S: set<ListElem>, orig: seq<ListElem>,
        cur: seq<ListElem>, o: nat, cnt: nat, outputs: nat)
    requires PassState(less, S, orig, cur, o, cnt) && outputs == if o < |cur| then cnt + 1 else cnt
    requires o < |cur| ==> RunEnd(less, cur[o..]) == |cur| - o
    ensures StablePermutation(less, S, orig, cur) && outputs == (Runs(less, orig) + 1) / 2 && Runs(less, cur) <= outputs
  {
    PassEnd(less, S, orig, cur, o, cnt);
  }

  /** One pass of list_sort over the chain s. */
  method PassOver(head: ListElem, tail: ListElem, less: (ListElem, ListElem) -> bool, ghost s: seq<ListElem>,
        ghost S: set<ListElem>, ghost E: set<ListElem>)
    returns (outputRunCnt: nat, ghost t: seq<ListElem>)
    requires Linked(s) && NodesOf(s) == S && s[0] == head && s[|s| - 1] == tail
    requires E == NodesOf(Interior(s)) && StrictWeakOrder(less, E)
    modifies S
    ensures Linked(t) && NodesOf(t) == S && |t| == |s| && t[0] == head && t[|t| - 1] == tail
    ensures StablePermutation(less, E, Interior(s), Interior(t))
    ensures outputRunCnt == (Runs(less, Interior(s)) + 1) / 2
    ensures Runs(less, Interior(t)) <= outputRunCnt
  {
    ghost var orig := Interior(s);
    var cnt, last, a0 := 0, false, head.next;
    ghost var i := 1;
    t := s;
    PassStart(less, orig);
    while a0 != tail
      invariant Linked(t) && NodesOf(t) == S && |t| == |s| && t[0] == head && t[|t| - 1] == tail
      invariant !last && 1 <= i < |t| && a0 == t[i]
      invariant PassState(less, E, orig, Interior(t), i - 1, cnt)
      decreases |t| - i
    {
      ghost var n;
      a0, last, t, n := MergeNextRuns(a0, tail, less, t, i, S, E, orig, cnt);
      if last { break; }
      cnt, i := cnt + 1, n;
    }
    outputRunCnt := if last then cnt + 1 else cnt;
    PassStops(less, E, orig, Interior(t), i - 1, cnt, outputRunCnt);
  }

  /** The search loop of list_insert_ordered. */
  method FindInsertionPoint(head: ListElem, tail: ListElem, elem: ListElem, less: (ListElem, ListElem) -> bool,
        ghost s: seq<ListElem>)
    returns (e: ListElem, ghost k: nat)
    requires Linked(s) && s[0] == head && s[|s| - 1] == tail
    ensures k == InsertionPoint(less, Interior(s), elem) && e == s[1 + k]
  {
    e, k := head.next, 0;
    ghost var elems := Interior(s);
    assert elems[0..] == elems;
    while e != tail
      invariant 0 <= k <= |elems| && e == s[1 + k]
      invariant InsertionPoint(less, elems, elem) == k + InsertionPoint(less, elems[k..], elem)
      decreases |elems| - k
    {
      if less(elem, e) {
        return;
      }
      assert elems[k..][1..] == elems[k + 1..];
      e, k := e.next, k + 1;
    }
  }

  lemma {:induction false} InsertedInterior(s: seq<ListElem>, k: nat, elem: ListElem)
    requires k <= |s| - 2
    ensures var t := Inserted(s, 1 + k, elem);
      && Interior(t) == Interior(s)[..k] + [elem] + Interior(s)[k..]
      && t[0] == s[0] && t[|t| - 1] == s[|s| - 1]
  {
    var t, e := Inserted(s, 1 + k, elem), Interior(s);
    var r := e[..k] + [elem] + e[k..];
    forall x | 0 <= x < |r| ensures t[x + 1] == r[x] {
      if x < k {
        assert r[x] == e[x];
      } else if x > k {
        assert r[x] == e[x - 1];
      }
    }
  }

  // ----- lists

  class List {
    const head: ListElem
    const tail: ListElem
    ghost var chain: seq<ListElem>

    ghost function Nodes(): set<ListElem>
      reads this
    {
      NodesOf(chain)
    }

    ghost predicate Valid()
      reads this, Nodes()
    {
      Linked(chain) && chain[0] == head && chain[|chain| - 1] == tail
    }

    /** The elements between the headers. */
    ghost function Elems(): seq<ListElem>
      requires |chain| >= 2
      reads this
    {
      Interior(chain)
    }

    /** list_init */
    constructor ()
      ensures Valid() && Elems() == [] && fresh(Nodes())
    {
      head := new ListElem();
      tail := new ListElem();
      chain := [head, tail];
      new;
      head.next := tail;
      tail.prev := head;
    }

    /** One pass of list_sort: merges the runs of the list pairwise and counts the merged runs. The
        pass permutes stably, and it leaves at most half as many runs, rounded up. */
    method SortPass(less: (ListElem, ListElem) -> bool) returns (outputRunCnt: nat)
      requires Valid() && StrictWeakOrder(less, NodesOf(Elems()))
      modifies this, Nodes()
      ensures Valid() && Nodes() == old(Nodes())
      ensures StablePermutation(less, NodesOf(old(Elems())), old(Elems()), Elems())
      ensures outputRunCnt == (Runs(less, old(Elems())) + 1) / 2
      ensures Runs(less, Elems()) <= outputRunCnt
    {
      outputRunCnt, chain := PassOver(head, tail, less, chain, Nodes(), NodesOf(Elems()));
    }

    /** list_sort: terminates, because every repeated pass leaves fewer natural runs, and leaves a
        well-linked list of the same elements, sorted and in their old order where they are
        equivalent. */
    method Sort(less: (ListElem, ListElem) -> bool)
      requires Valid() && StrictWeakOrder(less, NodesOf(Elems()))
      modifies this, Nodes()
      ensures Valid() && Nodes() == old(Nodes())
      ensures Sorted(less, Elems())
      ensures StablePermutation(less, NodesOf(old(Elems())), old(Elems()), Elems())
    {
      ghost var E := NodesOf(Elems());
      while true
        invariant Valid() && Nodes() == old(Nodes())
        invariant NodesOf(Elems()) == E && StablePermutation(less, E, old(Elems()), Elems())
        decreases Runs(less, Elems())
      {
        ghost var before := Elems();
        var outputRunCnt := SortPass(less);
        NodesByMultiset(before, Elems());
        if outputRunCnt <= 1 {
          SortedHasOneRun(less, Elems());
          return;
        }
      }
    }

    /** list_insert_ordered: puts elem before the first element it is less than. */
    method InsertSorted(elem: ListElem, less: (ListElem, ListElem) -> bool)
      requires Valid() && elem !in Nodes()
      modifies this, Nodes(), elem
      ensures Valid() && Elems() == InsertOrdered(less, old(Elems()), elem)
    {
      var e; ghost var k;
      e, k := FindInsertionPoint(head, tail, elem, less, chain);
      ghost var s := chain;
      ListInsert(e, elem, s, 1 + k);
      chain := Inserted(s, 1 + k, elem);
      InsertedInterior(s, k, elem);
    }
  }
}
