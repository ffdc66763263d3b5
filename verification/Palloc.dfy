/** The page allocator (pintos/src/threads/palloc.c): a pool's used_map is scanned and marked by at most
    one allocator at a time, which holds the pool's lock, while any number of threads free pages without
    taking it. Every test and every change of one bit is a step of its own, so frees happen in the
    middle of a scan. */
module Palloc {
  import opened Bitmaps
  import opened Options
  import opened Pages

  /** A run of pages that has been given out or is on its way: being marked by the allocator with k pages
      done, in use, being checked by palloc_free_multiple with k pages checked, or being reset with k
      pages given back. */
  datatype Holding =
    | Marking(start: nat, cnt: nat, k: nat)
    | Live(start: nat, cnt: nat)
    | Checking(start: nat, cnt: nat, k: nat)
    | Resetting(start: nat, cnt: nat, k: nat)

  /** The holder of the pool's lock. */
  datatype Allocator = NoOne | Scanning(cnt: nat, i: nat, j: nat) | Claiming(id: nat)

  datatype State = State(used: seq<bool>, held: map<nat, Holding>, alloc: Allocator)

  /** Split is not an operation of the allocator: an owner who wants to free a part of a run looks at it as two. */
  datatype Action =
    | Get(cnt: nat) | ScanBit(id: nat) | MarkBit
    | Free(id: nat) | CheckBit(id: nat) | ResetBit(id: nat)
    | Split(id: nat, rest: nat, m: nat)

  /** Panic is a failed assertion: that the bits asked for are in the map, or that the pages being freed
      are all in use. */
  datatype Outcome = Ok(s: State) | Panic

  /** The next position of bitmap_scan, which has found the j bits from i on unset. */
  datatype Next = Go(i: nat, j: nat) | Hit(i: nat) | Miss

  function ScanNext(used: seq<bool>, cnt: nat, i: nat, j: nat): Next
    requires i + cnt <= |used| && j <= cnt
  {
    if j == cnt then Hit(i)
    else if !used[i + j] then Go(i, j + 1)
    else if i + 1 + cnt <= |used| then Go(i + 1, 0)
    else Miss
  }

  predicate Enabled(s: State, a: Action) {
    match a
    case Get(_) => s.alloc.NoOne?
    case ScanBit(id) => s.alloc.Scanning? && id !in s.held
    case MarkBit => s.alloc.Claiming? && s.alloc.id in s.held && s.held[s.alloc.id].Marking?
    case Free(id) => id in s.held && s.held[id].Live?
    case CheckBit(id) => id in s.held && s.held[id].Checking?
    case ResetBit(id) => id in s.held && s.held[id].Resetting?
    case Split(id, rest, m) => id in s.held && s.held[id].Live? && rest !in s.held && 0 < m < s.held[id].cnt
  }

  function Step(s: State, a: Action): Outcome
    requires Enabled(s, a)
  {
    match a
    case Get(cnt) =>
      if cnt == 0 || cnt > |s.used| then Ok(s) else Ok(s.(alloc := Scanning(cnt, 0, 0)))
    case ScanBit(id) =>
      if s.alloc.i + s.alloc.cnt > |s.used| || s.alloc.j > s.alloc.cnt then Panic
      else match ScanNext(s.used, s.alloc.cnt, s.alloc.i, s.alloc.j) {
       case Go(i, j) => Ok(s.(alloc := Scanning(s.alloc.cnt, i, j)))
       case Hit(i) => Ok(s.(alloc := Claiming(id), held := s.held[id := Marking(i, s.alloc.cnt, 0)]))
       case Miss => Ok(s.(alloc := NoOne)) }
    case MarkBit =>
      var id := s.alloc.id;
      var h := s.held[id];
      if h.start + h.k >= |s.used| then Panic
      else
        var used := s.used[h.start + h.k := true];
        if h.k + 1 < h.cnt then Ok(s.(used := used, held := s.held[id := h.(k := h.k + 1)]))
        else Ok(State(used, s.held[id := Live(h.start, h.cnt)], NoOne))
    case Free(id) => Ok(s.(held := s.held[id := Checking(s.held[id].start, s.held[id].cnt, 0)]))
    case CheckBit(id) =>
      var h := s.held[id];
      if h.start + h.k >= |s.used| || !s.used[h.start + h.k] then Panic
      else Ok(s.(held := s.held[id := if h.k + 1 < h.cnt then h.(k := h.k + 1) else Resetting(h.start, h.cnt, 0)]))
    case ResetBit(id) =>
      var h := s.held[id];
      if h.start + h.k >= |s.used| then Panic
      else
        var used := s.used[h.start + h.k := false];
        Ok(s.(used := used, held := if h.k + 1 < h.cnt then s.held[id := h.(k := h.k + 1)] else s.held - {id}))
    case Split(id, rest, m) =>
      var h := s.held[id];
      Ok(s.(held := s.held[id := Live(h.start, m)][rest := Live(h.start + m, h.cnt - m)]))
  }

  ghost predicate IsRun(ss: seq<State>, acts: seq<Action>) {
    && |ss| == |acts| + 1
    && forall i :: 0 <= i < |acts| ==> Enabled(ss[i], acts[i]) && Step(ss[i], acts[i]) == Ok(ss[i + 1])
  }

  predicate Initial(s: State) {
    s.held == map[] && s.alloc == NoOne && forall b | 0 <= b < |s.used| :: !s.used[b]
  }

  // ----- the invariant

  /** Page b belongs to the run: to all of it while it is in use or being checked, to the part already
      marked or not yet reset otherwise. */
  predicate Owns(h: Holding, b: nat) {
    match h
    case Marking(start, cnt, k) => start <= b < start + k
    case Live(start, cnt) => start <= b < start + cnt
    case Checking(start, cnt, k) => start <= b < start + cnt
    case Resetting(start, cnt, k) => start + k <= b < start + cnt
  }

  ghost predicate HoldingOk(h: Holding, n: nat) {
    h.start + h.cnt <= n && h.cnt > 0 && (!h.Live? ==> h.k < h.cnt)
  }

  ghost predicate InUse(s: State, b: nat) {
    exists id :: id in s.held && Owns(s.held[id], b)
  }

  ghost predicate Owned(s: State) {
    && (forall id | id in s.held :: HoldingOk(s.held[id], |s.used|))
    // a page is marked used exactly if it belongs to a run, and then to one run only
    && (forall b: nat | b < |s.used| :: s.used[b] <==> InUse(s, b))
    && (forall id, id', b: nat | id in s.held && id' in s.held && Owns(s.held[id], b) && Owns(s.held[id'], b) ::
      id == id')
  }

  ghost predicate ClaimOk(used: seq<bool>, h: Holding) {
    HoldingOk(h, |used|) && h.Marking? && AllAre(used, h.start + h.k, h.cnt - h.k, false)
  }

  /** What the allocator has found unset stays so: no one else sets bits. */
  ghost predicate AllocOk(s: State) {
    && (forall id | id in s.held :: s.held[id].Marking? <==> s.alloc == Claiming(id))
    && (s.alloc.Scanning? ==>
          s.alloc.cnt > 0 && s.alloc.i + s.alloc.cnt <= |s.used| && s.alloc.j <= s.alloc.cnt
            && AllAre(s.used, s.alloc.i, s.alloc.j, false))
    && (s.alloc.Claiming? ==> s.alloc.id in s.held && ClaimOk(s.used, s.held[s.alloc.id]))
  }

  ghost predicate Inv(s: State) {
    Owned(s) && AllocOk(s)
  }

  // ----- every step

  /** Only id's run has changed, and if its pages have then only page b. */
  lemma {:induction false} OneOwner(s: State, s': State, id: nat, b: nat)
    requires Owned(s) && |s'.used| == |s.used| && b < |s.used|
    requires s'.held.Keys == s.held.Keys + {id} || s'.held.Keys == s.held.Keys - {id}
    requires forall i | i in s.held && i != id :: s'.held[i] == s.held[i]
    requires id in s'.held ==> HoldingOk(s'.held[id], |s.used|)
    requires forall c: nat | c < |s.used| && c != b :: s'.used[c] == s.used[c]
    requires forall c: nat | c != b :: id in s'.held && Owns(s'.held[id], c) <==> id in s.held && Owns(s.held[id], c)
    requires s'.used[b] <==>
      (id in s'.held && Owns(s'.held[id], b)) || (s.used[b] && !(id in s.held && Owns(s.held[id], b)))
    requires id in s'.held && Owns(s'.held[id], b) ==> !s.used[b] || (id in s.held && Owns(s.held[id], b))
    ensures Owned(s')
  {
    forall c: nat | c < |s.used| ensures s'.used[c] <==> InUse(s', c) {
      assert s.used[c] <==> InUse(s, c);
      if s.used[c] {
        var i :| i in s.held && Owns(s.held[i], c);
        if s'.used[c] {
          if i != id { assert Owns(s'.held[i], c); } else { assert id in s'.held && Owns(s'.held[id], c); }
        }
      }
    }
  }

  lemma {:induction false} ScanKeepsInv(s: State, a: Action)
    requires Inv(s) && Enabled(s, a) && (a.Get? || a.ScanBit?)
    ensures Step(s, a).Ok? && Inv(Step(s, a).s)
  {
    var s' := Step(s, a).s;
    if a.ScanBit? && s'.alloc.Claiming? {
      OneOwner(s, s', a.id, 0);
    } else {
      assert s'.held == s.held && s'.used == s.used;
      assert forall b: nat | b < |s.used| :: InUse(s', b) <==> InUse(s, b);
    }
  }

  lemma {:induction false} MarkKeepsInv(s: State)
    requires Inv(s) && Enabled(s, MarkBit)
    ensures Step(s, MarkBit).Ok? && Inv(Step(s, MarkBit).s)
  {
    var s', id := Step(s, MarkBit).s, s.alloc.id;
    var h := s.held[id];
    assert !s.used[h.start + h.k];
    OneOwner(s, s', id, h.start + h.k);
  }

  lemma {:induction false} FreeKeepsInv(s: State, a: Action)
    requires Inv(s) && Enabled(s, a) && (a.Free? || a.CheckBit?)
    ensures Step(s, a).Ok? && Inv(Step(s, a).s)
  {
    var h := s.held[a.id];
    if a.CheckBit? { assert InUse(s, h.start + h.k) by { assert Owns(h, h.start + h.k); } }
    OneOwner(s, Step(s, a).s, a.id, h.start);
  }

  lemma {:induction false} ResetKeepsInv(s: State, a: Action)
    requires Inv(s) && Enabled(s, a) && a.ResetBit?
    ensures Step(s, a).Ok? && Inv(Step(s, a).s)
  {
    var s', h := Step(s, a).s, s.held[a.id];
    assert InUse(s, h.start + h.k) by { assert Owns(h, h.start + h.k); }
    OneOwner(s, s', a.id, h.start + h.k);
  }

  lemma {:induction false} SplitKeepsInv(s: State, a: Action)
    requires Inv(s) && Enabled(s, a) && a.Split?
    ensures Step(s, a).Ok? && Inv(Step(s, a).s)
  {
    forall b: nat ensures InUse(Step(s, a).s, b) <==> InUse(s, b) { SplitUse(s, a, b); }
    assert HoldingOk(s.held[a.id], |s.used|);
  }

  lemma {:induction false} SplitUse(s: State, a: Action, b: nat)
    requires Enabled(s, a) && a.Split?
    ensures InUse(Step(s, a).s, b) <==> InUse(s, b)
  {
    var s' := Step(s, a).s;
    if InUse(s, b) {
      var i :| i in s.held && Owns(s.held[i], b);
      assert i != a.id ==> Owns(s'.held[i], b);
      assert i == a.id ==> Owns(s'.held[a.id], b) || Owns(s'.held[a.rest], b);
    }
    if InUse(s', b) {
      var i :| i in s'.held && Owns(s'.held[i], b);
      assert Owns(s.held[if i == a.rest then a.id else i], b);
    }
  }

  lemma {:induction false} StepKeepsInv(s: State, a: Action)
    requires Inv(s) && Enabled(s, a)
    ensures Step(s, a).Ok? && Inv(Step(s, a).s)
  {
    match a
    case Get(_) => ScanKeepsInv(s, a);
    case ScanBit(_) => ScanKeepsInv(s, a);
    case MarkBit => MarkKeepsInv(s);
    case Free(_) => FreeKeepsInv(s, a);
    case CheckBit(_) => FreeKeepsInv(s, a);
    case ResetBit(_) => ResetKeepsInv(s, a);
    case Split(_, _, _) => SplitKeepsInv(s, a);
  }

  lemma {:induction false} RunKeepsInv(ss: seq<State>, acts: seq<Action>, i: nat)
    requires IsRun(ss, acts) && Initial(ss[0]) && i < |ss|
    ensures Inv(ss[i])
  {
    if i > 0 {
      var j := i - 1;
      RunKeepsInv(ss, acts, j);
      assert Enabled(ss[j], acts[j]) && Step(ss[j], acts[j]) == Ok(ss[j + 1]);
      StepKeepsInv(ss[j], acts[j]);
    }
  }

  // ----- what the invariant is for

  /** In every reachable state runs that have been given out and not freed lie in the pool, have no page in
      common, and have all their pages marked; and no step fails an assertion. */
  lemma {:induction false} LiveRunsDisjoint(ss: seq<State>, acts: seq<Action>, i: nat, p: nat, q: nat)
    requires IsRun(ss, acts) && Initial(ss[0]) && i < |ss|
    requires p in ss[i].held && q in ss[i].held && p != q && ss[i].held[p].Live? && ss[i].held[q].Live?
    ensures var g, h := ss[i].held[p], ss[i].held[q];
      && (g.start + g.cnt <= h.start || h.start + h.cnt <= g.start)
      && g.start + g.cnt <= |ss[i].used| && AllAre(ss[i].used, g.start, g.cnt, true)
  {
    RunKeepsInv(ss, acts, i);
    var g, h := ss[i].held[p], ss[i].held[q];
    assert HoldingOk(g, |ss[i].used|) && HoldingOk(h, |ss[i].used|);
    assert Owns(g, g.start) && Owns(h, h.start);
    assert !Owns(h, g.start) && !Owns(g, h.start);
    forall b | g.start <= b < g.start + g.cnt ensures ss[i].used[b] {
      assert Owns(g, b);
      assert InUse(ss[i], b);
    }
  }

  lemma {:induction false} NoPanic(ss: seq<State>, acts: seq<Action>, a: Action)
    requires IsRun(ss, acts) && Initial(ss[0]) && Enabled(ss[|acts|], a)
    ensures Step(ss[|acts|], a).Ok?
  {
    RunKeepsInv(ss, acts, |acts|);
    StepKeepsInv(ss[|acts|], a);
  }

  /** No page is lost: when every run has been freed every page is free again. */
  lemma {:induction false} NothingLost(ss: seq<State>, acts: seq<Action>, i: nat, b: nat)
    requires IsRun(ss, acts) && Initial(ss[0]) && i < |ss| && ss[i].held == map[] && b < |ss[i].used|
    ensures !ss[i].used[b]
  {
    RunKeepsInv(ss, acts, i);
    assert !InUse(ss[i], b);
  }

  /** The scan as the allocator makes it when no one interferes. */
  ghost function ScanFrom(used: seq<bool>, cnt: nat, i: nat, j: nat): Index
    requires i + cnt <= |used| && j <= cnt
    decreases |used| - i, cnt - j
  {
    match ScanNext(used, cnt, i, j)
    case Go(i', j') => ScanFrom(used, cnt, i', j')
    case Hit(k) => Some(k)
    case Miss => None
  }

  /** Without interference the steps of the scan find the first fit, which is what bitmap_scan returns. */
  lemma {:induction false} ScanFindsFirstFit(used: seq<bool>, cnt: nat, i: nat, j: nat)
    requires i + cnt <= |used| && j <= cnt && AllAre(used, i, j, false)
    requires forall k :: 0 <= k < i ==> !AllAre(used, k, cnt, false)
    ensures FirstFit(used, 0, cnt, false, ScanFrom(used, cnt, i, j))
    decreases |used| - i, cnt - j
  {
    match ScanNext(used, cnt, i, j)
    case Go(i', j') => ScanFindsFirstFit(used, cnt, i', j');
    case Hit(k) =>
    case Miss =>
  }

  // ----- a call of palloc_get_multiple, from the request to its end

  /** The allocator is looking for n pages, or marking n that it has found. */
  predicate Serves(s: State, n: nat) {
    match s.alloc
    case NoOne => false
    case Scanning(cnt, _, _) => cnt == n
    case Claiming(id) => id in s.held && s.held[id].Marking? && s.held[id].cnt == n
  }

  /** The step ends the call: with the run of pages in use, or with none. */
  predicate Gives(s: State, a: Action, s': State, id: nat, start: nat, n: nat) {
    && a == MarkBit && s.alloc == Claiming(id) && s'.alloc == NoOne
    && id in s'.held && s'.held[id] == Live(start, n)
  }

  predicate Fails(s: State, a: Action, s': State) { a.ScanBit? && s'.alloc == NoOne && s'.held == s.held }

  lemma {:induction false} ServesStep(s: State, a: Action, n: nat)
    requires Serves(s, n) && Enabled(s, a) && Step(s, a).Ok?
    ensures var s' := Step(s, a).s;
      || Serves(s', n) || Fails(s, a, s')
      || (s.alloc.Claiming? && Gives(s, a, s', s.alloc.id, s.held[s.alloc.id].start, n))
  {
  }

  /** Step i asks for n pages, and up to step j no one asks for any. */
  ghost predicate Asks(acts: seq<Action>, n: nat, i: nat, j: nat) {
    i < j < |acts| && acts[i] == Get(n) && forall k | i < k <= j :: !acts[k].Get?
  }

  /** A request for no pages, or for more than there are, ends at once with none; any other is served until it ends. */
  lemma {:induction false} ServedOrOver(ss: seq<State>, acts: seq<Action>, n: nat, i: nat, j: nat)
    requires IsRun(ss, acts) && Asks(acts, n, i, j)
    ensures ss[j].alloc != NoOne ==> Serves(ss[j], n) && 0 < n <= |ss[i].used|
  {
    var m := j - 1;
    assert Enabled(ss[m], acts[m]) && Step(ss[m], acts[m]) == Ok(ss[m + 1]);
    if i < m {
      ServedOrOver(ss, acts, n, i, m);
      if ss[m].alloc != NoOne { ServesStep(ss[m], acts[m], n); }
    }
  }

  /** In every run: when the marking ends, the caller that asked for n pages has a run of n pages, under a name that
      was free when the scan found them. */
  lemma {:induction false} GivesWhatWasAsked(ss: seq<State>, acts: seq<Action>, n: nat, i: nat, j: nat)
    requires IsRun(ss, acts) && Asks(acts, n, i, j) && acts[j] == MarkBit && ss[j + 1].alloc == NoOne
    ensures ss[j].alloc.Claiming? && ss[j].alloc.id in ss[j].held
    ensures Gives(ss[j], acts[j], ss[j + 1], ss[j].alloc.id, ss[j].held[ss[j].alloc.id].start, n)
    ensures exists h | i < h < j :: acts[h] == ScanBit(ss[j].alloc.id) && ss[j].alloc.id !in ss[h].held
  {
    assert Enabled(ss[j], acts[j]) && Step(ss[j], acts[j]) == Ok(ss[j + 1]);
    ServedOrOver(ss, acts, n, i, j);
    ServesStep(ss[j], acts[j], n);
    var _ := FoundAt(ss, acts, n, i, j);
  }

  lemma {:induction false} FoundAt(ss: seq<State>, acts: seq<Action>, n: nat, i: nat, j: nat) returns (h: nat)
    requires IsRun(ss, acts) && Asks(acts, n, i, j) && ss[j].alloc.Claiming?
    ensures i < h < j && acts[h] == ScanBit(ss[j].alloc.id) && ss[j].alloc.id !in ss[h].held
  {
    var m := j - 1;
    assert Enabled(ss[m], acts[m]) && Step(ss[m], acts[m]) == Ok(ss[m + 1]);
    if ss[m].alloc.Claiming? { h := FoundAt(ss, acts, n, i, m); } else { h := m; }
  }

  /** The scan as it stands, with no bit changed since the request, ends where it would have from the start. */
  ghost predicate Scanned(s: State, used: seq<bool>, n: nat) {
    match s.alloc
    case NoOne => true
    case Scanning(cnt, i, j) =>
      && s.used == used && cnt == n && i + n <= |used| && j <= n
      && ScanFrom(used, n, i, j) == ScanFrom(used, n, 0, 0)
    case Claiming(id) =>
      n <= |used| && id in s.held && s.held[id].Marking? && ScanFrom(used, n, 0, 0) == Some(s.held[id].start)
  }

  lemma {:induction false} ScannedStep(s: State, a: Action, used: seq<bool>, n: nat)
    requires Scanned(s, used, n) && s.alloc != NoOne && Enabled(s, a) && Step(s, a).Ok? && (a.ScanBit? || a == MarkBit)
    ensures var s' := Step(s, a).s;
      && Scanned(s', used, n)
      && (a.ScanBit? && s'.alloc == NoOne ==> n <= |used| && ScanFrom(used, n, 0, 0) == None)
  {
  }

  ghost predicate Undisturbed(acts: seq<Action>, n: nat, i: nat, j: nat) {
    i < j < |acts| && acts[i] == Get(n) && forall k | i < k <= j :: acts[k].ScanBit? || acts[k] == MarkBit
  }

  lemma {:induction false} ScansOn(ss: seq<State>, acts: seq<Action>, n: nat, i: nat, j: nat)
    requires IsRun(ss, acts) && Undisturbed(acts, n, i, j)
    ensures ss[j].alloc != NoOne && Scanned(ss[j], ss[i].used, n)
  {
    var m := j - 1;
    assert Enabled(ss[j], acts[j]);
    assert Enabled(ss[m], acts[m]) && Step(ss[m], acts[m]) == Ok(ss[m + 1]);
    if i < m {
      ScansOn(ss, acts, n, i, m);
      ScannedStep(ss[m], acts[m], ss[i].used, n);
    }
  }

  /** With no other thread at work in between, the run given is the first fit for n pages in the map as it was, and
      none is given exactly if nothing fits. */
  lemma {:induction false} GivesFirstFit(ss: seq<State>, acts: seq<Action>, n: nat, i: nat, j: nat)
    requires IsRun(ss, acts) && Undisturbed(acts, n, i, j) && ss[j + 1].alloc == NoOne
    ensures if acts[j] == MarkBit
      then ss[j].alloc.Claiming? && ss[j].alloc.id in ss[j].held
        && FirstFit(ss[i].used, 0, n, false, Some(ss[j].held[ss[j].alloc.id].start))
      else Fails(ss[j], acts[j], ss[j + 1]) && FirstFit(ss[i].used, 0, n, false, None)
  {
    assert Enabled(ss[j], acts[j]) && Step(ss[j], acts[j]) == Ok(ss[j + 1]);
    ScansOn(ss, acts, n, i, j);
    ScannedStep(ss[j], acts[j], ss[i].used, n);
    ScanFindsFirstFit(ss[i].used, n, 0, 0);
  }

  /** A request that is not served changes nothing. */
  lemma {:induction false} GetRefused(s: State, n: nat)
    requires Enabled(s, Get(n))
    ensures Step(s, Get(n)).Ok?
    ensures Step(s, Get(n)).s.alloc == NoOne <==> n == 0 || n > |s.used|
    ensures Step(s, Get(n)).s.alloc == NoOne ==> Step(s, Get(n)).s == s
    ensures n > |s.used| ==> FirstFit(s.used, 0, n, false, None)
  {
  }

  // ----- a call of palloc_free_multiple

  /** The steps of the thread that frees run id among those from i on and before j */
  function FreeingSteps(acts: seq<Action>, id: nat, i: nat, j: nat): nat
    requires i <= j <= |acts|
  {
    if i == j then 0
    else FreeingSteps(acts, id, i, j - 1) + if acts[j - 1] == CheckBit(id) || acts[j - 1] == ResetBit(id) then 1 else 0
  }

  /** A run of n pages that is being freed, after c steps */
  function BeingFreed(start: nat, n: nat, c: nat): Holding {
    if c < n then Checking(start, n, c) else Resetting(start, n, c - n)
  }

  /** The next step of that thread checks a page, or gives one back; with the last one the run is gone. */
  ghost predicate FreesNext(s: State, a: Action, s': State, id: nat, start: nat, n: nat, c: nat) {
    if a == CheckBit(id) || a == ResetBit(id) then
      && (a == ResetBit(id) <==> c >= n)
      && (c >= n ==> start + c - n < |s.used| && s'.used == s.used[start + c - n := false])
      && (if c + 1 < 2 * n then id in s'.held && s'.held[id] == BeingFreed(start, n, c + 1) else id !in s'.held)
    else id in s'.held && s'.held[id] == BeingFreed(start, n, c)
  }

  lemma {:induction false} FreeStep(s: State, a: Action, id: nat, start: nat, n: nat, c: nat)
    requires Enabled(s, a) && Step(s, a).Ok? && id in s.held && s.held[id] == BeingFreed(start, n, c) && c < 2 * n
    requires s.alloc != Claiming(id)
    ensures FreesNext(s, a, Step(s, a).s, id, start, n, c)
  {
  }

  lemma {:induction false} NotClaimed(ss: seq<State>, acts: seq<Action>, id: nat, j: nat)
    requires IsRun(ss, acts) && Initial(ss[0]) && j < |ss| && id in ss[j].held && !ss[j].held[id].Marking?
    ensures ss[j].alloc != Claiming(id)
  {
    RunKeepsInv(ss, acts, j);
  }

  lemma {:induction false} FreeBegins(ss: seq<State>, acts: seq<Action>, id: nat, i: nat)
    requires IsRun(ss, acts) && Initial(ss[0]) && i < |acts| && acts[i] == Free(id)
    ensures id in ss[i].held && ss[i].held[id].cnt > 0
    ensures id in ss[i + 1].held && ss[i + 1].held[id] == BeingFreed(ss[i].held[id].start, ss[i].held[id].cnt, 0)
  {
    RunKeepsInv(ss, acts, i);
    assert Enabled(ss[i], acts[i]) && Step(ss[i], acts[i]) == Ok(ss[i + 1]);
    assert HoldingOk(ss[i].held[id], |ss[i].used|);
  }

  /** In every run: once a run of n pages is being freed, n steps check it and n more give its pages back, one by one
      from the first to the last; with the last of them it is gone. */
  lemma {:induction false} FreesAll(ss: seq<State>, acts: seq<Action>, id: nat, i: nat, j: nat)
    requires IsRun(ss, acts) && Initial(ss[0]) && i < j < |acts| && acts[i] == Free(id)
    requires FreeingSteps(acts, id, i, j) < 2 * ss[i].held[id].cnt
    ensures var h, c := ss[i].held[id], FreeingSteps(acts, id, i, j);
      && id in ss[j].held && ss[j].held[id] == BeingFreed(h.start, h.cnt, c)
      && FreesNext(ss[j], acts[j], ss[j + 1], id, h.start, h.cnt, c)
  {
    var m, h, c := j - 1, ss[i].held[id], FreeingSteps(acts, id, i, j);
    if i < m { FreesAll(ss, acts, id, i, m); } else { FreeBegins(ss, acts, id, i); }
    NotClaimed(ss, acts, id, j);
    assert Enabled(ss[j], acts[j]) && Step(ss[j], acts[j]) == Ok(ss[j + 1]);
    FreeStep(ss[j], acts[j], id, h.start, h.cnt, c);
  }

  // ----- addresses

  const FREE_START: nat := 0xc010_0000

  datatype Pool = Pool(base: nat, pageCnt: nat)

  /** bitmap_buf_size */
  function MapBytes(bitCnt: nat): nat { 8 + 4 * ((bitCnt + 31) / 32) }

  function MapPages(pageCnt: nat): nat { (MapBytes(pageCnt) + PGSIZE - 1) / PGSIZE }

  /** init_pool; none is the panic for lack of memory. */
  function InitPool(base: nat, pageCnt: nat): Option<Pool> {
    if MapPages(pageCnt) > pageCnt then None
      else Some(Pool(base + MapPages(pageCnt) * PGSIZE, pageCnt - MapPages(pageCnt)))
  }

  function UserPages(ramPages: nat, limit: nat): nat
    requires ramPages >= 256
  {
    var half := (ramPages - 256) / 2; if half > limit then limit else half
  }

  function KernelPool(ramPages: nat, limit: nat): Option<Pool>
    requires ramPages >= 256
  {
    InitPool(FREE_START, ramPages - 256 - UserPages(ramPages, limit))
  }

  function UserPool(ramPages: nat, limit: nat): Option<Pool>
    requires ramPages >= 256
  {
    InitPool(FREE_START + (ramPages - 256 - UserPages(ramPages, limit)) * PGSIZE, UserPages(ramPages, limit))
  }

  predicate PageFromPool(p: Pool, page: nat) {
    p.base / PGSIZE <= page / PGSIZE < p.base / PGSIZE + p.pageCnt
  }

  function PageAddr(p: Pool, i: nat): nat { p.base + PGSIZE * i }

  /** A pool made of the pages at an aligned address lies within them, behind its map. */
  lemma {:induction false} PoolInside(base: nat, pageCnt: nat)
    requires base % PGSIZE == 0 && InitPool(base, pageCnt).Some?
    ensures var p := InitPool(base, pageCnt).value;
      p.base % PGSIZE == 0 && base <= p.base && p.base + p.pageCnt * PGSIZE == base + pageCnt * PGSIZE
  {
  }

  lemma {:induction false} PageInPool(p: Pool, i: nat)
    requires p.base % PGSIZE == 0 && i < p.pageCnt
    ensures PageAddr(p, i) / PGSIZE - p.base / PGSIZE == i && PageAddr(p, i) % PGSIZE == 0
      && PageFromPool(p, PageAddr(p, i))
    ensures p.base <= PageAddr(p, i) && PageAddr(p, i) + PGSIZE <= p.base + p.pageCnt * PGSIZE
  {
  }

  lemma {:induction false} PageNotInPool(p: Pool, page: nat)
    requires p.base % PGSIZE == 0 && page % PGSIZE == 0 && (page < p.base || p.base + p.pageCnt * PGSIZE <= page)
    ensures !PageFromPool(p, page)
  {
  }

  /** palloc_free_multiple finds the pool and the index of every page that palloc_get_multiple can return:
      page i of either pool is recognised as its own and not the other's, and its number is i again. */
  lemma {:induction false} PoolOfPage(ramPages: nat, limit: nat, i: nat, user: bool)
    requires ramPages >= 256 && KernelPool(ramPages, limit).Some? && UserPool(ramPages, limit).Some?
    requires i < (if user then UserPool(ramPages, limit).value else KernelPool(ramPages, limit).value).pageCnt
    ensures var k, u := KernelPool(ramPages, limit).value, UserPool(ramPages, limit).value;
      var page := PageAddr(if user then u else k, i);
      && (PageFromPool(k, page) <==> !user) && (PageFromPool(u, page) <==> user)
      && page / PGSIZE - (if user then u else k).base / PGSIZE == i && page % PGSIZE == 0
      && FREE_START <= page && page + PGSIZE <= FREE_START + (ramPages - 256) * PGSIZE
  {
    var n, m := ramPages - 256 - UserPages(ramPages, limit), UserPages(ramPages, limit);
    var k, u := KernelPool(ramPages, limit).value, UserPool(ramPages, limit).value;
    PoolInside(FREE_START, n);
    PoolInside(FREE_START + n * PGSIZE, m);
    PageInPool(if user then u else k, i);
    PageNotInPool(if user then k else u, PageAddr(if user then u else k, i));
  }

  /** The two pools, each behind its map, share the memory from FREE_START on without a gap, the user pool having half
      of it or as much as the limit allows. */
  lemma {:induction false} PoolsShare(ramPages: nat, limit: nat)
    requires ramPages >= 256 && KernelPool(ramPages, limit).Some? && UserPool(ramPages, limit).Some?
    ensures var k, u, m := KernelPool(ramPages, limit).value, UserPool(ramPages, limit).value,
      UserPages(ramPages, limit);
      && k.base == FREE_START + MapPages(ramPages - 256 - m) * PGSIZE
      && k.base + k.pageCnt * PGSIZE + MapPages(m) * PGSIZE == u.base
      && u.base + u.pageCnt * PGSIZE == FREE_START + (ramPages - 256) * PGSIZE
      && (m == limit <= (ramPages - 256) / 2 || m == (ramPages - 256) / 2 <= limit)
  {
  }

  /** The map built for the pages left over fits into the pages set aside for it. */
  lemma {:induction false} MapFits(base: nat, pageCnt: nat)
    requires InitPool(base, pageCnt).Some?
    ensures MapBytes(InitPool(base, pageCnt).value.pageCnt) <= InitPool(base, pageCnt).value.base - base
    ensures InitPool(base, pageCnt).value.base - base < MapBytes(pageCnt) + PGSIZE
  {
  }
}
