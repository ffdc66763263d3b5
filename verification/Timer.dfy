/** The alarm clock (pintos/src/devices/timer.c): timer_sleep and the timer interrupt as an
    interleaving step system over any number of threads.

    Tick counts are unbounded integers; a sleep may be given zero or a negative number of ticks. */
module Timer {
  import opened MergeSort
  import opened Queues

  type Tid = nat

  /** Where a thread is in timer_sleep: not in it; wake-up time computed; on the wait list or already
      woken, at the loop test of sema_down; or blocked in sema_down. */
  datatype Pc = Awake | Computed | AtDown | Parked

  /** Per thread: the wake-up time and the value of timer_sema */
  datatype Sleeper = Sleeper(pc: Pc, wakeup: int, sema: nat)

  datatype State = State(ticks: int, waitList: seq<Tid>, threads: map<Tid, Sleeper>)

  datatype Action = Begin(t: Tid, n: int) | Enlist(t: Tid) | Down(t: Tid) | Interrupt

  function WakeupTime(ts: map<Tid, Sleeper>, t: Tid): int {
    if t in ts then ts[t].wakeup else 0
  }

  /** compare_threads_by_wakeup_time */
  function Earlier(ts: map<Tid, Sleeper>): (Tid, Tid) -> bool {
    (a: Tid, b: Tid) => WakeupTime(ts, a) < WakeupTime(ts, b)
  }

  /** sema_up on the timer semaphore of the thread at the front of the wait list, and its removal. */
  function WakeFront(s: State): State
    requires s.waitList != []
  {
    var t := s.waitList[0];
    var threads :=
      if t in s.threads then
        var x := s.threads[t];
        s.threads[t := x.(sema := x.sema + 1, pc := if x.pc == Parked then AtDown else x.pc)]
      else s.threads;
    s.(waitList := s.waitList[1..], threads := threads)
  }

  /** The loop of timer_interrupt: wakes threads from the front of the list until one is due later. */
  function WakeDue(s: State): State
    decreases |s.waitList|
  {
    if s.waitList == [] || s.ticks < WakeupTime(s.threads, s.waitList[0]) then s
    else WakeDue(WakeFront(s))
  }

  predicate Enabled(s: State, a: Action) {
    match a
    case Begin(t, _) => t in s.threads && s.threads[t].pc == Awake
    case Enlist(t) => t in s.threads && s.threads[t].pc == Computed
    case Down(t) => t in s.threads && s.threads[t].pc == AtDown
    case Interrupt => true
  }

  function Step(s: State, a: Action): State
    requires Enabled(s, a)
  {
    match a
    case Begin(t, n) => s.(threads := s.threads[t := s.threads[t].(pc := Computed, wakeup := s.ticks + n)])
    case Enlist(t) =>
      s.(waitList := InsertOrdered(Earlier(s.threads), s.waitList, t),
         threads := s.threads[t := s.threads[t].(pc := AtDown)])
    case Down(t) =>
      var x := s.threads[t];
      if x.sema > 0 then s.(threads := s.threads[t := x.(pc := Awake, sema := x.sema - 1)])
      else s.(threads := s.threads[t := x.(pc := Parked)])
    case Interrupt => WakeDue(s.(ticks := s.ticks + 1))
  }

  predicate Initial(s: State) {
    s.waitList == [] && forall t | t in s.threads :: s.threads[t].pc == Awake && s.threads[t].sema == 0
  }

  ghost predicate IsRun(ss: seq<State>, acts: seq<Action>) {
    && |ss| == |acts| + 1
    && forall i :: 0 <= i < |acts| ==> Enabled(ss[i], acts[i]) && Step(ss[i], acts[i]) == ss[i + 1]
  }

  /** timer_interrupt as it is written. */
  method TimerInterrupt(s0: State) returns (s: State)
    ensures s == WakeDue(s0.(ticks := s0.ticks + 1))
  {
    s := s0.(ticks := s0.ticks + 1);
    while s.waitList != []
      invariant WakeDue(s) == WakeDue(s0.(ticks := s0.ticks + 1))
      decreases |s.waitList|
    {
      if s.ticks < WakeupTime(s.threads, s.waitList[0]) {
        break;
      }
      s := WakeFront(s);
    }
  }

  // ----- the invariant

  /** A thread's semaphore has been incremented once if its call has left the list, otherwise not at
      all; a thread is blocked only while it is on the list; and nobody was woken early. */
  ghost predicate SleeperOk(s: State, t: Tid)
    requires t in s.threads
  {
    var x := s.threads[t];
    match x.pc
    case Awake => x.sema == 0 && t !in s.waitList
    case Computed => x.sema == 0 && t !in s.waitList
    case AtDown => if t in s.waitList then x.sema == 0 else x.sema == 1 && x.wakeup <= s.ticks
    case Parked => x.sema == 0 && t in s.waitList
  }

  ghost predicate ListOk(s: State) {
    && Distinct(s.waitList)
    && (forall t | t in s.waitList :: t in s.threads)
    && Sorted(Earlier(s.threads), s.waitList)
  }

  ghost predicate Inv(s: State) {
    ListOk(s) && forall t | t in s.threads :: SleeperOk(s, t)
  }

  lemma {:induction false} EarlierIsWeakOrder(ts: map<Tid, Sleeper>, S: set<Tid>)
    ensures StrictWeakOrder(Earlier(ts), S)
  {
  }

  /** Sortedness depends only on the wake-up times of the listed threads. */
  lemma {:induction false} SameTimesSorted(ts: map<Tid, Sleeper>, ts': map<Tid, Sleeper>, q: seq<Tid>)
    requires Sorted(Earlier(ts), q) && forall t | t in q :: WakeupTime(ts', t) == WakeupTime(ts, t)
    ensures Sorted(Earlier(ts'), q)
  {
    forall i | 0 < i < |q| ensures !Earlier(ts')(q[i], q[i - 1]) {
      assert !Earlier(ts)(q[i], q[i - 1]);
      assert q[i] in q && q[i - 1] in q;
    }
  }

  lemma {:induction false} InsertedAt(q: seq<Tid>, k: nat, x: Tid)
    requires Distinct(q) && x !in q && k <= |q|
    ensures Distinct(q[..k] + [x] + q[k..]) && forall u :: u in q[..k] + [x] + q[k..] <==> u in q || u == x
  {
    var r := q[..k] + [x] + q[k..];
    forall u | u in q ensures u in r {
      var i :| 0 <= i < |q| && q[i] == u;
      assert r[if i < k then i else i + 1] == u;
    }
    assert r[k] == x;
    forall i, j | 0 <= i < j < |r| ensures r[i] != r[j] {
      assert i < k ==> r[i] == q[i];
      assert i > k ==> r[i] == q[i - 1];
      assert j < k ==> r[j] == q[j];
      assert j > k ==> r[j] == q[j - 1];
    }
  }

  // ----- every step

  lemma {:induction false} BeginKeepsInv(s: State, t: Tid, n: int)
    requires Inv(s) && Enabled(s, Begin(t, n))
    ensures Inv(Step(s, Begin(t, n)))
  {
    var s' := Step(s, Begin(t, n));
    assert SleeperOk(s, t);
    SameTimesSorted(s.threads, s'.threads, s.waitList);
    forall u | u in s'.threads ensures SleeperOk(s', u) { assert SleeperOk(s, u); }
  }

  lemma {:induction false} EnlistKeepsInv(s: State, t: Tid)
    requires Inv(s) && Enabled(s, Enlist(t))
    ensures Inv(Step(s, Enlist(t)))
  {
    var s', less := Step(s, Enlist(t)), Earlier(s.threads);
    var S := s.threads.Keys;
    assert SleeperOk(s, t);
    InsertedAt(s.waitList, InsertionPoint(less, s.waitList, t), t);
    EarlierIsWeakOrder(s.threads, S);
    InsertOrderedSorted(less, S, s.waitList, t);
    SameTimesSorted(s.threads, s'.threads, s'.waitList);
    forall u | u in s'.threads ensures SleeperOk(s', u) { assert SleeperOk(s, u); }
  }

  lemma {:induction false} DownKeepsInv(s: State, t: Tid)
    requires Inv(s) && Enabled(s, Down(t))
    ensures Inv(Step(s, Down(t)))
  {
    var s' := Step(s, Down(t));
    assert SleeperOk(s, t);
    SameTimesSorted(s.threads, s'.threads, s.waitList);
    forall u | u in s'.threads ensures SleeperOk(s', u) { assert SleeperOk(s, u); }
  }

  lemma {:induction false} WakeFrontKeepsInv(s: State)
    requires Inv(s) && s.waitList != [] && WakeupTime(s.threads, s.waitList[0]) <= s.ticks
    ensures Inv(WakeFront(s))
  {
    var t, s' := s.waitList[0], WakeFront(s);
    Popped(s.waitList);
    assert SleeperOk(s, t);
    assert Sorted(Earlier(s.threads), s.waitList[1..]) by {
      assert forall i :: 0 < i < |s.waitList| - 1 ==>
        s.waitList[1..][i] == s.waitList[i + 1] && s.waitList[1..][i - 1] == s.waitList[i];
    }
    SameTimesSorted(s.threads, s'.threads, s'.waitList);
    forall u | u in s'.threads ensures SleeperOk(s', u) { assert SleeperOk(s, u); }
  }

  /** The interrupt's loop keeps the invariant and stops when everyone left on the list is due later. */
  lemma {:induction false} WakeDueKeepsInv(s: State)
    requires Inv(s)
    ensures Inv(WakeDue(s)) && WakeDue(s).ticks == s.ticks
    ensures forall t | t in WakeDue(s).waitList :: WakeupTime(WakeDue(s).threads, t) > s.ticks
    decreases |s.waitList|
  {
    if s.waitList == [] {
    } else if s.ticks < WakeupTime(s.threads, s.waitList[0]) {
      FrontIsEarliest(s);
    } else {
      WakeFrontKeepsInv(s);
      WakeDueKeepsInv(WakeFront(s));
    }
  }

  lemma {:induction false} FrontIsEarliest(s: State)
    requires ListOk(s) && s.waitList != []
    ensures forall t | t in s.waitList :: WakeupTime(s.threads, s.waitList[0]) <= WakeupTime(s.threads, t)
  {
    var S := s.threads.Keys;
    EarlierIsWeakOrder(s.threads, S);
    forall i | 0 <= i < |s.waitList|
      ensures WakeupTime(s.threads, s.waitList[0]) <= WakeupTime(s.threads, s.waitList[i])
    {
      assert forall j :: 0 <= j < |s.waitList| ==> s.waitList[j] in s.waitList;
      if i > 0 { SortedIsPairwise(Earlier(s.threads), S, s.waitList, 0, i); }
    }
  }

  lemma {:induction false} InterruptKeepsInv(s: State)
    requires Inv(s)
    ensures Inv(Step(s, Interrupt))
  {
    var s1 := s.(ticks := s.ticks + 1);
    forall u | u in s1.threads ensures SleeperOk(s1, u) { assert SleeperOk(s, u); }
    WakeDueKeepsInv(s1);
  }

  lemma {:induction false} StepKeepsInv(s: State, a: Action)
    requires Inv(s) && Enabled(s, a)
    ensures Inv(Step(s, a))
  {
    match a
    case Begin(t, n) => BeginKeepsInv(s, t, n);
    case Enlist(t) => EnlistKeepsInv(s, t);
    case Down(t) => DownKeepsInv(s, t);
    case Interrupt => InterruptKeepsInv(s);
  }

  // ----- what an interrupt does to each thread

  function Upped(x: Sleeper): Sleeper {
    x.(sema := x.sema + 1, pc := if x.pc == Parked then AtDown else x.pc)
  }

  /** An interrupt wakes exactly the listed threads whose wake-up time has come, each of them once, and
      changes nothing for the others; those not yet due stay on the list. */
  lemma {:induction false} WakesExactlyDue(s: State, t: Tid)
    requires Inv(s) && t in s.threads
    ensures t in WakeDue(s).threads
    ensures var due := t in s.waitList && s.threads[t].wakeup <= s.ticks;
      && WakeDue(s).threads[t] == (if due then Upped(s.threads[t]) else s.threads[t])
      && (t in WakeDue(s).waitList <==> t in s.waitList && !due)
    decreases |s.waitList|
  {
    if s.waitList == [] {
    } else if s.ticks < WakeupTime(s.threads, s.waitList[0]) {
      FrontIsEarliest(s);
    } else {
      WakeFrontKeepsInv(s);
      Popped(s.waitList);
      WakesExactlyDue(WakeFront(s), t);
    }
  }

  // ----- every run

  lemma {:induction false} RunKeepsInv(ss: seq<State>, acts: seq<Action>, i: nat)
    requires IsRun(ss, acts) && Initial(ss[0]) && i < |ss|
    ensures Inv(ss[i])
  {
    if i > 0 {
      RunKeepsInv(ss, acts, i - 1);
      StepKeepsInv(ss[i - 1], acts[i - 1]);
    }
  }

  ghost predicate NoneDue(s: State) {
    forall t | t in s.waitList :: t in s.threads && s.threads[t].wakeup > s.ticks
  }

  /** After every timer interrupt of a run, everyone still on the wait list is due at a later tick. */
  lemma {:induction false} InterruptLeavesNoneDue(ss: seq<State>, acts: seq<Action>, i: nat)
    requires IsRun(ss, acts) && Initial(ss[0]) && i < |acts| && acts[i] == Interrupt
    ensures NoneDue(ss[i + 1])
  {
    RunKeepsInv(ss, acts, i);
    var s1 := ss[i].(ticks := ss[i].ticks + 1);
    forall u | u in s1.threads ensures SleeperOk(s1, u) { assert SleeperOk(ss[i], u); }
    WakeDueKeepsInv(s1);
    RunKeepsInv(ss, acts, i + 1);
  }

  // ----- a call of timer_sleep, from its beginning to its return

  /** Step j begins a call of timer_sleep (n) by t, step e puts t on the wait list, and up to state i t begins no
      other call. */
  ghost predicate Calls(acts: seq<Action>, t: Tid, n: int, j: nat, e: nat, i: nat) {
    && j < e < i <= |acts| && acts[j] == Begin(t, n) && acts[e] == Enlist(t)
    && forall k | j < k < i && acts[k].Begin? :: acts[k].t != t
  }

  /** Between step e and state i there is a timer interrupt at tick w or later. */
  ghost predicate Rung(ss: seq<State>, acts: seq<Action>, w: int, e: nat, i: nat)
    requires i < |ss| == |acts| + 1
  {
    exists k: nat :: RingsAt(ss, acts, w, e, k, i)
  }

  ghost predicate RingsAt(ss: seq<State>, acts: seq<Action>, w: int, e: nat, k: nat, i: nat)
    requires i < |ss| == |acts| + 1
  {
    e < k < i && acts[k] == Interrupt && ss[k + 1].ticks >= w
  }

  /** Where a thread with wake-up time w is: on the list and perhaps parked until an interrupt has come at w or
      later; from then on off the list, with one up to take or already returned. */
  ghost predicate Asleep(s: State, t: Tid, w: int, rung: bool) {
    && t in s.threads && s.threads[t].wakeup == w
    && var x := s.threads[t];
    if rung then t !in s.waitList && ((x.pc == AtDown && x.sema == 1) || (x.pc == Awake && x.sema == 0))
    else t in s.waitList && (x.pc == AtDown || x.pc == Parked) && x.sema == 0
  }

  lemma {:induction false} AsleepStep(s: State, a: Action, t: Tid, w: int, rung: bool)
    requires Inv(s) && Enabled(s, a) && Asleep(s, t, w, rung) && !(a.Begin? && a.t == t)
    ensures Asleep(Step(s, a), t, w, rung || (a == Interrupt && Step(s, a).ticks >= w))
  {
    if a == Interrupt {
      var s1 := s.(ticks := s.ticks + 1);
      forall u | u in s1.threads ensures SleeperOk(s1, u) { assert SleeperOk(s, u); }
      WakesExactlyDue(s1, t);
      WakeDueKeepsInv(s1);
    } else if a.Enlist? {
      assert SleeperOk(s, a.t);
      InsertedAt(s.waitList, InsertionPoint(Earlier(s.threads), s.waitList, a.t), a.t);
    }
  }

  lemma {:induction false} RungNext(ss: seq<State>, acts: seq<Action>, w: int, e: nat, m: nat, i: nat)
    requires e < m && m + 1 == i < |ss| == |acts| + 1
    ensures Rung(ss, acts, w, e, i) <==> Rung(ss, acts, w, e, m) || (acts[m] == Interrupt && ss[i].ticks >= w)
  {
    if acts[m] == Interrupt && ss[i].ticks >= w {
      assert RingsAt(ss, acts, w, e, m, i);
    } else if Rung(ss, acts, w, e, m) {
      var k: nat :| RingsAt(ss, acts, w, e, k, m);
      assert RingsAt(ss, acts, w, e, k, i);
    } else if k: nat :| RingsAt(ss, acts, w, e, k, i) {
      assert RingsAt(ss, acts, w, e, k, m);
    }
  }

  lemma {:induction false} ComputedStep(s: State, a: Action, t: Tid)
    requires Inv(s) && Enabled(s, a) && t in s.threads && s.threads[t].pc == Computed && a != Enlist(t)
    ensures t in Step(s, a).threads && Step(s, a).threads[t] == s.threads[t]
  {
    assert SleeperOk(s, t);
    if a == Interrupt {
      var s1 := s.(ticks := s.ticks + 1);
      forall u | u in s1.threads ensures SleeperOk(s1, u) { assert SleeperOk(s, u); }
      WakesExactlyDue(s1, t);
    }
  }

  /** The wake-up time is set by the beginning of the call and stays. */
  lemma {:induction false} Awaits(ss: seq<State>, acts: seq<Action>, t: Tid, n: int, j: nat, e: nat)
    requires IsRun(ss, acts) && Initial(ss[0]) && j < e < |ss| && acts[j] == Begin(t, n)
    requires forall k | j < k < e :: acts[k] != Enlist(t)
    ensures t in ss[e].threads && ss[e].threads[t].pc == Computed && ss[e].threads[t].wakeup == ss[j].ticks + n
  {
    var m := e - 1;
    assert Enabled(ss[m], acts[m]) && Step(ss[m], acts[m]) == ss[m + 1];
    if j < m {
      Awaits(ss, acts, t, n, j, m);
      RunKeepsInv(ss, acts, m);
      ComputedStep(ss[m], acts[m], t);
    }
  }

  /** From the first step that puts t on the list */
  lemma {:induction false} Sleeps(ss: seq<State>, acts: seq<Action>, t: Tid, n: int, j: nat, e: nat, i: nat)
    requires IsRun(ss, acts) && Initial(ss[0]) && Calls(acts, t, n, j, e, i)
    requires forall k | j < k < e :: acts[k] != Enlist(t)
    ensures Asleep(ss[i], t, ss[j].ticks + n, Rung(ss, acts, ss[j].ticks + n, e, i))
  {
    var m, w := i - 1, ss[j].ticks + n;
    assert Enabled(ss[m], acts[m]) && Step(ss[m], acts[m]) == ss[m + 1];
    RunKeepsInv(ss, acts, m);
    if e < m {
      Sleeps(ss, acts, t, n, j, e, m);
      AsleepStep(ss[m], acts[m], t, w, Rung(ss, acts, w, e, m));
      RungNext(ss, acts, w, e, m, i);
    } else {
      Awaits(ss, acts, t, n, j, e);
      assert SleeperOk(ss[m], t);
      InsertedAt(ss[m].waitList, InsertionPoint(Earlier(ss[m].threads), ss[m].waitList, t), t);
    }
  }

  /** There is only one. */
  lemma {:induction false} EnlistsOnce(ss: seq<State>, acts: seq<Action>, t: Tid, n: int, j: nat, e: nat, i: nat,
        l: nat)
    requires IsRun(ss, acts) && Initial(ss[0]) && Calls(acts, t, n, j, e, i) && j < l <= e
    ensures forall k | j < k < l :: acts[k] != Enlist(t)
  {
    if j + 1 < l {
      EnlistsOnce(ss, acts, t, n, j, e, i, l - 1);
      assert Enabled(ss[e], acts[e]);
      if acts[l - 1] == Enlist(t) {
        Sleeps(ss, acts, t, n, j, l - 1, e);
        assert false;
      }
    }
  }

  /** In every run: a call of timer_sleep (n) that began at tick b is on the wait list until the first interrupt at
      tick b + n or later; and sema_down returns, taking the one up, exactly if that has come, and otherwise blocks. */
  lemma {:induction false} ReturnsOnceDue(ss: seq<State>, acts: seq<Action>, t: Tid, n: int, j: nat, e: nat, i: nat)
    requires IsRun(ss, acts) && Initial(ss[0]) && Calls(acts, t, n, j, e, i)
    ensures t in ss[i].waitList <==> !Rung(ss, acts, ss[j].ticks + n, e, i)
    ensures i < |acts| && acts[i] == Down(t) ==>
      var x, y := ss[i].threads[t], ss[i + 1].threads[t];
      if Rung(ss, acts, ss[j].ticks + n, e, i) then y.pc == Awake && x.sema == 1 && y.sema == 0
      else y.pc == Parked && x.sema == y.sema == 0
  {
    EnlistsOnce(ss, acts, t, n, j, e, i, e);
    Sleeps(ss, acts, t, n, j, e, i);
    if i < |acts| { assert Enabled(ss[i], acts[i]) && Step(ss[i], acts[i]) == ss[i + 1]; }
  }

  /** An interrupt ups a thread on the list, and unblocks it, exactly if that tick has come. */
  lemma {:induction false} UppedWhenDue(ss: seq<State>, acts: seq<Action>, t: Tid, n: int, j: nat, e: nat, i: nat)
    requires IsRun(ss, acts) && Initial(ss[0]) && Calls(acts, t, n, j, e, i)
    requires i < |acts| && acts[i] == Interrupt && t in ss[i].waitList
    ensures t in ss[i].threads && t in ss[i + 1].threads && ss[i].threads[t].sema == 0
    ensures if ss[i + 1].ticks >= ss[j].ticks + n
      then t !in ss[i + 1].waitList && ss[i + 1].threads[t].sema == 1 && ss[i + 1].threads[t].pc == AtDown
      else t in ss[i + 1].waitList && ss[i + 1].threads[t] == ss[i].threads[t]
  {
    var w := ss[j].ticks + n;
    ReturnsOnceDue(ss, acts, t, n, j, e, i);
    EnlistsOnce(ss, acts, t, n, j, e, i, e);
    Sleeps(ss, acts, t, n, j, e, i);
    RunKeepsInv(ss, acts, i);
    assert Step(ss[i], acts[i]) == ss[i + 1];
    var s1 := ss[i].(ticks := ss[i].ticks + 1);
    forall u | u in s1.threads ensures SleeperOk(s1, u) { assert SleeperOk(ss[i], u); }
    WakesExactlyDue(s1, t);
    WakeDueKeepsInv(s1);
  }

  /** So no call returns sooner than n ticks after its beginning. */
  lemma {:induction false} SleepsLongEnough(ss: seq<State>, acts: seq<Action>, t: Tid, n: int, j: nat, i: nat)
    requires IsRun(ss, acts) && Initial(ss[0]) && j < i < |acts| && acts[j] == Begin(t, n) && acts[i] == Down(t)
    requires forall k | j < k < i && acts[k].Begin? :: acts[k].t != t
    requires t in ss[i + 1].threads && ss[i + 1].threads[t].pc == Awake
    ensures ss[i].ticks >= ss[j].ticks + n
  {
    var w := ss[j].ticks + n;
    var e := EnlistsBefore(ss, acts, t, n, j, i);
    ReturnsOnceDue(ss, acts, t, n, j, e, i);
    var k: nat :| RingsAt(ss, acts, w, e, k, i);
    TicksGrow(ss, acts, k + 1, i);
  }

  lemma {:induction false} EnlistsBefore(ss: seq<State>, acts: seq<Action>, t: Tid, n: int, j: nat, i: nat)
    returns (e: nat)
    requires IsRun(ss, acts) && Initial(ss[0]) && j < i < |acts| && acts[j] == Begin(t, n) && acts[i] == Down(t)
    ensures j < e < i && acts[e] == Enlist(t)
  {
    assert Enabled(ss[i], acts[i]);
    if forall k | j < k < i :: acts[k] != Enlist(t) {
      Awaits(ss, acts, t, n, j, i);
      assert false;
    }
    e :| j < e < i && acts[e] == Enlist(t);
  }

  lemma {:induction false} TicksGrow(ss: seq<State>, acts: seq<Action>, k: nat, i: nat)
    requires IsRun(ss, acts) && Initial(ss[0]) && k <= i < |ss|
    ensures ss[k].ticks <= ss[i].ticks
  {
    TicksCount(ss, acts, k);
    TicksCount(ss, acts, i);
    InterruptsGrow(acts, k, i);
  }

  lemma {:induction false} InterruptsGrow(acts: seq<Action>, k: nat, i: nat)
    requires k <= i <= |acts|
    ensures Interrupts(acts, k) <= Interrupts(acts, i)
  {
    if k < i { InterruptsGrow(acts, k, i - 1); }
  }

  /** A call that is on its way to the list is not blocked and not upped. */
  lemma {:induction false} NotYetListed(ss: seq<State>, acts: seq<Action>, t: Tid, n: int, j: nat, i: nat)
    requires IsRun(ss, acts) && Initial(ss[0]) && j < i < |ss| && acts[j] == Begin(t, n)
    requires forall k | j < k < i :: acts[k] != Enlist(t)
    ensures t in ss[i].threads && Enabled(ss[i], Enlist(t)) && ss[i].threads[t].sema == 0 && t !in ss[i].waitList
  {
    Awaits(ss, acts, t, n, j, i);
    RunKeepsInv(ss, acts, i);
    assert SleeperOk(ss[i], t);
  }

  function Interrupts(acts: seq<Action>, i: nat): nat
    requires i <= |acts|
  {
    if i == 0 then 0 else Interrupts(acts, i - 1) + if acts[i - 1] == Interrupt then 1 else 0
  }

  /** Ticks count interrupts. */
  lemma {:induction false} TicksCount(ss: seq<State>, acts: seq<Action>, i: nat)
    requires IsRun(ss, acts) && Initial(ss[0]) && i < |ss|
    ensures ss[i].ticks == ss[0].ticks + Interrupts(acts, i)
  {
    if i > 0 {
      TicksCount(ss, acts, i - 1);
      var m := i - 1;
      RunKeepsInv(ss, acts, m);
      assert Enabled(ss[m], acts[m]) && Step(ss[m], acts[m]) == ss[m + 1];
      if acts[m] == Interrupt {
        var s1 := ss[m].(ticks := ss[m].ticks + 1);
        forall u | u in s1.threads ensures SleeperOk(s1, u) { assert SleeperOk(ss[m], u); }
        WakeDueKeepsInv(s1);
      }
    }
  }
}
