/** The thread scheduler and semaphores of the kernel (pintos/src/threads/thread.c and
    pintos/src/threads/synch.c) as an interleaving step system.

    The machine has one processor. Each section of code that runs with interrupts off is one step,
    and between two steps the running thread may be preempted. A step that fails one of the kernel's
    assertions ends in Panic. */
module Scheduler {
  import opened Queues

  type Tid = nat
  type SemaId = nat

  datatype Status = Running | Ready | Blocked | Dying

  datatype Sema = Sema(value: nat, waiters: seq<Tid>)

  /** The kernel's state. status holds every thread whose page is allocated. newborn are the threads
      that thread_create has set up but not yet unblocked; inDown are the threads inside the loop of
      sema_down, that is, parked on a semaphore or unblocked but not yet back at the loop's test.
      freed are the threads whose page has been freed. idleTid is the thread that thread_start
      creates to run idle(), and idleSet tells whether it has stored itself in idle_thread. tried is
      what sema_try_down returned last. */
  datatype Kernel = Kernel(
    status: map<Tid, Status>,
    current: Tid,
    ready: seq<Tid>,
    newborn: set<Tid>,
    inDown: map<Tid, SemaId>,
    semas: map<SemaId, Sema>,
    freed: set<Tid>,
    initial: Tid,
    idleTid: Tid,
    idleSet: bool,
    tried: bool)

  datatype Action =
    | Create(t: Tid) | Start(t: Tid)
    | InitSema(s: SemaId, v: nat) | Down(s: SemaId) | Retest | TryDown(s: SemaId) | Up(s: SemaId)
    | Yield | Exit | RegisterIdle | IdleBlock

  datatype Outcome = Ok(k: Kernel) | Panic

  predicate IsIdle(k: Kernel, t: Tid) { k.idleSet && t == k.idleTid }

  // ----- thread.c

  /** thread_unblock; its assertion requires a blocked thread. */
  function Unblock(k: Kernel, t: Tid): Outcome {
    if t in k.status && k.status[t] == Blocked then
      Ok(k.(status := k.status[t := Ready], ready := k.ready + [t]))
    else Panic
  }

  /** schedule and thread_schedule_tail: switches from the current thread, whose status has already
      been changed, to the front of the ready list, or to the idle thread if the list is empty. The
      new thread frees the page of a dying predecessor, except the initial thread's. */
  function Schedule(k: Kernel): Outcome
    requires k.current in k.status
  {
    if k.status[k.current] == Running || (k.ready == [] && !k.idleSet) then Panic
    else
      var next := if k.ready == [] then k.idleTid else k.ready[0];
      var rest := if k.ready == [] then [] else k.ready[1..];
      var k1 := k.(status := k.status[next := Running], ready := rest, current := next);
      if k.status[k.current] == Dying && k.current != k.initial then
        if k.current == next then Panic
        else Ok(k1.(status := k1.status - {k.current}, freed := k1.freed + {k.current}))
      else Ok(k1)
  }

  /** thread_block */
  function Block(k: Kernel): Outcome
    requires k.current in k.status
  {
    Schedule(k.(status := k.status[k.current := Blocked]))
  }

  /** thread_yield, called by the thread itself or on return from the timer interrupt */
  function YieldCpu(k: Kernel): Outcome
    requires k.current in k.status
  {
    var queue := if IsIdle(k, k.current) then k.ready else k.ready + [k.current];
    Schedule(k.(status := k.status[k.current := Ready], ready := queue))
  }

  /** thread_exit, from the point where it turns interrupts off */
  function ExitThread(k: Kernel): Outcome
    requires k.current in k.status
  {
    Schedule(k.(status := k.status[k.current := Dying]))
  }

  // ----- synch.c

  /** One pass through the loop of sema_down: takes the semaphore if its value is positive, otherwise
      joins the waiters and blocks. */
  function DownTest(k: Kernel, s: SemaId): Outcome
    requires k.current in k.status && s in k.semas
  {
    var m := k.semas[s];
    if m.value > 0 then
      Ok(k.(semas := k.semas[s := m.(value := m.value - 1)], inDown := k.inDown - {k.current}))
    else
      Block(k.(semas := k.semas[s := m.(waiters := m.waiters + [k.current])], inDown := k.inDown[k.current := s]))
  }

  function TryDownTest(k: Kernel, s: SemaId): Kernel
    requires s in k.semas
  {
    var m := k.semas[s];
    if m.value > 0 then k.(semas := k.semas[s := m.(value := m.value - 1)], tried := true) else k.(tried := false)
  }

  /** sema_up: unblocks the longest waiter, if any, and increments the value. */
  function UpSema(k: Kernel, s: SemaId): Outcome
    requires s in k.semas
  {
    var m := k.semas[s];
    var m' := m.(value := m.value + 1);
    if m.waiters == [] then Ok(k.(semas := k.semas[s := m']))
    else Unblock(k.(semas := k.semas[s := m'.(waiters := m.waiters[1..])]), m.waiters[0])
  }

  // ----- the step system

  /** Which steps the programs can take: a thread that was unblocked in sema_down goes straight back
      to the loop's test, the idle thread runs nothing but idle(), and new threads and semaphores get
      unused names. */
  predicate Enabled(k: Kernel, a: Action) {
    && k.current in k.status
    && (k.current in k.inDown <==> a.Retest?)
    && (k.current == k.idleTid ==> a.Up? || a.Yield? || a.InitSema? || a.RegisterIdle? || a.IdleBlock?)
    && match a {
      case Create(t) => t !in k.status && t !in k.freed
      case Start(t) => t in k.newborn
      case InitSema(s, _) => s !in k.semas
      case Down(s) => s in k.semas
      case Retest => k.inDown[k.current] in k.semas
      case TryDown(s) => s in k.semas
      case Up(s) => s in k.semas
      case RegisterIdle => k.current == k.idleTid && !k.idleSet
      case IdleBlock => IsIdle(k, k.current)
      case _ => true
    }
  }

  function Step(k: Kernel, a: Action): Outcome
    requires Enabled(k, a)
  {
    match a
    case Create(t) => Ok(k.(status := k.status[t := Blocked], newborn := k.newborn + {t}))
    case Start(t) => Unblock(k.(newborn := k.newborn - {t}), t)
    case InitSema(s, v) => Ok(k.(semas := k.semas[s := Sema(v, [])]))
    case Down(s) => DownTest(k, s)
    case Retest => DownTest(k, k.inDown[k.current])
    case TryDown(s) => Ok(TryDownTest(k, s))
    case Up(s) => UpSema(k, s)
    case Yield => YieldCpu(k)
    case Exit => ExitThread(k)
    case RegisterIdle => Ok(k.(idleSet := true))
    case IdleBlock => Block(k)
  }

  /** The state in which thread_start turns interrupts on: the initial thread runs, and the thread it
      created for idle() is on the ready list. */
  function Boot(main: Tid, idle: Tid): Kernel {
    Kernel(map[main := Running, idle := Ready], main, [idle], {}, map[], map[], {}, main, idle, false, false)
  }

  /** The states of a run: each action is enabled and leads to the next state without a panic. */
  ghost predicate IsRun(ks: seq<Kernel>, acts: seq<Action>) {
    && |ks| == |acts| + 1
    && forall i :: 0 <= i < |acts| ==> Enabled(ks[i], acts[i]) && Step(ks[i], acts[i]) == Ok(ks[i + 1])
  }

  // ----- the invariant

  /** Threads on semaphore s that have been unblocked but have not yet retested its value. */
  ghost function Woken(k: Kernel, s: SemaId): set<Tid> {
    set t | t in k.inDown && k.inDown[t] == s && t in k.status && k.status[t] != Blocked
  }

  /** At most the current thread runs; while a thread switch is under way, none does. */
  ghost predicate OneRuns(k: Kernel, running: bool) {
    && k.current in k.status
    && forall t | t in k.status :: k.status[t] == Running <==> running && t == k.current
  }

  /** The ready list holds exactly the ready threads other than the idle thread, once each. */
  ghost predicate ReadyListed(k: Kernel) {
    && Distinct(k.ready)
    && forall t :: t in k.ready <==> t in k.status && k.status[t] == Ready && !IsIdle(k, t)
  }

  /** A semaphore's list holds exactly the threads that are blocked in its sema_down, once each. */
  ghost predicate WaitersListed(k: Kernel, s: SemaId)
    requires s in k.semas
  {
    && Distinct(k.semas[s].waiters)
    && forall t :: t in k.semas[s].waiters <==>
         t in k.inDown && k.inDown[t] == s && t in k.status && k.status[t] == Blocked
  }

  ghost predicate SemaLaw(k: Kernel, s: SemaId)
    requires s in k.semas
  {
    k.semas[s].waiters != [] ==> k.semas[s].value <= |Woken(k, s)|
  }

  ghost predicate SemasOk(k: Kernel) {
    forall s | s in k.semas :: WaitersListed(k, s) && SemaLaw(k, s)
  }

  /** Where threads can be: nothing blocked is lost, no thread but the initial one and gone stays
      dying, and the idle thread is always available. The page of the initial thread is not freed. */
  ghost predicate Accounted(k: Kernel, gone: Tid) {
    && (forall t | t in k.inDown ::
      t in k.status && k.inDown[t] in k.semas && t != k.idleTid && t !in k.newborn && k.status[t] != Dying)
    && (forall t | t in k.newborn :: t in k.status && k.status[t] == Blocked && t != k.idleTid)
    && (forall t | t in k.status && k.status[t] == Blocked :: t in k.newborn || t in k.inDown || IsIdle(k, t))
    && (forall t | t in k.status && k.status[t] == Dying :: t == k.initial || t == gone)
    && k.idleTid in k.status && k.status[k.idleTid] != Dying
    && k.freed !! k.status.Keys && k.initial !in k.freed
  }

  ghost predicate ListsOk(k: Kernel, running: bool, gone: Tid) {
    OneRuns(k, running) && ReadyListed(k) && Accounted(k, gone)
  }

  ghost predicate Inv(k: Kernel) {
    ListsOk(k, true, k.initial) && SemasOk(k)
  }

  /** The invariant between the moment a thread gives up the processor and the thread switch. */
  ghost predicate Switching(k: Kernel) {
    ListsOk(k, false, k.current) && SemasOk(k)
  }

  // ----- the thread switch

  ghost function NextThread(k: Kernel): Tid {
    if k.ready == [] then k.idleTid else k.ready[0]
  }

  ghost function Switched(k: Kernel): Kernel {
    k.(status := k.status[NextThread(k) := Running], ready := if k.ready == [] then [] else k.ready[1..],
      current := NextThread(k))
  }

  /** There is always a thread to switch to, and it is neither running nor dying. */
  lemma {:induction false} NextIsAvailable(k: Kernel)
    requires ListsOk(k, false, k.current)
    ensures k.ready != [] || k.idleSet
    ensures NextThread(k) in k.status && k.status[NextThread(k)] !in {Running, Dying}
    ensures k.status[NextThread(k)] == Blocked ==> IsIdle(k, NextThread(k))
  {
    if k.ready != [] {
      assert k.ready[0] in k.ready;
    } else {
      assert k.idleTid !in k.ready;
    }
  }

  lemma {:induction false} SwitchKeepsReady(k: Kernel)
    requires ListsOk(k, false, k.current)
    ensures OneRuns(Switched(k), true) && ReadyListed(Switched(k))
  {
    NextIsAvailable(k);
    if k.ready != [] {
      Popped(k.ready);
    }
  }

  lemma {:induction false} SwitchKeepsAccounted(k: Kernel)
    requires ListsOk(k, false, k.current)
    ensures Accounted(Switched(k), k.current)
  {
    NextIsAvailable(k);
  }

  lemma {:induction false} SwitchKeepsSema(k: Kernel, s: SemaId)
    requires ListsOk(k, false, k.current)
    requires s in k.semas && WaitersListed(k, s) && SemaLaw(k, s)
    ensures WaitersListed(Switched(k), s) && SemaLaw(Switched(k), s)
  {
    NextIsAvailable(k);
    assert Woken(Switched(k), s) == Woken(k, s);
  }

  ghost function Reaped(k: Kernel, t: Tid): Kernel {
    k.(status := k.status - {t}, freed := k.freed + {t})
  }

  /** Freeing the page of a dying thread that is not running concerns no list and no semaphore. */
  lemma {:induction false} ReapKeepsLists(k: Kernel, t: Tid)
    requires ListsOk(k, true, t)
    requires t in k.status && k.status[t] == Dying && t != k.initial
    ensures ListsOk(Reaped(k, t), true, k.initial)
  {
  }

  lemma {:induction false} ReapKeepsSema(k: Kernel, t: Tid, s: SemaId)
    requires Accounted(k, t) && t in k.status && k.status[t] == Dying
    requires s in k.semas && WaitersListed(k, s) && SemaLaw(k, s)
    ensures WaitersListed(Reaped(k, t), s) && SemaLaw(Reaped(k, t), s)
  {
    assert Woken(Reaped(k, t), s) == Woken(k, s);
  }

  /** A thread switch re-establishes the invariant without a panic, and a dying thread's page is
      freed by another thread. */
  lemma {:induction false} ScheduleKeepsInv(k: Kernel)
    requires Switching(k)
    ensures Schedule(k).Ok? && Inv(Schedule(k).k)
    ensures k.status[k.current] == Dying ==> Schedule(k).k.current != k.current
  {
    NextIsAvailable(k);
    SwitchKeepsReady(k);
    SwitchKeepsAccounted(k);
    forall s | s in k.semas ensures WaitersListed(Switched(k), s) && SemaLaw(Switched(k), s) {
      SwitchKeepsSema(k, s);
    }
    if k.status[k.current] == Dying && k.current != k.initial {
      ReapKeepsLists(Switched(k), k.current);
      forall s | s in k.semas
        ensures WaitersListed(Reaped(Switched(k), k.current), s) && SemaLaw(Reaped(Switched(k), k.current), s) {
        ReapKeepsSema(Switched(k), k.current, s);
      }
      assert Schedule(k) == Ok(Reaped(Switched(k), k.current));
    } else {
      assert Schedule(k) == Ok(Switched(k));
    }
  }

  // ----- giving up the processor

  ghost function WithStatus(k: Kernel, t: Tid, st: Status): Kernel {
    k.(status := k.status[t := st])
  }

  /** A semaphore is not affected by what happens to threads that are not in its sema_down. */
  lemma {:induction false} StatusOfOther(k: Kernel, k': Kernel, s: SemaId)
    requires s in k.semas && WaitersListed(k, s) && SemaLaw(k, s)
    requires s in k'.semas && k'.semas[s] == k.semas[s]
    requires forall t :: t in k'.inDown && k'.inDown[t] == s <==> t in k.inDown && k.inDown[t] == s
    requires forall t | t in k.inDown && k.inDown[t] == s ::
      (t in k'.status <==> t in k.status) && (t in k.status ==> (k'.status[t] == Blocked <==> k.status[t] == Blocked))
    ensures WaitersListed(k', s) && SemaLaw(k', s)
  {
    assert Woken(k', s) == Woken(k, s);
  }

  lemma {:induction false} OthersOk(k: Kernel, k': Kernel)
    requires SemasOk(k) && k'.semas == k.semas && k'.inDown == k.inDown
    requires forall t | t in k.inDown ::
      (t in k'.status <==> t in k.status) && (t in k.status ==> (k'.status[t] == Blocked <==> k.status[t] == Blocked))
    ensures SemasOk(k')
  {
    forall s | s in k.semas ensures WaitersListed(k', s) && SemaLaw(k', s) {
      StatusOfOther(k, k', s);
    }
  }

  ghost function Yielded(k: Kernel): Kernel {
    k.(status := k.status[k.current := Ready], ready := if IsIdle(k, k.current) then k.ready else k.ready + [k.current])
  }

  lemma {:induction false} YieldLists(k: Kernel)
    requires ListsOk(k, true, k.initial)
    ensures ListsOk(Yielded(k), false, k.current)
  {
    Pushed(k.ready, k.current);
  }

  lemma {:induction false} YieldKeepsInv(k: Kernel)
    requires Inv(k) && k.current !in k.inDown
    ensures YieldCpu(k).Ok? && Inv(YieldCpu(k).k)
  {
    YieldLists(k);
    OthersOk(k, Yielded(k));
    ScheduleKeepsInv(Yielded(k));
  }

  lemma {:induction false} ExitLists(k: Kernel)
    requires ListsOk(k, true, k.initial) && k.current !in k.inDown && k.current != k.idleTid
    ensures ListsOk(WithStatus(k, k.current, Dying), false, k.current)
  {
  }

  lemma {:induction false} ExitKeepsInv(k: Kernel)
    requires Inv(k) && k.current !in k.inDown && k.current != k.idleTid
    ensures ExitThread(k).Ok? && Inv(ExitThread(k).k) && ExitThread(k).k.current != k.current
  {
    ExitLists(k);
    OthersOk(k, WithStatus(k, k.current, Dying));
    ScheduleKeepsInv(WithStatus(k, k.current, Dying));
  }

  lemma {:induction false} IdleBlockLists(k: Kernel)
    requires ListsOk(k, true, k.initial) && IsIdle(k, k.current)
    ensures ListsOk(WithStatus(k, k.current, Blocked), false, k.current)
  {
  }

  lemma {:induction false} IdleBlockKeepsInv(k: Kernel)
    requires Inv(k) && IsIdle(k, k.current)
    ensures Block(k).Ok? && Inv(Block(k).k)
  {
    IdleBlockLists(k);
    OthersOk(k, WithStatus(k, k.current, Blocked));
    ScheduleKeepsInv(WithStatus(k, k.current, Blocked));
  }

  // ----- sema_down

  ghost function Parked(k: Kernel, s: SemaId): Kernel
    requires s in k.semas
  {
    var m := k.semas[s];
    k.(status := k.status[k.current := Blocked], semas := k.semas[s := m.(waiters := m.waiters + [k.current])],
       inDown := k.inDown[k.current := s])
  }

  lemma {:induction false} ParkLists(k: Kernel, s: SemaId)
    requires ListsOk(k, true, k.initial) && s in k.semas && k.current != k.idleTid
    ensures ListsOk(Parked(k, s), false, k.current)
  {
  }

  lemma {:induction false} ParkSema(k: Kernel, s: SemaId, r: SemaId)
    requires OneRuns(k, true) && s in k.semas && k.semas[s].value == 0
    requires k.current in k.inDown ==> k.inDown[k.current] == s
    requires r in k.semas && WaitersListed(k, r) && SemaLaw(k, r)
    ensures WaitersListed(Parked(k, s), r) && SemaLaw(Parked(k, s), r)
  {
    if r == s {
      Pushed(k.semas[s].waiters, k.current);
    } else {
      StatusOfOther(k, Parked(k, s), r);
    }
  }

  lemma {:induction false} ParkSwitches(k: Kernel, s: SemaId)
    requires Inv(k) && s in k.semas && k.semas[s].value == 0 && k.current != k.idleTid
    requires k.current in k.inDown ==> k.inDown[k.current] == s
    ensures Switching(Parked(k, s))
  {
    ParkLists(k, s);
    forall r | r in k.semas ensures WaitersListed(Parked(k, s), r) && SemaLaw(Parked(k, s), r) {
      ParkSema(k, s, r);
    }
  }

  ghost function Taken(k: Kernel, s: SemaId): Kernel
    requires s in k.semas && k.semas[s].value > 0
  {
    var m := k.semas[s];
    k.(semas := k.semas[s := m.(value := m.value - 1)], inDown := k.inDown - {k.current})
  }

  lemma {:induction false} TakeLists(k: Kernel, s: SemaId)
    requires ListsOk(k, true, k.initial) && s in k.semas && k.semas[s].value > 0
    ensures ListsOk(Taken(k, s), true, k.initial)
  {
  }

  lemma {:induction false} TakeSema(k: Kernel, s: SemaId, r: SemaId)
    requires OneRuns(k, true) && s in k.semas && k.semas[s].value > 0
    requires k.current in k.inDown ==> k.inDown[k.current] == s
    requires r in k.semas && WaitersListed(k, r) && SemaLaw(k, r)
    ensures WaitersListed(Taken(k, s), r) && SemaLaw(Taken(k, s), r)
  {
    assert Woken(Taken(k, s), r) == Woken(k, r) - {k.current};
    if r != s {
      assert k.current !in Woken(k, r);
    }
  }

  lemma {:induction false} TakeKeepsInv(k: Kernel, s: SemaId)
    requires Inv(k) && s in k.semas && k.semas[s].value > 0
    requires k.current in k.inDown ==> k.inDown[k.current] == s
    ensures Inv(Taken(k, s))
  {
    TakeLists(k, s);
    forall r | r in k.semas ensures WaitersListed(Taken(k, s), r) && SemaLaw(Taken(k, s), r) {
      TakeSema(k, s, r);
    }
  }

  lemma {:induction false} TryDownKeepsInv(k: Kernel, s: SemaId)
    requires Inv(k) && s in k.semas && k.current !in k.inDown
    ensures Inv(TryDownTest(k, s))
  {
    if k.semas[s].value > 0 {
      TakeKeepsInv(k, s);
      assert k.inDown - {k.current} == k.inDown;
      TriedKeepsInv(Taken(k, s), true);
    } else {
      TriedKeepsInv(k, false);
    }
  }

  lemma {:induction false} TriedKeepsInv(k: Kernel, tried: bool)
    requires Inv(k)
    ensures Inv(k.(tried := tried))
  {
    OthersOk(k, k.(tried := tried));
  }

  lemma {:induction false} DownKeepsInv(k: Kernel, s: SemaId)
    requires Inv(k) && s in k.semas && k.current != k.idleTid
    requires k.current in k.inDown ==> k.inDown[k.current] == s
    ensures DownTest(k, s).Ok? && Inv(DownTest(k, s).k)
  {
    if k.semas[s].value > 0 {
      TakeKeepsInv(k, s);
    } else {
      ParkSwitches(k, s);
      ScheduleKeepsInv(Parked(k, s));
      assert DownTest(k, s) == Schedule(Parked(k, s));
    }
  }

  // ----- sema_up

  ghost function Upped(k: Kernel, s: SemaId): Kernel
    requires s in k.semas
  {
    var m := k.semas[s];
    k.(semas := k.semas[s := m.(value := m.value + 1)])
  }

  ghost function UppedWaking(k: Kernel, s: SemaId): Kernel
    requires s in k.semas && k.semas[s].waiters != []
  {
    var m := k.semas[s];
    var w := m.waiters[0];
    k.(semas := k.semas[s := m.(value := m.value + 1, waiters := m.waiters[1..])],
       status := k.status[w := Ready], ready := k.ready + [w])
  }

  lemma {:induction false} UpKeepsInv(k: Kernel, s: SemaId)
    requires Inv(k) && s in k.semas && k.semas[s].waiters == []
    ensures Inv(Upped(k, s))
  {
    var k' := Upped(k, s);
    forall r | r in k.semas ensures WaitersListed(k', r) && SemaLaw(k', r) {
      assert WaitersListed(k, r) && SemaLaw(k, r);
      assert Woken(k', r) == Woken(k, r);
    }
  }

  lemma {:induction false} WakeLists(k: Kernel, s: SemaId)
    requires ListsOk(k, true, k.initial) && s in k.semas && k.semas[s].waiters != [] && WaitersListed(k, s)
    ensures k.semas[s].waiters[0] in k.status && k.status[k.semas[s].waiters[0]] == Blocked
    ensures ListsOk(UppedWaking(k, s), true, k.initial)
  {
    assert k.semas[s].waiters[0] in k.semas[s].waiters;
    Pushed(k.ready, k.semas[s].waiters[0]);
  }

  lemma {:induction false} WakeSema(k: Kernel, s: SemaId, r: SemaId)
    requires s in k.semas && k.semas[s].waiters != [] && WaitersListed(k, s)
    requires r in k.semas && WaitersListed(k, r) && SemaLaw(k, r)
    ensures WaitersListed(UppedWaking(k, s), r) && SemaLaw(UppedWaking(k, s), r)
  {
    var w := k.semas[s].waiters[0];
    assert w in k.semas[s].waiters;
    if r == s {
      Popped(k.semas[s].waiters);
      assert Woken(UppedWaking(k, s), s) == Woken(k, s) + {w};
    } else {
      StatusOfOther(k, UppedWaking(k, s), r);
    }
  }

  lemma {:induction false} UpSemaKeepsInv(k: Kernel, s: SemaId)
    requires Inv(k) && s in k.semas
    ensures UpSema(k, s).Ok? && Inv(UpSema(k, s).k)
  {
    if k.semas[s].waiters == [] {
      UpKeepsInv(k, s);
    } else {
      WakeLists(k, s);
      forall r | r in k.semas ensures WaitersListed(UppedWaking(k, s), r) && SemaLaw(UppedWaking(k, s), r) {
        WakeSema(k, s, r);
      }
    }
  }

  // ----- the remaining steps

  ghost function Started(k: Kernel, t: Tid): Kernel {
    k.(newborn := k.newborn - {t}, status := k.status[t := Ready], ready := k.ready + [t])
  }

  lemma {:induction false} StartLists(k: Kernel, t: Tid)
    requires ListsOk(k, true, k.initial) && t in k.newborn
    ensures ListsOk(Started(k, t), true, k.initial)
  {
    Pushed(k.ready, t);
  }

  lemma {:induction false} StartKeepsInv(k: Kernel, t: Tid)
    requires Inv(k) && t in k.newborn
    ensures Inv(Started(k, t))
  {
    StartLists(k, t);
    OthersOk(k, Started(k, t));
  }

  ghost function Created(k: Kernel, t: Tid): Kernel {
    k.(status := k.status[t := Blocked], newborn := k.newborn + {t})
  }

  lemma {:induction false} CreateLists(k: Kernel, t: Tid)
    requires ListsOk(k, true, k.initial) && t !in k.status && t !in k.freed
    ensures ListsOk(Created(k, t), true, k.initial)
  {
  }

  lemma {:induction false} CreateKeepsInv(k: Kernel, t: Tid)
    requires Inv(k) && t !in k.status && t !in k.freed
    ensures Inv(Created(k, t))
  {
    CreateLists(k, t);
    OthersOk(k, Created(k, t));
  }

  lemma {:induction false} InitSemaKeepsInv(k: Kernel, s: SemaId, v: nat)
    requires Inv(k) && s !in k.semas
    ensures Inv(k.(semas := k.semas[s := Sema(v, [])]))
  {
    var k' := k.(semas := k.semas[s := Sema(v, [])]);
    forall r | r in k'.semas ensures WaitersListed(k', r) && SemaLaw(k', r) {
      if r != s {
        StatusOfOther(k, k', r);
      }
    }
  }

  lemma {:induction false} RegisterKeepsInv(k: Kernel)
    requires Inv(k) && k.current == k.idleTid
    ensures Inv(k.(idleSet := true))
  {
    OthersOk(k, k.(idleSet := true));
  }

  // ----- every step, every run

  /** Every step that the programs can take ends without a panic in a state with the invariant. */
  lemma {:induction false} StepKeepsInv(k: Kernel, a: Action)
    requires Inv(k) && Enabled(k, a)
    ensures Step(k, a).Ok? && Inv(Step(k, a).k)
  {
    match a
    case Create(t) => CreateKeepsInv(k, t);
    case Start(t) => StartKeepsInv(k, t);
    case InitSema(s, v) => InitSemaKeepsInv(k, s, v);
    case Down(s) => DownKeepsInv(k, s);
    case Retest => DownKeepsInv(k, k.inDown[k.current]);
    case TryDown(s) => TryDownKeepsInv(k, s);
    case Up(s) => UpSemaKeepsInv(k, s);
    case Yield => YieldKeepsInv(k);
    case Exit => ExitKeepsInv(k);
    case RegisterIdle => RegisterKeepsInv(k);
    case IdleBlock => IdleBlockKeepsInv(k);
  }

  lemma {:induction false} BootHasInv(main: Tid, idle: Tid)
    requires main != idle
    ensures Inv(Boot(main, idle))
  {
    assert Boot(main, idle).ready[0] == idle;
  }

  /** In every state of every run that starts at boot the invariant holds. */
  lemma {:induction false} RunKeepsInv(ks: seq<Kernel>, acts: seq<Action>, i: nat)
    requires IsRun(ks, acts) && Inv(ks[0]) && i < |ks|
    ensures Inv(ks[i])
  {
    if i > 0 {
      RunKeepsInv(ks, acts, i - 1);
      StepKeepsInv(ks[i - 1], acts[i - 1]);
    }
  }

  /** What the invariant says of every reachable state: one thread runs; a thread's list element is
      on at most one list; whoever is on a semaphore's list is blocked, whoever is on the ready list
      is ready; and with threads still parked, a semaphore's value is covered by unblocked threads
      that have yet to retest it, so that no wake-up is lost. */
  lemma {:induction false} ReachableStates(ks: seq<Kernel>, acts: seq<Action>, i: nat, main: Tid, idle: Tid)
    requires main != idle && IsRun(ks, acts) && ks[0] == Boot(main, idle) && i < |ks|
    ensures forall t :: t in ks[i].status && ks[i].status[t] == Running <==> t == ks[i].current
    ensures forall t :: t in ks[i].ready <==> t in ks[i].status && ks[i].status[t] == Ready && !IsIdle(ks[i], t)
    ensures Distinct(ks[i].ready)
    ensures forall s, t | s in ks[i].semas && t in ks[i].semas[s].waiters ::
      t in ks[i].status && ks[i].status[t] == Blocked && t !in ks[i].ready
    ensures forall s, r, t | s in ks[i].semas && r in ks[i].semas && t in ks[i].semas[s].waiters
      && t in ks[i].semas[r].waiters :: s == r
    ensures forall s | s in ks[i].semas :: var m := ks[i].semas[s];
      && Distinct(m.waiters)
      && (m.waiters != [] ==> m.value <= |Woken(ks[i], s)|)
      && (m.waiters != [] && Woken(ks[i], s) == {} ==> m.value == 0)
  {
    BootHasInv(main, idle);
    RunKeepsInv(ks, acts, i);
    forall s, t | s in ks[i].semas && t in ks[i].semas[s].waiters
      ensures t in ks[i].status && ks[i].status[t] == Blocked && t in ks[i].inDown && ks[i].inDown[t] == s
    {
      assert WaitersListed(ks[i], s);
    }
    forall s | s in ks[i].semas
      ensures var m := ks[i].semas[s];
        Distinct(m.waiters) && (m.waiters != [] ==> m.value <= |Woken(ks[i], s)|)
    {
      assert WaitersListed(ks[i], s) && SemaLaw(ks[i], s);
    }
  }

  // ----- thread pages

  lemma {:induction false} ScheduleFrees(k: Kernel)
    requires k.current in k.status && Schedule(k).Ok?
    ensures var k' := Schedule(k).k;
      k'.freed == k.freed
        || (k'.freed == k.freed + {k.current} && k.status[k.current] == Dying && k'.current != k.current)
  {
  }

  /** A page is freed only in the step in which its thread exits, and by the thread that runs next. */
  lemma {:induction false} StepFrees(k: Kernel, a: Action)
    requires Enabled(k, a) && Step(k, a).Ok? && k.freed !! k.status.Keys
    ensures var k' := Step(k, a).k;
      k'.freed == k.freed
        || (a == Exit && k.current !in k.freed && k'.freed == k.freed + {k.current} && k'.current != k.current)
  {
    match a
    case Down(s) => DownFreesNothing(k, s);
    case Retest => DownFreesNothing(k, k.inDown[k.current]);
    case Yield => ScheduleFrees(Yielded(k));
    case Exit => ScheduleFrees(WithStatus(k, k.current, Dying));
    case IdleBlock => ScheduleFrees(WithStatus(k, k.current, Blocked));
    case _ =>
  }

  lemma {:induction false} DownFreesNothing(k: Kernel, s: SemaId)
    requires k.current in k.status && s in k.semas && DownTest(k, s).Ok?
    ensures DownTest(k, s).k.freed == k.freed
  {
    if k.semas[s].value == 0 {
      ScheduleFrees(Parked(k, s));
    }
  }

  lemma {:induction false} FreedStays(k: Kernel, a: Action)
    requires Inv(k) && Enabled(k, a) && Step(k, a).Ok?
    ensures k.freed <= Step(k, a).k.freed
  {
    FreedGone(k);
    StepFrees(k, a);
  }

  lemma {:induction false} FreedGone(k: Kernel)
    requires Inv(k)
    ensures k.freed !! k.status.Keys
  {
  }

  ghost predicate FreedGrows(k: Kernel, k': Kernel) { k.freed <= k'.freed }

  lemma {:induction false} RunFreed(ks: seq<Kernel>, acts: seq<Action>, i: nat)
    requires IsRun(ks, acts) && i < |acts| && Inv(ks[i])
    ensures FreedGrows(ks[i], ks[i + 1])
  {
    assert Enabled(ks[i], acts[i]) && Step(ks[i], acts[i]) == Ok(ks[i + 1]);
    FreedStays(ks[i], acts[i]);
  }

  ghost predicate FreedRun(ks: seq<Kernel>) {
    && (forall i :: 0 < i < |ks| ==> FreedGrows(ks[i - 1], ks[i]))
    && (forall i :: 0 <= i < |ks| ==> ks[i].freed !! ks[i].status.Keys)
  }

  lemma {:induction false} RunIsFreedRun(ks: seq<Kernel>, acts: seq<Action>)
    requires IsRun(ks, acts) && Inv(ks[0])
    ensures FreedRun(ks)
  {
    forall i | 0 <= i < |ks| ensures ks[i].freed !! ks[i].status.Keys { RunKeepsInv(ks, acts, i); FreedGone(ks[i]); }
    forall i | 0 < i < |ks| ensures FreedGrows(ks[i - 1], ks[i]) {
      RunKeepsInv(ks, acts, i - 1); RunFreed(ks, acts, i - 1);
    }
  }

  /** Over a whole run a freed thread never comes back, so its page is freed once. */
  lemma {:induction false} FreedForGood(ks: seq<Kernel>, acts: seq<Action>, i: nat, j: nat, t: Tid)
    requires IsRun(ks, acts) && Inv(ks[0]) && i <= j < |ks| && t in ks[i].freed
    ensures t in ks[j].freed && t !in ks[j].status
  {
    RunIsFreedRun(ks, acts);
    StaysFreed(ks, i, j, t);
  }

  lemma {:induction false} StaysFreed(ks: seq<Kernel>, i: nat, j: nat, t: Tid)
    requires FreedRun(ks) && i <= j < |ks| && t in ks[i].freed
    ensures t in ks[j].freed && t !in ks[j].status
  {
    if i < j {
      StaysFreed(ks, i, j - 1, t);
      assert FreedGrows(ks[j - 1], ks[j]);
    }
  }

  // ----- who runs: first in, first out

  /** The step gives up the processor: by yielding, exiting, blocking as the idle thread, or in the loop of sema_down
      with the semaphore at zero. */
  predicate GivesUp(k: Kernel, a: Action) {
    match a
    case Yield => true
    case Exit => true
    case IdleBlock => true
    case Down(s) => s in k.semas && k.semas[s].value == 0
    case Retest => k.current in k.inDown && k.inDown[k.current] in k.semas && k.semas[k.inDown[k.current]].value == 0
    case _ => false
  }

  /** The thread that the step puts at the end of the ready list: one that starts, the longest waiter of a semaphore
      that is upped, or one that yields and is not the idle thread */
  function Joins(k: Kernel, a: Action): seq<Tid> {
    match a
    case Start(t) => [t]
    case Up(s) => if s in k.semas && k.semas[s].waiters != [] then [k.semas[s].waiters[0]] else []
    case Yield => if IsIdle(k, k.current) then [] else [k.current]
    case _ => []
  }

  /** The ready list is a queue, and whoever gives up the processor leaves it to the front, or to the idle thread if
      there is no one. */
  ghost predicate QueueMoves(k: Kernel, a: Action, k': Kernel) {
    var q := k.ready + Joins(k, a);
    if !GivesUp(k, a) then k'.current == k.current && k'.ready == q
    else if q == [] then k'.current == k.idleTid && k'.ready == []
    else k'.current == q[0] && k'.ready == q[1..]
  }

  lemma {:induction false} ScheduleQueue(k: Kernel)
    requires k.current in k.status && Schedule(k).Ok?
    ensures var k' := Schedule(k).k;
      if k.ready == [] then k'.ready == [] && k'.current == k.idleTid
      else k'.current == k.ready[0] && k'.ready == k.ready[1..]
    ensures Schedule(k).k.semas == k.semas && Schedule(k).k.inDown == k.inDown && Schedule(k).k.newborn == k.newborn
  {
  }

  lemma {:induction false} ParkQueue(k: Kernel, a: Action, s: SemaId)
    requires Enabled(k, a) && Step(k, a).Ok? && s in k.semas
      && (a == Down(s) || (a.Retest? && k.inDown[k.current] == s))
    ensures QueueMoves(k, a, Step(k, a).k)
  {
    assert k.ready + [] == k.ready;
    if k.semas[s].value == 0 {
      ScheduleQueue(Parked(k, s));
    }
  }

  lemma {:induction false} StepQueue(k: Kernel, a: Action)
    requires Enabled(k, a) && Step(k, a).Ok?
    ensures QueueMoves(k, a, Step(k, a).k)
  {
    assert k.ready + [] == k.ready;
    match a
    case Down(s) => ParkQueue(k, a, s);
    case Retest => ParkQueue(k, a, k.inDown[k.current]);
    case Yield => ScheduleQueue(Yielded(k));
    case Exit => ScheduleQueue(WithStatus(k, k.current, Dying));
    case IdleBlock => ScheduleQueue(WithStatus(k, k.current, Blocked));
    case _ =>
  }

  ghost predicate QueueRun(ks: seq<Kernel>, acts: seq<Action>) {
    |ks| == |acts| + 1 && forall i :: 0 <= i < |acts| ==> QueueMoves(ks[i], acts[i], ks[i + 1])
  }

  lemma {:induction false} RunIsQueueRun(ks: seq<Kernel>, acts: seq<Action>)
    requires IsRun(ks, acts)
    ensures QueueRun(ks, acts)
  {
    forall i | 0 <= i < |acts| ensures QueueMoves(ks[i], acts[i], ks[i + 1]) { RunMoves(ks, acts, i); }
  }

  lemma {:induction false} RunMoves(ks: seq<Kernel>, acts: seq<Action>, i: nat)
    requires IsRun(ks, acts) && i < |acts|
    ensures QueueMoves(ks[i], acts[i], ks[i + 1])
  {
    assert Enabled(ks[i], acts[i]) && Step(ks[i], acts[i]) == Ok(ks[i + 1]);
    StepQueue(ks[i], acts[i]);
  }

  /** How often the processor is given up in the first n steps of a run */
  ghost function Dispatches(ks: seq<Kernel>, acts: seq<Action>, n: nat): nat
    requires n <= |acts| < |ks|
  {
    if n == 0 then 0 else Dispatches(ks, acts, n - 1) + if GivesUp(ks[n - 1], acts[n - 1]) then 1 else 0
  }

  lemma {:induction false} MovesUp(k: Kernel, a: Action, k': Kernel, x: nat)
    requires QueueMoves(k, a, k') && x < |k.ready|
    ensures !GivesUp(k, a) ==> x < |k'.ready| && k'.ready[x] == k.ready[x]
    ensures GivesUp(k, a) && 0 < x ==> x - 1 < |k'.ready| && k'.ready[x - 1] == k.ready[x]
    ensures GivesUp(k, a) && x == 0 ==> k'.current == k.ready[0]
  {
  }

  /** In every run the ready list is served in order: the thread at position p runs when the processor is given up
      for the (p + 1)-st time, and until then it moves up one place each time. */
  lemma {:induction false} ServedInOrder(ks: seq<Kernel>, acts: seq<Action>, p: nat, n: nat)
    requires IsRun(ks, acts) && n <= |acts| && p < |ks[0].ready|
    ensures Dispatches(ks, acts, n) <= p ==>
      p - Dispatches(ks, acts, n) < |ks[n].ready| && ks[n].ready[p - Dispatches(ks, acts, n)] == ks[0].ready[p]
    ensures n > 0 && Dispatches(ks, acts, n - 1) == p && Dispatches(ks, acts, n) == p + 1 ==>
      ks[n].current == ks[0].ready[p]
  {
    RunIsQueueRun(ks, acts);
    Served(ks, acts, p, n);
  }

  lemma {:induction false} Served(ks: seq<Kernel>, acts: seq<Action>, p: nat, n: nat)
    requires QueueRun(ks, acts) && n <= |acts| && p < |ks[0].ready|
    ensures Dispatches(ks, acts, n) <= p ==>
      p - Dispatches(ks, acts, n) < |ks[n].ready| && ks[n].ready[p - Dispatches(ks, acts, n)] == ks[0].ready[p]
    ensures n > 0 && Dispatches(ks, acts, n - 1) == p && Dispatches(ks, acts, n) == p + 1 ==>
      ks[n].current == ks[0].ready[p]
  {
    if n > 0 {
      Served(ks, acts, p, n - 1);
      assert QueueMoves(ks[n - 1], acts[n - 1], ks[n]);
      if Dispatches(ks, acts, n - 1) <= p {
        MovesUp(ks[n - 1], acts[n - 1], ks[n], p - Dispatches(ks, acts, n - 1));
      }
    }
  }

  // ----- what ups and downs do to a semaphore

  /** The step is a down of s, or a retest in the loop of one, or a try. */
  predicate Tests(k: Kernel, a: Action, s: SemaId) {
    a == Down(s) || a == TryDown(s) || (a.Retest? && k.current in k.inDown && k.inDown[k.current] == s)
  }

  /** The step takes the semaphore. */
  predicate Takes(k: Kernel, a: Action, s: SemaId) { Tests(k, a, s) && s in k.semas && k.semas[s].value > 0 }

  predicate Parks(k: Kernel, a: Action, s: SemaId) {
    Tests(k, a, s) && !a.TryDown? && s in k.semas && k.semas[s].value == 0
  }

  ghost predicate SemaMoves(k: Kernel, a: Action, k': Kernel, s: SemaId) {
    if s in k.semas then
      && s in k'.semas
      && var m, m' := k.semas[s], k'.semas[s];
      && m'.value == m.value + (if a == Up(s) then 1 else 0) - (if Takes(k, a, s) then 1 else 0)
      && m'.waiters == (if Parks(k, a, s) then m.waiters + [k.current]
                        else if a == Up(s) && m.waiters != [] then m.waiters[1..] else m.waiters)
    else if a.InitSema? && a.s == s then s in k'.semas && k'.semas[s] == Sema(a.v, [])
    else s !in k'.semas
  }

  lemma {:induction false} StepSema(k: Kernel, a: Action, s: SemaId)
    requires Enabled(k, a) && Step(k, a).Ok?
    ensures SemaMoves(k, a, Step(k, a).k, s)
  {
    match a
    case Down(r) => DownSema(k, a, r, s);
    case Retest => DownSema(k, a, k.inDown[k.current], s);
    case Yield => ScheduleQueue(Yielded(k));
    case Exit => ScheduleQueue(WithStatus(k, k.current, Dying));
    case IdleBlock => ScheduleQueue(WithStatus(k, k.current, Blocked));
    case _ =>
  }

  lemma {:induction false} DownSema(k: Kernel, a: Action, r: SemaId, s: SemaId)
    requires Enabled(k, a) && Step(k, a).Ok? && (a == Down(r) || (a.Retest? && k.inDown[k.current] == r))
    ensures SemaMoves(k, a, Step(k, a).k, s)
  {
    if k.semas[r].value == 0 { ScheduleQueue(Parked(k, r)); }
  }

  ghost predicate SemaRun(ks: seq<Kernel>, acts: seq<Action>, s: SemaId) {
    |ks| == |acts| + 1 && forall i :: 0 <= i < |acts| ==> SemaMoves(ks[i], acts[i], ks[i + 1], s)
  }

  lemma {:induction false} RunIsSemaRun(ks: seq<Kernel>, acts: seq<Action>, s: SemaId)
    requires IsRun(ks, acts)
    ensures SemaRun(ks, acts, s)
  {
    forall i | 0 <= i < |acts| ensures SemaMoves(ks[i], acts[i], ks[i + 1], s) {
      assert Enabled(ks[i], acts[i]) && Step(ks[i], acts[i]) == Ok(ks[i + 1]);
      StepSema(ks[i], acts[i], s);
    }
  }

  /** How many of the steps from i on and before n up the semaphore, and how many take it */
  function Ups(acts: seq<Action>, s: SemaId, i: nat, n: nat): nat
    requires i <= n <= |acts|
  {
    if i == n then 0 else Ups(acts, s, i, n - 1) + if acts[n - 1] == Up(s) then 1 else 0
  }

  function Takings(ks: seq<Kernel>, acts: seq<Action>, s: SemaId, i: nat, n: nat): nat
    requires i <= n <= |acts| < |ks|
  {
    if i == n then 0 else Takings(ks, acts, s, i, n - 1) + if Takes(ks[n - 1], acts[n - 1], s) then 1 else 0
  }

  /** In every run a semaphore's value is its initial value, plus the ups since, minus the downs that took it. */
  lemma {:induction false} ValueCounts(ks: seq<Kernel>, acts: seq<Action>, s: SemaId, v: nat, i: nat, n: nat)
    requires SemaRun(ks, acts, s) && i < n <= |acts| && acts[i] == InitSema(s, v) && s !in ks[i].semas
    ensures s in ks[n].semas && ks[n].semas[s].value + Takings(ks, acts, s, i, n) == v + Ups(acts, s, i, n)
  {
    var m := n - 1;
    assert SemaMoves(ks[m], acts[m], ks[m + 1], s);
    if i < m {
      ValueCounts(ks, acts, s, v, i, m);
    } else {
      assert Takings(ks, acts, s, i, i) == 0 && Ups(acts, s, i, i) == 0;
    }
  }

  lemma {:induction false} MadeBefore(ks: seq<Kernel>, acts: seq<Action>, s: SemaId, n: nat) returns (i: nat)
    requires SemaRun(ks, acts, s) && s !in ks[0].semas && n <= |acts| && s in ks[n].semas
    ensures i < n && acts[i].InitSema? && acts[i].s == s && s !in ks[i].semas
  {
    var m := n - 1;
    assert SemaMoves(ks[m], acts[m], ks[m + 1], s);
    if s in ks[m].semas { i := MadeBefore(ks, acts, s, m); } else { i := m; }
  }

  /** From boot: every semaphore was initialised by a step i with a value v, and its value is v plus the ups since,
      minus the downs since that found it positive. */
  lemma {:induction false} SemaphoreLaw(ks: seq<Kernel>, acts: seq<Action>, s: SemaId, n: nat, main: Tid, idle: Tid)
    returns (i: nat, v: nat)
    requires IsRun(ks, acts) && ks[0] == Boot(main, idle) && n <= |acts| && s in ks[n].semas
    ensures i < n && acts[i] == InitSema(s, v)
    ensures ks[n].semas[s].value == v + Ups(acts, s, i, n) - Takings(ks, acts, s, i, n)
  {
    RunIsSemaRun(ks, acts, s);
    i := MadeBefore(ks, acts, s, n);
    v := acts[i].v;
    ValueCounts(ks, acts, s, v, i, n);
  }

  /** sema_down leaves its loop exactly if it found the semaphore positive, and otherwise its thread is blocked at the
      end of the semaphore's list; sema_try_down tells whether it did, and changes nothing else. */
  lemma {:induction false} TestsTell(k: Kernel, a: Action, s: SemaId)
    requires Inv(k) && Enabled(k, a) && Tests(k, a, s)
    ensures Step(k, a).Ok? && s in k.semas
    ensures var k' := Step(k, a).k;
      if a.TryDown? then (k'.tried <==> Takes(k, a, s)) && k' == k.(semas := k'.semas, tried := k'.tried)
      else if Takes(k, a, s) then k'.current == k.current && k.current !in k'.inDown && k'.status == k.status
      else
        && s in k'.semas && k'.semas[s].waiters == k.semas[s].waiters + [k.current]
        && k.current in k'.status && k'.status[k.current] == Blocked && k'.current != k.current
        && k.current in k'.inDown && k'.inDown[k.current] == s
  {
    StepKeepsInv(k, a);
    if !a.TryDown? && !Takes(k, a, s) {
      StepSema(k, a, s);
      ScheduleQueue(Parked(k, s));
      ParkSwitches(k, s);
      NextIsAvailable(Parked(k, s));
    }
  }

  /** In every run a semaphore's waiters are unblocked in the order in which they parked: the thread at position p is
      unblocked by the (p + 1)-st up, goes to the end of the ready list, and until then moves up one place with each. */
  lemma {:induction false} WokenInOrder(ks: seq<Kernel>, acts: seq<Action>, s: SemaId, p: nat, n: nat)
    requires IsRun(ks, acts) && n <= |acts| && s in ks[0].semas && p < |ks[0].semas[s].waiters|
    ensures s in ks[n].semas
    ensures var u, w := Ups(acts, s, 0, n), ks[n].semas[s].waiters;
      u <= p ==> p - u < |w| && w[p - u] == ks[0].semas[s].waiters[p]
    ensures n > 0 && acts[n - 1] == Up(s) && Ups(acts, s, 0, n - 1) == p ==>
      ks[n].ready == ks[n - 1].ready + [ks[0].semas[s].waiters[p]]
  {
    RunIsSemaRun(ks, acts, s);
    RunIsQueueRun(ks, acts);
    Unblocked(ks, acts, s, p, n);
  }

  lemma {:induction false} Unblocked(ks: seq<Kernel>, acts: seq<Action>, s: SemaId, p: nat, n: nat)
    requires SemaRun(ks, acts, s) && QueueRun(ks, acts) && n <= |acts|
    requires s in ks[0].semas && p < |ks[0].semas[s].waiters|
    ensures s in ks[n].semas
    ensures var u, w := Ups(acts, s, 0, n), ks[n].semas[s].waiters;
      u <= p ==> p - u < |w| && w[p - u] == ks[0].semas[s].waiters[p]
    ensures n > 0 && acts[n - 1] == Up(s) && Ups(acts, s, 0, n - 1) == p ==>
      ks[n].ready == ks[n - 1].ready + [ks[0].semas[s].waiters[p]]
  {
    if n > 0 {
      var m := n - 1;
      Unblocked(ks, acts, s, p, m);
      assert SemaMoves(ks[m], acts[m], ks[m + 1], s);
      assert QueueMoves(ks[m], acts[m], ks[m + 1]);
    }
  }

  // ----- new threads

  lemma {:induction false} StepNewborn(k: Kernel, a: Action)
    requires Enabled(k, a) && Step(k, a).Ok?
    ensures Step(k, a).k.newborn
         == if a.Create? then k.newborn + {a.t} else if a.Start? then k.newborn - {a.t} else k.newborn
  {
    match a
    case Down(r) => if k.semas[r].value == 0 { ScheduleQueue(Parked(k, r)); }
    case Retest => var r := k.inDown[k.current]; if k.semas[r].value == 0 { ScheduleQueue(Parked(k, r)); }
    case Yield => ScheduleQueue(Yielded(k));
    case Exit => ScheduleQueue(WithStatus(k, k.current, Dying));
    case IdleBlock => ScheduleQueue(WithStatus(k, k.current, Blocked));
    case _ =>
  }

  /** A thread that has been created stays blocked until it is started, and is then put on the ready list. */
  lemma {:induction false} CreatedWaits(ks: seq<Kernel>, acts: seq<Action>, t: Tid, i: nat, n: nat)
    requires IsRun(ks, acts) && Inv(ks[0]) && i < n <= |acts| && acts[i] == Create(t)
    requires forall j | i < j < n :: acts[j] != Start(t)
    ensures t in ks[n].newborn && t in ks[n].status && ks[n].status[t] == Blocked
    ensures n < |acts| && acts[n] == Start(t) ==> ks[n + 1].ready == ks[n].ready + [t]
  {
    var m := n - 1;
    assert Enabled(ks[m], acts[m]) && Step(ks[m], acts[m]) == Ok(ks[m + 1]);
    StepNewborn(ks[m], acts[m]);
    if i < m { CreatedWaits(ks, acts, t, i, m); }
    RunKeepsInv(ks, acts, n);
    if n < |acts| { RunMoves(ks, acts, n); }
  }
}
