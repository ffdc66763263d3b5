/** Locks and condition variables (pintos/src/threads/synch.c) as an interleaving step system: one
    lock, the condition variables associated with it, and any number of threads.

    sema_down's test-and-decrement, sema_up and each single statement outside the sections with
    interrupts off are separate steps, so that other threads can run between, say, taking a lock's
    semaphore and recording the holder. A failed kernel assertion is the outcome Panic. */
module Monitor {
  import opened Queues

  type Tid = nat
  type CondId = nat

  /** Where a thread is. The flag of the lock_acquire positions tells whether the call comes from the
      end of cond_wait. */
  datatype Pc =
    | Outside
    | LockTest(inWait: bool)        // at the loop test of sema_down on the lock
    | LockParked(inWait: bool)      // blocked in it
    | LockTaken(inWait: bool)       // semaphore decremented, holder not yet recorded
    | Holding
    | Releasing                     // holder cleared, semaphore not yet incremented
    | Queued(c: CondId)             // in cond_wait, on c's list
    | WaitReleasing(c: CondId)      // in cond_wait, holder cleared
    | WaitTest(c: CondId)           // in cond_wait, at the loop test of the own semaphore
    | WaitParked(c: CondId)         // blocked in it
    | Signalling(w: Tid)            // in cond_signal, w taken off the list, not yet woken

  /** What has happened to the current call of cond_wait: nothing, its element was taken off the list
      by a signaller, or its semaphore was incremented. */
  datatype Signal = Unsignalled | Chosen | Signalled

  /** own is the value of the semaphore on the stack of a thread in cond_wait. signals and wakeups are
      history: the state of a thread's latest call of cond_wait and the number of times a signaller
      incremented its semaphore during that call. */
  datatype State = State(
    pc: map<Tid, Pc>,
    value: nat,
    waiters: seq<Tid>,
    holder: Holder,
    conds: map<CondId, seq<Tid>>,
    own: map<Tid, nat>,
    signals: map<Tid, Signal>,
    wakeups: map<Tid, nat>)

  datatype Holder = Nobody | HeldBy(t: Tid)

  datatype Op =
    | BeginAcquire | TryAcquire | LockDown | RecordHolder
    | ClearHolder | LockUp
    | Wait(c: CondId) | WaitClearHolder | WaitLockUp | WaitDown
    | SignalPop(c: CondId) | SignalUp

  datatype Action = Action(t: Tid, op: Op)

  datatype Outcome = Ok(s: State) | Panic

  function At(s: State, t: Tid, p: Pc): State { s.(pc := s.pc[t := p]) }

  /** The position from which a thread woken in sema_down continues. */
  function Unparked(p: Pc): Pc {
    match p
    case LockParked(w) => LockTest(w)
    case WaitParked(c) => WaitTest(c)
    case _ => p
  }

  /** sema_up on the lock's semaphore */
  function UpLock(s: State): State {
    UnparkFirst(s.(value := s.value + 1))
  }

  /** Takes the longest waiter, if any, off the lock's list and unblocks it. */
  function UnparkFirst(s: State): State {
    if s.waiters == [] || s.waiters[0] !in s.pc then s
    else At(s.(waiters := s.waiters[1..]), s.waiters[0], Unparked(s.pc[s.waiters[0]]))
  }

  /** sema_up on the semaphore of waiter w */
  function UpWaiter(s: State, w: Tid): State {
    if w in s.pc && w in s.own && w in s.wakeups then
      s.(own := s.own[w := s.own[w] + 1], pc := s.pc[w := Unparked(s.pc[w])],
         signals := s.signals[w := Signalled], wakeups := s.wakeups[w := s.wakeups[w] + 1])
    else s
  }

  predicate Enabled(s: State, a: Action) {
    && a.t in s.pc
    && match a.op {
      case BeginAcquire => s.pc[a.t].Outside?
      case TryAcquire => s.pc[a.t].Outside?
      case LockDown => s.pc[a.t].LockTest?
      case RecordHolder => s.pc[a.t].LockTaken?
      case ClearHolder => s.pc[a.t].Holding?
      case LockUp => s.pc[a.t].Releasing?
      case Wait(c) => s.pc[a.t].Holding? && c in s.conds
      case WaitClearHolder => s.pc[a.t].Queued?
      case WaitLockUp => s.pc[a.t].WaitReleasing?
      case WaitDown => s.pc[a.t].WaitTest? && a.t in s.own
      case SignalPop(c) => s.pc[a.t].Holding? && c in s.conds
      case SignalUp => s.pc[a.t].Signalling?
    }
  }

  function Step(s: State, a: Action): Outcome
    requires Enabled(s, a)
  {
    var t := a.t;
    match a.op
    case BeginAcquire =>
      // the lock must not be held by this thread already
      if s.holder == HeldBy(t) then Panic else Ok(At(s, t, LockTest(false)))
    case TryAcquire =>
      if s.holder == HeldBy(t) then Panic
      else if s.value > 0 then Ok(At(s.(value := s.value - 1), t, LockTaken(false)))
      else Ok(s)
    case LockDown =>
      var w := s.pc[t].inWait;
      if s.value > 0 then Ok(At(s.(value := s.value - 1), t, LockTaken(w)))
      else Ok(At(s.(waiters := s.waiters + [t]), t, LockParked(w)))
    case RecordHolder => Ok(At(s.(holder := HeldBy(t)), t, Holding))
    case ClearHolder =>
      // the lock must be held by this thread
      if s.holder != HeldBy(t) then Panic else Ok(At(s.(holder := Nobody), t, Releasing))
    case LockUp => Ok(UpLock(At(s, t, Outside)))
    case Wait(c) =>
      if s.holder != HeldBy(t) then Panic
      else Ok(At(s.(conds := s.conds[c := s.conds[c] + [t]], own := s.own[t := 0],
                   signals := s.signals[t := Unsignalled], wakeups := s.wakeups[t := 0]), t, Queued(c)))
    case WaitClearHolder =>
      if s.holder != HeldBy(t) then Panic else Ok(At(s.(holder := Nobody), t, WaitReleasing(s.pc[t].c)))
    case WaitLockUp => Ok(UpLock(At(s, t, WaitTest(s.pc[t].c))))
    case WaitDown =>
      if s.own[t] > 0 then
        // the own semaphore is taken; cond_wait goes on to lock_acquire
        if s.holder == HeldBy(t) then Panic else Ok(At(s.(own := s.own[t := s.own[t] - 1]), t, LockTest(true)))
      else Ok(At(s, t, WaitParked(s.pc[t].c)))
    case SignalPop(c) =>
      if s.holder != HeldBy(t) then Panic
      else if s.conds[c] == [] then Ok(s)
      else Ok(At(s.(conds := s.conds[c := s.conds[c][1..]], signals := s.signals[s.conds[c][0] := Chosen]), t,
        Signalling(s.conds[c][0])))
    case SignalUp => Ok(At(UpWaiter(s, s.pc[t].w), t, Holding))
  }

  /** All threads outside, the lock free, no one waiting. */
  predicate Initial(s: State) {
    && (forall t | t in s.pc :: s.pc[t].Outside?)
    && s.value == 1 && s.waiters == [] && s.holder == Nobody
    && (forall c | c in s.conds :: s.conds[c] == [])
    && s.signals == map[] && s.wakeups == map[]
  }

  ghost predicate IsRun(ss: seq<State>, acts: seq<Action>) {
    && |ss| == |acts| + 1
    && forall i :: 0 <= i < |acts| ==> Enabled(ss[i], acts[i]) && Step(ss[i], acts[i]) == Ok(ss[i + 1])
  }

  // ----- the invariant

  /** The lock's semaphore has been taken and not yet given back. */
  predicate Inside(p: Pc) {
    p.LockTaken? || p.Holding? || p.Releasing? || p.Queued? || p.WaitReleasing? || p.Signalling?
  }

  predicate Recorded(p: Pc) { p.Holding? || p.Queued? || p.Signalling? }

  /** How condition variables see a thread: it waits on one and has not yet taken its own semaphore,
      it is about to wake a waiter, or neither. */
  datatype View = Unconcerned | Waits(c: CondId, parked: bool) | Wakes(w: Tid)

  function ViewOf(p: Pc): View {
    match p
    case Queued(c) => Waits(c, false)
    case WaitReleasing(c) => Waits(c, false)
    case WaitTest(c) => Waits(c, false)
    case WaitParked(c) => Waits(c, true)
    case Signalling(w) => Wakes(w)
    case _ => Unconcerned
  }

  /** The semaphore is 0 or 1, it is 1 exactly if no thread is inside, and two threads are never inside. */
  ghost predicate Exclusion(s: State) {
    && s.value <= 1
    && (forall t | t in s.pc && Inside(s.pc[t]) :: s.value == 0)
    && (forall t, u | t in s.pc && u in s.pc && Inside(s.pc[t]) && Inside(s.pc[u]) :: t == u)
    && (s.value == 1 || exists t :: t in s.pc && Inside(s.pc[t]))
  }

  ghost predicate HolderOk(s: State) {
    forall t :: s.holder == HeldBy(t) <==> t in s.pc && Recorded(s.pc[t])
  }

  ghost predicate LockListOk(s: State) {
    && Distinct(s.waiters)
    && forall t :: t in s.waiters <==> t in s.pc && s.pc[t].LockParked?
  }

  /** The element of a waiting thread is on its condition's list until a signaller takes it off. */
  ghost predicate CondListOk(s: State, c: CondId)
    requires c in s.conds
  {
    && Distinct(s.conds[c])
    && forall t :: t in s.conds[c] <==>
         t in s.pc && ViewOf(s.pc[t]).Waits? && ViewOf(s.pc[t]).c == c && t in s.signals && s.signals[t] == Unsignalled
  }

  /** A waiting thread's own semaphore is 1 exactly if it was signalled, and then it is not blocked; if
      it is chosen, some thread is about to wake it. */
  ghost predicate WaiterOk(s: State, t: Tid)
    requires t in s.pc
  {
    ViewOf(s.pc[t]).Waits? ==>
      && t in s.own && t in s.signals && ViewOf(s.pc[t]).c in s.conds
      && s.own[t] == (if s.signals[t] == Signalled then 1 else 0)
      && (ViewOf(s.pc[t]).parked ==> s.signals[t] != Signalled)
      && (s.signals[t] == Chosen ==> exists u :: u in s.pc && ViewOf(s.pc[u]) == Wakes(t))
  }

  /** A thread that is about to be woken is waiting and was chosen. */
  ghost predicate SignallerOk(s: State, t: Tid)
    requires t in s.pc
  {
    ViewOf(s.pc[t]).Wakes? ==>
      var w := ViewOf(s.pc[t]).w;
      w in s.pc && ViewOf(s.pc[w]).Waits? && w in s.signals && s.signals[w] == Chosen
  }

  ghost predicate CondsOk(s: State) {
    && (forall c | c in s.conds :: CondListOk(s, c))
    && (forall t | t in s.pc :: WaiterOk(s, t) && SignallerOk(s, t))
  }

  /** Every call of cond_wait has been woken once if it is signalled, otherwise not at all, and a thread
      on its way out of cond_wait has been signalled. */
  ghost predicate HistoryOk(s: State) {
    && (forall t | t in s.signals :: t in s.wakeups && s.wakeups[t] == if s.signals[t] == Signalled then 1 else 0)
    && (forall t | t in s.pc && LeavingWait(s.pc[t]) :: t in s.signals && s.signals[t] == Signalled)
  }

  predicate LeavingWait(p: Pc) {
    (p.LockTest? || p.LockParked? || p.LockTaken?) && p.inWait
  }

  ghost predicate Inv(s: State) {
    Exclusion(s) && HolderOk(s) && LockListOk(s) && CondsOk(s) && HistoryOk(s)
  }

  // ----- no panic

  lemma {:induction false} NoPanic(s: State, a: Action)
    requires HolderOk(s) && Enabled(s, a)
    ensures Step(s, a).Ok?
  {
  }

  /** Between s and s' only thread t has moved. */
  ghost predicate OneMoved(s: State, s': State, t: Tid) {
    && t in s.pc && s'.pc.Keys == s.pc.Keys
    && forall u | u in s.pc && u != t :: s'.pc[u] == s.pc[u]
  }

  // ----- mutual exclusion

  lemma {:induction false} Entering(s: State, s': State, t: Tid)
    requires Exclusion(s) && OneMoved(s, s', t)
    requires s.value > 0 && s'.value == s.value - 1 && Inside(s'.pc[t])
    ensures Exclusion(s')
  {
    assert t in s'.pc && Inside(s'.pc[t]);
  }

  lemma {:induction false} Leaving(s: State, s': State, t: Tid)
    requires Exclusion(s) && OneMoved(s, s', t)
    requires Inside(s.pc[t]) && !Inside(s'.pc[t]) && s'.value == s.value + 1
    ensures Exclusion(s')
  {
  }

  lemma {:induction false} Staying(s: State, s': State, t: Tid)
    requires Exclusion(s) && OneMoved(s, s', t)
    requires Inside(s.pc[t]) == Inside(s'.pc[t]) && s'.value == s.value
    ensures Exclusion(s')
  {
    if s.value == 0 {
      var u :| u in s.pc && Inside(s.pc[u]);
      assert u in s'.pc && Inside(s'.pc[u]);
    }
  }

  // ----- the holder

  lemma {:induction false} SameHolder(s: State, s': State, t: Tid)
    requires HolderOk(s) && s'.holder == s.holder && OneMoved(s, s', t) && Recorded(s'.pc[t]) == Recorded(s.pc[t])
    ensures HolderOk(s')
  {
  }

  lemma {:induction false} HolderRecorded(s: State, t: Tid)
    requires HolderOk(s) && Exclusion(s) && t in s.pc && s.pc[t].LockTaken?
    ensures HolderOk(At(s.(holder := HeldBy(t)), t, Holding))
  {
  }

  lemma {:induction false} HolderCleared(s: State, t: Tid, p: Pc)
    requires HolderOk(s) && s.holder == HeldBy(t) && t in s.pc && !Recorded(p)
    ensures HolderOk(At(s.(holder := Nobody), t, p))
  {
  }

  // ----- the lock's waiters

  lemma {:induction false} SameLockList(s: State, s': State, t: Tid)
    requires LockListOk(s) && s'.waiters == s.waiters && OneMoved(s, s', t)
    requires s'.pc[t].LockParked? == s.pc[t].LockParked?
    ensures LockListOk(s')
  {
  }

  lemma {:induction false} LockListPushed(s: State, t: Tid, w: bool)
    requires LockListOk(s) && t in s.pc && !s.pc[t].LockParked?
    ensures LockListOk(At(s.(waiters := s.waiters + [t]), t, LockParked(w)))
  {
    Pushed(s.waiters, t);
  }

  lemma {:induction false} LockListPopped(s: State)
    requires LockListOk(s)
    ensures LockListOk(UnparkFirst(s))
    ensures s.waiters != [] ==> s.waiters[0] in s.pc && s.pc[s.waiters[0]].LockParked?
  {
    if s.waiters != [] {
      Popped(s.waiters);
    }
  }

  // ----- history

  lemma {:induction false} SameHistory(s: State, s': State, t: Tid)
    requires HistoryOk(s) && s'.signals == s.signals && s'.wakeups == s.wakeups && OneMoved(s, s', t)
    requires LeavingWait(s'.pc[t]) ==> LeavingWait(s.pc[t]) || (t in s.signals && s.signals[t] == Signalled)
    ensures HistoryOk(s')
  {
  }

  // ----- condition variables

  lemma {:induction false} SameConds(s: State, s': State, t: Tid)
    requires CondsOk(s) && s'.conds == s.conds && s'.own == s.own && s'.signals == s.signals
    requires OneMoved(s, s', t) && ViewOf(s'.pc[t]) == ViewOf(s.pc[t])
    ensures CondsOk(s')
  {
    forall c | c in s'.conds ensures CondListOk(s', c) {
      assert CondListOk(s, c);
    }
    forall u | u in s'.pc ensures WaiterOk(s', u) && SignallerOk(s', u) {
      assert WaiterOk(s, u) && SignallerOk(s, u);
      StillChosen(s, s', u);
    }
  }

  /** A chosen waiter is still about to be woken if its signaller has not moved. */
  lemma {:induction false} StillChosen(s: State, s': State, u: Tid)
    requires u in s.pc && WaiterOk(s, u)
    requires forall v | v in s.pc && ViewOf(s.pc[v]) == Wakes(u) :: v in s'.pc && ViewOf(s'.pc[v]) == Wakes(u)
    ensures ViewOf(s.pc[u]).Waits? && s.signals[u] == Chosen ==> exists v :: v in s'.pc && ViewOf(s'.pc[v]) == Wakes(u)
  {
    if ViewOf(s.pc[u]).Waits? && s.signals[u] == Chosen {
      var v :| v in s.pc && ViewOf(s.pc[v]) == Wakes(u);
      assert v in s'.pc && ViewOf(s'.pc[v]) == Wakes(u);
    }
  }

  ghost function Enqueued(s: State, t: Tid, c: CondId): State
    requires c in s.conds
  {
    At(s.(conds := s.conds[c := s.conds[c] + [t]], own := s.own[t := 0],
          signals := s.signals[t := Unsignalled], wakeups := s.wakeups[t := 0]), t, Queued(c))
  }

  lemma {:induction false} CondsEnqueued(s: State, t: Tid, c: CondId)
    requires CondsOk(s) && t in s.pc && s.pc[t].Holding? && c in s.conds
    ensures CondsOk(Enqueued(s, t, c))
  {
    var s' := Enqueued(s, t, c);
    forall d | d in s'.conds ensures CondListOk(s', d) {
      assert CondListOk(s, d);
      if d == c { Pushed(s.conds[c], t); }
    }
    forall u | u in s'.pc ensures WaiterOk(s', u) && SignallerOk(s', u) {
      assert WaiterOk(s, u) && SignallerOk(s, u);
      StillChosen(s, s', u);
    }
  }

  /** Neither parking on the own semaphore nor taking it concerns the other threads. */
  ghost predicate Tested(s: State, t: Tid, s': State) {
    && t in s.pc && s.pc[t].WaitTest? && t in s.own
    && s' == if s.own[t] > 0 then At(s.(own := s.own[t := s.own[t] - 1]), t, LockTest(true))
             else At(s, t, WaitParked(s.pc[t].c))
  }

  lemma {:induction false} CondListTested(s: State, t: Tid, s': State, c: CondId)
    requires Tested(s, t, s') && WaiterOk(s, t) && c in s.conds && CondListOk(s, c)
    ensures CondListOk(s', c)
  {
  }

  lemma {:induction false} ThreadTested(s: State, t: Tid, s': State, u: Tid)
    requires Tested(s, t, s') && WaiterOk(s, t) && u in s.pc && WaiterOk(s, u) && SignallerOk(s, u)
    ensures WaiterOk(s', u) && SignallerOk(s', u)
  {
    StillChosen(s, s', u);
  }

  lemma {:induction false} CondsTested(s: State, t: Tid, s': State)
    requires CondsOk(s) && Tested(s, t, s')
    ensures CondsOk(s')
  {
    assert WaiterOk(s, t);
    forall c | c in s'.conds ensures CondListOk(s', c) { CondListTested(s, t, s', c); }
    forall u | u in s'.pc ensures WaiterOk(s', u) && SignallerOk(s', u) { ThreadTested(s, t, s', u); }
  }

  ghost function Picked(s: State, t: Tid, c: CondId): State
    requires c in s.conds && s.conds[c] != []
  {
    var w := s.conds[c][0];
    At(s.(conds := s.conds[c := s.conds[c][1..]], signals := s.signals[w := Chosen]), t, Signalling(w))
  }

  lemma {:induction false} CondsPicked(s: State, t: Tid, c: CondId)
    requires CondsOk(s) && t in s.pc && s.pc[t].Holding? && c in s.conds && s.conds[c] != []
    ensures CondsOk(Picked(s, t, c))
  {
    var w, s' := s.conds[c][0], Picked(s, t, c);
    assert CondListOk(s, c) && w in s.conds[c];
    Popped(s.conds[c]);
    forall d | d in s'.conds ensures CondListOk(s', d) {
      assert CondListOk(s, d);
    }
    forall u | u in s'.pc ensures WaiterOk(s', u) && SignallerOk(s', u) {
      assert WaiterOk(s, u) && SignallerOk(s, u);
      if u == w {
        assert t in s'.pc && ViewOf(s'.pc[t]) == Wakes(w);
      } else {
        StillChosen(s, s', u);
      }
    }
  }

  ghost function Woken(s: State, t: Tid): State
    requires t in s.pc && s.pc[t].Signalling?
  {
    At(UpWaiter(s, s.pc[t].w), t, Holding)
  }

  lemma {:induction false} CondListWoken(s: State, t: Tid, c: CondId)
    requires t in s.pc && s.pc[t].Signalling? && SignallerOk(s, t) && c in s.conds && CondListOk(s, c)
    ensures CondListOk(Woken(s, t), c)
  {
  }

  lemma {:induction false} ThreadWoken(s: State, t: Tid, u: Tid)
    requires t in s.pc && s.pc[t].Signalling? && s.pc[t].w in s.wakeups && Exclusion(s) && u in s.pc
    requires SignallerOk(s, t) && WaiterOk(s, s.pc[t].w) && WaiterOk(s, u) && SignallerOk(s, u)
    ensures WaiterOk(Woken(s, t), u) && SignallerOk(Woken(s, t), u)
  {
    if u != s.pc[t].w { StillChosen(s, Woken(s, t), u); }
  }

  lemma {:induction false} CondsWoken(s: State, t: Tid)
    requires CondsOk(s) && Exclusion(s) && t in s.pc && s.pc[t].Signalling? && s.pc[t].w in s.wakeups
    ensures CondsOk(At(UpWaiter(s, s.pc[t].w), t, Holding))
  {
    assert SignallerOk(s, t) && WaiterOk(s, s.pc[t].w);
    forall c | c in s.conds ensures CondListOk(Woken(s, t), c) { CondListWoken(s, t, c); }
    forall u | u in s.pc ensures WaiterOk(Woken(s, t), u) && SignallerOk(Woken(s, t), u) { ThreadWoken(s, t, u); }
  }

  // ----- every step

  /** A step that moves only t, between positions that look alike to the lock and the conditions. */
  lemma {:induction false} MoveKeepsInv(s: State, t: Tid, p: Pc)
    requires Inv(s) && t in s.pc && Inside(p) == Inside(s.pc[t]) && Recorded(p) == Recorded(s.pc[t])
    requires p.LockParked? == s.pc[t].LockParked? && ViewOf(p) == ViewOf(s.pc[t])
    requires LeavingWait(p) ==> LeavingWait(s.pc[t])
    ensures Inv(At(s, t, p))
  {
    var s' := At(s, t, p);
    Staying(s, s', t);
    SameHolder(s, s', t);
    SameLockList(s, s', t);
    SameConds(s, s', t);
    SameHistory(s, s', t);
  }

  lemma {:induction false} TakeLockKeepsInv(s: State, t: Tid, w: bool)
    requires Inv(s) && t in s.pc && s.value > 0
    requires (s.pc[t].Outside? && !w) || s.pc[t] == LockTest(w)
    ensures Inv(At(s.(value := s.value - 1), t, LockTaken(w)))
  {
    var s' := At(s.(value := s.value - 1), t, LockTaken(w));
    Entering(s, s', t);
    SameHolder(s, s', t);
    SameLockList(s, s', t);
    SameConds(s, s', t);
    SameHistory(s, s', t);
  }

  lemma {:induction false} ParkKeepsInv(s: State, t: Tid)
    requires Inv(s) && t in s.pc && s.pc[t].LockTest?
    ensures Inv(At(s.(waiters := s.waiters + [t]), t, LockParked(s.pc[t].inWait)))
  {
    var s' := At(s.(waiters := s.waiters + [t]), t, LockParked(s.pc[t].inWait));
    Staying(s, s', t);
    SameHolder(s, s', t);
    LockListPushed(s, t, s.pc[t].inWait);
    SameConds(s, s', t);
    SameHistory(s, s', t);
  }

  lemma {:induction false} RecordKeepsInv(s: State, t: Tid)
    requires Inv(s) && t in s.pc && s.pc[t].LockTaken?
    ensures Inv(At(s.(holder := HeldBy(t)), t, Holding))
  {
    var s' := At(s.(holder := HeldBy(t)), t, Holding);
    Staying(s, s', t);
    HolderRecorded(s, t);
    SameLockList(s, s', t);
    SameConds(s, s', t);
    SameHistory(s, s', t);
  }

  lemma {:induction false} ClearKeepsInv(s: State, t: Tid, p: Pc)
    requires Inv(s) && t in s.pc && s.holder == HeldBy(t)
    requires (s.pc[t].Holding? && p.Releasing?) || (s.pc[t].Queued? && p == WaitReleasing(s.pc[t].c))
    ensures Inv(At(s.(holder := Nobody), t, p))
  {
    var s' := At(s.(holder := Nobody), t, p);
    Staying(s, s', t);
    HolderCleared(s, t, p);
    SameLockList(s, s', t);
    SameConds(s, s', t);
    SameHistory(s, s', t);
  }

  lemma {:induction false} UnparkKeepsInv(s: State)
    requires Inv(s)
    ensures Inv(UnparkFirst(s))
  {
    if s.waiters != [] {
      var w, s' := s.waiters[0], UnparkFirst(s);
      LockListPopped(s);
      Staying(s, s', w);
      SameHolder(s, s', w);
      SameConds(s, s', w);
      SameHistory(s, s', w);
    }
  }

  lemma {:induction false} UpLockKeepsInv(s: State, t: Tid, p: Pc)
    requires Inv(s) && t in s.pc
    requires (s.pc[t].Releasing? && p.Outside?) || (s.pc[t].WaitReleasing? && p == WaitTest(s.pc[t].c))
    ensures Inv(UpLock(At(s, t, p)))
  {
    var s' := At(s, t, p).(value := s.value + 1);
    Leaving(s, s', t);
    SameHolder(s, s', t);
    SameLockList(s, s', t);
    SameConds(s, s', t);
    SameHistory(s, s', t);
    UnparkKeepsInv(s');
  }

  lemma {:induction false} WaitKeepsInv(s: State, t: Tid, c: CondId)
    requires Inv(s) && t in s.pc && s.pc[t].Holding? && c in s.conds
    ensures Inv(Enqueued(s, t, c))
  {
    var s' := Enqueued(s, t, c);
    Staying(s, s', t);
    SameHolder(s, s', t);
    SameLockList(s, s', t);
    CondsEnqueued(s, t, c);
    HistoryEnqueued(s, t, c);
  }

  lemma {:induction false} HistoryEnqueued(s: State, t: Tid, c: CondId)
    requires HistoryOk(s) && t in s.pc && c in s.conds
    ensures HistoryOk(Enqueued(s, t, c))
  {
  }

  lemma {:induction false} TestOwnKeepsInv(s: State, t: Tid, s': State)
    requires Inv(s) && t in s.pc && s.pc[t].WaitTest? && t in s.own
    requires s' == if s.own[t] > 0 then At(s.(own := s.own[t := s.own[t] - 1]), t, LockTest(true))
      else At(s, t, WaitParked(s.pc[t].c))
    ensures Inv(s')
  {
    assert WaiterOk(s, t);
    Staying(s, s', t);
    SameHolder(s, s', t);
    SameLockList(s, s', t);
    CondsTested(s, t, s');
    SameHistory(s, s', t);
  }

  lemma {:induction false} PickKeepsInv(s: State, t: Tid, c: CondId)
    requires Inv(s) && t in s.pc && s.pc[t].Holding? && c in s.conds && s.conds[c] != []
    ensures Inv(Picked(s, t, c))
  {
    var s' := Picked(s, t, c);
    Staying(s, s', t);
    SameHolder(s, s', t);
    SameLockList(s, s', t);
    CondsPicked(s, t, c);
    HistoryPicked(s, t, c);
  }

  lemma {:induction false} HistoryPicked(s: State, t: Tid, c: CondId)
    requires HistoryOk(s) && t in s.pc && c in s.conds && s.conds[c] != [] && CondListOk(s, c)
    ensures HistoryOk(Picked(s, t, c))
  {
    assert s.conds[c][0] in s.conds[c];
  }

  /** A signaller wakes a thread that is waiting, has not been woken before, and stays ready to run even
      if it has not reached its sema_down yet. */
  lemma {:induction false} SignalWakesOnce(s: State, t: Tid)
    requires Inv(s) && t in s.pc && s.pc[t].Signalling?
    ensures var w, s' := s.pc[t].w, At(UpWaiter(s, s.pc[t].w), t, Holding);
      && w in s.pc && ViewOf(s.pc[w]).Waits? && w in s.own && s.own[w] == 0 && w in s.wakeups && s.wakeups[w] == 0
      && s'.own[w] == 1 && s'.wakeups[w] == 1 && !s'.pc[w].WaitParked?
  {
    assert SignallerOk(s, t) && WaiterOk(s, s.pc[t].w);
  }

  /** A signaller's step is the signaller's move after the waiter was unparked. */
  lemma {:induction false} WakeKeepsInv(s: State, t: Tid)
    requires Inv(s) && t in s.pc && s.pc[t].Signalling?
    ensures Inv(At(UpWaiter(s, s.pc[t].w), t, Holding))
  {
    var w := s.pc[t].w;
    var s1 := UpWaiter(s, w);
    var s' := At(s1, t, Holding);
    SignalWakesOnce(s, t);
    Staying(s, s1, w);
    Staying(s1, s', t);
    SameHolder(s, s1, w);
    SameHolder(s1, s', t);
    SameLockList(s, s1, w);
    SameLockList(s1, s', t);
    CondsWoken(s, t);
    HistoryWoken(s, t);
  }

  lemma {:induction false} HistoryWoken(s: State, t: Tid)
    requires HistoryOk(s) && t in s.pc && s.pc[t].Signalling? && SignallerOk(s, t)
    ensures HistoryOk(At(UpWaiter(s, s.pc[t].w), t, Holding))
  {
  }

  /** Every step ends without a failed assertion in a state with the invariant. */
  lemma {:induction false} StepKeepsInv(s: State, a: Action)
    requires Inv(s) && Enabled(s, a)
    ensures Step(s, a).Ok? && Inv(Step(s, a).s)
  {
    NoPanic(s, a);
    match a.op
    case BeginAcquire => MoveKeepsInv(s, a.t, LockTest(false));
    case TryAcquire => if s.value > 0 { TakeLockKeepsInv(s, a.t, false); }
    case LockDown => if s.value > 0 { TakeLockKeepsInv(s, a.t, s.pc[a.t].inWait); } else { ParkKeepsInv(s, a.t); }
    case RecordHolder => RecordKeepsInv(s, a.t);
    case ClearHolder => ClearKeepsInv(s, a.t, Releasing);
    case LockUp => UpLockKeepsInv(s, a.t, Outside);
    case Wait(c) => WaitKeepsInv(s, a.t, c);
    case WaitClearHolder => ClearKeepsInv(s, a.t, WaitReleasing(s.pc[a.t].c));
    case WaitLockUp => UpLockKeepsInv(s, a.t, WaitTest(s.pc[a.t].c));
    case WaitDown => TestOwnKeepsInv(s, a.t, Step(s, a).s);
    case SignalPop(c) => if s.conds[c] != [] { PickKeepsInv(s, a.t, c); }
    case SignalUp => WakeKeepsInv(s, a.t);
  }

  lemma {:induction false} InitialHasInv(s: State)
    requires Initial(s)
    ensures Inv(s)
  {
  }

  // ----- every run

  lemma {:induction false} RunKeepsInv(ss: seq<State>, acts: seq<Action>, i: nat)
    requires IsRun(ss, acts) && Initial(ss[0]) && i < |ss|
    ensures Inv(ss[i])
  {
    if i == 0 {
      InitialHasInv(ss[0]);
    } else {
      RunKeepsInv(ss, acts, i - 1);
      StepKeepsInv(ss[i - 1], acts[i - 1]);
    }
  }

  /** In every reachable state at most one thread is inside the lock, the semaphore is 0 or 1, and the
      recorded holder is the thread that has taken the semaphore and said so. */
  lemma {:induction false} MutualExclusion(ss: seq<State>, acts: seq<Action>, i: nat, t: Tid, u: Tid)
    requires IsRun(ss, acts) && Initial(ss[0]) && i < |ss| && t in ss[i].pc && u in ss[i].pc
    ensures ss[i].value <= 1
    ensures Inside(ss[i].pc[t]) && Inside(ss[i].pc[u]) ==> t == u && ss[i].value == 0
    ensures ss[i].holder == HeldBy(t) <==> Recorded(ss[i].pc[t])
  {
    RunKeepsInv(ss, acts, i);
  }

  /** cond_wait returns only with the lock held and after one signal was sent to this very call. */
  lemma {:induction false} WaitReturnsSignalled(ss: seq<State>, acts: seq<Action>, i: nat, t: Tid)
    requires IsRun(ss, acts) && Initial(ss[0]) && i < |acts|
    requires acts[i] == Action(t, RecordHolder) && ss[i].pc[t] == LockTaken(true)
    ensures ss[i + 1].holder == HeldBy(t) && ss[i + 1].pc[t].Holding?
    ensures t in ss[i].signals && ss[i].signals[t] == Signalled && t in ss[i].wakeups && ss[i].wakeups[t] == 1
  {
    RunKeepsInv(ss, acts, i);
  }

  // ----- the order of signals

  /** A signaller takes the first waiter of condition c off its list. */
  predicate Pops(s: State, a: Action, c: CondId) { a.op == SignalPop(c) && c in s.conds && s.conds[c] != [] }

  /** In one step a condition's list loses its front to a signaller, who chooses it; or it grows at its end; or it
      stays as it is. */
  ghost predicate CondMoves(s: State, a: Action, s': State, c: CondId) {
    c in s.conds ==>
      && c in s'.conds
      && (!Pops(s, a, c) ==> s'.conds[c] == if a.op == Wait(c) then s.conds[c] + [a.t] else s.conds[c])
      && (Pops(s, a, c) ==> s'.conds[c] == s.conds[c][1..] && Chooses(s', a.t, s.conds[c][0]))
  }

  /** Thread t has chosen the waiter w and is about to wake it. */
  ghost predicate Chooses(s: State, t: Tid, w: Tid) {
    t in s.pc && s.pc[t] == Signalling(w) && w in s.signals && s.signals[w] == Chosen
  }

  lemma {:induction false} StepCond(s: State, a: Action, c: CondId)
    requires Enabled(s, a) && Step(s, a).Ok?
    ensures CondMoves(s, a, Step(s, a).s, c)
  {
  }

  ghost predicate CondRun(ss: seq<State>, acts: seq<Action>, c: CondId) {
    |ss| == |acts| + 1 && forall i :: 0 <= i < |acts| ==> CondMoves(ss[i], acts[i], ss[i + 1], c)
  }

  lemma {:induction false} RunIsCondRun(ss: seq<State>, acts: seq<Action>, c: CondId)
    requires IsRun(ss, acts)
    ensures CondRun(ss, acts, c)
  {
    forall i | 0 <= i < |acts| ensures CondMoves(ss[i], acts[i], ss[i + 1], c) {
      assert Enabled(ss[i], acts[i]) && Step(ss[i], acts[i]) == Ok(ss[i + 1]);
      StepCond(ss[i], acts[i], c);
    }
  }

  /** The number of waiters of c chosen in the steps from i up to n */
  ghost function Chosens(ss: seq<State>, acts: seq<Action>, c: CondId, i: nat, n: nat): nat
    requires i <= n <= |acts| < |ss|
  {
    if n == i then 0 else Chosens(ss, acts, c, i, n - 1) + if Pops(ss[n - 1], acts[n - 1], c) then 1 else 0
  }

  ghost predicate AtPlace(s: State, c: CondId, x: int, w: Tid) {
    c in s.conds && 0 <= x < |s.conds[c]| && s.conds[c][x] == w
  }

  lemma {:induction false} Advances(s: State, a: Action, s': State, c: CondId, x: nat, w: Tid)
    requires CondMoves(s, a, s', c) && AtPlace(s, c, x, w)
    ensures !Pops(s, a, c) ==> AtPlace(s', c, x, w)
    ensures Pops(s, a, c) && x > 0 ==> AtPlace(s', c, x - 1, w)
    ensures Pops(s, a, c) && x == 0 ==> Chooses(s', a.t, w)
  {
  }

  lemma {:induction false} MovesUp(ss: seq<State>, acts: seq<Action>, c: CondId, i: nat, p: nat, n: nat, w: Tid)
    requires CondRun(ss, acts, c) && i <= n < |ss| && AtPlace(ss[i], c, p, w)
    ensures Chosens(ss, acts, c, i, n) <= p ==> AtPlace(ss[n], c, p - Chosens(ss, acts, c, i, n), w)
    ensures n > i && Chosens(ss, acts, c, i, n - 1) == p && Pops(ss[n - 1], acts[n - 1], c) ==>
      Chooses(ss[n], acts[n - 1].t, w)
  {
    if n > i {
      var m := n - 1;
      MovesUp(ss, acts, c, i, p, m, w);
      var k := Chosens(ss, acts, c, i, m);
      if k <= p {
        assert CondMoves(ss[m], acts[m], ss[m + 1], c);
        Advances(ss[m], acts[m], ss[n], c, p - k, w);
      }
    }
  }

  predicate IsUnsignalled(s: State, w: Tid) { w in s.signals && s.signals[w] == Unsignalled }

  lemma {:induction false} StillWaiting(ss: seq<State>, acts: seq<Action>, c: CondId, n: nat, x: int, w: Tid)
    requires IsRun(ss, acts) && Initial(ss[0]) && n < |ss| && AtPlace(ss[n], c, x, w)
    ensures IsUnsignalled(ss[n], w)
  {
    RunKeepsInv(ss, acts, n);
    assert CondListOk(ss[n], c) && ss[n].conds[c][x] in ss[n].conds[c];
  }

  /** In every run a condition's waiters are signalled in order: the thread at position p of the list is the one chosen
      by the signal that follows the first p ones to that condition; until then it moves up one place with each
      and is not signalled. */
  lemma {:induction false} SignalsLongestWaiter(ss: seq<State>, acts: seq<Action>, c: CondId, i: nat, p: nat, n: nat,
        w: Tid)
    requires IsRun(ss, acts) && Initial(ss[0]) && i <= n < |ss| && AtPlace(ss[i], c, p, w)
    ensures Chosens(ss, acts, c, i, n) <= p ==>
      AtPlace(ss[n], c, p - Chosens(ss, acts, c, i, n), w) && IsUnsignalled(ss[n], w)
    ensures n < |acts| && Chosens(ss, acts, c, i, n) == p && Pops(ss[n], acts[n], c) ==>
      Chooses(ss[n + 1], acts[n].t, w)
  {
    RunIsCondRun(ss, acts, c);
    ServedInOrder(ss, acts, c, i, p, n, w);
    InPlaceWaiting(ss, acts, c, n, p - Chosens(ss, acts, c, i, n), w);
  }

  lemma {:induction false} InPlaceWaiting(ss: seq<State>, acts: seq<Action>, c: CondId, n: nat, x: int, w: Tid)
    requires IsRun(ss, acts) && Initial(ss[0]) && n < |ss|
    ensures AtPlace(ss[n], c, x, w) ==> IsUnsignalled(ss[n], w)
  {
    if AtPlace(ss[n], c, x, w) { StillWaiting(ss, acts, c, n, x, w); }
  }

  lemma {:induction false} ServedInOrder(ss: seq<State>, acts: seq<Action>, c: CondId, i: nat, p: nat, n: nat, w: Tid)
    requires CondRun(ss, acts, c) && i <= n < |ss| && AtPlace(ss[i], c, p, w)
    ensures Chosens(ss, acts, c, i, n) <= p ==> AtPlace(ss[n], c, p - Chosens(ss, acts, c, i, n), w)
    ensures n < |acts| && Chosens(ss, acts, c, i, n) == p && Pops(ss[n], acts[n], c) ==>
      Chooses(ss[n + 1], acts[n].t, w)
  {
    MovesUp(ss, acts, c, i, p, n, w);
    if n < |acts| { MovesUp(ss, acts, c, i, p, n + 1, w); }
  }

  /** From state i up to state n thread w has not been signalled. */
  ghost predicate Waiting(ss: seq<State>, w: Tid, i: nat, n: nat) {
    forall m | i <= m <= n < |ss| :: IsUnsignalled(ss[m], w)
  }

  lemma {:induction false} FewChosen(ss: seq<State>, acts: seq<Action>, c: CondId, i: nat, p: nat, n: nat, w: Tid)
    requires CondRun(ss, acts, c) && i <= n < |ss| && AtPlace(ss[i], c, p, w) && Waiting(ss, w, i, n)
    ensures Chosens(ss, acts, c, i, n) <= p && AtPlace(ss[n], c, p - Chosens(ss, acts, c, i, n), w)
  {
    if n > i { FewChosen(ss, acts, c, i, p, n - 1, w); }
    assert IsUnsignalled(ss[n], w);
    MovesUp(ss, acts, c, i, p, n, w);
  }

  /** No waiter is overtaken: while thread w, once on the list of c, has not been signalled, no thread that began to
      wait for c later has been chosen. */
  lemma {:induction false} NoOvertaking(ss: seq<State>, acts: seq<Action>, c: CondId, i: nat, p: nat, w: Tid, j: nat,
        n: nat)
    requires IsRun(ss, acts) && Initial(ss[0]) && i <= j < n < |ss| && AtPlace(ss[i], c, p, w)
    requires Waiting(ss, w, i, n) && acts[j].op == Wait(c)
    ensures IsUnsignalled(ss[n], acts[j].t) && c in ss[n].conds && acts[j].t in ss[n].conds[c]
  {
    RunIsCondRun(ss, acts, c);
    var x, y := Enqueues(ss, acts, c, i, p, w, j);
    FewChosen(ss, acts, c, j + 1, x, n, w);
    SignalsLongestWaiter(ss, acts, c, j + 1, y, n, acts[j].t);
  }

  lemma {:induction false} Enqueues(ss: seq<State>, acts: seq<Action>, c: CondId, i: nat, p: nat, w: Tid, j: nat)
    returns (x: nat, y: nat)
    requires CondRun(ss, acts, c) && i <= j < |acts| && AtPlace(ss[i], c, p, w) && Waiting(ss, w, i, j)
      && acts[j].op == Wait(c)
    ensures x < y && AtPlace(ss[j + 1], c, x, w) && AtPlace(ss[j + 1], c, y, acts[j].t)
  {
    FewChosen(ss, acts, c, i, p, j, w);
    x, y := p - Chosens(ss, acts, c, i, j), |ss[j].conds[c]|;
    assert CondMoves(ss[j], acts[j], ss[j + 1], c);
  }

  // ----- no one waits for a free lock

  /** While the lock's semaphore is up and threads are parked on it, another is on its way to take it. */
  ghost predicate Contended(s: State) {
    s.value > 0 && s.waiters != [] ==> exists t :: t in s.pc && s.pc[t].LockTest?
  }

  lemma {:induction false} StepContended(s: State, a: Action)
    requires LockListOk(s) && s.value <= 1 && Contended(s) && Enabled(s, a) && Step(s, a).Ok?
    ensures Contended(Step(s, a).s)
  {
    if UpsLock(a) { UpContended(s, a); } else { OtherContended(s, a); }
  }

  lemma {:induction false} UpContended(s: State, a: Action)
    requires LockListOk(s) && Enabled(s, a) && Step(s, a).Ok? && UpsLock(a)
    ensures Contended(Step(s, a).s)
  {
    var s' := Step(s, a).s;
    if s'.waiters != [] {
      var w := s.waiters[0];
      assert w in s.waiters && w in s.pc && s.pc[w].LockParked?;
      assert w in s'.pc && s'.pc[w].LockTest?;
    }
  }

  lemma {:induction false} OtherContended(s: State, a: Action)
    requires s.value <= 1 && Contended(s) && Enabled(s, a) && Step(s, a).Ok? && !UpsLock(a)
    ensures Contended(Step(s, a).s)
  {
    var s' := Step(s, a).s;
    if s'.value > 0 && s'.waiters != [] {
      var t :| t in s.pc && s.pc[t].LockTest?;
      assert t in s'.pc && s'.pc[t].LockTest?;
    }
  }

  lemma {:induction false} NoLostWakeup(ss: seq<State>, acts: seq<Action>, i: nat)
    requires IsRun(ss, acts) && Initial(ss[0]) && i < |ss|
    ensures Contended(ss[i])
  {
    if i > 0 {
      var m := i - 1;
      NoLostWakeup(ss, acts, m);
      RunKeepsInv(ss, acts, m);
      assert Enabled(ss[m], acts[m]) && Step(ss[m], acts[m]) == Ok(ss[m + 1]);
      StepContended(ss[m], acts[m]);
    }
  }

  predicate SomeoneInside(s: State) { exists t :: t in s.pc && Inside(s.pc[t]) }

  /** A thread that tries for the lock, or tests it in sema_down, takes it exactly if no one is inside; otherwise
      lock_try_acquire changes nothing and sema_down parks the thread behind the others. */
  lemma {:induction false} TakesFreeLock(ss: seq<State>, acts: seq<Action>, i: nat)
    requires IsRun(ss, acts) && Initial(ss[0]) && i < |acts| && (acts[i].op.TryAcquire? || acts[i].op.LockDown?)
    ensures var t := acts[i].t;
      if !SomeoneInside(ss[i]) then t in ss[i + 1].pc && ss[i + 1].pc[t].LockTaken?
      else if acts[i].op.TryAcquire? then ss[i + 1] == ss[i]
      else t in ss[i + 1].pc && ss[i + 1].pc[t].LockParked? && ss[i + 1].waiters == ss[i].waiters + [t]
  {
    RunKeepsInv(ss, acts, i);
    assert Enabled(ss[i], acts[i]) && Step(ss[i], acts[i]) == Ok(ss[i + 1]);
  }

  // ----- the lock's waiters, in order

  predicate UpsLock(a: Action) { a.op.LockUp? || a.op.WaitLockUp? }

  ghost predicate WaitersMove(s: State, a: Action, s': State) {
    if UpsLock(a) && s.waiters != [] then
      s'.waiters == s.waiters[1..] && s.waiters[0] in s'.pc && s'.pc[s.waiters[0]].LockTest?
    else s.waiters <= s'.waiters
  }

  lemma {:induction false} StepWaiters(s: State, a: Action)
    requires LockListOk(s) && Enabled(s, a) && Step(s, a).Ok?
    ensures WaitersMove(s, a, Step(s, a).s)
  {
    if UpsLock(a) {
      if s.waiters != [] { assert s.waiters[0] in s.waiters; }
    } else {
      WaitersGrow(s, a);
    }
  }

  lemma {:induction false} WaitersGrow(s: State, a: Action)
    requires Enabled(s, a) && Step(s, a).Ok? && !UpsLock(a)
    ensures s.waiters <= Step(s, a).s.waiters
  {
  }

  ghost predicate WaitersRun(ss: seq<State>, acts: seq<Action>) {
    |ss| == |acts| + 1 && forall i :: 0 <= i < |acts| ==> WaitersMove(ss[i], acts[i], ss[i + 1])
  }

  lemma {:induction false} RunIsWaitersRun(ss: seq<State>, acts: seq<Action>)
    requires IsRun(ss, acts) && Initial(ss[0])
    ensures WaitersRun(ss, acts)
  {
    forall i | 0 <= i < |acts| ensures WaitersMove(ss[i], acts[i], ss[i + 1]) {
      RunKeepsInv(ss, acts, i);
      assert Enabled(ss[i], acts[i]) && Step(ss[i], acts[i]) == Ok(ss[i + 1]);
      StepWaiters(ss[i], acts[i]);
    }
  }

  function LockUps(acts: seq<Action>, i: nat, n: nat): nat
    requires i <= n <= |acts|
  {
    if i == n then 0 else LockUps(acts, i, n - 1) + if UpsLock(acts[n - 1]) then 1 else 0
  }

  /** The thread at position p of the lock's list is unblocked by the (p + 1)-st release, and until then moves up one
      place with each. */
  lemma {:induction false} ReleasedInOrder(ss: seq<State>, acts: seq<Action>, i: nat, p: nat, n: nat)
    requires IsRun(ss, acts) && Initial(ss[0]) && i <= n <= |acts| && p < |ss[i].waiters|
    ensures var u, w := LockUps(acts, i, n), ss[n].waiters;
      u <= p ==> p - u < |w| && w[p - u] == ss[i].waiters[p]
    ensures n > i && UpsLock(acts[n - 1]) && LockUps(acts, i, n - 1) == p ==>
      ss[i].waiters[p] in ss[n].pc && ss[n].pc[ss[i].waiters[p]].LockTest?
  {
    RunIsWaitersRun(ss, acts);
    Released(ss, acts, i, p, n);
  }

  lemma {:induction false} Released(ss: seq<State>, acts: seq<Action>, i: nat, p: nat, n: nat)
    requires WaitersRun(ss, acts) && i <= n <= |acts| && p < |ss[i].waiters|
    ensures var u, w := LockUps(acts, i, n), ss[n].waiters;
      u <= p ==> p - u < |w| && w[p - u] == ss[i].waiters[p]
    ensures n > i && UpsLock(acts[n - 1]) && LockUps(acts, i, n - 1) == p ==>
      ss[i].waiters[p] in ss[n].pc && ss[n].pc[ss[i].waiters[p]].LockTest?
  {
    if n > i {
      Released(ss, acts, i, p, n - 1);
      assert WaitersMove(ss[n - 1], acts[n - 1], ss[n - 1 + 1]);
    }
  }

  // ----- one signal for each wait

  /** The step ups the semaphore on which thread t waits. */
  predicate Signals(s: State, a: Action, t: Tid) { a.op.SignalUp? && a.t in s.pc && s.pc[a.t] == Signalling(t) }

  function SignalsTo(ss: seq<State>, acts: seq<Action>, t: Tid, i: nat, n: nat): nat
    requires i <= n <= |acts| < |ss|
  {
    if i == n then 0 else SignalsTo(ss, acts, t, i, n - 1) + if Signals(ss[n - 1], acts[n - 1], t) then 1 else 0
  }

  /** Step i begins a call of cond_wait by t, and up to state n t begins no other. */
  ghost predicate WaitsSince(acts: seq<Action>, t: Tid, i: nat, n: nat) {
    i < n <= |acts| && acts[i].t == t && acts[i].op.Wait? && forall j | i < j < n && acts[j].t == t :: !acts[j].op.Wait?
  }

  /** What a step does to the count of signals to t's latest call of cond_wait */
  ghost predicate WakeupsMove(s: State, a: Action, s': State, t: Tid) {
    if a.t == t && a.op.Wait? then t in s'.wakeups && s'.wakeups[t] == 0
    else if t in s.wakeups then
      t in s'.wakeups && s'.wakeups[t] == s.wakeups[t] + if Signals(s, a, t) then 1 else 0
    else t !in s'.wakeups
  }

  lemma {:induction false} StepWakeups(s: State, a: Action, t: Tid)
    requires Inv(s) && Enabled(s, a) && Step(s, a).Ok?
    ensures WakeupsMove(s, a, Step(s, a).s, t)
  {
    if a.op.SignalUp? { SignalWakesOnce(s, a.t); }
  }

  ghost predicate WakeupsRun(ss: seq<State>, acts: seq<Action>, t: Tid) {
    |ss| == |acts| + 1 && forall i :: 0 <= i < |acts| ==> WakeupsMove(ss[i], acts[i], ss[i + 1], t)
  }

  lemma {:induction false} RunIsWakeupsRun(ss: seq<State>, acts: seq<Action>, t: Tid)
    requires IsRun(ss, acts) && Initial(ss[0])
    ensures WakeupsRun(ss, acts, t)
  {
    forall i | 0 <= i < |acts| ensures WakeupsMove(ss[i], acts[i], ss[i + 1], t) {
      RunKeepsInv(ss, acts, i);
      assert Enabled(ss[i], acts[i]) && Step(ss[i], acts[i]) == Ok(ss[i + 1]);
      StepWakeups(ss[i], acts[i], t);
    }
  }

  lemma {:induction false} WakeupsCount(ss: seq<State>, acts: seq<Action>, t: Tid, i: nat, n: nat)
    requires WakeupsRun(ss, acts, t) && WaitsSince(acts, t, i, n)
    ensures t in ss[n].wakeups && ss[n].wakeups[t] == SignalsTo(ss, acts, t, i, n)
  {
    var m := n - 1;
    assert WakeupsMove(ss[m], acts[m], ss[m + 1], t);
    if i < m {
      WakeupsCount(ss, acts, t, i, m);
    } else {
      assert SignalsTo(ss, acts, t, i, i) == 0;
    }
  }

  lemma {:induction false} WaitBegan(ss: seq<State>, acts: seq<Action>, t: Tid, n: nat) returns (i: nat)
    requires WakeupsRun(ss, acts, t) && t !in ss[0].wakeups && n <= |acts| && t in ss[n].wakeups
    ensures WaitsSince(acts, t, i, n)
  {
    var m := n - 1;
    assert WakeupsMove(ss[m], acts[m], ss[m + 1], t);
    if acts[m].t == t && acts[m].op.Wait? { i := m; } else { i := WaitBegan(ss, acts, t, m); }
  }

  /** In every run: when cond_wait returns, with the lock held, exactly one signal has been sent to this very call since
      it began, and none before. */
  lemma {:induction false} OneSignalPerWait(ss: seq<State>, acts: seq<Action>, t: Tid, n: nat) returns (i: nat)
    requires IsRun(ss, acts) && Initial(ss[0]) && n < |acts|
    requires acts[n] == Action(t, RecordHolder) && ss[n].pc[t] == LockTaken(true)
    ensures WaitsSince(acts, t, i, n) && SignalsTo(ss, acts, t, i, n) == 1
    ensures ss[n + 1].holder == HeldBy(t) && ss[n + 1].pc[t].Holding?
  {
    WaitReturnsSignalled(ss, acts, n, t);
    RunIsWakeupsRun(ss, acts, t);
    i := WaitBegan(ss, acts, t, n);
    WakeupsCount(ss, acts, t, i, n);
  }

  /** And a waiting thread is blocked only as long as none has been sent. */
  lemma {:induction false} ParkedUnsignalled(ss: seq<State>, acts: seq<Action>, t: Tid, i: nat, n: nat)
    requires IsRun(ss, acts) && Initial(ss[0]) && WaitsSince(acts, t, i, n) && t in ss[n].pc && ss[n].pc[t].WaitParked?
    ensures SignalsTo(ss, acts, t, i, n) == 0
  {
    RunIsWakeupsRun(ss, acts, t);
    WakeupsCount(ss, acts, t, i, n);
    RunKeepsInv(ss, acts, n);
    assert WaiterOk(ss[n], t);
  }
}
