/** How parents and children share completion status (pintos/src/userprog/process.c): process_execute
    and start_process, process_wait, process_exit and release_child as an interleaving step system
    over any number of processes.

    A child's wait_status is named by the child's thread identifier. Every step that touches a
    wait_status that is not allocated, or a parent's exec_info after process_execute has returned
    or has been reused for another child, is a Fault. */
module ProcessWait {
  import opened Options
  import opened Queues

  type Tid = nat

  /** A wait_status; locked is the holder of its lock. */
  datatype WaitStatus = WaitStatus(refCnt: nat, exitCode: int, dead: nat, locked: Option<Tid>)

  /** What follows release_child: process_wait returns the code, or process_exit goes on. */
  datatype Then = ReturnCode(code: int) | OwnDone | NextChild

  /** The stages of release_child: before taking the lock, holding it with the count already
      decremented to n, and after giving the lock back. */
  datatype Stage = Want | Locked | Unlocked

  datatype Pc =
    | Running
    | Execing(c: Tid)                     // in process_execute, before sema_down returns
    | Loading(p: Tid)                     // in start_process
    | Reporting(p: Tid, ok: bool)         // exec_info filled in, load_done not yet upped
    | Waiting(c: Tid)                     // in process_wait, c's status taken off the list
    | Release(c: Tid, stage: Stage, n: nat, then_: Then)
    | ExitStart                           // in process_exit
    | ExitCodeWritten
    | ExitChildren
    | Gone

  /** struct thread's fields: children is the list of the children's statuses, hasStatus tells whether
      wait_status is non-null. As history, parent is the process that executed this one, and waited what its
      latest call of process_wait that has returned did return. */
  datatype Proc = Proc(pc: Pc, children: seq<Tid>, hasStatus: bool, code: int, parent: Option<Tid>, waited: Option<int>)

  /** exec_info on the stack of the parent. */
  datatype ExecInfo = ExecInfo(child: Tid, loadDone: nat, success: bool)

  /** freed are the statuses that have been freed; reaped the children whose exit code process_wait
      has returned. */
  datatype State = State(
    procs: map<Tid, Proc>, statuses: map<Tid, WaitStatus>, frames: map<Tid, ExecInfo>,
    freed: set<Tid>, reaped: set<Tid>)

  datatype Action =
    | Exec(t: Tid, c: Tid) | Load(t: Tid, ok: bool) | Report(t: Tid) | ExecReturn(t: Tid)
    | Wait(t: Tid, c: Tid) | WaitDown(t: Tid)
    | Exit(t: Tid, code: int) | WriteCode(t: Tid) | UpDead(t: Tid) | TakeChild(t: Tid)
    | Decrement(t: Tid) | Unlock(t: Tid) | Free(t: Tid)

  datatype Outcome = Ok(s: State) | Fault

  function At(s: State, t: Tid, pc: Pc): State
    requires t in s.procs
  {
    s.(procs := s.procs[t := s.procs[t].(pc := pc)])
  }

  /** Where release_child returns to. */
  function After(k: Then): Pc {
    match k
    case ReturnCode(_) => Running
    case OwnDone => ExitChildren
    case NextChild => ExitChildren
  }

  /** release_child returns, and so does the process_wait that called it. */
  function Back(s: State, t: Tid, k: Then): State
    requires t in s.procs
  {
    s.(procs := s.procs[t := s.procs[t].(pc := After(k),
      waited := if k.ReturnCode? then Some(k.code) else s.procs[t].waited)])
  }

  // ----- process_execute and start_process

  predicate CanExec(s: State, t: Tid, c: Tid) { t in s.procs && s.procs[t].pc.Running? && c !in s.procs }

  function DoExec(s: State, t: Tid, c: Tid): Outcome
    requires CanExec(s, t, c)
  {
    Ok(s.(procs := s.procs[t := s.procs[t].(pc := Execing(c))][c := Proc(Loading(t), [], false, -1, Some(t), None)],
          frames := s.frames[t := ExecInfo(c, 0, false)]))
  }

  predicate CanLoad(s: State, t: Tid) { t in s.procs && s.procs[t].pc.Loading? }

  function DoLoad(s: State, t: Tid, ok: bool): Outcome
    requires CanLoad(s, t)
  {
    var p := s.procs[t].pc.p;
    if p !in s.frames || s.frames[p].child != t then Fault
    else Ok(s.(procs := s.procs[t := s.procs[t].(pc := Reporting(p, ok), hasStatus := ok)],
               statuses := if ok then s.statuses[t := WaitStatus(2, 0, 0, None)] else s.statuses,
               frames := s.frames[p := s.frames[p].(success := ok)]))
  }

  predicate CanReport(s: State, t: Tid) { t in s.procs && s.procs[t].pc.Reporting? }

  function DoReport(s: State, t: Tid): Outcome
    requires CanReport(s, t)
  {
    var p := s.procs[t].pc.p;
    if p !in s.frames || s.frames[p].child != t then Fault
    else Ok(At(s.(frames := s.frames[p := s.frames[p].(loadDone := s.frames[p].loadDone + 1)]), t,
               if s.procs[t].pc.ok then Running else ExitStart))
  }

  /** sema_down (&exec.load_done) returns once the value is positive. */
  predicate CanExecReturn(s: State, t: Tid) {
    t in s.procs && s.procs[t].pc.Execing? && t in s.frames && s.frames[t].loadDone > 0
  }

  function DoExecReturn(s: State, t: Tid): Outcome
    requires CanExecReturn(s, t)
  {
    var x := s.procs[t];
    var c, ok := x.pc.c, s.frames[t].success;
    if ok && c !in s.statuses then Fault
    else Ok(s.(frames := s.frames - {t},
               procs := s.procs[t := x.(pc := Running, children := if ok then x.children + [c] else x.children)]))
  }

  // ----- process_wait

  predicate CanWait(s: State, t: Tid) { t in s.procs && s.procs[t].pc.Running? }

  /** The loop reads the tid of the statuses on the list; without a match process_wait returns -1. */
  function DoWait(s: State, t: Tid, c: Tid): Outcome
    requires CanWait(s, t)
  {
    var x := s.procs[t];
    if exists d :: d in x.children && d !in s.statuses then Fault
    else if c !in x.children then Ok(s.(procs := s.procs[t := x.(waited := Some(-1))]))
    else Ok(s.(procs := s.procs[t := x.(pc := Waiting(c), children := Without(x.children, c))]))
  }

  /** sema_down (&cs->dead) returns once the value is positive. */
  predicate CanWaitDown(s: State, t: Tid) {
    t in s.procs && s.procs[t].pc.Waiting? && (s.procs[t].pc.c in s.statuses ==> s.statuses[s.procs[t].pc.c].dead > 0)
  }

  function DoWaitDown(s: State, t: Tid): Outcome
    requires CanWaitDown(s, t)
  {
    var c := s.procs[t].pc.c;
    if c !in s.statuses then Fault
    else
      var w := s.statuses[c];
      Ok(At(s.(statuses := s.statuses[c := w.(dead := w.dead - 1)], reaped := s.reaped + {c}), t,
            Release(c, Want, 0, ReturnCode(w.exitCode))))
  }

  // ----- process_exit

  predicate CanExit(s: State, t: Tid) { t in s.procs && s.procs[t].pc.Running? }

  function DoExit(s: State, t: Tid, code: int): Outcome
    requires CanExit(s, t)
  {
    Ok(s.(procs := s.procs[t := s.procs[t].(pc := ExitStart, code := code)]))
  }

  predicate CanWriteCode(s: State, t: Tid) { t in s.procs && s.procs[t].pc.ExitStart? }

  function DoWriteCode(s: State, t: Tid): Outcome
    requires CanWriteCode(s, t)
  {
    if !s.procs[t].hasStatus then Ok(At(s, t, ExitChildren))
    else if t !in s.statuses then Fault
    else Ok(At(s.(statuses := s.statuses[t := s.statuses[t].(exitCode := s.procs[t].code)]), t, ExitCodeWritten))
  }

  predicate CanUpDead(s: State, t: Tid) { t in s.procs && s.procs[t].pc.ExitCodeWritten? }

  function DoUpDead(s: State, t: Tid): Outcome
    requires CanUpDead(s, t)
  {
    if t !in s.statuses then Fault
    else Ok(At(s.(statuses := s.statuses[t := s.statuses[t].(dead := s.statuses[t].dead + 1)]), t,
      Release(t, Want, 0, OwnDone)))
  }

  predicate CanTakeChild(s: State, t: Tid) { t in s.procs && s.procs[t].pc.ExitChildren? }

  function DoTakeChild(s: State, t: Tid): Outcome
    requires CanTakeChild(s, t)
  {
    var x := s.procs[t];
    if x.children == [] then Ok(At(s, t, Gone))
    else if x.children[0] !in s.statuses then Fault
    else Ok(s.(procs :=
      s.procs[t := x.(pc := Release(x.children[0], Want, 0, NextChild), children := x.children[1..])]))
  }

  // ----- release_child

  predicate InRelease(s: State, t: Tid, stage: Stage) {
    t in s.procs && s.procs[t].pc.Release? && s.procs[t].pc.stage == stage
  }

  /** lock_acquire (&cs->lock) returns once the lock is free. */
  predicate CanDecrement(s: State, t: Tid) {
    InRelease(s, t, Want) && (s.procs[t].pc.c in s.statuses ==> s.statuses[s.procs[t].pc.c].locked.None?)
  }

  function DoDecrement(s: State, t: Tid): Outcome
    requires CanDecrement(s, t)
  {
    var c := s.procs[t].pc.c;
    if c !in s.statuses || s.statuses[c].refCnt == 0 then Fault
    else
      var n := s.statuses[c].refCnt - 1;
      Ok(At(s.(statuses := s.statuses[c := s.statuses[c].(refCnt := n, locked := Some(t))]), t,
            s.procs[t].pc.(stage := Locked, n := n)))
  }

  function DoUnlock(s: State, t: Tid): Outcome
    requires InRelease(s, t, Locked)
  {
    var c := s.procs[t].pc.c;
    if c !in s.statuses then Fault
    else Ok(At(s.(statuses := s.statuses[c := s.statuses[c].(locked := None)]), t, s.procs[t].pc.(stage := Unlocked)))
  }

  function DoFree(s: State, t: Tid): Outcome
    requires InRelease(s, t, Unlocked)
  {
    var c, k := s.procs[t].pc.c, s.procs[t].pc.then_;
    if s.procs[t].pc.n > 0 then Ok(Back(s, t, k))
    else if c !in s.statuses then Fault
    else Ok(Back(s.(statuses := s.statuses - {c}, freed := s.freed + {c}), t, k))
  }

  // ----- runs

  predicate Enabled(s: State, a: Action) {
    match a
    case Exec(t, c) => CanExec(s, t, c)
    case Load(t, _) => CanLoad(s, t)
    case Report(t) => CanReport(s, t)
    case ExecReturn(t) => CanExecReturn(s, t)
    case Wait(t, _) => CanWait(s, t)
    case WaitDown(t) => CanWaitDown(s, t)
    case Exit(t, _) => CanExit(s, t)
    case WriteCode(t) => CanWriteCode(s, t)
    case UpDead(t) => CanUpDead(s, t)
    case TakeChild(t) => CanTakeChild(s, t)
    case Decrement(t) => CanDecrement(s, t)
    case Unlock(t) => InRelease(s, t, Locked)
    case Free(t) => InRelease(s, t, Unlocked)
  }

  function Step(s: State, a: Action): Outcome
    requires Enabled(s, a)
  {
    match a
    case Exec(t, c) => DoExec(s, t, c)
    case Load(t, ok) => DoLoad(s, t, ok)
    case Report(t) => DoReport(s, t)
    case ExecReturn(t) => DoExecReturn(s, t)
    case Wait(t, c) => DoWait(s, t, c)
    case WaitDown(t) => DoWaitDown(s, t)
    case Exit(t, code) => DoExit(s, t, code)
    case WriteCode(t) => DoWriteCode(s, t)
    case UpDead(t) => DoUpDead(s, t)
    case TakeChild(t) => DoTakeChild(s, t)
    case Decrement(t) => DoDecrement(s, t)
    case Unlock(t) => DoUnlock(s, t)
    case Free(t) => DoFree(s, t)
  }

  ghost predicate IsRun(ss: seq<State>, acts: seq<Action>) {
    && |ss| == |acts| + 1
    && forall i :: 0 <= i < |acts| ==> Enabled(ss[i], acts[i]) && Step(ss[i], acts[i]) == Ok(ss[i + 1])
  }

  /** The first process, which no other process executed. */
  predicate Initial(s: State) {
    && (forall t | t in s.procs :: s.procs[t] == Proc(Running, [], false, -1, None, None))
    && s.statuses == map[] && s.frames == map[] && s.freed == {} && s.reaped == {}
  }

  // ----- one parent and one child

  /** What a parent is doing about one of its children: executing it, having it on its list, waiting for
      it, releasing its status; or the child is no longer, or not successfully, its concern. */
  datatype ParentView = InExec | Listed | InWait | Releasing(stage: Stage, n: nat, then_: Then) | Detached

  /** How far a child is with its own status; Done is after it has released it. */
  datatype ChildView = InLoad | InReport(ok: bool) | Alive | Exiting | CodeWritten | OwnRelease(stage: Stage,
    n: nat) | Done

  function ViewOfChild(y: Proc, c: Tid): ParentView {
    match y.pc
    case Execing(d) => if d == c then InExec else Lists(y, c)
    case Waiting(d) => if d == c then InWait else Lists(y, c)
    case Release(d, stage, n, k) => if d == c && !k.OwnDone? then Releasing(stage, n, k) else Lists(y, c)
    case _ => Lists(y, c)
  }

  function Lists(y: Proc, c: Tid): ParentView {
    if c in y.children then Listed else Detached
  }

  function ViewOfSelf(x: Proc): ChildView {
    match x.pc
    case Loading(_) => InLoad
    case Reporting(_, ok) => InReport(ok)
    case ExitStart => Exiting
    case ExitCodeWritten => CodeWritten
    case Release(_, stage, n, k) =>
      (match k case ReturnCode(_) => Alive case OwnDone => OwnRelease(stage, n) case NextChild => Done)
    case ExitChildren => Done
    case Gone => Done
    case _ => Alive
  }

  predicate ParentHolds(pv: ParentView) {
    pv.InExec? || pv.Listed? || pv.InWait? || (pv.Releasing? && pv.stage.Want?)
  }

  predicate ChildHolds(cv: ChildView) {
    cv.InReport? || cv.Alive? || cv.Exiting? || cv.CodeWritten? || (cv.OwnRelease? && cv.stage.Want?)
  }

  /** The exit code can no longer change. */
  predicate Settled(cv: ChildView) {
    cv.Exiting? || cv.CodeWritten? || cv.OwnRelease? || cv.Done?
  }

  function Count(b: bool): nat { if b then 1 else 0 }

  /** Everything that concerns one child c and its parent p. */
  datatype Pair = Pair(c: Tid, p: Tid, pv: ParentView, listed: bool, cv: ChildView, hasStatus: bool, code: int,
                       status: Option<WaitStatus>, frame: Option<ExecInfo>, freed: bool, reaped: bool)

  /** While the parent is in process_execute its exec_info is there, and the child is still loading
      exactly as long as load_done has not been upped. */
  ghost predicate FrameOk(q: Pair) {
    && (q.pv.InExec? ==>
          && q.frame.Some? && q.frame.value.child == q.c && q.frame.value.loadDone <= 1
          && (q.frame.value.loadDone == 0 <==> q.cv.InLoad? || q.cv.InReport?)
          && (q.cv.InReport? || q.frame.value.loadDone == 1 ==> q.frame.value.success == q.hasStatus))
    && (q.cv.InLoad? || q.cv.InReport? ==> q.pv.InExec?)
    && (q.cv.InLoad? ==> !q.hasStatus)
    && (q.cv.InReport? ==> q.hasStatus == q.cv.ok)
  }

  /** A child without a status is no one's concern once it has been reported; the status of a child that
      has one is allocated until both sides have released it and the last one has freed it. */
  ghost predicate AllocatedOk(q: Pair) {
    && (!q.hasStatus ==>
      q.status.None? && !q.freed && (q.pv.InExec? || q.pv.Detached?) && !q.cv.CodeWritten? && !q.cv.OwnRelease?)
    && (q.hasStatus ==> (q.freed <==> q.status.None?))
    && (q.hasStatus && (ParentHolds(q.pv) || ChildHolds(q.cv)) ==> q.status.Some?)
    && (q.status.Some? ==> q.status.value.refCnt == Count(ParentHolds(q.pv)) + Count(ChildHolds(q.cv)))
    // the one that decremented to zero, and only that one, is still to free the status
    && (q.status.Some? && q.status.value.refCnt == 0 ==>
          (q.pv.Releasing? && q.pv.n == 0) != (q.cv.OwnRelease? && q.cv.n == 0))
    && (q.pv.Releasing? && !q.pv.stage.Want? && q.pv.n == 0 ==> q.status.Some? && q.status.value.refCnt == 0)
    && (q.cv.OwnRelease? && !q.cv.stage.Want? && q.cv.n == 0 ==> q.status.Some? && q.status.value.refCnt == 0)
  }

  /** The lock is held exactly by a side that has decremented the count and not yet unlocked. */
  ghost predicate LockOk(q: Pair) {
    && (q.pv.Releasing? && q.pv.stage.Locked? ==>
          q.status.Some? && q.status.value.locked == Some(q.p) && q.pv.n == q.status.value.refCnt)
    && (q.cv.OwnRelease? && q.cv.stage.Locked? ==>
          q.status.Some? && q.status.value.locked == Some(q.c) && q.cv.n == q.status.value.refCnt)
    && (q.status.Some? && q.status.value.locked.Some? ==>
          (q.pv.Releasing? && q.pv.stage.Locked?) || (q.cv.OwnRelease? && q.cv.stage.Locked?))
  }

  /** The child has upped dead. */
  predicate SaidDead(cv: ChildView) { cv.OwnRelease? || cv.Done? }

  /** A dead child's code is in its status, it is what process_wait returns, and only once; dead is up from when
      the child says so until process_wait takes it. */
  ghost predicate CodeOk(q: Pair) {
    && (q.status.Some? ==> q.status.value.dead == Count(SaidDead(q.cv) && !q.reaped))
    && (q.status.Some? && (q.status.value.dead > 0 || q.cv.CodeWritten?) ==>
      q.status.value.exitCode == q.code && Settled(q.cv))
    && (q.pv.Releasing? ==> !q.pv.then_.OwnDone?)
    && (q.pv.Releasing? && q.pv.then_.ReturnCode? ==> q.pv.then_.code == q.code && Settled(q.cv) && q.reaped)
    && (q.reaped ==> SaidDead(q.cv))
    && (q.reaped ==> q.pv.Detached? || (q.pv.Releasing? && q.pv.then_.ReturnCode?))
  }

  ghost predicate PairOk(q: Pair) {
    && q.c != q.p && (q.listed <==> q.pv.Listed?)
    && FrameOk(q) && AllocatedOk(q) && LockOk(q) && CodeOk(q)
  }

  function Get<V>(m: map<Tid, V>, t: Tid): Option<V> {
    if t in m then Some(m[t]) else None
  }

  ghost function PairOf(s: State, c: Tid): Pair
    requires c in s.procs && s.procs[c].parent.Some? && s.procs[c].parent.value in s.procs
  {
    var p := s.procs[c].parent.value;
    var pv := ViewOfChild(s.procs[p], c);
    Pair(c, p, pv, c in s.procs[p].children, ViewOfSelf(s.procs[c]), s.procs[c].hasStatus, s.procs[c].code,
         Get(s.statuses, c), if pv.InExec? then Get(s.frames, p) else None, c in s.freed, c in s.reaped)
  }

  // ----- the invariant

  ghost predicate ChildOf(s: State, c: Tid, t: Tid) {
    c in s.procs && s.procs[c].parent == Some(t)
  }

  /** A process refers only to its own children, to its parent and to itself. */
  ghost predicate ProcOk(s: State, t: Tid)
    requires t in s.procs
  {
    var x := s.procs[t];
    && Distinct(x.children) && (forall c | c in x.children :: ChildOf(s, c, t))
    && (x.parent.Some? ==> x.parent.value in s.procs)
    && (x.parent.None? ==> !x.hasStatus && !x.pc.ExitCodeWritten?)
    && (match x.pc
        case Execing(c) => ChildOf(s, c, t)
        case Waiting(c) => ChildOf(s, c, t)
        case Loading(p) => x.parent == Some(p)
        case Reporting(p, _) => x.parent == Some(p)
        case Release(c, _, _, k) => if k.OwnDone? then c == t && x.parent.Some? else ChildOf(s, c, t)
        case Gone => x.children == []
        case _ => true)
  }

  ghost predicate ChildOk(s: State, c: Tid)
    requires c in s.procs
  {
    if s.procs[c].parent.Some? then s.procs[c].parent.value in s.procs && PairOk(PairOf(s, c))
    else c !in s.reaped && c !in s.statuses
  }

  ghost predicate Inv(s: State) {
    && (forall t | t in s.procs :: ProcOk(s, t))
    && (forall c | c in s.procs :: ChildOk(s, c))
  }

  // ----- steps, pair by pair

  /** Between s and s' process t has moved, and apart from t's own status only that of its child c has
      been touched. */
  ghost predicate Touches(s: State, s': State, t: Tid, c: Tid) {
    && t in s.procs && s'.procs.Keys == s.procs.Keys && s'.procs[t].parent == s.procs[t].parent
    && (forall u | u in s.procs && u != t :: s'.procs[u] == s.procs[u])
    && (forall d | d in s.procs && d != c && d != t ::
          && Get(s'.statuses, d) == Get(s.statuses, d) && (d in s'.freed <==> d in s.freed)
            && (d in s'.reaped <==> d in s.reaped)
          && (s.procs[d].parent == Some(t) ==> SameView(s.procs[t], s'.procs[t], d)))
    && (forall p | p in s.procs && p != t :: s.procs[p].pc != Execing(t) ==> Get(s'.frames, p) == Get(s.frames, p))
  }

  /** A parent's move does not concern its child d. */
  ghost predicate SameView(y: Proc, y': Proc, d: Tid) {
    && ViewOfChild(y', d) == ViewOfChild(y, d) && !ViewOfChild(y, d).InExec?
    && (d in y'.children <==> d in y.children)
  }

  lemma {:induction false} OtherProcs(s: State, s': State, t: Tid, c: Tid, u: Tid)
    requires Touches(s, s', t, c) && u in s.procs && u != t && ProcOk(s, u)
    ensures ProcOk(s', u)
  {
    forall d | ChildOf(s, d, u) ensures ChildOf(s', d, u) {}
  }

  lemma {:induction false} OtherPairs(s: State, s': State, t: Tid, c: Tid, d: Tid)
    requires Touches(s, s', t, c) && d in s.procs && d != t && d != c && ChildOk(s, d)
    ensures ChildOk(s', d)
  {
    if s.procs[d].parent.Some? {
      assert PairOf(s', d) == PairOf(s, d);
    }
  }

  ghost predicate Local(s: State, s': State, t: Tid, c: Tid) {
    Touches(s, s', t, c) && ProcOk(s', t) && ChildOk(s', t) && (c in s.procs ==> ChildOk(s', c))
  }

  /** To keep the invariant it is enough to look at the process that moves and the child it touches. */
  lemma {:induction false} LocalSteps(s: State, s': State, t: Tid, c: Tid)
    requires Inv(s) && Local(s, s', t, c)
    ensures Inv(s')
  {
    forall u | u in s'.procs ensures ProcOk(s', u) {
      if u != t { OtherProcs(s, s', t, c, u); }
    }
    forall d | d in s'.procs ensures ChildOk(s', d) {
      if d != t && d != c { OtherPairs(s, s', t, c, d); }
    }
  }

  // ----- process_execute and start_process

  lemma {:induction false} ExecOtherProc(s: State, t: Tid, c: Tid, u: Tid)
    requires CanExec(s, t, c) && u in s.procs && ProcOk(s, u)
    ensures ProcOk(DoExec(s, t, c).s, u)
  {
    var s' := DoExec(s, t, c).s;
    forall d | ChildOf(s, d, u) ensures ChildOf(s', d, u) {}
  }

  lemma {:induction false} ExecOtherPair(s: State, t: Tid, c: Tid, d: Tid)
    requires CanExec(s, t, c) && d in s.procs && ChildOk(s, d)
    ensures ChildOk(DoExec(s, t, c).s, d)
  {
    if s.procs[d].parent.Some? {
      assert PairOf(DoExec(s, t, c).s, d) == PairOf(s, d);
    }
  }

  lemma {:induction false} ExecNewPair(s: State, t: Tid, c: Tid)
    requires CanExec(s, t, c) && ProcOk(s, t) && c !in s.statuses && c !in s.freed && c !in s.reaped
    ensures ProcOk(DoExec(s, t, c).s, c) && ChildOk(DoExec(s, t, c).s, c)
  {
    assert c in s.procs[t].children ==> ChildOf(s, c, t);
  }

  lemma {:induction false} ExecKeepsInv(s: State, t: Tid, c: Tid)
    requires Inv(s) && CanExec(s, t, c) && c !in s.statuses && c !in s.freed && c !in s.reaped
    ensures DoExec(s, t, c).Ok? && Inv(DoExec(s, t, c).s)
  {
    var s' := DoExec(s, t, c).s;
    assert ProcOk(s, t);
    ExecNewPair(s, t, c);
    forall u | u in s'.procs ensures ProcOk(s', u) {
      if u != c { assert ProcOk(s, u); ExecOtherProc(s, t, c, u); }
    }
    forall d | d in s'.procs ensures ChildOk(s', d) {
      if d != c { assert ChildOk(s, d); ExecOtherPair(s, t, c, d); }
    }
  }

  lemma {:induction false} LoadPair(q: Pair, ok: bool)
    requires PairOk(q) && q.cv.InLoad?
    ensures q.frame.Some?
    ensures PairOk(q.(cv := InReport(ok), hasStatus := ok,
      status := if ok then Some(WaitStatus(2, 0, 0, None)) else q.status,
                      frame := Some(q.frame.value.(success := ok))))
  {
  }

  lemma {:induction false} LoadStep(s: State, t: Tid, ok: bool)
    requires CanLoad(s, t) && ProcOk(s, t) && ChildOk(s, t)
    ensures DoLoad(s, t, ok).Ok? && Local(s, DoLoad(s, t, ok).s, t, t)
  {
    LoadPair(PairOf(s, t), ok);
    var s' := DoLoad(s, t, ok).s;
    assert PairOf(s', t) == PairOf(s, t).(cv := InReport(ok), hasStatus := ok,
      status := if ok then Some(WaitStatus(2, 0, 0, None)) else PairOf(s, t).status,
      frame := Some(PairOf(s, t).frame.value.(success := ok)));
  }

  lemma {:induction false} ReportPair(q: Pair)
    requires PairOk(q) && q.cv.InReport?
    ensures q.frame.Some?
    ensures PairOk(q.(cv := if q.cv.ok then Alive else Exiting,
      frame := Some(q.frame.value.(loadDone := q.frame.value.loadDone + 1))))
  {
  }

  lemma {:induction false} ReportStep(s: State, t: Tid)
    requires CanReport(s, t) && ProcOk(s, t) && ChildOk(s, t)
    ensures DoReport(s, t).Ok? && Local(s, DoReport(s, t).s, t, t)
  {
    var q := PairOf(s, t);
    ReportPair(q);
    var s' := DoReport(s, t).s;
    assert PairOf(s', t) == q.(cv := if q.cv.ok then Alive else Exiting,
      frame := Some(q.frame.value.(loadDone := q.frame.value.loadDone + 1)));
  }

  lemma {:induction false} ExecReturnPair(q: Pair)
    requires PairOk(q) && q.pv.InExec? && q.frame.value.loadDone > 0
    ensures q.frame.value.success ==> q.status.Some?
    ensures var ok := q.frame.value.success;
      PairOk(q.(pv := if ok then Listed else Detached, listed := ok, frame := None))
  {
  }

  lemma {:induction false} ExecReturnStep(s: State, t: Tid)
    requires CanExecReturn(s, t) && ProcOk(s, t) && ChildOk(s, t) && ChildOk(s, s.procs[t].pc.c)
    ensures DoExecReturn(s, t).Ok? && Local(s, DoExecReturn(s, t).s, t, s.procs[t].pc.c)
  {
    ExecReturnTouches(s, t);
    ExecReturnPairs(s, t);
  }

  lemma {:induction false} ExecReturnTouches(s: State, t: Tid)
    requires CanExecReturn(s, t) && ProcOk(s, t) && ChildOk(s, s.procs[t].pc.c)
    ensures DoExecReturn(s, t).Ok? && Touches(s, DoExecReturn(s, t).s, t, s.procs[t].pc.c)
    ensures ProcOk(DoExecReturn(s, t).s, t)
  {
    ExecReturnPair(PairOf(s, s.procs[t].pc.c));
    Pushed(s.procs[t].children, s.procs[t].pc.c);
  }

  lemma {:induction false} ExecReturnPairs(s: State, t: Tid)
    requires CanExecReturn(s, t) && ProcOk(s, t) && ChildOk(s, t) && ChildOk(s, s.procs[t].pc.c)
    ensures DoExecReturn(s, t).Ok? && var s' := DoExecReturn(s, t).s;
      t in s'.procs && ChildOk(s', t) && s.procs[t].pc.c in s'.procs && ChildOk(s', s.procs[t].pc.c)
  {
    var x := s.procs[t];
    var c := x.pc.c;
    var q := PairOf(s, c);
    ExecReturnPair(q);
    Pushed(x.children, c);
    var s' := DoExecReturn(s, t).s;
    var ok := q.frame.value.success;
    assert PairOf(s', c) == q.(pv := if ok then Listed else Detached, listed := ok, frame := None);
    assert s.procs[t].parent.Some? ==> PairOf(s', t) == PairOf(s, t);
  }

  // ----- process_wait

  lemma {:induction false} WaitStep(s: State, t: Tid, c: Tid)
    requires CanWait(s, t) && ProcOk(s, t) && ChildOk(s, t) && forall d | d in s.procs[t].children :: ChildOk(s, d)
    ensures DoWait(s, t, c).Ok?
    ensures Local(s, DoWait(s, t, c).s, t, if c in s.procs[t].children then c else t)
  {
    var x := s.procs[t];
    forall d | d in x.children ensures d in s.statuses {
      assert PairOk(PairOf(s, d));
    }
    if c in x.children {
      WaitFound(s, t, c);
    } else {
      assert s.procs[t].parent.Some? ==> PairOf(DoWait(s, t, c).s, t) == PairOf(s, t);
    }
  }

  lemma {:induction false} WaitFound(s: State, t: Tid, c: Tid)
    requires CanWait(s, t) && ProcOk(s, t) && ChildOk(s, t) && c in s.procs[t].children && ChildOk(s, c)
    requires DoWait(s, t, c).Ok?
    ensures Local(s, DoWait(s, t, c).s, t, c)
  {
    var q := PairOf(s, c);
    Removed(s.procs[t].children, c);
    var s' := DoWait(s, t, c).s;
    assert PairOk(q.(pv := InWait, listed := false));
    assert PairOf(s', c) == q.(pv := InWait, listed := false);
    assert s.procs[t].parent.Some? ==> PairOf(s', t) == PairOf(s, t);
  }

  lemma {:induction false} WaitDownPair(q: Pair)
    requires PairOk(q) && q.pv.InWait?
    ensures q.status.Some?
    ensures var w := q.status.value;
      w.dead > 0 ==>
        PairOk(q.(pv := Releasing(Want, 0, ReturnCode(w.exitCode)), status := Some(w.(dead := w.dead - 1)),
        reaped := true))
  {
  }

  lemma {:induction false} WaitDownStep(s: State, t: Tid)
    requires CanWaitDown(s, t) && ProcOk(s, t) && ChildOk(s, t) && ChildOk(s, s.procs[t].pc.c)
    ensures DoWaitDown(s, t).Ok? && Local(s, DoWaitDown(s, t).s, t, s.procs[t].pc.c)
  {
    var c := s.procs[t].pc.c;
    var q := PairOf(s, c);
    WaitDownPair(q);
    var s', w := DoWaitDown(s, t).s, q.status.value;
    assert PairOf(s', c) == q.(pv := Releasing(Want, 0, ReturnCode(w.exitCode)),
      status := Some(w.(dead := w.dead - 1)), reaped := true);
    assert s.procs[t].parent.Some? ==> PairOf(s', t) == PairOf(s, t);
  }

  // ----- process_exit

  lemma {:induction false} ExitStep(s: State, t: Tid, code: int)
    requires CanExit(s, t) && ProcOk(s, t) && ChildOk(s, t)
    ensures Local(s, DoExit(s, t, code).s, t, t)
  {
    var s' := DoExit(s, t, code).s;
    if s.procs[t].parent.Some? {
      var q := PairOf(s, t);
      assert PairOf(s', t) == q.(cv := Exiting, code := code);
    }
  }

  lemma {:induction false} WriteCodePair(q: Pair)
    requires PairOk(q) && q.cv.Exiting?
    ensures !q.hasStatus ==> PairOk(q.(cv := Done))
    ensures q.hasStatus ==>
      q.status.Some? && PairOk(q.(cv := CodeWritten, status := Some(q.status.value.(exitCode := q.code))))
  {
  }

  lemma {:induction false} WriteCodeStep(s: State, t: Tid)
    requires CanWriteCode(s, t) && ProcOk(s, t) && ChildOk(s, t)
    ensures DoWriteCode(s, t).Ok? && Local(s, DoWriteCode(s, t).s, t, t)
  {
    if s.procs[t].parent.Some? {
      var q := PairOf(s, t);
      WriteCodePair(q);
      var s' := DoWriteCode(s, t).s;
      if q.hasStatus {
        assert PairOf(s', t) == q.(cv := CodeWritten, status := Some(q.status.value.(exitCode := q.code)));
      } else {
        assert PairOf(s', t) == q.(cv := Done);
      }
    }
  }

  lemma {:induction false} UpDeadPair(q: Pair)
    requires PairOk(q) && q.cv.CodeWritten?
    ensures q.status.Some?
      && PairOk(q.(cv := OwnRelease(Want, 0), status := Some(q.status.value.(dead := q.status.value.dead + 1))))
  {
  }

  lemma {:induction false} UpDeadStep(s: State, t: Tid)
    requires CanUpDead(s, t) && ProcOk(s, t) && ChildOk(s, t)
    ensures DoUpDead(s, t).Ok? && Local(s, DoUpDead(s, t).s, t, t)
  {
    var q := PairOf(s, t);
    UpDeadPair(q);
    var s' := DoUpDead(s, t).s;
    assert PairOf(s', t) == q.(cv := OwnRelease(Want, 0),
      status := Some(q.status.value.(dead := q.status.value.dead + 1)));
  }

  lemma {:induction false} TakeChildStep(s: State, t: Tid)
    requires CanTakeChild(s, t) && ProcOk(s, t) && ChildOk(s, t)
    requires s.procs[t].children != [] && ChildOf(s, s.procs[t].children[0], t) && ChildOk(s, s.procs[t].children[0])
    ensures DoTakeChild(s, t).Ok?
    ensures Local(s, DoTakeChild(s, t).s, t, s.procs[t].children[0])
  {
    var x := s.procs[t];
    var c := x.children[0];
    Popped(x.children);
    var q := PairOf(s, c);
    assert PairOk(q.(pv := Releasing(Want, 0, NextChild), listed := false));
    var s' := DoTakeChild(s, t).s;
    assert x.parent.Some? ==> PairOf(s', t) == PairOf(s, t);
    assert PairOf(s', c) == q.(pv := Releasing(Want, 0, NextChild), listed := false);
  }

  lemma {:induction false} GoneStep(s: State, t: Tid)
    requires CanTakeChild(s, t) && ProcOk(s, t) && ChildOk(s, t) && s.procs[t].children == []
    ensures Local(s, DoTakeChild(s, t).s, t, t)
  {
    var s' := DoTakeChild(s, t).s;
    assert s.procs[t].parent.Some? ==> PairOf(s', t) == PairOf(s, t);
  }

  // ----- release_child, called by the parent or by the child

  lemma {:induction false} DecrementPair(q: Pair)
    requires PairOk(q) && (q.status.Some? ==> q.status.value.locked.None?)
    ensures q.pv.Releasing? && q.pv.stage.Want? ==>
      && q.status.Some? && q.status.value.refCnt > 0
      && var n := q.status.value.refCnt - 1;
      PairOk(q.(pv := q.pv.(stage := Locked, n := n),
        status := Some(q.status.value.(refCnt := n, locked := Some(q.p)))))
    ensures q.cv.OwnRelease? && q.cv.stage.Want? ==>
      && q.status.Some? && q.status.value.refCnt > 0
      && var n := q.status.value.refCnt - 1;
      PairOk(q.(cv := OwnRelease(Locked, n), status := Some(q.status.value.(refCnt := n, locked := Some(q.c)))))
  {
  }

  lemma {:induction false} ParentDecrement(s: State, t: Tid)
    requires CanDecrement(s, t) && ProcOk(s, t) && ChildOk(s, t) && !s.procs[t].pc.then_.OwnDone?
      && ChildOk(s, s.procs[t].pc.c)
    ensures DoDecrement(s, t).Ok? && Local(s, DoDecrement(s, t).s, t, s.procs[t].pc.c)
  {
    var c := s.procs[t].pc.c;
    var q := PairOf(s, c);
    DecrementPair(q);
    var s', n := DoDecrement(s, t).s, q.status.value.refCnt - 1;
    ParentDecrementTouches(s, t);
    assert PairOf(s', c) == q.(pv := q.pv.(stage := Locked, n := n),
      status := Some(q.status.value.(refCnt := n, locked := Some(t))));
    assert s.procs[t].parent.Some? ==> PairOf(s', t) == PairOf(s, t);
  }

  lemma {:induction false} ParentDecrementTouches(s: State, t: Tid)
    requires CanDecrement(s, t) && ProcOk(s, t) && !s.procs[t].pc.then_.OwnDone? && DoDecrement(s, t).Ok?
    ensures Touches(s, DoDecrement(s, t).s, t, s.procs[t].pc.c) && ProcOk(DoDecrement(s, t).s, t)
  {
  }

  lemma {:induction false} OwnDecrement(s: State, t: Tid)
    requires CanDecrement(s, t) && ProcOk(s, t) && ChildOk(s, t) && s.procs[t].pc.then_.OwnDone?
    ensures DoDecrement(s, t).Ok? && Local(s, DoDecrement(s, t).s, t, t)
  {
    var q := PairOf(s, t);
    DecrementPair(q);
    var s', n := DoDecrement(s, t).s, q.status.value.refCnt - 1;
    assert PairOf(s', t) == q.(cv := OwnRelease(Locked, n),
      status := Some(q.status.value.(refCnt := n, locked := Some(t))));
  }

  lemma {:induction false} UnlockPair(q: Pair)
    requires PairOk(q)
    ensures q.pv.Releasing? && q.pv.stage.Locked? ==>
      q.status.Some? && PairOk(q.(pv := q.pv.(stage := Unlocked), status := Some(q.status.value.(locked := None))))
    ensures q.cv.OwnRelease? && q.cv.stage.Locked? ==>
      q.status.Some? && PairOk(q.(cv := q.cv.(stage := Unlocked), status := Some(q.status.value.(locked := None))))
  {
  }

  lemma {:induction false} ParentUnlock(s: State, t: Tid)
    requires InRelease(s, t, Locked) && ProcOk(s, t) && ChildOk(s, t) && !s.procs[t].pc.then_.OwnDone?
      && ChildOk(s, s.procs[t].pc.c)
    ensures DoUnlock(s, t).Ok? && Local(s, DoUnlock(s, t).s, t, s.procs[t].pc.c)
  {
    var c := s.procs[t].pc.c;
    var q := PairOf(s, c);
    UnlockPair(q);
    var s' := DoUnlock(s, t).s;
    ParentUnlockTouches(s, t);
    assert PairOf(s', c) == q.(pv := q.pv.(stage := Unlocked), status := Some(q.status.value.(locked := None)));
    assert s.procs[t].parent.Some? ==> PairOf(s', t) == PairOf(s, t);
  }

  lemma {:induction false} ParentUnlockTouches(s: State, t: Tid)
    requires InRelease(s, t, Locked) && ProcOk(s, t) && !s.procs[t].pc.then_.OwnDone? && DoUnlock(s, t).Ok?
    ensures Touches(s, DoUnlock(s, t).s, t, s.procs[t].pc.c) && ProcOk(DoUnlock(s, t).s, t)
  {
  }

  lemma {:induction false} OwnUnlock(s: State, t: Tid)
    requires InRelease(s, t, Locked) && ProcOk(s, t) && ChildOk(s, t) && s.procs[t].pc.then_.OwnDone?
    ensures DoUnlock(s, t).Ok? && Local(s, DoUnlock(s, t).s, t, t)
  {
    var q := PairOf(s, t);
    UnlockPair(q);
    var s' := DoUnlock(s, t).s;
    assert PairOf(s', t) == q.(cv := q.cv.(stage := Unlocked), status := Some(q.status.value.(locked := None)));
  }

  lemma {:induction false} FreePair(q: Pair)
    requires PairOk(q)
    ensures q.pv.Releasing? && q.pv.stage.Unlocked? ==>
      if q.pv.n > 0 then PairOk(q.(pv := Detached))
      else q.status.Some? && PairOk(q.(pv := Detached, status := None, freed := true))
    ensures q.cv.OwnRelease? && q.cv.stage.Unlocked? ==>
      if q.cv.n > 0 then PairOk(q.(cv := Done))
      else q.status.Some? && PairOk(q.(cv := Done, status := None, freed := true))
  {
  }

  lemma {:induction false} ParentFree(s: State, t: Tid)
    requires InRelease(s, t, Unlocked) && ProcOk(s, t) && ChildOk(s, t) && !s.procs[t].pc.then_.OwnDone?
      && ChildOk(s, s.procs[t].pc.c)
    requires s.procs[t].pc.n == 0
    ensures DoFree(s, t).Ok? && Local(s, DoFree(s, t).s, t, s.procs[t].pc.c)
  {
    FreePair(PairOf(s, s.procs[t].pc.c));
    ParentFreeTouches(s, t);
    var c := s.procs[t].pc.c;
    var s' := DoFree(s, t).s;
    assert PairOf(s', c) == PairOf(s, c).(pv := Detached, status := None, freed := true);
    assert s.procs[t].parent.Some? ==> PairOf(s', t) == PairOf(s, t);
  }

  lemma {:induction false} ParentFreeTouches(s: State, t: Tid)
    requires InRelease(s, t, Unlocked) && ProcOk(s, t) && !s.procs[t].pc.then_.OwnDone? && DoFree(s, t).Ok?
    ensures Touches(s, DoFree(s, t).s, t, s.procs[t].pc.c) && ProcOk(DoFree(s, t).s, t)
  {
  }

  lemma {:induction false} ParentLeave(s: State, t: Tid)
    requires InRelease(s, t, Unlocked) && ProcOk(s, t) && ChildOk(s, t) && !s.procs[t].pc.then_.OwnDone?
      && ChildOk(s, s.procs[t].pc.c)
    requires s.procs[t].pc.n > 0
    ensures Local(s, DoFree(s, t).s, t, s.procs[t].pc.c)
  {
    var c := s.procs[t].pc.c;
    var q := PairOf(s, c);
    FreePair(q);
    var s' := DoFree(s, t).s;
    ParentFreeTouches(s, t);
    assert PairOf(s', c) == q.(pv := Detached);
    assert s.procs[t].parent.Some? ==> PairOf(s', t) == PairOf(s, t);
  }

  lemma {:induction false} OwnFree(s: State, t: Tid)
    requires InRelease(s, t, Unlocked) && ProcOk(s, t) && ChildOk(s, t) && s.procs[t].pc.then_.OwnDone?
    ensures DoFree(s, t).Ok? && Local(s, DoFree(s, t).s, t, t)
  {
    var q := PairOf(s, t);
    FreePair(q);
    var s' := DoFree(s, t).s;
    if q.cv.n > 0 {
      assert PairOf(s', t) == q.(cv := Done);
    } else {
      assert PairOf(s', t) == q.(cv := Done, status := None, freed := true);
    }
  }

  // ----- every step and every run

  /** Thread identifiers are never used again (allocate_tid). */
  ghost predicate TidsFresh(s: State) {
    s.statuses.Keys <= s.procs.Keys && s.freed <= s.procs.Keys && s.reaped <= s.procs.Keys
  }

  lemma {:induction false} StepKeepsTids(s: State, a: Action)
    requires TidsFresh(s) && Enabled(s, a) && Step(s, a).Ok?
    ensures TidsFresh(Step(s, a).s) && s.procs.Keys <= Step(s, a).s.procs.Keys
  {
  }

  lemma {:induction false} ReleaseKeepsInv(s: State, a: Action)
    requires Inv(s) && Enabled(s, a) && (a.Decrement? || a.Unlock? || a.Free?)
    ensures Step(s, a).Ok? && Inv(Step(s, a).s)
  {
    var t := a.t;
    var c := s.procs[t].pc.c;
    assert ProcOk(s, t) && ChildOk(s, t);
    if s.procs[t].pc.then_.OwnDone? {
      if a.Decrement? { OwnDecrement(s, t); } else if a.Unlock? { OwnUnlock(s, t); } else { OwnFree(s, t); }
      LocalSteps(s, Step(s, a).s, t, t);
    } else {
      assert ChildOf(s, c, t) && ChildOk(s, c);
      if a.Decrement? { ParentDecrement(s, t); } else if a.Unlock? { ParentUnlock(s, t); }
      else if s.procs[t].pc.n == 0 { ParentFree(s, t); } else { ParentLeave(s, t); }
      LocalSteps(s, Step(s, a).s, t, c);
    }
  }

  lemma {:induction false} ParentStepKeepsInv(s: State, a: Action)
    requires Inv(s) && Enabled(s, a) && (a.ExecReturn? || a.Wait? || a.WaitDown? || a.TakeChild?)
    ensures Step(s, a).Ok? && Inv(Step(s, a).s)
  {
    var t := a.t;
    var x := s.procs[t];
    assert ProcOk(s, t) && ChildOk(s, t);
    match a
    case ExecReturn(_) =>
      assert ChildOf(s, x.pc.c, t) && ChildOk(s, x.pc.c);
      ExecReturnStep(s, t);
      LocalSteps(s, Step(s, a).s, t, x.pc.c);
    case Wait(_, c) =>
      forall d | d in x.children ensures d in s.procs && ChildOk(s, d) { assert ChildOf(s, d, t); }
      WaitStep(s, t, c);
      LocalSteps(s, Step(s, a).s, t, if c in x.children then c else t);
    case WaitDown(_) =>
      assert ChildOf(s, x.pc.c, t) && ChildOk(s, x.pc.c);
      WaitDownStep(s, t);
      LocalSteps(s, Step(s, a).s, t, x.pc.c);
    case TakeChild(_) =>
      if x.children == [] {
        GoneStep(s, t);
        LocalSteps(s, Step(s, a).s, t, t);
      } else {
        assert ChildOf(s, x.children[0], t) && ChildOk(s, x.children[0]);
        TakeChildStep(s, t);
        LocalSteps(s, Step(s, a).s, t, x.children[0]);
      }
  }

  /** No step faults: no status is touched unless it is allocated, and no exec_info but that of the
      process_execute that started the child. */
  lemma {:induction false} StepKeepsInv(s: State, a: Action)
    requires Inv(s) && TidsFresh(s) && Enabled(s, a)
    ensures Step(s, a).Ok? && Inv(Step(s, a).s)
  {
    match a
    case Exec(t, c) => ExecKeepsInv(s, t, c);
    case Decrement(_) => ReleaseKeepsInv(s, a);
    case Unlock(_) => ReleaseKeepsInv(s, a);
    case Free(_) => ReleaseKeepsInv(s, a);
    case ExecReturn(_) => ParentStepKeepsInv(s, a);
    case Wait(_, _) => ParentStepKeepsInv(s, a);
    case WaitDown(_) => ParentStepKeepsInv(s, a);
    case TakeChild(_) => ParentStepKeepsInv(s, a);
    case Load(t, ok) => assert ProcOk(s, t) && ChildOk(s, t); LoadStep(s, t, ok); LocalSteps(s, Step(s, a).s, t, t);
    case Report(t) => assert ProcOk(s, t) && ChildOk(s, t); ReportStep(s, t); LocalSteps(s, Step(s, a).s, t, t);
    case Exit(t, code) => assert ProcOk(s, t) && ChildOk(s, t); ExitStep(s, t, code); LocalSteps(s, Step(s, a).s, t, t);
    case WriteCode(t) => assert ProcOk(s, t) && ChildOk(s, t); WriteCodeStep(s, t); LocalSteps(s, Step(s, a).s, t, t);
    case UpDead(t) => assert ProcOk(s, t) && ChildOk(s, t); UpDeadStep(s, t); LocalSteps(s, Step(s, a).s, t, t);
  }

  lemma {:induction false} RunKeepsInv(ss: seq<State>, acts: seq<Action>, i: nat)
    requires IsRun(ss, acts) && Initial(ss[0]) && i < |ss|
    ensures Inv(ss[i]) && TidsFresh(ss[i])
  {
    if i > 0 {
      var j := i - 1;
      RunKeepsInv(ss, acts, j);
      assert Enabled(ss[j], acts[j]) && Step(ss[j], acts[j]) == Ok(ss[j + 1]);
      StepKeepsInv(ss[j], acts[j]);
      StepKeepsTids(ss[j], acts[j]);
    }
  }

  // ----- what the invariant is for

  /** In every reachable state every step that can be taken is free of faults. */
  lemma {:induction false} NoFault(ss: seq<State>, acts: seq<Action>, a: Action)
    requires IsRun(ss, acts) && Initial(ss[0]) && Enabled(ss[|acts|], a)
    ensures Step(ss[|acts|], a).Ok?
  {
    RunKeepsInv(ss, acts, |acts|);
    StepKeepsInv(ss[|acts|], a);
  }

  ghost predicate Frees(s: State, a: Action, c: Tid) {
    Enabled(s, a) && a.Free? && s.procs[a.t].pc.c == c && s.procs[a.t].pc.n == 0
  }

  function Released(s: State, c: Tid): (bool, bool)
    requires c in s.procs && s.procs[c].parent.Some? && s.procs[c].parent.value in s.procs
  {
    var y := s.procs[s.procs[c].parent.value];
    (!ParentHolds(ViewOfChild(y, c)), !ChildHolds(ViewOfSelf(s.procs[c])))
  }

  /** A status is freed only after both sides have released it, and never a second time. */
  lemma {:induction false} StepFrees(s: State, a: Action, c: Tid)
    requires Inv(s) && TidsFresh(s) && Enabled(s, a)
    ensures Step(s, a).Ok?
    ensures c in Step(s, a).s.freed <==> c in s.freed || Frees(s, a, c)
    ensures Frees(s, a, c) ==>
      c !in s.freed && c in s.procs && s.procs[c].parent.Some? && s.procs[c].parent.value in s.procs
      && Released(s, c) == (true, true)
  {
    StepKeepsInv(s, a);
    StepFreed(s, a, c);
    if Frees(s, a, c) {
      assert ProcOk(s, a.t);
      assert ChildOk(s, c);
    }
  }

  lemma {:induction false} StepFreed(s: State, a: Action, c: Tid)
    requires Enabled(s, a) && Step(s, a).Ok?
    ensures c in Step(s, a).s.freed <==> c in s.freed || Frees(s, a, c)
  {
  }

  ghost function TimesFreed(ss: seq<State>, acts: seq<Action>, c: Tid): nat
    requires |ss| == |acts| + 1
  {
    if acts == [] then 0
    else TimesFreed(ss[..|acts|], acts[..|acts| - 1], c) + Count(Frees(ss[|acts| - 1], acts[|acts| - 1], c))
  }

  lemma {:induction false} FreedOnce(ss: seq<State>, acts: seq<Action>, c: Tid)
    requires IsRun(ss, acts) && Initial(ss[0])
    ensures TimesFreed(ss, acts, c) == Count(c in ss[|acts|].freed)
    decreases |acts|
  {
    if acts != [] {
      var n := |acts| - 1;
      var ss0, acts0 := ss[..n + 1], acts[..n];
      assert IsRun(ss0, acts0) by {
        forall i | 0 <= i < n ensures Enabled(ss0[i], acts0[i]) && Step(ss0[i], acts0[i]) == Ok(ss0[i + 1]) {
          assert Enabled(ss[i], acts[i]) && Step(ss[i], acts[i]) == Ok(ss[i + 1]);
        }
      }
      FreedOnce(ss0, acts0, c);
      RunKeepsInv(ss, acts, n);
      assert Enabled(ss[n], acts[n]) && Step(ss[n], acts[n]) == Ok(ss[n + 1]);
      StepFrees(ss[n], acts[n], c);
    }
  }

  /** Nothing leaks: once the parent has no more to do with a child that loaded, and the child has done
      with its own status, the status has been freed. */
  lemma {:induction false} NoLeak(s: State, c: Tid)
    requires Inv(s) && c in s.procs && s.procs[c].hasStatus && ViewOfSelf(s.procs[c]).Done?
    requires s.procs[c].parent.Some? && s.procs[c].parent.value in s.procs
      && ViewOfChild(s.procs[s.procs[c].parent.value], c).Detached?
    ensures c in s.freed && c !in s.statuses
  {
    assert ChildOk(s, c);
    assert PairOk(PairOf(s, c));
  }

  /** When all processes have ended no status is left. */
  lemma {:induction false} AllFreed(s: State, c: Tid)
    requires Inv(s) && TidsFresh(s) && forall t | t in s.procs :: s.procs[t].pc.Gone?
    ensures c !in s.statuses
  {
    if c in s.procs {
      assert ProcOk(s, c) && ChildOk(s, c);
      if s.procs[c].parent.Some? { assert ProcOk(s, s.procs[c].parent.value) && PairOk(PairOf(s, c)); }
    }
  }

  ghost predicate Collects(s: State, a: Action, c: Tid) {
    Enabled(s, a) && a.WaitDown? && s.procs[a.t].pc.c == c
  }

  /** process_wait obtains the exit code of a child that can no longer change it, once per child; after
      that it finds no such child and returns -1. */
  lemma {:induction false} StepReaps(s: State, a: Action, c: Tid)
    requires Inv(s) && TidsFresh(s) && Enabled(s, a)
    ensures Step(s, a).Ok?
    ensures c in Step(s, a).s.reaped <==> c in s.reaped || Collects(s, a, c)
    ensures Collects(s, a, c) ==>
      && c !in s.reaped && c in s.procs && Settled(ViewOfSelf(s.procs[c]))
      && Step(s, a).s.procs[a.t].pc == Release(c, Want, 0, ReturnCode(s.procs[c].code))
    ensures c in s.reaped ==> c in s.procs && Settled(ViewOfSelf(s.procs[c])) && forall t | t in s.procs ::
      c !in s.procs[t].children
  {
    StepKeepsInv(s, a);
    if Collects(s, a, c) {
      assert ProcOk(s, a.t);
      assert ChildOk(s, c);
      assert PairOk(PairOf(s, c));
    }
    if c in s.reaped {
      assert ChildOk(s, c);
      forall t | t in s.procs ensures c !in s.procs[t].children {
        assert ProcOk(s, t);
        assert c in s.procs[t].children ==> ChildOf(s, c, t);
      }
    }
  }

  /** Once a process has begun to exit its exit code stays as it is. */
  lemma {:induction false} CodeStays(s: State, a: Action, c: Tid)
    requires Enabled(s, a) && Step(s, a).Ok? && c in s.procs && Settled(ViewOfSelf(s.procs[c]))
    ensures c in Step(s, a).s.procs && Settled(ViewOfSelf(Step(s, a).s.procs[c]))
      && Step(s, a).s.procs[c].code == s.procs[c].code
  {
  }

  lemma {:induction false} ReapedStays(ss: seq<State>, acts: seq<Action>, i: nat, j: nat, c: Tid)
    requires IsRun(ss, acts) && Initial(ss[0]) && i <= j < |ss| && c in ss[i].reaped
    ensures c in ss[j].reaped && c in ss[i].procs && c in ss[j].procs && ss[j].procs[c].code == ss[i].procs[c].code
    decreases j
  {
    if i == j {
      RunKeepsInv(ss, acts, i);
    } else {
      var k := j - 1;
      ReapedStays(ss, acts, i, k, c);
      RunKeepsInv(ss, acts, k);
      assert Enabled(ss[k], acts[k]) && Step(ss[k], acts[k]) == Ok(ss[k + 1]);
      StepReaps(ss[k], acts[k], c);
      CodeStays(ss[k], acts[k], c);
    }
  }

  /** If process_wait collects c at step i of a run then the code it goes on to return is c's exit code,
      which c still has at any later time, and at any later step j process_wait does not collect c
      again: asked for c, whoever asks, it returns -1 and does nothing else. */
  lemma {:induction false} WaitReturnsOnce(ss: seq<State>, acts: seq<Action>, i: nat, j: nat, c: Tid)
    requires IsRun(ss, acts) && Initial(ss[0]) && i < j < |acts| && Collects(ss[i], acts[i], c)
    ensures c in ss[j].procs && ss[i + 1].procs[acts[i].t].pc == Release(c, Want, 0, ReturnCode(ss[j].procs[c].code))
    ensures !Collects(ss[j], acts[j], c)
    ensures acts[j].Wait? && acts[j].c == c ==>
      var t := acts[j].t;
        t in ss[j].procs && ss[j + 1] == ss[j].(procs := ss[j].procs[t := ss[j].procs[t].(waited := Some(-1))])
  {
    assert Enabled(ss[i], acts[i]) && Step(ss[i], acts[i]) == Ok(ss[i + 1]);
    RunKeepsInv(ss, acts, i);
    StepReaps(ss[i], acts[i], c);
    CodeStays(ss[i], acts[i], c);
    ReapedStays(ss, acts, i + 1, j, c);
    RunKeepsInv(ss, acts, j);
    assert Enabled(ss[j], acts[j]) && Step(ss[j], acts[j]) == Ok(ss[j + 1]);
    NotAgain(ss[j], acts[j], c);
  }

  lemma {:induction false} NotAgain(s: State, a: Action, c: Tid)
    requires Inv(s) && TidsFresh(s) && Enabled(s, a) && c in s.reaped
    ensures Step(s, a).Ok? && !Collects(s, a, c)
    ensures a.Wait? && a.c == c ==> Step(s, a).s == s.(procs := s.procs[a.t := s.procs[a.t].(waited := Some(-1))])
  {
    StepReaps(s, a, c);
  }

  /** What process_wait returns, once release_child is done, is the child's exit code. */
  lemma {:induction false} ReturnsExitCode(s: State, t: Tid)
    requires Inv(s) && TidsFresh(s) && InRelease(s, t, Unlocked) && s.procs[t].pc.then_.ReturnCode?
    ensures s.procs[t].pc.c in s.procs && Step(s, Free(t)).Ok? && t in Step(s, Free(t)).s.procs
    ensures Step(s, Free(t)).s.procs[t].waited == Some(s.procs[s.procs[t].pc.c].code)
  {
    StepKeepsInv(s, Free(t));
    assert ProcOk(s, t) && ChildOf(s, s.procs[t].pc.c, t);
    assert ChildOk(s, s.procs[t].pc.c) && PairOk(PairOf(s, s.procs[t].pc.c));
  }

  lemma {:induction false} ExitCodeStays(ss: seq<State>, acts: seq<Action>, i: nat, j: nat, c: Tid)
    requires IsRun(ss, acts) && i < j < |ss| && acts[i].Exit? && acts[i].t == c
    ensures c in ss[j].procs && Settled(ViewOfSelf(ss[j].procs[c])) && ss[j].procs[c].code == acts[i].code
  {
    var k := j - 1;
    assert Enabled(ss[k], acts[k]) && Step(ss[k], acts[k]) == Ok(ss[k + 1]);
    if i < k {
      ExitCodeStays(ss, acts, i, k, c);
      CodeStays(ss[k], acts[k], c);
    }
  }

  /** In every run: if c exits with a code then that code is what a process_wait for c that returns later returns. */
  lemma {:induction false} WaitReturnsExitArgument(ss: seq<State>, acts: seq<Action>, i: nat, j: nat, t: Tid, c: Tid)
    requires IsRun(ss, acts) && Initial(ss[0]) && i < j < |acts| && acts[i].Exit? && acts[i].t == c
      && acts[j] == Free(t)
    requires ss[j].procs[t].pc.c == c && ss[j].procs[t].pc.then_.ReturnCode?
    ensures t in ss[j + 1].procs && ss[j + 1].procs[t].waited == Some(acts[i].code) && ss[j + 1].procs[t].pc == Running
  {
    ExitCodeStays(ss, acts, i, j, c);
    RunKeepsInv(ss, acts, j);
    assert Enabled(ss[j], acts[j]) && Step(ss[j], acts[j]) == Ok(ss[j + 1]);
    ReturnsExitCode(ss[j], t);
  }

  /** And c has exited: the step is there. */
  lemma {:induction false} ExitedBefore(ss: seq<State>, acts: seq<Action>, j: nat, c: Tid) returns (i: nat)
    requires IsRun(ss, acts) && Initial(ss[0]) && j < |ss| && c in ss[j].procs && ss[j].procs[c].hasStatus
    requires Settled(ViewOfSelf(ss[j].procs[c]))
    ensures i < j && acts[i].Exit? && acts[i].t == c
  {
    var k := j - 1;
    assert Enabled(ss[k], acts[k]) && Step(ss[k], acts[k]) == Ok(ss[k + 1]);
    RunKeepsInv(ss, acts, k);
    if c in ss[k].procs { assert ProcOk(ss[k], c) && ChildOk(ss[k], c); }
    if acts[k].Exit? && acts[k].t == c {
      i := k;
    } else {
      SettledBefore(ss[k], acts[k], c);
      i := ExitedBefore(ss, acts, k, c);
    }
  }

  lemma {:induction false} SettledBefore(s: State, a: Action, c: Tid)
    requires Enabled(s, a) && Step(s, a).Ok? && !(a.Exit? && a.t == c)
    requires c in s.procs ==> ProcOk(s, c) && ChildOk(s, c)
    requires c in Step(s, a).s.procs && Step(s, a).s.procs[c].hasStatus
      && Settled(ViewOfSelf(Step(s, a).s.procs[c]))
    ensures c in s.procs && s.procs[c].hasStatus && Settled(ViewOfSelf(s.procs[c]))
  {
    if a.t == c { OwnSettled(s, a); } else { OtherSettled(s, a, c); }
  }

  lemma {:induction false} OwnSettled(s: State, a: Action)
    requires Enabled(s, a) && Step(s, a).Ok? && !a.Exit? && a.t in s.procs && ProcOk(s, a.t) && ChildOk(s, a.t)
    requires a.t in Step(s, a).s.procs && Step(s, a).s.procs[a.t].hasStatus
      && Settled(ViewOfSelf(Step(s, a).s.procs[a.t]))
    ensures s.procs[a.t].hasStatus && Settled(ViewOfSelf(s.procs[a.t]))
  {
  }

  lemma {:induction false} OtherSettled(s: State, a: Action, c: Tid)
    requires Enabled(s, a) && Step(s, a).Ok? && a.t != c && c in Step(s, a).s.procs && Step(s, a).s.procs[c].hasStatus
    ensures c in s.procs && Step(s, a).s.procs[c] == s.procs[c]
  {
  }

  // ----- which children can be waited for

  /** Step k is the return of t's process_execute of c, which loaded. */
  ghost predicate Executes(ss: seq<State>, acts: seq<Action>, t: Tid, c: Tid, k: nat) {
    && k < |acts| < |ss| && acts[k] == ExecReturn(t) && t in ss[k].procs && ss[k].procs[t].pc == Execing(c)
    && exists l: nat :: l < k && acts[l] == Load(c, true)
  }

  /** t has executed c and not waited for it since. */
  ghost predicate Awaited(ss: seq<State>, acts: seq<Action>, t: Tid, c: Tid, i: nat) {
    i <= |acts| && exists k: nat :: k < i && Executes(ss, acts, t, c, k) && NotWaited(acts, t, c, k, i)
  }

  ghost predicate NotWaited(acts: seq<Action>, t: Tid, c: Tid, k: nat, i: nat)
    requires i <= |acts|
  {
    forall m | k < m < i :: acts[m] != Wait(t, c)
  }

  /** What a step does to t's list, as far as c is concerned */
  ghost predicate ListMoves(s: State, a: Action, s': State, t: Tid, c: Tid) {
    && t in s.procs && t in s'.procs
    && (a == ExecReturn(t) && s.procs[t].pc == Execing(c) ==> c in s.procs)
    && (c in s'.procs[t].children <==> (
      || (c in s.procs[t].children && a != Wait(t, c))
      || (a == ExecReturn(t) && s.procs[t].pc == Execing(c) && s.procs[c].hasStatus)))
  }

  lemma {:induction false} ReturnLists(s: State, t: Tid, c: Tid)
    requires Enabled(s, ExecReturn(t)) && Step(s, ExecReturn(t)).Ok? && s.procs[t].pc.c in s.procs
    requires s.frames[t].success == s.procs[s.procs[t].pc.c].hasStatus
    ensures ListMoves(s, ExecReturn(t), Step(s, ExecReturn(t)).s, t, c)
  {
  }

  lemma {:induction false} WaitLists(s: State, t: Tid, d: Tid, c: Tid)
    requires Enabled(s, Wait(t, d)) && Step(s, Wait(t, d)).Ok? && Distinct(s.procs[t].children)
    ensures ListMoves(s, Wait(t, d), Step(s, Wait(t, d)).s, t, c)
  {
    Removed(s.procs[t].children, d);
  }

  lemma {:induction false} OtherLists(s: State, a: Action, t: Tid, c: Tid)
    requires Enabled(s, a) && Step(s, a).Ok? && t in s.procs
      && (a.t != t || !(a.ExecReturn? || a.Wait? || a.TakeChild?))
    ensures ListMoves(s, a, Step(s, a).s, t, c)
  {
  }

  lemma {:induction false} StepLists(s: State, a: Action, t: Tid, c: Tid)
    requires Inv(s) && Enabled(s, a) && Step(s, a).Ok? && t in s.procs && a != TakeChild(t)
    ensures ListMoves(s, a, Step(s, a).s, t, c)
  {
    assert ProcOk(s, t);
    if a == ExecReturn(t) {
      assert ChildOf(s, s.procs[t].pc.c, t) && ChildOk(s, s.procs[t].pc.c) && PairOk(PairOf(s, s.procs[t].pc.c));
      ReturnLists(s, t, c);
    } else if a.Wait? && a.t == t {
      WaitLists(s, t, a.c, c);
    } else {
      OtherLists(s, a, t, c);
    }
  }

  lemma {:induction false} StepLoads(s: State, a: Action, c: Tid)
    requires Enabled(s, a) && Step(s, a).Ok?
    ensures var s' := Step(s, a).s;
      c in s'.procs && s'.procs[c].hasStatus <==>
        a == Load(c, true) || (c in s.procs && s.procs[c].hasStatus && !(a.Load? && a.t == c))
  {
  }

  /** A process has a status exactly if it has been loaded. */
  lemma {:induction false} LoadedIff(ss: seq<State>, acts: seq<Action>, c: Tid, i: nat)
    requires IsRun(ss, acts) && Initial(ss[0]) && i < |ss|
    ensures c in ss[i].procs && ss[i].procs[c].hasStatus <==> exists l: nat :: l < i && acts[l] == Load(c, true)
  {
    if i > 0 {
      var m := i - 1;
      LoadedIff(ss, acts, c, m);
      assert Enabled(ss[m], acts[m]) && Step(ss[m], acts[m]) == Ok(ss[m + 1]);
      StepLoads(ss[m], acts[m], c);
      RunKeepsInv(ss, acts, m);
      if c in ss[m].procs { assert ChildOk(ss[m], c) && ProcOk(ss[m], c); }
    }
  }

  lemma {:induction false} RunsOn(ss: seq<State>, acts: seq<Action>, t: Tid, m: nat, i: nat)
    requires IsRun(ss, acts) && m < i < |ss| && t in ss[i].procs && !Settled(ViewOfSelf(ss[i].procs[t]))
    ensures acts[m] != TakeChild(t) && (t in ss[m].procs ==> !Settled(ViewOfSelf(ss[m].procs[t])))
    decreases i - m
  {
    assert Enabled(ss[m], acts[m]) && Step(ss[m], acts[m]) == Ok(ss[m + 1]);
    if m + 1 < i { RunsOn(ss, acts, t, m + 1, i); }
    if t in ss[m].procs && Settled(ViewOfSelf(ss[m].procs[t])) { CodeStays(ss[m], acts[m], t); }
  }

  lemma {:induction false} ProcsStay(ss: seq<State>, acts: seq<Action>, t: Tid, k: nat, i: nat)
    requires IsRun(ss, acts) && k <= i < |ss| && t in ss[k].procs
    ensures t in ss[i].procs
  {
    if k < i {
      var m := i - 1;
      ProcsStay(ss, acts, t, k, m);
      assert Enabled(ss[m], acts[m]) && Step(ss[m], acts[m]) == Ok(ss[m + 1]);
      ProcStays(ss[m], acts[m], t);
    }
  }

  lemma {:induction false} ProcStays(s: State, a: Action, t: Tid)
    requires Enabled(s, a) && Step(s, a).Ok? && t in s.procs
    ensures t in Step(s, a).s.procs
  {
  }

  lemma {:induction false} AwaitedNext(ss: seq<State>, acts: seq<Action>, t: Tid, c: Tid, m: nat, i: nat)
    requires m + 1 == i <= |acts| < |ss|
    ensures Awaited(ss, acts, t, c, i)
      <==> (Awaited(ss, acts, t, c, m) && acts[m] != Wait(t, c)) || Executes(ss, acts, t, c, m)
  {
    if Awaited(ss, acts, t, c, i) {
      var k: nat :| k < i && Executes(ss, acts, t, c, k) && NotWaited(acts, t, c, k, i);
      if k < m { assert NotWaited(acts, t, c, k, m); }
    } else if Awaited(ss, acts, t, c, m) && acts[m] != Wait(t, c) {
      var k: nat :| k < m && Executes(ss, acts, t, c, k) && NotWaited(acts, t, c, k, m);
      assert NotWaited(acts, t, c, k, i);
    } else if Executes(ss, acts, t, c, m) {
      assert NotWaited(acts, t, c, m, i);
    }
  }

  /** In every run the children that a process has on its list are those that it has executed, that loaded, and that
      it has not waited for. */
  lemma {:induction false} ListedIff(ss: seq<State>, acts: seq<Action>, t: Tid, c: Tid, i: nat)
    requires IsRun(ss, acts) && Initial(ss[0]) && i < |ss| && t in ss[i].procs && !Settled(ViewOfSelf(ss[i].procs[t]))
    ensures c in ss[i].procs[t].children <==> Awaited(ss, acts, t, c, i)
  {
    if i > 0 {
      var m := i - 1;
      assert Enabled(ss[m], acts[m]) && Step(ss[m], acts[m]) == Ok(ss[m + 1]);
      AwaitedNext(ss, acts, t, c, m, i);
      if t in ss[m].procs {
        RunsOn(ss, acts, t, m, i);
        ListedIff(ss, acts, t, c, m);
        RunKeepsInv(ss, acts, m);
        LoadedIff(ss, acts, c, m);
        StepLists(ss[m], acts[m], t, c);
      } else {
        NotThere(ss, acts, t, c, m);
      }
    }
  }

  lemma {:induction false} NotThere(ss: seq<State>, acts: seq<Action>, t: Tid, c: Tid, m: nat)
    requires IsRun(ss, acts) && m < |ss| && t !in ss[m].procs
    ensures !Awaited(ss, acts, t, c, m)
  {
    if k: nat :| k < m && Executes(ss, acts, t, c, k) && NotWaited(acts, t, c, k, m) {
      ProcsStay(ss, acts, t, k, m);
      assert false;
    }
  }

  /** process_wait waits exactly for a child that its caller has executed, that loaded, and that it has not waited for
      before; for any other it returns -1 at once. */
  lemma {:induction false} WaitsIff(ss: seq<State>, acts: seq<Action>, t: Tid, c: Tid, i: nat)
    requires IsRun(ss, acts) && Initial(ss[0]) && i < |acts| && acts[i] == Wait(t, c)
    ensures t in ss[i + 1].procs
    ensures var x := ss[i + 1].procs[t];
      if Awaited(ss, acts, t, c, i) then x.pc == Waiting(c) else x.pc == Running && x.waited == Some(-1)
  {
    assert Enabled(ss[i], acts[i]) && Step(ss[i], acts[i]) == Ok(ss[i + 1]);
    ListedIff(ss, acts, t, c, i);
  }

  // ----- no one waits in vain

  /** The process can take a step. */
  ghost predicate CanMove(s: State, t: Tid) { exists a: Action :: a.t == t && Enabled(s, a) }

  ghost predicate LockedByOther(s: State, t: Tid, c: Tid) {
    exists u :: u in s.procs && u != t && InRelease(s, u, Locked) && s.procs[u].pc.c == c
  }

  /** In every reachable state a process that has not ended can take a step, unless it is in process_execute and its
      child has not reported yet, in process_wait and its child has not said that it is dead, or waits for a lock whose
      holder can release it; and the first two cannot go on any sooner. */
  lemma {:induction false} OnlyWaits(s: State, t: Tid)
    requires Inv(s) && t in s.procs
    ensures match s.procs[t].pc
      case Gone => true
      case Execing(c) => c in s.procs && (CanExecReturn(s, t) <==> !s.procs[c].pc.Loading? && !s.procs[c].pc.Reporting?)
      case Waiting(c) => c in s.procs && (CanWaitDown(s, t) <==> SaidDead(ViewOfSelf(s.procs[c])))
      case Release(c, Want, _, _) => CanDecrement(s, t) || LockedByOther(s, t, c)
      case _ => CanMove(s, t)
  {
    assert ProcOk(s, t) && ChildOk(s, t);
    match s.procs[t].pc
    case Gone =>
    case Execing(c) => assert ChildOf(s, c, t) && ChildOk(s, c) && PairOk(PairOf(s, c));
    case Waiting(c) => assert ChildOf(s, c, t) && ChildOk(s, c) && PairOk(PairOf(s, c));
    case Release(c, stage, _, k) => Releases(s, t);
    case Running => assert Enabled(s, Exit(t, 0));
    case Loading(_) => assert Enabled(s, Load(t, true));
    case Reporting(_, _) => assert Enabled(s, Report(t));
    case ExitStart => assert Enabled(s, WriteCode(t));
    case ExitCodeWritten => assert Enabled(s, UpDead(t));
    case ExitChildren => assert Enabled(s, TakeChild(t));
  }

  lemma {:induction false} Releases(s: State, t: Tid)
    requires Inv(s) && t in s.procs && s.procs[t].pc.Release?
    ensures !s.procs[t].pc.stage.Want? ==> CanMove(s, t)
    ensures s.procs[t].pc.stage.Want? ==> CanDecrement(s, t) || LockedByOther(s, t, s.procs[t].pc.c)
  {
    var c := s.procs[t].pc.c;
    assert ProcOk(s, t);
    if s.procs[t].pc.stage.Locked? { assert Enabled(s, Unlock(t)); }
    else if s.procs[t].pc.stage.Unlocked? { assert Enabled(s, Free(t)); }
    else {
      assert c in s.procs && ChildOk(s, c) && PairOk(PairOf(s, c));
    }
  }

  // ----- which statuses a step touches

  /** The statuses that a step reads or writes. Those on a list are reached through it; process_wait's search looks
      at all of them at most. */
  function Touched(s: State, a: Action): set<Tid>
    requires Enabled(s, a)
  {
    var x := s.procs[a.t];
    match a
    case Exec(_, _) => {}
    case Load(t, ok) => if ok then {t} else {}
    case Report(_) => {}
    case ExecReturn(t) => if s.frames[t].success then {x.pc.c} else {}
    case Wait(_, _) => set d | d in x.children
    case WaitDown(_) => {x.pc.c}
    case Exit(_, _) => {}
    case WriteCode(t) => if x.hasStatus then {t} else {}
    case UpDead(t) => {t}
    case TakeChild(_) => set d | d in x.children
    case Decrement(_) => {x.pc.c}
    case Unlock(_) => {x.pc.c}
    case Free(_) => if x.pc.n == 0 then {x.pc.c} else {}
  }

  /** s with c's status replaced, or gone */
  function WithStatus(s: State, c: Tid, w: Option<WaitStatus>): State {
    s.(statuses := if w.Some? then s.statuses[c := w.value] else s.statuses - {c})
  }

  function WithOutcome(o: Outcome, c: Tid, w: Option<WaitStatus>): Outcome {
    match o case Ok(s) => Ok(WithStatus(s, c, w)) case Fault => Fault
  }

  /** Whatever is the matter with c's status, even if it has been freed, makes no difference to the step. */
  ghost predicate Ignores(s: State, a: Action, c: Tid, w: Option<WaitStatus>)
    requires Enabled(s, a)
  {
    Enabled(WithStatus(s, c, w), a) && Step(WithStatus(s, c, w), a) == WithOutcome(Step(s, a), c, w)
  }

  lemma {:induction false} Commutes(m: map<Tid, WaitStatus>, c: Tid, w: Option<WaitStatus>, d: Tid, v: WaitStatus)
    requires c != d
    ensures w.Some? ==>
      m[c := w.value][d := v] == m[d := v][c := w.value] && m[c := w.value] - {d} == (m - {d})[c := w.value]
    ensures (m - {c})[d := v] == m[d := v] - {c} && m - {c} - {d} == m - {d} - {c}
  {
  }

  /** A step that does not touch c's status neither changes it nor depends on it in any way. */
  lemma {:induction false} UntouchedIgnored(s: State, a: Action, c: Tid, w: Option<WaitStatus>)
    requires Enabled(s, a) && c !in Touched(s, a)
    ensures Ignores(s, a, c, w)
  {
    if a.Load? || a.WaitDown? || a.WriteCode? || a.UpDead? { WriteIgnores(s, a, c, w); }
    else if a.Decrement? || a.Unlock? || a.Free? { ReleaseIgnores(s, a, c, w); }
    else { ListsIgnore(s, a, c, w); }
  }

  lemma {:induction false} ListsIgnore(s: State, a: Action, c: Tid, w: Option<WaitStatus>)
    requires Enabled(s, a) && c !in Touched(s, a)
    requires a.Exec? || a.Report? || a.ExecReturn? || a.Wait? || a.Exit? || a.TakeChild?
    ensures Ignores(s, a, c, w)
  {
  }

  lemma {:induction false} WriteIgnores(s: State, a: Action, c: Tid, w: Option<WaitStatus>)
    requires Enabled(s, a) && (a.Load? || a.WaitDown? || a.WriteCode? || a.UpDead?) && c !in Touched(s, a)
    ensures Ignores(s, a, c, w)
  {
    var x := s.procs[a.t];
    var d := if a.WaitDown? then x.pc.c else a.t;
    if a.Load? {
      if a.ok { Commutes(s.statuses, c, w, d, WaitStatus(2, 0, 0, None)); }
    } else if d in s.statuses && c != d {
      var v := s.statuses[d];
      if a.WaitDown? { Commutes(s.statuses, c, w, d, v.(dead := v.dead - 1)); }
      else if a.WriteCode? { Commutes(s.statuses, c, w, d, v.(exitCode := x.code)); }
      else { Commutes(s.statuses, c, w, d, v.(dead := v.dead + 1)); }
    }
  }

  lemma {:induction false} ReleaseIgnores(s: State, a: Action, c: Tid, w: Option<WaitStatus>)
    requires Enabled(s, a) && (a.Decrement? || a.Unlock? || a.Free?) && c !in Touched(s, a)
    ensures Ignores(s, a, c, w)
  {
    var d := s.procs[a.t].pc.c;
    if d in s.statuses && c != d {
      var v := s.statuses[d];
      if a.Unlock? { Commutes(s.statuses, c, w, d, v.(locked := None)); }
      else if a.Free? { Commutes(s.statuses, c, w, d, v); }
      else if v.refCnt > 0 {
        Commutes(s.statuses, c, w, d, v.(refCnt := v.refCnt - 1, locked := Some(a.t)));
      }
    }
  }

  /** Every status that a step touches is allocated, but for the one that loading makes. */
  lemma {:induction false} TouchedAllocated(s: State, a: Action, c: Tid)
    requires Inv(s) && TidsFresh(s) && Enabled(s, a) && c in Touched(s, a)
    ensures c in s.statuses || (a.Load? && c == a.t)
  {
    StepKeepsInv(s, a);
    assert ProcOk(s, a.t);
    if a.TakeChild? {
      assert ChildOf(s, c, a.t) && ChildOk(s, c) && PairOk(PairOf(s, c));
    }
  }

  /** After its own release neither side touches the status: no step of the parent once the child has left its list
      and its hands does, and no step of the child once it is past its own release. */
  lemma {:induction false} ParentDone(s: State, a: Action, c: Tid)
    requires Inv(s) && TidsFresh(s) && Enabled(s, a) && ChildOf(s, c, a.t) && ViewOfChild(s.procs[a.t], c).Detached?
    ensures c !in Touched(s, a) && Step(s, a).Ok? && ViewOfChild(Step(s, a).s.procs[a.t], c).Detached?
  {
    StepKeepsInv(s, a);
    assert ProcOk(s, a.t) && ChildOk(s, c);
    StaysDetached(s, a, c);
  }

  lemma {:induction false} StaysDetached(s: State, a: Action, c: Tid)
    requires Enabled(s, a) && Step(s, a).Ok? && ProcOk(s, a.t) && c in s.procs && c != a.t
      && ViewOfChild(s.procs[a.t], c).Detached?
    ensures c !in Touched(s, a) && ViewOfChild(Step(s, a).s.procs[a.t], c).Detached?
  {
    Removed(s.procs[a.t].children, if a.Wait? then a.c else c);
  }

  lemma {:induction false} ChildDone(s: State, a: Action)
    requires Inv(s) && TidsFresh(s) && Enabled(s, a) && ViewOfSelf(s.procs[a.t]).Done?
    ensures a.t !in Touched(s, a) && Step(s, a).Ok? && ViewOfSelf(Step(s, a).s.procs[a.t]).Done?
  {
    StepKeepsInv(s, a);
    assert ProcOk(s, a.t) && ChildOk(s, a.t);
    StaysDone(s, a);
  }

  lemma {:induction false} StaysDone(s: State, a: Action)
    requires Enabled(s, a) && Step(s, a).Ok? && !ChildOf(s, a.t, a.t) && ProcOk(s, a.t)
      && ViewOfSelf(s.procs[a.t]).Done?
    ensures a.t !in Touched(s, a) && ViewOfSelf(Step(s, a).s.procs[a.t]).Done?
  {
  }
}
