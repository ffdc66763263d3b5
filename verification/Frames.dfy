/** Page frames (pintos/src/vm/frame.c and the steps of pintos/src/vm/page.c that set or clear a page's frame):
    allocation, clock eviction, locking and freeing by any number of threads, as an interleaving step
    system. Taking a lock, trying to, releasing it, and each access to a shared field or a few of them
    under a lock is a step. A failed assertion or the use of a freed page is a Panic. */
module Frames {
  import opened Options

  type Tid = nat
  type Pid = nat

  datatype Frame = Frame(lock: Option<Tid>, page: Option<Pid>)

  datatype Page = Page(owner: Tid, frame: Option<nat>)

  /** What a frame is locked or allocated for: page_in, page_lock, setup_stack, destroy_page, or page_deallocate, which
      writes a page of a shared file out first */
  datatype For = PageIn | PageLock | Setup | Destroy | Deallocate(out: bool)

  datatype Pc =
    | Idle
    // frame_lock
    | LockRead(p: Pid, k: For)
    | LockWait(p: Pid, k: For, f: nat)
    | LockCheck(p: Pid, k: For, f: nat)
    | LockAssert(p: Pid, k: For)
    // after frame_lock, with and without a frame
    | Have(p: Pid, k: For, f: nat)
    | HaveNot(p: Pid, k: For)
    // try_frame_alloc_and_lock: looking for a free frame, then for one to evict
    | WantScan(p: Pid, k: For)
    | ScanFree(p: Pid, k: For, i: nat)
    | ScanHeld(p: Pid, k: For, f: nat)
    | Sweep(p: Pid, k: For, i: nat)
    | SweepHeld(p: Pid, k: For, i: nat, f: nat)
    | SweepRelease(p: Pid, k: For, i: nat, f: nat)
    // about to call page_out, and in it with the mapping cleared
    | Evicting(p: Pid, k: For, f: nat)
    | PagingOut(p: Pid, k: For, f: nat)
    | EvictFailed(p: Pid, k: For, f: nat)
    | Evicted(p: Pid, k: For, f: nat)
    // f->page is set, p->frame not yet
    | Got(p: Pid, k: For, f: nat)
    // page_deallocate has written its page out
    | Dropping(p: Pid, f: nat)
    // frame_free has cleared f->page, and the lock is still held
    | Freeing(f: nat)
    // page_lock has paged its page in and is about to install the mapping
    | Installing(p: Pid, f: nat)
    // page_lock has returned true
    | Pinned(p: Pid, f: nat)

  /** What a thread has left locked: page_lock returned false because the mapping could not be installed, with the
      page's frame locked. */
  datatype Leak = Leak(p: Pid, f: nat)

  /** pages are the live pages: one goes when its owner clears its frame's page field, or frees it. leaks has the
      threads whose page_lock failed after the page was in; each is exiting. tries counts the attempts of a thread's
      latest frame_alloc_and_lock. */
  datatype State = State(frames: seq<Frame>, pages: map<Pid, Page>, scanLock: Option<Tid>, hand: nat, pcs: map<Tid, Pc>,
                         leaks: map<Tid, Leak>, tries: map<Tid, nat>)

  const MAX_TRIES: nat := 3

  /** choice is what is decided elsewhere: whether a page was accessed, whether page_out succeeds, whether there is
      memory for the mapping. */
  datatype Action = NewPage(t: Tid, p: Pid) | Enter(t: Tid, p: Pid, k: For) | Move(t: Tid, choice: bool)

  datatype Outcome = Ok(s: State) | Panic

  // ----- small changes

  function At(s: State, t: Tid, pc: Pc): State { s.(pcs := s.pcs[t := pc]) }

  function SetLock(s: State, f: nat, l: Option<Tid>): State
    requires f < |s.frames|
  {
    s.(frames := s.frames[f := s.frames[f].(lock := l)])
  }

  function SetPage(s: State, f: nat, p: Option<Pid>): State
    requires f < |s.frames|
  {
    s.(frames := s.frames[f := s.frames[f].(page := p)])
  }

  function SetFrame(s: State, p: Pid, f: Option<nat>): State
    requires p in s.pages
  {
    s.(pages := s.pages[p := s.pages[p].(frame := f)])
  }

  /** lock_held_by_current_thread */
  predicate Held(s: State, t: Tid, f: nat) { f < |s.frames| && s.frames[f].lock == Some(t) }

  /** The assertions of page_out and page_accessed_recently: the page has a frame, and t has locked it. */
  predicate FrameLocked(s: State, t: Tid, q: Pid) {
    q in s.pages && s.pages[q].frame.Some? && Held(s, t, s.pages[q].frame.value)
  }

  function Release(s: State, t: Tid, f: nat, pc: Pc): Outcome {
    if Held(s, t, f) then Ok(At(SetLock(s, f, None), t, pc)) else Panic
  }

  /** frame_free, up to the release of the lock: from now on the page is its owner's alone. */
  function FreeFrame(s: State, t: Tid, p: Pid, f: nat): Outcome {
    if !Held(s, t, f) then Panic else Ok(At(SetPage(s, f, None).(pages := s.pages - {p}), t, Freeing(f)))
  }

  /** Frame f, held by t and without a page, taken for p; the scan is over. */
  function Take(s: State, t: Tid, p: Pid, k: For, f: nat): Outcome
    requires f < |s.frames|
  {
    Ok(At(SetPage(s, f, Some(p)).(scanLock := None), t, Got(p, k, f)))
  }

  function Tries(s: State, t: Tid): nat { if t in s.tries then s.tries[t] else 0 }

  /** The loop of frame_alloc_and_lock: the next attempt, or none */
  function NextTry(s: State, t: Tid, p: Pid, k: For): State {
    if Tries(s, t) < MAX_TRIES then At(s.(tries := s.tries[t := Tries(s, t) + 1]), t, WantScan(p, k))
      else At(s, t, Idle)
  }

  // ----- enabledness and steps

  predicate NoneOr(l: Option<Tid>, t: Tid) { l == None || l == Some(t) }

  /** The operations of an exiting thread, and a thread whose page_lock fails exits: its callers call thread_exit */
  predicate AtExit(k: For) { k.Destroy? || k.Deallocate? }

  /** A thread waits for a lock that is free to be taken; asking for a lock that it holds itself fails an assertion
      right away. */
  predicate Enabled(s: State, a: Action) {
    && a.t in s.pcs
    && match a {
      case NewPage(t, p) => s.pcs[t].Idle? && p !in s.pages && t !in s.leaks
      case Enter(t, p, k) =>
        && s.pcs[t].Idle? && p in s.pages && s.pages[p].owner == t && (t in s.leaks ==> AtExit(k))
        && (k.Setup? ==> s.pages[p].frame.None?)
      case Move(t, _) =>
        match s.pcs[t] {
          case Idle => false
          case LockWait(_, _, f) => f < |s.frames| ==> NoneOr(s.frames[f].lock, t)
          case WantScan(_, _) => NoneOr(s.scanLock, t)
          case _ => true
        }
    }
  }

  predicate InLock(pc: Pc) { pc.LockRead? || pc.LockWait? || pc.LockCheck? || pc.LockAssert? }

  predicate InUse(pc: Pc) {
    pc.Have? || pc.HaveNot? || pc.Dropping? || pc.Freeing? || pc.Installing? || pc.Pinned?
  }

  predicate InScan(pc: Pc) { pc.WantScan? || pc.ScanFree? || pc.ScanHeld? }

  predicate InSweep(pc: Pc) { pc.Sweep? || pc.SweepHeld? || pc.SweepRelease? }

  predicate InEvict(pc: Pc) { pc.Evicting? || pc.PagingOut? || pc.EvictFailed? || pc.Evicted? || pc.Got? }

  /** The steps of frame_lock */
  function LockStep(s: State, t: Tid): Outcome
    requires t in s.pcs && InLock(s.pcs[t])
  {
    var pc := s.pcs[t];
    if pc.p !in s.pages then Panic
    else
      match pc
      case LockRead(p, k) =>
        Ok(At(s, t, if s.pages[p].frame.Some? then LockWait(p, k, s.pages[p].frame.value) else HaveNot(p, k)))
      case LockWait(p, k, f) =>
        if f >= |s.frames| || Held(s, t, f) then Panic else Ok(At(SetLock(s, f, Some(t)), t, LockCheck(p, k, f)))
      case LockCheck(p, k, f) => if s.pages[p].frame == Some(f) then Ok(At(s, t, Have(p, k, f)))
        else Release(s, t, f, LockAssert(p, k))
      case LockAssert(p, k) => if s.pages[p].frame.Some? then Panic else Ok(At(s, t, HaveNot(p, k)))
  }

  /** What follows frame_lock */
  function UseStep(s: State, t: Tid, choice: bool): Outcome
    requires t in s.pcs && InUse(s.pcs[t])
  {
    match s.pcs[t]
    case Have(p, k, f) =>
      if p !in s.pages || s.pages[p].frame != Some(f) || !Held(s, t, f) then Panic
      else
        (match k
         case PageIn => Release(s, t, f, Idle)
         case PageLock => Ok(At(s, t, Pinned(p, f)))
         case Setup => Release(s, t, f, Idle)
         case Destroy => FreeFrame(s, t, p, f)
         case Deallocate(out) => if out && choice then Ok(At(SetFrame(s, p, None), t, Dropping(p, f)))
           else FreeFrame(s, t, p, f))
    case HaveNot(p, k) =>
      if p !in s.pages then Panic
      else if !AtExit(k) then Ok(At(s.(tries := s.tries[t := 1]), t, WantScan(p, k)))
      else Ok(At(s.(pages := s.pages - {p}), t, Idle))
    case Dropping(p, f) => FreeFrame(s, t, p, f)
    case Freeing(f) => Release(s, t, f, Idle)
    case Installing(p, f) =>
      if p !in s.pages || s.pages[p].frame != Some(f) then Panic
      else if choice then Ok(At(s, t, Pinned(p, f)))
      else Ok(At(s.(leaks := s.leaks[t := Leak(p, f)]), t, Idle))
    case Pinned(p, f) => if p !in s.pages || s.pages[p].frame != Some(f) then Panic else Release(s, t, f, Idle)
  }

  /** The search for a free frame */
  function ScanStep(s: State, t: Tid): Outcome
    requires t in s.pcs && InScan(s.pcs[t])
  {
    match s.pcs[t]
    case WantScan(p, k) => if s.scanLock == Some(t) then Panic
      else Ok(At(s.(scanLock := Some(t)), t, ScanFree(p, k, 0)))
    case ScanFree(p, k, i) =>
      if i >= |s.frames| then Ok(At(s, t, Sweep(p, k, 0)))
      else if Held(s, t, i) then Panic
      else if s.frames[i].lock.Some? then Ok(At(s, t, ScanFree(p, k, i + 1)))
      else Ok(At(SetLock(s, i, Some(t)), t, ScanHeld(p, k, i)))
    case ScanHeld(p, k, f) =>
      if f >= |s.frames| then Panic
      else if s.frames[f].page.None? then Take(s, t, p, k, f)
      else Release(s, t, f, ScanFree(p, k, f + 1))
  }

  /** The clock */
  function SweepStep(s: State, t: Tid, choice: bool): Outcome
    requires t in s.pcs && InSweep(s.pcs[t])
  {
    match s.pcs[t]
    case Sweep(p, k, i) =>
      if i >= 2 * |s.frames| then Ok(NextTry(s.(scanLock := None), t, p, k))
      else if s.hand >= |s.frames| then Panic
      else
        var f, s1 := s.hand, s.(hand := if s.hand + 1 >= |s.frames| then 0 else s.hand + 1);
        if Held(s, t, f) then Panic
        else if s.frames[f].lock.Some? then Ok(At(s1, t, Sweep(p, k, i + 1)))
        else Ok(At(SetLock(s1, f, Some(t)), t, SweepHeld(p, k, i, f)))
    case SweepHeld(p, k, i, f) =>
      if f >= |s.frames| then Panic
      else if s.frames[f].page.None? then Take(s, t, p, k, f)
      else if !FrameLocked(s, t, s.frames[f].page.value) then Panic
      else if choice then Ok(At(s, t, SweepRelease(p, k, i, f)))
      else Ok(At(s.(scanLock := None), t, Evicting(p, k, f)))
    case SweepRelease(p, k, i, f) => Release(s, t, f, Sweep(p, k, i + 1))
  }

  /** Eviction, and the end of an allocation */
  function EvictStep(s: State, t: Tid, choice: bool): Outcome
    requires t in s.pcs && InEvict(s.pcs[t])
  {
    match s.pcs[t]
    case Evicting(p, k, f) =>
      if f >= |s.frames| || s.frames[f].page.None? || !FrameLocked(s, t, s.frames[f].page.value) then Panic
      else Ok(At(s, t, PagingOut(p, k, f)))
    case PagingOut(p, k, f) =>
      if f >= |s.frames| || s.frames[f].page.None? || s.frames[f].page.value !in s.pages then Panic
      else if choice then Ok(At(SetFrame(s, s.frames[f].page.value, None), t, Evicted(p, k, f)))
      else Ok(At(s, t, EvictFailed(p, k, f)))
    case EvictFailed(p, k, f) => if Held(s, t, f) then Ok(NextTry(SetLock(s, f, None), t, p, k)) else Panic
    case Evicted(p, k, f) => if f >= |s.frames| then Panic else Ok(At(SetPage(s, f, Some(p)), t, Got(p, k, f)))
    case Got(p, k, f) =>
      if p !in s.pages || !Held(s, t, f) then Panic
      else Ok(At(SetFrame(s, p, Some(f)), t, if k.PageLock? then Installing(p, f) else Have(p, k, f)))
  }

  function Step(s: State, a: Action): Outcome
    requires Enabled(s, a)
  {
    match a
    case NewPage(t, p) => Ok(s.(pages := s.pages[p := Page(t, None)]))
    case Enter(t, p, k) => Ok(At(s, t, LockRead(p, k)))
    case Move(t, choice) =>
      var pc := s.pcs[t];
      if InLock(pc) then LockStep(s, t)
      else if InUse(pc) then UseStep(s, t, choice)
      else if InScan(pc) then ScanStep(s, t)
      else if InSweep(pc) then SweepStep(s, t, choice)
      else EvictStep(s, t, choice)
  }

  ghost predicate IsRun(ss: seq<State>, acts: seq<Action>) {
    && |ss| == |acts| + 1
    && forall i :: 0 <= i < |acts| ==> Enabled(ss[i], acts[i]) && Step(ss[i], acts[i]) == Ok(ss[i + 1])
  }

  predicate Initial(s: State) {
    && s.pages == map[] && s.leaks == map[] && s.scanLock == None && s.hand == 0
    && (forall f | 0 <= f < |s.frames| :: s.frames[f] == Frame(None, None))
    && (forall t | t in s.pcs :: s.pcs[t] == Idle)
  }

  // ----- the invariant

  /** The frame a thread has locked */
  function Holds(pc: Pc): Option<nat> {
    if pc.LockCheck? || pc.Have? || pc.ScanHeld? || pc.SweepHeld? || pc.SweepRelease? || pc.Evicting? || pc.PagingOut?
      || pc.EvictFailed?
      || pc.Evicted? || pc.Got? || pc.Dropping? || pc.Freeing? || pc.Installing? || pc.Pinned?
    then Some(pc.f) else None
  }

  predicate Scans(pc: Pc) { pc.ScanFree? || pc.ScanHeld? || InSweep(pc) }

  /** What a thread knows of its own page's frame field */
  predicate KnowsFrame(pc: Pc, x: Option<nat>) {
    if pc.Have? || pc.Installing? || pc.Pinned? then x == Some(pc.f)
    else if pc.LockWait? || pc.LockCheck? then x == None || x == Some(pc.f)
    else if pc.LockRead? then true
    else x == None
  }

  /** What an exiting thread can be doing */
  predicate Ending(pc: Pc) {
    || pc.Idle? || pc.Dropping? || pc.Freeing?
    || ((InLock(pc) || pc.Have? || pc.HaveNot?) && AtExit(pc.k))
  }

  /** A frame that thread t has left locked stays with its page, and t has nothing to do with it any more, unless it
      is about to ask for its lock again. */
  ghost predicate LeakOk(s: State, t: Tid, l: Leak)
    requires t in s.pcs
  {
    var pc := s.pcs[t];
    && Held(s, t, l.f) && s.frames[l.f].page == Some(l.p) && Linked(s, l.p, l.f) && s.pages[l.p].owner == t
    && Ending(pc) && Holds(pc) != Some(l.f) && (pc.LockWait? && pc.f == l.f ==> pc.p == l.p)
  }

  ghost predicate ThreadOk(s: State, t: Tid)
    requires t in s.pcs
  {
    var pc := s.pcs[t];
    && (Scans(pc) <==> s.scanLock == Some(t))
    && (Holds(pc).Some? ==> Held(s, t, Holds(pc).value))
    && (pc.LockWait? ==> pc.f < |s.frames|)
    && (!pc.Idle? && !pc.Freeing? ==>
      pc.p in s.pages && s.pages[pc.p].owner == t && KnowsFrame(pc, s.pages[pc.p].frame))
    && (pc.Evicting? || pc.PagingOut? ==> pc.f < |s.frames| && s.frames[pc.f].page.Some?)
    && (t in s.leaks ==> LeakOk(s, t, s.leaks[t]))
  }

  ghost predicate Linked(s: State, q: Pid, f: nat) { q in s.pages && s.pages[q].frame == Some(f) }

  predicate Leaked(s: State, t: Tid, f: nat) { t in s.leaks && s.leaks[t].f == f }

  /** A frame's lock is held by a thread that knows it or has leaked it, and the page recorded in it has it as its
      frame, but for the short times in which the thread that holds the lock is changing that. */
  ghost predicate FrameOk(s: State, f: nat)
    requires f < |s.frames|
  {
    var x := s.frames[f];
    && (x.lock.Some? ==> x.lock.value in s.pcs && (Holds(s.pcs[x.lock.value]) == Some(f) || Leaked(s, x.lock.value, f)))
    && var pc := if x.lock.Some? && x.lock.value in s.pcs && !Leaked(s, x.lock.value, f) then s.pcs[x.lock.value]
      else Idle;
    if pc.Got? || pc.Dropping? then x.page == Some(pc.p)
    else if pc.Evicted? then x.page.Some? ==> !Linked(s, x.page.value, f)
    else if pc.Freeing? then x.page.None?
    else x.page.Some? ==> Linked(s, x.page.value, f)
  }

  /** A live page with a frame is the page recorded in that frame. */
  ghost predicate PageOk(s: State, q: Pid)
    requires q in s.pages
  {
    && s.pages[q].owner in s.pcs
    && (s.pages[q].frame.Some? ==>
      s.pages[q].frame.value < |s.frames| && s.frames[s.pages[q].frame.value].page == Some(q))
  }

  ghost predicate Inv(s: State) {
    && (forall t | t in s.pcs :: ThreadOk(s, t))
    && (forall f: nat | f < |s.frames| :: FrameOk(s, f))
    && (forall q | q in s.pages :: PageOk(s, q))
    && (s.scanLock.Some? ==> s.scanLock.value in s.pcs)
    && s.leaks.Keys <= s.pcs.Keys
    && (s.hand < |s.frames| || |s.frames| == 0)
  }

  // ----- steps concern one thread, one frame and one page

  /** What a step of thread t may do to page q: nothing; set the frame of its own page; clear that of the page in
      the frame f it has locked; make a new page; or free its own. */
  ghost predicate PageTouched(s: State, s': State, t: Tid, f: nat, q: Pid) {
    if q in s.pages && q in s'.pages then
      var x, y := s.pages[q], s'.pages[q];
      && y.owner == x.owner
      && (y.frame == x.frame || (x.frame == None && y.frame == Some(f) && x.owner == t)
        || (x.frame == Some(f) && y.frame == None && Held(s, t, f)))
    else if q in s.pages then
      s.pages[q].owner == t && (s.pages[q].frame == None || (s.pages[q].frame == Some(f) && Held(s, t, f)))
    else q in s'.pages ==> s'.pages[q].frame == None
  }

  ghost predicate FrameTouched(s: State, s': State, t: Tid, f: nat, q: Pid) {
    f < |s.frames| ==>
      && f < |s'.frames| && NoneOr(s.frames[f].lock, t) && NoneOr(s'.frames[f].lock, t)
      && (s'.frames[f].page == s.frames[f].page || s.frames[f].page.None? || s.frames[f].page == Some(q)
        || !Linked(s, s.frames[f].page.value, f))
  }

  ghost predicate Touches(s: State, s': State, t: Tid, f: nat, q: Pid) {
    && t in s.pcs && s'.pcs.Keys == s.pcs.Keys && (forall u | u in s.pcs && u != t :: s'.pcs[u] == s.pcs[u])
    && |s'.frames| == |s.frames| && (forall g: nat | g < |s.frames| && g != f :: s'.frames[g] == s.frames[g])
    && (forall x | x in s.pages && x != q :: x in s'.pages && s'.pages[x] == s.pages[x])
    && (forall x | x in s'.pages && x != q :: x in s.pages)
    && PageTouched(s, s', t, f, q) && FrameTouched(s, s', t, f, q)
    && (Holds(s.pcs[t]).Some? ==> Holds(s.pcs[t]) == Some(f))
    && (forall u | u in s.leaks :: u in s'.leaks && s'.leaks[u] == s.leaks[u])
    && (forall u | u in s'.leaks && u != t :: u in s.leaks)
    && (s'.scanLock == s.scanLock || (NoneOr(s.scanLock, t) && NoneOr(s'.scanLock, t)))
    && (s'.hand < |s'.frames| || |s'.frames| == 0)
  }

  lemma {:induction false} OtherThread(s: State, s': State, t: Tid, f: nat, q: Pid, u: Tid)
    requires Touches(s, s', t, f, q) && u in s.pcs && u != t && ThreadOk(s, u)
    ensures ThreadOk(s', u)
  {
  }

  lemma {:induction false} OtherFrame(s: State, s': State, t: Tid, f: nat, q: Pid, g: nat)
    requires Touches(s, s', t, f, q) && g < |s.frames| && g != f && FrameOk(s, g) && ThreadOk(s, t)
    ensures FrameOk(s', g)
  {
  }

  lemma {:induction false} OtherPage(s: State, s': State, t: Tid, f: nat, q: Pid, x: Pid)
    requires Touches(s, s', t, f, q) && x in s.pages && x != q && PageOk(s, x)
    ensures PageOk(s', x)
  {
  }

  ghost predicate Local(s: State, s': State, t: Tid, f: nat, q: Pid) {
    && Touches(s, s', t, f, q) && ThreadOk(s', t) && (f < |s'.frames| ==> FrameOk(s', f))
      && (q in s'.pages ==> PageOk(s', q))
  }

  lemma {:induction false} LocalSteps(s: State, s': State, t: Tid, f: nat, q: Pid)
    requires Inv(s) && Local(s, s', t, f, q)
    ensures Inv(s')
  {
    assert ThreadOk(s, t);
    forall u | u in s'.pcs ensures ThreadOk(s', u) {
      if u != t { assert ThreadOk(s, u); OtherThread(s, s', t, f, q, u); }
    }
    forall g: nat | g < |s'.frames| ensures FrameOk(s', g) {
      if g != f { assert FrameOk(s, g); OtherFrame(s, s', t, f, q, g); }
    }
    forall x | x in s'.pages ensures PageOk(s', x) { if x != q { assert PageOk(s, x); OtherPage(s, s', t, f, q, x); } }
  }

  /** The invariant, for thread t, frame f and page q */
  ghost predicate OkFor(s: State, t: Tid, f: nat, q: Pid) {
    && t in s.pcs && ThreadOk(s, t) && (f < |s.frames| ==> FrameOk(s, f)) && (q in s.pages ==> PageOk(s, q))
    && (s.hand < |s.frames| || |s.frames| == 0)
  }

  /** No frame at all */
  function NoFrame(s: State): nat { |s.frames| }

  lemma {:induction false} Acquire(s: State, t: Tid)
    requires t in s.pcs && s.pcs[t].LockWait? && OkFor(s, t, s.pcs[t].f, s.pcs[t].p) && s.frames[s.pcs[t].f].lock.None?
    ensures LockStep(s, t).Ok? && Local(s, LockStep(s, t).s, t, s.pcs[t].f, s.pcs[t].p)
  {
  }

  lemma {:induction false} Check(s: State, t: Tid)
    requires t in s.pcs && s.pcs[t].LockCheck? && OkFor(s, t, s.pcs[t].f, s.pcs[t].p)
    ensures LockStep(s, t).Ok? && Local(s, LockStep(s, t).s, t, s.pcs[t].f, s.pcs[t].p)
  {
  }

  /** The assertion in frame_lock holds: a frame is never inserted by anyone but the page's owner. */
  lemma {:induction false} ReadOrAssert(s: State, t: Tid)
    requires t in s.pcs && (s.pcs[t].LockRead? || s.pcs[t].LockAssert?) && OkFor(s, t, NoFrame(s), s.pcs[t].p)
    ensures LockStep(s, t).Ok? && Local(s, LockStep(s, t).s, t, NoFrame(s), s.pcs[t].p)
  {
  }

  lemma {:induction false} PinFrame(s: State, t: Tid, choice: bool)
    requires t in s.pcs && s.pcs[t].Have? && s.pcs[t].k.PageLock? && OkFor(s, t, s.pcs[t].f, s.pcs[t].p)
    ensures UseStep(s, t, choice).Ok? && Local(s, UseStep(s, t, choice).s, t, s.pcs[t].f, s.pcs[t].p)
  {
  }

  lemma {:induction false} UseFrame(s: State, t: Tid, choice: bool)
    requires t in s.pcs && s.pcs[t].Have? && (s.pcs[t].k.PageIn? || s.pcs[t].k.Setup?)
      && OkFor(s, t, s.pcs[t].f, s.pcs[t].p)
    ensures UseStep(s, t, choice).Ok? && Local(s, UseStep(s, t, choice).s, t, s.pcs[t].f, s.pcs[t].p)
  {
  }

  lemma {:induction false} GiveUpFrame(s: State, t: Tid, choice: bool)
    requires t in s.pcs && s.pcs[t].Have? && s.pcs[t].k.Destroy? && OkFor(s, t, s.pcs[t].f, s.pcs[t].p)
    ensures UseStep(s, t, choice).Ok? && Local(s, UseStep(s, t, choice).s, t, s.pcs[t].f, s.pcs[t].p)
  {
  }

  lemma {:induction false} WriteOut(s: State, t: Tid)
    requires t in s.pcs && s.pcs[t].Have? && s.pcs[t].k == Deallocate(true) && OkFor(s, t, s.pcs[t].f, s.pcs[t].p)
    ensures UseStep(s, t, true).Ok? && Local(s, UseStep(s, t, true).s, t, s.pcs[t].f, s.pcs[t].p)
  {
  }

  lemma {:induction false} Discard(s: State, t: Tid, choice: bool)
    requires t in s.pcs && s.pcs[t].Have? && s.pcs[t].k.Deallocate? && OkFor(s, t, s.pcs[t].f, s.pcs[t].p)
      && !(s.pcs[t].k.out && choice)
    ensures UseStep(s, t, choice).Ok? && Local(s, UseStep(s, t, choice).s, t, s.pcs[t].f, s.pcs[t].p)
  {
  }

  lemma {:induction false} FreePage(s: State, t: Tid, choice: bool)
    requires t in s.pcs && s.pcs[t].HaveNot? && AtExit(s.pcs[t].k) && OkFor(s, t, NoFrame(s), s.pcs[t].p)
    ensures UseStep(s, t, choice).Ok? && Local(s, UseStep(s, t, choice).s, t, NoFrame(s), s.pcs[t].p)
  {
  }

  lemma {:induction false} UseNothing(s: State, t: Tid, choice: bool)
    requires t in s.pcs && s.pcs[t].HaveNot? && !AtExit(s.pcs[t].k) && OkFor(s, t, NoFrame(s), s.pcs[t].p)
    ensures UseStep(s, t, choice).Ok? && Local(s, UseStep(s, t, choice).s, t, NoFrame(s), s.pcs[t].p)
  {
  }

  lemma {:induction false} Drop(s: State, t: Tid, choice: bool)
    requires t in s.pcs && s.pcs[t].Dropping? && OkFor(s, t, s.pcs[t].f, s.pcs[t].p)
    ensures UseStep(s, t, choice).Ok? && Local(s, UseStep(s, t, choice).s, t, s.pcs[t].f, s.pcs[t].p)
  {
  }

  lemma {:induction false} Map(s: State, t: Tid, choice: bool)
    requires t in s.pcs && s.pcs[t].Installing? && OkFor(s, t, s.pcs[t].f, s.pcs[t].p)
    ensures UseStep(s, t, choice).Ok? && Local(s, UseStep(s, t, choice).s, t, s.pcs[t].f, s.pcs[t].p)
  {
  }

  lemma {:induction false} Unpin(s: State, t: Tid, choice: bool)
    requires t in s.pcs && s.pcs[t].Pinned? && OkFor(s, t, s.pcs[t].f, s.pcs[t].p)
    ensures UseStep(s, t, choice).Ok? && Local(s, UseStep(s, t, choice).s, t, s.pcs[t].f, s.pcs[t].p)
  {
  }

  lemma {:induction false} FinishFree(s: State, t: Tid, choice: bool, q: Pid)
    requires t in s.pcs && s.pcs[t].Freeing? && OkFor(s, t, s.pcs[t].f, q)
    ensures UseStep(s, t, choice).Ok? && Local(s, UseStep(s, t, choice).s, t, s.pcs[t].f, q)
  {
  }

  lemma {:induction false} ScanSkips(s: State, t: Tid)
    requires t in s.pcs && s.pcs[t].ScanFree? && OkFor(s, t, s.pcs[t].i, s.pcs[t].p)
    requires s.pcs[t].i < |s.frames| ==> s.frames[s.pcs[t].i].lock.Some?
    ensures ScanStep(s, t).Ok? && Local(s, ScanStep(s, t).s, t, NoFrame(s), s.pcs[t].p)
  {
  }

  lemma {:induction false} ScanLocks(s: State, t: Tid)
    requires t in s.pcs && s.pcs[t].ScanFree? && OkFor(s, t, s.pcs[t].i, s.pcs[t].p)
    requires s.pcs[t].i < |s.frames| && s.frames[s.pcs[t].i].lock.None?
    ensures ScanStep(s, t).Ok? && Local(s, ScanStep(s, t).s, t, s.pcs[t].i, s.pcs[t].p)
  {
  }

  lemma {:induction false} StartScan(s: State, t: Tid)
    requires t in s.pcs && s.pcs[t].WantScan? && s.scanLock.None? && OkFor(s, t, NoFrame(s), s.pcs[t].p)
    ensures ScanStep(s, t).Ok? && Local(s, ScanStep(s, t).s, t, NoFrame(s), s.pcs[t].p)
  {
  }

  lemma {:induction false} TakeFree(s: State, t: Tid)
    requires t in s.pcs && s.pcs[t].ScanHeld? && OkFor(s, t, s.pcs[t].f, s.pcs[t].p)
      && s.frames[s.pcs[t].f].page.None?
    ensures ScanStep(s, t).Ok? && Local(s, ScanStep(s, t).s, t, s.pcs[t].f, s.pcs[t].p)
  {
  }

  lemma {:induction false} PassUsed(s: State, t: Tid)
    requires t in s.pcs && s.pcs[t].ScanHeld? && OkFor(s, t, s.pcs[t].f, s.pcs[t].p)
      && s.frames[s.pcs[t].f].page.Some?
    ensures ScanStep(s, t).Ok? && Local(s, ScanStep(s, t).s, t, s.pcs[t].f, s.pcs[t].p)
  {
  }

  lemma {:induction false} SweepRetried(s: State, t: Tid, choice: bool)
    requires t in s.pcs && s.pcs[t].Sweep? && OkFor(s, t, NoFrame(s), s.pcs[t].p) && s.pcs[t].i >= 2 * |s.frames|
      && Tries(s, t) < MAX_TRIES
    ensures SweepStep(s, t, choice).Ok? && Local(s, SweepStep(s, t, choice).s, t, NoFrame(s), s.pcs[t].p)
  {
  }

  lemma {:induction false} SweepFails(s: State, t: Tid, choice: bool)
    requires t in s.pcs && s.pcs[t].Sweep? && OkFor(s, t, NoFrame(s), s.pcs[t].p) && s.pcs[t].i >= 2 * |s.frames|
      && Tries(s, t) >= MAX_TRIES
    ensures SweepStep(s, t, choice).Ok? && Local(s, SweepStep(s, t, choice).s, t, NoFrame(s), s.pcs[t].p)
  {
  }

  lemma {:induction false} SweepSkips(s: State, t: Tid, choice: bool)
    requires t in s.pcs && s.pcs[t].Sweep? && OkFor(s, t, s.hand, s.pcs[t].p)
    requires s.pcs[t].i < 2 * |s.frames| && s.frames[s.hand].lock.Some?
    ensures SweepStep(s, t, choice).Ok? && Local(s, SweepStep(s, t, choice).s, t, NoFrame(s), s.pcs[t].p)
  {
  }

  lemma {:induction false} SweepLocks(s: State, t: Tid, choice: bool)
    requires t in s.pcs && s.pcs[t].Sweep? && OkFor(s, t, s.hand, s.pcs[t].p)
    requires s.pcs[t].i < 2 * |s.frames| && s.frames[s.hand].lock.None?
    ensures SweepStep(s, t, choice).Ok? && Local(s, SweepStep(s, t, choice).s, t, s.hand, s.pcs[t].p)
  {
  }

  lemma {:induction false} TakeUnused(s: State, t: Tid, choice: bool)
    requires t in s.pcs && s.pcs[t].SweepHeld? && OkFor(s, t, s.pcs[t].f, s.pcs[t].p)
      && s.frames[s.pcs[t].f].page.None?
    ensures SweepStep(s, t, choice).Ok? && Local(s, SweepStep(s, t, choice).s, t, s.pcs[t].f, s.pcs[t].p)
  {
  }

  lemma {:induction false} InspectVictim(s: State, t: Tid, choice: bool)
    requires t in s.pcs && s.pcs[t].SweepHeld? && OkFor(s, t, s.pcs[t].f, s.pcs[t].p)
      && s.frames[s.pcs[t].f].page.Some?
    ensures SweepStep(s, t, choice).Ok? && Local(s, SweepStep(s, t, choice).s, t, s.pcs[t].f, s.pcs[t].p)
  {
  }

  lemma {:induction false} LetGo(s: State, t: Tid, choice: bool)
    requires t in s.pcs && s.pcs[t].SweepRelease? && OkFor(s, t, s.pcs[t].f, s.pcs[t].p)
    ensures SweepStep(s, t, choice).Ok? && Local(s, SweepStep(s, t, choice).s, t, s.pcs[t].f, s.pcs[t].p)
  {
  }

  /** The page being evicted is live and has the frame that the evictor has locked. */
  lemma {:induction false} Evict(s: State, t: Tid, choice: bool, q: Pid)
    requires t in s.pcs && s.pcs[t].Evicting? && s.pcs[t].f < |s.frames| && s.frames[s.pcs[t].f].page == Some(q)
    requires OkFor(s, t, s.pcs[t].f, q)
    ensures EvictStep(s, t, choice).Ok? && Local(s, EvictStep(s, t, choice).s, t, s.pcs[t].f, q)
  {
  }

  lemma {:induction false} PageOut(s: State, t: Tid, choice: bool, q: Pid)
    requires t in s.pcs && s.pcs[t].PagingOut? && s.pcs[t].f < |s.frames| && s.frames[s.pcs[t].f].page == Some(q)
    requires OkFor(s, t, s.pcs[t].f, q)
    ensures EvictStep(s, t, choice).Ok? && Local(s, EvictStep(s, t, choice).s, t, s.pcs[t].f, q)
  {
  }

  lemma {:induction false} EvictionRetried(s: State, t: Tid, choice: bool)
    requires t in s.pcs && s.pcs[t].EvictFailed? && OkFor(s, t, s.pcs[t].f, s.pcs[t].p) && Tries(s, t) < MAX_TRIES
    ensures EvictStep(s, t, choice).Ok? && Local(s, EvictStep(s, t, choice).s, t, s.pcs[t].f, s.pcs[t].p)
  {
  }

  lemma {:induction false} EvictionFails(s: State, t: Tid, choice: bool)
    requires t in s.pcs && s.pcs[t].EvictFailed? && OkFor(s, t, s.pcs[t].f, s.pcs[t].p) && Tries(s, t) >= MAX_TRIES
    ensures EvictStep(s, t, choice).Ok? && Local(s, EvictStep(s, t, choice).s, t, s.pcs[t].f, s.pcs[t].p)
  {
  }

  lemma {:induction false} EvictionEnds(s: State, t: Tid, choice: bool)
    requires t in s.pcs && s.pcs[t].Evicted? && OkFor(s, t, s.pcs[t].f, s.pcs[t].p)
    ensures EvictStep(s, t, choice).Ok? && Local(s, EvictStep(s, t, choice).s, t, s.pcs[t].f, s.pcs[t].p)
  {
  }

  lemma {:induction false} Install(s: State, t: Tid, choice: bool)
    requires t in s.pcs && s.pcs[t].Got? && OkFor(s, t, s.pcs[t].f, s.pcs[t].p)
    ensures EvictStep(s, t, choice).Ok? && Local(s, EvictStep(s, t, choice).s, t, s.pcs[t].f, s.pcs[t].p)
  {
  }

  // ----- every step and every run

  /** t is about to ask for a lock that it holds. */
  predicate Relocks(s: State, t: Tid) { t in s.pcs && s.pcs[t].LockWait? && Held(s, t, s.pcs[t].f) }

  /** The page that a step concerns */
  function PageAt(s: State, a: Action): Pid
    requires Enabled(s, a)
  {
    if !a.Move? then a.p
    else
      var pc := s.pcs[a.t];
      if pc.Freeing? then 0
      else if (pc.Evicting? || pc.PagingOut?) && pc.f < |s.frames|
        && s.frames[pc.f].page.Some? then s.frames[pc.f].page.value
      else pc.p
  }

  /** The frame that a step concerns, or none */
  function FrameAt(s: State, a: Action): nat
    requires Enabled(s, a)
  {
    if !a.Move? then NoFrame(s)
    else
      var pc := s.pcs[a.t];
      if pc.ScanFree? then if pc.i < |s.frames| && s.frames[pc.i].lock.None? then pc.i else NoFrame(s)
      else if pc.Sweep? then
        if pc.i < 2 * |s.frames| && s.hand < |s.frames| && s.frames[s.hand].lock.None? then s.hand else NoFrame(s)
      else if pc.LockRead? || pc.LockAssert? || pc.HaveNot? || pc.WantScan? then NoFrame(s)
      else pc.f
  }

  /** The step fails no assertion, and concerns its thread, one frame and one page. */
  ghost predicate GoesWell(s: State, a: Action)
    requires Enabled(s, a)
  {
    Step(s, a).Ok? && Local(s, Step(s, a).s, a.t, FrameAt(s, a), PageAt(s, a))
  }

  lemma {:induction false} LockLocal(s: State, a: Action)
    requires Inv(s) && Enabled(s, a) && a.Move? && InLock(s.pcs[a.t]) && !Relocks(s, a.t)
    ensures GoesWell(s, a)
  {
    var t, pc := a.t, s.pcs[a.t];
    assert ThreadOk(s, t) && PageOk(s, pc.p);
    if pc.LockRead? || pc.LockAssert? {
      ReadOrAssert(s, t);
    } else {
      assert FrameOk(s, pc.f);
      WaitLocal(s, a);
    }
  }

  lemma {:induction false} WaitLocal(s: State, a: Action)
    requires Enabled(s, a) && a.Move? && (s.pcs[a.t].LockWait? || s.pcs[a.t].LockCheck?)
      && OkFor(s, a.t, s.pcs[a.t].f, s.pcs[a.t].p) && !Relocks(s, a.t)
    ensures GoesWell(s, a)
  {
    if s.pcs[a.t].LockWait? { Acquire(s, a.t); } else { Check(s, a.t); }
  }

  lemma {:induction false} UseLocal(s: State, a: Action)
    requires Inv(s) && Enabled(s, a) && a.Move? && InUse(s.pcs[a.t])
    ensures GoesWell(s, a)
  {
    var t, pc := a.t, s.pcs[a.t];
    assert ThreadOk(s, t);
    if pc.HaveNot? {
      assert PageOk(s, pc.p);
      if AtExit(pc.k) { FreePage(s, t, a.choice); } else { UseNothing(s, t, a.choice); }
    } else if pc.Freeing? {
      assert FrameOk(s, pc.f);
      if 0 in s.pages { assert PageOk(s, 0); }
      FinishFree(s, t, a.choice, 0);
    } else {
      assert FrameOk(s, pc.f) && PageOk(s, pc.p);
      if pc.Have? { HaveLocal(s, a); } else { DoneLocal(s, a); }
    }
  }

  lemma {:induction false} HaveLocal(s: State, a: Action)
    requires Enabled(s, a) && a.Move? && s.pcs[a.t].Have? && OkFor(s, a.t, s.pcs[a.t].f, s.pcs[a.t].p)
    ensures GoesWell(s, a)
  {
    var t, pc := a.t, s.pcs[a.t];
    if pc.k.PageLock? { PinFrame(s, t, a.choice); }
    else if !AtExit(pc.k) { UseFrame(s, t, a.choice); }
    else if pc.k.Destroy? { GiveUpFrame(s, t, a.choice); }
    else if pc.k.out && a.choice { WriteOut(s, t); }
    else { Discard(s, t, a.choice); }
  }

  lemma {:induction false} DoneLocal(s: State, a: Action)
    requires Enabled(s, a) && a.Move? && (s.pcs[a.t].Dropping? || s.pcs[a.t].Installing? || s.pcs[a.t].Pinned?)
      && OkFor(s, a.t, s.pcs[a.t].f, s.pcs[a.t].p)
    ensures GoesWell(s, a)
  {
    var t, pc := a.t, s.pcs[a.t];
    if pc.Dropping? { Drop(s, t, a.choice); }
    else if pc.Installing? { Map(s, t, a.choice); }
    else { Unpin(s, t, a.choice); }
  }

  lemma {:induction false} ScanLocal(s: State, a: Action)
    requires Inv(s) && Enabled(s, a) && a.Move? && InScan(s.pcs[a.t])
    ensures GoesWell(s, a)
  {
    var t, pc := a.t, s.pcs[a.t];
    assert ThreadOk(s, t) && PageOk(s, pc.p);
    if pc.WantScan? {
      StartScan(s, t);
    } else if pc.ScanFree? {
      if pc.i < |s.frames| { assert FrameOk(s, pc.i); }
      if pc.i < |s.frames| && s.frames[pc.i].lock.None? { ScanLocks(s, t); } else { ScanSkips(s, t); }
    } else {
      assert FrameOk(s, pc.f);
      if s.frames[pc.f].page.None? { TakeFree(s, t); } else { PassUsed(s, t); }
    }
  }

  lemma {:induction false} SweepLocal(s: State, a: Action)
    requires Inv(s) && Enabled(s, a) && a.Move? && InSweep(s.pcs[a.t])
    ensures GoesWell(s, a)
  {
    var t, pc := a.t, s.pcs[a.t];
    assert ThreadOk(s, t) && PageOk(s, pc.p);
    if pc.Sweep? {
      HandLocal(s, a);
    } else {
      assert FrameOk(s, pc.f);
      LookLocal(s, a);
    }
  }

  lemma {:induction false} LookLocal(s: State, a: Action)
    requires Enabled(s, a) && a.Move? && (s.pcs[a.t].SweepHeld? || s.pcs[a.t].SweepRelease?)
      && OkFor(s, a.t, s.pcs[a.t].f, s.pcs[a.t].p)
    ensures GoesWell(s, a)
  {
    if s.pcs[a.t].SweepRelease? { LetGo(s, a.t, a.choice); }
    else if s.frames[s.pcs[a.t].f].page.None? { TakeUnused(s, a.t, a.choice); }
    else { InspectVictim(s, a.t, a.choice); }
  }

  lemma {:induction false} HandLocal(s: State, a: Action)
    requires Inv(s) && Enabled(s, a) && a.Move? && s.pcs[a.t].Sweep?
    ensures GoesWell(s, a)
  {
    var t, pc := a.t, s.pcs[a.t];
    assert ThreadOk(s, t) && PageOk(s, pc.p);
    if pc.i >= 2 * |s.frames| {
      if Tries(s, t) < MAX_TRIES { SweepRetried(s, t, a.choice); } else { SweepFails(s, t, a.choice); }
    } else {
      assert FrameOk(s, s.hand);
      if s.frames[s.hand].lock.Some? { SweepSkips(s, t, a.choice); } else { SweepLocks(s, t, a.choice); }
    }
  }

  lemma {:induction false} EvictLocal(s: State, a: Action)
    requires Inv(s) && Enabled(s, a) && a.Move? && InEvict(s.pcs[a.t])
    ensures GoesWell(s, a)
  {
    var t, pc := a.t, s.pcs[a.t];
    assert ThreadOk(s, t) && PageOk(s, pc.p) && FrameOk(s, pc.f);
    if pc.Evicting? || pc.PagingOut? { VictimLocal(s, a); } else { EvictedLocal(s, a); }
  }

  lemma {:induction false} EvictedLocal(s: State, a: Action)
    requires Enabled(s, a) && a.Move? && (s.pcs[a.t].EvictFailed? || s.pcs[a.t].Evicted? || s.pcs[a.t].Got?)
      && OkFor(s, a.t, s.pcs[a.t].f, s.pcs[a.t].p)
    ensures GoesWell(s, a)
  {
    var t, pc := a.t, s.pcs[a.t];
    if pc.Got? { Install(s, t, a.choice); }
    else if pc.Evicted? { EvictionEnds(s, t, a.choice); }
    else if Tries(s, t) < MAX_TRIES { EvictionRetried(s, t, a.choice); }
    else { EvictionFails(s, t, a.choice); }
  }

  lemma {:induction false} VictimLocal(s: State, a: Action)
    requires Inv(s) && Enabled(s, a) && a.Move? && (s.pcs[a.t].Evicting? || s.pcs[a.t].PagingOut?)
    ensures GoesWell(s, a)
  {
    var t, pc := a.t, s.pcs[a.t];
    assert ThreadOk(s, t) && FrameOk(s, pc.f);
    var q := s.frames[pc.f].page.value;
    assert PageOk(s, q);
    if pc.Evicting? { Evict(s, t, a.choice, q); } else { PageOut(s, t, a.choice, q); }
  }

  lemma {:induction false} EnterLocal(s: State, a: Action)
    requires Enabled(s, a) && a.Enter? && OkFor(s, a.t, NoFrame(s), a.p)
    ensures GoesWell(s, a)
  {
  }

  lemma {:induction false} NewLocal(s: State, a: Action)
    requires Enabled(s, a) && a.NewPage? && OkFor(s, a.t, NoFrame(s), a.p)
    ensures GoesWell(s, a)
  {
  }

  /** All steps do, but for one that asks for a lock that its thread holds. */
  lemma {:induction false} StepLocal(s: State, a: Action)
    requires Inv(s) && Enabled(s, a) && !(a.Move? && Relocks(s, a.t))
    ensures GoesWell(s, a)
  {
    if !a.Move? {
      assert ThreadOk(s, a.t);
      if a.Enter? { assert PageOk(s, a.p); EnterLocal(s, a); } else { NewLocal(s, a); }
    } else {
      var pc := s.pcs[a.t];
      if InLock(pc) { LockLocal(s, a); }
      else if InUse(pc) { UseLocal(s, a); }
      else if InScan(pc) { ScanLocal(s, a); }
      else if InSweep(pc) { SweepLocal(s, a); }
      else { EvictLocal(s, a); }
    }
  }

  /** No assertion fails, and no freed page is used, but for a thread that locks its leaked frame again. */
  lemma {:induction false} StepKeepsInv(s: State, a: Action)
    requires Inv(s) && Enabled(s, a)
    ensures Step(s, a).Panic? <==> a.Move? && Relocks(s, a.t)
    ensures Step(s, a).Ok? ==> Inv(Step(s, a).s)
  {
    if !(a.Move? && Relocks(s, a.t)) {
      StepLocal(s, a);
      LocalSteps(s, Step(s, a).s, a.t, FrameAt(s, a), PageAt(s, a));
    }
  }

  lemma {:induction false} RunKeepsInv(ss: seq<State>, acts: seq<Action>, i: nat)
    requires IsRun(ss, acts) && Initial(ss[0]) && i < |ss|
    ensures Inv(ss[i])
  {
    if i > 0 {
      var j := i - 1;
      RunKeepsInv(ss, acts, j);
      assert Enabled(ss[j], acts[j]) && Step(ss[j], acts[j]) == Ok(ss[j + 1]);
      StepKeepsInv(ss[j], acts[j]);
    }
  }

  // ----- what the invariant is for

  /** A thread whose page_lock failed is about to lock that page's frame, in order to free the page. */
  predicate LocksLeaked(s: State, a: Action) {
    a.Move? && a.t in s.leaks && a.t in s.pcs && s.pcs[a.t].LockWait? && s.pcs[a.t].p == s.leaks[a.t].p
  }

  lemma {:induction false} RelocksLeaked(s: State, a: Action)
    requires Inv(s) && a.Move? && a.t in s.pcs
    ensures Relocks(s, a.t) <==> LocksLeaked(s, a)
  {
    assert ThreadOk(s, a.t);
    if s.pcs[a.t].LockWait? { assert FrameOk(s, s.pcs[a.t].f); }
  }

  /** In every interleaving a live page whose frame is f is the page recorded in f, so no two live pages have the
      same frame; and whatever step comes next, an assertion of frame.c, of page.c or of the locks fails in it exactly
      if a thread whose page_lock could not install its mapping goes on to free that page. */
  lemma {:induction false} PageHasItsFrame(ss: seq<State>, acts: seq<Action>, p: Pid, q: Pid, a: Action)
    requires IsRun(ss, acts) && Initial(ss[0])
    ensures var s := ss[|acts|];
      && (p in s.pages && s.pages[p].frame.Some? ==>
            s.pages[p].frame.value < |s.frames| && s.frames[s.pages[p].frame.value].page == Some(p))
      && (p in s.pages && q in s.pages && p != q && s.pages[p].frame.Some? ==> s.pages[p].frame != s.pages[q].frame)
      && (Enabled(s, a) ==> (Step(s, a).Panic? <==> LocksLeaked(s, a)))
  {
    var s := ss[|acts|];
    RunKeepsInv(ss, acts, |acts|);
    if p in s.pages { assert PageOk(s, p); }
    if q in s.pages { assert PageOk(s, q); }
    if Enabled(s, a) {
      StepKeepsInv(s, a);
      if a.Move? { RelocksLeaked(s, a); }
    }
  }

  // ----- page_lock whose mapping cannot be installed

  predicate FailsInstall(s: State, a: Action) { a.Move? && a.t in s.pcs && s.pcs[a.t].Installing? && !a.choice }

  lemma {:induction false} StepLeaks(s: State, a: Action)
    requires Enabled(s, a) && Step(s, a).Ok?
    ensures Step(s, a).s.leaks
         == if FailsInstall(s, a) then s.leaks[a.t := Leak(s.pcs[a.t].p, s.pcs[a.t].f)] else s.leaks
  {
    if a.Move? {
      var pc := s.pcs[a.t];
      if InLock(pc) { OthersStayLock(s, a.t, a.t); }
      else if InUse(pc) { OthersStayUse(s, a.t, a.choice, a.t); }
      else if InScan(pc) { OthersStayScan(s, a.t, a.t); }
      else if InSweep(pc) { OthersStaySweep(s, a.t, a.choice, a.t); }
      else { OthersStayEvict(s, a.t, a.choice, a.t); }
    }
  }

  /** A run in which every mapping could be installed leaks nothing, and no assertion fails after it. */
  lemma {:induction false} NoFailureNoPanic(ss: seq<State>, acts: seq<Action>, a: Action)
    requires IsRun(ss, acts) && Initial(ss[0]) && forall i | 0 <= i < |acts| :: !FailsInstall(ss[i], acts[i])
    requires Enabled(ss[|acts|], a)
    ensures Step(ss[|acts|], a).Ok?
  {
    NoLeaks(ss, acts, |acts|);
    PageHasItsFrame(ss, acts, 0, 0, a);
  }

  lemma {:induction false} NoLeaks(ss: seq<State>, acts: seq<Action>, n: nat)
    requires IsRun(ss, acts) && Initial(ss[0]) && n < |ss| && forall i | 0 <= i < n :: !FailsInstall(ss[i], acts[i])
    ensures ss[n].leaks == map[]
  {
    if n > 0 {
      NoLeaks(ss, acts, n - 1);
      var j := n - 1;
      assert Enabled(ss[j], acts[j]) && Step(ss[j], acts[j]) == Ok(ss[j + 1]);
      StepLeaks(ss[j], acts[j]);
    }
  }

  /** After a failure the frame stays locked by the thread and the page stays its page, for good. */
  lemma {:induction false} LeakStays(ss: seq<State>, acts: seq<Action>, i: nat, j: nat)
    requires IsRun(ss, acts) && Initial(ss[0]) && i < j < |ss| && FailsInstall(ss[i], acts[i])
    ensures var t, p, f := acts[i].t, ss[i].pcs[acts[i].t].p, ss[i].pcs[acts[i].t].f;
      && t in ss[j].pcs && t in ss[j].leaks && ss[j].leaks[t] == Leak(p, f)
      && Held(ss[j], t, f) && p in ss[j].pages && ss[j].pages[p].frame == Some(f)
  {
    var k, t := j - 1, acts[i].t;
    assert Enabled(ss[k], acts[k]) && Step(ss[k], acts[k]) == Ok(ss[k + 1]);
    StepLeaks(ss[k], acts[k]);
    if i < k {
      LeakStays(ss, acts, i, k);
      RunKeepsInv(ss, acts, k);
      assert ThreadOk(ss[k], t);
    }
    RunKeepsInv(ss, acts, j);
    assert t in ss[j].leaks && ThreadOk(ss[j], t);
  }

  /** And once the thread begins to free that page no run gets past its asking for the lock, which is possible at
      once and fails the assertion of lock_acquire. */
  lemma {:induction false} FailureIsFatal(ss: seq<State>, acts: seq<Action>, i: nat, j: nat, n: nat, choice: bool)
    requires IsRun(ss, acts) && Initial(ss[0]) && i < j < n < |ss| && FailsInstall(ss[i], acts[i])
    requires acts[j].Enter? && acts[j].t == acts[i].t && acts[j].p == ss[i].pcs[acts[i].t].p
    ensures var t, p, f, k := acts[i].t, ss[i].pcs[acts[i].t].p, ss[i].pcs[acts[i].t].f, acts[j].k;
      && t in ss[n].pcs && (ss[n].pcs[t] == LockRead(p, k) || ss[n].pcs[t] == LockWait(p, k, f))
      && (ss[n].pcs[t].LockWait? ==> Enabled(ss[n], Move(t, choice)) && Step(ss[n], Move(t, choice)).Panic?)
  {
    var m, t := n - 1, acts[i].t;
    assert Enabled(ss[m], acts[m]) && Step(ss[m], acts[m]) == Ok(ss[m + 1]);
    LeakStays(ss, acts, i, m);
    LeakStays(ss, acts, i, n);
    if j < m {
      FailureIsFatal(ss, acts, i, j, m, if acts[m].Move? then acts[m].choice else false);
      if acts[m].t != t { OthersStay(ss[m], acts[m], t); }
    }
  }

  ghost function Solo(f: Frame, pages: map<Pid, Page>, scanLock: Option<Tid>, pc: Pc, leaks: map<Tid, Leak>): State {
    State([f], pages, scanLock, 0, map[0 := pc], leaks, map[0 := 1])
  }

  ghost predicate Same(s: State, s': State) {
    && |s.frames| == |s'.frames| == 1 && s.frames[0] == s'.frames[0] && s.scanLock == s'.scanLock && s.hand == s'.hand
    && s.pages == s'.pages && s.pcs == s'.pcs && s.leaks == s'.leaks && s.tries == s'.tries
  }

  lemma {:induction false} Then(ss: seq<State>, acts: seq<Action>, a: Action, s: State)
    returns (ss': seq<State>, acts': seq<Action>)
    requires IsRun(ss, acts) && Enabled(ss[|acts|], a) && Step(ss[|acts|], a).Ok? && Same(Step(ss[|acts|], a).s, s)
    ensures ss' == ss + [s] && acts' == acts + [a] && IsRun(ss', acts') && ss'[|acts'|] == s && ss'[0] == ss[0]
  {
    assert Step(ss[|acts|], a).s.frames == s.frames;
    ss', acts' := ss + [s], acts + [a];
    forall i | 0 <= i < |acts'| ensures Enabled(ss'[i], acts'[i]) && Step(ss'[i], acts'[i]) == Ok(ss'[i + 1]) {
      if i < |acts| { SameStep(ss, acts, i); }
    }
  }

  lemma {:induction false} SameStep(ss: seq<State>, acts: seq<Action>, i: nat)
    requires IsRun(ss, acts) && i < |acts|
    ensures Enabled(ss[i], acts[i]) && Step(ss[i], acts[i]) == Ok(ss[i + 1])
  {
  }

  /** One page of the one thread, with the thread's place, before and after it has the frame */
  ghost function SoloRun(n: nat): State {
    if n == 0 then Solo(Frame(None, None), map[], None, Idle, map[])
    else if n == 1 then Solo(Frame(None, None), map[0 := Page(0, None)], None, Idle, map[])
    else if n == 2 then Solo(Frame(None, None), map[0 := Page(0, None)], None, LockRead(0, PageLock), map[])
    else if n == 3 then Solo(Frame(None, None), map[0 := Page(0, None)], None, HaveNot(0, PageLock), map[])
    else if n == 4 then Solo(Frame(None, None), map[0 := Page(0, None)], None, WantScan(0, PageLock), map[])
    else if n == 5 then Solo(Frame(None, None), map[0 := Page(0, None)], Some(0), ScanFree(0, PageLock, 0), map[])
    else if n == 6 then Solo(Frame(Some(0), None), map[0 := Page(0, None)], Some(0), ScanHeld(0, PageLock, 0), map[])
    else if n == 7 then Solo(Frame(Some(0), Some(0)), map[0 := Page(0, None)], None, Got(0, PageLock, 0), map[])
    else if n == 8 then Solo(Frame(Some(0), Some(0)), map[0 := Page(0, Some(0))], None, Installing(0, 0), map[])
    else if n == 9 then Solo(Frame(Some(0), Some(0)), map[0 := Page(0, Some(0))], None, Idle, map[0 := Leak(0, 0)])
    else if n == 10 then Solo(Frame(Some(0), Some(0)), map[0 := Page(0, Some(0))], None, LockRead(0, Destroy),
      map[0 := Leak(0, 0)])
    else Solo(Frame(Some(0), Some(0)), map[0 := Page(0, Some(0))], None, LockWait(0, Destroy, 0), map[0 := Leak(0, 0)])
  }

  ghost function SoloAction(n: nat): Action {
    if n == 0 then NewPage(0, 0) else if n == 1 then Enter(0, 0, PageLock) else if n == 9 then Enter(0, 0, Destroy)
    else Move(0, false)
  }

  ghost predicate SoloStep(n: nat) {
    && Enabled(SoloRun(n), SoloAction(n)) && Step(SoloRun(n), SoloAction(n)).Ok?
    && Same(Step(SoloRun(n), SoloAction(n)).s, SoloRun(n + 1))
  }

  lemma {:induction false} SoloEnters(n: nat)
    requires n < 3
    ensures SoloStep(n)
  {
  }

  lemma {:induction false} SoloScans(n: nat)
    requires 3 <= n < 5
    ensures SoloStep(n)
  {
  }

  lemma {:induction false} SoloFindsFrame()
    ensures SoloStep(5)
  {
  }

  lemma {:induction false} SoloGetsFrame(n: nat)
    requires 6 <= n < 8
    ensures SoloStep(n)
  {
  }

  lemma {:induction false} SoloLeaksFrame()
    ensures SoloStep(8)
  {
  }

  lemma {:induction false} SoloExits(n: nat)
    requires 9 <= n < 11
    ensures SoloStep(n)
  {
  }

  /** It happens: with one frame and one thread, whose page is brought in by page_lock and then freed. */
  lemma {:induction false} LeakPanics() returns (ss: seq<State>, acts: seq<Action>)
    ensures IsRun(ss, acts) && Initial(ss[0]) && |acts| == 11
    ensures Enabled(ss[11], Move(0, false)) && Step(ss[11], Move(0, false)).Panic?
  {
    ss, acts := SoloReaches(11);
  }

  lemma {:induction false} SoloReaches(n: nat) returns (ss: seq<State>, acts: seq<Action>)
    requires n <= 11
    ensures IsRun(ss, acts) && |acts| == n && ss[0] == SoloRun(0) && ss[n] == SoloRun(n)
  {
    if n == 0 {
      ss, acts := [SoloRun(0)], [];
    } else {
      ss, acts := SoloReaches(n - 1);
      if n <= 3 { SoloEnters(n - 1); }
      else if n <= 5 { SoloScans(n - 1); }
      else if n == 6 { SoloFindsFrame(); }
      else if n <= 8 { SoloGetsFrame(n - 1); }
      else if n == 9 { SoloLeaksFrame(); }
      else { SoloExits(n - 1); }
      ss, acts := Then(ss, acts, SoloAction(n - 1), SoloRun(n));
    }
  }

  lemma {:induction false} OthersStay(s: State, a: Action, u: Tid)
    requires Enabled(s, a) && Step(s, a).Ok? && u in s.pcs && a.t != u
    ensures u in Step(s, a).s.pcs && Step(s, a).s.pcs[u] == s.pcs[u]
  {
    if a.Move? {
      var pc := s.pcs[a.t];
      if InLock(pc) { OthersStayLock(s, a.t, u); }
      else if InUse(pc) { OthersStayUse(s, a.t, a.choice, u); }
      else if InScan(pc) { OthersStayScan(s, a.t, u); }
      else if InSweep(pc) { OthersStaySweep(s, a.t, a.choice, u); }
      else { OthersStayEvict(s, a.t, a.choice, u); }
    }
  }

  /** The step of t leaves other threads where they are, and leaks nothing but in the one case. */
  ghost predicate StaysPut(s: State, o: Outcome, t: Tid, u: Tid, leaking: bool) {
    o.Ok? ==>
      && (u in s.pcs && u != t ==> u in o.s.pcs && o.s.pcs[u] == s.pcs[u])
      && (!leaking ==> o.s.leaks == s.leaks)
  }

  lemma {:induction false} OthersStayLock(s: State, t: Tid, u: Tid)
    requires t in s.pcs && InLock(s.pcs[t])
    ensures StaysPut(s, LockStep(s, t), t, u, false)
  {
  }

  lemma {:induction false} OthersStayUse(s: State, t: Tid, choice: bool, u: Tid)
    requires t in s.pcs && InUse(s.pcs[t])
    ensures StaysPut(s, UseStep(s, t, choice), t, u, s.pcs[t].Installing? && !choice)
  {
  }

  lemma {:induction false} OthersStayScan(s: State, t: Tid, u: Tid)
    requires t in s.pcs && InScan(s.pcs[t])
    ensures StaysPut(s, ScanStep(s, t), t, u, false)
  {
  }

  lemma {:induction false} OthersStaySweep(s: State, t: Tid, choice: bool, u: Tid)
    requires t in s.pcs && InSweep(s.pcs[t])
    ensures StaysPut(s, SweepStep(s, t, choice), t, u, false)
  {
  }

  lemma {:induction false} OthersStayEvict(s: State, t: Tid, choice: bool, u: Tid)
    requires t in s.pcs && InEvict(s.pcs[t])
    ensures StaysPut(s, EvictStep(s, t, choice), t, u, false)
  {
  }

  // ----- attempts to allocate a frame

  /** In try_frame_alloc_and_lock, without a frame yet */
  predicate Trying(pc: Pc) { InScan(pc) || InSweep(pc) || pc.Evicting? || pc.PagingOut? || pc.EvictFailed? }

  /** The attempt of thread t has failed: the clock has been round twice, or page_out has failed. */
  predicate FailsTry(s: State, t: Tid)
    requires t in s.pcs
  {
    s.pcs[t].EvictFailed? || (s.pcs[t].Sweep? && s.pcs[t].i >= 2 * |s.frames|)
  }

  /** What a step of thread u does to t's attempts: a failed one is followed by another or by none, and nothing else
      begins one but the allocation. */
  ghost predicate TriesMove(s: State, o: Outcome, u: Tid, t: Tid) {
    o.Ok? && t in s.pcs && u in s.pcs ==>
      && t in o.s.pcs
      && if u != t then o.s.pcs[t] == s.pcs[t] && Tries(o.s, t) == Tries(s, t)
         else if s.pcs[t].HaveNot? && !AtExit(s.pcs[t].k) then o.s.pcs[t].WantScan? && Tries(o.s, t) == 1
         else if FailsTry(s, t) then
           if Tries(s, t) < 3 then o.s.pcs[t].WantScan? && Tries(o.s, t) == Tries(s, t) + 1 else o.s.pcs[t].Idle?
         else
           !o.s.pcs[t].WantScan? && Tries(o.s, t) == Tries(s, t) && (Trying(s.pcs[t]) ==> !o.s.pcs[t].Idle?)
  }

  lemma {:induction false} TriesLock(s: State, u: Tid, t: Tid)
    requires u in s.pcs && InLock(s.pcs[u])
    ensures TriesMove(s, LockStep(s, u), u, t)
  {
  }

  lemma {:induction false} TriesHave(s: State, u: Tid, choice: bool, t: Tid)
    requires u in s.pcs && s.pcs[u].Have?
    ensures TriesMove(s, UseStep(s, u, choice), u, t)
  {
  }

  lemma {:induction false} TriesUse(s: State, u: Tid, choice: bool, t: Tid)
    requires u in s.pcs && InUse(s.pcs[u]) && !s.pcs[u].Have?
    ensures TriesMove(s, UseStep(s, u, choice), u, t)
  {
  }

  lemma {:induction false} TriesScan(s: State, u: Tid, t: Tid)
    requires u in s.pcs && InScan(s.pcs[u])
    ensures TriesMove(s, ScanStep(s, u), u, t)
  {
  }

  lemma {:induction false} TriesSweep(s: State, u: Tid, choice: bool, t: Tid)
    requires u in s.pcs && InSweep(s.pcs[u])
    ensures TriesMove(s, SweepStep(s, u, choice), u, t)
  {
  }

  lemma {:induction false} TriesEvict(s: State, u: Tid, choice: bool, t: Tid)
    requires u in s.pcs && InEvict(s.pcs[u])
    ensures TriesMove(s, EvictStep(s, u, choice), u, t)
  {
  }

  lemma {:induction false} StepTries(s: State, a: Action, t: Tid)
    requires Enabled(s, a) && a.Move?
    ensures TriesMove(s, Step(s, a), a.t, t)
  {
    var pc := s.pcs[a.t];
    if InLock(pc) { TriesLock(s, a.t, t); }
    else if pc.Have? { TriesHave(s, a.t, a.choice, t); }
    else if InUse(pc) { TriesUse(s, a.t, a.choice, t); }
    else if InScan(pc) { TriesScan(s, a.t, t); }
    else if InSweep(pc) { TriesSweep(s, a.t, a.choice, t); }
    else { TriesEvict(s, a.t, a.choice, t); }
  }

  ghost predicate TriesRun(ss: seq<State>, acts: seq<Action>, t: Tid) {
    |ss| == |acts| + 1 && forall i :: 0 <= i < |acts| ==> TriesNext(ss[i], acts[i], ss[i + 1], t)
  }

  ghost predicate TriesNext(s: State, a: Action, s': State, t: Tid) {
    if a.Move? then a.t in s.pcs && TriesMove(s, Ok(s'), a.t, t)
    else t in s.pcs ==> t in s'.pcs && Tries(s', t) == Tries(s, t) && (!s.pcs[t].Idle? ==> s'.pcs[t] == s.pcs[t])
  }

  lemma {:induction false} RunIsTriesRun(ss: seq<State>, acts: seq<Action>, t: Tid)
    requires IsRun(ss, acts)
    ensures TriesRun(ss, acts, t)
  {
    forall i | 0 <= i < |acts| ensures TriesNext(ss[i], acts[i], ss[i + 1], t) {
      assert Enabled(ss[i], acts[i]) && Step(ss[i], acts[i]) == Ok(ss[i + 1]);
      if acts[i].Move? { StepTries(ss[i], acts[i], t); }
    }
  }

  /** Step j of the run is one of thread t, which is at WantScan: it begins an attempt. */
  predicate Begins(s: State, a: Action, t: Tid) { a.Move? && a.t == t && t in s.pcs && s.pcs[t].WantScan? }

  function Attempts(ss: seq<State>, acts: seq<Action>, t: Tid, i: nat, n: nat): nat
    requires i <= n <= |acts| < |ss|
  {
    if i == n then 0 else Attempts(ss, acts, t, i, n - 1) + if Begins(ss[n - 1], acts[n - 1], t) then 1 else 0
  }

  /** Step i begins an allocation by t, which goes on up to state n. */
  ghost predicate Allocates(ss: seq<State>, acts: seq<Action>, t: Tid, i: nat, n: nat) {
    && i < n < |ss| && |ss| == |acts| + 1 && acts[i].Move? && acts[i].t == t
    && t in ss[i].pcs && ss[i].pcs[t].HaveNot? && !AtExit(ss[i].pcs[t].k)
    && forall j: nat | i < j <= n :: t in ss[j].pcs && Trying(ss[j].pcs[t])
  }

  lemma {:induction false} TriesCount(ss: seq<State>, acts: seq<Action>, t: Tid, i: nat, n: nat)
    requires TriesRun(ss, acts, t) && Allocates(ss, acts, t, i, n)
    ensures Tries(ss[n], t) == Attempts(ss, acts, t, i, n) + (if ss[n].pcs[t].WantScan? then 1 else 0)
  {
    var m := n - 1;
    assert TriesNext(ss[m], acts[m], ss[m + 1], t);
    assert t in ss[n].pcs && Trying(ss[n].pcs[t]);
    if i < m {
      assert t in ss[m].pcs && Trying(ss[m].pcs[t]);
      TriesCount(ss, acts, t, i, m);
    } else {
      assert Attempts(ss, acts, t, i, i) == 0;
    }
  }

  /** In every run frame_alloc_and_lock gives up exactly if three attempts have failed; after the first and the second
      it makes another. */
  lemma {:induction false} TriesThrice(ss: seq<State>, acts: seq<Action>, t: Tid, i: nat, n: nat)
    requires IsRun(ss, acts) && Allocates(ss, acts, t, i, n) && n < |acts| && acts[n].Move? && acts[n].t == t
    ensures t in ss[n + 1].pcs
    ensures ss[n + 1].pcs[t].Idle? <==> FailsTry(ss[n], t) && Attempts(ss, acts, t, i, n) >= 3
    ensures ss[n + 1].pcs[t].WantScan? <==> FailsTry(ss[n], t) && Attempts(ss, acts, t, i, n) < 3
  {
    RunIsTriesRun(ss, acts, t);
    TriesCount(ss, acts, t, i, n);
    assert TriesNext(ss[n], acts[n], ss[n + 1], t);
  }

  /** page_deallocate writes the page of a shared file out, its frame still locked and recorded, before it frees the
      frame; if that fails the frame is freed all the same. */
  lemma {:induction false} WritesOutFirst(s: State, t: Tid, ok: bool)
    requires Inv(s) && t in s.pcs && s.pcs[t].Have? && s.pcs[t].k == Deallocate(true)
    ensures Step(s, Move(t, ok)).Ok?
    ensures var p, f, s' := s.pcs[t].p, s.pcs[t].f, Step(s, Move(t, ok)).s;
      if ok then s'.pcs[t] == Dropping(p, f) && p in s'.pages && s'.pages[p].frame.None? && s'.frames == s.frames
      else s'.pcs[t] == Freeing(f) && p !in s'.pages && Held(s', t, f) && s'.frames[f].page.None?
  {
    assert ThreadOk(s, t) && FrameOk(s, s.pcs[t].f);
  }

  ghost predicate BothWays(s: State, q: Pid, f: nat) {
    Linked(s, q, f) && f < |s.frames| && s.frames[f].page == Some(q)
  }

  lemma {:induction false} LockedHere(s: State, u: Tid)
    requires Inv(s) && u in s.pcs && (s.pcs[u].Have? || s.pcs[u].Installing? || s.pcs[u].Pinned?)
    ensures BothWays(s, s.pcs[u].p, s.pcs[u].f)
  {
    assert ThreadOk(s, u);
    assert PageOk(s, s.pcs[u].p);
  }

  /** While its owner has a page's frame locked, the page keeps its frame: no other thread's step takes it away. */
  lemma {:induction false} LockedPageStays(s: State, a: Action, u: Tid)
    requires Inv(s) && Enabled(s, a) && u in s.pcs && a.t != u
      && (s.pcs[u].Have? || s.pcs[u].Installing? || s.pcs[u].Pinned?)
    ensures Step(s, a).Ok? ==> BothWays(Step(s, a).s, s.pcs[u].p, s.pcs[u].f)
  {
    StepKeepsInv(s, a);
    if Step(s, a).Ok? {
      OthersStay(s, a, u);
      LockedHere(Step(s, a).s, u);
    }
  }

  // ----- the search for a free frame, when no one interferes

  predicate IsFree(x: Frame) { x.lock.None? && x.page.None? }

  /** The steps of the search that thread t makes while no other thread moves */
  ghost function ScanAlone(s: State, t: Tid): State
    requires t in s.pcs && (s.pcs[t].ScanFree? || s.pcs[t].ScanHeld?)
    decreases |s.frames| - (if s.pcs[t].ScanFree? then s.pcs[t].i else s.pcs[t].f), if s.pcs[t].ScanFree? then 1 else 0
  {
    var pc := s.pcs[t];
    if pc.ScanHeld? && pc.f >= |s.frames| then s
    else
      var o := Step(s, Move(t, false));
      if o.Panic? then s
      else if o.s.pcs[t].ScanFree? || o.s.pcs[t].ScanHeld? then ScanAlone(o.s, t) else o.s
  }

  /** Frame f, the first free one from i on, has been taken for page p, and nothing else has changed. */
  ghost predicate TookFirst(s: State, t: Tid, p: Pid, k: For, i: nat, f: nat, e: State) {
    && i <= f < |s.frames| && IsFree(s.frames[f]) && (forall g: nat | i <= g < f :: !IsFree(s.frames[g]))
    && e == At(s.(frames := s.frames[f := Frame(Some(t), Some(p))], scanLock := None), t, Got(p, k, f))
  }

  lemma {:induction false} ScanTakes(s: State, t: Tid)
    requires t in s.pcs && s.pcs[t].ScanFree? && s.pcs[t].i < |s.frames| && IsFree(s.frames[s.pcs[t].i])
    ensures TookFirst(s, t, s.pcs[t].p, s.pcs[t].k, s.pcs[t].i, s.pcs[t].i, ScanAlone(s, t))
  {
    var ScanFree(p, k, i) := s.pcs[t];
    var s1 := At(SetLock(s, i, Some(t)), t, ScanHeld(p, k, i));
    assert Step(s, Move(t, false)) == Ok(s1);
    var e := At(s.(frames := s.frames[i := Frame(Some(t), Some(p))], scanLock := None), t, Got(p, k, i));
    assert SetPage(s1, i, Some(p)).frames == e.frames;
    assert Step(s1, Move(t, false)) == Ok(e);
    assert ScanAlone(s, t) == ScanAlone(s1, t) == e;
  }

  ghost function ScannedPast(s: State, t: Tid): State
    requires t in s.pcs && s.pcs[t].ScanFree?
  {
    At(s, t, ScanFree(s.pcs[t].p, s.pcs[t].k, s.pcs[t].i + 1))
  }

  lemma {:induction false} ScanPasses(s: State, t: Tid)
    requires t in s.pcs && s.pcs[t].ScanFree? && s.pcs[t].i < |s.frames| && !IsFree(s.frames[s.pcs[t].i])
      && !Held(s, t, s.pcs[t].i)
    ensures ScanAlone(s, t) == ScanAlone(ScannedPast(s, t), t)
  {
    var ScanFree(p, k, i) := s.pcs[t];
    if s.frames[i].lock.Some? {
      assert Step(s, Move(t, false)) == Ok(ScannedPast(s, t));
    } else {
      var s1 := At(SetLock(s, i, Some(t)), t, ScanHeld(p, k, i));
      assert Step(s, Move(t, false)) == Ok(s1);
      assert SetLock(s1, i, None).frames == s.frames;
      assert Step(s1, Move(t, false)) == Ok(ScannedPast(s, t));
      assert ScanAlone(s, t) == ScanAlone(s1, t);
    }
  }

  /** What a search from frame i on comes to: the first free frame f is taken, or there is none. */
  ghost predicate ScanEnds(s: State, t: Tid, p: Pid, k: For, i: nat, f: nat, e: State) {
    if f < |s.frames| then TookFirst(s, t, p, k, i, f, e)
    else (forall g: nat | i <= g < |s.frames| :: !IsFree(s.frames[g])) && e == At(s, t, Sweep(p, k, 0))
  }

  lemma {:induction false} ScanEndsBefore(s: State, t: Tid, f: nat, e: State)
    requires t in s.pcs && s.pcs[t].ScanFree? && s.pcs[t].i < |s.frames| && !IsFree(s.frames[s.pcs[t].i])
    requires ScanEnds(ScannedPast(s, t), t, s.pcs[t].p, s.pcs[t].k, s.pcs[t].i + 1, f, e)
    ensures ScanEnds(s, t, s.pcs[t].p, s.pcs[t].k, s.pcs[t].i, f, e)
  {
    assert e.pcs == s.pcs[t := e.pcs[t]];
  }

  lemma {:induction false} ScanIsOver(s: State, t: Tid)
    requires t in s.pcs && s.pcs[t].ScanFree? && s.pcs[t].i >= |s.frames|
    ensures ScanAlone(s, t) == At(s, t, Sweep(s.pcs[t].p, s.pcs[t].k, 0))
  {
    assert Step(s, Move(t, false)) == Ok(At(s, t, Sweep(s.pcs[t].p, s.pcs[t].k, 0)));
  }

  /** A search that no one disturbs takes the first frame, from where it is, that is neither locked nor in use; if
      there is none it goes on to the clock. */
  lemma {:induction false} ScanFindsFree(s: State, t: Tid) returns (f: nat)
    requires Inv(s) && t in s.pcs && s.pcs[t].ScanFree? && s.pcs[t].i <= |s.frames|
    ensures ScanEnds(s, t, s.pcs[t].p, s.pcs[t].k, s.pcs[t].i, f, ScanAlone(s, t))
    decreases |s.frames| - s.pcs[t].i
  {
    f := s.pcs[t].i;
    if f == |s.frames| {
      ScanIsOver(s, t);
    } else if IsFree(s.frames[f]) {
      ScanTakes(s, t);
    } else {
      ScanKeeps(s, t);
      ScanPasses(s, t);
      f := ScanFindsFree(ScannedPast(s, t), t);
      ScanEndsBefore(s, t, f, ScanAlone(s, t));
    }
  }

  lemma {:induction false} ScanKeeps(s: State, t: Tid)
    requires Inv(s) && t in s.pcs && s.pcs[t].ScanFree? && s.pcs[t].i < |s.frames|
    ensures Inv(ScannedPast(s, t)) && !Held(s, t, s.pcs[t].i)
  {
    assert ThreadOk(s, t) && FrameOk(s, s.pcs[t].i) && PageOk(s, s.pcs[t].p);
    ScanPastLocal(s, t);
    LocalSteps(s, ScannedPast(s, t), t, NoFrame(s), s.pcs[t].p);
  }

  lemma {:induction false} ScanPastLocal(s: State, t: Tid)
    requires t in s.pcs && s.pcs[t].ScanFree? && OkFor(s, t, NoFrame(s), s.pcs[t].p)
    ensures Local(s, ScannedPast(s, t), t, NoFrame(s), s.pcs[t].p)
  {
  }

  // ----- the clock, when no one interferes

  function Next(hand: nat, n: nat): nat { if hand + 1 >= n then 0 else hand + 1 }

  datatype Sweeping = Sweeping(r: Option<nat>, hand: nat, n: nat, accessed: seq<bool>)

  /** The eviction loop with nobody else locking or accessing, from its n-th iteration on: locked and hasPage are the
      frames' state, accessed the pages' accessed bits. r is the frame taken, or whose page is about to be evicted. */
  function Clock(locked: seq<bool>, hasPage: seq<bool>, accessed: seq<bool>, hand: nat, n: nat): Sweeping
    requires |locked| == |hasPage| == |accessed| && (hand < |locked| || |locked| == 0)
    decreases 2 * |locked| - n
  {
    if n >= 2 * |locked| then Sweeping(None, hand, n, accessed)
    else if locked[hand] then Clock(locked, hasPage, accessed, Next(hand, |locked|), n + 1)
    else if !hasPage[hand] || !accessed[hand] then Sweeping(Some(hand), Next(hand, |locked|), n + 1, accessed)
    else Clock(locked, hasPage, accessed[hand := false], Next(hand, |locked|), n + 1)
  }

  method ClockSweep(locked: seq<bool>, hasPage: seq<bool>, accessed: array<bool>, hand: nat)
    returns (r: Option<nat>, hand': nat, n: nat)
    requires |locked| == |hasPage| == accessed.Length && (hand < |locked| || |locked| == 0)
    modifies accessed
    ensures Sweeping(r, hand', n, accessed[..]) == Clock(locked, hasPage, old(accessed[..]), hand, 0)
  {
    hand', n := hand, 0;
    while n < 2 * |locked|
      invariant hand' < |locked| || |locked| == 0
      invariant Clock(locked, hasPage, accessed[..], hand', n) == Clock(locked, hasPage, old(accessed[..]), hand, 0)
    {
      var f := hand';
      hand' := hand' + 1;
      if hand' >= |locked| { hand' := 0; }
      if !locked[f] {
        if !hasPage[f] { return Some(f), hand', n + 1; }
        if !accessed[f] { return Some(f), hand', n + 1; }
        ghost var before := accessed[..];
        accessed[f] := false;
        assert accessed[..] == before[f := false];
      }
      n := n + 1;
    }
    r := None;
  }

  /** Within twice the number of frames the clock comes to one that is free to take or to evict, exactly if there is
      one that is not locked. */
  lemma {:induction false} ClockFinds(locked: seq<bool>, hasPage: seq<bool>, accessed: seq<bool>, hand: nat)
    requires |locked| == |hasPage| == |accessed| && (hand < |locked| || |locked| == 0)
    ensures var c := Clock(locked, hasPage, accessed, hand, 0);
      && c.n <= 2 * |locked| && (c.hand < |locked| || |locked| == 0) && |c.accessed| == |locked|
      && (c.r.Some? ==> c.r.value < |locked| && !locked[c.r.value] && (!hasPage[c.r.value] || !c.accessed[c.r.value]))
      && (c.r.Some? <==> exists f :: 0 <= f < |locked| && !locked[f])
  {
    if |locked| > 0 { ClockGoesRound(locked, hasPage, accessed, hand, hand, 0); }
  }

  /** After n iterations from position start: the frames passed in the first round are locked or have lost their
      accessed bit, and those passed in the second are locked. */
  ghost predicate Underway(locked: seq<bool>, hasPage: seq<bool>, accessed: seq<bool>, start: nat, hand: nat, n: nat) {
    && |locked| == |hasPage| == |accessed| && start < |locked| && hand < |locked| && n <= 2 * |locked|
    && (Turn(start, hand, |locked|) == if n < |locked| then n else if n < 2 * |locked| then n - |locked| else 0)
    && (forall f: nat | f < |locked| && Turn(start, f, |locked|) < n :: Passed(locked, hasPage, accessed, f))
    && (forall f: nat | f < |locked| && Turn(start, f, |locked|) + |locked| < n :: locked[f])
  }

  lemma {:induction false} ClockGoesRound(locked: seq<bool>, hasPage: seq<bool>, accessed: seq<bool>, start: nat,
        hand: nat, n: nat)
    requires Underway(locked, hasPage, accessed, start, hand, n)
    ensures var c := Clock(locked, hasPage, accessed, hand, n);
      && c.n <= 2 * |locked| && c.hand < |locked| && |c.accessed| == |locked|
      && (c.r.Some? ==> c.r.value < |locked| && !locked[c.r.value] && (!hasPage[c.r.value] || !c.accessed[c.r.value]))
      && (c.r.None? ==> forall f :: 0 <= f < |locked| ==> locked[f])
    decreases 2 * |locked| - n
  {
    if n >= 2 * |locked| {
      forall f | 0 <= f < |locked| ensures locked[f] { assert Turn(start, f, |locked|) + |locked| < n; }
    } else {
      assert n >= |locked| ==> Passed(locked, hasPage, accessed, hand);
      var next := if locked[hand] then accessed else accessed[hand := false];
      if locked[hand] || (hasPage[hand] && accessed[hand]) {
        ClockMoves(locked, hasPage, accessed, start, hand, n);
        ClockGoesRound(locked, hasPage, next, start, Next(hand, |locked|), n + 1);
      }
    }
  }

  lemma {:induction false} ClockMoves(locked: seq<bool>, hasPage: seq<bool>, accessed: seq<bool>, start: nat, hand: nat,
        n: nat)
    requires Underway(locked, hasPage, accessed, start, hand, n) && n < 2 * |locked|
    requires locked[hand] || (hasPage[hand] && accessed[hand])
    ensures Underway(locked, hasPage, if locked[hand] then accessed else accessed[hand := false], start,
      Next(hand, |locked|), n + 1)
  {
    assert n >= |locked| ==> Passed(locked, hasPage, accessed, hand);
  }

  /** The step, from the beginning of a round, at which the hand comes to frame f */
  function Turn(hand: nat, f: nat, n: nat): nat
    requires hand < n && f < n
  {
    if hand <= f then f - hand else f + n - hand
  }

  ghost predicate Passed(locked: seq<bool>, hasPage: seq<bool>, accessed: seq<bool>, f: nat) {
    f < |locked| == |hasPage| == |accessed| && (locked[f] || (hasPage[f] && !accessed[f]))
  }

  function Locked(s: State): seq<bool> { seq(|s.frames|, f requires 0 <= f < |s.frames| => s.frames[f].lock.Some?) }

  function HasPage(s: State): seq<bool> { seq(|s.frames|, f requires 0 <= f < |s.frames| => s.frames[f].page.Some?) }

  datatype Swept = Swept(s: State, accessed: seq<bool>)

  /** The steps of the sweep that thread t makes while no other thread moves; whether a page was accessed is told by
      its bit, which is then cleared. */
  ghost function SweepAlone(s: State, t: Tid, accessed: seq<bool>): Swept
    requires t in s.pcs && InSweep(s.pcs[t]) && (s.pcs[t].Sweep? || s.pcs[t].i < 2 * |s.frames|)
      && |accessed| == |s.frames|
    decreases 2 * |s.frames| - s.pcs[t].i, if s.pcs[t].Sweep? then 2 else if s.pcs[t].SweepHeld? then 1 else 0
  {
    var pc := s.pcs[t];
    if pc.Sweep? && pc.i >= 2 * |s.frames| then Swept(s, accessed)
    else
      var seen := pc.SweepHeld? && pc.f < |s.frames| && s.frames[pc.f].page.Some? && accessed[pc.f];
      var o := Step(s, Move(t, seen));
      var accessed' := if seen then accessed[pc.f := false] else accessed;
      if o.Panic? then Swept(s, accessed) else if InSweep(o.s.pcs[t]) then SweepAlone(o.s, t, accessed')
        else Swept(o.s, accessed')
  }

  /** The state at the beginning of the next iteration */
  ghost function TurnOver(s: State, t: Tid): State
    requires t in s.pcs && s.pcs[t].Sweep?
  {
    At(s.(hand := Next(s.hand, |s.frames|)), t, Sweep(s.pcs[t].p, s.pcs[t].k, s.pcs[t].i + 1))
  }

  ghost predicate Sweeps(s: State, t: Tid, accessed: seq<bool>) {
    && t in s.pcs && s.pcs[t].Sweep? && s.pcs[t].i < 2 * |s.frames| && |accessed| == |s.frames| && s.hand < |s.frames|
    && !Held(s, t, s.hand)
  }

  lemma {:induction false} AloneSkips(s: State, t: Tid, accessed: seq<bool>)
    requires Sweeps(s, t, accessed) && s.frames[s.hand].lock.Some?
    ensures SweepAlone(s, t, accessed) == SweepAlone(TurnOver(s, t), t, accessed)
  {
    assert Step(s, Move(t, false)) == Ok(TurnOver(s, t));
  }

  /** The state in which the frame under the hand is locked and looked at */
  ghost function Looking(s: State, t: Tid): State
    requires Sweeps(s, t, Locked(s))
  {
    At(SetLock(s.(hand := Next(s.hand, |s.frames|)), s.hand, Some(t)), t,
       SweepHeld(s.pcs[t].p, s.pcs[t].k, s.pcs[t].i, s.hand))
  }

  lemma {:induction false} AloneLooks(s: State, t: Tid, accessed: seq<bool>)
    requires Sweeps(s, t, accessed) && s.frames[s.hand].lock.None?
    ensures Step(s, Move(t, false)) == Ok(Looking(s, t))
    ensures SweepAlone(s, t, accessed) == SweepAlone(Looking(s, t), t, accessed)
  {
    assert Step(s, Move(t, false)) == Ok(Looking(s, t));
  }

  lemma {:induction false} AlonePasses(s: State, t: Tid, accessed: seq<bool>)
    requires Sweeps(s, t, accessed) && s.frames[s.hand].lock.None? && s.frames[s.hand].page.Some? && accessed[s.hand]
    requires FrameLocked(Looking(s, t), t, s.frames[s.hand].page.value)
    ensures SweepAlone(Looking(s, t), t, accessed) == SweepAlone(TurnOver(s, t), t, accessed[s.hand := false])
  {
    var l, f, accessed' := Looking(s, t), s.hand, accessed[s.hand := false];
    var r := At(l, t, SweepRelease(s.pcs[t].p, s.pcs[t].k, s.pcs[t].i, f));
    assert Step(l, Move(t, true)) == Ok(r);
    assert SweepAlone(l, t, accessed) == SweepAlone(r, t, accessed');
    assert SetLock(r, f, None).frames == s.frames;
    assert Step(r, Move(t, false)) == Ok(TurnOver(s, t));
  }

  lemma {:induction false} AloneFinds(s: State, t: Tid, accessed: seq<bool>)
    requires Sweeps(s, t, accessed) && s.frames[s.hand].lock.None?
      && (s.frames[s.hand].page.Some? ==> !accessed[s.hand])
    requires s.frames[s.hand].page.Some? ==> FrameLocked(Looking(s, t), t, s.frames[s.hand].page.value)
    ensures var p, k, f, e := s.pcs[t].p, s.pcs[t].k, s.hand, SweepAlone(Looking(s, t), t, accessed);
      && e.accessed == accessed && e.s.hand == Next(s.hand, |s.frames|)
        && FoundAt(e.s, t, p, k, f, s.frames[f].page.Some?)
  {
  }

  /** Frame f was found and locked, with a page to evict or without one; the scan is over. */
  ghost predicate FoundAt(s: State, t: Tid, p: Pid, k: For, f: nat, hasPage: bool) {
    Held(s, t, f) && s.scanLock.None? && t in s.pcs && s.pcs[t] == if hasPage then Evicting(p, k, f) else Got(p, k, f)
  }

  /** The page in a frame that is not locked has that frame. */
  lemma {:induction false} FrameUnderHand(s: State, t: Tid)
    requires Inv(s) && t in s.pcs && s.pcs[t].Sweep? && s.pcs[t].i < 2 * |s.frames|
    ensures Sweeps(s, t, Locked(s))
    ensures s.frames[s.hand].lock.None? && s.frames[s.hand].page.Some? ==>
      FrameLocked(Looking(s, t), t, s.frames[s.hand].page.value)
  {
    assert ThreadOk(s, t) && FrameOk(s, s.hand);
  }

  lemma {:induction false} NextTurn(s: State, t: Tid)
    requires Inv(s) && t in s.pcs && s.pcs[t].Sweep? && s.pcs[t].i < 2 * |s.frames|
    ensures Inv(TurnOver(s, t))
  {
    assert ThreadOk(s, t) && PageOk(s, s.pcs[t].p);
    assert Local(s, TurnOver(s, t), t, NoFrame(s), s.pcs[t].p);
    LocalSteps(s, TurnOver(s, t), t, NoFrame(s), s.pcs[t].p);
  }

  /** The frame under the hand will do. */
  predicate WillDo(s: State, accessed: seq<bool>)
    requires s.hand < |s.frames| == |accessed|
  {
    s.frames[s.hand].lock.None? && (s.frames[s.hand].page.None? || !accessed[s.hand])
  }

  lemma {:induction false} AloneStops(s: State, t: Tid, accessed: seq<bool>)
    requires Inv(s) && Sweeps(s, t, accessed) && WillDo(s, accessed)
    ensures var p, k, f, e := s.pcs[t].p, s.pcs[t].k, s.hand, SweepAlone(s, t, accessed);
      && e.accessed == accessed && e.s.hand == Next(s.hand, |s.frames|)
        && FoundAt(e.s, t, p, k, f, s.frames[f].page.Some?)
  {
    FrameUnderHand(s, t);
    AloneLooks(s, t, accessed);
    AloneFinds(s, t, accessed);
  }

  lemma {:induction false} AloneTurns(s: State, t: Tid, accessed: seq<bool>)
    requires Inv(s) && Sweeps(s, t, accessed) && !WillDo(s, accessed)
    ensures SweepAlone(s, t, accessed) == SweepAlone(TurnOver(s, t), t, Cleared(s, accessed))
  {
    if s.frames[s.hand].lock.Some? {
      AloneSkips(s, t, accessed);
    } else {
      FrameUnderHand(s, t);
      AloneLooks(s, t, accessed);
      AlonePasses(s, t, accessed);
    }
  }

  ghost function Cleared(s: State, accessed: seq<bool>): seq<bool>
    requires s.hand < |s.frames| == |accessed|
  {
    if s.frames[s.hand].lock.Some? then accessed else accessed[s.hand := false]
  }

  ghost function ClockOf(s: State, accessed: seq<bool>, i: nat): Sweeping
    requires |accessed| == |s.frames| && (s.hand < |s.frames| || |s.frames| == 0)
  {
    Clock(Locked(s), HasPage(s), accessed, s.hand, i)
  }

  lemma {:induction false} ClockTurns(s: State, t: Tid, accessed: seq<bool>)
    requires Sweeps(s, t, accessed)
    ensures ClockOf(s, accessed, s.pcs[t].i)
         == if WillDo(s, accessed) then Sweeping(Some(s.hand), Next(s.hand, |s.frames|), s.pcs[t].i + 1, accessed)
            else ClockOf(TurnOver(s, t), Cleared(s, accessed), s.pcs[t].i + 1)
  {
    assert Locked(TurnOver(s, t)) == Locked(s) && HasPage(TurnOver(s, t)) == HasPage(s);
  }

  /** The steps of thread t from state s, with the result e, went as the clock, with the result c. */
  ghost predicate WentAs(s: State, t: Tid, p: Pid, k: For, e: Swept, c: Sweeping) {
    && e.accessed == c.accessed && e.s.hand == c.hand
    && (c.r.None? ==> e.s == At(s.(hand := c.hand), t, Sweep(p, k, 2 * |s.frames|)))
    && (c.r.Some? ==> c.r.value < |s.frames| && FoundAt(e.s, t, p, k, c.r.value, s.frames[c.r.value].page.Some?))
  }

  lemma {:induction false} WentAsBefore(s: State, t: Tid, p: Pid, k: For, e: Swept, c: Sweeping)
    requires t in s.pcs && s.pcs[t].Sweep? && WentAs(TurnOver(s, t), t, p, k, e, c)
    ensures WentAs(s, t, p, k, e, c)
  {
    var s', last := TurnOver(s, t), Sweep(p, k, 2 * |s.frames|);
    assert At(s'.(hand := c.hand), t, last).pcs == At(s.(hand := c.hand), t, last).pcs;
  }

  /** A sweep that no one disturbs is the clock's: it ends with the frame that the clock finds, locked, and without
      the scan lock; or, having found none, where it began, with the hand moved on. */
  lemma {:induction false} SweepIsClock(s: State, t: Tid, accessed: seq<bool>) returns (e: Swept, c: Sweeping)
    requires Inv(s) && t in s.pcs && s.pcs[t].Sweep? && s.pcs[t].i <= 2 * |s.frames| && |accessed| == |s.frames|
    ensures e == SweepAlone(s, t, accessed) && c == ClockOf(s, accessed, s.pcs[t].i)
    ensures WentAs(s, t, s.pcs[t].p, s.pcs[t].k, e, c)
    decreases 2 * |s.frames| - s.pcs[t].i
  {
    if s.pcs[t].i == 2 * |s.frames| {
      e, c := SweepIsOver(s, t, accessed);
    } else {
      SweepsOn(s, t, accessed);
      if WillDo(s, accessed) {
        e, c := SweepStops(s, t, accessed);
      } else {
        SweepTurns(s, t, accessed);
        ClockGoesOn(s, t, accessed);
        e, c := SweepIsClock(TurnOver(s, t), t, Cleared(s, accessed));
        WentAsBefore(s, t, s.pcs[t].p, s.pcs[t].k, e, c);
      }
    }
  }

  lemma {:induction false} SweepsOn(s: State, t: Tid, accessed: seq<bool>)
    requires Inv(s) && t in s.pcs && s.pcs[t].Sweep? && s.pcs[t].i < 2 * |s.frames| && |accessed| == |s.frames|
    ensures Sweeps(s, t, accessed)
  {
    FrameUnderHand(s, t);
  }

  lemma {:induction false} SweepTurns(s: State, t: Tid, accessed: seq<bool>)
    requires Inv(s) && Sweeps(s, t, accessed) && !WillDo(s, accessed)
    ensures Inv(TurnOver(s, t))
    ensures SweepAlone(s, t, accessed) == SweepAlone(TurnOver(s, t), t, Cleared(s, accessed))
  {
    NextTurn(s, t);
    AloneTurns(s, t, accessed);
  }

  lemma {:induction false} ClockGoesOn(s: State, t: Tid, accessed: seq<bool>)
    requires Sweeps(s, t, accessed) && !WillDo(s, accessed)
    ensures var s' := TurnOver(s, t);
      ClockOf(s, accessed, s.pcs[t].i) == ClockOf(s', Cleared(s, accessed), s'.pcs[t].i)
  {
    ClockTurns(s, t, accessed);
  }

  lemma {:induction false} SweepIsOver(s: State, t: Tid, accessed: seq<bool>) returns (e: Swept, c: Sweeping)
    requires t in s.pcs && s.pcs[t].Sweep? && s.pcs[t].i == 2 * |s.frames| && |accessed| == |s.frames|
    requires s.hand < |s.frames| || |s.frames| == 0
    ensures e == SweepAlone(s, t, accessed) && c == ClockOf(s, accessed, s.pcs[t].i)
    ensures WentAs(s, t, s.pcs[t].p, s.pcs[t].k, e, c)
  {
    e, c := SweepAlone(s, t, accessed), ClockOf(s, accessed, s.pcs[t].i);
    assert At(s, t, s.pcs[t]).pcs == s.pcs;
  }

  lemma {:induction false} SweepStops(s: State, t: Tid, accessed: seq<bool>) returns (e: Swept, c: Sweeping)
    requires Inv(s) && Sweeps(s, t, accessed) && WillDo(s, accessed)
    ensures e == SweepAlone(s, t, accessed) && c == ClockOf(s, accessed, s.pcs[t].i)
    ensures WentAs(s, t, s.pcs[t].p, s.pcs[t].k, e, c)
  {
    e, c := SweepAlone(s, t, accessed), ClockOf(s, accessed, s.pcs[t].i);
    ClockTurns(s, t, accessed);
    AloneStops(s, t, accessed);
  }
}
