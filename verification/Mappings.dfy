/** Page table entries (pagedir_set_page and pagedir_clear_page as pintos/src/vm/page.c calls them) beside the frames:
    which live pages are mapped, and to which frame, in every interleaving of the steps of Frames. */
module Mappings {
  import opened Options
  import Frames

  type Tid = Frames.Tid
  type Pid = Frames.Pid

  /** The page's entry in its owner's page table. bare says that since the entry was last set a page_out of the page
      has failed, or setup_stack has given it a frame: neither leaves a mapping. */
  datatype Entry = Entry(pte: Option<nat>, bare: bool)

  /** exiting has the threads that could not install a mapping: page_fault and the callers of page_lock call
      thread_exit. */
  datatype State = State(fs: Frames.State, table: map<Pid, Entry>, exiting: set<Tid>)

  /** Access is the kernel's use of user memory between page_lock and page_unlock. */
  datatype Action = Do(a: Frames.Action) | Access(t: Tid)

  datatype Outcome = Ok(s: State) | Panic

  /** page_in is called for a fault on an entry that is not present. */
  predicate Enabled(s: State, a: Action) {
    match a
    case Access(t) => t in s.fs.pcs && s.fs.pcs[t].Pinned?
    case Do(b) =>
      && Frames.Enabled(s.fs, b)
      && (b.Enter? && b.k.PageIn? ==> b.p in s.table && s.table[b.p].pte.None?)
      && (b.t in s.exiting ==> b.Move? || (b.Enter? && Frames.AtExit(b.k)))
  }

  /** The step calls pagedir_set_page. */
  predicate Installs(s: Frames.State, a: Frames.Action)
    requires Frames.Enabled(s, a)
  {
    a.Move? && (s.pcs[a.t].Installing? || (s.pcs[a.t].Have? && s.pcs[a.t].k.PageIn?))
  }

  function EntryOf(s: State, q: Pid): Entry { if q in s.table then s.table[q] else Entry(None, false) }

  /** The entry of the page that a step concerns, after the step */
  function NewEntry(s: State, a: Frames.Action): Entry
    requires Frames.Enabled(s.fs, a)
  {
    var e := EntryOf(s, Frames.PageAt(s.fs, a));
    if !a.Move? then e
    else
      var pc := s.fs.pcs[a.t];
      if Installs(s.fs, a) then if a.choice then Entry(Some(pc.f), false) else e
      else if pc.Have? && pc.k.Setup? then e.(bare := true)
      else if pc.Evicting? || (pc.Have? && pc.k.Deallocate? && pc.k.out) then e.(pte := None)
      else if pc.PagingOut? && !a.choice then e.(bare := true)
      else e
  }

  function NewTable(s: State, a: Frames.Action, fs: Frames.State): map<Pid, Entry>
    requires Frames.Enabled(s.fs, a)
  {
    var q := Frames.PageAt(s.fs, a);
    if q in fs.pages then s.table[q := NewEntry(s, a)] else s.table - {q}
  }

  /** The assertion of pagedir_set_page is that the entry is not present, and a page fault in the kernel is a panic. */
  function Step(s: State, a: Action): Outcome
    requires Enabled(s, a)
  {
    match a
    case Access(t) => if EntryOf(s, s.fs.pcs[t].p).pte.Some? then Ok(s) else Panic
    case Do(b) =>
      var o := Frames.Step(s.fs, b);
      if o.Panic? || (Installs(s.fs, b) && EntryOf(s, s.fs.pcs[b.t].p).pte.Some?) then Panic
      else Ok(State(o.s, NewTable(s, b, o.s),
                    if Installs(s.fs, b) && !b.choice then s.exiting + {b.t} else s.exiting))
  }

  ghost predicate IsRun(ss: seq<State>, acts: seq<Action>) {
    && |ss| == |acts| + 1
    && forall i :: 0 <= i < |acts| ==> Enabled(ss[i], acts[i]) && Step(ss[i], acts[i]) == Ok(ss[i + 1])
  }

  predicate Initial(s: State) { Frames.Initial(s.fs) && s.table == map[] && s.exiting == {} }

  // ----- the invariant

  /** Thread t is between taking the mapping of page q away and saying what became of the page, or between giving q a
      frame and installing its mapping. */
  ghost predicate Changing(s: Frames.State, t: Tid, q: Pid) {
    && t in s.pcs
    && var pc := s.pcs[t];
    || (pc.PagingOut? && pc.f < |s.frames| && s.frames[pc.f].page == Some(q))
    || ((pc.Installing? || (pc.Have? && !pc.k.PageLock?)) && pc.p == q)
  }

  ghost predicate Busy(s: Frames.State, q: Pid, f: nat) {
    f < |s.frames| && s.frames[f].lock.Some? && Changing(s, s.frames[f].lock.value, q)
  }

  /** A mapped page is mapped to its frame, and a page with a frame is mapped, but for bare pages, pages of exiting
      threads, and pages that the thread that holds the frame's lock is changing. */
  ghost predicate EntryOk(s: State, q: Pid)
    requires q in s.fs.pages
  {
    && q in s.table
    && var e, p := s.table[q], s.fs.pages[q];
    && (e.pte.Some? ==> e.pte == p.frame && !e.bare)
    && (e.pte.None? && p.frame.Some? && !e.bare ==> p.owner in s.exiting || Busy(s.fs, q, p.frame.value))
  }

  /** The thread is on its way to setting the entry of its page, or to leaving it without a mapping. */
  predicate WillMap(pc: Frames.Pc) {
    || pc.Installing?
    || (!pc.Idle? && !pc.Dropping? && !pc.Freeing? && !pc.Pinned? && (pc.k.PageIn? || pc.k.Setup?))
  }

  ghost predicate ThreadOk(s: State, t: Tid)
    requires t in s.fs.pcs
  {
    var pc := s.fs.pcs[t];
    && (WillMap(pc) ==> pc.p in s.table && s.table[pc.p].pte.None?)
    && (pc.PagingOut? && pc.f < |s.fs.frames| && s.fs.frames[pc.f].page.Some? ==>
      EntryOf(s, s.fs.frames[pc.f].page.value).pte.None?)
    && (t in s.exiting ==> Frames.Ending(pc))
  }

  ghost predicate Inv(s: State) {
    && Frames.Inv(s.fs) && s.table.Keys == s.fs.pages.Keys
    && (forall q | q in s.fs.pages :: EntryOk(s, q))
    && (forall t | t in s.fs.pcs :: ThreadOk(s, t))
  }

  // ----- a step concerns the entry of one page

  ghost predicate SameEntry(s: State, s': State, q: Pid) {
    && q in s.fs.pages && q in s'.fs.pages && s'.fs.pages[q] == s.fs.pages[q]
    && q in s.table && q in s'.table && s'.table[q] == s.table[q] && s.exiting <= s'.exiting
  }

  lemma {:induction false} BusyStays(s: Frames.State, s': Frames.State, t: Tid, f: nat, q: Pid, x: Pid, g: nat)
    requires Frames.Touches(s, s', t, f, q) && Busy(s, x, g) && !Changing(s, t, x)
    requires Frames.ThreadOk(s, s.frames[g].lock.value)
    ensures Busy(s', x, g)
  {
  }

  /** The entry of a page that the moving thread is not changing stays right. */
  lemma {:induction false} EntryStays(s: State, s': State, t: Tid, f: nat, q: Pid, x: Pid)
    requires Frames.Inv(s.fs) && Frames.Touches(s.fs, s'.fs, t, f, q) && SameEntry(s, s', x) && EntryOk(s, x)
    requires !Changing(s.fs, t, x)
    ensures EntryOk(s', x)
  {
    var fr := s.fs.pages[x].frame;
    if fr.Some? && Busy(s.fs, x, fr.value) { BusyStays(s.fs, s'.fs, t, f, q, x, fr.value); }
  }

  /** What a step does to the table */
  ghost predicate TableTouched(s: State, s': State, t: Tid, q: Pid) {
    && (forall x | x != q && x in s.table :: x in s'.table && s'.table[x] == s.table[x])
    && (forall x | x != q && x in s'.table :: x in s.table)
    && s.exiting <= s'.exiting && s'.exiting <= s.exiting + {t}
    && (q in s.table && q in s'.table && s.table[q].pte.None? && s'.table[q].pte.Some? ==>
      q in s.fs.pages && s.fs.pages[q].owner == t && s.fs.pages[q].frame.Some?
      && Frames.Held(s.fs, t, s.fs.pages[q].frame.value))
    && (q in s.table <==> q in s.fs.pages) && (q in s'.table <==> q in s'.fs.pages)
  }

  lemma {:induction false} OtherThread(s: State, s': State, t: Tid, f: nat, q: Pid, u: Tid)
    requires Frames.Touches(s.fs, s'.fs, t, f, q) && TableTouched(s, s', t, q)
    requires u in s.fs.pcs && u != t && ThreadOk(s, u) && Frames.ThreadOk(s.fs, u) && Frames.ThreadOk(s'.fs, u)
    requires s.fs.pcs[u].PagingOut? ==> Frames.FrameOk(s.fs, s.fs.pcs[u].f)
    ensures ThreadOk(s', u)
  {
  }

  ghost predicate Local(s: State, s': State, t: Tid, f: nat, q: Pid) {
    && Frames.Local(s.fs, s'.fs, t, f, q) && TableTouched(s, s', t, q)
    && (forall x | x in s.fs.pages && Changing(s.fs, t, x) :: x == q)
    && (q in s'.fs.pages ==> EntryOk(s', q)) && ThreadOk(s', t)
  }

  lemma {:induction false} LocalSteps(s: State, s': State, t: Tid, f: nat, q: Pid)
    requires Inv(s) && Local(s, s', t, f, q)
    ensures Inv(s')
  {
    Frames.LocalSteps(s.fs, s'.fs, t, f, q);
    forall x | x in s'.fs.pages ensures EntryOk(s', x) {
      if x != q { assert EntryOk(s, x); EntryStays(s, s', t, f, q, x); }
    }
    forall u | u in s'.fs.pcs ensures ThreadOk(s', u) {
      if u != t {
        assert ThreadOk(s, u) && Frames.ThreadOk(s.fs, u) && Frames.ThreadOk(s'.fs, u);
        OtherThread(s, s', t, f, q, u);
      }
    }
  }

  /** The invariant, for the moving thread and the page that its step concerns */
  ghost predicate OkFor(s: State, a: Frames.Action)
    requires Frames.Enabled(s.fs, a)
  {
    var q := Frames.PageAt(s.fs, a);
    && Frames.GoesWell(s.fs, a) && Frames.ThreadOk(s.fs, a.t) && ThreadOk(s, a.t)
    && (q in s.table <==> q in s.fs.pages) && (q in s.fs.pages ==> EntryOk(s, q) && Frames.PageOk(s.fs, q))
  }

  /** The page that a step concerns is the one that its thread is changing, if any. */
  lemma {:induction false} ChangesOne(s: State, a: Frames.Action, x: Pid)
    requires Frames.Enabled(s.fs, a) && OkFor(s, a) && Changing(s.fs, a.t, x)
    ensures x == Frames.PageAt(s.fs, a)
  {
  }

  /** The assertion of pagedir_set_page holds, and the table changes in one place. */
  lemma {:induction false} Tables(s: State, a: Frames.Action)
    requires Enabled(s, Do(a)) && OkFor(s, a)
    ensures Step(s, Do(a)).Ok? && Step(s, Do(a)).s.fs == Frames.Step(s.fs, a).s
    ensures TableTouched(s, Step(s, Do(a)).s, a.t, Frames.PageAt(s.fs, a))
  {
  }

  /** The entry and the thread, after the step */
  ghost predicate OkAfter(s: State, a: Frames.Action)
    requires Enabled(s, Do(a))
  {
    && Step(s, Do(a)).Ok?
    && var s', q := Step(s, Do(a)).s, Frames.PageAt(s.fs, a);
    a.t in s'.fs.pcs && (q in s'.fs.pages ==> EntryOk(s', q)) && ThreadOk(s', a.t)
  }

  /** The step changes no page and no entry, and its thread is neither changing its page nor begins to. */
  ghost predicate Quiet(s: Frames.State, a: Frames.Action)
    requires Frames.Enabled(s, a)
  {
    && Frames.Step(s, a).Ok? && a.t in Frames.Step(s, a).s.pcs
    && var s', pc, pc' := Frames.Step(s, a).s, s.pcs[a.t], Frames.Step(s, a).s.pcs[a.t];
    && s'.pages == s.pages && !pc.PagingOut? && !pc.Installing? && !pc.Evicting? && (pc.Have? ==> pc.k.PageLock?)
    && (WillMap(pc') ==> !pc.Idle? && !pc.Freeing? && WillMap(pc) && pc'.p == pc.p) && !pc'.PagingOut?
    && (Frames.Ending(pc) ==> Frames.Ending(pc'))
  }

  lemma {:induction false} AfterQuiet(s: State, a: Frames.Action)
    requires Frames.Inv(s.fs) && Enabled(s, Do(a)) && OkFor(s, a) && a.Move? && Quiet(s.fs, a)
    ensures OkAfter(s, a)
  {
    Tables(s, a);
    var s', f, q := Step(s, Do(a)).s, Frames.FrameAt(s.fs, a), Frames.PageAt(s.fs, a);
    if q in s.fs.pages { EntryStays(s, s', a.t, f, q, q); }
  }

  lemma {:induction false} LockQuiet(s: Frames.State, a: Frames.Action)
    requires Frames.Enabled(s, a) && a.Move? && Frames.InLock(s.pcs[a.t]) && Frames.Step(s, a).Ok?
    ensures Quiet(s, a)
  {
  }

  lemma {:induction false} ScanQuiet(s: Frames.State, a: Frames.Action)
    requires Frames.Enabled(s, a) && a.Move? && Frames.InScan(s.pcs[a.t]) && Frames.Step(s, a).Ok?
    ensures Quiet(s, a)
  {
  }

  lemma {:induction false} SweepQuiet(s: Frames.State, a: Frames.Action)
    requires Frames.Enabled(s, a) && a.Move? && Frames.InSweep(s.pcs[a.t]) && Frames.Step(s, a).Ok?
    ensures Quiet(s, a)
  {
  }

  lemma {:induction false} EvictedQuiet(s: Frames.State, a: Frames.Action)
    requires Frames.Enabled(s, a) && a.Move? && (s.pcs[a.t].EvictFailed? || s.pcs[a.t].Evicted?)
      && Frames.Step(s, a).Ok?
    ensures Quiet(s, a)
  {
  }

  lemma {:induction false} UseQuiet(s: Frames.State, a: Frames.Action)
    requires Frames.Enabled(s, a) && a.Move? && Frames.InUse(s.pcs[a.t]) && Frames.Step(s, a).Ok?
    requires Frames.Step(s, a).s.pages == s.pages && !s.pcs[a.t].Installing?
      && (s.pcs[a.t].Have? ==> s.pcs[a.t].k.PageLock?)
    ensures Quiet(s, a)
  {
  }

  lemma {:induction false} AfterHave(s: State, a: Frames.Action)
    requires Enabled(s, Do(a)) && OkFor(s, a) && a.Move? && s.fs.pcs[a.t].Have? && !s.fs.pcs[a.t].k.PageLock?
    ensures OkAfter(s, a)
  {
    Tables(s, a);
  }

  lemma {:induction false} AfterInstall(s: State, a: Frames.Action)
    requires Enabled(s, Do(a)) && OkFor(s, a) && a.Move? && s.fs.pcs[a.t].Installing?
    ensures OkAfter(s, a)
  {
    Tables(s, a);
  }

  /** Freeing a page: its entry is gone. */
  lemma {:induction false} AfterFree(s: State, a: Frames.Action)
    requires Enabled(s, Do(a)) && OkFor(s, a) && a.Move? && (s.fs.pcs[a.t].HaveNot? || s.fs.pcs[a.t].Dropping?)
      && Frames.Step(s.fs, a).s.pages != s.fs.pages
    ensures OkAfter(s, a)
  {
    Tables(s, a);
  }

  lemma {:induction false} AfterUse(s: State, a: Frames.Action)
    requires Frames.Inv(s.fs) && Enabled(s, Do(a)) && OkFor(s, a) && a.Move? && Frames.InUse(s.fs.pcs[a.t])
    ensures OkAfter(s, a)
  {
    var pc := s.fs.pcs[a.t];
    if pc.Have? && !pc.k.PageLock? { AfterHave(s, a); }
    else if pc.Installing? { AfterInstall(s, a); }
    else if Frames.Step(s.fs, a).s.pages == s.fs.pages { UseQuiet(s.fs, a); AfterQuiet(s, a); }
    else { AfterFree(s, a); }
  }

  /** page_out clears the mapping, and then lets the page go or leaves it bare. */
  lemma {:induction false} AfterPageOut(s: State, a: Frames.Action)
    requires Enabled(s, Do(a)) && OkFor(s, a) && a.Move? && (s.fs.pcs[a.t].Evicting? || s.fs.pcs[a.t].PagingOut?)
    ensures OkAfter(s, a)
  {
    Tables(s, a);
  }

  lemma {:induction false} AfterGot(s: State, a: Frames.Action)
    requires Enabled(s, Do(a)) && OkFor(s, a) && a.Move? && s.fs.pcs[a.t].Got?
    ensures OkAfter(s, a)
  {
    Tables(s, a);
  }

  lemma {:induction false} AfterEvict(s: State, a: Frames.Action)
    requires Frames.Inv(s.fs) && Enabled(s, Do(a)) && OkFor(s, a) && a.Move? && Frames.InEvict(s.fs.pcs[a.t])
    ensures OkAfter(s, a)
  {
    var pc := s.fs.pcs[a.t];
    if pc.Evicting? || pc.PagingOut? { AfterPageOut(s, a); }
    else if pc.Got? { AfterGot(s, a); }
    else { EvictedQuiet(s.fs, a); AfterQuiet(s, a); }
  }

  lemma {:induction false} AfterEnter(s: State, a: Frames.Action)
    requires Frames.Inv(s.fs) && Enabled(s, Do(a)) && OkFor(s, a) && !a.Move?
    ensures OkAfter(s, a)
  {
    Tables(s, a);
    var s', f, q := Step(s, Do(a)).s, Frames.FrameAt(s.fs, a), Frames.PageAt(s.fs, a);
    if a.Enter? { EntryStays(s, s', a.t, f, q, q); }
  }

  lemma {:induction false} After(s: State, a: Frames.Action)
    requires Frames.Inv(s.fs) && Enabled(s, Do(a)) && OkFor(s, a)
    ensures OkAfter(s, a)
  {
    if !a.Move? {
      AfterEnter(s, a);
    } else {
      var pc := s.fs.pcs[a.t];
      if Frames.InUse(pc) { AfterUse(s, a); }
      else if Frames.InEvict(pc) { AfterEvict(s, a); }
      else {
        if Frames.InLock(pc) { LockQuiet(s.fs, a); }
        else if Frames.InScan(pc) { ScanQuiet(s.fs, a); }
        else { SweepQuiet(s.fs, a); }
        AfterQuiet(s, a);
      }
    }
  }

  // ----- every step and every run

  lemma {:induction false} DoKeepsInv(s: State, a: Frames.Action)
    requires Inv(s) && Enabled(s, Do(a)) && !(a.Move? && Frames.Relocks(s.fs, a.t))
    ensures Step(s, Do(a)).Ok? && Inv(Step(s, Do(a)).s)
  {
    var q := Frames.PageAt(s.fs, a);
    Frames.StepLocal(s.fs, a);
    assert Frames.ThreadOk(s.fs, a.t) && ThreadOk(s, a.t);
    if q in s.fs.pages { assert EntryOk(s, q) && Frames.PageOk(s.fs, q); }
    assert OkFor(s, a);
    Tables(s, a);
    After(s, a);
    forall x | x in s.fs.pages && Changing(s.fs, a.t, x) ensures x == q { ChangesOne(s, a, x); }
    LocalSteps(s, Step(s, Do(a)).s, a.t, Frames.FrameAt(s.fs, a), q);
  }

  /** A page whose owner has locked it with page_lock is mapped to the locked frame, unless it is bare. */
  lemma {:induction false} LockedMapped(s: State, t: Tid)
    requires Inv(s) && t in s.fs.pcs && s.fs.pcs[t].Pinned?
    ensures var pc := s.fs.pcs[t];
      && pc.p in s.table && s.table[pc.p].pte == if s.table[pc.p].bare then None else Some(pc.f)
  {
    assert Frames.ThreadOk(s.fs, t) && ThreadOk(s, t);
    assert EntryOk(s, s.fs.pcs[t].p);
  }

  /** The step asks for a lock that its thread has left locked, or uses a locked page that is bare. */
  predicate Fails(s: State, a: Action) {
    match a
    case Do(b) => b.Move? && Frames.Relocks(s.fs, b.t)
    case Access(t) => t in s.fs.pcs && s.fs.pcs[t].Pinned? && EntryOf(s, s.fs.pcs[t].p).bare
  }

  lemma {:induction false} StepKeepsInv(s: State, a: Action)
    requires Inv(s) && Enabled(s, a)
    ensures Step(s, a).Panic? <==> Fails(s, a)
    ensures Step(s, a).Ok? ==> Inv(Step(s, a).s)
  {
    if a.Access? { LockedMapped(s, a.t); }
    else if Fails(s, a) { Frames.StepKeepsInv(s.fs, a.a); }
    else { DoKeepsInv(s, a.a); }
  }

  lemma {:induction false} RunKeepsInv(ss: seq<State>, acts: seq<Action>, n: nat)
    requires IsRun(ss, acts) && Initial(ss[0]) && n < |ss|
    ensures Inv(ss[n])
  {
    if n > 0 {
      var j := n - 1;
      RunKeepsInv(ss, acts, j);
      assert Enabled(ss[j], acts[j]) && Step(ss[j], acts[j]) == Ok(ss[j + 1]);
      StepKeepsInv(ss[j], acts[j]);
    }
  }

  // ----- what the invariant is for

  predicate Maps(s: State, p: Pid, f: nat) { p in s.table && s.table[p].pte == Some(f) }

  /** In every interleaving a live page is mapped to nothing but the frame that records it, so no frame is mapped for
      two pages, and a frame that is being given to another page is mapped for none. */
  lemma {:induction false} MappedToItsFrame(ss: seq<State>, acts: seq<Action>, p: Pid, q: Pid, f: nat)
    requires IsRun(ss, acts) && Initial(ss[0])
    ensures var s := ss[|acts|];
      && (Maps(s, p, f) ==> f < |s.fs.frames| && s.fs.frames[f].page == Some(p) && Frames.Linked(s.fs, p, f))
      && (Maps(s, p, f) && Maps(s, q, f) ==> p == q)
  {
    var s := ss[|acts|];
    RunKeepsInv(ss, acts, |acts|);
    if p in s.table { assert EntryOk(s, p) && Frames.PageOk(s.fs, p); }
    if q in s.table { assert EntryOk(s, q) && Frames.PageOk(s.fs, q); }
  }

  /** A page_out of p fails, or setup_stack releases the frame it has given to p. */
  predicate Strips(s: State, a: Action, p: Pid) {
    && a.Do? && a.a.Move? && a.a.t in s.fs.pcs
    && var pc := s.fs.pcs[a.a.t];
    || (pc.PagingOut? && !a.a.choice && pc.f < |s.fs.frames| && s.fs.frames[pc.f].page == Some(p))
    || (pc.Have? && pc.k.Setup? && pc.p == p)
  }

  /** The mapping of p is installed. */
  predicate Sets(s: State, a: Action, p: Pid) {
    && a.Do? && a.a.Move? && a.a.choice && a.a.t in s.fs.pcs
    && var pc := s.fs.pcs[a.a.t];
    (pc.Installing? || (pc.Have? && pc.k.PageIn?)) && pc.p == p
  }

  /** What a step from s to s' does to page p's being bare */
  predicate Bares(s: State, a: Action, s': State, p: Pid) {
    EntryOf(s', p).bare <==> p in s'.fs.pages && (Strips(s, a, p) || (EntryOf(s, p).bare && !Sets(s, a, p)))
  }

  lemma {:induction false} OtherBares(s: State, a: Action, p: Pid)
    requires Enabled(s, a) && Step(s, a).Ok? && s.table.Keys == s.fs.pages.Keys
    requires Step(s, a).s.table.Keys == Step(s, a).s.fs.pages.Keys
    requires a.Do? ==> Frames.GoesWell(s.fs, a.a) && p != Frames.PageAt(s.fs, a.a)
    ensures Bares(s, a, Step(s, a).s, p)
  {
  }

  lemma {:induction false} ThisBares(s: State, a: Frames.Action)
    requires Enabled(s, Do(a)) && Step(s, Do(a)).Ok? && s.table.Keys == s.fs.pages.Keys
    requires a.Move? ==> Frames.ThreadOk(s.fs, a.t)
    ensures Bares(s, Do(a), Step(s, Do(a)).s, Frames.PageAt(s.fs, a))
  {
  }

  lemma {:induction false} StepBares(s: State, a: Action, p: Pid)
    requires Enabled(s, a) && Step(s, a).Ok? && Inv(s)
    ensures Bares(s, a, Step(s, a).s, p)
  {
    StepKeepsInv(s, a);
    if a.Do? {
      assert Frames.ThreadOk(s.fs, a.a.t);
      Frames.StepLocal(s.fs, a.a);
    }
    if a.Do? && p == Frames.PageAt(s.fs, a.a) { ThisBares(s, a.a); } else { OtherBares(s, a, p); }
  }

  /** Step i has stripped p of its mapping, and up to state n p has lived on and no mapping has been installed. */
  ghost predicate StrippedAt(ss: seq<State>, acts: seq<Action>, p: Pid, i: nat, n: nat)
    requires n < |ss| == |acts| + 1
  {
    i < n && Strips(ss[i], acts[i], p) && forall j: nat | i < j <= n :: StillBare(ss, acts, p, j, n)
  }

  ghost predicate StillBare(ss: seq<State>, acts: seq<Action>, p: Pid, j: nat, n: nat)
    requires j <= n < |ss| == |acts| + 1
  {
    p in ss[j].fs.pages && (j < n ==> !Sets(ss[j], acts[j], p))
  }

  ghost predicate BareRun(ss: seq<State>, acts: seq<Action>, p: Pid) {
    && |ss| == |acts| + 1 && !EntryOf(ss[0], p).bare
    && forall i: nat | i < |acts| :: Bares(ss[i], acts[i], ss[i + 1], p)
  }

  lemma {:induction false} RunBares(ss: seq<State>, acts: seq<Action>, p: Pid)
    requires IsRun(ss, acts) && Initial(ss[0])
    ensures BareRun(ss, acts, p)
  {
    forall i: nat | i < |acts| ensures Bares(ss[i], acts[i], ss[i + 1], p) {
      RunKeepsInv(ss, acts, i);
      assert Enabled(ss[i], acts[i]) && Step(ss[i], acts[i]) == Ok(ss[i + 1]);
      StepBares(ss[i], acts[i], p);
    }
  }

  /** One step further, unless a mapping is installed or the page goes */
  lemma {:induction false} StrippedOn(ss: seq<State>, acts: seq<Action>, p: Pid, i: nat, m: nat, n: nat)
    requires m + 1 == n < |ss| == |acts| + 1
    ensures StrippedAt(ss, acts, p, i, n) <==> (p in ss[n].fs.pages
      && if i == m then Strips(ss[m], acts[m], p) else StrippedAt(ss, acts, p, i, m) && !Sets(ss[m], acts[m], p))
  {
    if StrippedAt(ss, acts, p, i, n) {
      assert StillBare(ss, acts, p, n, n);
      if i < m {
        assert StillBare(ss, acts, p, m, n);
        forall j: nat | i < j <= m ensures StillBare(ss, acts, p, j, m) { assert StillBare(ss, acts, p, j, n); }
      }
    } else if i < m && StrippedAt(ss, acts, p, i, m) && p in ss[n].fs.pages && !Sets(ss[m], acts[m], p) {
      forall j: nat | i < j <= n ensures StillBare(ss, acts, p, j, n) {
        if j <= m { assert StillBare(ss, acts, p, j, m); }
      }
    }
  }

  lemma {:induction false} BareIff(ss: seq<State>, acts: seq<Action>, p: Pid, n: nat)
    requires BareRun(ss, acts, p) && n < |ss|
    ensures EntryOf(ss[n], p).bare <==> exists i: nat :: StrippedAt(ss, acts, p, i, n)
  {
    if n > 0 {
      var m := n - 1;
      BareIff(ss, acts, p, m);
      assert Bares(ss[m], acts[m], ss[m + 1], p);
      if EntryOf(ss[n], p).bare {
        var i: nat := m;
        if !Strips(ss[m], acts[m], p) { i :| StrippedAt(ss, acts, p, i, m); }
        StrippedOn(ss, acts, p, i, m, n);
      } else {
        forall i: nat ensures !StrippedAt(ss, acts, p, i, n) { StrippedOn(ss, acts, p, i, m, n); }
      }
    }
  }

  /** In every interleaving: a page that its owner has locked with page_lock is mapped to the locked frame, unless,
      since a mapping was last installed, a page_out of it failed or setup_stack gave it its frame; and then the
      kernel's access to it is a page fault in the kernel, a panic. */
  lemma {:induction false} LockedMappedIff(ss: seq<State>, acts: seq<Action>, t: Tid)
    requires IsRun(ss, acts) && Initial(ss[0]) && t in ss[|acts|].fs.pcs && ss[|acts|].fs.pcs[t].Pinned?
    ensures var s, p, f := ss[|acts|], ss[|acts|].fs.pcs[t].p, ss[|acts|].fs.pcs[t].f;
      && (Maps(s, p, f) <==> !exists i: nat :: StrippedAt(ss, acts, p, i, |acts|))
      && (Step(s, Access(t)).Panic? <==> !Maps(s, p, f))
  {
    var s := ss[|acts|];
    RunKeepsInv(ss, acts, |acts|);
    LockedMapped(s, t);
    RunBares(ss, acts, s.fs.pcs[t].p);
    BareIff(ss, acts, s.fs.pcs[t].p, |acts|);
  }

  // ----- a bare page can be locked and used

  lemma {:induction false} Then(ss: seq<State>, acts: seq<Action>, a: Action)
    returns (ss': seq<State>, acts': seq<Action>)
    requires IsRun(ss, acts) && Enabled(ss[|acts|], a) && Step(ss[|acts|], a).Ok?
    ensures IsRun(ss', acts') && |acts'| == |acts| + 1 && ss'[0] == ss[0]
    ensures ss'[|acts'|] == Step(ss[|acts|], a).s
  {
    ss', acts' := ss + [Step(ss[|acts|], a).s], acts + [a];
  }

  /** Page p has a frame that is not locked and no mapping, and its owner may lock it. */
  ghost predicate Exposed(s: State, p: Pid) {
    && p in s.table && p in s.fs.pages && s.fs.pages[p].frame.Some? && s.fs.pages[p].frame.value < |s.fs.frames|
    && s.fs.frames[s.fs.pages[p].frame.value].lock.None? && EntryOf(s, p) == Entry(None, true)
    && var t := s.fs.pages[p].owner;
    t in s.fs.pcs && s.fs.pcs[t].Idle? && t !in s.fs.leaks && t !in s.exiting
  }

  /** The thread is on its way through page_lock with the frame of page p, which has no mapping. */
  ghost predicate Locking(s: State, t: Tid, p: Pid, f: nat, pc: Frames.Pc) {
    && t in s.fs.pcs && s.fs.pcs[t] == pc && p in s.fs.pages && s.fs.pages[p] == Frames.Page(t, Some(f))
    && f < |s.fs.frames| && t !in s.exiting && EntryOf(s, p) == Entry(None, true) && p in s.table
    && s.fs.frames[f].lock == if pc.LockRead? || pc.LockWait? then None else Some(t)
  }

  /** The steps of page_lock, for a page that has a frame */
  ghost predicate Follows(p: Pid, f: nat, pc: Frames.Pc, next: Frames.Pc) {
    || (pc == Frames.LockRead(p, Frames.PageLock) && next == Frames.LockWait(p, Frames.PageLock, f))
    || (pc == Frames.LockWait(p, Frames.PageLock, f) && next == Frames.LockCheck(p, Frames.PageLock, f))
    || (pc == Frames.LockCheck(p, Frames.PageLock, f) && next == Frames.Have(p, Frames.PageLock, f))
    || (pc == Frames.Have(p, Frames.PageLock, f) && next == Frames.Pinned(p, f))
  }

  lemma {:induction false} LockingStep(s: State, t: Tid, p: Pid, f: nat, pc: Frames.Pc, next: Frames.Pc)
    requires Locking(s, t, p, f, pc) && Follows(p, f, pc, next)
    ensures var a := Do(Frames.Move(t, false));
      Enabled(s, a) && Step(s, a).Ok? && Locking(Step(s, a).s, t, p, f, next)
  {
  }

  lemma {:induction false} Goes(ss: seq<State>, acts: seq<Action>, t: Tid, p: Pid, f: nat, pc: Frames.Pc,
        next: Frames.Pc)
    returns (ss': seq<State>, acts': seq<Action>)
    requires IsRun(ss, acts) && Locking(ss[|acts|], t, p, f, pc) && Follows(p, f, pc, next)
    ensures IsRun(ss', acts') && |acts'| == |acts| + 1 && ss'[0] == ss[0] && Locking(ss'[|acts'|], t, p, f, next)
  {
    LockingStep(ss[|acts|], t, p, f, pc, next);
    ss', acts' := Then(ss, acts, Do(Frames.Move(t, false)));
  }

  /** The kernel's next access by t is to a page that is not mapped. */
  ghost predicate AccessPanics(s: State, t: Tid) { Enabled(s, Access(t)) && Step(s, Access(t)).Panic? }

  /** A run can go on with page_lock, which succeeds, and the kernel's access then panics. */
  lemma {:induction false} ExposedIsFatal(ss: seq<State>, acts: seq<Action>, p: Pid)
    returns (ss': seq<State>, acts': seq<Action>)
    requires IsRun(ss, acts) && Exposed(ss[|acts|], p)
    ensures IsRun(ss', acts') && ss'[0] == ss[0] && |acts'| == |acts| + 5
    ensures AccessPanics(ss'[|acts'|], ss[|acts|].fs.pages[p].owner)
  {
    var s, k := ss[|acts|], Frames.PageLock;
    var t, f := s.fs.pages[p].owner, s.fs.pages[p].frame.value;
    ss', acts' := Then(ss, acts, Do(Frames.Enter(t, p, k)));
    assert Locking(ss'[|acts'|], t, p, f, Frames.LockRead(p, k));
    ss', acts' := Goes(ss', acts', t, p, f, Frames.LockRead(p, k), Frames.LockWait(p, k, f));
    ss', acts' := Goes(ss', acts', t, p, f, Frames.LockWait(p, k, f), Frames.LockCheck(p, k, f));
    ss', acts' := Goes(ss', acts', t, p, f, Frames.LockCheck(p, k, f), Frames.Have(p, k, f));
    ss', acts' := Goes(ss', acts', t, p, f, Frames.Have(p, k, f), Frames.Pinned(p, f));
  }

  /** Thread u is paging out p, whose owner is another thread that may lock it. */
  ghost predicate PagesOut(s: State, u: Tid, p: Pid) {
    && u in s.fs.pcs && s.fs.pcs[u].PagingOut? && s.fs.pcs[u].f < |s.fs.frames|
    && s.fs.frames[s.fs.pcs[u].f].page == Some(p) && p in s.fs.pages && s.fs.pages[p].owner != u
    && var t := s.fs.pages[p].owner;
    t in s.fs.pcs && s.fs.pcs[t].Idle? && t !in s.fs.leaks && t !in s.exiting
  }

  /** Its page_out has failed. */
  ghost predicate PageOutFailed(s: State, u: Tid, p: Pid) {
    && u in s.fs.pcs && s.fs.pcs[u].EvictFailed? && Frames.Held(s.fs, u, s.fs.pcs[u].f)
    && p in s.table && p in s.fs.pages && s.fs.pages[p].frame == Some(s.fs.pcs[u].f) && s.fs.pages[p].owner != u
    && EntryOf(s, p) == Entry(None, true)
    && var t := s.fs.pages[p].owner;
    t in s.fs.pcs && s.fs.pcs[t].Idle? && t !in s.fs.leaks && t !in s.exiting
  }

  lemma {:induction false} PageOutFails(s: State, u: Tid, p: Pid)
    requires PagesOut(s, u, p) && Frames.ThreadOk(s.fs, u) && ThreadOk(s, u)
    requires Frames.FrameOk(s.fs, s.fs.pcs[u].f) && EntryOk(s, p)
    ensures var a := Do(Frames.Move(u, false));
      && Enabled(s, a) && Step(s, a).Ok? && PageOutFailed(Step(s, a).s, u, p) && Step(s, a).s.fs.pages == s.fs.pages
  {
  }

  lemma {:induction false} FailureExposes(s: State, u: Tid, p: Pid, again: bool)
    requires PageOutFailed(s, u, p)
    ensures var a := Do(Frames.Move(u, again));
      && Enabled(s, a) && Step(s, a).Ok? && Exposed(Step(s, a).s, p) && Step(s, a).s.fs.pages == s.fs.pages
  {
  }

  /** Whenever a thread is paging out a page of another that is doing nothing: the failure is the first step of a run
      to a panic. */
  lemma {:induction false} FailedPageOutIsFatal(ss: seq<State>, acts: seq<Action>, u: Tid, p: Pid, again: bool)
    returns (ss': seq<State>, acts': seq<Action>)
    requires IsRun(ss, acts) && Initial(ss[0]) && PagesOut(ss[|acts|], u, p)
    ensures IsRun(ss', acts') && ss'[0] == ss[0] && |acts'| == |acts| + 7
    ensures AccessPanics(ss'[|acts'|], ss[|acts|].fs.pages[p].owner)
  {
    var s := ss[|acts|];
    RunKeepsInv(ss, acts, |acts|);
    assert Frames.ThreadOk(s.fs, u) && ThreadOk(s, u) && Frames.FrameOk(s.fs, s.fs.pcs[u].f) && EntryOk(s, p);
    PageOutFails(s, u, p);
    ss', acts' := Then(ss, acts, Do(Frames.Move(u, false)));
    FailureExposes(ss'[|acts'|], u, p, again);
    ss', acts' := Then(ss', acts', Do(Frames.Move(u, again)));
    ss', acts' := ExposedIsFatal(ss', acts', p);
  }

  /** One thread with one page, the only one, in a machine with one frame */
  ghost predicate SoloAt(s: State, lock: Option<Tid>, page: Option<Pid>, link: Option<nat>, scan: Option<Tid>,
        pc: Frames.Pc, e: Entry)
  {
    && |s.fs.frames| == 1 && s.fs.frames[0] == Frames.Frame(lock, page)
    && s.fs.pages == map[0 := Frames.Page(0, link)] && s.fs.scanLock == scan && s.fs.hand == 0
    && s.fs.pcs == map[0 := pc] && s.fs.leaks == map[] && s.table == map[0 := e] && s.exiting == {}
  }

  /** The steps of setup_stack, from the new page on */
  ghost predicate SetupAt(s: State, n: nat) {
    var k, e := Frames.Setup, Entry(None, false);
    if n == 0 then SoloAt(s, None, None, None, None, Frames.Idle, e)
    else if n == 1 then SoloAt(s, None, None, None, None, Frames.LockRead(0, k), e)
    else if n == 2 then SoloAt(s, None, None, None, None, Frames.HaveNot(0, k), e)
    else if n == 3 then SoloAt(s, None, None, None, None, Frames.WantScan(0, k), e)
    else if n == 4 then SoloAt(s, None, None, None, Some(0), Frames.ScanFree(0, k, 0), e)
    else if n == 5 then SoloAt(s, Some(0), None, None, Some(0), Frames.ScanHeld(0, k, 0), e)
    else if n == 6 then SoloAt(s, Some(0), Some(0), None, None, Frames.Got(0, k, 0), e)
    else if n == 7 then SoloAt(s, Some(0), Some(0), Some(0), None, Frames.Have(0, k, 0), e)
    else SoloAt(s, None, Some(0), Some(0), None, Frames.Idle, Entry(None, true))
  }

  ghost function SetupAction(n: nat): Action {
    Do(if n == 0 then Frames.Enter(0, 0, Frames.Setup) else Frames.Move(0, false))
  }

  ghost predicate SetupStep(s: State, n: nat) {
    && Enabled(s, SetupAction(n)) && Step(s, SetupAction(n)).Ok? && SetupAt(Step(s, SetupAction(n)).s, n + 1)
  }

  lemma {:induction false} SetupLooks(s: State, n: nat)
    requires n < 3 && SetupAt(s, n)
    ensures SetupStep(s, n)
  {
  }

  lemma {:induction false} SetupFinds(s: State, n: nat)
    requires 3 <= n < 6 && SetupAt(s, n)
    ensures SetupStep(s, n)
  {
  }

  lemma {:induction false} SetupTakes(s: State, n: nat)
    requires 6 <= n < 8 && SetupAt(s, n)
    ensures SetupStep(s, n)
  {
  }

  lemma {:induction false} SetupReaches(n: nat) returns (ss: seq<State>, acts: seq<Action>)
    requires n <= 8
    ensures IsRun(ss, acts) && Initial(ss[0]) && |acts| == n + 1 && SetupAt(ss[|acts|], n)
  {
    if n == 0 {
      var fs := Frames.Solo(Frames.Frame(None, None), map[], None, Frames.Idle, map[]);
      ss, acts := Then([State(fs, map[], {})], [], Do(Frames.NewPage(0, 0)));
    } else {
      ss, acts := SetupReaches(n - 1);
      if n <= 3 { SetupLooks(ss[|acts|], n - 1); }
      else if n <= 6 { SetupFinds(ss[|acts|], n - 1); }
      else { SetupTakes(ss[|acts|], n - 1); }
      ss, acts := Then(ss, acts, SetupAction(n - 1));
    }
  }

  /** It happens: page_lock of the page that setup_stack made, before a user access has had it mapped. */
  lemma {:induction false} SetupPanics() returns (ss: seq<State>, acts: seq<Action>)
    ensures IsRun(ss, acts) && Initial(ss[0]) && |acts| == 14 && AccessPanics(ss[14], 0)
  {
    ss, acts := SetupReaches(8);
    ss, acts := ExposedIsFatal(ss, acts, 0);
  }
}
