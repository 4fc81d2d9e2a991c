/** Context switching, sleep and wakeup of guest/xv6/kernel/proc.c, for any number of
    processes and CPUs and one condition: a flag tested before sleep and set before wakeup,
    both under the lock lk, with processes sleeping on one channel. Steps are separated
    wherever another CPU can come in between. */
module SleepWakeup {
  import opened Options
  import opened Runs

  datatype PState = UNUSED | SLEEPING | RUNNABLE | RUNNING
  datatype Chan = NoChan | Ours

  /** Where a process's kernel thread stands. */
  datatype Pc =
    | Free                     // in user space or in code that touches none of this
    | YieldSwitch              // yield: p->lock held, state RUNNABLE, about to swtch
    | YieldResumed             // switched back in (or, for a new process, in for the first time)
    | Want                     // about to acquire lk to wait for the condition
    | Testing                  // lk held, about to test the condition
    | SleepLocking             // in sleep(), lk held, about to acquire p->lock
    | SleepLocked              // both held, about to release lk
    | SleepMarking             // p->lock held, about to set chan and SLEEPING
    | SleepSwitch              // about to swtch
    | SleepResumed             // switched back in, about to clear chan and release p->lock
    | WakerWant                // about to acquire lk to set the condition
    | Setting                  // lk held, about to set it
    | Waking(i: nat)           // in wakeup(), lk held, about to look at process i
    | WakingLocked(i: nat)     // lk and process i's lock held

  datatype Sched =
    | Scanning
    | Chosen(p: nat)           // p->lock held, about to look at its state
    | InProc(p: nat)           // switched to p's thread
    | Back(p: nat)             // switched back, p->lock held, c->proc still set

  /** Locks name the CPU that holds them. `home` is the CPU a process last ran on. */
  datatype State = State(
    st: seq<PState>, chan: seq<Chan>, pc: seq<Pc>, plock: seq<Option<nat>>,
    lk: Option<nat>, cond: bool,
    current: seq<Option<nat>>, sched: seq<Sched>, home: seq<nat>)

  ghost predicate Sizes(s: State) {
    && |s.st| == |s.chan| == |s.pc| == |s.plock| == |s.home| && |s.current| == |s.sched|
  }

  ghost predicate Init(s: State) {
    && Sizes(s)
    && (forall p | 0 <= p < |s.st| ::
        s.st[p] in {UNUSED, RUNNABLE} && s.pc[p] == YieldResumed && s.plock[p] == None && s.chan[p] == NoChan)
    && s.lk == None
    && forall c | 0 <= c < |s.sched| :: s.sched[c] == Scanning && s.current[c] == None
  }

  // ---- the scheduler on CPU c

  ghost predicate Acquire(s: State, t: State, c: nat, p: nat) requires Sizes(s) {
    && c < |s.sched| && p < |s.st| && s.sched[c] == Scanning && s.plock[p] == None
    && t == s.(plock := s.plock[p := Some(c)], sched := s.sched[c := Chosen(p)])
  }

  ghost predicate Decide(s: State, t: State, c: nat) requires Sizes(s) {
    && c < |s.sched| && s.sched[c].Chosen? && s.sched[c].p < |s.st|
    && var p := s.sched[c].p;
       if s.st[p] == RUNNABLE then
         t == s.(st := s.st[p := RUNNING], current := s.current[c := Some(p)],
                 sched := s.sched[c := InProc(p)], home := s.home[p := c])
       else
         t == s.(plock := s.plock[p := None], sched := s.sched[c := Scanning])
  }

  /** The process has switched away: c->proc = 0 and release p->lock. */
  ghost predicate PutAway(s: State, t: State, c: nat) requires Sizes(s) {
    && c < |s.sched| && s.sched[c].Back? && s.sched[c].p < |s.st|
    && t == s.(current := s.current[c := None], plock := s.plock[s.sched[c].p := None],
               sched := s.sched[c := Scanning])
  }

  // ---- a process's thread, on CPU c

  ghost predicate On(s: State, c: nat, p: nat) requires Sizes(s) {
    c < |s.sched| && p < |s.st| && s.sched[c] == InProc(p)
  }

  ghost predicate At(s: State, c: nat, p: nat, pc: Pc) requires Sizes(s) {
    On(s, c, p) && s.pc[p] == pc
  }

  ghost predicate Choose(s: State, t: State, c: nat, p: nat) requires Sizes(s) {
    At(s, c, p, Free) && (t == s.(pc := s.pc[p := Want]) || t == s.(pc := s.pc[p := WakerWant]))
  }

  ghost predicate YieldStart(s: State, t: State, c: nat, p: nat) requires Sizes(s) {
    && At(s, c, p, Free) && s.plock[p] == None
    && t == s.(plock := s.plock[p := Some(c)], st := s.st[p := RUNNABLE], pc := s.pc[p := YieldSwitch])
  }

  ghost predicate SwitchAway(s: State, t: State, c: nat, p: nat) requires Sizes(s) {
    && On(s, c, p)
    && ((s.pc[p] == YieldSwitch && t == s.(pc := s.pc[p := YieldResumed], sched := s.sched[c := Back(p)]))
        || (s.pc[p] == SleepSwitch && t == s.(pc := s.pc[p := SleepResumed], sched := s.sched[c := Back(p)])))
  }

  ghost predicate Resume(s: State, t: State, c: nat, p: nat) requires Sizes(s) {
    && On(s, c, p)
    && ((s.pc[p] == YieldResumed && t == s.(plock := s.plock[p := None], pc := s.pc[p := Free]))
        || (s.pc[p] == SleepResumed && t == s.(chan := s.chan[p := NoChan], plock := s.plock[p := None], pc :=
          s.pc[p := Want])))
  }

  ghost predicate TakeLk(s: State, t: State, c: nat, p: nat) requires Sizes(s) {
    && On(s, c, p) && s.lk == None
    && ((s.pc[p] == Want && t == s.(lk := Some(c), pc := s.pc[p := Testing]))
        || (s.pc[p] == WakerWant && t == s.(lk := Some(c), pc := s.pc[p := Setting])))
  }

  /** The waiter's while loop: sleep if the condition does not hold; else use it, perhaps
      consume it, and release lk. */
  ghost predicate Test(s: State, t: State, c: nat, p: nat) requires Sizes(s) {
    && At(s, c, p, Testing)
    && if !s.cond then t == s.(pc := s.pc[p := SleepLocking])
       else t == s.(lk := None, pc := s.pc[p := Free]) || t == s.(lk := None, cond := false, pc := s.pc[p := Free])
  }

  ghost predicate SleepLock(s: State, t: State, c: nat, p: nat) requires Sizes(s) {
    && At(s, c, p, SleepLocking) && s.plock[p] == None
    && t == s.(plock := s.plock[p := Some(c)], pc := s.pc[p := SleepLocked])
  }

  ghost predicate SleepRelease(s: State, t: State, c: nat, p: nat) requires Sizes(s) {
    At(s, c, p, SleepLocked) && t == s.(lk := None, pc := s.pc[p := SleepMarking])
  }

  ghost predicate SleepMark(s: State, t: State, c: nat, p: nat) requires Sizes(s) {
    && At(s, c, p, SleepMarking)
    && t == s.(chan := s.chan[p := Ours], st := s.st[p := SLEEPING], pc := s.pc[p := SleepSwitch])
  }

  ghost predicate SetCond(s: State, t: State, c: nat, p: nat) requires Sizes(s) {
    At(s, c, p, Setting) && t == s.(cond := true, pc := s.pc[p := Waking(0)])
  }

  ghost predicate WakeLook(s: State, t: State, c: nat, p: nat) requires Sizes(s) {
    && On(s, c, p) && s.pc[p].Waking?
    && var i := s.pc[p].i;
       if i >= |s.st| then t == s.(lk := None, pc := s.pc[p := Free])
       else if i == p then t == s.(pc := s.pc[p := Waking(i + 1)])
       else s.plock[i] == None && t == s.(plock := s.plock[i := Some(c)], pc := s.pc[p := WakingLocked(i)])
  }

  ghost predicate WakeOne(s: State, t: State, c: nat, p: nat) requires Sizes(s) {
    && On(s, c, p) && s.pc[p].WakingLocked? && s.pc[p].i < |s.st|
    && var i := s.pc[p].i;
       t == s.(st := if s.st[i] == SLEEPING && s.chan[i] == Ours then s.st[i := RUNNABLE] else s.st,
               plock := s.plock[i := None], pc := s.pc[p := Waking(i + 1)])
  }

  /** kill, or a wakeup on the channel by someone who sets no condition. */
  ghost predicate Rouse(s: State, t: State, q: nat) requires Sizes(s) {
    && q < |s.st| && s.plock[q] == None && s.st[q] == SLEEPING
    && t == s.(st := s.st[q := RUNNABLE])
  }

  ghost predicate SchedStep(s: State, t: State, c: nat) requires Sizes(s) {
    (exists p: nat :: Acquire(s, t, c, p)) || Decide(s, t, c) || PutAway(s, t, c)
  }

  ghost predicate ThreadStep(s: State, t: State, c: nat, p: nat) requires Sizes(s) {
    || Choose(s, t, c, p) || YieldStart(s, t, c, p) || SwitchAway(s, t, c, p) || Resume(s, t, c, p)
    || TakeLk(s, t, c, p) || Test(s, t, c, p) || SleepLock(s, t, c, p) || SleepRelease(s, t, c, p)
    || SleepMark(s, t, c, p) || SetCond(s, t, c, p) || WakeLook(s, t, c, p) || WakeOne(s, t, c, p)
  }

  ghost predicate Next(s: State, t: State) {
    && Sizes(s)
    && (|| (exists c: nat :: SchedStep(s, t, c))
        || (exists c: nat, p: nat :: ThreadStep(s, t, c, p))
        || (exists q: nat :: Rouse(s, t, q)))
  }

  ghost predicate IsRun(run: seq<State>) { RunOf(run, Init, Next) }

  // ---- the invariant

  /** The thread at this point holds its own process's lock. */
  predicate OwnLocked(pc: Pc) {
    pc.YieldSwitch? || pc.YieldResumed? || pc.SleepLocked? || pc.SleepMarking? || pc.SleepSwitch? || pc.SleepResumed?
  }

  predicate LkHeld(pc: Pc) {
    pc.Testing? || pc.SleepLocking? || pc.SleepLocked? || pc.Setting? || pc.Waking? || pc.WakingLocked?
  }

  predicate Suspended(pc: Pc) { pc.YieldResumed? || pc.SleepResumed? }

  /** What CPU c is doing to process p, if anything: its thread runs there or is being put away. */
  predicate Occupies(sc: Sched, p: nat) { sc == InProc(p) || sc == Back(p) }

  ghost predicate Cpus(sched: seq<Sched>, current: seq<Option<nat>>, home: seq<nat>, n: nat) {
    && |sched| == |current| && |home| == n
    && forall c | 0 <= c < |sched| ::
         match sched[c]
         case Scanning => current[c] == None
         case Chosen(p) => current[c] == None && p < n
         case InProc(p) => current[c] == Some(p) && p < n && home[p] == c
         case Back(p) => current[c] == Some(p) && p < n && home[p] == c
  }

  /** Every lock that some code believes it holds is held by its CPU. */
  ghost predicate Locks(sched: seq<Sched>, pc: seq<Pc>, plock: seq<Option<nat>>, lk: Option<nat>) {
    && |pc| == |plock|
    && forall c {:trigger sched[c]} | 0 <= c < |sched| ::
         match sched[c]
         case Scanning => true
         case Chosen(p) => p < |pc| && plock[p] == Some(c)
         case Back(p) => p < |pc| && plock[p] == Some(c) && Suspended(pc[p])
         case InProc(p) =>
           && p < |pc|
           && (OwnLocked(pc[p]) ==> plock[p] == Some(c))
           && (LkHeld(pc[p]) ==> lk == Some(c))
           && (pc[p].WakingLocked? ==> pc[p].i < |pc| && pc[p].i != p && plock[pc[p].i] == Some(c))
           && (pc[p].Waking? ==> pc[p].i <= |pc|)
  }

  /** The state of a process agrees with where its thread is. */
  ghost predicate States(st: seq<PState>, chan: seq<Chan>, pc: seq<Pc>, sched: seq<Sched>, home: seq<nat>) {
    && |st| == |chan| == |pc| == |home|
    && forall p {:trigger home[p]} | 0 <= p < |st| ::
         if home[p] < |sched| && sched[home[p]] == InProc(p) then
           if pc[p] == YieldSwitch then st[p] == RUNNABLE
           else if pc[p] == SleepSwitch then st[p] == SLEEPING && chan[p] == Ours
           else st[p] == RUNNING
         else
           st[p] != RUNNING && Suspended(pc[p])
  }

  /** Asleep on the channel, or past the point of no return on the way there. */
  predicate Going(st: PState, chan: Chan, pc: Pc) { (st == SLEEPING && chan == Ours) || pc.SleepMarking? }

  /** Where the wakeup in progress, if there is one, will look next. */
  function WakeFrom(pc: seq<Pc>, sched: seq<Sched>, lk: Option<nat>): nat {
    if lk.Some? && lk.value < |sched| && sched[lk.value].InProc? && sched[lk.value].p < |pc| then
      match pc[sched[lk.value].p]
      case Waking(i) => i
      case WakingLocked(i) => i
      case _ => |pc|
    else |pc|
  }

  ghost predicate NotLost(st: seq<PState>, chan: seq<Chan>, pc: seq<Pc>, sched: seq<Sched>, lk: Option<nat>,
      cond: bool) {
    && |st| == |chan| == |pc|
    && (cond ==> forall p | 0 <= p < |st| && p < WakeFrom(pc, sched, lk) :: !Going(st[p], chan[p], pc[p]))
    && forall p | 0 <= p < |pc| && (pc[p].SleepLocking? || pc[p].SleepLocked?) :: !cond
  }

  ghost predicate Inv(s: State) {
    && Sizes(s)
    && Cpus(s.sched, s.current, s.home, |s.st|)
    && Locks(s.sched, s.pc, s.plock, s.lk)
    && States(s.st, s.chan, s.pc, s.sched, s.home)
    && NotLost(s.st, s.chan, s.pc, s.sched, s.lk, s.cond)
  }

  lemma InitInv(s: State)
    requires Init(s)
    ensures Inv(s)
  {
  }

  lemma AcquireInv(s: State, t: State, c: nat, p: nat)
    requires Inv(s) && Acquire(s, t, c, p)
    ensures Inv(t)
  {
  }

  lemma DecideSkipInv(s: State, t: State, c: nat)
    requires Inv(s) && Decide(s, t, c) && s.st[s.sched[c].p] != RUNNABLE
    ensures Inv(t)
  {
  }

  /** A runnable process whose lock another CPU's scheduler can take runs nowhere. */
  lemma RunnableIsOff(s: State, c: nat)
    requires Inv(s) && c < |s.sched| && s.sched[c].Chosen? && s.st[s.sched[c].p] == RUNNABLE
    ensures var p := s.sched[c].p; !(s.home[p] < |s.sched| && s.sched[s.home[p]] == InProc(p)) && Suspended(s.pc[p])
    ensures forall d | 0 <= d < |s.sched| :: !Occupies(s.sched[d], s.sched[c].p)
  {
  }

  lemma DecideRunInv(s: State, t: State, c: nat)
    requires Inv(s) && Decide(s, t, c) && s.st[s.sched[c].p] == RUNNABLE
    ensures Inv(t)
  {
    RunnableIsOff(s, c);
    assert WakeFrom(t.pc, t.sched, t.lk) == WakeFrom(s.pc, s.sched, s.lk);
  }

  lemma PutAwayInv(s: State, t: State, c: nat)
    requires Inv(s) && PutAway(s, t, c)
    ensures Inv(t)
  {
  }

  lemma ChooseInv(s: State, t: State, c: nat, p: nat)
    requires Inv(s) && Choose(s, t, c, p)
    ensures Inv(t)
  {
    if t.pc[p] == Want { ChosenInv(s, t, c, p, Want); } else { ChosenInv(s, t, c, p, WakerWant); }
  }

  lemma ChosenInv(s: State, t: State, c: nat, p: nat, pc: Pc)
    requires Inv(s) && At(s, c, p, Free) && (pc == Want || pc == WakerWant) && t == s.(pc := s.pc[p := pc])
    ensures Inv(t)
  {
  }

  lemma YieldInv(s: State, t: State, c: nat, p: nat)
    requires Inv(s) && YieldStart(s, t, c, p)
    ensures Inv(t)
  {
  }

  lemma YieldAwayInv(s: State, t: State, c: nat, p: nat)
    requires Inv(s) && SwitchAway(s, t, c, p) && s.pc[p] == YieldSwitch
    ensures Inv(t)
  {
  }

  lemma SleepAwayInv(s: State, t: State, c: nat, p: nat)
    requires Inv(s) && SwitchAway(s, t, c, p) && s.pc[p] == SleepSwitch
    ensures Inv(t)
  {
  }

  lemma YieldBackInv(s: State, t: State, c: nat, p: nat)
    requires Inv(s) && Resume(s, t, c, p) && s.pc[p] == YieldResumed
    ensures Inv(t)
  {
  }

  lemma SleepBackInv(s: State, t: State, c: nat, p: nat)
    requires Inv(s) && Resume(s, t, c, p) && s.pc[p] == SleepResumed
    ensures Inv(t)
  {
  }

  lemma TakeLkInv(s: State, t: State, c: nat, p: nat)
    requires Inv(s) && TakeLk(s, t, c, p)
    ensures Inv(t)
  {
  }

  /** Only one thread can be where lk is held. */
  lemma LkHolder(s: State, p: nat, q: nat)
    requires Inv(s) && p < |s.pc| && q < |s.pc| && LkHeld(s.pc[p]) && LkHeld(s.pc[q])
    ensures p == q
  {
    assert s.sched[s.home[p]] == InProc(p) && s.sched[s.home[q]] == InProc(q);
  }

  lemma TestInv(s: State, t: State, c: nat, p: nat)
    requires Inv(s) && Test(s, t, c, p)
    ensures Inv(t)
  {
    if s.cond { TestUsedInv(s, t, c, p, t.cond); } else { TestSleepInv(s, t, c, p); }
  }

  lemma TestUsedInv(s: State, t: State, c: nat, p: nat, cond: bool)
    requires Inv(s) && At(s, c, p, Testing) && s.cond && t == s.(lk := None, cond := cond, pc := s.pc[p := Free])
    ensures Inv(t)
  {
  }

  lemma TestSleepInv(s: State, t: State, c: nat, p: nat)
    requires Inv(s) && At(s, c, p, Testing) && !s.cond && t == s.(pc := s.pc[p := SleepLocking])
    ensures Inv(t)
  {
  }

  lemma SleepLockInv(s: State, t: State, c: nat, p: nat)
    requires Inv(s) && SleepLock(s, t, c, p)
    ensures Inv(t)
  {
  }

  lemma SleepReleaseInv(s: State, t: State, c: nat, p: nat)
    requires Inv(s) && SleepRelease(s, t, c, p)
    ensures Inv(t)
  {
  }

  lemma SleepMarkInv(s: State, t: State, c: nat, p: nat)
    requires Inv(s) && SleepMark(s, t, c, p)
    ensures Inv(t)
  {
  }

  lemma SetCondInv(s: State, t: State, c: nat, p: nat)
    requires Inv(s) && SetCond(s, t, c, p)
    ensures Inv(t)
  {
    forall q | 0 <= q < |t.pc| && (t.pc[q].SleepLocking? || t.pc[q].SleepLocked?) ensures false {
      LkHolder(s, p, q);
    }
  }

  lemma WakeDoneInv(s: State, t: State, c: nat, p: nat)
    requires Inv(s) && WakeLook(s, t, c, p) && s.pc[p].i >= |s.st|
    ensures Inv(t)
  {
  }

  lemma WakeLookInv(s: State, t: State, c: nat, p: nat)
    requires Inv(s) && WakeLook(s, t, c, p) && s.pc[p].i < |s.st|
    ensures Inv(t)
  {
    if s.pc[p].i == p { WakeSelfInv(s, t, c, p); } else { WakeLockInv(s, t, c, p); }
  }

  lemma WakeSelfInv(s: State, t: State, c: nat, p: nat)
    requires Inv(s) && WakeLook(s, t, c, p) && s.pc[p].i == p
    ensures Inv(t)
  {
  }

  lemma WakeLockInv(s: State, t: State, c: nat, p: nat)
    requires Inv(s) && WakeLook(s, t, c, p) && s.pc[p].i < |s.st| && s.pc[p].i != p
    ensures Inv(t)
  {
  }

  /** Whoever holds a process's lock from another thread finds it not half-way into sleep. */
  lemma NotMarking(s: State, c: nat, i: nat)
    requires Inv(s) && i < |s.pc| && c < |s.sched| && s.plock[i] == Some(c) && s.sched[c].InProc? && s.sched[c].p != i
    ensures !s.pc[i].SleepMarking?
  {
    assert s.home[i] < |s.sched| && s.sched[s.home[i]] == InProc(i) ==> s.home[i] != c;
  }

  lemma WakeOneInv(s: State, t: State, c: nat, p: nat)
    requires Inv(s) && WakeOne(s, t, c, p)
    ensures Inv(t)
  {
    var i := s.pc[p].i;
    NotMarking(s, c, i);
    assert t.st[i] != SLEEPING || t.chan[i] != Ours;
  }

  lemma RouseInv(s: State, t: State, q: nat)
    requires Inv(s) && Rouse(s, t, q)
    ensures Inv(t)
  {
  }

  lemma ThreadStepInv(s: State, t: State, c: nat, p: nat)
    requires Inv(s) && ThreadStep(s, t, c, p)
    ensures Inv(t)
  {
    if Choose(s, t, c, p) {
      ChooseInv(s, t, c, p);
    } else if YieldStart(s, t, c, p) {
      YieldInv(s, t, c, p);
    } else if SwitchAway(s, t, c, p) {
      if s.pc[p] == YieldSwitch { YieldAwayInv(s, t, c, p); } else { SleepAwayInv(s, t, c, p); }
    } else if Resume(s, t, c, p) {
      if s.pc[p] == YieldResumed { YieldBackInv(s, t, c, p); } else { SleepBackInv(s, t, c, p); }
    } else if TakeLk(s, t, c, p) {
      TakeLkInv(s, t, c, p);
    } else if Test(s, t, c, p) {
      TestInv(s, t, c, p);
    } else {
      SleepOrWakeInv(s, t, c, p);
    }
  }

  lemma SleepOrWakeInv(s: State, t: State, c: nat, p: nat)
    requires Inv(s)
    requires || SleepLock(s, t, c, p) || SleepRelease(s, t, c, p) || SleepMark(s, t, c, p)
             || SetCond(s, t, c, p) || WakeLook(s, t, c, p) || WakeOne(s, t, c, p)
    ensures Inv(t)
  {
    if SleepLock(s, t, c, p) {
      SleepLockInv(s, t, c, p);
    } else if SleepRelease(s, t, c, p) {
      SleepReleaseInv(s, t, c, p);
    } else if SleepMark(s, t, c, p) {
      SleepMarkInv(s, t, c, p);
    } else if SetCond(s, t, c, p) {
      SetCondInv(s, t, c, p);
    } else if WakeOne(s, t, c, p) {
      WakeOneInv(s, t, c, p);
    } else if s.pc[p].i >= |s.st| {
      WakeDoneInv(s, t, c, p);
    } else {
      WakeLookInv(s, t, c, p);
    }
  }

  lemma SchedStepInv(s: State, t: State, c: nat)
    requires Inv(s) && SchedStep(s, t, c)
    ensures Inv(t)
  {
    if p: nat :| Acquire(s, t, c, p) {
      AcquireInv(s, t, c, p);
    } else if PutAway(s, t, c) {
      PutAwayInv(s, t, c);
    } else if s.st[s.sched[c].p] == RUNNABLE {
      DecideRunInv(s, t, c);
    } else {
      DecideSkipInv(s, t, c);
    }
  }

  lemma NextInv(s: State, t: State)
    requires Inv(s) && Next(s, t)
    ensures Inv(t)
  {
    if c: nat :| SchedStep(s, t, c) {
      SchedStepInv(s, t, c);
    } else if c: nat, p: nat :| ThreadStep(s, t, c, p) {
      ThreadStepInv(s, t, c, p);
    } else {
      var q: nat :| Rouse(s, t, q);
      RouseInv(s, t, q);
    }
  }

  lemma RunInv(run: seq<State>, i: nat)
    requires IsRun(run) && i < |run|
    ensures Inv(run[i])
  {
    forall s | Init(s) ensures Inv(s) { InitInv(s); }
    forall s, t | Inv(s) && Next(s, t) ensures Inv(t) { NextInv(s, t); }
    Always(run, Init, Next, Inv, i);
  }

  // ---- what sleep, wakeup and the scheduler promise

  /** No lost wakeup: with lk free and the condition true, no process is asleep on the
      channel, nor committed to going to sleep on it. */
  lemma NoLostWakeup(run: seq<State>, i: nat, p: nat)
    requires IsRun(run) && i < |run| && p < |run[i].st| == |run[i].chan| == |run[i].pc|
    requires run[i].lk == None && run[i].cond
    ensures !(run[i].st[p] == SLEEPING && run[i].chan[p] == Ours)
    ensures run[i].pc[p] != SleepMarking
  {
    RunInv(run, i);
  }

  /** No process is ever the current process of two CPUs. */
  lemma CurrentOnOneCpu(run: seq<State>, i: nat, c: nat, d: nat)
    requires IsRun(run) && i < |run| && c < |run[i].current| && d < |run[i].current|
    requires run[i].current[c].Some? && run[i].current[c] == run[i].current[d]
    ensures c == d
  {
    RunInv(run, i);
  }

  /** A process is RUNNING only while some CPU executes its thread, and from the moment its
      thread is put away until a scheduler chooses it again no CPU executes it: its kernel
      stack is in use by one CPU at a time. */
  lemma RunningMeansOnCpu(run: seq<State>, i: nat, p: nat)
    requires IsRun(run) && i < |run| && p < |run[i].st|
    ensures run[i].st[p] == RUNNING ==> exists c :: Sizes(run[i]) && On(run[i], c, p)
    ensures forall c, d | 0 <= c < |run[i].sched| && 0 <= d < |run[i].sched| ::
      Occupies(run[i].sched[c], p) && Occupies(run[i].sched[d], p) ==> c == d
  {
    RunInv(run, i);
    var s := run[i];
    if s.st[p] == RUNNING { assert On(s, s.home[p], p); }
  }

  /** lk excludes: two threads are never both inside it. */
  lemma LkExcludes(run: seq<State>, i: nat, p: nat, q: nat)
    requires IsRun(run) && i < |run| && p < |run[i].pc| && q < |run[i].pc|
    requires LkHeld(run[i].pc[p]) && LkHeld(run[i].pc[q])
    ensures p == q
  {
    RunInv(run, i);
    LkHolder(run[i], p, q);
  }
}
