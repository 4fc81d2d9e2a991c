/** fork, exit and wait of guest/xv6/kernel/proc.c over a process table of any size, with
    wait_lock and the per-process locks, interleaved at every point where a lock changes
    hands. CPUs are left anonymous here; SleepWakeup has them. */
module ProcessTree {
  import opened Options
  import opened Runs

  datatype PState = UNUSED | USED | SLEEPING | RUNNABLE | RUNNING | ZOMBIE

  /** Who holds a process's lock: a thread, or the scheduler that a thread switched to. */
  datatype Holder = NoOne | Thread(p: nat) | Scheduler

  datatype Pc =
    | Running
    | PauseSwitch                        // yield, or a sleep that is not wait's
    | Paused                             // resumes by releasing its own lock
    // fork
    | Forking(np: nat)                   // allocproc done, child's lock held
    | ForkLink(np: nat)                  // child's lock released
    | ForkLinked(np: nat)                // wait_lock held, parent set
    | ForkStart(np: nat)                 // wait_lock released
    // exit
    | Reparent(i: nat)                   // wait_lock held
    | ReparentWake(i: nat)               // child i handed to init, which is about to be woken
    | ExitWake                           // about to wake the parent
    | ExitLock                           // about to lock itself and become ZOMBIE
    | ExitRelease                        // ZOMBIE, wait_lock still held
    | ZombieSwitch
    | Dead
    // wait
    | WaitWant
    | Scan(i: nat, kids: bool)           // wait_lock held
    | ScanLocked(i: nat, kids: bool)     // and child i's lock
    | WaitLocking                        // no zombie found, in sleep(), about to lock itself
    | WaitLocked                         // both locks held
    | WaitMarking                        // wait_lock released
    | WaitSwitch
    | WaitResumed

  /** `chan[p]` says whether p sleeps on the channel wait uses, its own address. `maker` is
      the process that last allocated a slot, `born` counts a slot's processes, and `reaped`
      records those that wait has freed. */
  datatype State = State(
    init: nat, st: seq<PState>, chan: seq<bool>, parent: seq<Option<nat>>, killed: seq<bool>,
    plock: seq<Holder>, waitLock: Option<nat>, on: seq<bool>, pc: seq<Pc>,
    maker: seq<nat>, born: seq<nat>, reaped: set<(nat, nat)>)

  ghost predicate Sizes(s: State) {
    && s.init < |s.st|
    && |s.st| == |s.chan| == |s.parent| == |s.killed| == |s.plock| == |s.on| == |s.pc| == |s.maker| == |s.born|
  }

  predicate Alive(st: PState) { st == SLEEPING || st == RUNNABLE || st == RUNNING }
  predicate Started(st: PState) { Alive(st) || st == ZOMBIE }

  ghost predicate Init(s: State) {
    && Sizes(s)
    && (forall p | 0 <= p < |s.st| ::
          && s.st[p] == (if p == s.init then RUNNABLE else UNUSED) && s.pc[p] == Paused
          && s.parent[p] == None && s.plock[p] == NoOne && !s.on[p] && !s.chan[p])
    && s.waitLock == None && s.reaped == {}
  }

  // ---- running and pausing

  ghost predicate Dispatch(s: State, t: State, p: nat) requires Sizes(s) {
    && p < |s.st| && s.plock[p] == NoOne && s.st[p] == RUNNABLE
    && t == s.(st := s.st[p := RUNNING], on := s.on[p := true], plock := s.plock[p := Thread(p)])
  }

  ghost predicate Active(s: State, p: nat, pc: Pc) requires Sizes(s) {
    p < |s.st| && s.on[p] && s.pc[p] == pc
  }

  ghost predicate Pause(s: State, t: State, p: nat) requires Sizes(s) {
    && Active(s, p, Running) && s.plock[p] == NoOne && p < |t.st| && t.st[p] in {RUNNABLE, SLEEPING}
    && t == s.(st := s.st[p := t.st[p]], plock := s.plock[p := Thread(p)], pc := s.pc[p := PauseSwitch])
  }

  function Resumption(pc: Pc): Pc {
    if pc.WaitSwitch? then WaitResumed else if pc.ZombieSwitch? then Dead else Paused
  }

  /** swtch to the scheduler, which then releases the lock. */
  ghost predicate SwitchAway(s: State, t: State, p: nat) requires Sizes(s) {
    && p < |s.st| && s.on[p] && (s.pc[p].PauseSwitch? || s.pc[p].WaitSwitch? || s.pc[p].ZombieSwitch?)
    && t == s.(on := s.on[p := false], plock := s.plock[p := Scheduler], pc := s.pc[p := Resumption(s.pc[p])])
  }

  ghost predicate PutAway(s: State, t: State, p: nat) requires Sizes(s) {
    p < |s.st| && s.plock[p] == Scheduler && t == s.(plock := s.plock[p := NoOne])
  }

  ghost predicate Resume(s: State, t: State, p: nat) requires Sizes(s) {
    Active(s, p, Paused) && t == s.(plock := s.plock[p := NoOne], pc := s.pc[p := Running])
  }

  /** kill, or a wakeup on any channel. */
  ghost predicate Rouse(s: State, t: State, q: nat) requires Sizes(s) {
    && q < |s.st| && s.plock[q] == NoOne
    && t == s.(st := if s.st[q] == SLEEPING then s.st[q := RUNNABLE] else s.st, killed := t.killed)
    && |t.killed| == |s.killed|
  }

  // ---- fork

  ghost predicate ForkAlloc(s: State, t: State, p: nat, np: nat) requires Sizes(s) {
    && Active(s, p, Running) && np < |s.st| && s.plock[np] == NoOne && s.st[np] == UNUSED
    && t == s.(st := s.st[np := USED], plock := s.plock[np := Thread(p)], pc := s.pc[np := Paused][p := Forking(np)],
               maker := s.maker[np := p], born := s.born[np := s.born[np] + 1])
  }

  /** Memory runs out: freeproc and give up. */
  ghost predicate ForkFail(s: State, t: State, p: nat) requires Sizes(s) {
    && p < |s.st| && s.on[p] && s.pc[p].Forking? && s.pc[p].np < |s.st|
    && var np := s.pc[p].np;
       t == s.(st := s.st[np := UNUSED], parent := s.parent[np := None], plock := s.plock[np := NoOne], pc :=
         s.pc[p := Running])
  }

  ghost predicate ForkCopied(s: State, t: State, p: nat) requires Sizes(s) {
    && p < |s.st| && s.on[p] && s.pc[p].Forking? && s.pc[p].np < |s.st|
    && t == s.(plock := s.plock[s.pc[p].np := NoOne], pc := s.pc[p := ForkLink(s.pc[p].np)])
  }

  ghost predicate ForkSetParent(s: State, t: State, p: nat) requires Sizes(s) {
    && p < |s.st| && s.on[p] && s.pc[p].ForkLink? && s.pc[p].np < |s.st| && s.waitLock == None
    && t == s.(waitLock := Some(p), parent := s.parent[s.pc[p].np := Some(p)], pc := s.pc[p := ForkLinked(s.pc[p].np)])
  }

  ghost predicate ForkUnlock(s: State, t: State, p: nat) requires Sizes(s) {
    && p < |s.st| && s.on[p] && s.pc[p].ForkLinked?
    && t == s.(waitLock := None, pc := s.pc[p := ForkStart(s.pc[p].np)])
  }

  ghost predicate ForkRun(s: State, t: State, p: nat) requires Sizes(s) {
    && p < |s.st| && s.on[p] && s.pc[p].ForkStart? && s.pc[p].np < |s.st| && s.plock[s.pc[p].np] == NoOne
    && t == s.(st := s.st[s.pc[p].np := RUNNABLE], pc := s.pc[p := Running])
  }

  // ---- exit

  ghost predicate ExitStart(s: State, t: State, p: nat) requires Sizes(s) {
    && Active(s, p, Running) && p != s.init && s.waitLock == None
    && t == s.(waitLock := Some(p), pc := s.pc[p := Reparent(0)])
  }

  /** reparent finds a child; if not, it goes on to the next slot or ends. */
  ghost predicate ReparentChild(s: State, t: State, p: nat) requires Sizes(s) {
    && p < |s.st| && s.on[p] && s.pc[p].Reparent? && s.pc[p].i < |s.st| && s.parent[s.pc[p].i] == Some(p)
    && t == s.(parent := s.parent[s.pc[p].i := Some(s.init)], pc := s.pc[p := ReparentWake(s.pc[p].i)])
  }

  ghost predicate ReparentSkip(s: State, t: State, p: nat) requires Sizes(s) {
    && p < |s.st| && s.on[p] && s.pc[p].Reparent? && s.pc[p].i < |s.st| && s.parent[s.pc[p].i] != Some(p)
    && t == s.(pc := s.pc[p := Reparent(s.pc[p].i + 1)])
  }

  ghost predicate ReparentEnd(s: State, t: State, p: nat) requires Sizes(s) {
    && p < |s.st| && s.on[p] && s.pc[p].Reparent? && s.pc[p].i >= |s.st|
    && t == s.(pc := s.pc[p := ExitWake])
  }

  function Woken(s: State, q: nat): seq<PState> requires Sizes(s) && q < |s.st| {
    if s.st[q] == SLEEPING && s.chan[q] then s.st[q := RUNNABLE] else s.st
  }

  ghost predicate ExitWakeInit(s: State, t: State, p: nat) requires Sizes(s) {
    && p < |s.st| && s.on[p] && s.pc[p].ReparentWake? && s.plock[s.init] == NoOne
    && t == s.(st := Woken(s, s.init), pc := s.pc[p := Reparent(s.pc[p].i + 1)])
  }

  ghost predicate ExitWakeParent(s: State, t: State, p: nat) requires Sizes(s) {
    && Active(s, p, ExitWake)
    && if s.parent[p].Some? && s.parent[p].value < |s.st| then
         s.plock[s.parent[p].value] == NoOne && t == s.(st := Woken(s, s.parent[p].value), pc := s.pc[p := ExitLock])
       else t == s.(pc := s.pc[p := ExitLock])
  }

  ghost predicate ExitZombie(s: State, t: State, p: nat) requires Sizes(s) {
    && Active(s, p, ExitLock) && s.plock[p] == NoOne
    && t == s.(plock := s.plock[p := Thread(p)], st := s.st[p := ZOMBIE], pc := s.pc[p := ExitRelease])
  }

  ghost predicate ExitUnlock(s: State, t: State, p: nat) requires Sizes(s) {
    Active(s, p, ExitRelease) && t == s.(waitLock := None, pc := s.pc[p := ZombieSwitch])
  }

  // ---- wait

  ghost predicate WaitCall(s: State, t: State, p: nat) requires Sizes(s) {
    Active(s, p, Running) && t == s.(pc := s.pc[p := WaitWant])
  }

  ghost predicate WaitAcquire(s: State, t: State, p: nat) requires Sizes(s) {
    Active(s, p, WaitWant) && s.waitLock == None && t == s.(waitLock := Some(p), pc := s.pc[p := Scan(0, false)])
  }

  ghost predicate ScanChild(s: State, t: State, p: nat) requires Sizes(s) {
    && p < |s.st| && s.on[p] && s.pc[p].Scan? && s.pc[p].i < |s.st|
    && s.parent[s.pc[p].i] == Some(p) && s.plock[s.pc[p].i] == NoOne
    && t == s.(plock := s.plock[s.pc[p].i := Thread(p)], pc := s.pc[p := ScanLocked(s.pc[p].i, s.pc[p].kids)])
  }

  ghost predicate ScanSkip(s: State, t: State, p: nat) requires Sizes(s) {
    && p < |s.st| && s.on[p] && s.pc[p].Scan? && s.pc[p].i < |s.st| && s.parent[s.pc[p].i] != Some(p)
    && t == s.(pc := s.pc[p := Scan(s.pc[p].i + 1, s.pc[p].kids)])
  }

  ghost predicate ScanEnd(s: State, t: State, p: nat) requires Sizes(s) {
    && p < |s.st| && s.on[p] && s.pc[p].Scan? && s.pc[p].i >= |s.st|
    && if !s.pc[p].kids || s.killed[p] then t == s.(waitLock := None, pc := s.pc[p := Running])
       else t == s.(pc := s.pc[p := WaitLocking])
  }

  /** freeproc of a zombie child. */
  ghost predicate Reap(s: State, t: State, p: nat) requires Sizes(s) {
    && p < |s.st| && s.on[p] && s.pc[p].ScanLocked? && s.pc[p].i < |s.st| && s.st[s.pc[p].i] == ZOMBIE
    && var i := s.pc[p].i;
       t == s.(st := s.st[i := UNUSED], parent := s.parent[i := None], chan := s.chan[i := false],
               killed := s.killed[i := false], plock := s.plock[i := NoOne], waitLock := None,
               pc := s.pc[p := Running], reaped := s.reaped + {(i, s.born[i])})
  }

  /** A zombie whose status cannot be copied out is left, and wait returns -1. */
  ghost predicate WaitFault(s: State, t: State, p: nat) requires Sizes(s) {
    && p < |s.st| && s.on[p] && s.pc[p].ScanLocked? && s.pc[p].i < |s.st| && s.st[s.pc[p].i] == ZOMBIE
    && t == s.(plock := s.plock[s.pc[p].i := NoOne], waitLock := None, pc := s.pc[p := Running])
  }

  ghost predicate ScanOn(s: State, t: State, p: nat) requires Sizes(s) {
    && p < |s.st| && s.on[p] && s.pc[p].ScanLocked? && s.pc[p].i < |s.st| && s.st[s.pc[p].i] != ZOMBIE
    && t == s.(plock := s.plock[s.pc[p].i := NoOne], pc := s.pc[p := Scan(s.pc[p].i + 1, true)])
  }

  ghost predicate WaitLockSelf(s: State, t: State, p: nat) requires Sizes(s) {
    && Active(s, p, WaitLocking) && s.plock[p] == NoOne
    && t == s.(plock := s.plock[p := Thread(p)], pc := s.pc[p := WaitLocked])
  }

  ghost predicate WaitRelease(s: State, t: State, p: nat) requires Sizes(s) {
    Active(s, p, WaitLocked) && t == s.(waitLock := None, pc := s.pc[p := WaitMarking])
  }

  ghost predicate WaitMark(s: State, t: State, p: nat) requires Sizes(s) {
    && Active(s, p, WaitMarking)
    && t == s.(chan := s.chan[p := true], st := s.st[p := SLEEPING], pc := s.pc[p := WaitSwitch])
  }

  ghost predicate WaitBack(s: State, t: State, p: nat) requires Sizes(s) {
    && Active(s, p, WaitResumed)
    && t == s.(chan := s.chan[p := false], plock := s.plock[p := NoOne], pc := s.pc[p := WaitWant])
  }

  // ---- runs

  ghost predicate SwitchStep(s: State, t: State, p: nat) requires Sizes(s) {
    Dispatch(s, t, p) || Pause(s, t, p) || SwitchAway(s, t, p) || PutAway(s, t, p) || Resume(s, t, p) || Rouse(s, t, p)
  }

  ghost predicate ForkStep(s: State, t: State, p: nat) requires Sizes(s) {
    || (exists np: nat :: ForkAlloc(s, t, p, np)) || ForkFail(s, t, p) || ForkCopied(s, t, p)
    || ForkSetParent(s, t, p) || ForkUnlock(s, t, p) || ForkRun(s, t, p)
  }

  ghost predicate ExitStep(s: State, t: State, p: nat) requires Sizes(s) {
    || ExitStart(s, t, p) || ReparentChild(s, t, p) || ReparentSkip(s, t, p) || ReparentEnd(s, t, p)
    || ExitWakeInit(s, t, p) || ExitWakeParent(s, t, p) || ExitZombie(s, t, p) || ExitUnlock(s, t, p)
  }

  ghost predicate WaitStep(s: State, t: State, p: nat) requires Sizes(s) {
    || WaitCall(s, t, p) || WaitAcquire(s, t, p) || ScanChild(s, t, p) || ScanSkip(s, t, p) || ScanEnd(s, t, p)
    || Reap(s, t, p) || WaitFault(s, t, p) || ScanOn(s, t, p)
    || WaitLockSelf(s, t, p) || WaitRelease(s, t, p) || WaitMark(s, t, p) || WaitBack(s, t, p)
  }

  ghost predicate Next(s: State, t: State) {
    Sizes(s) && exists p: nat :: SwitchStep(s, t, p) || ForkStep(s, t, p) || ExitStep(s, t, p) || WaitStep(s, t, p)
  }

  ghost predicate IsRun(run: seq<State>) { RunOf(run, Init, Next) }

  // ---- the invariant

  predicate OwnLocked(pc: Pc) {
    || pc.PauseSwitch? || pc.Paused? || pc.ExitRelease? || pc.ZombieSwitch?
    || pc.WaitLocked? || pc.WaitMarking? || pc.WaitSwitch? || pc.WaitResumed?
  }

  predicate WaitLockHeld(pc: Pc) {
    || pc.ForkLinked? || pc.Reparent? || pc.ReparentWake? || pc.ExitWake? || pc.ExitLock? || pc.ExitRelease?
    || pc.Scan? || pc.ScanLocked? || pc.WaitLocking? || pc.WaitLocked?
  }

  predicate MakesChild(pc: Pc) { pc.Forking? || pc.ForkLink? || pc.ForkLinked? || pc.ForkStart? }

  predicate InExit(pc: Pc) {
    pc.Reparent? || pc.ReparentWake? || pc.ExitWake? || pc.ExitLock? || pc.ExitRelease? || pc.ZombieSwitch? || pc.Dead?
  }

  /** Every lock a thread believes it holds, it holds. */
  ghost predicate Locks(pc: seq<Pc>, on: seq<bool>, plock: seq<Holder>, waitLock: Option<nat>) {
    && |pc| == |on| == |plock|
    && forall p {:trigger pc[p]} | 0 <= p < |pc| && on[p] :: LocksOf(p, pc[p], plock, waitLock)
  }

  ghost predicate LocksOf(p: nat, pc: Pc, plock: seq<Holder>, waitLock: Option<nat>) {
    && p < |plock|
    && (OwnLocked(pc) ==> plock[p] == Thread(p))
    && (WaitLockHeld(pc) ==> waitLock == Some(p))
    && (pc.Forking? ==> pc.np < |plock| && plock[pc.np] == Thread(p))
    && (pc.ScanLocked? ==> pc.i < |plock| && plock[pc.i] == Thread(p))
  }

  /** The state of a process agrees with where its thread is. */
  ghost predicate States(st: seq<PState>, chan: seq<bool>, on: seq<bool>, pc: seq<Pc>) {
    && |st| == |on| == |pc| == |chan|
    && forall p {:trigger pc[p]} | 0 <= p < |st| :: StateOf(st[p], chan[p], on[p], pc[p])
  }

  predicate StateOf(st: PState, chan: bool, on: bool, pc: Pc) {
    && (chan ==> st != UNUSED && (pc.WaitSwitch? || pc.WaitResumed?))
    && if !on then
      match st
      case RUNNING => false
      case ZOMBIE => pc.Dead?
      case UNUSED => true
      case USED => pc.Paused?
      case _ => pc.Paused? || pc.WaitResumed?
    else
      match pc
      case PauseSwitch => st == RUNNABLE || st == SLEEPING
      case WaitSwitch => st == SLEEPING && chan
      case ExitRelease => st == ZOMBIE
      case ZombieSwitch => st == ZOMBIE
      case Dead => false
      case _ => st == RUNNING
  }

  /** A child under construction belongs to the one process that is constructing it. */
  ghost predicate Making(st: seq<PState>, on: seq<bool>, pc: seq<Pc>, maker: seq<nat>, parent: seq<Option<nat>>) {
    && |st| == |on| == |pc| == |maker| == |parent|
    && forall p {:trigger pc[p]} | 0 <= p < |pc| && on[p] && MakesChild(pc[p]) :: Makes(p, pc[p], st, maker, parent)
  }

  ghost predicate Makes(p: nat, pc: Pc, st: seq<PState>, maker: seq<nat>, parent: seq<Option<nat>>)
    requires MakesChild(pc) && |st| == |maker| == |parent|
  {
    && pc.np < |st| && st[pc.np] == USED && maker[pc.np] == p
    && (pc.ForkLinked? || pc.ForkStart? ==> parent[pc.np] == Some(p))
  }

  /** Parents are alive, and everyone started but init has one. */
  ghost predicate Tree(init: nat, st: seq<PState>, parent: seq<Option<nat>>) {
    && |st| == |parent| && init < |st| && Alive(st[init])
    && (forall j | 0 <= j < |st| && parent[j].Some? :: parent[j].value < |st| && Alive(st[parent[j].value]))
    && (forall j | 0 <= j < |st| && Started(st[j]) && j != init :: parent[j].Some?)
    && (forall j | 0 <= j < |st| && st[j] == UNUSED :: parent[j] == None)
  }

  /** An exiting process has handed its children over, as far as its loop has come. */
  ghost predicate HandedOver(init: nat, on: seq<bool>, pc: seq<Pc>, parent: seq<Option<nat>>) {
    && |on| == |pc| == |parent| && init < |pc| && (on[init] ==> !InExit(pc[init]))
    && forall p {:trigger pc[p]} | 0 <= p < |pc| && on[p] && InExit(pc[p]) ::
        NoChildBelow(p, HandedUpTo(pc[p], |pc|), parent)
  }

  ghost predicate NoChildBelow(p: nat, limit: nat, parent: seq<Option<nat>>) {
    forall j | 0 <= j < limit && j < |parent| :: parent[j] != Some(p)
  }

  function HandedUpTo(pc: Pc, n: nat): nat {
    if pc.Reparent? then pc.i else if pc.ReparentWake? then pc.i + 1 else n
  }

  /** A scan in wait has seen no zombie so far. */
  ghost predicate Scanned(st: seq<PState>, on: seq<bool>, pc: seq<Pc>, parent: seq<Option<nat>>) {
    && |st| == |on| == |pc| == |parent|
    && forall p {:trigger pc[p]} | 0 <= p < |pc| && on[p] && Scans(pc[p]) ::
        NoZombieBelow(p, ScannedUpTo(pc[p], |pc|), st, parent)
  }

  predicate Scans(pc: Pc) { pc.Scan? || pc.ScanLocked? || pc.WaitLocking? || pc.WaitLocked? }

  ghost predicate NoZombieBelow(p: nat, limit: nat, st: seq<PState>, parent: seq<Option<nat>>) {
    |st| == |parent| && forall j | 0 <= j < limit && j < |parent| && parent[j] == Some(p) :: st[j] != ZOMBIE
  }

  function ScannedUpTo(pc: Pc, n: nat): nat { if pc.Scan? || pc.ScanLocked? then pc.i else n }

  /** Asleep in wait, or past the point of no return on the way there. */
  predicate Going(st: PState, chan: bool, pc: Pc) { (st == SLEEPING && chan) || pc.WaitMarking? }

  /** The zombie, if any, that an exiting process has just handed to init and is about to
      wake init for. */
  function InHand(on: seq<bool>, pc: seq<Pc>, waitLock: Option<nat>): Option<nat> {
    if waitLock.Some? && waitLock.value < |on| && waitLock.value < |pc| && on[waitLock.value]
      && pc[waitLock.value].ReparentWake?
    then Some(pc[waitLock.value].i) else None
  }

  /** A parent in or on its way to sleep in wait has no zombie child but the one in hand. */
  ghost predicate NotLost(init: nat, st: seq<PState>, chan: seq<bool>, on: seq<bool>, pc: seq<Pc>,
      parent: seq<Option<nat>>, hand: Option<nat>) {
    && |st| == |chan| == |on| == |pc| == |parent|
    && forall j {:trigger parent[j]} | 0 <= j < |st| && parent[j].Some? && parent[j].value < |st| ::
         var q := parent[j].value;
         && (st[j] == ZOMBIE && Going(st[q], chan[q], pc[q]) ==> hand == Some(j) && q == init)
         && (on[j] && pc[j].ExitLock? ==> !Going(st[q], chan[q], pc[q]))
  }

  ghost predicate Reaping(st: seq<PState>, born: seq<nat>, reaped: set<(nat, nat)>) {
    && |st| == |born|
    && (forall p | 0 <= p < |st| && st[p] != UNUSED :: (p, born[p]) !in reaped)
    && (forall p, k | (p, k) in reaped :: p < |st| && k <= born[p])
  }

  ghost predicate Control(s: State) {
    && Sizes(s)
    && Locks(s.pc, s.on, s.plock, s.waitLock)
    && States(s.st, s.chan, s.on, s.pc)
    && Making(s.st, s.on, s.pc, s.maker, s.parent)
  }

  ghost predicate Family(s: State) {
    && Tree(s.init, s.st, s.parent)
    && HandedOver(s.init, s.on, s.pc, s.parent)
    && Reaping(s.st, s.born, s.reaped)
  }

  ghost predicate Sleepers(s: State) {
    && NotLost(s.init, s.st, s.chan, s.on, s.pc, s.parent, InHand(s.on, s.pc, s.waitLock))
    && Scanned(s.st, s.on, s.pc, s.parent)
  }

  ghost predicate Inv(s: State) { Control(s) && Family(s) && Sleepers(s) }

  lemma InitInv(s: State)
    requires Init(s)
    ensures Inv(s)
  {
  }

  // ---- every step keeps it

  /** Thread p may take a free lock or give up one of its own. */
  ghost predicate Transfers(p: nat, plock: seq<Holder>, plock': seq<Holder>, waitLock: Option<nat>,
      waitLock': Option<nat>) {
    && |plock'| == |plock|
    && (forall k | 0 <= k < |plock| :: plock'[k] == plock[k] || plock[k] == Thread(p) || !plock[k].Thread?)
    && (waitLock' == waitLock || waitLock == None || waitLock == Some(p))
  }

  lemma LocksMove(pc: seq<Pc>, on: seq<bool>, plock: seq<Holder>, waitLock: Option<nat>,
                  p: nat, x: Pc, v: bool, plock': seq<Holder>, waitLock': Option<nat>)
    requires Locks(pc, on, plock, waitLock) && p < |pc| && Transfers(p, plock, plock', waitLock, waitLock')
    requires v ==> LocksOf(p, x, plock', waitLock')
    ensures Locks(pc[p := x], on[p := v], plock', waitLock')
  {
    var pc', on' := pc[p := x], on[p := v];
    forall q | 0 <= q < |pc'| && on'[q] ensures LocksOf(q, pc'[q], plock', waitLock') {
      if q != p { assert LocksOf(q, pc[q], plock, waitLock); }
    }
  }

  /** A step of thread p that changes only where it stands and which locks it holds. */
  ghost predicate PcOnly(s: State, t: State, p: nat) requires Sizes(s) && p < |s.st| {
    && |t.pc| == |s.pc|
    && t == s.(pc := s.pc[p := t.pc[p]], plock := t.plock, waitLock := t.waitLock)
    && Transfers(p, s.plock, t.plock, s.waitLock, t.waitLock)
    && s.on[p] && LocksOf(p, t.pc[p], t.plock, t.waitLock)
    && StateOf(s.st[p], s.chan[p], true, t.pc[p])
    && !s.pc[p].ReparentWake? && !t.pc[p].ReparentWake?
  }

  /** What the new place of thread p claims about the rest of the table. */
  ghost predicate Claims(s: State, p: nat, x: Pc) requires Sizes(s) && p < |s.st| {
    && (MakesChild(x) ==> Makes(p, x, s.st, s.maker, s.parent))
    && (InExit(x) ==> p != s.init && NoChildBelow(p, HandedUpTo(x, |s.pc|), s.parent))
    && (Scans(x) ==> NoZombieBelow(p, ScannedUpTo(x, |s.pc|), s.st, s.parent))
    && (x.WaitMarking? ==> NoZombieBelow(p, |s.pc|, s.st, s.parent))
    && (x.WaitMarking? ==> WaitLockHeld(s.pc[p]))
    && (x.ExitLock? && s.parent[p].Some? && s.parent[p].value < |s.st| ==>
          !Going(s.st[s.parent[p].value], s.chan[s.parent[p].value], s.pc[s.parent[p].value]))
  }

  lemma NextNotChild(p: nat, i: nat, parent: seq<Option<nat>>)
    requires NoChildBelow(p, i, parent) && i < |parent| && parent[i] != Some(p)
    ensures NoChildBelow(p, i + 1, parent)
  {
  }

  lemma NextNotZombie(p: nat, i: nat, st: seq<PState>, parent: seq<Option<nat>>)
    requires NoZombieBelow(p, i, st, parent) && i < |parent| && (parent[i] != Some(p) || st[i] != ZOMBIE)
    ensures NoZombieBelow(p, i + 1, st, parent)
  {
  }

  lemma PcOnlyControl(s: State, t: State, p: nat)
    requires Control(s) && p < |s.st| && PcOnly(s, t, p) && Claims(s, p, t.pc[p])
    ensures Control(t)
  {
    LocksMove(s.pc, s.on, s.plock, s.waitLock, p, t.pc[p], true, t.plock, t.waitLock);
    assert s.on[p := true] == s.on;
  }

  lemma PcOnlyHand(s: State, t: State, p: nat)
    requires Control(s) && p < |s.st| && PcOnly(s, t, p)
    ensures InHand(t.on, t.pc, t.waitLock) == InHand(s.on, s.pc, s.waitLock)
  {
  }

  lemma PcOnlySleepers(s: State, t: State, p: nat)
    requires Control(s) && Sleepers(s) && p < |s.st| && PcOnly(s, t, p) && Claims(s, p, t.pc[p])
    ensures Sleepers(t)
  {
    PcOnlyHand(s, t, p);
    forall j | 0 <= j < |t.st| && t.parent[j].Some? && t.parent[j].value < |t.st|
      ensures var q := t.parent[j].value;
        && (t.st[j] == ZOMBIE && Going(t.st[q], t.chan[q], t.pc[q]) ==>
            InHand(s.on, s.pc, s.waitLock) == Some(j) && q == t.init)
        && (t.on[j] && t.pc[j].ExitLock? ==> !Going(t.st[q], t.chan[q], t.pc[q]))
    {
      assert s.parent[j] == t.parent[j];
      if t.parent[j].value == p && t.pc[p].WaitMarking? { PcOnlyNoExit(s, t, p, j); }
    }
  }

  /** No child is about to become a zombie while its parent holds wait_lock. */
  lemma PcOnlyNoExit(s: State, t: State, p: nat, j: nat)
    requires Control(s) && p < |s.st| && PcOnly(s, t, p) && j < |s.st| && t.pc[p].WaitMarking? && WaitLockHeld(s.pc[p])
    ensures !(t.on[j] && t.pc[j].ExitLock?)
  {
  }

  lemma PcOnlyInv(s: State, t: State, p: nat)
    requires Inv(s) && p < |s.st| && PcOnly(s, t, p) && Claims(s, p, t.pc[p])
    ensures Inv(t)
  {
    PcOnlyControl(s, t, p);
    PcOnlySleepers(s, t, p);
  }

  lemma ResumeInv(s: State, t: State, p: nat)
    requires Inv(s) && Resume(s, t, p)
    ensures Inv(t)
  {
    ResumeMoves(s, t, p);
    PcOnlyInv(s, t, p);
  }

  lemma ResumeMoves(s: State, t: State, p: nat)
    requires Control(s) && Resume(s, t, p)
    ensures PcOnly(s, t, p)
  {
    assert LocksOf(p, s.pc[p], s.plock, s.waitLock) && StateOf(s.st[p], s.chan[p], s.on[p], s.pc[p]);
  }

  lemma ForkCopiedInv(s: State, t: State, p: nat)
    requires Inv(s) && ForkCopied(s, t, p)
    ensures Inv(t)
  {
    PcOnlyInv(s, t, p);
  }

  lemma ForkUnlockInv(s: State, t: State, p: nat)
    requires Inv(s) && ForkUnlock(s, t, p)
    ensures Inv(t)
  {
    PcOnlyInv(s, t, p);
  }

  lemma ExitStartInv(s: State, t: State, p: nat)
    requires Inv(s) && ExitStart(s, t, p)
    ensures Inv(t)
  {
    PcOnlyInv(s, t, p);
  }

  lemma ReparentSkipInv(s: State, t: State, p: nat)
    requires Inv(s) && ReparentSkip(s, t, p)
    ensures Inv(t)
  {
    NextNotChild(p, s.pc[p].i, s.parent);
    PcOnlyInv(s, t, p);
  }

  lemma ReparentEndInv(s: State, t: State, p: nat)
    requires Inv(s) && ReparentEnd(s, t, p)
    ensures Inv(t)
  {
    PcOnlyInv(s, t, p);
  }

  lemma ExitUnlockInv(s: State, t: State, p: nat)
    requires Inv(s) && ExitUnlock(s, t, p)
    ensures Inv(t)
  {
    PcOnlyInv(s, t, p);
  }

  lemma WaitCallInv(s: State, t: State, p: nat)
    requires Inv(s) && WaitCall(s, t, p)
    ensures Inv(t)
  {
    PcOnlyInv(s, t, p);
  }

  lemma WaitAcquireInv(s: State, t: State, p: nat)
    requires Inv(s) && WaitAcquire(s, t, p)
    ensures Inv(t)
  {
    PcOnlyInv(s, t, p);
  }

  lemma ScanChildInv(s: State, t: State, p: nat)
    requires Inv(s) && ScanChild(s, t, p)
    ensures Inv(t)
  {
    PcOnlyInv(s, t, p);
  }

  lemma ScanSkipInv(s: State, t: State, p: nat)
    requires Inv(s) && ScanSkip(s, t, p)
    ensures Inv(t)
  {
    ScanSkipMoves(s, t, p);
    NextNotZombie(p, s.pc[p].i, s.st, s.parent);
    PcOnlyInv(s, t, p);
  }

  lemma ScanSkipMoves(s: State, t: State, p: nat)
    requires Control(s) && ScanSkip(s, t, p)
    ensures PcOnly(s, t, p)
  {
    assert LocksOf(p, s.pc[p], s.plock, s.waitLock) && StateOf(s.st[p], s.chan[p], s.on[p], s.pc[p]);
  }

  lemma ScanEndInv(s: State, t: State, p: nat)
    requires Inv(s) && ScanEnd(s, t, p)
    ensures Inv(t)
  {
    ScanEndMoves(s, t, p);
    assert NoZombieBelow(p, ScannedUpTo(s.pc[p], |s.pc|), s.st, s.parent);
    PcOnlyInv(s, t, p);
  }

  lemma ScanEndMoves(s: State, t: State, p: nat)
    requires Control(s) && ScanEnd(s, t, p)
    ensures PcOnly(s, t, p)
  {
    assert LocksOf(p, s.pc[p], s.plock, s.waitLock) && StateOf(s.st[p], s.chan[p], s.on[p], s.pc[p]);
  }

  lemma WaitFaultInv(s: State, t: State, p: nat)
    requires Inv(s) && WaitFault(s, t, p)
    ensures Inv(t)
  {
    WaitFaultMoves(s, t, p);
    PcOnlyInv(s, t, p);
  }

  lemma WaitFaultMoves(s: State, t: State, p: nat)
    requires Control(s) && WaitFault(s, t, p)
    ensures PcOnly(s, t, p)
  {
    assert LocksOf(p, s.pc[p], s.plock, s.waitLock) && StateOf(s.st[p], s.chan[p], s.on[p], s.pc[p]);
  }

  lemma ScanOnInv(s: State, t: State, p: nat)
    requires Inv(s) && ScanOn(s, t, p)
    ensures Inv(t)
  {
    ScanOnMoves(s, t, p);
    NextNotZombie(p, s.pc[p].i, s.st, s.parent);
    PcOnlyInv(s, t, p);
  }

  lemma ScanOnMoves(s: State, t: State, p: nat)
    requires Control(s) && ScanOn(s, t, p)
    ensures PcOnly(s, t, p)
  {
    assert LocksOf(p, s.pc[p], s.plock, s.waitLock) && StateOf(s.st[p], s.chan[p], s.on[p], s.pc[p]);
  }

  lemma WaitLockSelfInv(s: State, t: State, p: nat)
    requires Inv(s) && WaitLockSelf(s, t, p)
    ensures Inv(t)
  {
    PcOnlyInv(s, t, p);
  }

  lemma WaitReleaseInv(s: State, t: State, p: nat)
    requires Inv(s) && WaitRelease(s, t, p)
    ensures Inv(t)
  {
    PcOnlyInv(s, t, p);
  }

  lemma PutAwayInv(s: State, t: State, p: nat)
    requires Inv(s) && PutAway(s, t, p)
    ensures Inv(t)
  {
  }

  /** Waking q leaves it neither asleep in wait nor on its way there. */
  lemma WokenInv(s: State, q: nat, u: State)
    requires Inv(s) && q < |s.st| && s.plock[q] == NoOne && Alive(s.st[q]) && u == s.(st := Woken(s, q))
    ensures Inv(u) && !Going(u.st[q], u.chan[q], u.pc[q])
  {
    NotMarking(s, q);
    if s.st[q] == SLEEPING && s.chan[q] { RouseInv(s, u, q); }
  }

  lemma NotMarking(s: State, q: nat)
    requires Control(s) && q < |s.st| && s.plock[q] == NoOne && Alive(s.st[q])
    ensures !s.pc[q].WaitMarking?
  {
    assert StateOf(s.st[q], s.chan[q], s.on[q], s.pc[q]);
    if s.on[q] { assert LocksOf(q, s.pc[q], s.plock, s.waitLock); }
  }

  lemma ExitWakeParentInv(s: State, t: State, p: nat)
    requires Inv(s) && ExitWakeParent(s, t, p)
    ensures Inv(t)
  {
    assert s.parent[p].Some? && s.parent[p].value < |s.st|;
    var u := s.(st := Woken(s, s.parent[p].value));
    WokenInv(s, s.parent[p].value, u);
    ExitWakeMoves(u, t, p);
    PcOnlyInv(u, t, p);
  }

  lemma ExitWakeMoves(u: State, t: State, p: nat)
    requires Control(u) && Active(u, p, ExitWake) && t == u.(pc := u.pc[p := ExitLock])
    ensures PcOnly(u, t, p)
  {
    assert LocksOf(p, u.pc[p], u.plock, u.waitLock) && StateOf(u.st[p], u.chan[p], u.on[p], u.pc[p]);
  }

  lemma ExitWakeInitInv(s: State, t: State, p: nat)
    requires Inv(s) && ExitWakeInit(s, t, p)
    ensures Inv(t)
  {
    var u := s.(st := Woken(s, s.init));
    assert t == u.(pc := u.pc[p := Reparent(u.pc[p].i + 1)]);
    WokenInv(s, s.init, u);
    HandInv(u, t, p);
  }

  lemma HandInv(u: State, t: State, p: nat)
    requires Inv(u) && p < |u.st| && u.on[p] && u.pc[p].ReparentWake?
    requires !Going(u.st[u.init], u.chan[u.init], u.pc[u.init])
    requires t == u.(pc := u.pc[p := Reparent(u.pc[p].i + 1)])
    ensures Inv(t)
  {
    HandNext(u, t, p);
    HandDone(u, t, p);
  }

  lemma HandNext(u: State, t: State, p: nat)
    requires Control(u) && p < |u.st| && u.on[p] && u.pc[p].ReparentWake?
    requires t == u.(pc := u.pc[p := Reparent(u.pc[p].i + 1)])
    ensures Control(t)
  {
    LocksMove(u.pc, u.on, u.plock, u.waitLock, p, t.pc[p], true, u.plock, u.waitLock);
    assert u.on[p := true] == u.on;
  }

  /** With init awake, the zombie handed to it needs no exception. */
  lemma HandDone(u: State, t: State, p: nat)
    requires Inv(u) && p < |u.st| && u.on[p] && u.pc[p].ReparentWake?
    requires !Going(u.st[u.init], u.chan[u.init], u.pc[u.init])
    requires t == u.(pc := u.pc[p := Reparent(u.pc[p].i + 1)])
    ensures Family(t) && Sleepers(t)
  {
  }

  lemma RouseInv(s: State, t: State, q: nat)
    requires Inv(s) && Rouse(s, t, q)
    ensures Inv(t)
  {
    if s.st[q] == SLEEPING { RousedControl(s, t, q); }
  }

  lemma RousedControl(s: State, t: State, q: nat)
    requires Control(s) && Rouse(s, t, q) && s.st[q] == SLEEPING
    ensures Control(t)
  {
  }

  /** A step that changes thread p's own state and place, and no one's parent. */
  ghost predicate OwnOnly(s: State, t: State, p: nat) requires Sizes(s) && p < |s.st| {
    && |t.st| == |t.chan| == |t.on| == |t.pc| == |s.st|
    && t == s.(st := s.st[p := t.st[p]], chan := s.chan[p := t.chan[p]], on := s.on[p := t.on[p]],
               pc := s.pc[p := t.pc[p]], plock := t.plock)
    && Alive(s.st[p]) == Alive(t.st[p]) && (t.st[p] == ZOMBIE <==> s.st[p] == ZOMBIE) && t.st[p] != UNUSED
    && (Going(t.st[p], t.chan[p], t.pc[p]) ==> Going(s.st[p], s.chan[p], s.pc[p]))
    && !s.pc[p].ReparentWake? && !t.pc[p].ReparentWake?
    && (t.on[p] ==> !InExit(t.pc[p]) && !Scans(t.pc[p]))
  }

  lemma OwnOnlyHand(s: State, t: State, p: nat)
    requires Sizes(s) && p < |s.st| && OwnOnly(s, t, p)
    ensures InHand(t.on, t.pc, t.waitLock) == InHand(s.on, s.pc, s.waitLock)
  {
  }

  lemma OwnOnlySleepers(s: State, t: State, p: nat)
    requires Control(s) && Sleepers(s) && p < |s.st| && OwnOnly(s, t, p)
    ensures Sleepers(t)
  {
    OwnOnlyHand(s, t, p);
    forall q | 0 <= q < |t.pc| && t.on[q] && Scans(t.pc[q])
      ensures NoZombieBelow(q, ScannedUpTo(t.pc[q], |t.pc|), t.st, t.parent)
    {
      assert NoZombieBelow(q, ScannedUpTo(s.pc[q], |s.pc|), s.st, s.parent);
    }
  }

  lemma OwnOnlyFamily(s: State, t: State, p: nat)
    requires Control(s) && Family(s) && p < |s.st| && OwnOnly(s, t, p) && s.st[p] != UNUSED
    ensures Family(t)
  {
    assert HandedOver(t.init, t.on, t.pc, t.parent);
    assert Tree(t.init, t.st, t.parent);
  }

  lemma DispatchControl(s: State, t: State, p: nat)
    requires Control(s) && Dispatch(s, t, p)
    ensures Control(t)
  {
    LocksMove(s.pc, s.on, s.plock, s.waitLock, p, t.pc[p], t.on[p], t.plock, t.waitLock);
  }

  lemma DispatchFamily(s: State, t: State, p: nat)
    requires Inv(s) && Dispatch(s, t, p)
    ensures Family(t)
  {
    DispatchOwn(s, t, p);
    OwnOnlyFamily(s, t, p);
  }

  lemma DispatchOwn(s: State, t: State, p: nat)
    requires Control(s) && Dispatch(s, t, p)
    ensures OwnOnly(s, t, p)
  {
    assert StateOf(s.st[p], s.chan[p], s.on[p], s.pc[p]);
  }

  lemma DispatchSleepers(s: State, t: State, p: nat)
    requires Inv(s) && Dispatch(s, t, p)
    ensures Sleepers(t)
  {
    DispatchOwn(s, t, p);
    OwnOnlySleepers(s, t, p);
  }

  lemma PauseControl(s: State, t: State, p: nat)
    requires Control(s) && Pause(s, t, p)
    ensures Control(t)
  {
    LocksMove(s.pc, s.on, s.plock, s.waitLock, p, t.pc[p], t.on[p], t.plock, t.waitLock);
  }

  lemma PauseFamily(s: State, t: State, p: nat)
    requires Inv(s) && Pause(s, t, p)
    ensures Family(t)
  {
    OwnOnlyFamily(s, t, p);
  }

  lemma PauseSleepers(s: State, t: State, p: nat)
    requires Inv(s) && Pause(s, t, p)
    ensures Sleepers(t)
  {
    OwnOnlySleepers(s, t, p);
  }

  lemma SwitchAwayControl(s: State, t: State, p: nat)
    requires Control(s) && SwitchAway(s, t, p)
    ensures Control(t)
  {
    LocksMove(s.pc, s.on, s.plock, s.waitLock, p, t.pc[p], t.on[p], t.plock, t.waitLock);
  }

  lemma SwitchAwayFamily(s: State, t: State, p: nat)
    requires Inv(s) && SwitchAway(s, t, p)
    ensures Family(t)
  {
    OwnOnlyFamily(s, t, p);
  }

  lemma SwitchAwaySleepers(s: State, t: State, p: nat)
    requires Inv(s) && SwitchAway(s, t, p)
    ensures Sleepers(t)
  {
    OwnOnlySleepers(s, t, p);
  }

  lemma ForkFailControl(s: State, t: State, p: nat)
    requires Control(s) && ForkFail(s, t, p)
    ensures Control(t)
  {
    LocksMove(s.pc, s.on, s.plock, s.waitLock, p, t.pc[p], t.on[p], t.plock, t.waitLock);
  }

  lemma ForkFailFamily(s: State, t: State, p: nat)
    requires Inv(s) && ForkFail(s, t, p)
    ensures Family(t)
  {
    assert Makes(p, s.pc[p], s.st, s.maker, s.parent);
    DroppedTree(s.init, s.st, s.parent, s.pc[p].np);
  }

  /** A process that is not alive is nobody's parent, so nothing hangs on it. */
  lemma DroppedTree(init: nat, st: seq<PState>, parent: seq<Option<nat>>, i: nat)
    requires Tree(init, st, parent) && i < |st| && !Alive(st[i])
    ensures Tree(init, st[i := UNUSED], parent[i := None])
  {
  }

  lemma ForkFailSleepers(s: State, t: State, p: nat)
    requires Control(s) && Sleepers(s) && ForkFail(s, t, p)
    ensures Sleepers(t)
  {
    assert Makes(p, s.pc[p], s.st, s.maker, s.parent);
  }

  lemma ForkSetParentControl(s: State, t: State, p: nat)
    requires Control(s) && ForkSetParent(s, t, p)
    ensures Control(t)
  {
    LocksMove(s.pc, s.on, s.plock, s.waitLock, p, t.pc[p], t.on[p], t.plock, t.waitLock);
  }

  lemma ForkSetParentFamily(s: State, t: State, p: nat)
    requires Inv(s) && ForkSetParent(s, t, p)
    ensures Family(t)
  {
  }

  lemma ForkSetParentSleepers(s: State, t: State, p: nat)
    requires Inv(s) && ForkSetParent(s, t, p)
    ensures Sleepers(t)
  {
  }

  lemma ForkRunControl(s: State, t: State, p: nat)
    requires Control(s) && ForkRun(s, t, p)
    ensures Control(t)
  {
    LocksMove(s.pc, s.on, s.plock, s.waitLock, p, t.pc[p], t.on[p], t.plock, t.waitLock);
  }

  lemma ForkRunFamily(s: State, t: State, p: nat)
    requires Inv(s) && ForkRun(s, t, p)
    ensures Family(t)
  {
    assert Makes(p, s.pc[p], s.st, s.maker, s.parent);
    StartedTree(s.init, s.st, s.parent, s.pc[p].np);
  }

  lemma StartedTree(init: nat, st: seq<PState>, parent: seq<Option<nat>>, np: nat)
    requires Tree(init, st, parent) && np < |st| && st[np] == USED && parent[np].Some?
    ensures Tree(init, st[np := RUNNABLE], parent)
  {
  }

  lemma ForkRunSleepers(s: State, t: State, p: nat)
    requires Control(s) && Sleepers(s) && ForkRun(s, t, p)
    ensures Sleepers(t)
  {
    assert Makes(p, s.pc[p], s.st, s.maker, s.parent);
    assert InHand(t.on, t.pc, t.waitLock) == InHand(s.on, s.pc, s.waitLock);
    StartedLate(s.init, s.st, s.chan, s.on, s.pc, s.parent, InHand(s.on, s.pc, s.waitLock), p, s.pc[p].np);
  }

  /** A new process is neither a zombie nor on its way to sleep. */
  lemma StartedLate(init: nat, st: seq<PState>, chan: seq<bool>, on: seq<bool>, pc: seq<Pc>,
      parent: seq<Option<nat>>, hand: Option<nat>, p: nat, np: nat)
    requires NotLost(init, st, chan, on, pc, parent, hand) && p < |st| && np < |st| && !pc[p].WaitMarking?
    requires st[np] == USED
    ensures NotLost(init, st[np := RUNNABLE], chan, on, pc[p := Running], parent, hand)
  {
  }

  lemma ReparentChildControl(s: State, t: State, p: nat)
    requires Control(s) && ReparentChild(s, t, p)
    ensures Control(t)
  {
    LocksMove(s.pc, s.on, s.plock, s.waitLock, p, t.pc[p], t.on[p], t.plock, t.waitLock);
  }

  lemma ReparentChildFamily(s: State, t: State, p: nat)
    requires Inv(s) && ReparentChild(s, t, p)
    ensures Family(t)
  {
  }

  lemma ReparentChildSleepers(s: State, t: State, p: nat)
    requires Inv(s) && ReparentChild(s, t, p)
    ensures Sleepers(t)
  {
  }

  lemma ExitZombieControl(s: State, t: State, p: nat)
    requires Control(s) && ExitZombie(s, t, p)
    ensures Control(t)
  {
    LocksMove(s.pc, s.on, s.plock, s.waitLock, p, t.pc[p], t.on[p], t.plock, t.waitLock);
  }

  lemma ExitZombieFamily(s: State, t: State, p: nat)
    requires Inv(s) && ExitZombie(s, t, p)
    ensures Family(t)
  {
  }

  lemma ExitZombieSleepers(s: State, t: State, p: nat)
    requires Inv(s) && ExitZombie(s, t, p)
    ensures Sleepers(t)
  {
  }

  lemma ReapControl(s: State, t: State, p: nat)
    requires Control(s) && Reap(s, t, p)
    ensures Control(t)
  {
    LocksMove(s.pc, s.on, s.plock, s.waitLock, p, t.pc[p], t.on[p], t.plock, t.waitLock);
  }

  lemma ReapRecord(s: State, t: State, p: nat)
    requires Sizes(s) && Reaping(s.st, s.born, s.reaped) && Reap(s, t, p)
    ensures Reaping(t.st, t.born, t.reaped)
  {
  }

  lemma ReapFamily(s: State, t: State, p: nat)
    requires Inv(s) && Reap(s, t, p)
    ensures Family(t)
  {
    DroppedTree(s.init, s.st, s.parent, s.pc[p].i);
    ReapRecord(s, t, p);
    forall q | 0 <= q < |t.pc| && t.on[q] && InExit(t.pc[q])
      ensures NoChildBelow(q, HandedUpTo(t.pc[q], |t.pc|), t.parent)
    {
      assert NoChildBelow(q, HandedUpTo(s.pc[q], |s.pc|), s.parent);
    }
  }

  lemma ReapSleepers(s: State, t: State, p: nat)
    requires Inv(s) && Reap(s, t, p)
    ensures Sleepers(t)
  {
  }

  lemma WaitMarkControl(s: State, t: State, p: nat)
    requires Control(s) && WaitMark(s, t, p)
    ensures Control(t)
  {
    LocksMove(s.pc, s.on, s.plock, s.waitLock, p, t.pc[p], t.on[p], t.plock, t.waitLock);
  }

  lemma WaitMarkFamily(s: State, t: State, p: nat)
    requires Inv(s) && WaitMark(s, t, p)
    ensures Family(t)
  {
    OwnOnlyFamily(s, t, p);
  }

  lemma WaitMarkSleepers(s: State, t: State, p: nat)
    requires Inv(s) && WaitMark(s, t, p)
    ensures Sleepers(t)
  {
    OwnOnlySleepers(s, t, p);
  }

  lemma WaitBackControl(s: State, t: State, p: nat)
    requires Control(s) && WaitBack(s, t, p)
    ensures Control(t)
  {
    LocksMove(s.pc, s.on, s.plock, s.waitLock, p, t.pc[p], t.on[p], t.plock, t.waitLock);
  }

  lemma WaitBackFamily(s: State, t: State, p: nat)
    requires Inv(s) && WaitBack(s, t, p)
    ensures Family(t)
  {
    OwnOnlyFamily(s, t, p);
  }

  lemma WaitBackSleepers(s: State, t: State, p: nat)
    requires Inv(s) && WaitBack(s, t, p)
    ensures Sleepers(t)
  {
    OwnOnlySleepers(s, t, p);
  }

  /** A free slot's old place can be forgotten. */
  lemma ForgetPlace(s: State, np: nat)
    requires Inv(s) && np < |s.st| && s.st[np] == UNUSED
    ensures Inv(s.(pc := s.pc[np := Paused])) && !s.on[np]
  {
    assert StateOf(s.st[np], s.chan[np], s.on[np], s.pc[np]);
    assert !s.on[np];
  }

  /** The slot np, marked in use by p but not yet recorded as p's work. */
  function Claimed(s: State, p: nat, np: nat): State requires Sizes(s) && np < |s.st| {
    s.(st := s.st[np := USED], plock := s.plock[np := Thread(p)],
       maker := s.maker[np := p], born := s.born[np := s.born[np] + 1])
  }

  lemma ClaimedControl(s: State, p: nat, np: nat)
    requires Control(s) && p < |s.st| && np < |s.st| && s.plock[np] == NoOne && s.st[np] == UNUSED
    requires s.pc[np] == Paused && !s.on[np] && Active(s, p, Running)
    ensures Control(Claimed(s, p, np))
  {
    LocksMove(s.pc, s.on, s.plock, s.waitLock, p, s.pc[p], true, s.plock[np := Thread(p)], s.waitLock);
    assert s.on[p := true] == s.on && s.pc[p := s.pc[p]] == s.pc;
  }

  lemma ClaimedFamily(s: State, p: nat, np: nat)
    requires Family(s) && Sizes(s) && np < |s.st| && s.st[np] == UNUSED
    ensures Family(Claimed(s, p, np))
  {
  }

  lemma ClaimedSleepers(s: State, p: nat, np: nat)
    requires Family(s) && Sleepers(s) && Sizes(s) && np < |s.st| && s.st[np] == UNUSED
    ensures Sleepers(Claimed(s, p, np))
  {
    var t := Claimed(s, p, np);
    forall q | 0 <= q < |t.pc| && t.on[q] && Scans(t.pc[q])
      ensures NoZombieBelow(q, ScannedUpTo(t.pc[q], |t.pc|), t.st, t.parent)
    {
      assert NoZombieBelow(q, ScannedUpTo(s.pc[q], |s.pc|), s.st, s.parent);
    }
  }

  lemma ForkRecord(s: State, p: nat, np: nat)
    requires Inv(s) && Active(s, p, Running) && np < |s.st|
    requires s.st[np] == USED && s.maker[np] == p && s.plock[np] == Thread(p)
    ensures Inv(s.(pc := s.pc[p := Forking(np)]))
  {
    PcOnlyInv(s, s.(pc := s.pc[p := Forking(np)]), p);
  }

  lemma ForkAllocInv(s: State, t: State, p: nat, np: nat)
    requires Inv(s) && ForkAlloc(s, t, p, np)
    ensures Inv(t)
  {
    ForgetPlace(s, np);
    var u := s.(pc := s.pc[np := Paused]);
    ClaimedControl(u, p, np);
    ClaimedFamily(u, p, np);
    ClaimedSleepers(u, p, np);
    ForkRecord(Claimed(u, p, np), p, np);
  }

  lemma SwitchStepInv(s: State, t: State, p: nat)
    requires Inv(s) && SwitchStep(s, t, p)
    ensures Inv(t)
  {
    if Dispatch(s, t, p) {
      DispatchControl(s, t, p); DispatchFamily(s, t, p); DispatchSleepers(s, t, p);
    } else if Pause(s, t, p) {
      PauseControl(s, t, p); PauseFamily(s, t, p); PauseSleepers(s, t, p);
    } else if SwitchAway(s, t, p) {
      SwitchAwayControl(s, t, p); SwitchAwayFamily(s, t, p); SwitchAwaySleepers(s, t, p);
    } else if PutAway(s, t, p) {
      PutAwayInv(s, t, p);
    } else if Resume(s, t, p) {
      ResumeInv(s, t, p);
    } else {
      RouseInv(s, t, p);
    }
  }

  lemma ForkStepInv(s: State, t: State, p: nat)
    requires Inv(s) && ForkStep(s, t, p)
    ensures Inv(t)
  {
    if np: nat :| ForkAlloc(s, t, p, np) {
      ForkAllocInv(s, t, p, np);
    } else if ForkFail(s, t, p) {
      ForkFailControl(s, t, p); ForkFailFamily(s, t, p); ForkFailSleepers(s, t, p);
    } else if ForkCopied(s, t, p) {
      ForkCopiedInv(s, t, p);
    } else if ForkSetParent(s, t, p) {
      ForkSetParentControl(s, t, p); ForkSetParentFamily(s, t, p); ForkSetParentSleepers(s, t, p);
    } else if ForkUnlock(s, t, p) {
      ForkUnlockInv(s, t, p);
    } else {
      ForkRunControl(s, t, p); ForkRunFamily(s, t, p); ForkRunSleepers(s, t, p);
    }
  }

  lemma ExitStepInv(s: State, t: State, p: nat)
    requires Inv(s) && ExitStep(s, t, p)
    ensures Inv(t)
  {
    if ExitStart(s, t, p) {
      ExitStartInv(s, t, p);
    } else if ReparentChild(s, t, p) {
      ReparentChildControl(s, t, p); ReparentChildFamily(s, t, p); ReparentChildSleepers(s, t, p);
    } else if ReparentSkip(s, t, p) {
      ReparentSkipInv(s, t, p);
    } else if ReparentEnd(s, t, p) {
      ReparentEndInv(s, t, p);
    } else if ExitWakeInit(s, t, p) {
      ExitWakeInitInv(s, t, p);
    } else if ExitWakeParent(s, t, p) {
      ExitWakeParentInv(s, t, p);
    } else if ExitZombie(s, t, p) {
      ExitZombieControl(s, t, p); ExitZombieFamily(s, t, p); ExitZombieSleepers(s, t, p);
    } else {
      ExitUnlockInv(s, t, p);
    }
  }

  lemma WaitStepInv(s: State, t: State, p: nat)
    requires Inv(s) && WaitStep(s, t, p)
    ensures Inv(t)
  {
    if WaitCall(s, t, p) {
      WaitCallInv(s, t, p);
    } else if WaitAcquire(s, t, p) {
      WaitAcquireInv(s, t, p);
    } else if ScanChild(s, t, p) {
      ScanChildInv(s, t, p);
    } else if ScanSkip(s, t, p) {
      ScanSkipInv(s, t, p);
    } else if ScanEnd(s, t, p) {
      ScanEndInv(s, t, p);
    } else if ScanOn(s, t, p) {
      ScanOnInv(s, t, p);
    } else {
      WaitEndInv(s, t, p);
    }
  }

  lemma WaitEndInv(s: State, t: State, p: nat)
    requires Inv(s)
    requires || Reap(s, t, p) || WaitFault(s, t, p) || WaitLockSelf(s, t, p)
             || WaitRelease(s, t, p) || WaitMark(s, t, p) || WaitBack(s, t, p)
    ensures Inv(t)
  {
    if Reap(s, t, p) {
      ReapControl(s, t, p); ReapFamily(s, t, p); ReapSleepers(s, t, p);
    } else if WaitFault(s, t, p) {
      WaitFaultInv(s, t, p);
    } else if WaitLockSelf(s, t, p) {
      WaitLockSelfInv(s, t, p);
    } else if WaitRelease(s, t, p) {
      WaitReleaseInv(s, t, p);
    } else if WaitMark(s, t, p) {
      WaitMarkControl(s, t, p); WaitMarkFamily(s, t, p); WaitMarkSleepers(s, t, p);
    } else {
      WaitBackControl(s, t, p); WaitBackFamily(s, t, p); WaitBackSleepers(s, t, p);
    }
  }

  lemma NextInv(s: State, t: State)
    requires Inv(s) && Next(s, t)
    ensures Inv(t)
  {
    var p: nat :| SwitchStep(s, t, p) || ForkStep(s, t, p) || ExitStep(s, t, p) || WaitStep(s, t, p);
    if SwitchStep(s, t, p) {
      SwitchStepInv(s, t, p);
    } else if ForkStep(s, t, p) {
      ForkStepInv(s, t, p);
    } else if ExitStep(s, t, p) {
      ExitStepInv(s, t, p);
    } else {
      WaitStepInv(s, t, p);
    }
  }

  lemma RunInv(run: seq<State>, i: nat)
    requires IsRun(run) && i < |run|
    ensures Inv(run[i])
  {
    forall s | Init(s) ensures Inv(s) { InitInv(s); }
    forall s, t | Inv(s) && Next(s, t) ensures Inv(t) { NextInv(s, t); }
    Always(run, Init, Next, Inv, i);
  }

  // ---- what fork, exit and wait promise

  /** Every started process but init, zombies included, has a parent that is neither unused
      nor a zombie, whoever holds wait_lock; and nobody's parent is an exited process. */
  lemma ParentsAreAlive(run: seq<State>, i: nat, p: nat)
    requires IsRun(run) && i < |run| && p < |run[i].st| == |run[i].parent|
    ensures Started(run[i].st[p]) && p != run[i].init ==> run[i].parent[p].Some?
    ensures run[i].parent[p].Some? ==> run[i].parent[p].value < |run[i].st| && Alive(run[i].st[run[i].parent[p].value])
  {
    RunInv(run, i);
  }

  /** A zombie is freed only once, and only when its thread has left its kernel stack. */
  lemma ReapedOnceOffStack(run: seq<State>, i: nat, t: State, p: nat)
    requires IsRun(run) && i < |run| && Sizes(run[i]) && Reap(run[i], t, p)
    ensures var s := run[i]; var child := s.pc[p].i;
      && !s.on[child] && s.pc[child] == Dead && child != p
      && (child, s.born[child]) !in s.reaped && (child, s.born[child]) in t.reaped
  {
    RunInv(run, i);
    var s := run[i];
    var child := s.pc[p].i;
    assert LocksOf(p, s.pc[p], s.plock, s.waitLock);
    assert StateOf(s.st[child], s.chan[child], s.on[child], s.pc[child]);
    assert s.on[child] ==> LocksOf(child, s.pc[child], s.plock, s.waitLock);
  }

  /** No lost exit: with wait_lock free, no process sleeps in wait while it has a zombie child. */
  lemma NoLostExit(run: seq<State>, i: nat, p: nat, j: nat)
    requires IsRun(run) && i < |run| && p < |run[i].st| && j < |run[i].st| && Sizes(run[i])
    requires run[i].waitLock == None && run[i].st[p] == SLEEPING && run[i].chan[p]
    ensures !(run[i].parent[j] == Some(p) && run[i].st[j] == ZOMBIE)
  {
    RunInv(run, i);
  }
}
