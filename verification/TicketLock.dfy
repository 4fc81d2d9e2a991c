/** The ticket lock of include/spinlock.h for any number of CPUs below 2^32, one step per
    memory access. The exclusive monitor is explicit: a store-exclusive may succeed only if
    no other CPU has stored to the ticket word since the matching load-exclusive. */
module TicketLock {
  import opened Runs
  import opened Pigeonhole

  const U32: nat := 0x1_0000_0000

  function Wrap(x: nat): nat { x % U32 }

  datatype Cpu =
    | Outside
    | Loaded(seen: nat)        // after ldaxr
    | Waiting(ticket: nat)     // own ticket taken, polling lock->next
    | Holding(ticket: nat)     // spin_lock returned
    | Releasing(value: nat)    // spin_unlock has read lock->next

  /** `taken` and `entered` record which CPUs drew tickets and entered, in order; the first
      `released` of those that entered have left again; `drew` gives each CPU's last draw. */
  datatype State = State(
    ticket: nat, next: nat, cpus: seq<Cpu>, monitor: set<nat>,
    taken: seq<nat>, entered: seq<nat>, released: nat, drew: seq<nat>)

  ghost predicate Init(s: State) {
    && s.ticket == 0 && s.next == 0 && |s.cpus| < U32
    && (forall c | 0 <= c < |s.cpus| :: s.cpus[c] == Outside)
    && s.monitor == {} && s.taken == [] && s.entered == [] && s.released == 0
    && |s.drew| == |s.cpus|
  }

  ghost predicate LoadExclusive(s: State, t: State, c: nat) {
    && c < |s.cpus| && s.cpus[c] == Outside
    && t == s.(cpus := s.cpus[c := Loaded(s.ticket)], monitor := s.monitor + {c})
  }

  ghost predicate StoreExclusive(s: State, t: State, c: nat) {
    && c < |s.cpus| == |s.drew| && s.cpus[c].Loaded? && c in s.monitor
    && t == s.(ticket := Wrap(s.cpus[c].seen + 1), cpus := s.cpus[c := Waiting(s.cpus[c].seen)],
               monitor := {}, taken := s.taken + [c], drew := s.drew[c := |s.taken|])
  }

  /** The store-exclusive fails, for lack of the monitor or spuriously, and the loop retries. */
  ghost predicate StoreFails(s: State, t: State, c: nat) {
    && c < |s.cpus| && s.cpus[c].Loaded?
    && t == s.(cpus := s.cpus[c := Outside], monitor := s.monitor - {c})
  }

  ghost predicate Poll(s: State, t: State, c: nat) {
    && c < |s.cpus| && s.cpus[c].Waiting?
    && t == if s.next == s.cpus[c].ticket
            then s.(cpus := s.cpus[c := Holding(s.next)], entered := s.entered + [c])
            else s
  }

  ghost predicate UnlockLoad(s: State, t: State, c: nat) {
    && c < |s.cpus| && s.cpus[c].Holding?
    && t == s.(cpus := s.cpus[c := Releasing(s.next)])
  }

  ghost predicate UnlockStore(s: State, t: State, c: nat) {
    && c < |s.cpus| && s.cpus[c].Releasing?
    && t == s.(next := Wrap(s.cpus[c].value + 1), cpus := s.cpus[c := Outside], released := s.released + 1)
  }

  ghost predicate Step(s: State, t: State, c: nat) {
    || LoadExclusive(s, t, c) || StoreExclusive(s, t, c) || StoreFails(s, t, c)
    || Poll(s, t, c) || UnlockLoad(s, t, c) || UnlockStore(s, t, c)
  }

  ghost predicate Next(s: State, t: State) {
    exists c :: Step(s, t, c)
  }

  ghost predicate IsRun(run: seq<State>) { RunOf(run, Init, Next) }

  // ---- the invariant

  predicate Engaged(c: Cpu) { c.Waiting? || c.Holding? || c.Releasing? }

  ghost predicate Counters(s: State) {
    && |s.cpus| == |s.drew| < U32
    && s.released <= |s.entered| <= s.released + 1 && |s.entered| <= |s.taken|
    && s.next == Wrap(s.released) && s.ticket == Wrap(|s.taken|)
    && s.entered == s.taken[..|s.entered|]
  }

  /** The draws not yet released belong to different CPUs, all of them engaged. */
  ghost predicate Queued(s: State) requires |s.cpus| == |s.drew| {
    && (forall i | s.released <= i < |s.taken| ::
          s.taken[i] < |s.cpus| && Engaged(s.cpus[s.taken[i]]) && s.drew[s.taken[i]] == i)
    && (forall c | 0 <= c < |s.cpus| && Engaged(s.cpus[c]) ::
          s.released <= s.drew[c] < |s.taken| && s.taken[s.drew[c]] == c)
  }

  ghost predicate Tickets(s: State) requires |s.cpus| == |s.drew| {
    && (forall c | 0 <= c < |s.cpus| && Engaged(s.cpus[c]) ::
          if s.cpus[c].Waiting? then s.cpus[c].ticket == Wrap(s.drew[c]) && |s.entered| <= s.drew[c]
          else s.drew[c] == s.released && |s.entered| == s.released + 1)
    && (forall c | 0 <= c < |s.cpus| && s.cpus[c].Releasing? :: s.cpus[c].value == s.next)
    && (forall c | 0 <= c < |s.cpus| && s.cpus[c].Loaded? && c in s.monitor :: s.cpus[c].seen == s.ticket)
  }

  ghost predicate Inv(s: State) {
    Counters(s) && Queued(s) && Tickets(s)
  }

  /** Fewer CPUs than ticket values, so no two engaged CPUs can share a ticket. */
  lemma FewOutstanding(s: State)
    requires Counters(s) && Queued(s)
    ensures |s.taken| - s.released < U32
  {
    var q := s.taken[s.released..];
    forall i, j | 0 <= i < j < |q| ensures q[i] != q[j] {
      assert q[i] == s.taken[s.released + i] && q[j] == s.taken[s.released + j];
    }
    forall i | 0 <= i < |q| ensures q[i] < |s.cpus| {
      assert q[i] == s.taken[s.released + i];
    }
    DistinctBelow(q, |s.cpus|);
  }

  lemma WrapDistinct(i: nat, j: nat)
    requires i < j < i + U32
    ensures Wrap(i) != Wrap(j)
  {
  }

  lemma WrapSuccessor(i: nat)
    ensures Wrap(Wrap(i) + 1) == Wrap(i + 1)
  {
  }

  /** Only the oldest waiting CPU ever sees its own ticket in lock->next. */
  lemma OnlyOldestMatches(s: State, c: nat)
    requires Inv(s) && c < |s.cpus| && s.cpus[c].Waiting?
    ensures s.next == s.cpus[c].ticket <==> s.drew[c] == s.released
  {
    FewOutstanding(s);
    if s.drew[c] > s.released { WrapDistinct(s.released, s.drew[c]); }
  }

  lemma StoreExclusiveInv(s: State, t: State, c: nat)
    requires Inv(s) && StoreExclusive(s, t, c)
    ensures Inv(t)
  {
    WrapSuccessor(|s.taken|);
    assert t.entered == t.taken[..|t.entered|];
  }

  lemma PollInv(s: State, t: State, c: nat)
    requires Inv(s) && Poll(s, t, c)
    ensures Inv(t)
  {
    if s.next == s.cpus[c].ticket {
      OnlyOldestMatches(s, c);
      assert |s.entered| == s.released;
      assert t.entered == t.taken[..|t.entered|];
    }
  }

  lemma UnlockStoreInv(s: State, t: State, c: nat)
    requires Inv(s) && UnlockStore(s, t, c)
    ensures Inv(t)
  {
    WrapSuccessor(s.released);
    assert s.drew[c] == s.released;
  }

  lemma OtherInv(s: State, t: State, c: nat)
    requires Inv(s)
    requires LoadExclusive(s, t, c) || StoreFails(s, t, c) || UnlockLoad(s, t, c)
    ensures Inv(t)
  {
  }

  lemma StepInv(s: State, t: State, c: nat)
    requires Inv(s) && Step(s, t, c)
    ensures Inv(t)
  {
    if StoreExclusive(s, t, c) {
      StoreExclusiveInv(s, t, c);
    } else if Poll(s, t, c) {
      PollInv(s, t, c);
    } else if UnlockStore(s, t, c) {
      UnlockStoreInv(s, t, c);
    } else {
      OtherInv(s, t, c);
    }
  }

  lemma InitInv(s: State)
    requires Init(s)
    ensures Inv(s)
  {
  }

  lemma NextInv(s: State, t: State)
    requires Inv(s) && Next(s, t)
    ensures Inv(t)
  {
    var c: nat :| Step(s, t, c);
    StepInv(s, t, c);
  }

  lemma RunInv(run: seq<State>, i: nat)
    requires IsRun(run) && i < |run|
    ensures Inv(run[i])
  {
    forall s | Init(s) ensures Inv(s) { InitInv(s); }
    forall s, t | Inv(s) && Next(s, t) ensures Inv(t) { NextInv(s, t); }
    Always(run, Init, Next, Inv, i);
  }

  // ---- what the lock promises

  predicate InSection(c: Cpu) { c.Holding? || c.Releasing? }

  lemma MutualExclusion(run: seq<State>, i: nat, c: nat, d: nat)
    requires IsRun(run) && i < |run| && c < |run[i].cpus| && d < |run[i].cpus|
    requires InSection(run[i].cpus[c]) && InSection(run[i].cpus[d])
    ensures c == d
  {
    RunInv(run, i);
  }

  /** CPUs enter in the order in which they drew tickets. */
  lemma FirstComeFirstServed(run: seq<State>, i: nat)
    requires IsRun(run) && i < |run|
    ensures run[i].entered <= run[i].taken
  {
    RunInv(run, i);
  }

  /** The tickets of the CPUs that wait or hold are the values from next up to, and not
      including, ticket: the k-th oldest draw has next + k modulo 2^32, and no two of them
      are equal, also across a wrap of the counters. */
  lemma OutstandingTickets(run: seq<State>, i: nat)
    requires IsRun(run) && i < |run|
    ensures var s := run[i];
      && s.released <= |s.taken| < s.released + U32
      && s.ticket == Wrap(s.next + (|s.taken| - s.released))
      && (forall k | s.released <= k < |s.taken| :: s.taken[k] < |s.cpus|)
      && (forall k | s.released <= k < |s.taken| && s.cpus[s.taken[k]].Waiting? ::
            s.cpus[s.taken[k]].ticket == Wrap(s.next + (k - s.released)))
      && (forall c, d | 0 <= c < d < |s.cpus| && s.cpus[c].Waiting? && s.cpus[d].Waiting? ::
            s.cpus[c].ticket != s.cpus[d].ticket)
  {
    RunInv(run, i);
    var s := run[i];
    FewOutstanding(s);
    WrapShift(s.released, |s.taken| - s.released);
    forall k | s.released <= k < |s.taken| ensures Wrap(k) == Wrap(s.next + (k - s.released)) {
      WrapShift(s.released, k - s.released);
    }
    forall c, d | 0 <= c < d < |s.cpus| && s.cpus[c].Waiting? && s.cpus[d].Waiting?
      ensures s.cpus[c].ticket != s.cpus[d].ticket
    {
      if s.drew[c] < s.drew[d] { WrapDistinct(s.drew[c], s.drew[d]); } else { WrapDistinct(s.drew[d], s.drew[c]); }
    }
  }

  lemma WrapShift(i: nat, k: nat)
    ensures Wrap(Wrap(i) + k) == Wrap(i + k)
  {
  }

  /** No deadlock: when the lock is free and some CPU waits, the oldest one's poll succeeds. */
  lemma SomeoneCanEnter(run: seq<State>, i: nat)
    requires IsRun(run) && i < |run|
    requires forall c | 0 <= c < |run[i].cpus| :: !InSection(run[i].cpus[c])
    requires exists c | 0 <= c < |run[i].cpus| :: run[i].cpus[c].Waiting?
    ensures exists c, t :: Poll(run[i], t, c) && t.entered == run[i].entered + [c]
  {
    RunInv(run, i);
    var s := run[i];
    var w :| 0 <= w < |s.cpus| && s.cpus[w].Waiting?;
    var c := s.taken[s.released];
    OnlyOldestMatches(s, c);
    var t := s.(cpus := s.cpus[c := Holding(s.next)], entered := s.entered + [c]);
    assert Poll(s, t, c);
  }
}
