/** The code of guest/xv6/kernel/log.c, loops and all. Every block write is recorded, and
    each method is proved to be a run of the machine in WriteAheadLog, so that what is
    proved there about crashes holds at every write of these loops. */
module LogCode {
  import opened WriteAheadLog

  lemma RunBounds(l: Layout, run: seq<State>)
    requires IsRun(l, run)
    ensures var s := run[|run| - 1];
      && l.Valid() && |s.disk| == |s.cache| == l.blocks && GoodHeader(l, s.lh)
      && |s.history| > 0 && |s.cache[l.start].words| == WORDS
      && (s.phase == Booting ==> HeaderOk(s.cache[l.start]))
      && (s.committing ==> s.ops == [])
      && (s.phase == Running ==> !s.committing)
  {
    RunInv(l, run, |run| - 1);
  }

  lemma RunRecovers(l: Layout, run: seq<State>, k: nat)
    requires IsRun(l, run) && k < |run| && |run[k].history| >= 2
    ensures l.Valid()
    ensures
      || RecoversTo(l, run[k].disk, run[k].history[|run[k].history| - 1])
      || RecoversTo(l, run[k].disk, run[k].history[|run[k].history| - 2])
  {
    RunCanRecover(l, run, k);
  }

  /** Where write_log ends, every logged block is in its slot, in the cache and on disk. */
  lemma InSlots(l: Layout, run: seq<State>)
    requires IsRun(l, run) && run[|run| - 1].phase == WritingLog(|run[|run| - 1].lh|)
    ensures var s := run[|run| - 1]; |s.disk| == |s.cache| == l.blocks && AllCopied(l, s.disk, s.cache, s.lh)
  {
    RunInv(l, run, |run| - 1);
  }

  /** Where install_trans ends, every logged block is at home. */
  lemma AtHome(l: Layout, run: seq<State>)
    requires IsRun(l, run) && run[|run| - 1].phase.Installing? && run[|run| - 1].phase.tail == |run[|run| - 1].lh|
    ensures var s := run[|run| - 1]; |s.disk| == |s.cache| == l.blocks && AllInstalled(l, s.disk, s.cache, s.lh)
  {
    RunInv(l, run, |run| - 1);
    var s := run[|run| - 1];
    forall i {:trigger l.Slot(i)} | 0 <= i < |s.lh|
      ensures l.IsHome(s.lh[i]) && l.Slot(i) < |s.disk| && s.cache[s.lh[i]] == s.disk[s.lh[i]] == s.disk[l.Slot(i)]
    {
      assert l.IsHome(s.lh[i]);
    }
  }

  ghost predicate AllCopied(l: Layout, disk: Disk, cache: Disk, lh: seq<int>) {
    forall i {:trigger l.Slot(i)} | 0 <= i < |lh| ::
      && 0 <= lh[i] < |cache| && l.Slot(i) < |disk| && l.Slot(i) < |cache|
      && disk[l.Slot(i)] == cache[l.Slot(i)] == cache[lh[i]]
  }

  ghost predicate AllInstalled(l: Layout, disk: Disk, cache: Disk, lh: seq<int>) {
    forall i {:trigger l.Slot(i)} | 0 <= i < |lh| ::
      && 0 <= lh[i] < |cache| && lh[i] < |disk| && l.Slot(i) < |disk|
      && cache[lh[i]] == disk[lh[i]] == disk[l.Slot(i)]
  }

  /** Blocks outside the log's slots are as before. */
  ghost predicate SlotsOnly(l: Layout, was: Disk, now: Disk) {
    |now| == |was| && forall b | 0 <= b < |was| && !(l.start < b < l.start + l.size) :: now[b] == was[b]
  }

  /** Blocks the header does not name are as before. */
  ghost predicate NamedOnly(lh: seq<int>, was: Disk, now: Disk) {
    |now| == |was| && forall b | 0 <= b < |was| && b !in lh :: now[b] == was[b]
  }

  /** From the n-th state on, the record of transactions is `history`. */
  ghost predicate Steady(run: seq<State>, n: nat, history: seq<Disk>) {
    n <= |run| && forall k | n <= k < |run| :: run[k].history == history
  }

  class Log {
    const l: Layout
    var disk: Disk
    var cache: Disk
    var lh: seq<int>
    var outstanding: int
    var committing: bool
    ghost var ops: seq<nat>
    ghost var phase: Phase
    ghost var history: seq<Disk>
    ghost var returned: nat
    ghost var run: seq<State>

    ghost function Now(): State
      reads this
    {
      State(disk, cache, lh, ops, committing, phase, history, returned)
    }

    ghost predicate Valid()
      reads this
    {
      IsRun(l, run) && run[|run| - 1] == Now() && outstanding == |ops|
    }

    ghost method Record()
      requires IsRun(l, run) && Next(l, run[|run| - 1], Now())
      modifies this`run
      ensures run == old(run) + [Now()] && IsRun(l, run)
    {
      RunExtend(l, run, Now());
      run := run + [Now()];
    }

    constructor (l: Layout, image: Disk)
      requires l.Valid() && |image| == l.blocks && HeaderClear(image[l.start])
      ensures Valid() && this.l == l && disk == image && lh == [] && phase == Running
    {
      this.l := l;
      disk, cache, lh, outstanding, committing := image, image, [], 0, false;
      ops, phase, history, returned := [], Running, [image], 0;
      run := [State(image, image, [], [], false, Running, [image], 0)];
    }

    /** One turn of begin_op's loop; `ok` is false when it would sleep. */
    method BeginOp() returns (ok: bool)
      requires Valid() && (phase == Running || committing)
      modifies this`outstanding, this`ops, this`run
      ensures Valid() && old(run) <= run
      ensures ok <==> !committing && |lh| + (old(outstanding) + 1) * MAXOPBLOCKS <= LOGSIZE
      ensures ok ==> outstanding == old(outstanding) + 1 && ops == old(ops) + [0]
      ensures !ok ==> outstanding == old(outstanding) && run == old(run)
    {
      if committing {
        ok := false;
      } else if |lh| + (outstanding + 1) * MAXOPBLOCKS > LOGSIZE {
        ok := false;
      } else {
        outstanding := outstanding + 1;
        ops := ops + [0];
        Record();
        ok := true;
      }
    }

    /** Operation `op` puts `data` into the buffer of block b and calls log_write. */
    method LogWrite(ghost op: nat, b: nat, data: Block) returns (panicked: bool)
      requires Valid() && Within(l, Now(), op, b)
      modifies this`cache, this`lh, this`ops, this`phase, this`run
      ensures Valid() && run == old(run) + [Now()]
      ensures panicked <==> |old(lh)| == l.Capacity()
      ensures cache == old(cache)[b := data]
      ensures !panicked ==> phase == Running && lh == old(lh) + (if b in old(lh) then [] else [b])
      ensures panicked ==> phase == Panicked && lh == old(lh)
    {
      RunBounds(l, run);
      PanicsWhenFull(l, run, op, b);
      ghost var s := Now();
      cache := cache[b := data];
      if |lh| >= LOGSIZE || |lh| >= l.size - 1 || outstanding < 1 {
        phase := Panicked;
        assert WriteAheadLog.LogWrite(l, s, Now(), op, b, data);
        Record();
        return true;
      }
      var i := 0;
      while i < |lh|
        invariant 0 <= i <= |lh| && b !in lh[..i]
      {
        if lh[i] == b { break; }
        i := i + 1;
      }
      if i == |lh| {
        assert b !in lh;
        ops := ops[op := ops[op] + 1];
        lh := lh + [b];
      } else {
        assert b in lh;
        lh := lh[i := b];
        assert lh == s.lh;
      }
      assert WriteAheadLog.LogWrite(l, s, Now(), op, b, data);
      Record();
      panicked := false;
    }

    method WriteLogBlock(tail: nat)
      requires Valid() && phase == WritingLog(tail) && tail < |lh|
      modifies this`disk, this`cache, this`phase, this`run
      ensures Valid() && run == old(run) + [Now()] && phase == WritingLog(tail + 1)
      ensures SlotsOnly(l, old(disk), disk) && SlotsOnly(l, old(cache), cache)
    {
      RunBounds(l, run);
      ghost var s := Now();
      var to := l.start + tail + 1;
      cache := cache[to := cache[lh[tail]]];
      disk := disk[to := cache[to]];
      phase := WritingLog(tail + 1);
      assert CommitStep(l, s, Now()) by { assert WriteLogStep(l, s, Now()); }
      Record();
    }

    method WriteLog()
      requires Valid() && phase == WritingLog(0)
      modifies this`disk, this`cache, this`phase, this`run
      ensures Valid() && old(run) <= run && phase == WritingLog(|lh|)
      ensures Steady(run, |old(run)|, history)
      ensures AllCopied(l, disk, cache, lh) && SlotsOnly(l, old(disk), disk) && SlotsOnly(l, old(cache), cache)
    {
      var tail := 0;
      while tail < |lh|
        invariant 0 <= tail <= |lh| && Valid() && old(run) <= run && phase == WritingLog(tail)
        invariant Steady(run, |old(run)|, history)
        invariant SlotsOnly(l, old(disk), disk) && SlotsOnly(l, old(cache), cache)
      {
        WriteLogBlock(tail);
        tail := tail + 1;
      }
      InSlots(l, run);
    }

    /** Write the in-memory header; `next` is where that leaves the caller. */
    method WriteHead(ghost next: Phase, ghost done: nat)
      requires |cache[..]| > l.start && |disk| > l.start && |lh| <= LOGSIZE
      requires |cache[l.start].words| == WORDS
      modifies this`disk, this`cache, this`phase, this`returned
      ensures cache == old(cache)[l.start := Encode(old(cache[l.start]), lh)]
      ensures disk == old(disk)[l.start := cache[l.start]]
      ensures phase == next && returned == done
    {
      var n := |lh|;
      var hb := cache[l.start].words[0 := n];
      var i := 0;
      while i < n
        invariant 0 <= i <= n && |hb| == WORDS
        invariant hb == [n] + lh[..i] + cache[l.start].words[1 + i..]
      {
        hb := hb[1 + i := lh[i]];
        i := i + 1;
      }
      assert lh[..n] == lh;
      cache := cache[l.start := Block(hb)];
      disk := disk[l.start := cache[l.start]];
      phase, returned := next, done;
    }

    method InstallBlock(tail: nat, ghost recovering: bool)
      requires Valid() && phase == Installing(tail, recovering) && tail < |lh|
      modifies this`disk, this`cache, this`phase, this`run
      ensures Valid() && run == old(run) + [Now()] && phase == Installing(tail + 1, recovering)
      ensures NamedOnly(lh, old(disk), disk) && NamedOnly(lh, old(cache), cache)
    {
      RunBounds(l, run);
      ghost var s := Now();
      var dst := lh[tail];
      cache := cache[dst := cache[l.start + tail + 1]];
      disk := disk[dst := cache[dst]];
      phase := Installing(tail + 1, recovering);
      assert CommitStep(l, s, Now()) by { assert InstallStep(l, s, Now()); }
      Record();
    }

    method InstallTrans(ghost recovering: bool)
      requires Valid() && phase == Installing(0, recovering)
      modifies this`disk, this`cache, this`phase, this`run
      ensures Valid() && old(run) <= run && phase == Installing(|lh|, recovering)
      ensures Steady(run, |old(run)|, history)
      ensures AllInstalled(l, disk, cache, lh) && NamedOnly(lh, old(disk), disk) && NamedOnly(lh, old(cache), cache)
    {
      var tail := 0;
      while tail < |lh|
        invariant 0 <= tail <= |lh| && Valid() && old(run) <= run && phase == Installing(tail, recovering)
        invariant Steady(run, |old(run)|, history)
        invariant NamedOnly(lh, old(disk), disk) && NamedOnly(lh, old(cache), cache)
      {
        InstallBlock(tail, recovering);
        tail := tail + 1;
      }
      AtHome(l, run);
    }

    method CommitHead()
      requires Valid() && phase == WritingLog(|lh|)
      modifies this`disk, this`cache, this`phase, this`returned, this`run
      ensures Valid() && run == old(run) + [Now()] && phase == Installing(0, false)
      ensures returned == old(returned)
    {
      RunBounds(l, run);
      ghost var s := Now();
      WriteHead(Installing(0, false), returned);
      assert CommitStep(l, s, Now()) by { assert WriteAheadLog.WriteHead(l, s, Now()); }
      Record();
    }

    method EraseHead(ghost recovering: bool)
      requires Valid() && phase == Installing(|lh|, recovering)
      modifies this`disk, this`cache, this`lh, this`phase, this`returned, this`run
      ensures Valid() && run == old(run) + [Now()] && lh == []
      ensures if recovering then phase == Running else phase == CommitDone && returned == old(returned)
    {
      RunBounds(l, run);
      ghost var s := Now();
      lh := [];
      WriteHead(if recovering then Running else CommitDone, if recovering then |history| - 1 else returned);
      assert CommitStep(l, s, Now()) by { assert ClearHead(l, s, Now()); }
      Record();
    }

    method Commit()
      requires Valid() && phase == CommitEntered
      modifies this`disk, this`cache, this`lh, this`phase, this`returned, this`run
      ensures Valid() && old(run) <= run && phase == CommitDone
      ensures lh == [] && returned == old(returned)
      ensures Steady(run, |old(run)|, history)
    {
      if |lh| > 0 {
        EnterCommit();
        WriteLog();
        CommitHead();
        InstallTrans(false);
        EraseHead(false);
      } else {
        EnterCommit();
      }
    }

    ghost method EnterCommit()
      requires Valid() && phase == CommitEntered
      modifies this`phase, this`run
      ensures Valid() && run == old(run) + [Now()]
      ensures phase == if |lh| > 0 then WritingLog(0) else CommitDone
    {
      ghost var s := Now();
      phase := if |lh| > 0 then WritingLog(0) else CommitDone;
      assert CommitStep(l, s, Now()) by { assert CommitEnter(s, Now()); }
      Record();
    }

    /** end_op of operation `op`. The last one of a group commits: afterwards the home blocks
        on disk hold what the cache held, and every disk along the way recovers either to the
        image before the group or to the image after it. */
    method EndOp(ghost op: nat)
      requires Valid() && phase == Running && op < |ops|
      modifies this
      ensures Valid() && old(run) <= run && phase == Running && !committing
      ensures outstanding == old(outstanding) - 1 && l.Valid() && |old(history)| > 0
      ensures outstanding > 0 ==> disk == old(disk) && cache == old(cache) && lh == old(lh) && history == old(history)
      ensures outstanding == 0 ==>
        && lh == [] && history == old(history) + [old(cache)] && returned == old(returned) + 1
        && SameHome(l, disk, old(cache))
        && Recoverable(run[|old(run)|..], old(history)[|old(history)| - 1], old(cache))
    {
      RunBounds(l, run);
      ghost var n := |run|;
      var last := LeaveOp(op);
      if last { CommitGroup(n, old(history)[|old(history)| - 1], old(cache)); }
    }

    /** commit and the rest of end_op, from state n of the run on, between two images. */
    method CommitGroup(ghost n: nat, ghost before: Disk, ghost after: Disk)
      requires Valid() && phase == CommitEntered && n + 1 == |run|
      requires |history| >= 2 && history[|history| - 2] == before && history[|history| - 1] == after
      modifies this`disk, this`cache, this`lh, this`phase, this`returned, this`committing, this`run
      ensures Valid() && old(run) <= run && phase == Running && !committing && l.Valid()
      ensures lh == [] && returned == old(returned) + 1 && SameHome(l, disk, after)
      ensures Recoverable(run[n..], before, after)
    {
      Commit();
      FinishCommit();
      Settled(n);
    }

    /** end_op up to the release of log.lock. */
    method LeaveOp(ghost op: nat) returns (last: bool)
      requires Valid() && phase == Running && op < |ops|
      modifies this`outstanding, this`ops, this`committing, this`phase, this`history, this`run
      ensures Valid() && run == old(run) + [Now()]
      ensures outstanding == old(outstanding) - 1
      ensures last <==> outstanding == 0
      ensures if last then committing && phase == CommitEntered && history == old(history) + [cache]
              else !committing && phase == Running && history == old(history)
    {
      RunBounds(l, run);
      ghost var s := Now();
      outstanding := outstanding - 1;
      ops := ops[..op] + ops[op + 1..];
      last := outstanding == 0;
      if last {
        committing := true;
        phase := CommitEntered;
        history := history + [cache];
      }
      assert WriteAheadLog.EndOp(s, Now(), op);
      Record();
    }

    method FinishCommit()
      requires Valid() && phase == CommitDone
      modifies this`committing, this`phase, this`returned, this`run
      ensures Valid() && run == old(run) + [Now()]
      ensures !committing && phase == Running && returned == old(returned) + 1
    {
      ghost var s := Now();
      committing := false;
      phase := Running;
      returned := returned + 1;
      assert CommitFinish(s, Now());
      Record();
    }

    /** Every disk of `states` recovers to one of the two images. */
    ghost predicate Recoverable(states: seq<State>, before: Disk, after: Disk) {
      && l.Valid()
      && forall k | 0 <= k < |states| ::
        RecoversTo(l, states[k].disk, before) || RecoversTo(l, states[k].disk, after)
    }

    lemma Settled(n: nat)
      requires IsRun(l, run) && run[|run| - 1] == Now() && phase == Running
      requires |history| >= 2 && Steady(run, n, history)
      ensures l.Valid() && SameHome(l, disk, history[|history| - 1])
      ensures Recoverable(run[n..], history[|history| - 2], history[|history| - 1])
    {
      CrashAtomicity(l, run, |run| - 1);
      RunBounds(l, run);
      forall k | 0 <= k < |run[n..]|
        ensures RecoversTo(l, run[n..][k].disk, history[|history| - 2])
          || RecoversTo(l, run[n..][k].disk, history[|history| - 1])
      {
        RunRecovers(l, run, n + k);
      }
    }

    /** Power loss at any point. */
    method Crash()
      requires Valid()
      modifies this
      ensures Valid() && run == old(run) + [Now()] && phase == Booting && disk == old(disk)
    {
      RunBounds(l, run);
      ghost var s := Now();
      history := if Uncommitted(s) then history[..|history| - 1] else history;
      cache, lh, outstanding, committing, ops, phase := disk, [], 0, false, [], Booting;
      assert WriteAheadLog.Crash(s, Now());
      Record();
    }

    /** recover_from_log, as initlog runs it after a crash. */
    method RecoverFromLog()
      requires Valid() && phase == Booting
      modifies this`disk, this`cache, this`lh, this`phase, this`returned, this`run
      ensures Valid() && old(run) <= run && phase == Running && lh == []
      ensures history == old(history) && |history| == returned + 1
      ensures SameHome(l, disk, history[returned])
    {
      RunBounds(l, run);
      ghost var s := Now();
      ReadHead();
      assert WriteAheadLog.ReadHead(l, s, Now());
      Record();
      InstallTrans(true);
      EraseHead(true);
      CrashAtomicity(l, run, |run| - 1);
    }

    method ReadHead()
      requires l.start < |cache| && HeaderOk(cache[l.start])
      modifies this`lh, this`phase
      ensures lh == Decode(cache[l.start]) && phase == Installing(0, true)
    {
      var hb := cache[l.start].words;
      lh := [];
      var i := 0;
      while i < hb[0]
        invariant 0 <= i <= hb[0] && lh == hb[1..1 + i]
      {
        lh := lh + [hb[1 + i]];
        i := i + 1;
      }
      phase := Installing(0, true);
    }
  }
}
