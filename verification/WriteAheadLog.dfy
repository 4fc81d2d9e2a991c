/** The redo log of guest/xv6/kernel/log.c as a machine whose steps are separated
    by single block writes, so that a crash may fall between any two of them.
    A disk block is BSIZE/4 32-bit words; the header keeps its count in word 0 and
    the logged block numbers in the words after it. */
module WriteAheadLog {
  import Pigeonhole
  import opened Runs

  const MAXOPBLOCKS: nat := 10
  const LOGSIZE: nat := 30
  const WORDS: nat := 256

  datatype Block = Block(words: seq<int>)
  type Disk = seq<Block>

  /** log.start and log.size: header at `start`, log slots after it. */
  datatype Layout = Layout(start: nat, size: nat, blocks: nat) {
    predicate Valid() { 1 <= size && start + size <= blocks }
    predicate IsHome(b: int) { 0 <= b < blocks && !(start <= b < start + size) }
    function Slot(i: nat): nat { start + 1 + i }
    // The largest number of blocks log_write admits.
    function Capacity(): nat requires Valid() { if LOGSIZE <= size - 1 then LOGSIZE else size - 1 }
  }

  // ---- the header block

  predicate HeaderOk(h: Block) { |h.words| == WORDS && 0 <= h.words[0] <= LOGSIZE }

  predicate HeaderClear(h: Block) { HeaderOk(h) && h.words[0] == 0 }

  function Decode(h: Block): seq<int>
    requires HeaderOk(h)
  {
    h.words[1..1 + h.words[0]]
  }

  function Encode(h: Block, lh: seq<int>): Block
    requires |lh| <= LOGSIZE && |h.words| == WORDS
  {
    Block([|lh|] + lh + h.words[1 + |lh|..])
  }

  // ---- the machine

  datatype Phase =
    | Running                                  // file system calls may run
    | CommitEntered                            // committing set, commit() called
    | WritingLog(tail: nat)
    | Installing(tail: nat, recovering: bool)  // header on disk names the blocks
    | CommitDone                               // commit() returned, committing still set
    | Booting                                  // after a crash
    | Panicked

  /** `cache` is what bread returns, `disk` what survives a crash. `ops` holds, for each
      outstanding operation, how many blocks it has added to the header.
      `history` and `returned` record the transactions: history[k] is the logical disk
      after k transactions, and the first `returned` of them have had their commit return. */
  datatype State = State(
    disk: Disk, cache: Disk, lh: seq<int>, ops: seq<nat>, committing: bool,
    phase: Phase, history: seq<Disk>, returned: nat)

  ghost predicate SameHome(l: Layout, d: Disk, e: Disk) {
    |d| == |e| == l.blocks && forall b {:trigger l.IsHome(b)} | l.IsHome(b) :: d[b] == e[b]
  }

  ghost predicate Init(l: Layout, s: State) {
    && l.Valid()
    && |s.disk| == l.blocks && s.cache == s.disk
    && HeaderClear(s.disk[l.start])
    && s.lh == [] && s.ops == [] && !s.committing && s.phase == Running
    && s.history == [s.disk] && s.returned == 0
  }

  predicate BeginOpReady(s: State) {
    !s.committing && |s.lh| + (|s.ops| + 1) * MAXOPBLOCKS <= LOGSIZE
  }

  ghost predicate BeginOp(s: State, t: State) {
    s.phase == Running && BeginOpReady(s) && t == s.(ops := s.ops + [0])
  }

  predicate LogWritePanics(l: Layout, s: State) {
    |s.lh| >= LOGSIZE || |s.lh| >= l.size - 1 || |s.ops| < 1
  }

  function Absorb(lh: seq<int>, b: int): seq<int> {
    if b in lh then lh else lh + [b]
  }

  /** Operation `i` changes home block `b` in its buffer and calls log_write. The
      operation keeps to its reservation: it adds at most MAXOPBLOCKS blocks. */
  ghost predicate Within(l: Layout, s: State, i: nat, b: int) {
    && s.phase == Running && i < |s.ops| && l.IsHome(b) && b < |s.cache|
    && (b in s.lh || s.ops[i] < MAXOPBLOCKS)
  }

  ghost predicate LogWrite(l: Layout, s: State, t: State, i: nat, b: int, data: Block) {
    && Within(l, s, i, b)
    && if LogWritePanics(l, s) then
         t == s.(phase := Panicked, cache := s.cache[b := data])
       else
         t == s.(cache := s.cache[b := data], lh := Absorb(s.lh, b),
                 ops := if b in s.lh then s.ops else s.ops[i := s.ops[i] + 1])
  }

  /** The last end_op of a group starts the commit and fixes the transaction. */
  ghost predicate EndOp(s: State, t: State, i: nat) {
    && s.phase == Running && i < |s.ops|
    && var ops' := s.ops[..i] + s.ops[i + 1..];
       if |ops'| > 0 then t == s.(ops := ops')
       else t == s.(ops := ops', committing := true, phase := CommitEntered,
                    history := s.history + [s.cache])
  }

  ghost predicate CommitEnter(s: State, t: State) {
    s.phase == CommitEntered && t == s.(phase := if |s.lh| > 0 then WritingLog(0) else CommitDone)
  }

  ghost predicate WriteLogStep(l: Layout, s: State, t: State) {
    && s.phase.WritingLog? && s.phase.tail < |s.lh|
    && var to, from := l.Slot(s.phase.tail), s.lh[s.phase.tail];
       && to < |s.disk| && to < |s.cache| && 0 <= from < |s.cache|
       && t == s.(cache := s.cache[to := s.cache[from]], disk := s.disk[to := s.cache[from]],
                  phase := WritingLog(s.phase.tail + 1))
  }

  /** write_head with the blocks in place: the point of commit. */
  ghost predicate WriteHead(l: Layout, s: State, t: State) {
    && s.phase == WritingLog(|s.lh|)
    && |s.lh| <= LOGSIZE && l.start < |s.disk| && l.start < |s.cache| && |s.cache[l.start].words| == WORDS
    && var h := Encode(s.cache[l.start], s.lh);
       t == s.(cache := s.cache[l.start := h], disk := s.disk[l.start := h],
               phase := Installing(0, false))
  }

  ghost predicate InstallStep(l: Layout, s: State, t: State) {
    && s.phase.Installing? && s.phase.tail < |s.lh|
    && var from, to := l.Slot(s.phase.tail), s.lh[s.phase.tail];
       && from < |s.cache| && 0 <= to < |s.cache| && to < |s.disk|
       && t == s.(cache := s.cache[to := s.cache[from]], disk := s.disk[to := s.cache[from]],
                  phase := s.phase.(tail := s.phase.tail + 1))
  }

  /** lh.n = 0 and write_head: erase the transaction from the log. */
  ghost predicate ClearHead(l: Layout, s: State, t: State) {
    && s.phase.Installing? && s.phase.tail == |s.lh|
    && l.start < |s.disk| && l.start < |s.cache| && |s.cache[l.start].words| == WORDS && |s.history| > 0
    && var h := Encode(s.cache[l.start], []);
       var u := s.(cache := s.cache[l.start := h], disk := s.disk[l.start := h], lh := []);
       if s.phase.recovering then t == u.(phase := Running, returned := |s.history| - 1)
       else t == u.(phase := CommitDone)
  }

  ghost predicate CommitFinish(s: State, t: State) {
    s.phase == CommitDone && t == s.(committing := false, phase := Running, returned := s.returned + 1)
  }

  /** Memory is lost; a transaction whose header had not been written is lost with it. */
  ghost predicate Crash(s: State, t: State) {
    && |s.history| > 0
    && t == s.(cache := s.disk, lh := [], ops := [], committing := false, phase := Booting,
               history := if Uncommitted(s) then s.history[..|s.history| - 1] else s.history)
  }

  predicate Uncommitted(s: State) { s.phase == CommitEntered || s.phase.WritingLog? }

  ghost predicate ReadHead(l: Layout, s: State, t: State) {
    && s.phase == Booting && l.start < |s.cache| && HeaderOk(s.cache[l.start])
    && t == s.(lh := Decode(s.cache[l.start]), phase := Installing(0, true))
  }

  ghost predicate Next(l: Layout, s: State, t: State) {
    || BeginOp(s, t)
    || (exists i: nat, b: int, data: Block :: LogWrite(l, s, t, i, b, data))
    || (exists i: nat :: EndOp(s, t, i))
    || CommitStep(l, s, t)
    || CommitFinish(s, t)
    || Crash(s, t)
    || ReadHead(l, s, t)
  }

  ghost predicate CommitStep(l: Layout, s: State, t: State) {
    CommitEnter(s, t) || WriteLogStep(l, s, t) || WriteHead(l, s, t) || InstallStep(l, s, t) || ClearHead(l, s, t)
  }

  ghost predicate IsRun(l: Layout, run: seq<State>) { RunOf(run, Starts(l), Steps(l)) }

  ghost function Starts(l: Layout): State -> bool { s => Init(l, s) }

  ghost function Steps(l: Layout): (State, State) -> bool { (s, t) => Next(l, s, t) }

  // ---- the invariant

  function Unused(ops: seq<nat>): int {
    if ops == [] then 0 else Unused(ops[..|ops| - 1]) + MAXOPBLOCKS - ops[|ops| - 1]
  }

  ghost predicate GoodHeader(l: Layout, lh: seq<int>) requires l.Valid() {
    && |lh| <= l.Capacity()
    && (forall i | 0 <= i < |lh| :: l.IsHome(lh[i]))
    && (forall i, j | 0 <= i < j < |lh| :: lh[i] != lh[j])
  }

  /** What recovery run on `d` would leave in the home blocks is `target`. */
  ghost predicate RecoversTo(l: Layout, d: Disk, target: Disk) requires l.Valid() {
    && |d| == |target| == l.blocks
    && HeaderOk(d[l.start])
    && var lh := Decode(d[l.start]);
       && GoodHeader(l, lh)
       && (forall i {:trigger l.Slot(i)} | 0 <= i < |lh| :: d[l.Slot(i)] == target[lh[i]])
       && (forall b {:trigger l.IsHome(b)} | l.IsHome(b) && b !in lh :: d[b] == target[b])
  }

  function Target(s: State): Disk
    requires Recorded(s)
  {
    if Uncommitted(s) then s.history[|s.history| - 2] else s.history[|s.history| - 1]
  }

  ghost predicate Shape(l: Layout, s: State) {
    && l.Valid()
    && |s.disk| == |s.cache| == l.blocks
    && |s.history| > 0 && (forall k | 0 <= k < |s.history| :: |s.history[k]| == l.blocks)
    && |s.history| - 2 <= s.returned <= |s.history| - 1
    && (Uncommitted(s) || s.phase == CommitDone || s.phase == Installing(0, false) ==> s.returned == |s.history| - 2)
    && (s.phase == Running || s.phase == Panicked ==> s.returned == |s.history| - 1)
    && (s.phase.Installing? && !s.phase.recovering ==> s.returned == |s.history| - 2)
    && GoodHeader(l, s.lh)
    && (s.phase == Booting || s.phase == CommitDone ==> s.lh == [])
  }

  ghost predicate Space(s: State) {
    && (forall i | 0 <= i < |s.ops| :: s.ops[i] <= MAXOPBLOCKS)
    && |s.lh| + Unused(s.ops) <= LOGSIZE
    && (s.phase != Running && s.phase != Panicked ==> s.ops == [])
    && (s.committing <==> (Uncommitted(s) || s.phase == CommitDone || (s.phase.Installing? && !s.phase.recovering)))
  }

  ghost predicate Contents(l: Layout, s: State) requires Shape(l, s) {
    && RecoversTo(l, s.disk, Target(s))
    && s.cache[l.start] == s.disk[l.start]
    && match s.phase
       case Running => HeaderClear(s.disk[l.start]) && Clean(l, s.disk, s.cache, s.lh)
       case Panicked => HeaderClear(s.disk[l.start])
       case CommitEntered =>
         && HeaderClear(s.disk[l.start]) && Clean(l, s.disk, s.cache, s.lh)
         && s.cache == s.history[|s.history| - 1]
       case WritingLog(tail) =>
         && HeaderClear(s.disk[l.start]) && Clean(l, s.disk, s.cache, s.lh)
         && SameHome(l, s.cache, s.history[|s.history| - 1])
         && Copied(l, s.disk, s.cache, s.lh, tail)
       case Installing(tail, _) =>
         && Decode(s.disk[l.start]) == s.lh
         && Installed(l, s.disk, s.cache, s.lh, tail, Target(s))
       case CommitDone => HeaderClear(s.disk[l.start]) && Clean(l, s.disk, s.cache, s.lh)
       case Booting => s.cache == s.disk
  }

  /** The first `tail` logged blocks are in their slots. */
  ghost predicate Copied(l: Layout, disk: Disk, cache: Disk, lh: seq<int>, tail: nat)
    requires l.Valid() && |disk| == |cache| == l.blocks && GoodHeader(l, lh)
  {
    tail <= |lh| && forall i {:trigger l.Slot(i)} | 0 <= i < tail :: cache[l.Slot(i)] == disk[l.Slot(i)] == cache[lh[i]]
  }

  /** The first `tail` logged blocks are in their home places. */
  ghost predicate Installed(l: Layout, disk: Disk, cache: Disk, lh: seq<int>, tail: nat, target: Disk)
    requires l.Valid() && |disk| == |cache| == |target| == l.blocks && GoodHeader(l, lh)
  {
    && tail <= |lh|
    && (forall i {:trigger l.Slot(i)} | 0 <= i < |lh| :: cache[l.Slot(i)] == disk[l.Slot(i)])
    && (forall i | 0 <= i < tail :: disk[lh[i]] == target[lh[i]])
    && Clean(l, disk, cache, lh[tail..])
  }

  /** Outside the header's blocks, cache and disk agree. */
  ghost predicate Clean(l: Layout, disk: Disk, cache: Disk, lh: seq<int>)
    requires |disk| == |cache| == l.blocks
  {
    forall b {:trigger l.IsHome(b)} | l.IsHome(b) && b !in lh :: cache[b] == disk[b]
  }

  ghost predicate Inv(l: Layout, s: State) {
    Shape(l, s) && Space(s) && Contents(l, s)
  }

  // ---- every step keeps it

  lemma InitInv(l: Layout, s: State)
    requires Init(l, s)
    ensures Inv(l, s)
  {
  }

  lemma {:induction false} UnusedAppend(ops: seq<nat>)
    ensures Unused(ops + [0]) == Unused(ops) + MAXOPBLOCKS
  {
    assert (ops + [0])[..|ops|] == ops;
  }

  lemma {:induction false} UnusedBound(ops: seq<nat>)
    ensures Unused(ops) <= |ops| * MAXOPBLOCKS
  {
    if ops != [] { UnusedBound(ops[..|ops| - 1]); }
  }

  lemma {:induction false} UnusedUpdate(ops: seq<nat>, i: nat, v: nat)
    requires i < |ops|
    ensures Unused(ops[i := v]) == Unused(ops) + ops[i] - v
  {
    var n := |ops| - 1;
    if i == n {
      assert ops[i := v][..n] == ops[..n];
    } else {
      UnusedUpdate(ops[..n], i, v);
      assert ops[i := v][..n] == ops[..n][i := v];
    }
  }

  lemma {:induction false} UnusedRemove(ops: seq<nat>, i: nat)
    requires i < |ops|
    ensures Unused(ops[..i] + ops[i + 1..]) == Unused(ops) - MAXOPBLOCKS + ops[i]
  {
    var n := |ops| - 1;
    if i == n {
      assert ops[..i] + ops[i + 1..] == ops[..n];
    } else {
      UnusedRemove(ops[..n], i);
      var r := ops[..i] + ops[i + 1..];
      assert r[..|r| - 1] == ops[..n][..i] + ops[..n][i + 1..];
      assert r[|r| - 1] == ops[n];
    }
  }

  lemma {:induction false} UnusedNonneg(ops: seq<nat>)
    requires forall i | 0 <= i < |ops| :: ops[i] <= MAXOPBLOCKS
    ensures Unused(ops) >= 0
    ensures forall i | 0 <= i < |ops| :: Unused(ops) >= MAXOPBLOCKS - ops[i]
  {
    if ops != [] { UnusedNonneg(ops[..|ops| - 1]); }
  }

  lemma BeginOpInv(l: Layout, s: State, t: State)
    requires Inv(l, s) && BeginOp(s, t)
    ensures Inv(l, t)
  {
    UnusedAppend(s.ops);
    UnusedBound(s.ops);
  }

  lemma LogWriteInv(l: Layout, s: State, t: State, i: nat, b: int, data: Block)
    requires Inv(l, s) && LogWrite(l, s, t, i, b, data)
    ensures Inv(l, t)
  {
    LogWriteSpace(s, t, l, i, b, data);
    assert Shape(l, t);
    assert Target(t) == Target(s) && t.cache[l.start] == s.cache[l.start];
  }

  lemma LogWriteSpace(s: State, t: State, l: Layout, i: nat, b: int, data: Block)
    requires Space(s) && LogWrite(l, s, t, i, b, data)
    ensures Space(t)
  {
    if !LogWritePanics(l, s) && b !in s.lh {
      UnusedUpdate(s.ops, i, s.ops[i] + 1);
    }
  }

  lemma EndOpInv(l: Layout, s: State, t: State, i: nat)
    requires Inv(l, s) && EndOp(s, t, i)
    ensures Inv(l, t)
  {
    EndOpSpace(s, t, i);
    assert Shape(l, t);
    if t.phase == CommitEntered {
      assert Target(t) == Target(s);
      assert RecoversTo(l, t.disk, Target(t));
    }
  }

  lemma EndOpSpace(s: State, t: State, i: nat)
    requires Space(s) && EndOp(s, t, i)
    ensures Space(t)
  {
    UnusedRemove(s.ops, i);
  }

  lemma CommitStepInv(l: Layout, s: State, t: State)
    requires Inv(l, s) && CommitStep(l, s, t)
    ensures Inv(l, t)
  {
    if CommitEnter(s, t) {
    } else if WriteLogStep(l, s, t) {
      WriteLogInv(l, s, t);
    } else if WriteHead(l, s, t) {
      WriteHeadInv(l, s, t);
    } else if InstallStep(l, s, t) {
      InstallInv(l, s, t);
    } else {
      ClearHeadInv(l, s, t);
    }
  }

  lemma WriteLogInv(l: Layout, s: State, t: State)
    requires Inv(l, s) && WriteLogStep(l, s, t)
    ensures Inv(l, t)
  {
    assert Shape(l, t) && Space(t);
    assert Target(t) == Target(s);
    LogCopied(l, s.disk, s.cache, s.lh, s.phase.tail, Target(s));
  }

  /** A block copied to its slot does not touch the home blocks or the header. */
  lemma LogCopied(l: Layout, disk: Disk, cache: Disk, lh: seq<int>, k: nat, target: Disk)
    requires l.Valid() && |disk| == |cache| == |target| == l.blocks && GoodHeader(l, lh) && k < |lh|
    requires Copied(l, disk, cache, lh, k) && Clean(l, disk, cache, lh) && HeaderClear(disk[l.start])
      && RecoversTo(l, disk, target)
    ensures var d, c := disk[l.Slot(k) := cache[lh[k]]], cache[l.Slot(k) := cache[lh[k]]];
      && Copied(l, d, c, lh, k + 1) && Clean(l, d, c, lh) && SameHome(l, c, cache) && RecoversTo(l, d, target)
      && d[l.start] == disk[l.start] && c[l.start] == cache[l.start]
  {
    assert !l.IsHome(l.Slot(k)) && l.Slot(k) != l.start;
  }

  /** Once the slots hold the target contents, the header write alone moves recovery to it. */
  lemma HeaderCommits(l: Layout, d: Disk, h: Block, lh: seq<int>, target: Disk)
    requires l.Valid() && |d| == |target| == l.blocks
    requires GoodHeader(l, lh) && HeaderOk(h) && Decode(h) == lh
    requires forall i {:trigger l.Slot(i)} | 0 <= i < |lh| :: d[l.Slot(i)] == target[lh[i]]
    requires forall b {:trigger l.IsHome(b)} | l.IsHome(b) && b !in lh :: d[b] == target[b]
    ensures RecoversTo(l, d[l.start := h], target)
  {
  }

  /** Installing one slot, again or for the first time, does not change what recovery gives. */
  lemma InstallKeepsRecovery(l: Layout, d: Disk, target: Disk, k: nat)
    requires l.Valid() && RecoversTo(l, d, target) && k < |Decode(d[l.start])|
    ensures RecoversTo(l, d[Decode(d[l.start])[k] := d[l.Slot(k)]], target)
  {
    var lh := Decode(d[l.start]);
    var e := d[lh[k] := d[l.Slot(k)]];
    assert l.IsHome(lh[k]) && !l.IsHome(l.start);
    assert e[l.start] == d[l.start];
    forall i | 0 <= i < |lh| ensures e[l.Slot(i)] == target[lh[i]] {
      assert !l.IsHome(l.Slot(i));
    }
  }

  lemma InstallOne(l: Layout, disk: Disk, cache: Disk, lh: seq<int>, k: nat, target: Disk)
    requires l.Valid() && |disk| == |cache| == |target| == l.blocks && GoodHeader(l, lh)
    requires Installed(l, disk, cache, lh, k, target) && k < |lh|
    requires disk[l.Slot(k)] == target[lh[k]]
    ensures Installed(l, disk[lh[k] := cache[l.Slot(k)]], cache[lh[k] := cache[l.Slot(k)]], lh, k + 1, target)
  {
    assert lh[k..] == [lh[k]] + lh[k + 1..];
    assert l.IsHome(lh[k]);
    assert forall i | 0 <= i < |lh| :: !l.IsHome(l.Slot(i));
  }

  lemma WriteHeadInv(l: Layout, s: State, t: State)
    requires Inv(l, s) && WriteHead(l, s, t)
    ensures Inv(l, t)
  {
    assert Shape(l, t) && Space(t);
    assert Target(t) == s.history[|s.history| - 1];
    HeadWritten(l, s.disk, s.cache, s.lh, s.history[|s.history| - 1]);
  }

  lemma HeadWritten(l: Layout, disk: Disk, cache: Disk, lh: seq<int>, target: Disk)
    requires l.Valid() && |disk| == |cache| == |target| == l.blocks && GoodHeader(l, lh)
      && |cache[l.start].words| == WORDS
    requires Copied(l, disk, cache, lh, |lh|) && Clean(l, disk, cache, lh) && SameHome(l, cache, target)
    ensures var h := Encode(cache[l.start], lh);
      && HeaderOk(h) && Decode(h) == lh && RecoversTo(l, disk[l.start := h], target)
      && Installed(l, disk[l.start := h], cache[l.start := h], lh, 0, target)
  {
    var h := Encode(cache[l.start], lh);
    assert Decode(h) == lh && lh[0..] == lh;
    assert !l.IsHome(l.start);
    HeaderCommits(l, disk, h, lh, target);
  }

  lemma InstallInv(l: Layout, s: State, t: State)
    requires Inv(l, s) && InstallStep(l, s, t)
    ensures Inv(l, t)
  {
    var k := s.phase.tail;
    assert Shape(l, t) && Space(t);
    assert Target(t) == Target(s);
    InstallContents(l, s, k, Target(s));
  }

  lemma InstallContents(l: Layout, s: State, k: nat, target: Disk)
    requires Shape(l, s) && k < |s.lh| && |target| == l.blocks && RecoversTo(l, s.disk, target)
    requires Decode(s.disk[l.start]) == s.lh && Installed(l, s.disk, s.cache, s.lh, k, target)
      && s.cache[l.start] == s.disk[l.start]
    ensures var d, c := s.disk[s.lh[k] := s.cache[l.Slot(k)]], s.cache[s.lh[k] := s.cache[l.Slot(k)]];
      && RecoversTo(l, d, target) && Installed(l, d, c, s.lh, k + 1, target)
      && d[l.start] == s.disk[l.start] && c[l.start] == s.cache[l.start]
  {
    assert l.IsHome(s.lh[k]);
    assert s.cache[l.Slot(k)] == s.disk[l.Slot(k)];
    InstallKeepsRecovery(l, s.disk, target, k);
    InstallOne(l, s.disk, s.cache, s.lh, k, target);
  }

  lemma ClearHeadInv(l: Layout, s: State, t: State)
    requires Inv(l, s) && ClearHead(l, s, t)
    ensures Inv(l, t)
  {
    assert s.lh[s.phase.tail..] == [];
    HeadCleared(l, s.disk, s.cache, s.lh, Target(s), t.disk[l.start]);
    assert Shape(l, t) && Space(t);
    assert Target(t) == Target(s);
  }

  /** With every block in its home place, erasing the header changes nothing for recovery. */
  lemma HeadCleared(l: Layout, disk: Disk, cache: Disk, lh: seq<int>, target: Disk, h: Block)
    requires l.Valid() && |disk| == |cache| == |target| == l.blocks && GoodHeader(l, lh) && lh[|lh|..] == []
    requires RecoversTo(l, disk, target) && Decode(disk[l.start]) == lh && HeaderClear(h)
      && Installed(l, disk, cache, lh, |lh|, target)
    ensures RecoversTo(l, disk[l.start := h], target) && Clean(l, disk[l.start := h], cache[l.start := h], [])
  {
    assert !l.IsHome(l.start) && Decode(h) == [];
  }

  lemma CrashInv(l: Layout, s: State, t: State)
    requires Inv(l, s) && Crash(s, t)
    ensures Inv(l, t)
  {
    UnusedNonneg(s.ops);
  }

  lemma CommitFinishInv(l: Layout, s: State, t: State)
    requires Inv(l, s) && CommitFinish(s, t)
    ensures Inv(l, t)
  {
  }

  lemma ReadHeadInv(l: Layout, s: State, t: State)
    requires Inv(l, s) && ReadHead(l, s, t)
    ensures Inv(l, t)
  {
  }

  lemma NextInv(l: Layout, s: State, t: State)
    requires Inv(l, s) && Next(l, s, t)
    ensures Inv(l, t)
  {
    if BeginOp(s, t) {
      BeginOpInv(l, s, t);
    } else if i: nat, b: int, data: Block :| LogWrite(l, s, t, i, b, data) {
      LogWriteInv(l, s, t, i, b, data);
    } else if i: nat :| EndOp(s, t, i) {
      EndOpInv(l, s, t, i);
    } else if CommitStep(l, s, t) {
      CommitStepInv(l, s, t);
    } else if CommitFinish(s, t) {
      CommitFinishInv(l, s, t);
    } else if Crash(s, t) {
      CrashInv(l, s, t);
    } else {
      ReadHeadInv(l, s, t);
    }
  }

  // ---- whole runs

  lemma RunInv(l: Layout, run: seq<State>, i: nat)
    requires IsRun(l, run) && i < |run|
    ensures Inv(l, run[i])
  {
    forall s | Init(l, s) ensures Inv(l, s) { InitInv(l, s); }
    forall s, t | Inv(l, s) && Next(l, s, t) ensures Inv(l, t) { NextInv(l, s, t); }
    Always(run, Starts(l), Steps(l), s => Inv(l, s), i);
  }

  /** Every transaction returned in `s` is, in `t`, still recorded and returned at its place. */
  ghost predicate Keeps(s: State, t: State) {
    && s.returned < |s.history| && s.returned <= t.returned < |t.history|
    && forall k | 0 <= k <= s.returned :: s.history[k] == t.history[k]
  }

  lemma StepKeepsReturned(l: Layout, s: State, t: State)
    requires Inv(l, s) && Next(l, s, t)
    ensures Keeps(s, t)
  {
    NextInv(l, s, t);
  }

  lemma RunStepKeeps(l: Layout, run: seq<State>, i: nat)
    requires IsRun(l, run) && i + 1 < |run|
    ensures Keeps(run[i], run[i + 1])
  {
    RunInv(l, run, i);
    assert StepAt(run, Steps(l), i);
    StepKeepsReturned(l, run[i], run[i + 1]);
  }

  /** Crash atomicity. In every state of every run in which the file system is usable, so
      in particular after every completed recovery, the home blocks on disk are exactly the
      image after the last recorded transaction. */
  lemma CrashAtomicity(l: Layout, run: seq<State>, i: nat)
    requires IsRun(l, run) && i < |run| && run[i].phase == Running
    ensures |run[i].history| == run[i].returned + 1
    ensures SameHome(l, run[i].disk, run[i].history[run[i].returned])
  {
    RunInv(l, run, i);
  }

  /** Durability. However many crashes and recoveries follow, a transaction whose commit has
      returned stays in the recorded prefix, at the same place. */
  lemma {:induction false} Durability(l: Layout, run: seq<State>, i: nat, j: nat)
    requires IsRun(l, run) && i <= j < |run|
    ensures Keeps(run[i], run[j])
    decreases j
  {
    if i < j {
      Durability(l, run, i, j - 1);
      RunStepKeeps(l, run, j - 1);
    } else {
      RunInv(l, run, i);
    }
  }

  /** There is an image that recovery leads to. */
  predicate Recorded(s: State) { |s.history| >= 2 || (|s.history| == 1 && !Uncommitted(s)) }

  /** A crash before the step and a crash after it each recover to a recorded image. The two have
      the same home blocks but at the write of the header, which moves recovery from the image
      before the transaction to the one after it. */
  ghost predicate RecoveryMoves(l: Layout, s: State, t: State) {
    && CanRecover(l, s) && CanRecover(l, t)
    && if WriteHead(l, s, t) then
         var n := |s.history|; n >= 2 && Target(s) == s.history[n - 2] && Target(t) == s.history[n - 1]
       else SameHome(l, Target(s), Target(t))
  }

  /** The point of commit: so it is at every step of every run. */
  lemma CommitPoint(l: Layout, run: seq<State>, i: nat)
    requires IsRun(l, run) && i + 1 < |run|
    ensures RecoveryMoves(l, run[i], run[i + 1])
  {
    var s, t := run[i], run[i + 1];
    RunCanRecover(l, run, i);
    RunCanRecover(l, run, i + 1);
    assert StepAt(run, Steps(l), i);
    StepMoves(l, s, t);
  }

  ghost predicate CanRecover(l: Layout, s: State) { l.Valid() && Recorded(s) && RecoversTo(l, s.disk, Target(s)) }

  lemma RunCanRecover(l: Layout, run: seq<State>, i: nat)
    requires IsRun(l, run) && i < |run|
    ensures CanRecover(l, run[i])
  {
    RunInv(l, run, i);
  }

  lemma StepMoves(l: Layout, s: State, t: State)
    requires CanRecover(l, s) && CanRecover(l, t) && Next(l, s, t)
    ensures RecoveryMoves(l, s, t)
  {
    if s.disk == t.disk {
      OneRecovery(l, s.disk, Target(s), Target(t));
    } else if !WriteHead(l, s, t) {
      DiskSteps(l, s, t);
    }
  }

  lemma DiskSteps(l: Layout, s: State, t: State)
    requires Next(l, s, t) && s.disk != t.disk && !WriteHead(l, s, t)
    ensures t.history == s.history && (Uncommitted(s) <==> Uncommitted(t))
  {
  }

  /** Recovery from a disk has one result. */
  lemma OneRecovery(l: Layout, d: Disk, a: Disk, b: Disk)
    requires l.Valid() && RecoversTo(l, d, a) && RecoversTo(l, d, b)
    ensures SameHome(l, a, b)
  {
    var lh := Decode(d[l.start]);
    forall x {:trigger l.IsHome(x)} | l.IsHome(x) ensures a[x] == b[x] {
      if x in lh {
        var i :| 0 <= i < |lh| && lh[i] == x;
        assert d[l.Slot(i)] == a[lh[i]] && d[l.Slot(i)] == b[lh[i]];
      }
    }
  }

  /** Log space. In every interleaving the header plus the unused reservations fit LOGSIZE,
      no operation is outstanding during a commit, and every slot lies in the log region. */
  lemma LogSpace(l: Layout, run: seq<State>, i: nat)
    requires IsRun(l, run) && i < |run|
    ensures |run[i].lh| + Unused(run[i].ops) <= LOGSIZE
    ensures run[i].committing ==> run[i].ops == []
    ensures forall k | 0 <= k < |run[i].lh| :: l.start < l.Slot(k) < l.start + l.size
  {
    RunInv(l, run, i);
  }

  /** In every reachable state log_write panics exactly when the header is at capacity,
      even for a block it would only absorb. */
  lemma PanicsWhenFull(l: Layout, run: seq<State>, i: nat, b: int)
    requires IsRun(l, run)
    requires Within(l, run[|run| - 1], i, b)
    ensures LogWritePanics(l, run[|run| - 1]) <==> |run[|run| - 1].lh| == l.Capacity()
  {
    RunInv(l, run, |run| - 1);
  }

  /** log_write panics on a block within the caller's reservation. */
  ghost predicate Refused(l: Layout, run: seq<State>, i: nat, b: int) {
    IsRun(l, run) && Within(l, run[|run| - 1], i, b) && LogWritePanics(l, run[|run| - 1])
  }

  /** The same for a block that is not in the log yet. */
  ghost predicate RefusedNew(l: Layout, run: seq<State>, i: nat, b: int) {
    Refused(l, run, i, b) && b !in run[|run| - 1].lh
  }

  /** The blocks outside the log. */
  function Homes(l: Layout): int { l.blocks - l.size }

  /** A header names no more blocks than there are outside the log. */
  lemma HeaderInHomes(l: Layout, lh: seq<int>)
    requires l.Valid() && (forall i | 0 <= i < |lh| :: l.IsHome(lh[i])) && forall i, j | 0 <= i < j < |lh| ::
      lh[i] != lh[j]
    ensures |lh| <= Homes(l)
  {
    var q := seq(|lh|, i requires 0 <= i < |lh| => assert l.IsHome(lh[i]); Packed(l, lh[i]));
    Pigeonhole.DistinctBelow(q, Homes(l));
  }

  /** The number of a home block among the home blocks. */
  function Packed(l: Layout, b: int): nat requires l.IsHome(b) { if b < l.start then b else b - l.size }

  /** log_write panics before it looks for the block in the log. So some write within its
      reservation is refused, for every size of the log, as soon as the log can fill up. */
  lemma SomeRefusedIff(l: Layout)
    requires l.Valid()
    ensures (exists run: seq<State>, i: nat, b: int :: Refused(l, run, i, b))
      <==> Homes(l) >= 1 && Homes(l) >= l.Capacity()
  {
    if run: seq<State>, i: nat, b: int :| Refused(l, run, i, b) {
      RunInv(l, run, |run| - 1);
      HeaderInHomes(l, run[|run| - 1].lh);
    }
    if Homes(l) >= 1 && Homes(l) >= l.Capacity() {
      var run := Fill(l, l.Capacity());
      HomeNumbers(l, 0);
      var s, b := run[|run| - 1], HomeNumber(l, 0);
      assert l.Capacity() > 0 ==> s.lh[0] == b;
      assert Refused(l, run, 0, b);
    }
  }

  /** begin_op reserves LOGSIZE blocks, but log_write stops at size - 1: no new block within its
      reservation is ever refused if and only if the log has more than LOGSIZE blocks, or the
      disk too few others to fill it. */
  lemma NewBlocksSafeIff(l: Layout)
    requires l.Valid()
    ensures (forall run: seq<State>, i: nat, b: int :: !RefusedNew(l, run, i, b))
      <==> l.size > LOGSIZE || Homes(l) < l.size
  {
    if l.size > LOGSIZE || Homes(l) < l.size {
      forall run: seq<State>, i: nat, b: int ensures !RefusedNew(l, run, i, b) {
        if RefusedNew(l, run, i, b) { NoNewRefused(l, run, i, b); }
      }
    } else {
      var k := l.size - 1;
      var run := Fill(l, k);
      HomeNumbers(l, k);
      assert RefusedNew(l, run, k / MAXOPBLOCKS, HomeNumber(l, k));
    }
  }

  lemma NoNewRefused(l: Layout, run: seq<State>, i: nat, b: int)
    requires l.Valid() && RefusedNew(l, run, i, b)
    ensures l.size <= LOGSIZE && Homes(l) >= l.size
  {
    var s := run[|run| - 1];
    RunInv(l, run, |run| - 1);
    UnusedNonneg(s.ops);
    HeaderInHomes(l, s.lh + [b]);
  }

  /** The layout mkfs writes (nlog = LOGSIZE) refuses a new block. */
  lemma MkfsLayoutRefuses()
    ensures exists run: seq<State>, i: nat, b: int :: RefusedNew(Layout(2, LOGSIZE, 1000), run, i, b)
  {
    NewBlocksSafeIff(Layout(2, LOGSIZE, 1000));
  }

  function HomeNumber(l: Layout, k: nat): nat { if k < l.start then k else k + l.size }

  lemma HomeNumbers(l: Layout, k: nat)
    requires l.Valid() && k < Homes(l)
    ensures l.IsHome(HomeNumber(l, k)) && HomeNumber(l, k) !in seq(k, i requires i >= 0 => HomeNumber(l, i))
  {
  }

  function Share(k: nat, i: nat): nat {
    if k <= i * MAXOPBLOCKS then 0 else if k >= (i + 1) * MAXOPBLOCKS then MAXOPBLOCKS else k - i * MAXOPBLOCKS
  }

  lemma RunExtend(l: Layout, run: seq<State>, t: State)
    requires IsRun(l, run) && Next(l, run[|run| - 1], t)
    ensures IsRun(l, run + [t])
  {
    Extend(run, Starts(l), Steps(l), t);
  }

  /** Three operations have reserved the whole log and written k distinct blocks between them. */
  ghost predicate Filled(l: Layout, s: State, k: nat) {
    && s.phase == Running && |s.cache| == l.blocks
    && s.ops == [Share(k, 0), Share(k, 1), Share(k, 2)]
    && s.lh == seq(k, i requires i >= 0 => HomeNumber(l, i))
  }

  lemma {:induction false} Fill(l: Layout, k: nat) returns (run: seq<State>)
    requires l.Valid() && k <= Homes(l) && k <= l.Capacity()
    ensures IsRun(l, run) && Filled(l, run[|run| - 1], k)
  {
    if k == 0 {
      run := Reserved(l);
    } else {
      run := Fill(l, k - 1);
      var t := FillStep(l, run[|run| - 1], k - 1);
      RunExtend(l, run, t);
      run := run + [t];
    }
  }

  /** The three operations end and the commit of the k blocks begins. */
  lemma Commits(l: Layout, k: nat) returns (run: seq<State>)
    requires l.Valid() && k <= Homes(l) && k <= l.Capacity()
    ensures IsRun(l, run) && run[|run| - 1].phase == CommitEntered && |run[|run| - 1].lh| == k
  {
    run := Fill(l, k);
    var s := run[|run| - 1];
    var s1, s2 := s.(ops := s.ops[1..]), s.(ops := s.ops[2..]);
    var s3 := s.(ops := [], committing := true, phase := CommitEntered, history := s.history + [s.cache]);
    assert EndOp(s, s1, 0) && EndOp(s1, s2, 0) && EndOp(s2, s3, 0);
    RunExtend(l, run, s1);
    RunExtend(l, run + [s1], s2);
    RunExtend(l, run + [s1] + [s2], s3);
    run := run + [s1] + [s2] + [s3];
  }

  const ZERO: Block := Block(Zeros(WORDS))

  function Zeros(n: nat): seq<int> { seq(n, i => 0) }

  lemma Reserved(l: Layout) returns (run: seq<State>)
    requires l.Valid()
    ensures IsRun(l, run) && Filled(l, run[|run| - 1], 0)
  {
    var d: Disk := seq(l.blocks, i => ZERO);
    var s := State(d, d, [], [], false, Running, [d], 0);
    var s1, s2, s3 := s.(ops := [0]), s.(ops := [0, 0]), s.(ops := [0, 0, 0]);
    assert BeginOp(s, s1) && BeginOp(s1, s2) && BeginOp(s2, s3);
    run := [s, s1, s2, s3];
    assert StepAt(run, Steps(l), 0) && StepAt(run, Steps(l), 1) && StepAt(run, Steps(l), 2);
  }

  lemma FillStep(l: Layout, s: State, k: nat) returns (t: State)
    requires l.Valid() && k < Homes(l) && k < l.Capacity() && Filled(l, s, k)
    ensures Next(l, s, t) && Filled(l, t, k + 1)
  {
    var i, b := k / MAXOPBLOCKS, HomeNumber(l, k);
    HomeNumbers(l, k);
    SharesMore(k);
    t := s.(cache := s.cache[b := ZERO], lh := s.lh + [b], ops := s.ops[i := s.ops[i] + 1]);
    assert LogWrite(l, s, t, i, b, ZERO);
  }

  lemma SharesMore(k: nat)
    requires k < LOGSIZE
    ensures var i, ops := k / MAXOPBLOCKS, [Share(k, 0), Share(k, 1), Share(k, 2)];
      i < 3 && ops[i] < MAXOPBLOCKS && ops[i := ops[i] + 1] == [Share(k + 1, 0), Share(k + 1, 1), Share(k + 1, 2)]
  {
  }
}
