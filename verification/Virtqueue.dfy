/** The split virtqueue between guest/xv6/kernel/virtio_disk.c (driver) and
    src/virtio_dev.c (device). One machine interleaves any number of driver processes, the
    device's request loop and the completion interrupt. Ring indices are the 16-bit
    free-running counters of the code. */
module Virtqueue {
  import opened Options
  import opened Runs
  import opened Pigeonhole

  const NUM: nat := 8
  const U16: nat := 0x1_0000
  const U32: nat := 0x1_0000_0000
  const FSIMG_SIZE: nat := 1000
  const F_NEXT: nat := 1
  const F_WRITE: nat := 2
  const STATUS_OK: nat := 0
  const STATUS_FAILED: nat := 0xee
  const STATUS_PENDING: nat := 0xff

  type Block = seq<int>
  /** The guest addresses a descriptor can hold: a request header in ops[], a buffer's data,
      or a status byte in info[]. */
  datatype Addr = Null | ReqOf(slot: nat) | DataOf(buf: nat) | StatusOf(slot: nat)
  datatype Desc = Desc(addr: Addr, len: nat, flags: nat, next: nat)
  datatype Req = Req(write: bool, sector: nat)
  datatype Chain = Chain(a: nat, b: nat, c: nat)

  /** Where the process that uses a buffer stands in virtio_disk_rw. */
  datatype Rw =
    | Out
    | Formatted(chain: Chain, write: bool)
    | InRing(chain: Chain, write: bool)
    | Published(chain: Chain, write: bool, k: nat)   // the k-th request ever published

  /** Where the device stands in virtio_blk_req_handler. */
  datatype Dev = Polling | Fetched(head: nat) | Served(head: nat) | Posted(head: nat) | Counted

  datatype Lock = Free | Proc(buf: nat) | Intr

  /** A published request, recorded with the data its buffer held at that time. */
  datatype Request = Request(chain: Chain, buf: nat, write: bool, blk: nat, data: Block)

  datatype State = State(
    // disk.free, disk.desc, disk.ops, disk.info[].b and disk.info[].status
    free: seq<bool>, desc: seq<Desc>, ops: seq<Req>, infoBuf: seq<Option<nat>>, status: seq<nat>,
    // the rings; usedSeen is disk.used_idx
    availRing: seq<nat>, availIdx: nat, usedRing: seq<nat>, usedIdx: nat, usedSeen: nat,
    // the struct bufs and, for each, where the process using it stands
    data: seq<Block>, blockno: seq<nat>, disk: seq<bool>, rw: seq<Rw>, lock: Lock, panicked: bool,
    // device
    dev: Dev, devAvail: nat, ramdisk: seq<Block>,
    // records: requests published; how many the device has finished, the driver has seen;
    // which buffer owns each descriptor; the ramdisk at the start
    reqs: seq<Request>, done: nat, seen: nat, owner: seq<nat>, image: seq<Block>)

  // ---- the driver's memory

  function FirstFree(free: seq<bool>, from: nat): (i: nat)
    requires from <= |free|
    ensures from <= i <= |free| && (i < |free| ==> free[i])
    ensures forall j | from <= j < i :: !free[j]
    decreases |free| - from
  {
    if from == |free| || free[from] then from else FirstFree(free, from + 1)
  }

  /** alloc3_desc: the three lowest free descriptors, if there are three. */
  function Alloc3(free: seq<bool>): Option<Chain> {
    var i := FirstFree(free, 0);
    if i == |free| then None else
    var j := FirstFree(free, i + 1);
    if j == |free| then None else
    var k := FirstFree(free, j + 1);
    if k == |free| then None else Some(Chain(i, j, k))
  }

  /** b->blockno * (BSIZE / 512), in 32 bits. */
  function Sector(blockno: nat): nat { blockno * 2 % U32 }

  function Format(desc: seq<Desc>, c: Chain, b: nat, write: bool): seq<Desc>
    requires c.a < |desc| && c.b < |desc| && c.c < |desc|
  {
    desc[c.a := Desc(ReqOf(c.a), 16, F_NEXT, c.b)]
        [c.b := Desc(DataOf(b), 1024, if write then F_NEXT else F_WRITE + F_NEXT, c.c)]
        [c.c := Desc(StatusOf(c.a), 1, F_WRITE, 0)]
  }

  function FreeDesc(desc: seq<Desc>, i: nat): seq<Desc> requires i < |desc| {
    desc[i := Desc(Null, 0, 0, 0)]
  }

  /** next_desc, where NUM says that the chain ends. */
  function NextDesc(desc: seq<Desc>, i: nat): nat requires i < |desc| { NextOf(desc[i]) }

  function NextOf(d: Desc): nat {
    if d.flags % 2 == 0 then NUM else if d.next < NUM then d.next else NUM
  }

  /** The descriptors that a walk from i meets, cut off after n of them. */
  function Walk(desc: seq<Desc>, i: nat, n: nat): (w: seq<nat>)
    requires |desc| == NUM && i < NUM
    ensures forall j | 0 <= j < |w| :: w[j] < NUM
    decreases n
  {
    if n == 0 then []
    else if NextDesc(desc, i) == NUM then [i]
    else [i] + Walk(desc, NextDesc(desc, i), n - 1)
  }

  function SetFree(free: seq<bool>, c: Chain, v: bool): seq<bool>
    requires c.a < |free| && c.b < |free| && c.c < |free|
  {
    free[c.a := v][c.b := v][c.c := v]
  }

  function SetOwner(owner: seq<nat>, c: Chain, b: nat): seq<nat>
    requires c.a < |owner| && c.b < |owner| && c.c < |owner|
  {
    owner[c.a := b][c.b := b][c.c := b]
  }

  // ---- the steps

  ghost predicate Sizes(s: State) {
    && |s.free| == |s.desc| == |s.ops| == |s.infoBuf| == |s.status| == |s.availRing| == |s.usedRing| == |s.owner| == NUM
    && |s.data| == |s.blockno| == |s.disk| == |s.rw| && |s.ramdisk| == FSIMG_SIZE == |s.image|
  }

  ghost predicate Init(s: State) {
    && Sizes(s)
    && (forall i | 0 <= i < NUM :: s.free[i])
    && s.availIdx == s.usedIdx == s.usedSeen == s.devAvail == 0
    && (forall b | 0 <= b < |s.rw| :: s.rw[b] == Out && !s.disk[b])
    && s.lock == Free && !s.panicked && s.dev == Polling
    && s.reqs == [] && s.done == 0 && s.seen == 0 && s.ramdisk == s.image
  }

  /** The holder of a buffer changes it, or the cache reuses it for another block. */
  ghost predicate Modify(s: State, t: State, b: nat) requires Sizes(s) {
    && b < |s.rw| && s.rw[b] == Out
    && |t.data| == |t.blockno| == |s.rw|
    && t == s.(data := s.data[b := t.data[b]], blockno := s.blockno[b := t.blockno[b]])
  }

  /** virtio_disk_rw from the lock to the formatted chain. */
  ghost predicate Start(s: State, t: State, b: nat, write: bool) requires Sizes(s) {
    && b < |s.rw| && s.rw[b] == Out && s.lock == Free && Alloc3(s.free).Some?
    && var c := Alloc3(s.free).value;
       && c.a < NUM && c.b < NUM && c.c < NUM
       && t == s.(free := SetFree(s.free, c, false), owner := SetOwner(s.owner, c, b),
                  desc := Format(s.desc, c, b, write),
                  ops := s.ops[c.a := Req(write, Sector(s.blockno[b]))],
                  infoBuf := s.infoBuf[c.a := Some(b)], status := s.status[c.a := STATUS_PENDING],
                  disk := s.disk[b := true],
                  rw := s.rw[b := Formatted(c, write)], lock := Proc(b))
  }

  ghost predicate PutRing(s: State, t: State, b: nat) requires Sizes(s) {
    && b < |s.rw| && s.rw[b].Formatted?
    && t == s.(availRing := s.availRing[s.availIdx % NUM := s.rw[b].chain.a],
               rw := s.rw[b := InRing(s.rw[b].chain, s.rw[b].write)])
  }

  /** avail->idx += 1, notify, and sleep, which gives up the lock. */
  ghost predicate Publish(s: State, t: State, b: nat) requires Sizes(s) {
    && b < |s.rw| && s.rw[b].InRing?
    && var r := Request(s.rw[b].chain, b, s.rw[b].write, Sector(s.blockno[b]) / 2, s.data[b]);
       t == s.(availIdx := (s.availIdx + 1) % U16, lock := Free, reqs := s.reqs + [r],
               rw := s.rw[b := Published(r.chain, r.write, |s.reqs|)])
  }

  /** Woken with b->disk cleared: forget the buffer and free the chain. */
  ghost predicate Finish(s: State, t: State, b: nat) requires Sizes(s) {
    && b < |s.rw| && s.rw[b].Published? && s.lock == Free && !s.disk[b] && s.rw[b].chain.a < NUM
    && var w := Walk(s.desc, s.rw[b].chain.a, NUM);
       && |w| == 3
       && t == s.(infoBuf := s.infoBuf[s.rw[b].chain.a := None],
                  desc := FreeDesc(FreeDesc(FreeDesc(s.desc, w[0]), w[1]), w[2]),
                  free := SetFree(s.free, Chain(w[0], w[1], w[2]), true),
                  rw := s.rw[b := Out])
  }

  ghost predicate Fetch(s: State, t: State) requires Sizes(s) {
    && s.dev == Polling && s.devAvail != s.availIdx
    && t == s.(dev := Fetched(s.availRing[s.devAvail % NUM]))
  }

  /** ramdisk_rw and the status byte, for a chain of three as the driver builds it. */
  function Transfer(s: State, slot: nat, b: nat, statusSlot: nat): State
    requires Sizes(s) && slot < NUM && statusSlot < NUM && b < |s.rw|
  {
    var blk := s.ops[slot].sector / 2;
    if blk >= FSIMG_SIZE then
      s.(status := s.status[statusSlot := STATUS_FAILED])
    else if s.ops[slot].write then
      s.(ramdisk := s.ramdisk[blk := s.data[b]], status := s.status[statusSlot := STATUS_OK])
    else
      s.(data := s.data[b := s.ramdisk[blk]], status := s.status[statusSlot := STATUS_OK])
  }

  /** virtio_blk_process_desc: a chain that is not three descriptors long is not processed. */
  ghost predicate Serve(s: State, t: State) requires Sizes(s) {
    && s.dev.Fetched? && s.dev.head < NUM
    && var w := Walk(s.desc, s.dev.head, NUM);
       if |w| != 3 then t == s.(dev := Served(s.dev.head))
       else
         var d0, d1, d2 := s.desc[w[0]].addr, s.desc[w[1]].addr, s.desc[w[2]].addr;
         && d0.ReqOf? && d0.slot < NUM && d1.DataOf? && d1.buf < |s.rw| && d2.StatusOf? && d2.slot < NUM
         && t == Transfer(s, d0.slot, d1.buf, d2.slot).(dev := Served(s.dev.head))
  }

  ghost predicate Post(s: State, t: State) requires Sizes(s) {
    && s.dev.Served?
    && t == s.(usedRing := s.usedRing[s.usedIdx % NUM := s.dev.head], dev := Posted(s.dev.head))
  }

  ghost predicate CountUsed(s: State, t: State) {
    s.dev.Posted? && t == s.(usedIdx := (s.usedIdx + 1) % U16, dev := Counted)
  }

  ghost predicate Advance(s: State, t: State) {
    s.dev == Counted && t == s.(devAvail := (s.devAvail + 1) % U16, dev := Polling, done := s.done + 1)
  }

  ghost predicate IntrEnter(s: State, t: State) { s.lock == Free && t == s.(lock := Intr) }

  /** One turn of the loop in virtio_disk_intr. */
  ghost predicate IntrTake(s: State, t: State) requires Sizes(s) {
    && s.lock == Intr && s.usedSeen != s.usedIdx
    && var id := s.usedRing[s.usedSeen % NUM];
       && id < NUM
       && if s.status[id] != STATUS_OK then t == s.(panicked := true)
          else && s.infoBuf[id].Some? && s.infoBuf[id].value < |s.rw|
               && var b := s.infoBuf[id].value;
                  t == s.(disk := s.disk[b := false],
                          usedSeen := (s.usedSeen + 1) % U16, seen := s.seen + 1)
  }

  ghost predicate IntrExit(s: State, t: State) {
    s.lock == Intr && s.usedSeen == s.usedIdx && t == s.(lock := Free)
  }

  ghost predicate DriverStep(s: State, t: State, b: nat) requires Sizes(s) {
    || Modify(s, t, b) || Start(s, t, b, true) || Start(s, t, b, false)
    || PutRing(s, t, b) || Publish(s, t, b) || Finish(s, t, b)
  }

  ghost predicate DeviceStep(s: State, t: State) requires Sizes(s) {
    Fetch(s, t) || Serve(s, t) || Post(s, t) || CountUsed(s, t) || Advance(s, t)
  }

  ghost predicate IntrStep(s: State, t: State) requires Sizes(s) {
    IntrEnter(s, t) || IntrTake(s, t) || IntrExit(s, t)
  }

  ghost predicate Next(s: State, t: State) {
    && Sizes(s) && !s.panicked
    && ((exists b: nat :: DriverStep(s, t, b)) || DeviceStep(s, t) || IntrStep(s, t))
  }

  ghost predicate IsRun(run: seq<State>) { RunOf(run, Init, Next) }

  // ---- the invariant, over the parts of the state it speaks of

  predicate Active(rw: Rw) { !rw.Out? }
  predicate HoldsLock(rw: Rw) { rw.Formatted? || rw.InRing? }
  predicate InChain(c: Chain, i: nat) { i == c.a || i == c.b || i == c.c }

  ghost predicate Distinct(c: Chain) {
    c.a < NUM && c.b < NUM && c.c < NUM && c.a != c.b && c.b != c.c && c.a != c.c
  }

  /** How many requests the device has carried out, and how many the used index counts. */
  function ServedCount(dev: Dev, done: nat): nat { if dev.Polling? || dev.Fetched? then done else done + 1 }
  function UsedCount(dev: Dev, done: nat): nat { if dev.Counted? then done + 1 else done }

  ghost predicate Indices(s: State) {
    && s.availIdx == |s.reqs| % U16 && s.devAvail == s.done % U16
    && s.usedIdx == UsedCount(s.dev, s.done) % U16 && s.usedSeen == s.seen % U16
  }

  ghost predicate Counters(n: nat, dev: Dev, done: nat, seen: nat) {
    seen <= UsedCount(dev, done) && done <= n && (!dev.Polling? ==> done < n)
  }

  ghost predicate Locking(lock: Lock, rw: seq<Rw>) {
    && (lock.Proc? ==> lock.buf < |rw| && HoldsLock(rw[lock.buf]))
    && forall b | 0 <= b < |rw| && HoldsLock(rw[b]) :: lock == Proc(b)
  }

  /** Every descriptor is free or in the chain of its owner; an active buffer owns its chain. */
  ghost predicate Ownership(free: seq<bool>, owner: seq<nat>, rw: seq<Rw>) {
    && |free| == |owner| == NUM
    && (forall i {:trigger owner[i]} | 0 <= i < NUM && !free[i] ::
          owner[i] < |rw| && Active(rw[owner[i]]) && InChain(rw[owner[i]].chain, i))
    && forall b | 0 <= b < |rw| && Active(rw[b]) :: Owns(free, owner, b, rw[b].chain)
  }

  ghost predicate Owns(free: seq<bool>, owner: seq<nat>, b: nat, c: Chain) requires |free| == |owner| == NUM {
    && Distinct(c) && !free[c.a] && !free[c.b] && !free[c.c]
    && owner[c.a] == owner[c.b] == owner[c.c] == b
  }

  /** A chain in memory says what virtio_disk_rw(b, write) asked for. */
  ghost predicate Describes(desc: seq<Desc>, c: Chain, b: nat, write: bool) {
    && |desc| == NUM && Distinct(c)
    && desc[c.a] == Desc(ReqOf(c.a), 16, F_NEXT, c.b)
    && desc[c.b] == Desc(DataOf(b), 1024, if write then F_NEXT else F_WRITE + F_NEXT, c.c)
    && desc[c.c] == Desc(StatusOf(c.a), 1, F_WRITE, 0)
  }

  ghost predicate Chains(desc: seq<Desc>, rw: seq<Rw>) {
    forall b | 0 <= b < |rw| && Active(rw[b]) :: Describes(desc, rw[b].chain, b, rw[b].write)
  }

  ghost predicate Headers(ops: seq<Req>, infoBuf: seq<Option<nat>>, blockno: seq<nat>, rw: seq<Rw>) {
    && |ops| == |infoBuf| == NUM && |blockno| == |rw|
    && forall b | 0 <= b < |rw| && Active(rw[b]) :: Header(ops, infoBuf, rw[b].chain.a, b, rw[b].write, blockno[b])
  }

  ghost predicate Header(ops: seq<Req>, infoBuf: seq<Option<nat>>, a: nat, b: nat, write: bool, blockno: nat)
    requires |ops| == |infoBuf| == NUM
  {
    a < NUM && ops[a] == Req(write, Sector(blockno)) && infoBuf[a] == Some(b)
  }

  /** The k-th request is its buffer's current one. */
  ghost predicate Current(reqs: seq<Request>, rw: seq<Rw>, k: nat) requires k < |reqs| {
    var r := reqs[k];
    r.buf < |rw| && rw[r.buf] == Published(r.chain, r.write, k)
  }

  ghost predicate Flight(reqs: seq<Request>, rw: seq<Rw>, seen: nat) {
    && (forall k | seen <= k < |reqs| :: Current(reqs, rw, k))
    && forall b | 0 <= b < |rw| && rw[b].Published? :: IssuedBy(reqs, rw[b], b)
  }

  ghost predicate IssuedBy(reqs: seq<Request>, rw: Rw, b: nat) requires rw.Published? {
    rw.k < |reqs| && reqs[rw.k].buf == b && reqs[rw.k].chain == rw.chain && reqs[rw.k].write == rw.write
  }

  /** b->disk is set from the start of a request until its completion is seen. */
  ghost predicate DiskFlags(disk: seq<bool>, rw: seq<Rw>, seen: nat) {
    && |disk| == |rw|
    && (forall b | 0 <= b < |rw| && rw[b].Published? :: disk[b] <==> seen <= rw[b].k)
    && (forall b | 0 <= b < |rw| && HoldsLock(rw[b]) :: disk[b])
  }

  ghost predicate BlockNumbers(blockno: seq<nat>, rw: seq<Rw>, reqs: seq<Request>) {
    && |blockno| == |rw|
    && forall b | 0 <= b < |rw| && rw[b].Published? && rw[b].k < |reqs| :: reqs[rw[b].k].blk == Sector(blockno[b]) / 2
  }

  ghost predicate AvailRing(ring: seq<nat>, reqs: seq<Request>, done: nat) {
    |ring| == NUM && forall k | done <= k < |reqs| :: ring[k % NUM] == reqs[k].chain.a
  }

  ghost predicate UsedRing(ring: seq<nat>, reqs: seq<Request>, seen: nat, used: nat) {
    |ring| == NUM && forall k | seen <= k < used && k < |reqs| :: ring[k % NUM] == reqs[k].chain.a
  }

  ghost predicate Handling(dev: Dev, usedRing: seq<nat>, reqs: seq<Request>, done: nat) {
    && |usedRing| == NUM
    && (dev.Fetched? || dev.Served? || dev.Posted? ==> done < |reqs| && dev.head == reqs[done].chain.a)
    && (dev.Posted? ==> usedRing[done % NUM] == dev.head)
  }

  ghost predicate Putting(lock: Lock, rw: seq<Rw>, availRing: seq<nat>, n: nat) {
    && |availRing| == NUM
    && forall b | 0 <= b < |rw| && rw[b].InRing? :: availRing[n % NUM] == rw[b].chain.a
  }

  /** The ramdisk after the first n requests, applied in the order they were published. */
  function Applied(image: seq<Block>, reqs: seq<Request>, n: nat): (d: seq<Block>)
    requires n <= |reqs|
    ensures |d| == |image|
  {
    if n == 0 then image
    else
      var d := Applied(image, reqs, n - 1);
      var r := reqs[n - 1];
      if r.write && r.blk < |d| then d[r.blk := r.data] else d
  }

  /** What the buffer of request k holds once the request is served: its own data for a
      write, the block as the earlier requests left it for a read. */
  function Outcome(image: seq<Block>, reqs: seq<Request>, k: nat): Block requires k < |reqs| {
    var r := reqs[k];
    if !r.write && r.blk < |image| then Applied(image, reqs, k)[r.blk] else r.data
  }

  ghost predicate Buffers(data: seq<Block>, rw: seq<Rw>, image: seq<Block>, reqs: seq<Request>, served: nat) {
    && |data| == |rw|
    && forall b | 0 <= b < |rw| && rw[b].Published? && rw[b].k < |reqs| ::
         data[b] == if rw[b].k < served then Outcome(image, reqs, rw[b].k) else reqs[rw[b].k].data
  }

  ghost predicate Statuses(status: seq<nat>, reqs: seq<Request>, seen: nat, served: nat) {
    && |status| == NUM
    && forall k | seen <= k < served && k < |reqs| && reqs[k].chain.a < NUM ::
         status[reqs[k].chain.a] == if reqs[k].blk < FSIMG_SIZE then STATUS_OK else STATUS_FAILED
  }

  ghost predicate Control(s: State) {
    && Sizes(s) && Indices(s) && Counters(|s.reqs|, s.dev, s.done, s.seen)
    && Locking(s.lock, s.rw) && Flight(s.reqs, s.rw, s.seen)
    && Ownership(s.free, s.owner, s.rw)
  }

  ghost predicate InMemory(s: State) {
    && Chains(s.desc, s.rw) && Headers(s.ops, s.infoBuf, s.blockno, s.rw)
    && DiskFlags(s.disk, s.rw, s.seen) && BlockNumbers(s.blockno, s.rw, s.reqs)
    && AvailRing(s.availRing, s.reqs, s.done) && Putting(s.lock, s.rw, s.availRing, |s.reqs|)
    && UsedRing(s.usedRing, s.reqs, s.seen, UsedCount(s.dev, s.done)) && Handling(s.dev, s.usedRing, s.reqs, s.done)
  }

  ghost predicate Moved(s: State) {
    && ServedCount(s.dev, s.done) <= |s.reqs|
    && s.ramdisk == Applied(s.image, s.reqs, ServedCount(s.dev, s.done))
    && Buffers(s.data, s.rw, s.image, s.reqs, ServedCount(s.dev, s.done))
    && Statuses(s.status, s.reqs, s.seen, ServedCount(s.dev, s.done))
  }

  ghost predicate Inv(s: State) {
    Control(s) && InMemory(s) && Moved(s)
  }

  lemma InitInv(s: State)
    requires Init(s)
    ensures Inv(s)
  {
  }

  // ---- arithmetic of the free-running indices

  lemma SameSlot(x: nat)
    ensures x % U16 % NUM == x % NUM
  {
  }

  lemma IndexStep(x: nat)
    ensures (x % U16 + 1) % U16 == (x + 1) % U16
  {
  }

  lemma DifferentSlots(x: nat, y: nat)
    requires x < y < x + NUM
    ensures x % NUM != y % NUM
  {
  }

  // ---- at most two chains fit

  lemma MembersSize(c: Chain)
    requires Distinct(c)
    ensures |Members(c)| == 3 && Members(c) <= Below(NUM)
  {
    assert Members(c) == {c.a} + {c.b} + {c.c};
  }

  lemma ThreeTriplesMeet(x: set<nat>, y: set<nat>, z: set<nat>)
    requires |x| == |y| == |z| == 3
    requires x <= Below(NUM) && y <= Below(NUM) && z <= Below(NUM)
    ensures !(x !! y && x !! z && y !! z)
  {
    if x !! y && x !! z && y !! z {
      assert |x + y| == 6;
      assert x + y !! z;
      assert |x + y + z| == 9;
      BelowSize(NUM);
      SubsetSize(x + y + z, Below(NUM));
    }
  }

  function Members(c: Chain): set<nat> { {c.a, c.b, c.c} }

  predicate Apart(c: Chain, d: Chain) {
    !InChain(d, c.a) && !InChain(d, c.b) && !InChain(d, c.c)
  }

  lemma ActiveApart(free: seq<bool>, owner: seq<nat>, rw: seq<Rw>, b: nat, d: nat)
    requires Ownership(free, owner, rw) && b < |rw| && d < |rw| && b != d
    requires Active(rw[b]) && Active(rw[d])
    ensures Distinct(rw[b].chain) && Distinct(rw[d].chain) && Apart(rw[b].chain, rw[d].chain)
    ensures Members(rw[b].chain) !! Members(rw[d].chain)
  {
    assert Owns(free, owner, b, rw[b].chain) && Owns(free, owner, d, rw[d].chain);
  }

  lemma AtMostTwoActive(free: seq<bool>, owner: seq<nat>, rw: seq<Rw>, b: nat, d: nat, e: nat)
    requires Ownership(free, owner, rw) && b < |rw| && d < |rw| && e < |rw|
    requires b != d && d != e && b != e
    ensures !(Active(rw[b]) && Active(rw[d]) && Active(rw[e]))
  {
    if Active(rw[b]) && Active(rw[d]) && Active(rw[e]) {
      ActiveApart(free, owner, rw, b, d);
      ActiveApart(free, owner, rw, b, e);
      ActiveApart(free, owner, rw, d, e);
      MembersSize(rw[b].chain);
      MembersSize(rw[d].chain);
      MembersSize(rw[e].chain);
      ThreeTriplesMeet(Members(rw[b].chain), Members(rw[d].chain), Members(rw[e].chain));
    }
  }

  /** No more than two requests are published and not yet seen completed. */
  lemma Window(s: State)
    requires Control(s)
    ensures |s.reqs| <= s.seen + 2
  {
    if |s.reqs| > s.seen + 2 {
      var k := s.seen;
      assert Current(s.reqs, s.rw, k) && Current(s.reqs, s.rw, k + 1) && Current(s.reqs, s.rw, k + 2);
      AtMostTwoActive(s.free, s.owner, s.rw, s.reqs[k].buf, s.reqs[k + 1].buf, s.reqs[k + 2].buf);
    }
  }

  // ---- every step keeps the invariant: the driver

  lemma ModifyInv(s: State, t: State, b: nat)
    requires Inv(s) && Modify(s, t, b)
    ensures Inv(t)
  {
  }

  lemma TakeChain(free: seq<bool>, owner: seq<nat>, rw: seq<Rw>, b: nat, r: Rw)
    requires Ownership(free, owner, rw) && b < |rw| && rw[b] == Out && Active(r)
    requires Distinct(r.chain) && free[r.chain.a] && free[r.chain.b] && free[r.chain.c]
    ensures Ownership(SetFree(free, r.chain, false), SetOwner(owner, r.chain, b), rw[b := r])
  {
    var c, rw' := r.chain, rw[b := r];
    var free', owner' := SetFree(free, c, false), SetOwner(owner, c, b);
    forall d | 0 <= d < |rw'| && Active(rw'[d]) ensures Owns(free', owner', d, rw'[d].chain) {
      if d != b { assert Owns(free, owner, d, rw[d].chain); }
    }
    forall i | 0 <= i < NUM && !free'[i]
      ensures owner'[i] < |rw'| && Active(rw'[owner'[i]]) && InChain(rw'[owner'[i]].chain, i)
    {
      if !InChain(c, i) { assert !free[i] && owner'[i] == owner[i]; }
    }
  }

  lemma AllocDistinct(free: seq<bool>)
    requires |free| == NUM && Alloc3(free).Some?
    ensures var c := Alloc3(free).value; Distinct(c) && free[c.a] && free[c.b] && free[c.c]
  {
  }

  lemma StartControl(s: State, t: State, b: nat, write: bool)
    requires Control(s) && Start(s, t, b, write)
    ensures Control(t)
  {
    var c := Alloc3(s.free).value;
    AllocDistinct(s.free);
    TakeChain(s.free, s.owner, s.rw, b, Formatted(c, write));
    forall k | s.seen <= k < |s.reqs| ensures Current(t.reqs, t.rw, k) { assert Current(s.reqs, s.rw, k); }
  }

  /** Formatting a chain of free descriptors leaves the other chains as they are. */
  lemma FormatChains(free: seq<bool>, owner: seq<nat>, desc: seq<Desc>, rw: seq<Rw>, b: nat, c: Chain, write: bool)
    requires Ownership(free, owner, rw) && Chains(desc, rw) && |desc| == NUM && b < |rw| && rw[b] == Out
    requires Distinct(c) && free[c.a] && free[c.b] && free[c.c]
    ensures Chains(Format(desc, c, b, write), rw[b := Formatted(c, write)])
  {
    var rw', desc' := rw[b := Formatted(c, write)], Format(desc, c, b, write);
    forall d | 0 <= d < |rw'| && Active(rw'[d]) ensures Describes(desc', rw'[d].chain, d, rw'[d].write) {
      if d != b {
        assert Owns(free, owner, d, rw[d].chain);
        assert Describes(desc, rw[d].chain, d, rw[d].write);
      }
    }
  }

  lemma StartHeaders(s: State, t: State, b: nat, write: bool)
    requires Control(s) && Headers(s.ops, s.infoBuf, s.blockno, s.rw) && Start(s, t, b, write)
    ensures Headers(t.ops, t.infoBuf, t.blockno, t.rw)
  {
    var c := Alloc3(s.free).value;
    AllocDistinct(s.free);
    forall d | 0 <= d < |t.rw| && Active(t.rw[d])
      ensures Header(t.ops, t.infoBuf, t.rw[d].chain.a, d, t.rw[d].write, t.blockno[d])
    {
      if d != b {
        assert Owns(s.free, s.owner, d, s.rw[d].chain);
        assert Header(s.ops, s.infoBuf, s.rw[d].chain.a, d, s.rw[d].write, s.blockno[d]);
      }
    }
  }

  lemma StartMemory(s: State, t: State, b: nat, write: bool)
    requires Inv(s) && Start(s, t, b, write)
    ensures InMemory(t)
  {
    AllocDistinct(s.free);
    FormatChains(s.free, s.owner, s.desc, s.rw, b, Alloc3(s.free).value, write);
    StartHeaders(s, t, b, write);
  }

  lemma StartMoved(s: State, t: State, b: nat, write: bool)
    requires Inv(s) && Start(s, t, b, write)
    ensures Moved(t)
  {
    var c := Alloc3(s.free).value;
    assert s.free[c.a];
    forall k | s.seen <= k < |s.reqs| ensures s.reqs[k].chain.a != c.a {
      assert Current(s.reqs, s.rw, k);
      assert Owns(s.free, s.owner, s.reqs[k].buf, s.reqs[k].chain);
    }
  }

  lemma PutRingControl(s: State, t: State, b: nat)
    requires Control(s) && PutRing(s, t, b)
    ensures Control(t)
  {
    forall k | s.seen <= k < |s.reqs| ensures Current(t.reqs, t.rw, k) { assert Current(s.reqs, s.rw, k); }
    KeepOwnership(s.free, s.owner, s.rw, b, t.rw[b]);
  }

  lemma PutRingMemory(s: State, t: State, b: nat)
    requires Control(s) && InMemory(s) && PutRing(s, t, b)
    ensures InMemory(t)
  {
    SameSlot(|s.reqs|);
    Window(s);
    forall k | s.done <= k < |s.reqs| ensures t.availRing[k % NUM] == t.reqs[k].chain.a {
      DifferentSlots(k, |s.reqs|);
    }
    assert Describes(s.desc, s.rw[b].chain, b, s.rw[b].write);
  }

  lemma PutRingInv(s: State, t: State, b: nat)
    requires Inv(s) && PutRing(s, t, b)
    ensures Inv(t)
  {
    PutRingControl(s, t, b);
    PutRingMemory(s, t, b);
  }

  lemma PublishControl(s: State, t: State, b: nat)
    requires Control(s) && Publish(s, t, b)
    ensures Control(t)
  {
    IndexStep(|s.reqs|);
    forall k | t.seen <= k < |t.reqs| ensures Current(t.reqs, t.rw, k) {
      if k < |s.reqs| { assert Current(s.reqs, s.rw, k); }
    }
    forall d | 0 <= d < |t.rw| && t.rw[d].Published? ensures IssuedBy(t.reqs, t.rw[d], d) {
      if d != b { assert IssuedBy(s.reqs, s.rw[d], d); }
    }
    KeepOwnership(s.free, s.owner, s.rw, b, t.rw[b]);
  }

  lemma KeepOwnership(free: seq<bool>, owner: seq<nat>, rw: seq<Rw>, b: nat, r: Rw)
    requires Ownership(free, owner, rw) && b < |rw| && Active(rw[b]) && Active(r) && r.chain == rw[b].chain
    ensures Ownership(free, owner, rw[b := r])
  {
    var rw' := rw[b := r];
    forall d | 0 <= d < |rw'| && Active(rw'[d]) ensures Owns(free, owner, d, rw'[d].chain) {
      assert Owns(free, owner, d, rw[d].chain);
    }
  }

  /** A longer record does not change what its first n requests do. */
  lemma {:induction false} AppliedPrefix(image: seq<Block>, reqs: seq<Request>, r: Request, n: nat)
    requires n <= |reqs|
    ensures Applied(image, reqs + [r], n) == Applied(image, reqs, n)
  {
    if n > 0 { AppliedPrefix(image, reqs, r, n - 1); }
  }

  lemma PublishMoved(s: State, t: State, b: nat)
    requires Inv(s) && Publish(s, t, b)
    ensures Moved(t)
  {
    var served := ServedCount(s.dev, s.done);
    AppliedPrefix(s.image, s.reqs, t.reqs[|s.reqs|], served);
    forall d | 0 <= d < |t.rw| && t.rw[d].Published? && t.rw[d].k < |t.reqs|
      ensures t.data[d] == if t.rw[d].k < served then Outcome(t.image, t.reqs, t.rw[d].k) else t.reqs[t.rw[d].k].data
    {
      if d != b {
        assert IssuedBy(s.reqs, s.rw[d], d);
        AppliedPrefix(s.image, s.reqs, t.reqs[|s.reqs|], s.rw[d].k);
      }
    }
  }

  lemma PublishChains(s: State, t: State, b: nat)
    requires Sizes(s) && Chains(s.desc, s.rw) && Headers(s.ops, s.infoBuf, s.blockno, s.rw) && Publish(s, t, b)
    ensures Chains(t.desc, t.rw) && Headers(t.ops, t.infoBuf, t.blockno, t.rw)
  {
    forall d | 0 <= d < |t.rw| && Active(t.rw[d])
      ensures Describes(t.desc, t.rw[d].chain, d, t.rw[d].write)
      ensures Header(t.ops, t.infoBuf, t.rw[d].chain.a, d, t.rw[d].write, t.blockno[d])
    {
      assert Describes(s.desc, s.rw[d].chain, d, s.rw[d].write);
      assert Header(s.ops, s.infoBuf, s.rw[d].chain.a, d, s.rw[d].write, s.blockno[d]);
    }
  }

  lemma PublishRings(s: State, t: State, b: nat)
    requires Control(s) && InMemory(s) && Publish(s, t, b)
    ensures AvailRing(t.availRing, t.reqs, t.done) && Putting(t.lock, t.rw, t.availRing, |t.reqs|)
    ensures UsedRing(t.usedRing, t.reqs, t.seen, UsedCount(t.dev, t.done))
      && Handling(t.dev, t.usedRing, t.reqs, t.done)
  {
  }

  lemma PublishMemory(s: State, t: State, b: nat)
    requires Inv(s) && Publish(s, t, b)
    ensures InMemory(t)
  {
    PublishChains(s, t, b);
    PublishRings(s, t, b);
    forall d | 0 <= d < |t.rw| && t.rw[d].Published? && t.rw[d].k < |t.reqs|
      ensures t.reqs[t.rw[d].k].blk == Sector(t.blockno[d]) / 2 && (t.disk[d] <==> t.seen <= t.rw[d].k)
    {
      if d != b { assert IssuedBy(s.reqs, s.rw[d], d); }
    }
  }

  /** A walk over a chain in memory meets its three descriptors in order. */
  lemma WalkChain(desc: seq<Desc>, c: Chain, b: nat, write: bool)
    requires Describes(desc, c, b, write)
    ensures Walk(desc, c.a, NUM) == [c.a, c.b, c.c]
  {
    assert NextDesc(desc, c.a) == c.b && NextDesc(desc, c.b) == c.c && NextDesc(desc, c.c) == NUM;
    assert Walk(desc, c.c, NUM - 2) == [c.c];
    assert Walk(desc, c.b, NUM - 1) == [c.b, c.c];
  }

  lemma ReturnChain(free: seq<bool>, owner: seq<nat>, rw: seq<Rw>, b: nat)
    requires Ownership(free, owner, rw) && b < |rw| && Active(rw[b]) && Distinct(rw[b].chain)
    ensures Ownership(SetFree(free, rw[b].chain, true), owner, rw[b := Out])
  {
    var c, rw' := rw[b].chain, rw[b := Out];
    var free' := SetFree(free, c, true);
    assert Owns(free, owner, b, c);
    forall d | 0 <= d < |rw'| && Active(rw'[d]) ensures Owns(free', owner, d, rw'[d].chain) {
      assert Owns(free, owner, d, rw[d].chain);
    }
    forall i | 0 <= i < NUM && !free'[i]
      ensures owner[i] < |rw'| && Active(rw'[owner[i]]) && InChain(rw'[owner[i]].chain, i)
    {
      assert !InChain(c, i) && owner[i] != b;
    }
  }

  function FreeThree(desc: seq<Desc>, c: Chain): seq<Desc>
    requires c.a < |desc| && c.b < |desc| && c.c < |desc|
  {
    FreeDesc(FreeDesc(FreeDesc(desc, c.a), c.b), c.c)
  }

  lemma FreeChains(free: seq<bool>, owner: seq<nat>, desc: seq<Desc>, rw: seq<Rw>, b: nat)
    requires Ownership(free, owner, rw) && Chains(desc, rw) && |desc| == NUM
    requires b < |rw| && Active(rw[b]) && Distinct(rw[b].chain)
    ensures Chains(FreeThree(desc, rw[b].chain), rw[b := Out])
  {
    var c, rw' := rw[b].chain, rw[b := Out];
    assert Owns(free, owner, b, c);
    forall d | 0 <= d < |rw'| && Active(rw'[d]) ensures Describes(FreeThree(desc, c), rw'[d].chain, d, rw'[d].write) {
      assert Owns(free, owner, d, rw[d].chain);
      assert Describes(desc, rw[d].chain, d, rw[d].write);
    }
  }

  lemma ForgetHeader(s: State, b: nat)
    requires Control(s) && Headers(s.ops, s.infoBuf, s.blockno, s.rw)
    requires b < |s.rw| && Active(s.rw[b]) && s.rw[b].chain.a < NUM
    ensures Headers(s.ops, s.infoBuf[s.rw[b].chain.a := None], s.blockno, s.rw[b := Out])
  {
    var c, rw', infoBuf' := s.rw[b].chain, s.rw[b := Out], s.infoBuf[s.rw[b].chain.a := None];
    assert Owns(s.free, s.owner, b, c);
    forall d | 0 <= d < |rw'| && Active(rw'[d])
      ensures Header(s.ops, infoBuf', rw'[d].chain.a, d, rw'[d].write, s.blockno[d])
    {
      assert Owns(s.free, s.owner, d, s.rw[d].chain);
      assert Header(s.ops, s.infoBuf, s.rw[d].chain.a, d, s.rw[d].write, s.blockno[d]);
    }
  }

  /** The state after free_chain, with the chain read from the record instead of memory. */
  function Freed(s: State, b: nat): State
    requires Sizes(s) && b < |s.rw| && Active(s.rw[b]) && s.rw[b].chain.a < NUM && s.rw[b].chain.b < NUM
      && s.rw[b].chain.c < NUM
  {
    var c := s.rw[b].chain;
    s.(infoBuf := s.infoBuf[c.a := None], desc := FreeThree(s.desc, c), free := SetFree(s.free, c, true),
       rw := s.rw[b := Out])
  }

  lemma FinishMeans(s: State, t: State, b: nat)
    requires Inv(s) && Finish(s, t, b)
    ensures Distinct(s.rw[b].chain) && t == Freed(s, b) && s.rw[b].k < s.seen
  {
    var c := s.rw[b].chain;
    assert Describes(s.desc, c, b, s.rw[b].write);
    WalkChain(s.desc, c, b, s.rw[b].write);
  }

  lemma FreedControl(s: State, b: nat)
    requires Control(s) && b < |s.rw| && s.rw[b].Published? && s.rw[b].k < s.seen && Distinct(s.rw[b].chain)
    ensures Control(Freed(s, b))
  {
    var t := Freed(s, b);
    ReturnChain(s.free, s.owner, s.rw, b);
    forall k | s.seen <= k < |s.reqs| ensures Current(t.reqs, t.rw, k) { assert Current(s.reqs, s.rw, k); }
  }

  lemma FreedMemory(s: State, b: nat)
    requires Control(s) && InMemory(s) && b < |s.rw| && s.rw[b].Published? && Distinct(s.rw[b].chain)
    ensures InMemory(Freed(s, b))
  {
    FreeChains(s.free, s.owner, s.desc, s.rw, b);
    ForgetHeader(s, b);
    OutKeeps(s.disk, s.blockno, s.rw, s.reqs, s.seen, b);
  }

  lemma OutKeeps(disk: seq<bool>, blockno: seq<nat>, rw: seq<Rw>, reqs: seq<Request>, seen: nat, b: nat)
    requires DiskFlags(disk, rw, seen) && BlockNumbers(blockno, rw, reqs) && b < |rw|
    ensures DiskFlags(disk, rw[b := Out], seen) && BlockNumbers(blockno, rw[b := Out], reqs)
  {
  }

  lemma StartInv(s: State, t: State, b: nat, write: bool)
    requires Inv(s) && Start(s, t, b, write)
    ensures Inv(t)
  {
    StartControl(s, t, b, write);
    StartMemory(s, t, b, write);
    StartMoved(s, t, b, write);
  }

  lemma PublishInv(s: State, t: State, b: nat)
    requires Inv(s) && Publish(s, t, b)
    ensures Inv(t)
  {
    PublishControl(s, t, b);
    PublishMemory(s, t, b);
    PublishMoved(s, t, b);
  }

  lemma FinishInv(s: State, t: State, b: nat)
    requires Inv(s) && Finish(s, t, b)
    ensures Inv(t)
  {
    FinishMeans(s, t, b);
    FreedControl(s, b);
    FreedMemory(s, b);
  }

  lemma DriverStepInv(s: State, t: State, b: nat)
    requires Inv(s) && DriverStep(s, t, b)
    ensures Inv(t)
  {
    if Modify(s, t, b) {
      ModifyInv(s, t, b);
    } else if write :| Start(s, t, b, write) {
      StartInv(s, t, b, write);
    } else if PutRing(s, t, b) {
      PutRingInv(s, t, b);
    } else if Publish(s, t, b) {
      PublishInv(s, t, b);
    } else {
      FinishInv(s, t, b);
    }
  }

  // ---- the device

  lemma FetchInv(s: State, t: State)
    requires Inv(s) && Fetch(s, t)
    ensures Inv(t)
  {
    SameSlot(s.done);
    assert s.done < |s.reqs|;
  }

  /** While the device handles request `done`, that request is still in flight. */
  lemma Handled(s: State)
    requires Inv(s) && s.dev.Fetched?
    ensures s.done < |s.reqs| && Current(s.reqs, s.rw, s.done)
    ensures var r := s.reqs[s.done];
      && s.dev.head == r.chain.a && Describes(s.desc, r.chain, r.buf, r.write)
      && s.ops[r.chain.a].sector / 2 == r.blk && s.ops[r.chain.a].write == r.write
      && s.data[r.buf] == r.data
  {
    assert Current(s.reqs, s.rw, s.done);
    var b := s.reqs[s.done].buf;
    assert Describes(s.desc, s.rw[b].chain, b, s.rw[b].write);
    assert Header(s.ops, s.infoBuf, s.rw[b].chain.a, b, s.rw[b].write, s.blockno[b]);
  }

  /** The state after request `done` is carried out, read from the record alone. */
  function Carried(s: State): State
    requires Sizes(s) && s.done < |s.reqs| && s.reqs[s.done].chain.a < NUM && s.reqs[s.done].buf < |s.rw|
  {
    var r := s.reqs[s.done];
    var ok := r.blk < FSIMG_SIZE;
    s.(dev := Served(r.chain.a),
       status := s.status[r.chain.a := if ok then STATUS_OK else STATUS_FAILED],
       ramdisk := if r.write && ok then s.ramdisk[r.blk := r.data] else s.ramdisk,
       data := if !r.write && ok then s.data[r.buf := s.ramdisk[r.blk]] else s.data)
  }

  /** The device moves exactly the block of the request it fetched, to or from exactly that
      request's buffer, and marks exactly its status. */
  lemma ServeMeans(s: State, t: State)
    requires Inv(s) && Serve(s, t)
    ensures s.seen <= s.done < |s.reqs| && s.reqs[s.done].chain.a < NUM && s.reqs[s.done].buf < |s.rw|
    ensures t == Carried(s)
  {
    Handled(s);
    var r := s.reqs[s.done];
    WalkChain(s.desc, r.chain, r.buf, r.write);
  }

  lemma OtherHeads(s: State, k: nat, m: nat)
    requires Control(s) && s.seen <= k < |s.reqs| && s.seen <= m < |s.reqs| && k != m
    ensures s.reqs[k].chain.a != s.reqs[m].chain.a
  {
    assert Current(s.reqs, s.rw, k) && Current(s.reqs, s.rw, m);
    ActiveApart(s.free, s.owner, s.rw, s.reqs[k].buf, s.reqs[m].buf);
  }

  lemma ServeStatuses(s: State, v: nat)
    requires Control(s) && Statuses(s.status, s.reqs, s.seen, s.done)
    requires s.seen <= s.done < |s.reqs| && s.reqs[s.done].chain.a < NUM
    requires v == if s.reqs[s.done].blk < FSIMG_SIZE then STATUS_OK else STATUS_FAILED
    ensures Statuses(s.status[s.reqs[s.done].chain.a := v], s.reqs, s.seen, s.done + 1)
  {
    forall k | s.seen <= k < s.done ensures s.reqs[k].chain.a != s.reqs[s.done].chain.a {
      OtherHeads(s, k, s.done);
    }
  }

  lemma ServeBuffers(data: seq<Block>, rw: seq<Rw>, image: seq<Block>, reqs: seq<Request>, seen: nat, k: nat)
    requires seen <= k < |reqs| && Flight(reqs, rw, seen) && Buffers(data, rw, image, reqs, k)
    ensures reqs[k].buf < |rw| && Buffers(data[reqs[k].buf := Outcome(image, reqs, k)], rw, image, reqs, k + 1)
  {
    assert Current(reqs, rw, k);
    var b := reqs[k].buf;
    var data' := data[b := Outcome(image, reqs, k)];
    forall d | 0 <= d < |rw| && rw[d].Published? && rw[d].k < |reqs|
      ensures data'[d] == if rw[d].k < k + 1 then Outcome(image, reqs, rw[d].k) else reqs[rw[d].k].data
    {
      assert IssuedBy(reqs, rw[d], d);
    }
  }

  lemma CarriedMoved(s: State)
    requires Control(s) && Moved(s) && s.dev.Fetched?
    requires s.seen <= s.done < |s.reqs| && s.reqs[s.done].chain.a < NUM && s.reqs[s.done].buf < |s.rw|
    requires s.data[s.reqs[s.done].buf] == s.reqs[s.done].data
    ensures Moved(Carried(s))
  {
    var r, n := s.reqs[s.done], s.done + 1;
    ServeStatuses(s, if r.blk < FSIMG_SIZE then STATUS_OK else STATUS_FAILED);
    ServeBuffers(s.data, s.rw, s.image, s.reqs, s.seen, s.done);
    CarriedStores(s, n);
    assert ServedCount(Carried(s).dev, s.done) == n;
  }

  lemma CarriedStores(s: State, n: nat)
    requires Sizes(s) && n == s.done + 1 <= |s.reqs| && s.reqs[s.done].chain.a < NUM && s.reqs[s.done].buf < |s.rw|
    requires s.data[s.reqs[s.done].buf] == s.reqs[s.done].data && s.ramdisk == Applied(s.image, s.reqs, s.done)
    ensures Carried(s).ramdisk == Applied(s.image, s.reqs, n)
    ensures Carried(s).data == s.data[s.reqs[s.done].buf := Outcome(s.image, s.reqs, s.done)]
  {
  }

  lemma ServeInv(s: State, t: State)
    requires Inv(s) && Serve(s, t)
    ensures Inv(t)
  {
    ServeMeans(s, t);
    Handled(s);
    CarriedMoved(s);
  }

  lemma PostInv(s: State, t: State)
    requires Inv(s) && Post(s, t)
    ensures Inv(t)
  {
    SameSlot(s.done);
    Window(s);
    forall k | s.seen <= k < s.done ensures t.usedRing[k % NUM] == t.reqs[k].chain.a {
      DifferentSlots(k, s.done);
    }
  }

  lemma CountInv(s: State, t: State)
    requires Inv(s) && (CountUsed(s, t) || Advance(s, t))
    ensures Inv(t)
  {
    IndexStep(s.done);
  }

  // ---- the interrupt

  /** The completion the interrupt takes is that of the oldest request not yet seen. */
  lemma IntrTakeMeans(s: State, t: State)
    requires Inv(s) && IntrTake(s, t)
    ensures s.seen < UsedCount(s.dev, s.done) && s.seen < |s.reqs| && Current(s.reqs, s.rw, s.seen)
    ensures var r := s.reqs[s.seen];
      t == if r.blk >= FSIMG_SIZE then s.(panicked := true)
           else s.(disk := s.disk[r.buf := false], usedSeen := (s.seen + 1) % U16, seen := s.seen + 1)
  {
    IndexStep(s.seen);
    Waiting(s);
  }

  /** What memory says of the oldest request not yet seen, once it is counted. */
  lemma Waiting(s: State)
    requires Inv(s) && s.usedSeen != s.usedIdx
    ensures s.seen < UsedCount(s.dev, s.done) && s.seen < |s.reqs| && Current(s.reqs, s.rw, s.seen)
    ensures var r := s.reqs[s.seen];
      && r.chain.a < NUM && s.usedRing[s.usedSeen % NUM] == r.chain.a && s.infoBuf[r.chain.a] == Some(r.buf)
      && s.status[r.chain.a] == if r.blk < FSIMG_SIZE then STATUS_OK else STATUS_FAILED
  {
    SameSlot(s.seen);
    assert Current(s.reqs, s.rw, s.seen);
    var b := s.reqs[s.seen].buf;
    assert Header(s.ops, s.infoBuf, s.rw[b].chain.a, b, s.rw[b].write, s.blockno[b]);
  }

  lemma SeeOne(disk: seq<bool>, reqs: seq<Request>, rw: seq<Rw>, seen: nat)
    requires DiskFlags(disk, rw, seen) && Flight(reqs, rw, seen) && seen < |reqs| && Current(reqs, rw, seen)
    ensures DiskFlags(disk[reqs[seen].buf := false], rw, seen + 1)
  {
    var disk' := disk[reqs[seen].buf := false];
    forall d | 0 <= d < |rw| && rw[d].Published? ensures disk'[d] <==> seen + 1 <= rw[d].k {
      assert IssuedBy(reqs, rw[d], d);
    }
  }

  lemma IntrTakeInv(s: State, t: State)
    requires Inv(s) && IntrTake(s, t)
    ensures Inv(t)
  {
    IntrTakeMeans(s, t);
    if s.reqs[s.seen].blk < FSIMG_SIZE { SeenInv(s, t); } else { PanicInv(s, t); }
  }

  lemma PanicInv(s: State, t: State)
    requires Inv(s) && t == s.(panicked := true)
    ensures Inv(t)
  {
  }

  lemma SeenInv(s: State, t: State)
    requires Inv(s) && s.seen < UsedCount(s.dev, s.done) && s.seen < |s.reqs| && Current(s.reqs, s.rw, s.seen)
    requires t == s.(disk := s.disk[s.reqs[s.seen].buf := false], usedSeen := (s.seen + 1) % U16, seen := s.seen + 1)
    ensures Inv(t)
  {
    SeeOne(s.disk, s.reqs, s.rw, s.seen);
    forall k | t.seen <= k < |t.reqs| ensures Current(t.reqs, t.rw, k) { assert Current(s.reqs, s.rw, k); }
  }

  lemma IntrStepInv(s: State, t: State)
    requires Inv(s) && IntrStep(s, t)
    ensures Inv(t)
  {
    if IntrTake(s, t) { IntrTakeInv(s, t); }
  }

  lemma DeviceStepInv(s: State, t: State)
    requires Inv(s) && DeviceStep(s, t)
    ensures Inv(t)
  {
    if Fetch(s, t) {
      FetchInv(s, t);
    } else if Serve(s, t) {
      ServeInv(s, t);
    } else if Post(s, t) {
      PostInv(s, t);
    } else {
      CountInv(s, t);
    }
  }

  lemma RunInv(run: seq<State>, i: nat)
    requires IsRun(run) && i < |run|
    ensures Inv(run[i])
  {
    forall s | Init(s) ensures Inv(s) { InitInv(s); }
    forall s, t | Inv(s) && Next(s, t) ensures Inv(t) { NextInv(s, t); }
    Always(run, Init, Next, Inv, i);
  }

  lemma NextInv(s: State, t: State)
    requires Inv(s) && Next(s, t)
    ensures Inv(t)
  {
    if b: nat :| DriverStep(s, t, b) {
      DriverStepInv(s, t, b);
    } else if DeviceStep(s, t) {
      DeviceStepInv(s, t);
    } else {
      IntrStepInv(s, t);
    }
  }

  // ---- whole runs

  ghost function FreeSet(free: seq<bool>): set<nat> { set i: nat | i < |free| && free[i] }
  ghost function ActiveSet(rw: seq<Rw>): set<nat> { set b: nat | b < |rw| && Active(rw[b]) }

  /** The descriptors of the chains of the buffers in `bs`. */
  ghost function Union(rw: seq<Rw>, bs: set<nat>): set<nat>
    requires bs <= ActiveSet(rw)
  {
    set b, i | b in bs && i in Members(rw[b].chain) :: i
  }

  lemma {:induction false} UnionSize(free: seq<bool>, owner: seq<nat>, rw: seq<Rw>, bs: set<nat>)
    requires Ownership(free, owner, rw) && bs <= ActiveSet(rw)
    ensures |Union(rw, bs)| == 3 * |bs|
  {
    if b :| b in bs {
      var rest := bs - {b};
      UnionSize(free, owner, rw, rest);
      assert Owns(free, owner, b, rw[b].chain);
      MembersSize(rw[b].chain);
      assert Union(rw, bs) == Union(rw, rest) + Members(rw[b].chain);
      forall d | d in rest ensures Members(rw[b].chain) !! Members(rw[d].chain) {
        ActiveApart(free, owner, rw, b, d);
      }
      assert Union(rw, rest) !! Members(rw[b].chain);
    }
  }

  lemma ChainsAreNotFree(free: seq<bool>, owner: seq<nat>, rw: seq<Rw>)
    requires Ownership(free, owner, rw)
    ensures Union(rw, ActiveSet(rw)) <= Below(NUM) && FreeSet(free) !! Union(rw, ActiveSet(rw))
  {
    forall i | i in Union(rw, ActiveSet(rw)) ensures i < NUM && i !in FreeSet(free) {
      var b :| b in ActiveSet(rw) && i in Members(rw[b].chain);
      assert Owns(free, owner, b, rw[b].chain);
    }
  }

  lemma RestIsChains(free: seq<bool>, owner: seq<nat>, rw: seq<Rw>)
    requires Ownership(free, owner, rw)
    ensures Below(NUM) <= FreeSet(free) + Union(rw, ActiveSet(rw))
  {
    forall i | i in Below(NUM) && i !in FreeSet(free) ensures i in Union(rw, ActiveSet(rw)) {
      assert owner[i] in ActiveSet(rw) && i in Members(rw[owner[i]].chain);
    }
  }

  /** In every interleaving the live chains are disjoint, and the free descriptors plus three
      for each live chain make NUM. */
  lemma DescriptorsConserved(run: seq<State>, i: nat)
    requires IsRun(run) && i < |run|
    ensures |FreeSet(run[i].free)| + 3 * |ActiveSet(run[i].rw)| == NUM
    ensures forall b, d | b in ActiveSet(run[i].rw) && d in ActiveSet(run[i].rw) && b != d ::
      Members(run[i].rw[b].chain) !! Members(run[i].rw[d].chain)
  {
    RunInv(run, i);
    var s := run[i];
    ChainsAreNotFree(s.free, s.owner, s.rw);
    RestIsChains(s.free, s.owner, s.rw);
    assert FreeSet(s.free) + Union(s.rw, ActiveSet(s.rw)) == Below(NUM);
    UnionSize(s.free, s.owner, s.rw, ActiveSet(s.rw));
    BelowSize(NUM);
    forall b, d | b in ActiveSet(s.rw) && d in ActiveSet(s.rw) && b != d
      ensures Members(s.rw[b].chain) !! Members(s.rw[d].chain)
    {
      ActiveApart(s.free, s.owner, s.rw, b, d);
    }
  }

  /** avail.idx is at most two ahead of the driver's used_idx, modulo 2^16. */
  lemma IndexWindow(run: seq<State>, i: nat)
    requires IsRun(run) && i < |run|
    ensures run[i].availIdx == run[i].usedSeen
      || run[i].availIdx == (run[i].usedSeen + 1) % U16 || run[i].availIdx == (run[i].usedSeen + 2) % U16
  {
    RunInv(run, i);
    Window(run[i]);
    IndexAhead(|run[i].reqs|, run[i].seen);
  }

  lemma IndexAhead(n: nat, seen: nat)
    requires seen <= n <= seen + 2
    ensures n % U16 == seen % U16 || n % U16 == (seen % U16 + 1) % U16 || n % U16 == (seen % U16 + 2) % U16
  {
  }

  /** Neither ring slot about to be written holds an entry the other side has yet to read. */
  lemma SlotsAreRead(run: seq<State>, i: nat)
    requires IsRun(run) && i < |run|
    ensures forall k | run[i].done <= k < |run[i].reqs| :: k % NUM != run[i].availIdx % NUM
    ensures !run[i].dev.Counted? ==> forall k | run[i].seen <= k < run[i].done :: k % NUM != run[i].usedIdx % NUM
  {
    RunInv(run, i);
    var s := run[i];
    Window(s);
    forall k | s.done <= k < |s.reqs| ensures k % NUM != s.availIdx % NUM {
      SameSlot(|s.reqs|);
      DifferentSlots(k, |s.reqs|);
    }
    if !s.dev.Counted? {
      forall k | s.seen <= k < s.done ensures k % NUM != s.usedIdx % NUM {
        SameSlot(s.done);
        DifferentSlots(k, s.done);
      }
    }
  }

  /** The index comparisons of both sides are right in spite of their 16 bits: the device
      polls successfully exactly when a request is waiting, and the interrupt finds a
      completion exactly when one is waiting. */
  lemma PollingIsExact(run: seq<State>, i: nat)
    requires IsRun(run) && i < |run|
    ensures run[i].dev == Polling ==> (run[i].devAvail != run[i].availIdx <==> run[i].done < |run[i].reqs|)
    ensures run[i].usedSeen != run[i].usedIdx <==> run[i].seen < UsedCount(run[i].dev, run[i].done)
  {
    RunInv(run, i);
    var s := run[i];
    Window(s);
    if s.dev == Polling { IndicesDiffer(s.done, |s.reqs|); }
    IndicesDiffer(s.seen, UsedCount(s.dev, s.done));
  }

  lemma IndicesDiffer(a: nat, b: nat)
    requires a <= b <= a + 2
    ensures a % U16 != b % U16 <==> a < b
  {
  }

  /** Every published request is carried out once, in order of publication: the ramdisk is
      always the initial image with exactly the first requests applied to it. */
  lemma ServedInOrder(run: seq<State>, i: nat)
    requires IsRun(run) && i < |run|
    ensures ServedCount(run[i].dev, run[i].done) <= |run[i].reqs|
    ensures run[i].ramdisk == Applied(run[i].image, run[i].reqs, ServedCount(run[i].dev, run[i].done))
  {
    RunInv(run, i);
  }

  /** `t` has served what `s` has, or the next request too, and forgets no request. */
  ghost predicate Progress(s: State, t: State) {
    && s.reqs <= t.reqs && t.image == s.image
    && (|| ServedCount(t.dev, t.done) == ServedCount(s.dev, s.done)
        || (ServedCount(t.dev, t.done) == ServedCount(s.dev, s.done) + 1 && s.dev.Fetched? && t.dev.Served?))
  }

  lemma DriverProgress(s: State, t: State, b: nat)
    requires Sizes(s) && DriverStep(s, t, b)
    ensures Progress(s, t)
  {
  }

  lemma DeviceProgress(s: State, t: State)
    requires Sizes(s) && (DeviceStep(s, t) || IntrStep(s, t))
    ensures Progress(s, t)
  {
    if Serve(s, t) {
      ServeProgress(s, t);
    } else if IntrTake(s, t) {
      TakeProgress(s, t);
    }
  }

  lemma TakeProgress(s: State, t: State)
    requires Sizes(s) && IntrTake(s, t)
    ensures t.reqs == s.reqs && t.image == s.image && t.done == s.done && t.dev == s.dev
  {
  }

  lemma ServeProgress(s: State, t: State)
    requires Sizes(s) && Serve(s, t)
    ensures t.reqs == s.reqs && t.image == s.image && t.done == s.done && s.dev.Fetched? && t.dev.Served?
  {
  }

  /** One step carries out at most one request more and forgets none. */
  lemma StepProgress(s: State, t: State)
    requires Next(s, t)
    ensures Progress(s, t)
  {
    if b: nat :| DriverStep(s, t, b) {
      DriverProgress(s, t, b);
    } else {
      DeviceProgress(s, t);
    }
  }

  /** When virtio_disk_rw sees its buffer done, the transfer has taken place: a read left in
      the buffer the block as all earlier requests made it, a write left the buffer alone. */
  lemma CompletedTransfer(run: seq<State>, i: nat, b: nat)
    requires IsRun(run) && i < |run| && b < |run[i].rw| == |run[i].disk|
    requires run[i].rw[b].Published? && !run[i].disk[b]
    ensures var s := run[i];
      && |s.data| == |s.rw| && s.rw[b].k < ServedCount(s.dev, s.done) <= |s.reqs|
      && s.data[b] == Outcome(s.image, s.reqs, s.rw[b].k) && |s.blockno| == |s.rw|
      && var r := s.reqs[s.rw[b].k];
         r.buf == b && r.write == s.rw[b].write && r.blk == Sector(s.blockno[b]) / 2
  {
    RunInv(run, i);
    assert IssuedBy(run[i].reqs, run[i].rw[b], b);
  }

  /** The head the device has fetched starts the three descriptors of the next request: its
      header with the request, its buffer, its status byte, and there the chain ends. */
  ghost predicate WellFormed(s: State) requires Sizes(s) && s.dev.Fetched? {
    && s.done < |s.reqs|
    && var r := s.reqs[s.done];
       var c := r.chain;
       && s.dev.head == c.a < NUM && c.b < NUM && c.c < NUM && Walk(s.desc, s.dev.head, NUM) == [c.a, c.b, c.c]
       && s.desc[c.a].addr == ReqOf(c.a) && s.ops[c.a].write == r.write && s.ops[c.a].sector / 2 == r.blk
       && s.desc[c.b].addr == DataOf(r.buf) && r.buf < |s.rw| && s.data[r.buf] == r.data
       && s.desc[c.c].addr == StatusOf(c.a)
  }

  /** The next completion the interrupt takes is that of the oldest request it has not seen. */
  ghost predicate Completes(s: State) requires Sizes(s) {
    && s.seen < |s.reqs|
    && var r := s.reqs[s.seen];
       s.usedRing[s.usedSeen % NUM] == r.chain.a < NUM && s.infoBuf[r.chain.a] == Some(r.buf) && r.buf < |s.rw|
  }

  /** The device only ever walks the well-formed chain of the next request, and the interrupt
      only takes the completion of the next one; neither gets stuck. */
  lemma NeverMalformed(run: seq<State>, i: nat)
    requires IsRun(run) && i < |run| && !run[i].panicked
    ensures Sizes(run[i])
    ensures run[i].dev.Fetched? ==> WellFormed(run[i]) && exists t :: Serve(run[i], t)
    ensures run[i].lock == Intr && run[i].usedSeen != run[i].usedIdx ==>
      Completes(run[i]) && exists t :: IntrTake(run[i], t)
  {
    RunInv(run, i);
    var s := run[i];
    if s.dev.Fetched? {
      ServeEnabled(s);
    }
    if s.lock == Intr && s.usedSeen != s.usedIdx {
      TakeEnabled(s);
    }
  }

  lemma ServeEnabled(s: State)
    requires Inv(s) && s.dev.Fetched?
    ensures WellFormed(s) && exists t :: Serve(s, t)
  {
    Handled(s);
    var r := s.reqs[s.done];
    WalkChain(s.desc, r.chain, r.buf, r.write);
    assert Serve(s, Transfer(s, r.chain.a, r.buf, r.chain.a).(dev := Served(s.dev.head)));
  }

  lemma TakeEnabled(s: State)
    requires Inv(s) && s.lock == Intr && s.usedSeen != s.usedIdx
    ensures Completes(s) && exists t :: IntrTake(s, t)
  {
    SameSlot(s.seen);
    assert s.seen < UsedCount(s.dev, s.done);
    assert Current(s.reqs, s.rw, s.seen);
    var b := s.reqs[s.seen].buf;
    assert Header(s.ops, s.infoBuf, s.rw[b].chain.a, b, s.rw[b].write, s.blockno[b]);
    if s.status[s.usedRing[s.usedSeen % NUM]] != STATUS_OK {
      assert IntrTake(s, s.(panicked := true));
    } else {
      assert IntrTake(s, s.(disk := s.disk[b := false], usedSeen := (s.usedSeen + 1) % U16, seen := s.seen + 1));
    }
  }

  /** Block 2^31 + 5 is asked for as block 5. */
  lemma SectorWraps()
    ensures Sector(U32 / 2 + 5) / 2 == 5
  {
  }

  /** The device's block is the buffer's block exactly below 2^31: the driver's sector number
      is computed in 32 bits. */
  lemma SectorExactIff(blockno: nat)
    requires blockno < U32
    ensures Sector(blockno) / 2 == blockno <==> blockno < U32 / 2
  {
  }
}
