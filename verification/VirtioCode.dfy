/** The descriptor code of guest/xv6/kernel/virtio_disk.c and the chain walk of
    src/virtio_dev.c on arrays, proved to compute what the steps of Virtqueue say. */
module VirtioCode {
  import opened Options
  import opened Virtqueue

  /** A walk from i comes to an end within n descriptors. */
  predicate Ends(desc: seq<Desc>, i: nat, n: nat)
    requires |desc| == NUM && i < NUM
    decreases n
  {
    n > 0 && (NextDesc(desc, i) == NUM || Ends(desc, NextDesc(desc, i), n - 1))
  }

  class Disk {
    const free: array<bool>
    const desc: array<Desc>
    const ops: array<Req>
    const infoBuf: array<Option<nat>>
    const status: array<nat>

    ghost predicate Valid()
      reads this
    {
      && free.Length == desc.Length == ops.Length == infoBuf.Length == status.Length == NUM
    }

    constructor ()
      ensures Valid() && fresh(free) && fresh(desc) && fresh(ops) && fresh(infoBuf) && fresh(status)
      ensures forall i | 0 <= i < NUM :: free[i]
    {
      free := new bool[NUM](i => true);
      desc := new Desc[NUM](i => Desc(Null, 0, 0, 0));
      ops := new Req[NUM](i => Req(false, 0));
      infoBuf := new Option<nat>[NUM](i => None);
      status := new nat[NUM](i => 0);
    }

    /** alloc_desc */
    method AllocDesc() returns (i: int)
      requires Valid()
      modifies free
      ensures -1 <= i < NUM
      ensures i < 0 <==> FirstFree(old(free[..]), 0) == NUM
      ensures i < 0 ==> free[..] == old(free[..])
      ensures i >= 0 ==> i == FirstFree(old(free[..]), 0) && free[..] == old(free[..])[i := false]
    {
      i := 0;
      while i < NUM
        invariant 0 <= i <= NUM && free[..] == old(free[..])
        invariant FirstFree(old(free[..]), 0) == FirstFree(old(free[..]), i)
      {
        if free[i] {
          free[i] := false;
          return;
        }
        i := i + 1;
      }
      i := -1;
    }

    /** free_desc. Not ok is a panic. */
    method FreeOne(i: nat) returns (ok: bool)
      requires Valid()
      modifies free, desc
      ensures ok <==> i < NUM && !old(free[..])[i]
      ensures !ok ==> desc[..] == old(desc[..]) && free[..] == old(free[..])
      ensures ok ==> desc[..] == FreeDesc(old(desc[..]), i) && free[..] == old(free[..])[i := true]
    {
      if i >= NUM { return false; }
      if free[i] { return false; }
      desc[i] := Desc(Null, 0, 0, 0);
      free[i] := true;
      ok := true;
    }

    /** free_desc of a descriptor that was never formatted, as alloc3_desc undoes itself. */
    method UndoOne(i: nat)
      requires Valid() && i < NUM && !free[i] && desc[i] == Desc(Null, 0, 0, 0)
      modifies free, desc
      ensures desc[..] == old(desc[..]) && free[..] == old(free[..])[i := true]
    {
      var _ := FreeOne(i);
      assert desc[..] == old(desc[..]);
    }

    /** alloc3_desc: three descriptors or none. Free descriptors are blank. */
    method Alloc3Desc() returns (r: Option<Chain>)
      requires Valid() && forall i | 0 <= i < NUM && free[i] :: desc[i] == Desc(Null, 0, 0, 0)
      modifies free, desc
      ensures r == Alloc3(old(free[..])) && desc[..] == old(desc[..])
      ensures r == None ==> free[..] == old(free[..])
      ensures r.Some? ==>
        && r.value.a < NUM && r.value.b < NUM && r.value.c < NUM
        && free[..] == SetFree(old(free[..]), r.value, false)
    {
      ghost var f := free[..];
      var idx: seq<nat> := [];
      while |idx| < 3
        invariant |idx| <= 3 && Lowest(f, idx) && free[..] == Without(f, idx) && desc[..] == old(desc[..])
        decreases 3 - |idx|
      {
        var v := AllocDesc();
        if v < 0 {
          LowestAll(f, idx);
          Undo(f, idx);
          return None;
        }
        LowestNext(f, idx, v);
        idx := idx + [v];
      }
      LowestThree(f, idx);
      r := Some(Chain(idx[0], idx[1], idx[2]));
    }

    /** The inner loop of alloc3_desc: give back what was taken so far. */
    method Undo(ghost f: seq<bool>, idx: seq<nat>)
      requires Valid() && |f| == NUM && |idx| < 3 && Lowest(f, idx) && free[..] == Without(f, idx)
      requires forall i | 0 <= i < NUM && f[i] :: desc[i] == Desc(Null, 0, 0, 0)
      modifies free, desc
      ensures free[..] == f && desc[..] == old(desc[..])
    {
      var j := 0;
      while j < |idx|
        invariant 0 <= j <= |idx| && desc[..] == old(desc[..])
        invariant free[..] == Without(f, idx[j..])
      {
        WithoutFirst(f, idx[j..]);
        assert idx[j..][1..] == idx[j + 1..];
        UndoOne(idx[j]);
        j := j + 1;
      }
      assert Without(f, []) == f;
    }

    /** The formatting part of virtio_disk_rw(b, write). */
    method FormatRequest(c: Chain, b: nat, blockno: nat, write: bool)
      requires Valid() && Distinct(c)
      modifies desc, ops, infoBuf, status
      ensures desc[..] == Format(old(desc[..]), c, b, write) && Describes(desc[..], c, b, write)
      ensures ops[..] == old(ops[..])[c.a := Req(write, Sector(blockno))]
      ensures infoBuf[..] == old(infoBuf[..])[c.a := Some(b)]
      ensures status[..] == old(status[..])[c.a := STATUS_PENDING]
    {
      ops[c.a] := Req(write, Sector(blockno));
      desc[c.a] := Desc(ReqOf(c.a), 16, F_NEXT, c.b);
      var flags := if write then 0 else F_WRITE;
      desc[c.b] := Desc(DataOf(b), 1024, flags + F_NEXT, c.c);
      status[c.a] := STATUS_PENDING;
      desc[c.c] := Desc(StatusOf(c.a), 1, F_WRITE, 0);
      infoBuf[c.a] := Some(b);
    }

    /** free_chain of a chain as the driver formats it. */
    method FreeChain(c: Chain, ghost b: nat, ghost write: bool) returns (ok: bool)
      requires Valid() && Describes(desc[..], c, b, write) && !free[c.a] && !free[c.b] && !free[c.c]
      modifies free, desc
      ensures ok
      ensures free[..] == SetFree(old(free[..]), c, true)
      ensures desc[..] == FreeThree(old(desc[..]), c)
    {
      ghost var d0, f0 := desc[..], free[..];
      var i := c.a;
      ok := true;
      ghost var n := 0;
      while true
        invariant i < NUM && 0 <= n <= 2
        invariant i == (if n == 0 then c.a else if n == 1 then c.b else c.c)
        invariant desc[..] == (if n == 0 then d0 else if n == 1 then FreeDesc(d0, c.a)
          else FreeDesc(FreeDesc(d0, c.a), c.b))
        invariant free[..] == (if n == 0 then f0 else if n == 1 then f0[c.a := true] else f0[c.a := true][c.b := true])
        invariant ok
        decreases 2 - n
      {
        var flag, nxt := desc[i].flags, desc[i].next;
        ok := FreeOne(i);
        if !ok { return; }
        if flag % 2 == 1 {
          i := nxt;
        } else {
          break;
        }
        n := n + 1;
      }
    }
  }

  /** idx lists the lowest free descriptors, in order. */
  ghost predicate Lowest(f: seq<bool>, idx: seq<nat>) {
    && (forall j | 0 <= j < |idx| :: idx[j] < |f| && f[idx[j]])
    && (forall i, j | 0 <= i < j < |idx| :: idx[i] < idx[j])
    && (idx != [] ==> forall k | 0 <= k <= idx[|idx| - 1] && f[k] :: k in idx)
  }

  function Without(f: seq<bool>, idx: seq<nat>): (g: seq<bool>)
    ensures |g| == |f|
  {
    seq(|f|, i requires 0 <= i < |f| => f[i] && i !in idx)
  }

  /** With the lowest ones taken, the first free descriptor is the next lowest. */
  lemma LowestNext(f: seq<bool>, idx: seq<nat>, v: nat)
    requires Lowest(f, idx) && v == FirstFree(Without(f, idx), 0) && v < |f|
    ensures Without(f, idx)[v := false] == Without(f, idx + [v]) && Lowest(f, idx + [v])
  {
    var g := Without(f, idx);
    assert g[v] && f[v] && v !in idx;
    forall k | 0 <= k <= v && f[k] ensures k in idx + [v] {
      if k < v { assert !g[k]; }
    }
    forall j | 0 <= j < |idx| ensures idx[j] < v {
      assert v <= idx[|idx| - 1] ==> v in idx;
    }
  }

  lemma LowestThree(f: seq<bool>, idx: seq<nat>)
    requires Lowest(f, idx) && |idx| == 3
    ensures Alloc3(f) == Some(Chain(idx[0], idx[1], idx[2]))
    ensures Without(f, idx) == SetFree(f, Chain(idx[0], idx[1], idx[2]), false)
  {
    FirstUnique(f, 0, idx[0]);
    FirstUnique(f, idx[0] + 1, idx[1]);
    FirstUnique(f, idx[1] + 1, idx[2]);
  }

  lemma LowestAll(f: seq<bool>, idx: seq<nat>)
    requires Lowest(f, idx) && |idx| < 3 && FirstFree(Without(f, idx), 0) == |f|
    ensures Alloc3(f) == None
  {
    var g := Without(f, idx);
    forall k | 0 <= k < |f| && f[k] ensures k in idx { assert !g[k]; }
    FirstUnique(f, 0, if |idx| > 0 then idx[0] else |f|);
    if |idx| > 0 { FirstUnique(f, idx[0] + 1, if |idx| > 1 then idx[1] else |f|); }
    if |idx| > 1 { FirstUnique(f, idx[1] + 1, |f|); }
  }

  lemma WithoutFirst(f: seq<bool>, idx: seq<nat>)
    requires idx != [] && idx[0] < |f| && f[idx[0]]
    requires forall i | 0 < i < |idx| :: idx[i] != idx[0]
    ensures !Without(f, idx)[idx[0]] && Without(f, idx)[idx[0] := true] == Without(f, idx[1..])
  {
  }

  lemma FirstUnique(f: seq<bool>, from: nat, i: nat)
    requires from <= i <= |f| && (i < |f| ==> f[i]) && forall j | from <= j < i :: !f[j]
    ensures FirstFree(f, from) == i
  {
    var k := FirstFree(f, from);
    assert !(k < i) && !(i < k);
  }

  /** The do-while of virtio_blk_process_desc: copy the chain out of the table. It has no
      bound of its own, so the chain must end; `limit` says when. */
  method CollectChain(desc: seq<Desc>, head: nat, ghost limit: nat) returns (copied: seq<Desc>)
    requires |desc| == NUM && head < NUM && Ends(desc, head, limit)
    ensures Copies(desc, Walk(desc, head, limit), copied)
  {
    ghost var n := limit;
    var idx := head;
    ghost var met: seq<nat> := [];
    copied := [];
    while true
      invariant 0 <= idx < NUM && 0 < n && Ends(desc, idx, n)
      invariant Walk(desc, head, limit) == met + Walk(desc, idx, n)
      invariant Copies(desc, met, copied)
      decreases n
    {
      ghost var more := met + [idx];
      WalkStep(desc, head, limit, met, more, idx, n);
      copied := copied + [desc[idx]];
      met := more;
      var next := NextOf(desc[idx]);
      if next == NUM { break; }
      idx := next;
      n := n - 1;
    }
  }

  ghost predicate Copies(desc: seq<Desc>, met: seq<nat>, copied: seq<Desc>) {
    |copied| == |met| && forall j | 0 <= j < |met| :: met[j] < |desc| && copied[j] == desc[met[j]]
  }

  lemma WalkStep(d: seq<Desc>, head: nat, limit: nat, met: seq<nat>, more: seq<nat>, idx: nat, n: nat)
    requires |d| == NUM && head < NUM && idx < NUM && n > 0 && Ends(d, idx, n) && more == met + [idx]
    requires Walk(d, head, limit) == met + Walk(d, idx, n)
    ensures NextDesc(d, idx) == NUM ==> Walk(d, head, limit) == more
    ensures NextDesc(d, idx) != NUM ==>
      && n > 1 && Ends(d, NextDesc(d, idx), n - 1)
      && Walk(d, head, limit) == more + Walk(d, NextDesc(d, idx), n - 1)
  {
  }

  /** A walk that stops before it is cut off has come to the end of the chain. */
  lemma {:induction false} ShortWalkEnds(desc: seq<Desc>, i: nat, n: nat)
    requires |desc| == NUM && i < NUM && |Walk(desc, i, n)| < n
    ensures Ends(desc, i, n)
    decreases n
  {
    if NextDesc(desc, i) != NUM { ShortWalkEnds(desc, NextDesc(desc, i), n - 1); }
  }

  /** ramdisk_rw */
  method RamdiskRw(ramdisk: array<Block>, data: array<Block>, blk: nat, buf: nat, write: bool) returns (ret: int)
    requires ramdisk.Length == FSIMG_SIZE && buf < data.Length && ramdisk != data
    modifies ramdisk, data
    ensures ret == 0 <==> blk < FSIMG_SIZE
    ensures ramdisk[..] == if ret == 0 && write then old(ramdisk[..])[blk := old(data[..])[buf]] else old(ramdisk[..])
    ensures data[..] == if ret == 0 && !write then old(data[..])[buf := old(ramdisk[..])[blk]] else old(data[..])
  {
    if blk >= FSIMG_SIZE { return -1; }
    if write { ramdisk[blk] := data[buf]; } else { data[buf] := ramdisk[blk]; }
    ret := 0;
  }

  /** The chain ends; if it has three descriptors, they are of the three kinds in order. */
  ghost predicate Servable(s: State) requires Sizes(s) && s.dev.Fetched? {
    && s.dev.head < NUM && Ends(s.desc, s.dev.head, NUM)
    && var w := Walk(s.desc, s.dev.head, NUM);
       |w| == 3 ==>
         var d0, d1, d2 := s.desc[w[0]].addr, s.desc[w[1]].addr, s.desc[w[2]].addr;
         d0.ReqOf? && d0.slot < NUM && d1.DataOf? && d1.buf < |s.rw| && d2.StatusOf? && d2.slot < NUM
  }

  /** So it is in every run. */
  lemma AlwaysServable(run: seq<State>, i: nat)
    requires IsRun(run) && i < |run| && !run[i].panicked && run[i].dev.Fetched?
    ensures Sizes(run[i]) && Servable(run[i]) && |Walk(run[i].desc, run[i].dev.head, NUM)| == 3
  {
    NeverMalformed(run, i);
    ShortWalkEnds(run[i].desc, run[i].dev.head, NUM);
  }

  /** virtio_blk_process_desc: it takes the step of the machine. */
  method ProcessDesc(desc: seq<Desc>, ops: seq<Req>, ramdisk: array<Block>, data: array<Block>, status: array<nat>,
                     head: nat, ghost s: State)
    returns (len: nat)
    requires Sizes(s) && s.dev == Fetched(head) && Servable(s) && desc == s.desc && ops == s.ops
    requires ramdisk[..] == s.ramdisk && data[..] == s.data && status[..] == s.status && ramdisk != data
    modifies ramdisk, data, status
    ensures len == |Walk(desc, head, NUM)|
    ensures Serve(s, s.(ramdisk := ramdisk[..], data := data[..], status := status[..], dev := Served(head)))
  {
    var copied := CollectChain(desc, head, NUM);
    len := |copied|;
    if len != 3 { return; }
    var slot, buf, at := copied[0].addr.slot, copied[1].addr.buf, copied[2].addr.slot;
    var ret := RamdiskRw(ramdisk, data, ops[slot].sector / 2, buf, ops[slot].write);
    if ret == 0 { status[at] := STATUS_OK; } else { status[at] := STATUS_FAILED; }
  }
}
