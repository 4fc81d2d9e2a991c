/** The buffer cache of guest/xv6/kernel/bio.c: the code under bcache.lock step by step, the
    sleep locks of the buffers, and the disk below. Bget, Acquire, Fill, Put,
    Bwrite, Unlock, Drop, Bpin and Bunpin are the steps that processes interleave: each is one
    critical section or a step of the holder of a sleep lock. Bread and Brelse are several. */
module BufferCache {
  import opened BufferList
  import Pigeonhole
  import Log = WriteAheadLog

  /** A block of a device. */
  datatype Blk = Blk(dev: nat, no: nat)

  type Bytes = seq<nat>
  type Store = map<Blk, Bytes>

  function Get(s: Store, k: Blk): Bytes { if k in s then s[k] else [] }

  /** A block of a real device has at most one buffer. */
  ghost predicate Unique(id: seq<Blk>) {
    forall b, c | 0 <= b < |id| && 0 <= c < |id| && id[b] == id[c] && id[b].dev != 0 :: b == c
  }

  ghost predicate Cached(id: seq<Blk>, valid: seq<bool>, k: Blk) {
    |valid| == |id| && exists b :: 0 <= b < |id| && valid[b] && id[b] == k
  }

  /** What the cache and the disk together say is what was last stored. */
  ghost predicate Coherent(id: seq<Blk>, valid: seq<bool>, data: seq<Bytes>, disk: Store, latest: Store) {
    && |id| == |valid| == |data|
    && (forall b {:trigger data[b]} | 0 <= b < |id| && valid[b] && id[b].dev != 0 :: data[b] == Get(latest, id[b]))
    && (forall k: Blk {:trigger Get(disk, k)} {:trigger Get(latest, k)} | k.dev != 0 ::
        Get(latest, k) == Get(disk, k) || Cached(id, valid, k))
  }

  /** A buffer no one refers to has nothing that is not on disk. */
  ghost predicate Clean(id: seq<Blk>, valid: seq<bool>, refcnt: seq<nat>, data: seq<Bytes>, disk: Store) {
    && |id| == |valid| == |refcnt| == |data|
    && forall b {:trigger data[b]} | 0 <= b < |id| && refcnt[b] == 0 && valid[b] && id[b].dev != 0 ::
        data[b] == Get(disk, id[b])
  }

  /** Reusing a clean buffer for another block forgets nothing. */
  lemma RecycleCoherent(id: seq<Blk>, valid: seq<bool>, refcnt: seq<nat>, data: seq<Bytes>, disk: Store, latest: Store,
      b: nat, k: Blk)
    requires Unique(id) && Coherent(id, valid, data, disk, latest) && Clean(id, valid, refcnt, data, disk) && b < |id|
      && refcnt[b] == 0
    requires forall c | 0 <= c < |id| :: id[c] != k
    ensures Unique(id[b := k]) && Coherent(id[b := k], valid[b := false], data, disk, latest)
    ensures Clean(id[b := k], valid[b := false], refcnt[b := 1], data, disk)
  {
    var id', valid' := id[b := k], valid[b := false];
    forall x: Blk | x.dev != 0 ensures Get(latest, x) == Get(disk, x) || Cached(id', valid', x) {
      if Get(latest, x) != Get(disk, x) {
        var c :| 0 <= c < |id| && valid[c] && id[c] == x;
        assert data[c] == Get(latest, x);
        assert c != b;
        assert valid'[c] && id'[c] == x;
      }
    }
  }

  /** What comes of bread: the locked buffer, a wait for its lock, or the panic "no buffers". */
  datatype Read = Ready | Waits | NoBuffers

  class Cache {
    const n: nat                             // NBUF
    var next: seq<nat>
    var prev: seq<nat>
    var id: seq<Blk>                         // dev and blockno of each buffer
    var valid: seq<bool>
    var refcnt: seq<nat>
    var locked: seq<bool>                    // the sleep locks
    var data: seq<Bytes>
    var disk: Store
    ghost var at: seq<nat>
    ghost var pos: seq<nat>
    ghost var latest: Store                  // what was last stored in each block

    ghost predicate Valid()
      reads this
    {
      && 0 < n == |at| == |id| == |valid| == |refcnt| == |locked| == |data| && Linked(next, prev, at, pos)
      && Unique(id) && Coherent(id, valid, data, disk, latest) && Clean(id, valid, refcnt, data, disk)
      && forall b | 0 <= b < n && locked[b] :: refcnt[b] > 0
    }

    /** binit, over a disk. All buffers are of device 0 and not valid. */
    constructor (n: nat, disk: Store)
      requires n > 0
      ensures Valid() && this.n == n && this.disk == disk && latest == disk
      ensures forall b | 0 <= b < n :: refcnt[b] == 0 && !locked[b] && !valid[b] && id[b] == Blk(0, 0)
    {
      this.n, this.disk, latest := n, disk, disk;
      id, valid, refcnt := seq(n, _ => Blk(0, 0)), seq(n, _ => false), seq(n, _ => 0);
      locked, data := seq(n, _ => false), seq(n, _ => []);
      var nx, pv := Binit(n);
      next, prev, at, pos := nx, pv, Backwards(n), Backwards(n);
    }

    /** The first loop of bget: the buffer of a block. */
    method Find(k: Blk) returns (b: nat, found: bool)
      requires Valid()
      ensures found ==> b < n && id[b] == k
      ensures !found ==> forall c | 0 <= c < n :: id[c] != k
    {
      b := next[n];
      ghost var i := 0;
      while b != n
        invariant i <= n && (b == n <==> i == n) && (i < n ==> b == at[i])
        invariant forall j | 0 <= j < i :: id[at[j]] != k
        decreases n - i
      {
        if id[b] == k { return b, true; }
        b := next[b];
        i := i + 1;
      }
      forall c | 0 <= c < n ensures id[c] != k { assert at[pos[c]] == c; }
      return 0, false;
    }

    /** The second loop of bget: the least recently used buffer no one refers to. */
    method FindUnused() returns (b: nat, found: bool)
      requires Valid()
      ensures found <==> exists c :: 0 <= c < n && refcnt[c] == 0
      ensures found ==> b < n && refcnt[b] == 0 && forall c | 0 <= c < n && refcnt[c] == 0 :: pos[c] <= pos[b]
    {
      b := prev[n];
      ghost var i := n;
      while b != n
        invariant 0 <= i <= n && (b == n <==> i == 0) && (i > 0 ==> b == at[i - 1])
        invariant forall j | i <= j < n :: refcnt[at[j]] > 0
        decreases i
      {
        if refcnt[b] == 0 {
          forall c | 0 <= c < n && refcnt[c] == 0 ensures pos[c] <= pos[b] { assert at[pos[c]] == c; }
          return b, true;
        }
        b := prev[b];
        i := i - 1;
      }
      forall c | 0 <= c < n ensures refcnt[c] > 0 { assert at[pos[c]] == c; }
      return 0, false;
    }

    /** bget, up to the sleep lock. Not ok is the panic "no buffers". */
    method Bget(k: Blk) returns (b: nat, ok: bool)
      requires Valid()
      modifies this`id, this`valid, this`refcnt
      ensures Valid() && (ok <==> k in old(id) || exists c :: 0 <= c < n && old(refcnt)[c] == 0)
      ensures !ok ==> id == old(id) && valid == old(valid) && refcnt == old(refcnt)
      ensures ok ==> b < n && id == old(id)[b := k] && refcnt == old(refcnt)[b := old(refcnt)[b] + 1]
      ensures ok && k in old(id) ==> id == old(id) && valid == old(valid)
      ensures ok && k !in old(id) ==> old(refcnt)[b] == 0 && valid == old(valid)[b := false]
      ensures ok && k !in old(id) ==> forall c | 0 <= c < n && old(refcnt)[c] == 0 :: pos[c] <= pos[b]
    {
      b, ok := Find(k);
      if ok {
        assert id[b := k] == id;
        refcnt := refcnt[b := refcnt[b] + 1];
        return;
      }
      b, ok := FindUnused();
      if !ok { return; }
      RecycleCoherent(id, valid, refcnt, data, disk, latest, b, k);
      id := id[b := k];
      valid := valid[b := false];
      refcnt := refcnt[b := 1];
    }
  
    /** acquiresleep on a buffer that is referred to and not locked. */
    method Acquire(b: nat)
      requires Valid() && b < n && refcnt[b] > 0 && !locked[b]
      modifies this`locked
      ensures Valid() && locked == old(locked)[b := true]
    {
      locked := locked[b := true];
    }

    /** The read of bread. */
    method Fill(b: nat)
      requires Valid() && b < n && locked[b]
      modifies this`data, this`valid
      ensures Valid() && valid == old(valid)[b := true]
      ensures old(valid)[b] ==> data == old(data)
      ensures !old(valid)[b] ==> data == old(data)[b := Get(disk, id[b])]
      ensures id[b].dev != 0 ==> data[b] == Get(latest, id[b])
    {
      if !valid[b] {
        FillCoherent(id, valid, data, disk, latest, b);
        data := data[b := Get(disk, id[b])];
        valid := valid[b := true];
      }
    }

    /** bread. If another process holds the buffer, the caller has its reference and sleeps until
        the lock is free; it goes on with Acquire and Fill. */
    method Bread(k: Blk) returns (b: nat, r: Read)
      requires Valid()
      modifies this`id, this`valid, this`refcnt, this`locked, this`data
      ensures Valid() && (r.NoBuffers? <==> k !in old(id) && forall c | 0 <= c < n :: old(refcnt)[c] > 0)
      ensures r.NoBuffers? ==> refcnt == old(refcnt) && locked == old(locked) && id == old(id) && data == old(data)
      ensures !r.NoBuffers? ==> b < n && id == old(id)[b := k] && refcnt == old(refcnt)[b := old(refcnt)[b] + 1]
      ensures !r.NoBuffers? ==>
        (r.Waits? <==> old(locked)[b]) && forall c | 0 <= c < n && c != b :: data[c] == old(data)[c]
      ensures !r.NoBuffers? && k in old(id) ==> id == old(id)
      ensures !r.NoBuffers? && k !in old(id) ==> old(refcnt)[b] == 0
      ensures r.Waits? ==> locked == old(locked) && data == old(data) && valid == old(valid)
      ensures r.Ready? ==> locked == old(locked)[b := true] && valid == old(valid)[b := true]
      ensures r.Ready? && k.dev != 0 ==> data[b] == Get(latest, k)
    {
      var ok;
      b, ok := Bget(k);
      if !ok { return b, NoBuffers; }
      if locked[b] { return b, Waits; }
      Acquire(b);
      Fill(b);
      r := Ready;
    }

    /** bread while no buffer is locked. */
    method BreadIdle(k: Blk) returns (b: nat, ok: bool)
      requires Valid() && forall c | 0 <= c < n && id[c] == k :: !locked[c]
      modifies this`id, this`valid, this`refcnt, this`locked, this`data
      ensures Valid() && (ok <==> k in old(id) || exists c :: 0 <= c < n && old(refcnt)[c] == 0)
      ensures ok ==> b < n && id == old(id)[b := k] && refcnt == old(refcnt)[b := old(refcnt)[b] + 1]
      ensures ok ==> !old(locked)[b] && locked == old(locked)[b := true] && valid == old(valid)[b := true]
      ensures ok ==> forall c | 0 <= c < n && c != b :: data[c] == old(data)[c]
      ensures ok && k.dev != 0 ==> data[b] == Get(latest, k)
      ensures ok && k in old(id) ==> id == old(id)
      ensures ok && k !in old(id) ==> old(refcnt)[b] == 0
    {
      var r;
      b, r := Bread(k);
      ok := r.Ready?;
    }

    /** The holder of a buffer changes its bytes. */
    method Put(b: nat, bytes: Bytes)
      requires Valid() && b < n && locked[b] && valid[b]
      modifies this`data, this`latest
      ensures Valid() && data == old(data)[b := bytes] && latest == old(latest)[id[b] := bytes]
    {
      PutCoherent(id, valid, data, disk, latest, b, bytes);
      data := data[b := bytes];
      latest := latest[id[b] := bytes];
    }

    /** bwrite. */
    method Bwrite(b: nat)
      requires Valid() && b < n && locked[b] && valid[b]
      modifies this`disk
      ensures Valid() && disk == old(disk)[id[b] := data[b]]
    {
      WriteCoherent(id, valid, refcnt, data, disk, latest, b);
      disk := disk[id[b] := data[b]];
    }

    /** What the last one to refer to a buffer must see to: it was written, or never changed. */
    ghost predicate MayDrop(b: nat)
      requires b < |refcnt| == |id| == |valid| == |data|
      reads this
    {
      refcnt[b] == 1 && valid[b] && id[b].dev != 0 ==> data[b] == Get(disk, id[b])
    }

    /** brelse: unlock, and put the buffer first if no one refers to it any more. */
    method Brelse(b: nat)
      requires Valid() && b < n && locked[b] && MayDrop(b)
      modifies this`locked, this`refcnt, this`next, this`prev, this`at, this`pos
      ensures Valid() && locked == old(locked)[b := false] && refcnt == old(refcnt)[b := old(refcnt)[b] - 1]
      ensures refcnt[b] > 0 ==> at == old(at)
      ensures refcnt[b] == 0 ==> at == FrontAt(old(at), b, old(pos)[b])
    {
      Unlock(b);
      Drop(b);
    }

    /** releasesleep in brelse, before bcache.lock is taken. */
    method Unlock(b: nat)
      requires Valid() && b < n && locked[b]
      modifies this`locked
      ensures Valid() && locked == old(locked)[b := false]
    {
      locked := locked[b := false];
    }

    /** The rest of brelse. In between another process may have locked the buffer. */
    method Drop(b: nat)
      requires Valid() && b < n && refcnt[b] > (if locked[b] then 1 else 0) && MayDrop(b)
      modifies this`refcnt, this`next, this`prev, this`at, this`pos
      ensures Valid() && refcnt == old(refcnt)[b := old(refcnt)[b] - 1]
      ensures refcnt[b] > 0 ==> at == old(at)
      ensures refcnt[b] == 0 ==> at == FrontAt(old(at), b, old(pos)[b])
    {
      refcnt := refcnt[b := refcnt[b] - 1];
      if refcnt[b] == 0 { MoveToFront(b); }
    }

    method MoveToFront(b: nat)
      requires Linked(next, prev, at, pos) && n == |at| && b < n
      modifies this`next, this`prev, this`at, this`pos
      ensures Linked(next, prev, at, pos) && at == FrontAt(old(at), b, old(pos)[b]) && |at| == n
    {
      FrontLinked(next, prev, at, pos, b);
      Neighbours(next, prev, at, pos, b);
      ghost var next0, prev0 := next, prev;
      prev := prev[next[b] := prev[b]];
      next := next[prev[b] := next[b]];
      next := next[b := next[n]];
      prev := prev[b := n];
      prev := prev[next[n] := b];
      next := next[n := b];
      assert next == NextAfter(next0, prev0, b, n) && prev == PrevAfter(next0, prev0, b, n);
      at, pos := FrontAt(at, b, pos[b]), FrontPos(pos, b, pos[b]);
    }

    method Bpin(b: nat)
      requires Valid() && b < n
      modifies this`refcnt
      ensures Valid() && refcnt == old(refcnt)[b := old(refcnt)[b] + 1]
    {
      refcnt := refcnt[b := refcnt[b] + 1];
    }

    /** bunpin, of a buffer that is not left locked without a reference. */
    method Bunpin(b: nat)
      requires Valid() && b < n && refcnt[b] > (if locked[b] then 1 else 0) && MayDrop(b)
      modifies this`refcnt
      ensures Valid() && refcnt == old(refcnt)[b := old(refcnt)[b] - 1]
    {
      refcnt := refcnt[b := refcnt[b] - 1];
    }

    // ---- log_write and commit, while no other process holds a buffer

    /** A block read, changed and given to log_write, which pins it if it is not in the log yet. */
    method LogBlock(k: Blk, bytes: Bytes, logged: bool, ghost pins: set<Blk>) returns (ok: bool)
      requires Valid() && Idle() && Counts(id, refcnt, pins, {}) && k.dev != 0 && (logged <==> k in pins)
      modifies this`id, this`valid, this`refcnt, this`locked, this`data, this`latest, this`next, this`prev, this`at,
        this`pos
      ensures ok <==> logged || |pins| < n
      ensures ok ==> Valid() && Idle() && Counts(id, refcnt, pins + {k}, {}) && latest == old(latest)[k := bytes]
    {
      if !logged { BreadSafe(id, refcnt, pins, k); }
      var b;
      b, ok := BreadIdle(k);
      if !ok { return; }
      CountsRead(old(id), old(refcnt), id, refcnt, pins, {}, b, k);
      assert {} + {b} == {b};
      CountsLogged(id, refcnt, pins, b, k);
      FinishLog(b, bytes, !logged);
    }

    method FinishLog(b: nat, bytes: Bytes, pin: bool)
      requires Valid() && b < n && locked[b] && valid[b] && (pin || refcnt[b] > 1)
      modifies this`refcnt, this`locked, this`data, this`latest, this`next, this`prev, this`at, this`pos
      ensures Valid() && locked == old(locked)[b := false] && latest == old(latest)[id[b] := bytes]
      ensures refcnt == Less(if pin then More(old(refcnt), b) else old(refcnt), b)
    {
      Put(b, bytes);
      if pin { Bpin(b); }
      Brelse(b);
    }

    /** bread of a block that is not pinned, and then of one that is. */
    method ReadPair(a: Blk, h: Blk, ghost pins: set<Blk>) returns (x: nat, y: nat, ok: bool)
      requires Valid() && Idle() && Counts(id, refcnt, pins, {}) && a !in pins && h in pins && a.dev != 0
      modifies this`id, this`valid, this`refcnt, this`locked, this`data
      ensures ok <==> |pins| < n
      ensures ok ==> Valid() && x < n && y < n && x != y && id[x] == a && id[y] == h && valid[x] && valid[y]
      ensures ok ==> Counts(id, refcnt, pins, {x, y}) && locked == old(locked)[x := true][y := true]
      ensures ok ==> data[x] == Get(latest, a) == Get(disk, a) && data[y] == Get(latest, h)
    {
      y := 0;
      x, ok := ReadFirst(a, pins);
      if !ok { return; }
      ghost var id1, refcnt1 := id, refcnt;
      y, ok := BreadIdle(h);
      CountsRead(id1, refcnt1, id, refcnt, pins, {x}, y, h);
      assert {x} + {y} == {x, y};
    }

    /** Read a block that is not pinned. */
    method ReadFirst(a: Blk, ghost pins: set<Blk>) returns (x: nat, ok: bool)
      requires Valid() && Idle() && Counts(id, refcnt, pins, {}) && a !in pins && a.dev != 0
      modifies this`id, this`valid, this`refcnt, this`locked, this`data
      ensures ok <==> |pins| < n
      ensures ok ==> Valid() && x < n && id[x] == a && valid[x] && locked == old(locked)[x := true]
      ensures ok ==> Counts(id, refcnt, pins, {x}) && data[x] == Get(latest, a) == Get(disk, a)
    {
      BreadSafe(id, refcnt, pins, a);
      Synced(id, valid, refcnt, data, disk, latest, pins, a);
      x, ok := BreadIdle(a);
      if !ok { return; }
      CountsRead(old(id), old(refcnt), id, refcnt, pins, {}, x, a);
      assert {} + {x} == {x};
    }

    /** A turn of the loop of write_log: copy a pinned block to the log and write it. */
    method CopyToLog(from: Blk, to: Blk, ghost pins: set<Blk>) returns (ok: bool)
      requires Valid() && Idle() && Counts(id, refcnt, pins, {}) && to !in pins && from in pins && to.dev != 0
      modifies this`id, this`valid, this`refcnt, this`locked, this`data, this`latest, this`disk, this`next, this`prev,
        this`at, this`pos
      ensures ok <==> |pins| < n
      ensures ok ==> Valid() && Idle() && Counts(id, refcnt, pins, {})
      ensures ok ==>
        latest == old(latest)[to := Get(old(latest), from)] && disk == old(disk)[to := Get(old(latest), from)]
    {
      var t, f;
      t, f, ok := ReadPair(to, from, pins);
      if !ok { return; }
      CountsBoth(id, refcnt, pins, t, f);
      LocksBack(old(locked), t, f);
      FinishCopy(t, f);
    }

    /** Copy, write and release. */
    method FinishCopy(t: nat, f: nat)
      requires Valid() && t < n && f < n && t != f && locked[t] && locked[f] && valid[t] && valid[f] && refcnt[f] > 1
      modifies this`refcnt, this`locked, this`data, this`latest, this`disk, this`next, this`prev, this`at, this`pos
      ensures Valid() && locked == old(locked)[f := false][t := false] && refcnt == Less(Less(old(refcnt), f), t)
      ensures latest == old(latest)[id[t] := old(data)[f]] && disk == old(disk)[id[t] := old(data)[f]]
    {
      StoreFrom(t, f);
      ReleaseTwo(f, t);
    }

    /** The bytes of buffer f go to buffer t and to its block. */
    method StoreFrom(t: nat, f: nat)
      requires Valid() && t < n && f < n && locked[t] && valid[t]
      modifies this`data, this`latest, this`disk
      ensures Valid() && data == old(data)[t := old(data)[f]]
      ensures latest == old(latest)[id[t] := old(data)[f]] && disk == old(disk)[id[t] := old(data)[f]]
    {
      Put(t, data[f]);
      Bwrite(t);
    }

    method ReleaseTwo(a: nat, b: nat)
      requires Valid() && a < n && b < n && a != b && locked[a] && locked[b] && MayDrop(a) && MayDrop(b)
      modifies this`locked, this`refcnt, this`next, this`prev, this`at, this`pos
      ensures Valid() && locked == old(locked)[a := false][b := false] && refcnt == Less(Less(old(refcnt), a), b)
    {
      Brelse(a);
      Brelse(b);
    }

    /** A turn of the loop of install_trans after a commit: copy a logged block home, write it
        and unpin it. */
    method InstallOne(from: Blk, home: Blk, ghost pins: set<Blk>) returns (ok: bool)
      requires Valid() && Idle() && Counts(id, refcnt, pins, {}) && from !in pins && home in pins && from.dev != 0
      modifies this`id, this`valid, this`refcnt, this`locked, this`data, this`latest, this`disk, this`next, this`prev,
        this`at, this`pos
      ensures ok <==> |pins| < n
      ensures ok ==> Valid() && Idle() && Counts(id, refcnt, pins - {home}, {})
      ensures ok ==>
        latest == old(latest)[home := Get(old(latest), from)] && disk == old(disk)[home := Get(old(latest), from)]
    {
      var l, d;
      l, d, ok := ReadPair(from, home, pins);
      if !ok { return; }
      CountsInstalled(id, refcnt, pins, l, d);
      LocksBack(old(locked), d, l);
      FinishInstall(l, d);
    }

    /** Copy, write, unpin and release. */
    method FinishInstall(l: nat, d: nat)
      requires Valid() && l < n && d < n && l != d && locked[l] && locked[d] && valid[l] && valid[d] && refcnt[d] > 1
      requires id[l] != id[d] && data[l] == Get(disk, id[l])
      modifies this`refcnt, this`locked, this`data, this`latest, this`disk, this`next, this`prev, this`at, this`pos
      ensures Valid() && locked == old(locked)[l := false][d := false]
        && refcnt == Less(Less(Less(old(refcnt), d), l), d)
      ensures latest == old(latest)[id[d] := old(data)[l]] && disk == old(disk)[id[d] := old(data)[l]]
    {
      CopyHome(l, d);
      ReleaseTwo(l, d);
    }

    method CopyHome(l: nat, d: nat)
      requires Valid() && l < n && d < n && locked[d] && valid[d] && refcnt[d] > 1
      modifies this`refcnt, this`data, this`latest, this`disk
      ensures Valid() && refcnt == Less(old(refcnt), d) && data == old(data)[d := old(data)[l]]
      ensures latest == old(latest)[id[d] := old(data)[l]] && disk == old(disk)[id[d] := old(data)[l]]
    {
      StoreFrom(d, l);
      Bunpin(d);
    }

    /** write_head: the numbers of the logged blocks go to the header block. */
    method WriteHead(head: Blk, lh: seq<nat>, ghost pins: set<Blk>) returns (ok: bool)
      requires Valid() && Idle() && Counts(id, refcnt, pins, {}) && head !in pins && head.dev != 0
      modifies this`id, this`valid, this`refcnt, this`locked, this`data, this`latest, this`disk, this`next, this`prev,
        this`at, this`pos
      ensures ok <==> |pins| < n
      ensures ok ==> Valid() && Idle() && Counts(id, refcnt, pins, {})
      ensures ok ==>
        latest == old(latest)[head := HeadOf(Get(old(latest), head), lh)]
        && disk == old(disk)[head := HeadOf(Get(old(latest), head), lh)]
    {
      BreadSafe(id, refcnt, pins, head);
      var b;
      b, ok := BreadIdle(head);
      if !ok { return; }
      CountsRead(old(id), old(refcnt), id, refcnt, pins, {}, b, head);
      assert {} + {b} == {b};
      CountsDrop(id, refcnt, pins, {b}, b, {});
      FinishHead(b, lh);
    }

    method FinishHead(b: nat, lh: seq<nat>)
      requires Valid() && b < n && locked[b] && valid[b]
      modifies this`refcnt, this`locked, this`data, this`latest, this`disk, this`next, this`prev, this`at, this`pos
      ensures Valid() && locked == old(locked)[b := false] && refcnt == Less(old(refcnt), b)
      ensures latest == old(latest)[id[b] := HeadOf(old(data)[b], lh)]
        && disk == old(disk)[id[b] := HeadOf(old(data)[b], lh)]
    {
      Put(b, HeadOf(data[b], lh));
      Bwrite(b);
      Brelse(b);
    }

    /** write_log: every pinned block goes to its place in the log. Not ok is the panic of a bget. */
    method WriteLog(pinned: seq<Blk>, dev: nat, start: nat) returns (ok: bool)
      requires Valid() && Idle() && Counts(id, refcnt, Set(pinned), {}) && Loggable(pinned, dev, start)
      modifies this`id, this`valid, this`refcnt, this`locked, this`data, this`latest, this`disk, this`next, this`prev,
        this`at, this`pos
      ensures ok <==> pinned == [] || |pinned| < n
      ensures ok ==> Valid() && Idle() && Counts(id, refcnt, Set(pinned), {})
      ensures ok ==> Logged(old(disk), old(latest), disk, latest, pinned, dev, start, |pinned|)
    {
      var tail := 0;
      ok := true;
      ghost var pins := Set(pinned);
      SetSize(pinned);
      while tail < |pinned|
        invariant tail <= |pinned| && ok && Valid() && Idle() && Counts(id, refcnt, pins, {})
          && (tail > 0 ==> |pinned| < n)
        invariant Logged(old(disk), old(latest), disk, latest, pinned, dev, start, tail)
      {
        var from, to := pinned[tail], Blk(dev, start + tail + 1);
        LoggedMore(old(disk), old(latest), disk, latest, pinned, dev, start, tail, to);
        ok := CopyToLog(from, to, pins);
        if !ok { return; }
        tail := tail + 1;
      }
    }

    /** install_trans after a commit: every logged block goes home and is pinned no longer. */
    method InstallTrans(pinned: seq<Blk>, dev: nat, start: nat) returns (ok: bool)
      requires Valid() && Idle() && Counts(id, refcnt, Set(pinned), {}) && Loggable(pinned, dev, start) && |pinned| < n
      modifies this`id, this`valid, this`refcnt, this`locked, this`data, this`latest, this`disk, this`next, this`prev,
        this`at, this`pos
      ensures ok && Valid() && Idle() && Counts(id, refcnt, {}, {})
      ensures Homed(old(disk), old(latest), disk, latest, pinned, dev, start, |pinned|)
    {
      var tail := 0;
      ok := true;
      assert pinned[0..] == pinned;
      while tail < |pinned|
        invariant tail <= |pinned| && ok && Valid() && Idle() && Counts(id, refcnt, Set(pinned[tail..]), {})
        invariant Homed(old(disk), old(latest), disk, latest, pinned, dev, start, tail)
      {
        var from, home := Blk(dev, start + tail + 1), pinned[tail];
        HomedMore(old(disk), old(latest), disk, latest, pinned, dev, start, tail, from);
        PinsLeft(pinned, tail);
        ok := InstallOne(from, home, Set(pinned[tail..]));
        tail := tail + 1;
      }
    }

    /** A turn of the loop of install_trans in recovery, where nothing is pinned. */
    method RecoverOne(from: Blk, home: Blk) returns (ok: bool)
      requires Valid() && Idle() && Counts(id, refcnt, {}, {}) && from != home && from.dev != 0 && home.dev != 0
      modifies this`id, this`valid, this`refcnt, this`locked, this`data, this`latest, this`disk, this`next, this`prev,
        this`at, this`pos
      ensures ok <==> n > 1
      ensures ok ==> Valid() && Idle() && Counts(id, refcnt, {}, {})
      ensures ok ==>
        latest == old(latest)[home := Get(old(latest), from)] && disk == old(disk)[home := Get(old(latest), from)]
    {
      var l, d;
      l, d, ok := ReadTwo(from, home);
      if !ok { return; }
      CountsDrop(id, refcnt, {}, {l, d}, l, {d});
      CountsDrop(id, Less(refcnt, l), {}, {d}, d, {});
      LocksBack(old(locked), d, l);
      FinishRecover(l, d);
    }

    /** bread of two blocks while no buffer is referred to. */
    method ReadTwo(a: Blk, h: Blk) returns (x: nat, y: nat, ok: bool)
      requires Valid() && Idle() && Counts(id, refcnt, {}, {}) && a != h && a.dev != 0 && h.dev != 0
      modifies this`id, this`valid, this`refcnt, this`locked, this`data
      ensures ok <==> n > 1
      ensures ok ==> Valid() && x < n && y < n && x != y && id[x] == a && id[y] == h && valid[x] && valid[y]
      ensures ok ==> Counts(id, refcnt, {}, {x, y}) && locked == old(locked)[x := true][y := true]
      ensures ok ==> data[x] == Get(latest, a) == Get(disk, a)
    {
      x, ok := ReadFirst(a, {});
      ghost var id1, refcnt1 := id, refcnt;
      OneHeld(id, refcnt, x, h);
      y, ok := BreadIdle(h);
      if !ok { return; }
      CountsRead(id1, refcnt1, id, refcnt, {}, {x}, y, h);
      assert {x} + {y} == {x, y};
    }

    method FinishRecover(l: nat, d: nat)
      requires Valid() && l < n && d < n && l != d && locked[l] && locked[d] && valid[l] && valid[d]
      requires id[l] != id[d] && data[l] == Get(disk, id[l])
      modifies this`refcnt, this`locked, this`data, this`latest, this`disk, this`next, this`prev, this`at, this`pos
      ensures Valid() && locked == old(locked)[l := false][d := false] && refcnt == Less(Less(old(refcnt), l), d)
      ensures latest == old(latest)[id[d] := old(data)[l]] && disk == old(disk)[id[d] := old(data)[l]]
    {
      StoreFrom(d, l);
      ReleaseTwo(l, d);
    }

    /** install_trans in recovery: it takes two buffers at a time. */
    method InstallRecovered(blocks: seq<Blk>, dev: nat, start: nat) returns (ok: bool)
      requires Valid() && Idle() && Counts(id, refcnt, {}, {}) && Loggable(blocks, dev, start)
      modifies this`id, this`valid, this`refcnt, this`locked, this`data, this`latest, this`disk, this`next, this`prev,
        this`at, this`pos
      ensures ok <==> blocks == [] || n > 1
      ensures ok ==> Valid() && Idle() && Counts(id, refcnt, {}, {})
      ensures ok ==> Homed(old(disk), old(latest), disk, latest, blocks, dev, start, |blocks|)
    {
      var tail := 0;
      ok := true;
      while tail < |blocks|
        invariant tail <= |blocks| && ok && Valid() && Idle() && Counts(id, refcnt, {}, {}) && (tail > 0 ==> n > 1)
        invariant Homed(old(disk), old(latest), disk, latest, blocks, dev, start, tail)
      {
        var from, home := Blk(dev, start + tail + 1), blocks[tail];
        HomedMore(old(disk), old(latest), disk, latest, blocks, dev, start, tail, from);
        ok := RecoverOne(from, home);
        if !ok { return; }
        tail := tail + 1;
      }
    }

    /** commit of the blocks that log_write has pinned. A buffer is found for every block it needs
        exactly if they leave one over; then all pins are dropped, the blocks are at home as they
        were last stored, and the log is empty. */
    method Commit(pinned: seq<Blk>, dev: nat, start: nat) returns (ok: bool)
      requires Valid() && Idle() && Counts(id, refcnt, Set(pinned), {}) && Loggable(pinned, dev, start)
      modifies this`id, this`valid, this`refcnt, this`locked, this`data, this`latest, this`disk, this`next, this`prev,
        this`at, this`pos
      ensures ok <==> pinned == [] || |pinned| < n
      ensures ok ==> Valid() && Idle() && Counts(id, refcnt, {}, {})
      ensures ok ==> Committed(old(disk), old(latest), disk, latest, pinned, dev, start)
    {
      if |pinned| == 0 { return true; }
      ok := WriteLog(pinned, dev, start);
      if !ok { return; }
      ghost var disk1, latest1 := disk, latest;
      var head, blocks := Blk(dev, start), Numbers(pinned);
      SetSize(pinned);
      ok := WriteHead(head, blocks, Set(pinned));
      ghost var disk2, latest2 := disk, latest;
      ok := InstallTrans(pinned, dev, start);
      ghost var disk3, latest3 := disk, latest;
      ok := WriteHead(head, [], {});
      CommitAll(old(disk), old(latest), disk1, latest1, disk2, latest2, disk3, latest3, disk, latest, pinned, dev,
        start);
    }

    ghost predicate Idle()
      reads this
    {
      forall b | 0 <= b < |locked| :: !locked[b]
    }
  }

  // ---- references

  /** Every pinned block has a buffer, and the references to a buffer are one for the pin of its
      block and one for its holder. */
  ghost predicate Counts(id: seq<Blk>, refcnt: seq<nat>, pins: set<Blk>, held: set<nat>) {
    && |refcnt| == |id| && (forall k | k in pins :: k in id && k.dev != 0)
    && forall b {:trigger refcnt[b]} | 0 <= b < |id| :: refcnt[b] == Pin(pins, id[b]) + Hold(held, b)
  }

  ghost function Pin(pins: set<Blk>, k: Blk): nat { if k in pins then 1 else 0 }
  ghost function Hold(held: set<nat>, b: nat): nat { if b in held then 1 else 0 }

  lemma CountsRead(id: seq<Blk>, refcnt: seq<nat>, id': seq<Blk>, refcnt': seq<nat>, pins: set<Blk>, held: set<nat>,
      b: nat, k: Blk)
    requires Counts(id, refcnt, pins, held) && b < |id| && b !in held && id' == id[b := k]
      && refcnt' == refcnt[b := refcnt[b] + 1]
    requires (k in id ==> id' == id) && (k !in id ==> refcnt[b] == 0)
    ensures Counts(id', refcnt', pins, held + {b})
  {
    forall x | x in pins ensures x in id' {
      var c :| 0 <= c < |id| && id[c] == x;
      assert refcnt[c] == Pin(pins, x) + Hold(held, c);
      assert id'[c] == x;
    }
    assert k !in id ==> id[b] !in pins by { assert refcnt[b] == Pin(pins, id[b]) + Hold(held, b); }
    forall c | 0 <= c < |id'| ensures refcnt'[c] == Pin(pins, id'[c]) + Hold(held + {b}, c) {
      assert refcnt[c] == Pin(pins, id[c]) + Hold(held, c);
    }
  }

  lemma CountsDrop(id: seq<Blk>, refcnt: seq<nat>, pins: set<Blk>, held: set<nat>, b: nat, held': set<nat>)
    requires Counts(id, refcnt, pins, held) && b < |id| && b in held && held' == held - {b}
    ensures refcnt[b] > 0 && Counts(id, refcnt[b := refcnt[b] - 1], pins, held')
  {
    assert refcnt[b] == Pin(pins, id[b]) + Hold(held, b);
    var refcnt' := refcnt[b := refcnt[b] - 1];
    forall c | 0 <= c < |id| ensures refcnt'[c] == Pin(pins, id[c]) + Hold(held', c) {
      assert refcnt[c] == Pin(pins, id[c]) + Hold(held, c);
    }
  }

  lemma CountsUnpin(id: seq<Blk>, refcnt: seq<nat>, pins: set<Blk>, held: set<nat>, b: nat)
    requires Counts(id, refcnt, pins, held) && Unique(id) && b < |id| && id[b] in pins
    ensures refcnt[b] > 0 && Counts(id, refcnt[b := refcnt[b] - 1], pins - {id[b]}, held)
  {
    assert refcnt[b] == Pin(pins, id[b]) + Hold(held, b);
    var refcnt', pins' := refcnt[b := refcnt[b] - 1], pins - {id[b]};
    forall c | 0 <= c < |id| ensures refcnt'[c] == Pin(pins', id[c]) + Hold(held, c) {
      assert refcnt[c] == Pin(pins, id[c]) + Hold(held, c);
      assert id[c] == id[b] ==> c == b;
    }
  }

  /** One reference less to buffer b. */
  function Less(refcnt: seq<nat>, b: nat): seq<nat> {
    if b < |refcnt| && refcnt[b] > 0 then refcnt[b := refcnt[b] - 1] else refcnt
  }

  function More(refcnt: seq<nat>, b: nat): seq<nat> {
    if b < |refcnt| then refcnt[b := refcnt[b] + 1] else refcnt
  }

  lemma CountsPin(id: seq<Blk>, refcnt: seq<nat>, pins: set<Blk>, held: set<nat>, b: nat)
    requires Counts(id, refcnt, pins, held) && Unique(id) && b < |id| && id[b] !in pins && id[b].dev != 0
    ensures Counts(id, More(refcnt, b), pins + {id[b]}, held)
  {
    var refcnt', pins' := More(refcnt, b), pins + {id[b]};
    forall c | 0 <= c < |id| ensures refcnt'[c] == Pin(pins', id[c]) + Hold(held, c) {
      assert refcnt[c] == Pin(pins, id[c]) + Hold(held, c);
      assert id[c] == id[b] ==> c == b;
    }
  }

  /** After log_write the block is pinned and the buffer held no longer. */
  lemma CountsLogged(id: seq<Blk>, refcnt: seq<nat>, pins: set<Blk>, b: nat, k: Blk)
    requires Counts(id, refcnt, pins, {b}) && Unique(id) && b < |id| && id[b] == k && k.dev != 0
    ensures k in pins ==> refcnt[b] > 1
    ensures Counts(id, Less(if k in pins then refcnt else More(refcnt, b), b), pins + {k}, {})
  {
    if k in pins {
      assert pins + {k} == pins;
      CountsDrop(id, refcnt, pins, {b}, b, {});
      assert refcnt[b] == Pin(pins, k) + Hold({b}, b);
    } else {
      CountsPin(id, refcnt, pins, {b}, b);
      CountsDrop(id, More(refcnt, b), pins + {k}, {b}, b, {});
    }
  }

  /** After a copy to the log only the pins are left. */
  lemma CountsBoth(id: seq<Blk>, refcnt: seq<nat>, pins: set<Blk>, t: nat, f: nat)
    requires Counts(id, refcnt, pins, {t, f}) && t < |id| && f < |id| && t != f && id[f] in pins
    ensures refcnt[f] > 1 && Counts(id, Less(Less(refcnt, f), t), pins, {})
  {
    assert refcnt[f] == Pin(pins, id[f]) + Hold({t, f}, f);
    CountsDrop(id, refcnt, pins, {t, f}, f, {t});
    CountsDrop(id, Less(refcnt, f), pins, {t}, t, {});
  }

  /** After a block is installed it is pinned no longer. */
  lemma CountsInstalled(id: seq<Blk>, refcnt: seq<nat>, pins: set<Blk>, l: nat, d: nat)
    requires Counts(id, refcnt, pins, {l, d}) && Unique(id) && l < |id| && d < |id| && l != d && id[d] in pins
    ensures refcnt[d] > 1 && Counts(id, Less(Less(Less(refcnt, d), l), d), pins - {id[d]}, {})
  {
    assert refcnt[d] == Pin(pins, id[d]) + Hold({l, d}, d);
    var left := pins - {id[d]};
    CountsUnpin(id, refcnt, pins, {l, d}, d);
    CountsDrop(id, Less(refcnt, d), left, {l, d}, l, {d});
    CountsDrop(id, Less(Less(refcnt, d), l), left, {d}, d, {});
  }

  lemma LocksBack(locked: seq<bool>, x: nat, y: nat)
    requires x < |locked| && y < |locked| && x != y && !locked[x] && !locked[y]
    ensures locked[x := true][y := true][y := false][x := false] == locked
    ensures locked[y := true][x := true][y := false][x := false] == locked
  {
  }

  ghost function InUse(refcnt: seq<nat>): set<nat> { set b | 0 <= b < |refcnt| && refcnt[b] > 0 }

  /** The buffers of a set of blocks are as many as the blocks. */
  lemma {:induction false} BuffersOf(id: seq<Blk>, s: set<nat>, pins: set<Blk>)
    requires Unique(id) && (forall b | b in s :: b < |id| && id[b] in pins) && forall k | k in pins :: k.dev != 0
    requires forall k | k in pins :: exists b :: b in s && b < |id| && id[b] == k
    ensures |s| == |pins|
  {
    if k :| k in pins {
      var c :| c in s && c < |id| && id[c] == k;
      forall x | x in pins - {k} ensures exists b :: b in s - {c} && b < |id| && id[b] == x {
        var b :| b in s && b < |id| && id[b] == x;
        assert b in s - {c};
      }
      BuffersOf(id, s - {c}, pins - {k});
    } else {
      assert s == {};
    }
  }

  /** With only pins, bget finds a buffer for a block that is not pinned exactly if not every
      buffer is that of a pinned block. */
  lemma BreadSafe(id: seq<Blk>, refcnt: seq<nat>, pins: set<Blk>, k: Blk)
    requires Unique(id) && Counts(id, refcnt, pins, {}) && k !in pins
    ensures |pins| < |id| <==> k in id || exists c :: 0 <= c < |refcnt| && refcnt[c] == 0
  {
    forall b | 0 <= b < |id|
      ensures refcnt[b] > 0 <==> id[b] in pins
    {
      assert refcnt[b] == Pin(pins, id[b]) + Hold({}, b);
    }
    var s := InUse(refcnt);
    forall x | x in pins ensures exists b :: b in s && b < |id| && id[b] == x {
      var c :| 0 <= c < |id| && id[c] == x;
      assert c in s;
    }
    BuffersOf(id, s, pins);
    InUseAll(refcnt);
  }

  /** With one buffer held and nothing pinned, another block finds a buffer exactly if there are
      two. */
  lemma OneHeld(id: seq<Blk>, refcnt: seq<nat>, x: nat, k: Blk)
    requires Counts(id, refcnt, {}, {x}) && x < |id| && id[x] != k
    ensures |id| > 1 <==> k in id || exists c :: 0 <= c < |refcnt| && refcnt[c] == 0
  {
    forall c | 0 <= c < |id| ensures refcnt[c] == Hold({x}, c) { assert refcnt[c] == Pin({}, id[c]) + Hold({x}, c); }
    if |id| > 1 {
      var c := if x == 0 then 1 else 0;
      assert refcnt[c] == 0;
    }
  }

  /** All buffers are in use exactly if none can be had. */
  lemma InUseAll(refcnt: seq<nat>)
    ensures |InUse(refcnt)| <= |refcnt| && (|InUse(refcnt)| < |refcnt| <==>
      exists c :: 0 <= c < |refcnt| && refcnt[c] == 0)
  {
    var all := Pigeonhole.Below(|refcnt|);
    Pigeonhole.BelowSize(|refcnt|);
    Pigeonhole.SubsetSize(InUse(refcnt), all);
    if c :| 0 <= c < |refcnt| && refcnt[c] == 0 {
      assert Pigeonhole.IsBelow(c, |refcnt|);
      Pigeonhole.SubsetSize(InUse(refcnt), all - {c});
    } else {
      forall c: nat | c in all ensures c in InUse(refcnt) { }
      Pigeonhole.SubsetSize(all, InUse(refcnt));
    }
  }

  /** A block that is not pinned is on disk as it was last stored. */
  lemma Synced(id: seq<Blk>, valid: seq<bool>, refcnt: seq<nat>, data: seq<Bytes>, disk: Store, latest: Store,
      pins: set<Blk>, k: Blk)
    requires Coherent(id, valid, data, disk, latest) && Clean(id, valid, refcnt, data, disk)
      && Counts(id, refcnt, pins, {})
    requires k !in pins && k.dev != 0
    ensures Get(latest, k) == Get(disk, k)
  {
    if Cached(id, valid, k) {
      var c :| 0 <= c < |id| && valid[c] && id[c] == k;
      assert refcnt[c] == Pin(pins, k) + Hold({}, c);
      assert data[c] == Get(latest, k);
    }
  }

  const NBUF: nat := 30                      // MAXOPBLOCKS * 3

  /** In state i of a run the log holds NBUF blocks, and so pins every buffer. */
  ghost predicate AllPinned(l: Log.Layout, run: seq<Log.State>, i: nat) {
    Log.IsRun(l, run) && i < |run| && |run[i].lh| >= NBUF
  }

  /** In some run the log comes to pin every buffer, and in some run to commit in that state, exactly
      if it has more than LOGSIZE blocks and there are NBUF blocks outside it. */
  lemma AllPinnedIff(l: Log.Layout)
    requires l.Valid()
    ensures (exists run: seq<Log.State>, i: nat :: AllPinned(l, run, i)) <==>
      l.size > Log.LOGSIZE && Log.Homes(l) >= NBUF
    ensures (exists run: seq<Log.State>, i: nat :: AllPinned(l, run, i) && run[i].phase == Log.CommitEntered)
      <==> l.size > Log.LOGSIZE && Log.Homes(l) >= NBUF
  {
    forall run: seq<Log.State>, i: nat | AllPinned(l, run, i) ensures l.size > Log.LOGSIZE && Log.Homes(l) >= NBUF {
      Log.RunInv(l, run, i);
      Log.HeaderInHomes(l, run[i].lh);
    }
    if l.size > Log.LOGSIZE && Log.Homes(l) >= NBUF {
      var run := Log.Commits(l, NBUF);
      assert AllPinned(l, run, |run| - 1);
    }
  }

  // ---- what a commit does to the stores

  ghost function Set(s: seq<Blk>): set<Blk> { set k | k in s }

  lemma {:induction false} SetSize(s: seq<Blk>)
    requires forall i, j | 0 <= i < j < |s| :: s[i] != s[j]
    ensures |Set(s)| == |s|
  {
    if s != [] {
      SetSize(s[1..]);
      assert s == [s[0]] + s[1..];
      assert s[0] !in s[1..];
      assert Set(s) == Set(s[1..]) + {s[0]};
    }
  }

  function Numbers(s: seq<Blk>): seq<nat> { if s == [] then [] else [s[0].no] + Numbers(s[1..]) }

  /** The header with the count and the block numbers in front of what it held. */
  function HeadOf(was: Bytes, lh: seq<nat>): Bytes { [|lh|] + lh + if |lh| < |was| then was[1 + |lh|..] else [] }

  predicate InLog(k: Blk, dev: nat, start: nat, n: nat) { k.dev == dev && start < k.no <= start + n }

  /** Different blocks outside the log and its header. */
  ghost predicate Loggable(pinned: seq<Blk>, dev: nat, start: nat) {
    && dev != 0 && (forall i, j | 0 <= i < j < |pinned| :: pinned[i] != pinned[j])
    && forall i {:trigger pinned[i]} | 0 <= i < |pinned| ::
         pinned[i].dev != 0 && !InLog(pinned[i], dev, start, |pinned|) && pinned[i] != Blk(dev, start)
  }

  /** The first n pinned blocks are in the log as they were, and nothing else is changed. */
  ghost predicate Logged(disk0: Store, latest0: Store, disk: Store, latest: Store, pinned: seq<Blk>, dev: nat,
      start: nat, n: nat) {
    && n <= |pinned|
    && (forall i {:trigger pinned[i]} | 0 <= i < n ::
        Stored(disk, latest, Blk(dev, start + i + 1), Get(latest0, pinned[i])))
    && (forall k {:trigger Get(disk, k)} {:trigger Get(latest, k)} | !InLog(k, dev, start, n) ::
          Get(disk, k) == Get(disk0, k) && Get(latest, k) == Get(latest0, k))
  }

  lemma LoggedMore(disk0: Store, latest0: Store, disk: Store, latest: Store, pinned: seq<Blk>, dev: nat, start: nat,
      n: nat, to: Blk)
    requires Logged(disk0, latest0, disk, latest, pinned, dev, start, n) && n < |pinned|
      && to == Blk(dev, start + n + 1)
    requires Loggable(pinned, dev, start)
    ensures to !in pinned && pinned[n] in pinned
    ensures var x := Get(latest, pinned[n]); Logged(disk0, latest0, disk[to := x], latest[to := x], pinned, dev, start,
      n + 1)
  {
    var x := Get(latest, pinned[n]);
    var disk', latest' := disk[to := x], latest[to := x];
    assert !InLog(pinned[n], dev, start, n) by { assert !InLog(pinned[n], dev, start, |pinned|); }
    forall i | 0 <= i < n + 1 ensures Stored(disk', latest', Blk(dev, start + i + 1), Get(latest0, pinned[i])) {
      assert i < n ==> Stored(disk, latest, Blk(dev, start + i + 1), Get(latest0, pinned[i]));
    }
    forall k | !InLog(k, dev, start, n + 1)
      ensures Get(disk', k) == Get(disk0, k) && Get(latest', k) == Get(latest0, k)
    {
      assert k != to && !InLog(k, dev, start, n);
      assert Get(disk, k) == Get(disk0, k) && Get(latest, k) == Get(latest0, k);
    }
  }

  /** The first n pinned blocks are at home as the log has them, and nothing else is changed. */
  ghost predicate Homed(disk0: Store, latest0: Store, disk: Store, latest: Store, pinned: seq<Blk>, dev: nat,
      start: nat, n: nat) {
    && n <= |pinned|
    && (forall i {:trigger pinned[i]} | 0 <= i < n ::
        Stored(disk, latest, pinned[i], Get(latest0, Blk(dev, start + i + 1))))
    && (forall k {:trigger Get(disk, k)} {:trigger Get(latest, k)} | k !in pinned[..n] ::
          Get(disk, k) == Get(disk0, k) && Get(latest, k) == Get(latest0, k))
  }

  lemma SlotNotPinned(pinned: seq<Blk>, dev: nat, start: nat, n: nat, from: Blk)
    requires Loggable(pinned, dev, start) && n < |pinned| && from == Blk(dev, start + n + 1)
    ensures from !in pinned && from !in pinned[..n]
  {
    assert InLog(from, dev, start, |pinned|);
    forall i | 0 <= i < |pinned| ensures pinned[i] != from { assert !InLog(pinned[i], dev, start, |pinned|); }
  }

  lemma HomedMore(disk0: Store, latest0: Store, disk: Store, latest: Store, pinned: seq<Blk>, dev: nat, start: nat,
      n: nat, from: Blk)
    requires Homed(disk0, latest0, disk, latest, pinned, dev, start, n) && n < |pinned|
      && from == Blk(dev, start + n + 1)
    requires Loggable(pinned, dev, start)
    ensures from !in pinned && from !in pinned[..n]
    ensures var x := Get(latest, from); Homed(disk0, latest0, disk[pinned[n] := x], latest[pinned[n] := x], pinned,
      dev, start, n + 1)
  {
    var x, h := Get(latest, from), pinned[n];
    var disk', latest' := disk[h := x], latest[h := x];
    SlotNotPinned(pinned, dev, start, n, from);
    assert Get(latest, from) == Get(latest0, from);
    forall i | 0 <= i < n + 1 ensures Stored(disk', latest', pinned[i], Get(latest0, Blk(dev, start + i + 1))) {
      assert i < n ==> pinned[i] != h && Stored(disk, latest, pinned[i], Get(latest0, Blk(dev, start + i + 1)));
    }
    forall k | k !in pinned[..n + 1] ensures Get(disk', k) == Get(disk0, k) && Get(latest', k) == Get(latest0, k) {
      assert pinned[..n + 1] == pinned[..n] + [h];
      assert Get(disk, k) == Get(disk0, k) && Get(latest, k) == Get(latest0, k);
    }
  }

  /** The blocks still pinned after one more is installed. */
  lemma PinsLeft(pinned: seq<Blk>, n: nat)
    requires n < |pinned| && forall i, j | 0 <= i < j < |pinned| :: pinned[i] != pinned[j]
    ensures pinned[n] in Set(pinned[n..]) && Set(pinned[n..]) - {pinned[n]} == Set(pinned[n + 1..])
    ensures |Set(pinned[n..])| <= |pinned| && Set(pinned[n..]) <= Set(pinned)
  {
    assert pinned[n..] == [pinned[n]] + pinned[n + 1..];
    SetSize(pinned[n..]);
  }

  /** The pinned blocks are on disk as they were last stored, the header names none, and beside
      these and the log nothing changed. */
  ghost predicate Committed(disk0: Store, latest0: Store, disk: Store, latest: Store, pinned: seq<Blk>, dev: nat,
      start: nat) {
    if pinned == [] then disk == disk0 && latest == latest0
    else
      && (forall i {:trigger pinned[i]} | 0 <= i < |pinned| :: Stored(disk, latest, pinned[i], Get(latest0, pinned[i])))
      && Get(disk, Blk(dev, start)) != [] && Get(disk, Blk(dev, start))[0] == 0
      && (forall k {:trigger Get(disk, k)} {:trigger Get(latest, k)} | Elsewhere(k, pinned, dev, start) ::
            Get(disk, k) == Get(disk0, k) && Get(latest, k) == Get(latest0, k))
  }

  predicate Elsewhere(k: Blk, pinned: seq<Blk>, dev: nat, start: nat) {
    k !in pinned && k != Blk(dev, start) && !InLog(k, dev, start, |pinned|)
  }

  lemma CommitAll(disk0: Store, latest0: Store, disk1: Store, latest1: Store, disk2: Store, latest2: Store,
                  disk3: Store, latest3: Store, disk: Store, latest: Store, pinned: seq<Blk>, dev: nat, start: nat)
    requires pinned != [] && Loggable(pinned, dev, start)
    requires Logged(disk0, latest0, disk1, latest1, pinned, dev, start, |pinned|)
    requires HeadWritten(disk1, latest1, disk2, latest2, Blk(dev, start), Numbers(pinned))
    requires Homed(disk2, latest2, disk3, latest3, pinned, dev, start, |pinned|)
    requires HeadWritten(disk3, latest3, disk, latest, Blk(dev, start), [])
    ensures Committed(disk0, latest0, disk, latest, pinned, dev, start)
  {
    forall i | 0 <= i < |pinned| ensures Stored(disk, latest, pinned[i], Get(latest0, pinned[i])) {
      var h, slot, x := pinned[i], Blk(dev, start + i + 1), Get(latest0, pinned[i]);
      assert Stored(disk1, latest1, slot, x) && Stored(disk3, latest3, h, Get(latest2, slot)) && h != Blk(dev, start);
      CommitOne(disk1, latest1, disk2, latest2, disk3, latest3, disk, latest, h, slot, x, Blk(dev, start),
        Numbers(pinned));
    }
    CommitOthers(disk0, disk1, disk2, disk3, disk, latest0, latest1, latest2, latest3, latest, pinned, dev, start);
  }

  lemma CommitOthers(disk0: Store, disk1: Store, disk2: Store, disk3: Store, disk: Store, latest0: Store,
      latest1: Store, latest2: Store, latest3: Store, latest: Store, pinned: seq<Blk>, dev: nat, start: nat)
    requires Logged(disk0, latest0, disk1, latest1, pinned, dev, start, |pinned|)
    requires HeadWritten(disk1, latest1, disk2, latest2, Blk(dev, start), Numbers(pinned))
    requires Homed(disk2, latest2, disk3, latest3, pinned, dev, start, |pinned|)
    requires HeadWritten(disk3, latest3, disk, latest, Blk(dev, start), [])
    ensures forall k {:trigger Get(disk, k)} {:trigger Get(latest, k)} | Elsewhere(k, pinned, dev, start) ::
      Get(disk, k) == Get(disk0, k) && Get(latest, k) == Get(latest0, k)
  {
    assert pinned[..|pinned|] == pinned;
    forall k | Elsewhere(k, pinned, dev, start)
      ensures Get(disk, k) == Get(disk0, k) && Get(latest, k) == Get(latest0, k)
    {
      assert Get(disk3, k) == Get(disk2, k) && Get(disk1, k) == Get(disk0, k);
    }
  }

  lemma CommitOne(disk1: Store, latest1: Store, disk2: Store, latest2: Store, disk3: Store, latest3: Store,
      disk: Store, latest: Store,
                  h: Blk, slot: Blk, x: Bytes, head: Blk, lh: seq<nat>)
    requires Stored(disk1, latest1, slot, x) && HeadWritten(disk1, latest1, disk2, latest2, head, lh) && slot != head
      && h != head
    requires Stored(disk3, latest3, h, Get(latest2, slot)) && HeadWritten(disk3, latest3, disk, latest, head, [])
    ensures Stored(disk, latest, h, x)
  {
  }

  /** Block k holds x, on disk and as last stored. */
  predicate Stored(disk: Store, latest: Store, k: Blk, x: Bytes) { Get(disk, k) == x && Get(latest, k) == x }

  ghost predicate HeadWritten(disk: Store, latest: Store, disk': Store, latest': Store, head: Blk, lh: seq<nat>) {
    var x := HeadOf(Get(latest, head), lh);
    disk' == disk[head := x] && latest' == latest[head := x]
  }

  /** The buffers from the last one down to the first. */
  function Backwards(n: nat): seq<nat> { seq(n, i requires 0 <= i < n => n - 1 - i) }

  /** The list as binit builds it, each buffer put first in turn. */
  method Binit(n: nat) returns (next: seq<nat>, prev: seq<nat>)
    requires n > 0
    ensures Linked(next, prev, Backwards(n), Backwards(n))
  {
    next, prev := seq(n + 1, _ => n), seq(n + 1, _ => n);
    var b := 0;
    while b < n
      invariant b <= n && |next| == |prev| == n + 1
      invariant next[n] == (if b == 0 then n else b - 1) && prev[n] == (if b == 0 then n else 0)
      invariant forall x | 0 <= x < b ::
        next[x] == (if x == 0 then n else x - 1) && prev[x] == (if x == b - 1 then n else x + 1)
    {
      next := next[b := next[n]];
      prev := prev[b := n];
      prev := prev[next[n] := b];
      next := next[n := b];
      b := b + 1;
    }
  }

  lemma FillCoherent(id: seq<Blk>, valid: seq<bool>, data: seq<Bytes>, disk: Store, latest: Store, b: nat)
    requires Unique(id) && Coherent(id, valid, data, disk, latest) && b < |id| && !valid[b]
    ensures Coherent(id, valid[b := true], data[b := Get(disk, id[b])], disk, latest)
  {
    var valid', data' := valid[b := true], data[b := Get(disk, id[b])];
    assert id[b].dev != 0 ==> Get(latest, id[b]) == Get(disk, id[b]);
    forall x: Blk | x.dev != 0 ensures Get(latest, x) == Get(disk, x) || Cached(id, valid', x) {
      if Get(latest, x) != Get(disk, x) {
        var c :| 0 <= c < |id| && valid[c] && id[c] == x;
        assert valid'[c] && id[c] == x;
      }
    }
  }

  lemma PutCoherent(id: seq<Blk>, valid: seq<bool>, data: seq<Bytes>, disk: Store, latest: Store, b: nat, bytes: Bytes)
    requires Unique(id) && Coherent(id, valid, data, disk, latest) && b < |id| && valid[b]
    ensures Coherent(id, valid, data[b := bytes], disk, latest[id[b] := bytes])
  {
    var latest' := latest[id[b] := bytes];
    forall x: Blk | x.dev != 0 ensures Get(latest', x) == Get(disk, x) || Cached(id, valid, x) {
      assert x == id[b] || Get(latest', x) == Get(latest, x);
    }
    forall c | 0 <= c < |id| && valid[c] && id[c].dev != 0 ensures data[b := bytes][c] == Get(latest', id[c]) {
      assert c != b ==> id[c] != id[b] && data[c] == Get(latest, id[c]);
    }
  }

  lemma WriteCoherent(id: seq<Blk>, valid: seq<bool>, refcnt: seq<nat>, data: seq<Bytes>, disk: Store, latest: Store,
      b: nat)
    requires Unique(id) && Coherent(id, valid, data, disk, latest) && Clean(id, valid, refcnt, data, disk) && b < |id|
      && valid[b]
    ensures Coherent(id, valid, data, disk[id[b] := data[b]], latest)
      && Clean(id, valid, refcnt, data, disk[id[b] := data[b]])
  {
    var disk' := disk[id[b] := data[b]];
    forall x: Blk | x.dev != 0 ensures Get(latest, x) == Get(disk', x) || Cached(id, valid, x) {
      assert x != id[b] ==> Get(disk', x) == Get(disk, x);
    }
    forall c | 0 <= c < |id| && refcnt[c] == 0 && valid[c] && id[c].dev != 0 ensures data[c] == Get(disk', id[c]) {
      assert id[c] == id[b] ==> c == b;
    }
  }
}
