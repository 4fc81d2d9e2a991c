/** The code of guest/xv6/kernel/vm.c for user address spaces, over the page pool of
    guest/xv6/kernel/kalloc.c. */
module GuestMemory {
  import opened PageTree
  import opened TableCount
  import opened GuestPages
  import opened TablePrune

  const USER_TOP: nat := 0x80_0000_0000      // 2^39

  /** (va >> PXSHIFT(level)) & PXMASK */
  function Px(level: nat, va: nat): nat {
    va / (if level == 1 then 0x4000_0000 else if level == 2 then 0x20_0000 else 0x1000) % ENTRIES
  }

  lemma PxMeans(level: nat, va: nat)
    requires 1 <= level <= 3
    ensures Px(level, va) == Prefix(level + 1, va / PGSIZE) % ENTRIES
  {
    assert Prefix(4, va / PGSIZE) == va / PGSIZE && Prefix(3, va / PGSIZE) == va / PGSIZE / ENTRIES;
    assert Prefix(2, va / PGSIZE) == va / PGSIZE / ENTRIES / ENTRIES;
    assert va / PGSIZE / ENTRIES == va / 0x20_0000 && va / 0x20_0000 / ENTRIES == va / 0x4000_0000;
  }

  class Memory {
    var free: seq<nat>                       // kmem.freelist, its head last
    var tab: map<nat, seq<Pte>>              // frames that are page tables
    var data: Bytes                          // the bytes of the other frames
    ghost var t: Tree

    ghost function Now(): St
      reads this
    {
      St(free, data, t)
    }

    ghost predicate Valid()
      reads this
    {
      t.tab == tab && Ok(Now())
    }

    constructor ()
      ensures Valid() && free == [] && t == Tree(map[], map[], map[], map[])
    {
      free, tab, data := [], map[], map[];
      t := Tree(map[], map[], map[], map[]);
    }

    /** freerange at boot: frames lo up to hi, not known before, go on the free list. */
    method FreeRange(lo: nat, hi: nat)
      requires Valid() && Settled(t.own) && lo <= hi && forall f | lo <= f < hi :: f !in t.own
      modifies this`free, this`data, this`t
      ensures Valid() && Settled(t.own) && Supplied(old(Now()), Now(), lo, hi)
    {
      var p := lo;
      ghost var s := Now();
      while p < hi
        invariant lo <= p <= hi && Valid() && Settled(t.own) && Supplied(s, Now(), lo, p)
      {
        NewFrameOk(Now(), p);
        SuppliedMore(s, Now(), lo, p);
        PushFrame(p);
        p := p + 1;
      }
    }

    method PushFrame(f: nat)
      requires t.tab == tab
      modifies this`free, this`data, this`t
      ensures t.tab == tab && Now() == WithFrame(old(Now()), f)
    {
      t := Tree(t.tab, t.node, t.view, t.own[f := Free(|free|)]);
      data := data[f := Filled(1)];
      free := free + [f];
    }

    method Kalloc() returns (f: nat, ok: bool)
      requires Valid()
      modifies this`free, this`data, this`t
      ensures Valid() && ok == (old(free) != [])
      ensures !ok ==> Now() == old(Now())
      ensures ok ==> Now() == Kalloced(old(Now())) && f == old(free)[|old(free)| - 1]
    {
      if |free| == 0 { return 0, false; }
      f := free[|free| - 1];
      KallocOk(Now());
      free := free[..|free| - 1];
      t := Took(t, f);
      data := data[f := Filled(5)];
      return f, true;
    }

    method Kfree(f: nat)
      requires Valid() && f in t.own && t.own[f] == Held
      modifies this`free, this`tab, this`data, this`t
      ensures Valid() && Now() == Kfreed(old(Now()), f)
    {
      KfreeOk(Now(), f);
      t := Gave(t, f, |free|);
      data := data[f := Filled(1)];
      tab := tab - {f};
      free := free + [f];
    }

    /** A new, empty table for entry i of the table in frame pt. */
    method GrowTable(pt: nat, i: nat, ghost k: Key, ghost c: Key) returns (g: nat, ok: bool)
      requires Valid() && k in t.node && k.level < LAST && pt == t.node[k] && i < ENTRIES && c == Child(k, i)
        && c !in t.node
      modifies this`free, this`tab, this`data, this`t
      ensures Valid() && ok == (old(free) != [])
      ensures !ok ==> Now() == old(Now())
      ensures ok ==> MoreTables(old(Now()), Now(), k.root) && c in t.node && g == t.node[c]
      ensures ok ==> OneAdded(old(t).node, t.node, c) && |free| + 1 == old(|free|)
    {
      ghost var s := Now();
      if free != [] {
        BranchOk(s, k, i);
        BranchMore(s, k, i);
      }
      g, ok := Kalloc();
      if ok { LinkTable(pt, i, g, k, s); }
    }

    /** Entry i of the table in frame pt points to frame g, taken from the pool in state s. */
    method LinkTable(pt: nat, i: nat, g: nat, ghost k: Key, ghost s: St)
      requires t.tab == tab && k in t.node && pt == t.node[k] && pt in tab && |tab[pt]| == ENTRIES && i < ENTRIES
        && g != pt
      requires s.free != [] && Now() == Kalloced(s) && g == s.free[|s.free| - 1]
      modifies this`tab, this`t
      ensures t.tab == tab && Now() == Branched(s, k, i)
    {
      tab := tab[g := Blank()];
      tab := tab[pt := tab[pt][i := Table(g)]];
      t := Linked(t, k, i, g);
    }

    /** One step of walk, from the table at a level to the next one on the path of va. */
    method NextTable(root: nat, va: nat, level: nat, pt: nat, alloc: bool, ghost k: Key) returns (next: nat, ok: bool)
      requires Valid() && 1 <= level < 3 && PathKey(root, va / PGSIZE, level) in t.node
        && pt == t.node[PathKey(root, va / PGSIZE, level)] && k == PathKey(root, va / PGSIZE, level + 1)
      modifies this`free, this`tab, this`data, this`t
      ensures Valid() && MoreTables(old(Now()), Now(), root)
      ensures ok ==> k in t.node && next == t.node[k] && OneAdded(old(t).node, t.node, k)
      ensures ok ==> |free| + Miss(old(t).node, k) == old(|free|)
      ensures !alloc || !ok ==> Now() == old(Now())
      ensures !ok ==> k !in t.node && (alloc ==> free == [])
    {
      PxMeans(level, va);
      PathStep(TOP, t, root, va / PGSIZE, level);
      var pte := tab[pt][Px(level, va)];
      if pte.Table? { return pte.frame, true; }
      if !alloc { return 0, false; }
      next, ok := GrowTable(pt, Px(level, va), PathKey(root, va / PGSIZE, level), k);
    }

    /** walk: the table that holds the entry of va. With alloc it takes a frame for each table on
        the path that is missing. */
    method Walk(root: nat, va: nat, alloc: bool) returns (pt: nat, ok: bool)
      requires Valid() && va < USER_TOP && Key(root, TOP, 0) in t.node
      modifies this`free, this`tab, this`data, this`t
      ensures Valid() && MoreTables(old(Now()), Now(), root)
      ensures ok <==> TableOf(Spot(root, va / PGSIZE)) in t.node
      ensures ok ==> pt == t.node[TableOf(Spot(root, va / PGSIZE))]
      ensures !alloc ==> Now() == old(Now())
      ensures alloc ==> Walked(old(Now()), Now(), ok, root, va / PGSIZE)
    {
      ghost var v, s := va / PGSIZE, Now();
      UserPrefix(v);
      PathEnd(root, v);
      var level := 1;
      pt, ok := root, true;
      while level < 3
        invariant ok && 1 <= level <= 3 && Valid() && Walking(s, Now(), root, v, level)
        invariant pt == t.node[PathKey(root, v, level)] && (!alloc ==> Now() == s)
      {
        ghost var m := Now();
        var next := level + 1;
        ghost var k := PathKey(root, v, next);
        pt, ok := NextTable(root, va, level, pt, alloc, k);
        if !ok {
          WalkingStuck(s, m, root, v, level, next, k);
          return;
        }
        WalkingMore(s, m, Now(), root, v, level, next, k);
        level := next;
      }
    }

    /** The body of the loop of mappages: map the page of va to frame g. */
    method MapOne(root: nat, va: nat, g: nat, perm: nat) returns (r: MapResult)
      requires Valid() && va < USER_TOP && Key(root, TOP, 0) in t.node && g in t.own && t.own[g] == Held
      modifies this`free, this`tab, this`data, this`t
      ensures Valid() && OneMapped(old(Now()), Now(), r, root, va / PGSIZE, g, perm)
    {
      ghost var s := Now();
      var pt, ok := Walk(root, va, true);
      if !ok {
        OneNotHooked(s, Now(), false, root, va / PGSIZE, g, perm);
        return NoMemory;
      }
      r := HookPage(pt, root, va, g, perm, s);
    }

    /** Set the entry of va in the table that walk found. */
    method HookPage(pt: nat, root: nat, va: nat, g: nat, perm: nat, ghost s: St) returns (r: MapResult)
      requires Valid() && Ok(s) && Walked(s, Now(), true, root, va / PGSIZE) && g in s.t.own && s.t.own[g] == Held
      requires TableOf(Spot(root, va / PGSIZE)) in t.node && pt == t.node[TableOf(Spot(root, va / PGSIZE))]
      modifies this`tab, this`t
      ensures Valid() && OneMapped(s, Now(), r, root, va / PGSIZE, g, perm)
    {
      ghost var w, p := Now(), Spot(root, va / PGSIZE);
      PxMeans(3, va);
      LeafEntry(TOP, t, p);
      if tab[pt][Px(3, va)].Leaf? {
        OneNotHooked(s, w, true, root, va / PGSIZE, g, perm);
        return Remap;
      }
      OneHooked(s, w, root, va / PGSIZE, g, perm);
      SetLeaf(pt, Px(3, va), g, perm, p);
      return Done;
    }

    method SetLeaf(pt: nat, i: nat, g: nat, perm: nat, ghost p: Spot)
      requires t.tab == tab && TableOf(p) in t.node && pt == t.node[TableOf(p)] && pt in tab && |tab[pt]| == ENTRIES
        && i == p.vpn % ENTRIES
      modifies this`tab, this`t
      ensures t.tab == tab && Now() == Hooked(old(Now()), p, g, perm)
    {
      tab := tab[pt := tab[pt][i := Leaf(g, perm)]];
      t := Mapped(t, p, g, perm);
    }

    method MapPage(root: nat, v: nat, g: nat, perm: nat) returns (r: MapResult)
      requires Valid() && v < USER_PAGES && Key(root, TOP, 0) in t.node && g in t.own && t.own[g] == Held
      modifies this`free, this`tab, this`data, this`t
      ensures Valid() && OneMapped(old(Now()), Now(), r, root, v, g, perm)
    {
      assert v * PGSIZE / PGSIZE == v;
      r := MapOne(root, v * PGSIZE, g, perm);
    }

    /** mappages: map `size` bytes at va to the frames from that of pa on. */
    method Mappages(root: nat, va: nat, size: nat, pa: nat, perm: nat) returns (r: MapResult, ghost d: nat)
      requires Valid() && 0 < size && va + size <= USER_TOP && Key(root, TOP, 0) in t.node
      requires forall f | pa / PGSIZE <= f < pa / PGSIZE + Pages(va, size) :: f in t.own && t.own[f] == Held
      modifies this`free, this`tab, this`data, this`t
      ensures Valid() && RangeMapped(old(Now()), Now(), r, d, root, va / PGSIZE, pa / PGSIZE, Pages(va, size), perm)
    {
      r, d := MapLoop(root, va / PGSIZE, (va + size - 1) / PGSIZE, pa / PGSIZE, perm, Pages(va, size));
    }

    /** The loop of mappages, over page and frame numbers. */
    method MapLoop(root: nat, first: nat, last: nat, g: nat, perm: nat, ghost n: nat)
        returns (r: MapResult, ghost d: nat)
      requires Valid() && first <= last < USER_PAGES && n == last - first + 1 && Key(root, TOP, 0) in t.node
      requires forall f | g <= f < g + n :: f in t.own && t.own[f] == Held
      modifies this`free, this`tab, this`data, this`t
      ensures Valid() && RangeMapped(old(Now()), Now(), r, d, root, first, g, n, perm)
    {
      var v, f := first, g;
      d := 0;
      ghost var s := Now();
      MapsNone(s, root, first, g, perm);
      while true
        invariant Valid() && v == first + d && v <= last && f == g + d && MapsTo(s, Now(), root, first, g, d, perm)
        invariant RangePaid(s, Now(), root, first, d)
        decreases last - v
      {
        ghost var m, next := Now(), d + 1;
        MapsHeld(s, m, root, first, g, d, perm, f);
        r := MapPage(root, v, f, perm);
        MapsOneMore(s, m, Now(), r, root, first, g, d, perm, v, f, next);
        PaidOneMore(s, m, Now(), r, root, first, g, d, perm, v, f, next);
        if !r.Done? { return; }
        d := next;
        if v == last { return; }
        v, f := v + 1, f + 1;
      }
    }

    /** kalloc, fill and mappages one page, and kfree if that fails: what the loops of uvmalloc
        and uvmcopy do. */
    method AddPage(root: nat, v: nat, bytes: seq<nat>, perm: nat) returns (ok: bool)
      requires Valid() && Settled(t.own) && v < USER_PAGES && Key(root, TOP, 0) in t.node && Spot(root, v) !in t.view
      modifies this`free, this`tab, this`data, this`t
      ensures Valid() && AddedTo(old(Now()), Now(), ok, root, v, bytes, perm)
    {
      ghost var s := Now();
      var g;
      g, ok := NewPage(bytes);
      if !ok {
        AddedNone(s, root, v, bytes, perm);
        return;
      }
      ghost var k, d := Now(), 0;
      var r;
      r, d := MapFrame(root, v, g, perm);
      AddedOk(s, k, Now(), r, d, root, v, g, bytes, perm);
      if r.Done? { return true; }
      Kfree(g);
      return false;
    }

    /** kalloc, and the bytes of the new page. */
    method NewPage(bytes: seq<nat>) returns (g: nat, ok: bool)
      requires Valid()
      modifies this`free, this`data, this`t
      ensures Valid() && ok == (old(free) != [])
      ensures !ok ==> Now() == old(Now())
      ensures ok ==> g == old(free)[|old(free)| - 1] && Now() == FilledWith(Kalloced(old(Now())), g, bytes)
      ensures ok ==> g in t.own && t.own[g] == Held
    {
      ghost var s := Now();
      g, ok := Kalloc();
      if ok {
        KallocOk(s);
        FillOk(Now(), g, bytes);
        data := data[g := bytes];
      }
    }

    /** mappages(pagetable, a, PGSIZE, V2P(mem), perm) at a page boundary. */
    method MapFrame(root: nat, v: nat, g: nat, perm: nat) returns (r: MapResult, ghost d: nat)
      requires Valid() && v < USER_PAGES && Key(root, TOP, 0) in t.node && g in t.own && t.own[g] == Held
      modifies this`free, this`tab, this`data, this`t
      ensures Valid() && RangeMapped(old(Now()), Now(), r, d, root, v, g, 1, perm)
    {
      assert v * PGSIZE / PGSIZE == v && g * PGSIZE / PGSIZE == g && Pages(v * PGSIZE, PGSIZE) == 1;
      r, d := Mappages(root, v * PGSIZE, PGSIZE, g * PGSIZE, perm);
    }

    /** The body of the loop of uvmunmap. Not ok is one of its panics: the page is not mapped. */
    method UnmapOne(root: nat, va: nat, doFree: bool) returns (ok: bool)
      requires Valid() && va < USER_TOP && Key(root, TOP, 0) in t.node
      modifies this`free, this`tab, this`data, this`t
      ensures Valid() && ok == Has(old(Now()).t.view, root, va / PGSIZE)
      ensures !ok ==> Now() == old(Now())
      ensures ok ==> OneRemoved(old(Now()), Now(), Spot(root, va / PGSIZE), doFree)
    {
      ghost var s, p := Now(), Spot(root, va / PGSIZE);
      var pt;
      pt, ok := Walk(root, va, false);
      if !ok { return; }
      PxMeans(3, va);
      LeafEntry(TOP, t, p);
      var pte := tab[pt][Px(3, va)];
      if !pte.Leaf? { return false; }
      LiftPage(pt, Px(3, va), pte.frame, p, doFree);
    }

    /** Clear entry i, of page p, and free its frame if asked to. */
    method LiftPage(pt: nat, i: nat, frame: nat, ghost p: Spot, doFree: bool)
      requires Valid() && p in t.view && TableOf(p) in t.node && pt == t.node[TableOf(p)] && i == p.vpn % ENTRIES
        && frame == t.view[p].frame
      modifies this`free, this`tab, this`data, this`t
      ensures Valid() && OneRemoved(old(Now()), Now(), p, doFree)
    {
      ghost var s := Now();
      LiftOk(s, p);
      LiftRemoves(s, p, frame);
      ClearLeaf(pt, i, p);
      if doFree { Kfree(frame); }
    }

    method ClearLeaf(pt: nat, i: nat, ghost p: Spot)
      requires t.tab == tab && TableOf(p) in t.node && pt == t.node[TableOf(p)] && pt in tab && |tab[pt]| == ENTRIES
        && i == p.vpn % ENTRIES && p in t.view
      modifies this`tab, this`t
      ensures t.tab == tab && Now() == Lifted(old(Now()), p)
    {
      tab := tab[pt := tab[pt][i := None]];
      t := Unmapped(t, p);
    }

    /** uvmunmap. Not ok is a panic: va is not aligned or a page is not mapped. */
    method Uvmunmap(root: nat, va: nat, npages: nat, doFree: bool) returns (ok: bool)
      requires Valid() && va + npages * PGSIZE <= USER_TOP && Key(root, TOP, 0) in t.node
      modifies this`free, this`tab, this`data, this`t
      ensures Valid()
      ensures ok <==> va % PGSIZE == 0 && AllMapped(old(Now()).t.view, root, va / PGSIZE, npages)
      ensures ok ==> Removed(old(Now()), Now(), root, va / PGSIZE, npages, doFree)
    {
      if va % PGSIZE != 0 { return false; }
      ok := UnmapLoop(root, va / PGSIZE, npages, doFree);
    }

    method UnmapLoop(root: nat, first: nat, n: nat, doFree: bool) returns (ok: bool)
      requires Valid() && first + n <= USER_PAGES && Key(root, TOP, 0) in t.node
      modifies this`free, this`tab, this`data, this`t
      ensures Valid() && (ok <==> AllMapped(old(Now()).t.view, root, first, n))
      ensures ok ==> Removed(old(Now()), Now(), root, first, n, doFree)
    {
      var k := 0;
      ghost var s := Now();
      RemovedNone(s, root, first, doFree);
      while k < n
        invariant k <= n && Valid() && Removed(s, Now(), root, first, k, doFree)
        invariant AllMapped(s.t.view, root, first, k)
      {
        ghost var m := Now();
        var v := first + k;
        StillThere(s, m, root, first, k, doFree, v);
        AllMappedMore(s.t.view, root, first, k, v);
        ok := UnmapPage(root, v, doFree);
        if !ok {
          AllMappedLess(s.t.view, root, first, n, v);
          return;
        }
        RemovedMore(s, m, Now(), root, first, k, doFree, v);
        k := k + 1;
      }
      return true;
    }

    method UnmapPage(root: nat, v: nat, doFree: bool) returns (ok: bool)
      requires Valid() && v < USER_PAGES && Key(root, TOP, 0) in t.node
      modifies this`free, this`tab, this`data, this`t
      ensures Valid() && ok == Has(old(Now()).t.view, root, v)
      ensures ok ==> OneRemoved(old(Now()), Now(), Spot(root, v), doFree)
    {
      assert v * PGSIZE / PGSIZE == v;
      ok := UnmapOne(root, v * PGSIZE, doFree);
    }

    /** uvmdealloc. Not ok is a panic: a page is not mapped. */
    method Uvmdealloc(root: nat, oldsz: nat, newsz: nat) returns (r: nat, ok: bool)
      requires Valid() && oldsz <= USER_TOP && Key(root, TOP, 0) in t.node
      modifies this`free, this`tab, this`data, this`t
      ensures Valid() && r == (if newsz >= oldsz then oldsz else newsz)
      ensures ok <==>
        newsz >= oldsz || AllMapped(old(Now()).t.view, root, PageCount(newsz), PagesBetween(newsz, oldsz))
      ensures newsz >= oldsz ==> Now() == old(Now())
      ensures newsz < oldsz && ok ==>
        Removed(old(Now()), Now(), root, PageCount(newsz), PagesBetween(newsz, oldsz), true)
    {
      if newsz >= oldsz { return oldsz, true; }
      var first, n := PageCount(newsz), PagesBetween(newsz, oldsz);
      ok := true;
      if n > 0 {
        ok := UnmapLoop(root, first, n, true);
      } else {
        RemovedNone(Now(), root, first, true);
      }
      r := newsz;
    }

    /** The loop of uvmalloc, from page lo up to hi; on failure all of it is undone. */
    method GrowLoop(root: nat, lo: nat, hi: nat, ghost n: nat) returns (ok: bool)
      requires Valid() && Settled(t.own) && hi == lo + n <= USER_PAGES && Key(root, TOP, 0) in t.node
        && NoneMapped(t.view, root, lo, n)
      modifies this`free, this`tab, this`data, this`t
      ensures Valid() && Settled(t.own)
      ensures ok <==> old(|free|) >= Needs(old(Now()), root, lo, n)
      ensures ok ==> GrewBy(old(Now()), Now(), root, lo, Zeroed(n))
      ensures !ok ==> t.view == old(Now()).t.view && Consumed(old(Now()), Now(), root)
    {
      var v := lo;
      ghost var s, k := Now(), 0;
      GrewNone(s, root, lo);
      while v < hi
        invariant v == lo + k <= hi && Valid() && Growing(s, Now(), root, lo, k)
      {
        ghost var next := k + 1;
        ok := GrowTurn(root, lo, v, s, k, next, n);
        if !ok {
          UndoLoop(root, lo, v, s, Zeroed(k));
          return;
        }
        v, k := v + 1, next;
      }
      assert k == n;
      SpentEnough(s, Now(), root, lo, n);
      return true;
    }

    /** One turn of the loop of uvmalloc, of n in all. */
    method GrowTurn(root: nat, lo: nat, v: nat, ghost s: St, ghost k: nat, ghost next: nat, ghost n: nat)
        returns (ok: bool)
      requires Valid() && v < USER_PAGES && v == lo + k && next == k + 1 <= n && Growing(s, Now(), root, lo, k)
      requires !Has(s.t.view, root, v)
      modifies this`free, this`tab, this`data, this`t
      ensures Valid() && Key(root, TOP, 0) in t.node
      ensures ok ==> Growing(s, Now(), root, lo, next)
      ensures !ok ==> GrewBy(s, Now(), root, lo, Zeroed(k)) && |s.free| < Needs(s, root, lo, n)
    {
      ghost var m := Now();
      GrewNext(s, m, root, lo, Zeroed(k), v);
      ok := AddPage(root, v, Filled(0), UFLAGS);
      GrowingMore(s, m, Now(), ok, root, lo, k, v, next, n);
    }

    /** Unmap the pages from lo up to hi again. */
    method UndoLoop(root: nat, lo: nat, hi: nat, ghost s: St, ghost images: seq<Image>)
      requires Valid() && Ok(s) && lo <= hi <= USER_PAGES && Key(root, TOP, 0) in t.node && |images| == hi - lo
      requires GrewBy(s, Now(), root, lo, images)
      modifies this`free, this`tab, this`data, this`t
      ensures Valid() && Settled(t.own) && t.view == s.t.view && Consumed(s, Now(), root)
    {
      ghost var m := Now();
      GrewMapped(s, m, root, lo, images);
      var n := hi - lo;
      var ok := UnmapLoop(root, lo, n, true);
      GrewUndone(s, m, Now(), root, lo, images);
    }

    /** uvmalloc. `ok` tells failure from success. */
    method Uvmalloc(root: nat, oldsz: nat, newsz: nat) returns (r: nat, ghost ok: bool)
      requires Valid() && Settled(t.own) && newsz <= USER_TOP && Key(root, TOP, 0) in t.node
      requires NoneMapped(t.view, root, PageCount(oldsz), PagesBetween(oldsz, newsz))
      modifies this`free, this`tab, this`data, this`t
      ensures Valid() && Settled(t.own)
      ensures ok <==>
        newsz < oldsz || old(|free|) >= Needs(old(Now()), root, PageCount(oldsz), PagesBetween(oldsz, newsz))
      ensures newsz < oldsz ==> r == oldsz && Now() == old(Now())
      ensures newsz >= oldsz && ok ==>
        r == newsz && GrewBy(old(Now()), Now(), root, PageCount(oldsz), Zeroed(PagesBetween(oldsz, newsz)))
      ensures !ok ==> r == 0 && t.view == old(Now()).t.view && Consumed(old(Now()), Now(), root)
    {
      if newsz < oldsz { return oldsz, true; }
      var done := GrowLoop(root, PageCount(oldsz), PageCount(newsz), PagesBetween(oldsz, newsz));
      ok := done;
      if !done { return 0, false; }
      return newsz, true;
    }

    /** uvmcopy: 0, or -1 when memory runs out. Not `there` is a panic: a page of the parent is not
        mapped. */
    method Uvmcopy(old_: nat, new_: nat, sz: nat) returns (r: int, there: bool)
      requires Valid() && Settled(t.own) && sz <= USER_TOP && Key(old_, TOP, 0) in t.node
        && Key(new_, TOP, 0) in t.node && old_ != new_
      requires NoneMapped(t.view, new_, 0, PageCount(sz))
      modifies this`free, this`tab, this`data, this`t
      ensures !there ==> !AllMapped(old(Now()).t.view, old_, 0, PageCount(sz))
      ensures there ==> Valid() && Settled(t.own) && (r == 0 || r == -1) && Key(new_, TOP, 0) in t.node
      ensures there && r == 0 <==>
        AllMapped(old(Now()).t.view, old_, 0, PageCount(sz)) && old(|free|) >= Needs(old(Now()), new_, 0, PageCount(sz))
      ensures there && r == -1 ==> old(|free|) < Needs(old(Now()), new_, 0, PageCount(sz))
      ensures there && r == 0 ==> GrewBy(old(Now()), Now(), new_, 0, Copies(old(Now()), old_, PageCount(sz)))
      ensures there && r == -1 ==> t.view == old(Now()).t.view && Consumed(old(Now()), Now(), new_)
    {
      var ok;
      ok, there := CopyLoop(old_, new_, PageCount(sz));
      r := if ok then 0 else -1;
    }

    /** The loop of uvmcopy over n pages; when memory runs out all of it is undone. */
    method CopyLoop(old_: nat, new_: nat, n: nat) returns (ok: bool, there: bool)
      requires Valid() && Settled(t.own) && n <= USER_PAGES && Key(old_, TOP, 0) in t.node
        && Key(new_, TOP, 0) in t.node && old_ != new_
      requires NoneMapped(t.view, new_, 0, n)
      modifies this`free, this`tab, this`data, this`t
      ensures !there ==> !AllMapped(old(Now()).t.view, old_, 0, n)
      ensures there ==> Valid() && Settled(t.own) && Key(new_, TOP, 0) in t.node
      ensures there && ok ==> AllMapped(old(Now()).t.view, old_, 0, n) && old(|free|) >= Needs(old(Now()), new_, 0, n)
      ensures there && ok ==> GrewBy(old(Now()), Now(), new_, 0, Copies(old(Now()), old_, n))
      ensures there && !ok ==> old(|free|) < Needs(old(Now()), new_, 0, n)
      ensures there && !ok ==> t.view == old(Now()).t.view && Consumed(old(Now()), Now(), new_)
    {
      var v := 0;
      ghost var s := Now();
      GrewNone(s, new_, 0);
      while v < n
        invariant v <= n && Valid() && Copying(s, Now(), old_, new_, v)
      {
        var next := v + 1;
        assert !Has(s.t.view, new_, v);
        ok, there := CopyPage(old_, new_, v, s, next, n);
        if !there { return; }
        if !ok {
          UndoLoop(new_, 0, v, s, Copies(s, old_, v));
          return;
        }
        v := next;
      }
      SpentEnough(s, Now(), new_, 0, n);
      return true, true;
    }

    /** One turn of the loop of uvmcopy, of n in all. */
    method CopyPage(old_: nat, new_: nat, v: nat, ghost s: St, ghost next: nat, ghost n: nat)
        returns (ok: bool, there: bool)
      requires Valid() && v < USER_PAGES && old_ != new_ && next == v + 1 <= n
      requires Ok(s) && !Has(s.t.view, new_, v) && Copying(s, Now(), old_, new_, v)
      modifies this`free, this`tab, this`data, this`t
      ensures !there ==> !AllMapped(s.t.view, old_, 0, n)
      ensures there ==> Valid() && Key(new_, TOP, 0) in t.node
      ensures there && ok ==> Copying(s, Now(), old_, new_, next)
      ensures there && !ok ==> GrewBy(s, Now(), new_, 0, Copies(s, old_, v)) && |s.free| < Needs(s, new_, 0, n)
    {
      ghost var m, p, images := Now(), Spot(old_, v), Copies(s, old_, v);
      assert Shows(s, m, new_, 0, images, p);
      ok := false;
      var frame, flags;
      frame, flags, there := Lookup(old_, v);
      if !there {
        AllMappedLess(s.t.view, old_, 0, n, v);
        return;
      }
      SourceStays(s, m, new_, 0, images, p);
      GrewNext(s, m, new_, 0, images, v);
      var bytes := data[frame];
      ok := AddPage(new_, v, bytes, flags);
      CopyingMore(s, m, Now(), ok, old_, new_, v, next, n, bytes, flags);
    }

    /** walk(pagetable, va, 0) and the entry it leads to. */
    method Lookup(root: nat, v: nat) returns (frame: nat, flags: nat, ok: bool)
      requires Valid() && v < USER_PAGES && Key(root, TOP, 0) in t.node
      modifies this`free, this`tab, this`data, this`t
      ensures Valid() && Now() == old(Now()) && (ok <==> Spot(root, v) in t.view)
      ensures ok ==> frame == t.view[Spot(root, v)].frame && flags == t.view[Spot(root, v)].flags
    {
      assert v * PGSIZE / PGSIZE == v;
      var pt;
      pt, ok := Walk(root, v * PGSIZE, false);
      if !ok { return 0, 0, false; }
      PxMeans(3, v * PGSIZE);
      LeafEntry(TOP, t, Spot(root, v));
      var pte := tab[pt][Px(3, v * PGSIZE)];
      if !pte.Leaf? { return 0, 0, false; }
      frame, flags := pte.frame, pte.flags;
    }

    /** uvmcreate: an empty page table. */
    method Uvmcreate() returns (r: nat, ok: bool)
      requires Valid() && Settled(t.own)
      modifies this`free, this`tab, this`data, this`t
      ensures Valid() && ok == (old(free) != [])
      ensures ok ==> Created(old(Now()), Now(), r)
      ensures !ok ==> Now() == old(Now())
    {
      ghost var s := Now();
      if free != [] { CreateOk(s); }
      r, ok := Kalloc();
      if !ok { return; }
      ClearRoot(r);
    }

    method ClearRoot(r: nat)
      requires t.tab == tab
      modifies this`tab, this`t
      ensures t.tab == tab && Now() == Planted(old(Now()), r)
    {
      tab := tab[r := Blank()];
      t := Rooted(TOP, t, r);
    }

    /** freewalk: give back the table in frame pt, which is table k, and all under it. */
    method Freewalk(pt: nat, ghost k: Key)
      requires Valid() && k in t.node && pt == t.node[k] && forall p | p in t.view :: p.root != k.root
      modifies this`free, this`tab, this`data, this`t
      ensures t.tab == tab && OkBut(Now(), k) && Cut(old(Now()), Now(), UnderSet(old(Now()), k))
      decreases LAST - k.level
    {
      ghost var s := Now();
      var i := 0;
      CutNone(s);
      assert BelowSet(s, k, 0) == {};
      while i < ENTRIES
        invariant i <= ENTRIES && Valid() && Cut(s, Now(), BelowSet(s, k, i)) && k in t.node && pt == t.node[k]
      {
        FreeEntry(pt, i, k, s);
        i := i + 1;
      }
      FreeTable(pt, k, s);
    }

    /** One turn of the loop of freewalk. */
    method FreeEntry(pt: nat, i: nat, ghost k: Key, ghost s: St)
      requires Valid() && k in t.node && pt == t.node[k] && i < ENTRIES && forall p | p in t.view :: p.root != k.root
      requires Cut(s, Now(), BelowSet(s, k, i))
      modifies this`free, this`tab, this`data, this`t
      ensures Valid() && Cut(s, Now(), BelowSet(s, k, i + 1)) && k in t.node && pt == t.node[k] && t.view == old(t.view)
      decreases LAST - k.level, 0
    {
      ghost var m, c := Now(), Child(k, i);
      ChildEntry(m, k, i);
      var pte := tab[pt][i];
      if pte.Table? {
        Freewalk(pte.frame, c);
        ghost var w := Now();
        ZapAll(s, m, w, k, i);
        ZapEntry(pt, i, k);
      } else {
        NoChild(s, m, k, i);
      }
    }

    method ZapEntry(pt: nat, i: nat, ghost k: Key)
      requires t.tab == tab && k in t.node && pt == t.node[k] && pt in tab && |tab[pt]| == ENTRIES && i < ENTRIES
      modifies this`tab, this`t
      ensures t.tab == tab && Now() == Zapped(old(Now()), k, i)
    {
      tab := tab[pt := tab[pt][i := None]];
      t := Cleared(t, k, i);
    }

    method PushTable(pt: nat, ghost k: Key)
      requires t.tab == tab && k in t.node && pt == t.node[k]
      modifies this`free, this`tab, this`data, this`t
      ensures t.tab == tab && Now() == Returned(old(Now()), k)
    {
      t := Gave(Dropped(t, k), pt, |free|);
      free, data, tab := free + [pt], data[pt := Filled(1)], tab - {pt};
    }

    /** kfree of a table nothing hangs on. */
    method FreeTable(pt: nat, ghost k: Key, ghost s: St)
      requires Valid() && k in t.node && k in s.t.node && pt == t.node[k] && Cut(s, Now(), BelowSet(s, k, ENTRIES))
        && forall p | p in t.view :: p.root != k.root
      modifies this`free, this`tab, this`data, this`t
      ensures t.tab == tab && OkBut(Now(), k) && Cut(s, Now(), UnderSet(s, k))
    {
      ghost var m := Now();
      ReturnAll(s, m, k);
      PushTable(pt, k);
    }

    /** uvmfree of an address space of sz bytes: its pages, then its tables. Not ok is a panic: a
        page is not mapped. */
    method Uvmfree(root: nat, sz: nat) returns (ok: bool)
      requires Valid() && Settled(t.own) && sz <= USER_TOP && Key(root, TOP, 0) in t.node
        && NoneBeyond(t.view, root, PageCount(sz))
      modifies this`free, this`tab, this`data, this`t
      ensures ok <==> AllMapped(old(Now()).t.view, root, 0, PageCount(sz))
      ensures ok ==> Valid() && Empty(Now(), root) && Unused(t.own, root) && Local(old(t), t, old(data), data, root)
    {
      ghost var s := Now();
      ok := true;
      if sz > 0 { ok := UnmapLoop(root, 0, PageCount(sz), true); } else { RemovedNone(s, root, 0, true); }
      if !ok { return; }
      UnsizedEmpty(s, Now(), root, PageCount(sz));
      ghost var m := Now();
      Freewalk(root, Key(root, TOP, 0));
      RootDropped(TOP, t, Key(root, TOP, 0));
      NothingLeft(m, Now(), root);
      CutLocal(m, Now(), root);
      LocalTwice(s.t, m.t, t, s.data, m.data, data, root);
    }

    /** What fork does to memory: a new page table, a copy of the parent's pages, and all given
        back by freeproc if that fails. */
    method ForkPages(parent: nat, sz: nat) returns (child: nat, ok: bool)
      requires Valid() && Settled(t.own) && sz <= USER_TOP && Key(parent, TOP, 0) in t.node
        && Sized(t.view, parent, PageCount(sz))
      modifies this`free, this`tab, this`data, this`t
      ensures Valid() && Settled(t.own)
      ensures ok <==> old(|free|) >= 1 + PageCount(sz) + TablesFor(0, PageCount(sz), TOP)
      ensures ok ==> Forked(old(Now()), Now(), parent, child, PageCount(sz))
      ensures !ok ==> FreeSet(t.own) == FreeSet(old(Now()).t.own) && t.view == old(Now()).t.view
      ensures !ok ==> Local(old(Now()).t, t, old(Now()).data, data, child)
    {
      ghost var s := Now();
      NewTreeLacks(map[], 0, 0, PageCount(sz), TOP);
      child, ok := Uvmcreate();
      if !ok {
        LocalNone(s, child);
        return;
      }
      ghost var m := Now();
      ChildIsNew(s, m, parent, child, PageCount(sz));
      NewTreeLacks(m.t.node, child, 0, PageCount(sz), TOP);
      var r, there := Uvmcopy(parent, child, sz);
      assert there;
      ok := r == 0;
      if ok {
        ForkedOk(s, m, Now(), parent, child, PageCount(sz));
      } else {
        FreeChild(child, s, m);
      }
    }

    method FreeChild(child: nat, ghost s: St, ghost m: St)
      requires Valid() && Settled(t.own) && Ok(s) && Settled(s.t.own) && Created(s, m, child)
      requires t.view == m.t.view && Consumed(m, Now(), child) && Key(child, TOP, 0) in t.node
      modifies this`free, this`tab, this`data, this`t
      ensures Valid() && Settled(t.own) && FreeSet(t.own) == FreeSet(s.t.own) && t.view == s.t.view
        && Local(s.t, t, s.data, data, child)
    {
      ghost var b := Now();
      ConsumedTwice(s, m, b, child);
      ConsumedLocal(s, b, child);
      var ok := Uvmfree(child, 0);
      LocalTwice(s.t, b.t, t, s.data, b.data, data, child);
      EmptyUnused(s, child);
      FreeAgain(s.t, t, s.data, data, child);
      SameView(s, Now(), child);
    }
  }

  lemma LocalNone(s: St, r: nat)
    requires Ok(s)
    ensures Local(s.t, s.t, s.data, s.data, r)
  {
  }

  lemma ConsumedLocal(a: St, b: St, r: nat)
    requires Consumed(a, b, r) && b.t.view == a.t.view
    ensures Local(a.t, b.t, a.data, b.data, r)
  {
    forall f | f in a.t.own && Mine(a.t.own[f], r) ensures Mine(b.t.own[f], r) { assert f in b.t.own; }
  }

  lemma EmptyUnused(s: St, r: nat)
    requires Ok(s) && Settled(s.t.own) && Empty(s, r)
    ensures Unused(s.t.own, r)
  {
    forall f | f in s.t.own ensures !UsedBy(s.t.own[f], r) { assert InUse(s.t.node, s.t.view, s.t.own, f); }
  }

  lemma SameView(a: St, b: St, r: nat)
    requires Local(a.t, b.t, a.data, b.data, r) && Empty(a, r) && Empty(b, r)
    ensures b.t.view == a.t.view
  {
    forall p: Spot ensures (p in b.t.view <==> p in a.t.view) && (p in a.t.view ==> b.t.view[p] == a.t.view[p]) {
      assert p in b.t.view || p !in b.t.view;
    }
  }

  lemma ChildIsNew(a: St, m: St, parent: nat, child: nat, n: nat)
    requires Ok(a) && Created(a, m, child) && Key(parent, TOP, 0) in a.t.node && Sized(a.t.view, parent, n)
    ensures parent != child && Key(parent, TOP, 0) in m.t.node && AllMapped(m.t.view, parent, 0, n)
      && NoneMapped(m.t.view, child, 0, n)
  {
    assert Key(parent, TOP, 0) in m.t.node;
    SizedMapped(a.t.view, parent, n);
  }

  /** Page v of the child is a copy of page v of the parent, in a frame that was free. */
  ghost predicate CopyOf(a: St, b: St, parent: nat, child: nat, v: nat) {
    && Spot(parent, v) in a.t.view && a.t.view[Spot(parent, v)].frame in a.data
    && Holds(a, b, Spot(child, v), Image(a.data[a.t.view[Spot(parent, v)].frame], a.t.view[Spot(parent, v)].flags))
  }

  /** The child has a copy of each of the n pages of the parent and no more; only free frames
      were used. */
  ghost predicate Forked(a: St, b: St, parent: nat, child: nat, n: nat) {
    && Consumed(a, b, child) && Sized(b.t.view, child, n)
    && (forall v: nat {:trigger CopyOf(a, b, parent, child, v)} | v < n :: CopyOf(a, b, parent, child, v))
    && (forall p: Spot {:trigger p in b.t.view} | p.root != child ::
        (p in b.t.view <==> p in a.t.view) && (p in a.t.view ==> b.t.view[p] == a.t.view[p]))
  }

  lemma CopyIsCopy(a: St, m: St, b: St, parent: nat, child: nat, n: nat, v: nat)
    requires Ok(a) && Created(a, m, child) && AllMapped(m.t.view, parent, 0, n)
      && GrewBy(m, b, child, 0, Copies(m, parent, n)) && v < n
    ensures CopyOf(a, b, parent, child, v)
  {
    var p := Spot(parent, v);
    assert Has(m.t.view, parent, v);
    CopiesAt(m, parent, n, v);
    assert Shows(m, b, child, 0, Copies(m, parent, n), Spot(child, v));
    var f := a.t.view[p].frame;
    assert a.t.own[f] == Page(p);
    assert f in m.data;
    assert m.data[f] == a.data[f];
    var g := b.t.view[Spot(child, v)].frame;
    assert m.t.own[g].Free?;
  }

  lemma ForkedOk(a: St, m: St, b: St, parent: nat, child: nat, n: nat)
    requires Ok(a) && Created(a, m, child) && AllMapped(m.t.view, parent, 0, n)
      && GrewBy(m, b, child, 0, Copies(m, parent, n))
    ensures Forked(a, b, parent, child, n)
  {
    ConsumedTwice(a, m, b, child);
    forall v: nat | v < n ensures CopyOf(a, b, parent, child, v) { CopyIsCopy(a, m, b, parent, child, n, v); }
    ForkedViews(a, m, b, parent, child, n);
  }

  lemma ForkedViews(a: St, m: St, b: St, parent: nat, child: nat, n: nat)
    requires m.t.view == a.t.view && Empty(a, child) && GrewBy(m, b, child, 0, Copies(m, parent, n))
    ensures Sized(b.t.view, child, n)
    ensures forall p: Spot {:trigger p in b.t.view} | p.root != child ::
      (p in b.t.view <==> p in a.t.view) && (p in a.t.view ==> b.t.view[p] == a.t.view[p])
  {
    forall p: Spot ensures p.root == child ==> (p in b.t.view <==> p.vpn < n) {
      assert Shows(m, b, child, 0, Copies(m, parent, n), p) && (p in a.t.view ==> p.root != child);
    }
    forall p: Spot | p.root != child
      ensures (p in b.t.view <==> p in a.t.view) && (p in a.t.view ==> b.t.view[p] == a.t.view[p])
    {
      assert Shows(m, b, child, 0, Copies(m, parent, n), p);
    }
  }

  /** The pages of tree r are the first n. */
  ghost predicate Sized(view: map<Spot, Mapping>, r: nat, n: nat) {
    forall p: Spot {:trigger p in view} | p.root == r :: p in view <==> p.vpn < n
  }

  /** No page from n on is mapped. */
  ghost predicate NoneBeyond(view: map<Spot, Mapping>, r: nat, n: nat) {
    forall p: Spot {:trigger p in view} | p in view && p.root == r :: p.vpn < n
  }

  lemma SizedMapped(view: map<Spot, Mapping>, r: nat, n: nat)
    requires Sized(view, r, n)
    ensures AllMapped(view, r, 0, n)
  {
  }

  lemma UnsizedEmpty(a: St, b: St, r: nat, n: nat)
    requires Ok(b) && Settled(a.t.own) && NoneBeyond(a.t.view, r, n) && Removed(a, b, r, 0, n, true)
    ensures (forall p | p in b.t.view :: p.root != r) && Settled(b.t.own) && Local(a.t, b.t, a.data, b.data, r)
  {
    forall p: Spot | p in b.t.view ensures p.root != r { assert p in a.t.view && !InRange(p, r, 0, n); }
    forall f | f in b.t.own ensures !b.t.own[f].Held? { assert f in a.t.own; }
  }

  lemma CutLocal(a: St, b: St, r: nat)
    requires Ok(a) && Cut(a, b, UnderSet(a, Key(r, TOP, 0)))
    ensures Local(a.t, b.t, a.data, b.data, r)
  {
    forall f | f in a.t.own && !Mine(a.t.own[f], r)
      ensures b.t.own[f] == a.t.own[f] && b.data[f] == a.data[f]
    {
      assert f in b.t.own;
    }
  }

  /** PGROUNDUP(sz) / PGSIZE */
  function PageCount(sz: nat): nat { (sz + PGSIZE - 1) / PGSIZE }

  /** The pages that `hi` bytes need beyond those of `lo` bytes. */
  function PagesBetween(lo: nat, hi: nat): nat { if hi <= lo then 0 else PageCount(hi) - PageCount(lo) }

  /** How many pages `size` bytes at va reach into. */
  function Pages(va: nat, size: nat): nat requires size > 0 { (va + size - 1) / PGSIZE - va / PGSIZE + 1 }
}
