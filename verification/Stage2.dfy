/** The stage-2 tables of src/mmu.c, four levels deep, and the loops of src/vm.c that map a
    guest's memory. Frames and pages are numbered by address / PAGE_SIZE. */
module Stage2 {
  import opened PageTree
  import opened TableCount

  const PAGE_SIZE: nat := 4096
  const IPA_TOP: nat := 0x1_0000_0000_0000   // 48 bits
  const IPA_PAGES: nat := 0x10_0000_0000

  /** PIDX(level, va) */
  function Pidx(level: nat, va: nat): nat {
    var size :=
      if level == 0 then 0x80_0000_0000 else if level == 1 then 0x4000_0000 else if level == 2 then 0x20_0000
      else 0x1000;
    va / size % ENTRIES
  }

  lemma PidxMeans(level: nat, va: nat)
    requires level <= 3
    ensures Pidx(level, va) == Prefix(level + 1, va / PAGE_SIZE) % ENTRIES
  {
    var v := va / PAGE_SIZE;
    assert Prefix(4, v) == v && Prefix(3, v) == v / ENTRIES && Prefix(2, v) == Prefix(3, v) / ENTRIES
      && Prefix(1, v) == Prefix(2, v) / ENTRIES;
    assert v / ENTRIES == va / 0x20_0000 && va / 0x20_0000 / ENTRIES == va / 0x4000_0000
      && va / 0x4000_0000 / ENTRIES == va / 0x80_0000_0000;
  }

  lemma IpaPrefix(v: nat)
    requires v < IPA_PAGES
    ensures Prefix(0, v) == 0
  {
    assert Prefix(3, v) == v / ENTRIES && Prefix(2, v) == Prefix(3, v) / ENTRIES
      && Prefix(1, v) == Prefix(2, v) / ENTRIES && Prefix(0, v) == Prefix(1, v) / ENTRIES;
  }

  // ---- the state, on values

  /** The free pages are those the allocator has. */
  ghost predicate Pooled(pool: set<nat>, own: map<nat, Use>) {
    forall f {:trigger f in pool} :: f in pool <==> f in own && own[f].Free?
  }

  ghost predicate Ok(pool: set<nat>, t: Tree) { Good(0, t) && Pooled(pool, t.own) }

  lemma TakeOk(pool: set<nat>, t: Tree, f: nat)
    requires Ok(pool, t) && f in pool
    ensures f in t.own && t.own[f].Free? && Ok(pool - {f}, Took(t, f))
  {
    HandedGood(0, t, NOWHERE, f, Held);
  }

  lemma SproutOk(pool: set<nat>, t: Tree, k: Key, i: nat, g: nat)
    requires Ok(pool, t) && g in pool && k in t.node && k.level < LAST && i < ENTRIES && Child(k, i) !in t.node
    ensures t.node[k] in t.tab && |t.tab[t.node[k]]| == ENTRIES && g != t.node[k]
    ensures Ok(pool - {g}, Sprouted(t, k, i, g))
  {
    TakeOk(pool, t, g);
    LinkedGood(0, Took(t, g), k, i, g);
  }

  lemma HookOk(pool: set<nat>, t: Tree, p: Spot, g: nat, attr: nat)
    requires Ok(pool, t) && TableOf(p) in t.node && p !in t.view && g in t.own && t.own[g] == Held
    ensures t.node[TableOf(p)] in t.tab && |t.tab[t.node[TableOf(p)]]| == ENTRIES
    ensures Ok(pool, Mapped(t, p, g, attr)) && Advance(t, Mapped(t, p, g, attr), p.root, g, g + 1)
  {
    MappedGood(0, t, p, g, attr);
    MapAdvance(t, p, g, attr);
  }

  /** The state of pagemap after k pages. */
  ghost predicate MapsTo(a: Tree, pool: set<nat>, b: Tree, root: nat, first: nat, g: nat, k: nat, attr: nat) {
    && Ok(pool, b) && Advance(a, b, root, g, g + k) && Ranged(a.view, b.view, root, first, g, k, attr)
        && Key(root, 0, 0) in b.node
    && RangeAdded(a.node, b.node, root, first, k, 0)
  }

  lemma MapsNone(pool: set<nat>, a: Tree, root: nat, first: nat, g: nat, attr: nat)
    requires Ok(pool, a) && Key(root, 0, 0) in a.node
    ensures MapsTo(a, pool, a, root, first, g, 0, attr)
  {
  }

  /** After the walk for one page more, from b to w, all but that page is mapped. */
  lemma MapsWalked(a: Tree, pool: set<nat>, b: Tree, w: Tree, root: nat, first: nat, g: nat, k: nat, attr: nat,
      v: nat, f: nat, next: nat)
    requires MapsTo(a, pool, b, root, first, g, k, attr) && v == first + k && f == g + k && next == k + 1
    requires Advance(b, w, root, f, f) && PathAdded(b.node, w.node, root, v, 0, LAST) && f in a.own && a.own[f] == Held
    ensures Advance(a, w, root, g, f) && RangeAdded(a.node, w.node, root, first, next, 0) && Key(root, 0, 0) in w.node
    ensures f in w.own && w.own[f] == Held
  {
    assert f in b.own && b.own[f] == a.own[f] && f in w.own && w.own[f] == b.own[f];
    AdvanceTwice(a, b, w, root, g, f, f);
    RangeMore(a.node, b.node, w.node, root, first, k, v, next, 0);
    assert Key(root, 0, 0) in w.node;
  }

  /** One page more: b is the state before, w after the walk, c with the page. */
  lemma MapsMore(a: Tree, pool: set<nat>, b: Tree, pool': set<nat>, w: Tree, c: Tree, root: nat, first: nat, g: nat,
      k: nat, attr: nat, v: nat, f: nat, next: nat)
    requires MapsTo(a, pool, b, root, first, g, k, attr) && v == first + k && f == g + k && next == k + 1
    requires Ok(pool', w) && Advance(b, w, root, f, f) && w.view == b.view && TableOf(Spot(root, v)) in w.node
    requires PathAdded(b.node, w.node, root, v, 0, LAST)
    requires Spot(root, v) !in a.view && f in a.own && a.own[f] == Held
    requires w.node[TableOf(Spot(root, v))] in w.tab && |w.tab[w.node[TableOf(Spot(root, v))]]| == ENTRIES
    requires c == Mapped(w, Spot(root, v), f, attr)
    ensures MapsTo(a, pool', c, root, first, g, next, attr)
  {
    MapsWalked(a, pool, b, w, root, first, g, k, attr, v, f, next);
    MapsHooked(a, pool', w, c, root, first, g, k, attr, v, f, next);
  }

  lemma MapsHooked(a: Tree, pool: set<nat>, w: Tree, c: Tree, root: nat, first: nat, g: nat, k: nat, attr: nat,
      v: nat, f: nat, next: nat)
    requires Ranged(a.view, w.view, root, first, g, k, attr) && v == first + k && f == g + k && next == k + 1
    requires Advance(a, w, root, g, f) && RangeAdded(a.node, w.node, root, first, next, 0) && Key(root, 0, 0) in w.node
    requires Ok(pool, w) && TableOf(Spot(root, v)) in w.node && Spot(root, v) !in a.view && f in w.own
      && w.own[f] == Held
    requires w.node[TableOf(Spot(root, v))] in w.tab && |w.tab[w.node[TableOf(Spot(root, v))]]| == ENTRIES
    requires c == Mapped(w, Spot(root, v), f, attr)
    ensures MapsTo(a, pool, c, root, first, g, next, attr)
  {
    RangedMore(a.view, w.view, root, first, g, k, attr, v, f);
    HookOk(pool, w, Spot(root, v), f, attr);
    AdvanceTwice(a, w, c, root, g, f, f + 1);
    assert c.node == w.node && f + 1 == g + next;
  }

  /** The state of a walk at a level: p pages were free, q are. */
  ghost predicate Walking(s: Tree, p: nat, t: Tree, q: nat, root: nat, v: nat, x: nat, level: nat) {
    && t.view == s.view && Advance(s, t, root, x, x) && PathKey(root, v, level) in t.node
    && PathAdded(s.node, t.node, root, v, 0, level) && q + LackTo(s.node, root, v, 0, level) == p
  }

  lemma WalkingMore(s: Tree, p: nat, m: Tree, q: nat, t: Tree, q': nat, root: nat, v: nat, x: nat, level: nat,
      next: nat, k: Key)
    requires Walking(s, p, m, q, root, v, x, level) && level < LAST && next == level + 1 && k == PathKey(root, v, next)
    requires t.view == m.view && Advance(m, t, root, x, x) && OneAdded(m.node, t.node, k) && q' + Miss(m.node, k) == q
    ensures Walking(s, p, t, q', root, v, x, next)
  {
    AdvanceTwice(s, m, t, root, x, x, x);
    PathMore(s.node, m.node, t.node, root, v, 0, level, k);
    assert k in t.node;
  }

  /** Where a walk without pages left stops, the path lacks more than there were. */
  lemma WalkingStuck(s: Tree, p: nat, m: Tree, q: nat, root: nat, v: nat, x: nat, level: nat, next: nat, k: Key)
    requires Walking(s, p, m, q, root, v, x, level) && level < LAST && next == level + 1 && k == PathKey(root, v, next)
    requires k !in m.node && Closed(0, m.node, m.view)
    ensures TableOf(Spot(root, v)) !in m.node && (q == 0 ==> p < Lack(s.node, root, v, 0))
  {
    PathMore(s.node, m.node, m.node, root, v, 0, level, k);
    PathMissing(0, m, root, v, next);
    PathEnd(root, v);
  }

  class Tables {
    var pool: set<nat>                       // the free pages of the allocator, filled with zeros
    var tab: map<nat, seq<Pte>>
    ghost var t: Tree

    ghost predicate Valid()
      reads this
    {
      t.tab == tab && Ok(pool, t)
    }

    constructor (pages: set<nat>)
      ensures Valid() && pool == pages && t.node == map[] && t.view == map[] && t.own.Keys == pages
    {
      pool, tab := pages, map[];
      t := Tree(map[], map[], map[], map f | f in pages :: Free(0));
    }

    /** alloc_page. The callers do not notice that it failed, and the model stops there. */
    method AllocPage() returns (f: nat, ok: bool)
      requires Valid()
      modifies this`pool, this`t
      ensures Valid() && (ok <==> old(pool) != {}) && t.tab == tab
      ensures ok ==> f in old(pool) && pool == old(pool) - {f} && t == Took(old(t), f)
      ensures ok ==> f in t.own && t.own[f] == Held && old(t.own)[f].Free?
      ensures !ok ==> pool == old(pool) && t == old(t)
    {
      if pool == {} { return 0, false; }
      f :| f in pool;
      ok := true;
      TakeOk(pool, t, f);
      pool := pool - {f};
      t := Took(t, f);
    }

    method LinkTable(pt: nat, i: nat, g: nat, ghost k: Key)
      requires t.tab == tab && k in t.node && pt == t.node[k] && pt in tab && |tab[pt]| == ENTRIES && i < ENTRIES
        && g != pt
      modifies this`tab, this`t
      ensures t.tab == tab && t == Linked(old(t), k, i, g)
    {
      tab := tab[g := Blank()];
      tab := tab[pt := tab[pt][i := Table(g)]];
      t := Linked(t, k, i, g);
    }

    /** One step of pagewalk, from the table at a level to the next one on the path of va. */
    method NextTable(root: nat, va: nat, level: nat, pt: nat, needAlloc: bool, ghost x: nat, ghost k: Key)
        returns (next: nat, r: Walk)
      requires Valid() && level < 3 && PathKey(root, va / PAGE_SIZE, level) in t.node
        && pt == t.node[PathKey(root, va / PAGE_SIZE, level)] && k == PathKey(root, va / PAGE_SIZE, level + 1)
      modifies this`pool, this`tab, this`t
      ensures Valid() && t.view == old(t).view && Advance(old(t), t, root, x, x)
      ensures r.Found? ==> k in t.node && next == t.node[k] && OneAdded(old(t).node, t.node, k)
      ensures r.Found? ==> |pool| + Miss(old(t).node, k) == old(|pool|)
      ensures !r.Found? ==> k !in t.node && t == old(t) && pool == old(pool)
      ensures (r.Short? ==> needAlloc && pool == {}) && (r.Missing? ==> !needAlloc)
      ensures !needAlloc ==> t == old(t) && pool == old(pool)
    {
      PidxMeans(level, va);
      PathStep(0, t, root, va / PAGE_SIZE, level);
      var pte := tab[pt][Pidx(level, va)];
      if pte.Table? { return pte.frame, Found; }
      if !needAlloc { return 0, Missing; }
      var ok;
      next, ok := GrowTable(pt, Pidx(level, va), PathKey(root, va / PAGE_SIZE, level), x);
      r := if ok then Found else Short;
    }

    method GrowTable(pt: nat, i: nat, ghost k: Key, ghost x: nat) returns (g: nat, ok: bool)
      requires Valid() && k in t.node && k.level < LAST && pt == t.node[k] && i < ENTRIES && Child(k, i) !in t.node
      modifies this`pool, this`tab, this`t
      ensures Valid() && t.view == old(t).view && Advance(old(t), t, k.root, x, x)
      ensures ok ==>
        Child(k, i) in t.node && g == t.node[Child(k, i)] && OneAdded(old(t).node, t.node, Child(k, i))
        && |pool| + 1 == old(|pool|)
      ensures !ok ==> t == old(t) && pool == old(pool) == {}
    {
      ghost var s, p := t, pool;
      g, ok := AllocPage();
      if !ok { return; }
      SproutOk(p, s, k, i, g);
      SproutAdvance(s, k, i, g, x);
      LinkTable(pt, i, g, k);
      assert t == Sprouted(s, k, i, g);
    }

    /** pagewalk: the table that holds the entry of va. With needAlloc it takes a page for each
        table on the path that is missing. */
    method Pagewalk(root: nat, va: nat, needAlloc: bool, ghost x: nat) returns (pt: nat, r: Walk)
      requires Valid() && va < IPA_TOP && Key(root, 0, 0) in t.node
      modifies this`pool, this`tab, this`t
      ensures Valid() && t.view == old(t).view && Advance(old(t), t, root, x, x)
      ensures r.Found? ==>
        TableOf(Spot(root, va / PAGE_SIZE)) in t.node && pt == t.node[TableOf(Spot(root, va / PAGE_SIZE))]
      ensures r.Found? ==>
        PathAdded(old(t).node, t.node, root, va / PAGE_SIZE, 0, LAST)
        && |pool| + Lack(old(t).node, root, va / PAGE_SIZE, 0) == old(|pool|)
      ensures r.Missing? <==> !needAlloc && TableOf(Spot(root, va / PAGE_SIZE)) !in old(t).node
      ensures r.Short? <==> needAlloc && old(|pool|) < Lack(old(t).node, root, va / PAGE_SIZE, 0)
      ensures !needAlloc ==> t == old(t) && pool == old(pool)
    {
      ghost var v, s := va / PAGE_SIZE, t;
      IpaPrefix(v);
      PathEnd(root, v);
      var level := 0;
      pt, r := root, Found;
      while level < 3
        invariant r.Found? && level <= 3 && Valid() && Walking(s, old(|pool|), t, |pool|, root, v, x, level)
        invariant pt == t.node[PathKey(root, v, level)] && (!needAlloc ==> t == s && pool == old(pool))
      {
        ghost var m, q := t, |pool|;
        var next := level + 1;
        ghost var k := PathKey(root, v, next);
        pt, r := NextTable(root, va, level, pt, needAlloc, x, k);
        if !r.Found? {
          WalkingStuck(s, old(|pool|), m, q, root, v, x, level, next, k);
          return;
        }
        WalkingMore(s, old(|pool|), m, q, t, |pool|, root, v, x, level, next, k);
        level := next;
      }
    }

    method SetLeaf(pt: nat, i: nat, g: nat, attr: nat, ghost p: Spot)
      requires t.tab == tab && TableOf(p) in t.node && pt == t.node[TableOf(p)] && pt in tab && |tab[pt]| == ENTRIES
        && i == p.vpn % ENTRIES
      modifies this`tab, this`t
      ensures t.tab == tab && t == Mapped(old(t), p, g, attr)
    {
      tab := tab[pt := tab[pt][i := Leaf(g, attr)]];
      t := Mapped(t, p, g, attr);
    }

    /** The entry of page v, with its table made if need be. Done says that it is empty. */
    method FindEntry(root: nat, v: nat, ghost x: nat) returns (pt: nat, i: nat, r: MapResult)
      requires Valid() && v < IPA_PAGES && Key(root, 0, 0) in t.node
      modifies this`pool, this`tab, this`t
      ensures Valid() && !r.Unaligned? && t.view == old(t).view && Advance(old(t), t, root, x, x)
      ensures r.NoPage? ==> old(|pool|) < Lack(old(t).node, root, v, 0)
      ensures !r.NoPage? ==> TableOf(Spot(root, v)) in t.node && pt == t.node[TableOf(Spot(root, v))]
      ensures !r.NoPage? ==> pt in t.tab && |t.tab[pt]| == ENTRIES && i == v % ENTRIES
      ensures !r.NoPage? ==>
        PathAdded(old(t).node, t.node, root, v, 0, LAST) && |pool| + Lack(old(t).node, root, v, 0) == old(|pool|)
      ensures !r.NoPage? ==> (r.Used? <==> Spot(root, v) in t.view)
    {
      var va := v * PAGE_SIZE;
      assert va / PAGE_SIZE == v;
      var w;
      pt, w := Pagewalk(root, va, true, x);
      if w.Short? { return 0, 0, NoPage; }
      PidxMeans(3, va);
      LeafEntry(0, t, Spot(root, v));
      i := Pidx(3, va);
      r := if tab[pt][i].Leaf? then Used else Done;
    }

    /** The body of the loop of pagemap: page v to frame f, the k-th of its range. */
    method MapPage(root: nat, v: nat, f: nat, attr: nat, ghost a: Tree, ghost first: nat, ghost g: nat, ghost k: nat,
        ghost next: nat)
      returns (r: MapResult)
      requires Valid() && v < IPA_PAGES && v == first + k && next == k + 1 && f == g + k && f in a.own
        && a.own[f] == Held
      requires MapsTo(a, pool, t, root, first, g, k, attr)
      modifies this`pool, this`tab, this`t
      ensures Valid() && (r.Used? ==> Spot(root, v) in a.view) && !r.Unaligned?
      ensures r.Done? ==> MapsTo(a, pool, t, root, first, g, next, attr) && Spot(root, v) !in a.view
      ensures r.Done? ==> |pool| + Lack(old(t).node, root, v, 0) == old(|pool|)
      ensures r.NoPage? ==> old(|pool|) < Lack(old(t).node, root, v, 0)
    {
      ghost var b, was := t, pool;
      RangedMore(a.view, b.view, root, first, g, k, attr, v, f);
      var pt, i;
      pt, i, r := FindEntry(root, v, f);
      if !r.Done? { return; }
      ghost var w := t;
      SetLeaf(pt, i, f, attr, Spot(root, v));
      MapsMore(a, was, b, pool, w, t, root, first, g, k, attr, v, f, next);
    }

    /** pagemap, on n pages. */
    method Pagemap(root: nat, va: nat, pa: nat, size: nat, attr: nat) returns (r: MapResult)
      requires Valid() && va + size <= IPA_TOP && Key(root, 0, 0) in t.node
      requires forall f | pa / PAGE_SIZE <= f < pa / PAGE_SIZE + size / PAGE_SIZE :: f in t.own && t.own[f] == Held
      modifies this`pool, this`tab, this`t
      ensures Valid()
      ensures r.Unaligned? <==> !Aligned(va, pa, size)
      ensures r.Done? <==>
        && Aligned(va, pa, size) && NoneMapped(old(t).view, root, va / PAGE_SIZE, size / PAGE_SIZE)
        && old(|pool|) >= RangeLack(old(t).node, root, va / PAGE_SIZE, size / PAGE_SIZE, 0)
      ensures r.Used? ==> !NoneMapped(old(t).view, root, va / PAGE_SIZE, size / PAGE_SIZE)
      ensures r.NoPage? ==> old(|pool|) < RangeLack(old(t).node, root, va / PAGE_SIZE, size / PAGE_SIZE, 0)
      ensures r.Done? ==> MapsTo(old(t), pool, t, root, va / PAGE_SIZE, pa / PAGE_SIZE, size / PAGE_SIZE, attr)
      ensures r.Done? ==> |pool| + RangeLack(old(t).node, root, va / PAGE_SIZE, size / PAGE_SIZE, 0) == old(|pool|)
    {
      if va % PAGE_SIZE != 0 || pa % PAGE_SIZE != 0 || size % PAGE_SIZE != 0 { return Unaligned; }
      r := MapLoop(root, va / PAGE_SIZE, pa / PAGE_SIZE, size / PAGE_SIZE, attr);
    }

    method MapLoop(root: nat, first: nat, g: nat, n: nat, attr: nat) returns (r: MapResult)
      requires Valid() && first + n <= IPA_PAGES && Key(root, 0, 0) in t.node
      requires forall f | g <= f < g + n :: f in t.own && t.own[f] == Held
      modifies this`pool, this`tab, this`t
      ensures Valid() && !r.Unaligned?
      ensures r.Done? <==>
        NoneMapped(old(t).view, root, first, n) && old(|pool|) >= RangeLack(old(t).node, root, first, n, 0)
      ensures r.Used? ==> !NoneMapped(old(t).view, root, first, n)
      ensures r.NoPage? ==> old(|pool|) < RangeLack(old(t).node, root, first, n, 0)
      ensures r.Done? ==>
        MapsTo(old(t), pool, t, root, first, g, n, attr)
        && |pool| + RangeLack(old(t).node, root, first, n, 0) == old(|pool|)
    {
      var k := 0;
      ghost var a := t;
      MapsNone(pool, a, root, first, g, attr);
      while k < n
        invariant k <= n && Valid() && |pool| + RangeLack(a.node, root, first, k, 0) == old(|pool|)
          && MapsTo(a, pool, t, root, first, g, k, attr)
        invariant NoneMapped(a.view, root, first, k)
      {
        var v, f, next := first + k, g + k, k + 1;
        LackStep(a.node, t.node, root, first, k, v, next, 0);
        RangeLackGrows(a.node, root, first, next, n, 0);
        NoneMore(a.view, root, first, k, n, v, next);
        r := MapPage(root, v, f, attr, a, first, g, k, next);
        if !r.Done? { return; }
        k := next;
      }
      r := Done;
    }

    /** ipa2pa: where the page is, or what is left of the address if there is no such page. */
    method Ipa2pa(root: nat, ipa: nat) returns (pa: nat)
      requires Valid() && ipa < IPA_TOP && Key(root, 0, 0) in t.node
      modifies this`pool, this`tab, this`t
      ensures Valid() && t == old(t) && pool == old(pool)
      ensures pa == Translate(t, root, ipa)
    {
      var pt, r := Pagewalk(root, ipa, false, 0);
      if !r.Found? { return 0; }
      PidxMeans(3, ipa);
      LeafEntry(0, t, Spot(root, ipa / PAGE_SIZE));
      var pte := tab[pt][Pidx(3, ipa)];
      var base := if pte.Leaf? then pte.frame * PAGE_SIZE else 0;
      return base + ipa % PAGE_SIZE;
    }

    /** Allocate a page and map it, as the loops of create_vm do. */
    method AddRam(root: nat, v: nat) returns (ok: bool)
      requires Valid() && v < IPA_PAGES && Key(root, 0, 0) in t.node && Spot(root, v) !in t.view
      modifies this`pool, this`tab, this`t
      ensures ok ==> Valid() && Key(root, 0, 0) in t.node
      ensures ok <==> old(|pool|) >= 1 + Lack(old(t).node, root, v, 0)
      ensures ok ==> Gained(old(t), t, Spot(root, v), S2_RW) && PathAdded(old(t).node, t.node, root, v, 0, LAST)
      ensures ok ==> |pool| + 1 + Lack(old(t).node, root, v, 0) == old(|pool|)
    {
      ghost var s := t;
      var page;
      page, ok := AllocPage();
      if !ok { return; }
      ghost var m := t;
      var va, pa := v * PAGE_SIZE, page * PAGE_SIZE;
      assert va / PAGE_SIZE == v && pa / PAGE_SIZE == page && PAGE_SIZE / PAGE_SIZE == 1 && Aligned(va, pa, PAGE_SIZE);
      OnePage(m.node, root, v, 0);
      OneUnmapped(m.view, root, v);
      var r := Pagemap(root, va, pa, PAGE_SIZE, S2_RW);
      ok := r.Done?;
      if ok { GainedOne(s, m, pool, t, root, v, page); }
    }

    /** A loop of create_vm: map pages from the i-th on until `limit` bytes are mapped. */
    method MapRam(root: nat, e: nat, i0: nat, limit: nat, ghost s: Tree, ghost s1: Tree, ghost p: nat)
        returns (i: nat, ok: bool)
      requires Valid() && e + Later(i0, limit) <= IPA_PAGES && RamState(s, s1, p, t, |pool|, root, e, i0)
      modifies this`pool, this`tab, this`t
      ensures ok ==> Valid() && i == Later(i0, limit) && RamState(s, s1, p, t, |pool|, root, e, i)
      ensures !ok ==> p < RamNeeds(s1, root, e, Later(i0, limit))
    {
      i, ok := i0, true;
      ghost var n := Later(i0, limit);
      while i * PAGE_SIZE < limit
        invariant ok && i0 <= i <= n && Valid() && RamState(s, s1, p, t, |pool|, root, e, i)
        decreases limit - i * PAGE_SIZE
      {
        LaterMore(i0, i, limit);
        var next := i + 1;
        ok := RamTurn(root, e, i, next, s, s1, p, n);
        if !ok { return; }
        i := next;
      }
      LaterDone(i0, i, limit);
    }

    /** One turn of such a loop, of n in all. */
    method RamTurn(root: nat, e: nat, i: nat, ghost next: nat, ghost s: Tree, ghost s1: Tree, ghost p: nat,
        ghost n: nat)
        returns (ok: bool)
      requires Valid() && i < n && e + n <= IPA_PAGES && next == i + 1 && RamState(s, s1, p, t, |pool|, root, e, i)
      modifies this`pool, this`tab, this`t
      ensures ok ==> Valid() && RamState(s, s1, p, t, |pool|, root, e, next)
      ensures !ok ==> p < RamNeeds(s1, root, e, n)
    {
      ghost var m, q := t, |pool|;
      var v := e + i;
      NotYet(s, m, root, e, i, v);
      ok := AddRam(root, v);
      RamStep(s, s1, p, m, q, t, |pool|, root, e, i, v, next, n, ok);
    }

    /** The root table of a new tree. */
    method Plant(ghost e: nat) returns (root: nat, ok: bool)
      requires Valid()
      modifies this`pool, this`tab, this`t
      ensures ok <==> old(|pool|) > 0
      ensures ok ==> Valid() && root in old(pool) && |pool| + 1 == old(|pool|) && RootOnly(t, root)
      ensures ok ==> RamState(old(t), t, |pool|, t, |pool|, root, e, 0)
    {
      ghost var s := t;
      root, ok := AllocPage();
      if !ok { return; }
      PlantOk(pool, t, root);
      NewRoot(s, root);
      tab := tab[root := Blank()];
      t := Rooted(0, t, root);
      RamNone(s, t, root, e);
    }

    /** The memory part of create_vm: a root table, then the image, the rest of the guest's file
        size, and the rest of its RAM. It succeeds exactly if there is a page for each of them
        and for each table. */
    method CreateVm(entry: nat, filesz: nat, memsz: nat, ramsz: nat) returns (root: nat, ok: bool)
      requires Valid() && entry % PAGE_SIZE == 0 && entry / PAGE_SIZE + RamPages(filesz, memsz, ramsz) <= IPA_PAGES
      modifies this`pool, this`tab, this`t
      ensures ok <==> old(|pool|) >= PagesNeeded(entry / PAGE_SIZE, RamPages(filesz, memsz, ramsz))
      ensures ok ==>
        Valid() && root in old(pool) && RamMapped(old(t), t, root, entry / PAGE_SIZE, RamPages(filesz, memsz, ramsz))
      ensures ok ==> |pool| + PagesNeeded(entry / PAGE_SIZE, RamPages(filesz, memsz, ramsz)) == old(|pool|)
    {
      ghost var s, n := t, RamPages(filesz, memsz, ramsz);
      var e := entry / PAGE_SIZE;
      NeededPositive(e, n);
      root, ok := Plant(e);
      if !ok { return; }
      NeededMeans(t, root, e, filesz, memsz, ramsz);
      ok := MapAll(root, e, filesz, memsz, ramsz, s, t, |pool|);
    }

    /** The three loops of create_vm. */
    method MapAll(root: nat, e: nat, filesz: nat, memsz: nat, ramsz: nat, ghost s: Tree, ghost s1: Tree, ghost p: nat)
        returns (ok: bool)
      requires Valid() && e + RamPages(filesz, memsz, ramsz) <= IPA_PAGES && RamState(s, s1, p, t, |pool|, root, e, 0)
      requires RamNeeds(s1, root, e, Later(0, filesz)) <= RamNeeds(s1, root, e, RamPages(filesz, memsz, ramsz))
      requires RamNeeds(s1, root, e, Later(Later(0, filesz), memsz)) <= RamNeeds(s1, root, e,
        RamPages(filesz, memsz, ramsz))
      modifies this`pool, this`tab, this`t
      ensures ok ==> Valid() && RamState(s, s1, p, t, |pool|, root, e, RamPages(filesz, memsz, ramsz))
      ensures !ok ==> p < RamNeeds(s1, root, e, RamPages(filesz, memsz, ramsz))
    {
      LaterGrows(filesz, memsz, ramsz);
      var i;
      i, ok := MapRam(root, e, 0, filesz, s, s1, p);
      if !ok { return; }
      i, ok := MapRam(root, e, i, memsz, s, s1, p);
      if !ok { return; }
      i, ok := MapRam(root, e, i, ramsz, s, s1, p);
    }
  }

  /** Short: there was no page left for a table. */
  datatype Walk = Found | Missing | Short

  /** Unaligned and Used are pagemap's panics; NoPage says that there was none left for a table. */
  datatype MapResult = Done | Unaligned | Used | NoPage

  const S2_RW: nat := 0xc4                   // S2PTE_NORMAL | S2PTE_RW

  /** Where a loop that starts at page i stops, and where the three loops stop. */
  function Later(i: nat, limit: nat): nat { if i * PAGE_SIZE < limit then (limit + PAGE_SIZE - 1) / PAGE_SIZE else i }
  function RamPages(filesz: nat, memsz: nat, ramsz: nat): nat { Later(Later(Later(0, filesz), memsz), ramsz) }

  lemma LaterGrows(filesz: nat, memsz: nat, ramsz: nat)
    ensures Later(0, filesz) <= Later(Later(0, filesz), memsz) <= RamPages(filesz, memsz, ramsz)
  {
  }

  lemma LaterMore(i0: nat, i: nat, limit: nat)
    requires i0 <= i && i * PAGE_SIZE < limit
    ensures i < Later(i0, limit)
  {
  }

  lemma LaterDone(i0: nat, i: nat, limit: nat)
    requires i0 <= i <= Later(i0, limit) && i * PAGE_SIZE >= limit
    ensures i == Later(i0, limit)
  {
  }

  /** The pages create_vm takes for n pages of RAM from page e on. */
  function PagesNeeded(e: nat, n: nat): int { 1 + n + TablesFor(e, n, 0) }

  /** The machine the repository is built for: 65536 pages of memory, and a guest at 1 GB with 128
      MB of RAM that holds its image. create_vm needs about half of them. */
  lemma RealSizes(filesz: nat, memsz: nat)
    requires filesz <= 0x800_0000 && memsz <= 0x800_0000
    ensures RamPages(filesz, memsz, 0x800_0000) == 32768
    ensures PagesNeeded(0x4000_0000 / PAGE_SIZE, 32768) == 32835 <= 65536
  {
    var e, v := 0x4_0000, 0x4_7fff;
    assert Prefix(3, e) == 512 && Prefix(2, e) == 1 && Prefix(1, e) == 0;
    assert Prefix(3, v) == 575 && Prefix(2, v) == 1 && Prefix(1, v) == 0;
    assert TablesTo(e, v, 0, 1) == 1 && TablesTo(e, v, 0, 2) == 2 && TablesTo(e, v, 0, 3) == 66;
  }

  /** The pages that n pages of RAM and their tables take in tree s1. */
  ghost function RamNeeds(s1: Tree, root: nat, e: nat, n: nat): nat { n + RangeLack(s1.node, root, e, n, 0) }

  lemma RamNeedsGrows(s1: Tree, root: nat, e: nat, k: nat, n: nat)
    requires k <= n
    ensures RamNeeds(s1, root, e, k) <= RamNeeds(s1, root, e, n)
  {
    RangeLackGrows(s1.node, root, e, k, n, 0);
  }

  /** Tree `root` has no table but its root. */
  ghost predicate RootOnly(t: Tree, root: nat) { forall k: Key | k in t.node && k.root == root :: k.level <= 0 }

  lemma NeededMeans(s1: Tree, root: nat, e: nat, filesz: nat, memsz: nat, ramsz: nat)
    requires RootOnly(s1, root)
    ensures var n := RamPages(filesz, memsz, ramsz);
      && PagesNeeded(e, n) == 1 + RamNeeds(s1, root, e, n)
      && RamNeeds(s1, root, e, Later(0, filesz)) <= RamNeeds(s1, root, e, n)
      && RamNeeds(s1, root, e, Later(Later(0, filesz), memsz)) <= RamNeeds(s1, root, e, n)
  {
    var n := RamPages(filesz, memsz, ramsz);
    NewTreeLacks(s1.node, root, e, n, 0);
    LaterGrows(filesz, memsz, ramsz);
    RamNeedsGrows(s1, root, e, Later(0, filesz), n);
    RamNeedsGrows(s1, root, e, Later(Later(0, filesz), memsz), n);
  }

  lemma NeededPositive(e: nat, n: nat)
    ensures PagesNeeded(e, n) > 0
  {
    NewTreeLacks(map[], 0, e, n, 0);
  }

  /** After i pages of RAM, q of p free pages are left; s was before the root, s1 with it. */
  ghost predicate RamState(s: Tree, s1: Tree, p: nat, t: Tree, q: nat, root: nat, e: nat, i: nat) {
    && RamMapped(s, t, root, e, i) && NoPages(s.view, root) && Key(root, 0, 0) in t.node
    && RangeAdded(s1.node, t.node, root, e, i, 0) && q + RamNeeds(s1, root, e, i) == p
  }

  lemma RamStep(s: Tree, s1: Tree, p: nat, m: Tree, q: nat, t: Tree, q': nat, root: nat, e: nat, i: nat, v: nat,
      next: nat, n: nat, ok: bool)
    requires RamState(s, s1, p, m, q, root, e, i) && v == e + i && next == i + 1 <= n
    requires ok <==> q >= 1 + Lack(m.node, root, v, 0)
    requires ok ==> Gained(m, t, Spot(root, v), S2_RW) && PathAdded(m.node, t.node, root, v, 0, LAST)
    requires ok ==> q' + 1 + Lack(m.node, root, v, 0) == q
    ensures if ok then RamState(s, s1, p, t, q', root, e, next) else p < RamNeeds(s1, root, e, n)
  {
    LackStep(s1.node, m.node, root, e, i, v, next, 0);
    RamNeedsGrows(s1, root, e, next, n);
    if ok {
      RamMore(s, m, t, root, e, i, v);
      RangeMore(s1.node, m.node, t.node, root, e, i, v, next, 0);
      assert Key(root, 0, 0) in t.node;
    }
  }

  lemma OneUnmapped(view: map<Spot, Mapping>, root: nat, v: nat)
    ensures NoneMapped(view, root, v, 1) <==> Spot(root, v) !in view
  {
    assert Has(view, root, v) <==> Spot(root, v) in view;
  }

  /** Page p, not mapped before, is mapped to a frame that was free; no other page changes. */
  ghost predicate Gained(a: Tree, b: Tree, p: Spot, attr: nat) {
    && p in b.view && b.view == a.view[p := b.view[p]] && b.view[p].flags == attr
    && b.view[p].frame in a.own && a.own[b.view[p].frame].Free? && FreeBefore(a, b)
  }

  /** What is free in b was free in a. */
  ghost predicate FreeBefore(a: Tree, b: Tree) {
    forall f {:trigger b.own[f]} | f in b.own && b.own[f].Free? :: f in a.own && a.own[f].Free?
  }

  lemma GainedOne(s: Tree, m: Tree, pool: set<nat>, t: Tree, root: nat, v: nat, page: nat)
    requires page in s.own && s.own[page].Free? && m == Took(s, page)
    requires MapsTo(m, pool, t, root, v, page, 1, S2_RW) && Spot(root, v) !in s.view
    ensures Gained(s, t, Spot(root, v), S2_RW) && PathAdded(s.node, t.node, root, v, 0, LAST)
  {
    OnePath(m.node, t.node, root, v, 0);
    OneSpot(s.view, t.view, root, v, page, S2_RW);
    forall f | f in t.own && t.own[f].Free? ensures f in s.own && s.own[f].Free? { assert f in m.own; }
  }

  lemma OneSpot(view: map<Spot, Mapping>, w: map<Spot, Mapping>, root: nat, v: nat, g: nat, attr: nat)
    requires Ranged(view, w, root, v, g, 1, attr)
    ensures var p := Spot(root, v); p in w && w[p] == Mapping(g, attr) && w == view[p := w[p]]
  {
    assert Spot(root, v) in w;
  }

  /** Tree `root` maps the n pages from e on to frames that were free, and no other page changed. */
  ghost predicate RamMapped(a: Tree, b: Tree, root: nat, e: nat, n: nat) {
    && FreeBefore(a, b)
    && forall p: Spot {:trigger p in b.view} ::
         if p.root == root && e <= p.vpn < e + n then p in b.view && b.view[p].frame in a.own
           && a.own[b.view[p].frame].Free?
         else (p in b.view <==> p in a.view) && (p in a.view ==> b.view[p] == a.view[p])
  }

  lemma RamMore(a: Tree, b: Tree, c: Tree, root: nat, e: nat, i: nat, v: nat)
    requires RamMapped(a, b, root, e, i) && v == e + i && Gained(b, c, Spot(root, v), S2_RW)
    ensures RamMapped(a, c, root, e, i + 1)
  {
    var q := Spot(root, v);
    assert a.own[c.view[q].frame].Free? by { assert b.own[c.view[q].frame].Free?; }
    forall f | f in c.own && c.own[f].Free?
      ensures f in a.own && a.own[f].Free?
    {
      assert f in b.own && b.own[f].Free?;
    }
    forall p: Spot
      ensures if p.root == root && e <= p.vpn < e + (i + 1) then p in c.view && c.view[p].frame in a.own
        && a.own[c.view[p].frame].Free?
        else (p in c.view <==> p in a.view) && (p in a.view ==> c.view[p] == a.view[p])
    {
      assert p in b.view || p !in b.view;
    }
  }

  ghost predicate NoPages(view: map<Spot, Mapping>, root: nat) {
    forall p {:trigger p in view} | p in view :: p.root != root
  }

  lemma NotYet(a: Tree, b: Tree, root: nat, e: nat, i: nat, v: nat)
    requires RamMapped(a, b, root, e, i) && NoPages(a.view, root) && v == e + i
    ensures Spot(root, v) !in b.view
  {
    assert Spot(root, v) in b.view <==> Spot(root, v) in a.view;
  }

  lemma RamNone(s: Tree, t: Tree, root: nat, e: nat)
    requires root in s.own && s.own[root].Free? && t.view == s.view && t.own == s.own[root := Node(Key(root, 0, 0))]
    ensures RamMapped(s, t, root, e, 0)
  {
  }

  lemma {:induction false} RootIn(node: map<Key, nat>, view: map<Spot, Mapping>, k: Key)
    requires Closed(0, node, view) && k in node
    ensures Key(k.root, 0, 0) in node
    decreases k.level
  {
    if k.level > 0 {
      assert Parent(k) in node;
      RootIn(node, view, Parent(k));
    }
  }

  lemma NewRoot(t: Tree, r: nat)
    requires Good(0, t) && r in t.own && !t.own[r].Node?
    ensures (forall k | k in t.node :: k.root != r) && NoPages(t.view, r)
  {
    forall k | k in t.node ensures k.root != r {
      RootIn(t.node, t.view, k);
      assert t.own[t.node[Key(k.root, 0, 0)]] == Node(Key(k.root, 0, 0));
    }
    forall p | p in t.view ensures p.root != r { assert TableOf(p) in t.node; }
  }

  lemma PlantOk(pool: set<nat>, t: Tree, r: nat)
    requires Ok(pool, t) && r in t.own && t.own[r] == Held
    ensures Ok(pool, Rooted(0, t, r))
  {
    NewRoot(t, r);
    RootedGood(0, t, r);
  }

  // ---- what the guest sees

  /** Every address of the guest's RAM has a page behind it; the offset is kept; the page is not
      a table; and two addresses never share a byte. */
  lemma RamTranslation(a: Tree, pool: set<nat>, t: Tree, root: nat, e: nat, n: nat, ipa: nat, ipa': nat)
    requires Ok(pool, t) && RamMapped(a, t, root, e, n)
    requires e <= ipa / PAGE_SIZE < e + n && e <= ipa' / PAGE_SIZE < e + n
    ensures Translate(t, root, ipa) % PAGE_SIZE == ipa % PAGE_SIZE
    ensures forall k | k in t.node :: t.node[k] != Translate(t, root, ipa) / PAGE_SIZE
    ensures Translate(t, root, ipa) == Translate(t, root, ipa') ==> ipa == ipa'
  {
    var p, q := Spot(root, ipa / PAGE_SIZE), Spot(root, ipa' / PAGE_SIZE);
    assert p in t.view && q in t.view;
    var f, g := t.view[p].frame, t.view[q].frame;
    assert t.own[f] == Page(p) && t.own[g] == Page(q);
    FrameOf(f, ipa % PAGE_SIZE);
    FrameOf(g, ipa' % PAGE_SIZE);
    forall k | k in t.node ensures t.node[k] != f { assert t.own[t.node[k]] == Node(k); }
  }

  lemma FrameOf(f: nat, off: nat)
    requires off < PAGE_SIZE
    ensures (f * PAGE_SIZE + off) / PAGE_SIZE == f && (f * PAGE_SIZE + off) % PAGE_SIZE == off
  {
  }

  /** The last-level tables a range needs. */
  predicate InTables(x: Key, root: nat, first: nat, n: nat) {
    x.root == root && n > 0 && first / ENTRIES <= x.prefix <= (first + n - 1) / ENTRIES
  }

  lemma LastTables(root: nat, first: nat, n: nat, x: Key)
    requires x.level == LAST
    ensures Needed(x, root, first, n, 0) <==> InTables(x, root, first, n)
  {
    if n > 0 { assert Prefix(3, first) == first / ENTRIES && Prefix(3, first + n - 1) == (first + n - 1) / ENTRIES; }
  }

  /** pagemap keeps what an address outside its range translates to exactly if the address has a
      page or a table already, or is away from the tables of the range, or is a page boundary: a
      new table makes the others in it translate to their offset instead of 0. */
  lemma OthersKeptIff(a: Tree, pool: set<nat>, b: Tree, root: nat, first: nat, g: nat, n: nat, attr: nat, r: nat,
      ipa: nat)
    requires Good(0, a) && MapsTo(a, pool, b, root, first, g, n, attr)
      && !(r == root && first <= ipa / PAGE_SIZE < first + n)
    ensures Translate(b, r, ipa) == Translate(a, r, ipa) <==>
      TableOf(Spot(r, ipa / PAGE_SIZE)) in a.node || !InTables(TableOf(Spot(r, ipa / PAGE_SIZE)), root, first, n)
        || ipa % PAGE_SIZE == 0
  {
    var p := Spot(r, ipa / PAGE_SIZE);
    var x := TableOf(p);
    assert (p in b.view <==> p in a.view) && (p in a.view ==> x in a.node);
    LastTables(root, first, n, x);
    assert x in b.node <==> x in a.node || InTables(x, root, first, n);
    TranslateKept(a, b, r, ipa, p, x);
  }

  /** An address whose page is as before changes its translation exactly with a new table. */
  lemma TranslateKept(a: Tree, b: Tree, r: nat, ipa: nat, p: Spot, x: Key)
    requires p == Spot(r, ipa / PAGE_SIZE) && x == TableOf(p)
    requires (p in b.view <==> p in a.view) && (p in a.view ==> b.view[p] == a.view[p] && x in a.node && x in b.node)
    ensures Translate(b, r, ipa) == Translate(a, r, ipa) <==> (x in a.node <==> x in b.node) || ipa % PAGE_SIZE == 0
  {
  }

  /** A tree whose only table is its root, in frame 0; frames 1, 2 and 3 are free, 5 is at hand. */
  ghost function Bare(): Tree {
    Rooted(0, Tree(map[], map[], map[], map[0 := Held, 1 := Free(0), 2 := Free(0), 3 := Free(0), 5 := Held]), 0)
  }

  lemma BareOk()
    ensures Ok({1, 2, 3}, Bare())
  {
    RootedGood(0, Tree(map[], map[], map[], map[0 := Held, 1 := Free(0), 2 := Free(0), 3 := Free(0), 5 := Held]), 0);
  }

  /** A walk of page 0 in that tree: tables in frames 1, 2 and 3. */
  lemma BareWalk() returns (w: Tree)
    ensures Ok({}, w) && w.view == map[] && w.node == map[Key(0, 0, 0) := 0, Key(0, 1, 0) := 1, Key(0, 2, 0) :=
      2, Key(0, 3, 0) := 3]
    ensures Advance(Bare(), w, 0, 5, 5)
  {
    BareOk();
    var a := Bare();
    var b := BareStep({1, 2, 3}, a, a, 0, 1, {2, 3});
    var c := BareStep({2, 3}, a, b, 1, 2, {3});
    w := BareStep({3}, a, c, 2, 3, {});
  }

  lemma BareStep(pool: set<nat>, a: Tree, b: Tree, level: nat, g: nat, pool': set<nat>) returns (c: Tree)
    requires Ok(pool, b) && g in pool && pool' == pool - {g} && level < LAST && Key(0, level, 0) in b.node
    requires Key(0, level + 1, 0) !in b.node && (a == b || Advance(a, b, 0, 5, 5))
    ensures Ok(pool', c) && c.view == b.view && c.node == b.node[Key(0, level + 1, 0) := g] && Advance(a, c, 0, 5, 5)
  {
    var k := Key(0, level, 0);
    assert Child(k, 0) == Key(0, level + 1, 0);
    SproutOk(pool, b, k, 0, g);
    SproutAdvance(b, k, 0, g, 5);
    c := Sprouted(b, k, 0, g);
    if a != b { AdvanceTwice(a, b, c, 0, 5, 5, 5); }
  }

  lemma {:induction false} PrefixZero(level: nat)
    ensures Prefix(level, 0) == 0
    decreases LAST + 1 - level
  {
    if level <= LAST { PrefixZero(level + 1); }
  }

  lemma BarePath(w: Tree)
    requires w.node == map[Key(0, 0, 0) := 0, Key(0, 1, 0) := 1, Key(0, 2, 0) := 2, Key(0, 3, 0) := 3]
    ensures PathAdded(Bare().node, w.node, 0, 0, 0, LAST)
  {
    forall x: Key ensures x in w.node <==> x in Bare().node || OnPath(x, 0, 0, 0, LAST) { PrefixZero(x.level); }
  }

  /** pagemap maps page 0 of it to frame 5. */
  lemma BareMapped() returns (b: Tree)
    ensures MapsTo(Bare(), {}, b, 0, 0, 5, 1, S2_RW) && Key(0, 3, 0) in b.node && Spot(0, 1) !in b.view
  {
    BareOk();
    var a := Bare();
    var w := BareWalk();
    MapsNone({1, 2, 3}, a, 0, 0, 5, S2_RW);
    BarePath(w);
    LeafEntry(0, w, Spot(0, 0));
    b := Mapped(w, Spot(0, 0), 5, S2_RW);
    MapsMore(a, {1, 2, 3}, a, {}, w, b, 0, 0, 5, 0, S2_RW, 0, 5, 1);
  }

  /** So what an unmapped address of page 1 translates to changes from 0 to 7. */
  lemma TranslationMoves()
    ensures exists b ::
      MapsTo(Bare(), {}, b, 0, 0, 5, 1, S2_RW) && Translate(Bare(), 0, 0x1007) == 0 && Translate(b, 0, 0x1007) == 7
  {
    var b := BareMapped();
    assert TableOf(Spot(0, 1)) == Key(0, 3, 0);
    assert Translate(b, 0, 0x1007) == 7;
  }

  /** And gives the addresses of its range the frames of its range. */
  lemma RangeTranslated(a: Tree, pool: set<nat>, b: Tree, root: nat, first: nat, g: nat, n: nat, attr: nat, ipa: nat)
    requires MapsTo(a, pool, b, root, first, g, n, attr) && first <= ipa / PAGE_SIZE < first + n
    ensures Translate(b, root, ipa) == (g + ipa / PAGE_SIZE - first) * PAGE_SIZE + ipa % PAGE_SIZE
  {
    assert Spot(root, ipa / PAGE_SIZE) in b.view;
  }

  predicate Aligned(va: nat, pa: nat, size: nat) { va % PAGE_SIZE == 0 && pa % PAGE_SIZE == 0 && size % PAGE_SIZE == 0 }

  lemma NoneMore(view: map<Spot, Mapping>, root: nat, first: nat, k: nat, n: nat, v: nat, next: nat)
    requires NoneMapped(view, root, first, k) && v == first + k && k < n && next == k + 1
    ensures Spot(root, v) !in view ==> NoneMapped(view, root, first, next)
    ensures Spot(root, v) in view ==> !NoneMapped(view, root, first, n)
  {
    assert Has(view, root, v) <==> Spot(root, v) in view;
  }

  /** What an address translates to. A page without an entry in an existing table comes out as
      the offset alone. */
  ghost function Translate(t: Tree, root: nat, ipa: nat): nat {
    var p := Spot(root, ipa / PAGE_SIZE);
    if p in t.view then t.view[p].frame * PAGE_SIZE + ipa % PAGE_SIZE
    else if TableOf(p) in t.node then ipa % PAGE_SIZE else 0
  }
}
