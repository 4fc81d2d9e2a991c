/** The steps of guest/xv6/kernel/vm.c and guest/xv6/kernel/kalloc.c on user address spaces, as
    functions of the state: the free list, the bytes of the frames and the page tables. Frames
    are numbered by physical address / PGSIZE, pages by virtual address / PGSIZE. */
module GuestPages {
  import opened PageTree
  import opened TableCount

  const PGSIZE: nat := 4096
  const TOP: nat := 1                        // three levels: 1, 2 and 3
  const USER_PAGES: nat := 0x800_0000        // 2^39 / PGSIZE: walk looks at no bit above

  type Bytes = map<nat, seq<nat>>

  /** `free` is kmem.freelist, its head last. */
  datatype St = St(free: seq<nat>, data: Bytes, t: Tree)

  ghost predicate Ok(s: St) { Good(TOP, s.t) && FreeList(s.free, s.t.own) && s.data.Keys == s.t.own.Keys }

  /** A page filled with one byte: 1 by kfree, 5 by kalloc. */
  function Filled(x: nat): seq<nat> { seq(PGSIZE, _ => x) }

  // ---- the pool

  ghost function Gave(t: Tree, f: nat, at: nat): Tree { Tree(t.tab - {f}, t.node, t.view, t.own[f := Free(at)]) }

  ghost function Kalloced(s: St): St requires s.free != [] {
    var f := s.free[|s.free| - 1];
    St(s.free[..|s.free| - 1], s.data[f := Filled(5)], Took(s.t, f))
  }

  ghost function Kfreed(s: St, f: nat): St { St(s.free + [f], s.data[f := Filled(1)], Gave(s.t, f, |s.free|)) }

  lemma KallocOk(s: St)
    requires Ok(s) && s.free != []
    ensures var f := s.free[|s.free| - 1];
      f in s.t.own && s.t.own[f] == Free(|s.free| - 1) && Ok(Kalloced(s)) && f in Kalloced(s).t.own
        && Kalloced(s).t.own[f] == Held
  {
    HandedGood(TOP, s.t, NOWHERE, s.free[|s.free| - 1], Held);
  }

  lemma KfreeOk(s: St, f: nat)
    requires Ok(s) && f in s.t.own && s.t.own[f] == Held
    ensures Ok(Kfreed(s, f))
  {
    HandedGood(TOP, s.t, NOWHERE, f, Free(|s.free|));
  }

  ghost function WithFrame(s: St, f: nat): St {
    St(s.free + [f], s.data[f := Filled(1)], Tree(s.t.tab, s.t.node, s.t.view, s.t.own[f := Free(|s.free|)]))
  }

  /** The frames from lo up to hi are new and free, and nothing else changed. */
  ghost predicate Supplied(a: St, b: St, lo: nat, hi: nat) {
    && b.t.node == a.t.node && b.t.view == a.t.view
    && (forall f {:trigger f in b.t.own} :: f in b.t.own <==> f in a.t.own || lo <= f < hi)
    && (forall f {:trigger b.t.own[f]} | f in b.t.own ::
        if lo <= f < hi then b.t.own[f].Free? else b.t.own[f] == a.t.own[f])
  }

  lemma SuppliedMore(a: St, b: St, lo: nat, p: nat)
    requires Supplied(a, b, lo, p) && Settled(b.t.own) && lo <= p && p !in b.t.own
    ensures Supplied(a, WithFrame(b, p), lo, p + 1) && Settled(WithFrame(b, p).t.own)
  {
  }

  lemma NewFrameOk(s: St, f: nat)
    requires Ok(s) && f !in s.t.own
    ensures Ok(WithFrame(s, f))
  {
    var b := WithFrame(s, f);
    forall k | k in s.t.node
      ensures Row(b.t.tab, b.t.node, b.t.view, k, NOWHERE)
    {
      assert Row(s.t.tab, s.t.node, s.t.view, k, NOWHERE);
    }
    forall x ensures InUse(b.t.node, b.t.view, b.t.own, x) { assert InUse(s.t.node, s.t.view, s.t.own, x); }
  }

  lemma StillFree(free: seq<nat>, own: map<nat, Use>, g: nat, u: Use)
    requires FreeList(free, own) && g in own && !own[g].Free? && !u.Free?
    ensures FreeList(free, own[g := u])
  {
  }

  // ---- what changes

  /** Frames in use keep their bytes. */
  ghost predicate SameBytes(a: St, b: St) {
    && a.t.own.Keys == a.data.Keys == b.data.Keys
    && forall f {:trigger b.t.own[f]} {:trigger b.data[f]} | f in a.t.own && !a.t.own[f].Free? :: b.data[f] == a.data[f]
  }

  /** Between a and b, free frames became tables of tree r and the frames from lo up to hi its
      pages. */
  ghost predicate Moved(a: St, b: St, r: nat, lo: nat, hi: nat) { Advance(a.t, b.t, r, lo, hi) && SameBytes(a, b) }

  lemma MovedTwice(a: St, b: St, c: St, r: nat, lo: nat, mid: nat, hi: nat)
    requires lo <= mid <= hi && Moved(a, b, r, lo, mid) && Moved(b, c, r, mid, hi)
    ensures Moved(a, c, r, lo, hi)
  {
    AdvanceTwice(a.t, b.t, c.t, r, lo, mid, hi);
    forall f | f in a.t.own && !a.t.own[f].Free? ensures c.data[f] == a.data[f] {
      assert b.data[f] == a.data[f] && !b.t.own[f].Free?;
    }
  }

  /** Between a and b, free frames became tables of tree r and nothing else changed. */
  ghost predicate MoreTables(a: St, b: St, r: nat) { Moved(a, b, r, 0, 0) && b.t.view == a.t.view }

  lemma MoreTwice(a: St, b: St, c: St, r: nat)
    requires MoreTables(a, b, r) && MoreTables(b, c, r)
    ensures MoreTables(a, c, r)
  {
    MovedTwice(a, b, c, r, 0, 0, 0);
  }

  lemma MovedNone(a: St, b: St, r: nat, x: nat)
    requires Moved(a, b, r, 0, 0)
    ensures Moved(a, b, r, x, x)
  {
  }

  // ---- walk

  /** The tables on the path of page v, and no others, were made, each from a free frame. */
  ghost predicate PathPaid(a: St, b: St, root: nat, v: nat) {
    PathAdded(a.t.node, b.t.node, root, v, TOP, LAST) && |b.free| + Lack(a.t.node, root, v, TOP) == |a.free|
  }

  /** The same for n pages from `first` on. */
  ghost predicate RangePaid(a: St, b: St, root: nat, first: nat, n: nat) {
    && RangeAdded(a.t.node, b.t.node, root, first, n, TOP)
    && |b.free| + RangeLack(a.t.node, root, first, n, TOP) == |a.free|
  }

  /** A frame from the pool becomes the table that entry i of table k points to. */
  ghost function Branched(s: St, k: Key, i: nat): St
    requires s.free != [] && k in s.t.node && s.t.node[k] in s.t.tab && i < |s.t.tab[s.t.node[k]]|
  {
    St(Kalloced(s).free, Kalloced(s).data, Sprouted(s.t, k, i, s.free[|s.free| - 1]))
  }

  lemma BranchOk(s: St, k: Key, i: nat)
    requires Ok(s) && s.free != [] && k in s.t.node && k.level < LAST && i < ENTRIES && Child(k, i) !in s.t.node
    ensures s.t.node[k] in s.t.tab && |s.t.tab[s.t.node[k]]| == ENTRIES && s.free[|s.free| - 1] != s.t.node[k]
    ensures Ok(Branched(s, k, i))
  {
    var s1, g := Kalloced(s), s.free[|s.free| - 1];
    KallocOk(s);
    LinkedGood(TOP, s1.t, k, i, g);
    StillFree(s1.free, s1.t.own, g, Node(Child(k, i)));
  }

  lemma BranchMore(s: St, k: Key, i: nat)
    requires Ok(s) && s.free != [] && k in s.t.node && s.t.node[k] in s.t.tab && i < |s.t.tab[s.t.node[k]]|
    ensures MoreTables(s, Branched(s, k, i), k.root)
    ensures OneAdded(s.t.node, Branched(s, k, i).t.node, Child(k, i)) && |Branched(s, k, i).free| + 1 == |s.free|
  {
    KallocOk(s);
    SproutAdvance(s.t, k, i, s.free[|s.free| - 1], 0);
  }

  lemma UserPrefix(v: nat)
    requires v < USER_PAGES
    ensures Prefix(1, v) == 0
  {
    assert Prefix(3, v) == v / ENTRIES && Prefix(2, v) == v / ENTRIES / ENTRIES
      && Prefix(1, v) == Prefix(2, v) / ENTRIES;
  }

  /** The state of a walk at a level. */
  ghost predicate Walking(s: St, m: St, root: nat, v: nat, level: nat) {
    && MoreTables(s, m, root) && PathKey(root, v, level) in m.t.node
    && PathAdded(s.t.node, m.t.node, root, v, TOP, level)
        && |m.free| + LackTo(s.t.node, root, v, TOP, level) == |s.free|
  }

  lemma WalkingMore(s: St, m: St, b: St, root: nat, v: nat, level: nat, next: nat, k: Key)
    requires Walking(s, m, root, v, level) && TOP <= level < LAST && next == level + 1 && k == PathKey(root, v, next)
    requires MoreTables(m, b, root) && OneAdded(m.t.node, b.t.node, k) && |b.free| + Miss(m.t.node, k) == |m.free|
    ensures Walking(s, b, root, v, next)
  {
    MoreTwice(s, m, b, root);
    PathMore(s.t.node, m.t.node, b.t.node, root, v, TOP, level, k);
    assert k in b.t.node;
  }

  lemma WalkingStuck(s: St, m: St, root: nat, v: nat, level: nat, next: nat, k: Key)
    requires Walking(s, m, root, v, level) && TOP <= level < LAST && next == level + 1 && k == PathKey(root, v, next)
    requires k !in m.t.node && Closed(TOP, m.t.node, m.t.view)
    ensures TableOf(Spot(root, v)) !in m.t.node && (m.free == [] ==> |s.free| < Lack(s.t.node, root, v, TOP))
  {
    PathMore(s.t.node, m.t.node, m.t.node, root, v, TOP, level, k);
    PathMissing(TOP, m.t, root, v, next);
    PathEnd(root, v);
  }

  /** What walk does with alloc set: `ok` if the table of page v is there. */
  ghost predicate Walked(a: St, b: St, ok: bool, root: nat, v: nat) {
    && Ok(b) && MoreTables(a, b, root) && (ok <==> TableOf(Spot(root, v)) in b.t.node)
    && if ok then PathPaid(a, b, root, v) else b.free == [] && |a.free| < Lack(a.t.node, root, v, TOP)
  }

  // ---- mapping

  datatype MapResult = Done | NoMemory | Remap

  /** Page p is mapped to frame g. */
  ghost function Hooked(s: St, p: Spot, g: nat, perm: nat): St
    requires TableOf(p) in s.t.node && s.t.node[TableOf(p)] in s.t.tab && |s.t.tab[s.t.node[TableOf(p)]]| == ENTRIES
  {
    St(s.free, s.data, Mapped(s.t, p, g, perm))
  }

  lemma HookOk(s: St, p: Spot, g: nat, perm: nat)
    requires Ok(s) && TableOf(p) in s.t.node && p !in s.t.view && g in s.t.own && s.t.own[g] == Held
    ensures s.t.node[TableOf(p)] in s.t.tab && |s.t.tab[s.t.node[TableOf(p)]]| == ENTRIES
    ensures var b := Hooked(s, p, g, perm);
      Ok(b) && Moved(s, b, p.root, g, g + 1) && b.t.view == s.t.view[p := Mapping(g, perm)]
  {
    MappedGood(TOP, s.t, p, g, perm);
    MapAdvance(s.t, p, g, perm);
    StillFree(s.free, s.t.own, g, Page(p));
  }

  /** What the body of the loop of mappages does: page v to frame g. */
  ghost predicate OneMapped(s: St, m: St, r: MapResult, root: nat, v: nat, g: nat, perm: nat) {
    && Ok(m) && (r.Remap? <==> Spot(root, v) in s.t.view)
    && (r.NoMemory? ==> m.free == [] && |s.free| < Lack(s.t.node, root, v, TOP))
        && (r.Done? ==> PathPaid(s, m, root, v))
    && (if r.Done? then Moved(s, m, root, g, g + 1) && m.t.view == s.t.view[Spot(root, v) := Mapping(g, perm)]
        else Moved(s, m, root, g, g) && m.t.view == s.t.view)
  }

  lemma OneHooked(s: St, w: St, root: nat, v: nat, g: nat, perm: nat)
    requires Ok(s) && Walked(s, w, true, root, v) && Spot(root, v) !in s.t.view && g in s.t.own && s.t.own[g] == Held
    ensures w.t.node[TableOf(Spot(root, v))] in w.t.tab && |w.t.tab[w.t.node[TableOf(Spot(root, v))]]| == ENTRIES
    ensures OneMapped(s, Hooked(w, Spot(root, v), g, perm), Done, root, v, g, perm)
  {
    assert w.t.own[g] == s.t.own[g];
    HookOk(w, Spot(root, v), g, perm);
    MovedNone(s, w, root, g);
    MovedTwice(s, w, Hooked(w, Spot(root, v), g, perm), root, g, g, g + 1);
  }

  lemma OneNotHooked(s: St, w: St, ok: bool, root: nat, v: nat, g: nat, perm: nat)
    requires Ok(s) && Walked(s, w, ok, root, v) && (ok ==> Spot(root, v) in s.t.view)
    ensures OneMapped(s, w, if ok then Remap else NoMemory, root, v, g, perm)
  {
    MovedNone(s, w, root, g);
    assert Spot(root, v) in w.t.view ==> TableOf(Spot(root, v)) in w.t.node;
  }

  // ---- many pages

  /** The state of mappages after k pages. */
  ghost predicate MapsTo(s: St, m: St, root: nat, first: nat, g: nat, k: nat, perm: nat) {
    && Ok(m) && Moved(s, m, root, g, g + k) && Ranged(s.t.view, m.t.view, root, first, g, k, perm)
    && Key(root, TOP, 0) in m.t.node
  }

  lemma MapsOneMore(s: St, m: St, m': St, r: MapResult, root: nat, first: nat, g: nat, k: nat, perm: nat, v: nat,
      f: nat, next: nat)
    requires MapsTo(s, m, root, first, g, k, perm) && v == first + k && f == g + k && next == k + 1
    requires OneMapped(m, m', r, root, v, f, perm)
    ensures r.Done? ==> MapsTo(s, m', root, first, g, next, perm)
    ensures !r.Done? ==> MapsTo(s, m', root, first, g, k, perm)
    ensures r.Remap? ==> Has(s.t.view, root, first + k)
  {
    RangedMore(s.t.view, m.t.view, root, first, g, k, perm, v, f);
    MovedMore(s, m, m', root, g, k, f, next, r.Done?);
  }

  lemma MovedMore(s: St, m: St, m': St, root: nat, g: nat, k: nat, f: nat, next: nat, one: bool)
    requires Moved(s, m, root, g, g + k) && f == g + k && next == k + 1
    requires if one then Moved(m, m', root, f, f + 1) else Moved(m, m', root, f, f)
    ensures if one then Moved(s, m', root, g, g + next) else Moved(s, m', root, g, g + k)
    ensures Key(root, TOP, 0) in m.t.node ==> Key(root, TOP, 0) in m'.t.node
  {
    if one { MovedTwice(s, m, m', root, g, f, f + 1); } else { MovedTwice(s, m, m', root, g, f, f); }
  }

  /** The account of one page more. */
  lemma PaidOneMore(s: St, m: St, m': St, r: MapResult, root: nat, first: nat, g: nat, k: nat, perm: nat, v: nat,
      f: nat, next: nat)
    requires RangePaid(s, m, root, first, k) && v == first + k && next == k + 1 && OneMapped(m, m', r, root, v, f, perm)
    ensures r.Done? ==> RangePaid(s, m', root, first, next)
    ensures r.NoMemory? ==> |s.free| < RangeLack(s.t.node, root, first, next, TOP)
  {
    LackStep(s.t.node, m.t.node, root, first, k, v, next, TOP);
    if r.Done? { RangeMore(s.t.node, m.t.node, m'.t.node, root, first, k, v, next, TOP); }
  }

  /** What mappages does with n pages: the first d of them are mapped, all of them unless memory
      runs out or the next one is mapped already. */
  ghost predicate RangeMapped(s: St, m: St, r: MapResult, d: nat, root: nat, first: nat, g: nat, n: nat, perm: nat) {
    && MapsTo(s, m, root, first, g, d, perm) && d <= n && (r.Done? <==> d == n)
    && (r.Done? ==> RangePaid(s, m, root, first, n)) && (r.Remap? ==> Has(s.t.view, root, first + d))
    && (r.NoMemory? ==> m.free == [] && |s.free| < RangeLack(s.t.node, root, first, d + 1, TOP))
  }

  lemma MapsNone(s: St, root: nat, first: nat, g: nat, perm: nat)
    requires Ok(s) && Key(root, TOP, 0) in s.t.node
    ensures MapsTo(s, s, root, first, g, 0, perm)
  {
  }

  lemma MapsHeld(s: St, m: St, root: nat, first: nat, g: nat, k: nat, perm: nat, f: nat)
    requires MapsTo(s, m, root, first, g, k, perm) && g + k <= f && f in s.t.own && s.t.own[f] == Held
    ensures f in m.t.own && m.t.own[f] == Held
  {
    assert f in m.t.own;
    assert m.t.own[f] == s.t.own[f];
  }

  // ---- a page with its contents: the common part of uvmalloc and uvmcopy

  /** Between a and b, free frames became tables or pages of tree r and nothing else changed. */
  ghost predicate Consumed(a: St, b: St, r: nat) {
    && a.t.own.Keys == b.t.own.Keys == a.data.Keys == b.data.Keys
    && (forall f {:trigger b.t.own[f]} {:trigger b.data[f]} | f in a.t.own && !a.t.own[f].Free? ::
        b.t.own[f] == a.t.own[f] && b.data[f] == a.data[f])
    && (forall f {:trigger b.t.own[f]} | f in a.t.own && a.t.own[f].Free? :: b.t.own[f].Free? || UsedBy(b.t.own[f], r))
    && (forall k: Key {:trigger k in b.t.node} | k in a.t.node :: k in b.t.node)
    && (forall k: Key {:trigger k in b.t.node} | k.root != r :: k in b.t.node <==> k in a.t.node)
  }

  predicate UsedBy(u: Use, r: nat) { (u.Node? && u.key.root == r) || (u.Page? && u.spot.root == r) }

  lemma ConsumedTwice(a: St, b: St, c: St, r: nat)
    requires Consumed(a, b, r) && Consumed(b, c, r)
    ensures Consumed(a, c, r)
  {
    forall f | f in a.t.own && !a.t.own[f].Free?
      ensures c.t.own[f] == a.t.own[f] && c.data[f] == a.data[f]
    {
      assert b.t.own[f] == a.t.own[f];
    }
    forall f | f in a.t.own && a.t.own[f].Free? ensures c.t.own[f].Free? || UsedBy(c.t.own[f], r) {
      assert b.t.own[f].Free? || UsedBy(b.t.own[f], r);
    }
    forall k: Key | k in a.t.node ensures k in c.t.node { assert k in b.t.node; }
    forall k: Key | k.root != r ensures k in c.t.node <==> k in a.t.node { assert k in b.t.node <==> k in a.t.node; }
  }

  /** Page p, not mapped before, is mapped to a frame that came from the pool and holds these
      bytes. */
  ghost predicate Gained(a: St, b: St, p: Spot, bytes: seq<nat>, perm: nat) {
    && p !in a.t.view && p in b.t.view && b.t.view == a.t.view[p := b.t.view[p]] && b.t.view[p].flags == perm
    && b.t.view[p].frame in a.t.own && a.t.own[b.t.view[p].frame].Free?
    && b.t.view[p].frame in b.data && b.data[b.t.view[p].frame] == bytes
  }

  /** What adding one page does. */
  ghost predicate AddedTo(a: St, b: St, ok: bool, root: nat, v: nat, bytes: seq<nat>, perm: nat) {
    && Ok(b) && Settled(b.t.own) && Consumed(a, b, root)
    && (ok ==> Gained(a, b, Spot(root, v), bytes, perm)) && (!ok ==> b.t.view == a.t.view)
    && (ok ==> PathAdded(a.t.node, b.t.node, root, v, TOP, LAST))
    && if ok then |b.free| + 1 + Lack(a.t.node, root, v, TOP) == |a.free|
       else |a.free| < 1 + Lack(a.t.node, root, v, TOP)
  }

  lemma AddedNone(s: St, root: nat, v: nat, bytes: seq<nat>, perm: nat)
    requires Ok(s) && Settled(s.t.own) && s.free == []
    ensures AddedTo(s, s, false, root, v, bytes, perm)
  {
  }

  ghost function FilledWith(s: St, g: nat, bytes: seq<nat>): St { St(s.free, s.data[g := bytes], s.t) }

  lemma FillOk(s: St, g: nat, bytes: seq<nat>)
    requires Ok(s) && g in s.t.own
    ensures Ok(FilledWith(s, g, bytes))
  {
  }

  lemma AddedOk(s: St, k: St, m: St, r: MapResult, d: nat, root: nat, v: nat, g: nat, bytes: seq<nat>, perm: nat)
    requires Ok(s) && Settled(s.t.own) && s.free != [] && g == s.free[|s.free| - 1]
      && k == FilledWith(Kalloced(s), g, bytes)
    requires RangeMapped(k, m, r, d, root, v, g, 1, perm) && Spot(root, v) !in s.t.view
    ensures r.Done? ==> AddedTo(s, m, true, root, v, bytes, perm)
    ensures !r.Done? ==> g in m.t.own && m.t.own[g] == Held && AddedTo(s, Kfreed(m, g), false, root, v, bytes, perm)
  {
    KallocOk(s);
    OneRanged(k, m, r, d, root, v, g, perm);
    if r.Done? {
      AddedView(s, k, m, root, v, g, bytes, perm);
      AddedUse(s, k, m, root, g, g + 1, bytes);
    } else {
      NotAdded(s, k, m, root, v, g, bytes, perm);
    }
  }

  /** mappages of one page. */
  lemma OneRanged(k: St, m: St, r: MapResult, d: nat, root: nat, v: nat, g: nat, perm: nat)
    requires RangeMapped(k, m, r, d, root, v, g, 1, perm) && Spot(root, v) !in k.t.view
    ensures r.Done? ==>
      PathPaid(k, m, root, v) && Moved(k, m, root, g, g + 1) && Ranged(k.t.view, m.t.view, root, v, g, 1, perm)
    ensures !r.Done? ==> |k.free| < Lack(k.t.node, root, v, TOP) && Moved(k, m, root, g, g) && m.t.view == k.t.view
  {
    OnePage(k.t.node, root, v, TOP);
    if r.Done? {
      assert d == 1;
      OnePath(k.t.node, m.t.node, root, v, TOP);
    } else {
      assert d == 0 && d + 1 == 1;
      MapsNothing(k, m, root, v, g, d, perm);
    }
  }

  lemma MapsNothing(k: St, m: St, root: nat, v: nat, g: nat, d: nat, perm: nat)
    requires d == 0 && MapsTo(k, m, root, v, g, d, perm)
    ensures Moved(k, m, root, g, g) && m.t.view == k.t.view
  {
    assert forall p :: p in m.t.view <==> p in k.t.view;
  }

  lemma NotAdded(s: St, k: St, m: St, root: nat, v: nat, g: nat, bytes: seq<nat>, perm: nat)
    requires Ok(m) && Settled(s.t.own) && s.free != [] && g == s.free[|s.free| - 1] && g in s.t.own && s.t.own[g].Free?
      && s.data.Keys == s.t.own.Keys
    requires k == FilledWith(Kalloced(s), g, bytes) && |k.free| < Lack(k.t.node, root, v, TOP)
    requires Moved(k, m, root, g, g) && m.t.view == k.t.view
    ensures g in m.t.own && m.t.own[g] == Held && AddedTo(s, Kfreed(m, g), false, root, v, bytes, perm)
  {
    assert m.t.own[g] == k.t.own[g];
    KfreeOk(m, g);
    AddedUndone(s, k, m, root, g, bytes);
  }

  lemma AddedView(s: St, k: St, m: St, root: nat, v: nat, g: nat, bytes: seq<nat>, perm: nat)
    requires s.free != [] && g == s.free[|s.free| - 1] && g in s.t.own && s.t.own[g].Free?
    requires k == FilledWith(Kalloced(s), g, bytes) && Spot(root, v) !in s.t.view
    requires SameBytes(k, m) && Ranged(k.t.view, m.t.view, root, v, g, 1, perm)
    ensures Gained(s, m, Spot(root, v), bytes, perm)
  {
    var p := Spot(root, v);
    assert p in m.t.view && m.t.view[p] == Mapping(g, perm);
    assert m.t.view == s.t.view[p := m.t.view[p]];
    assert m.data[g] == bytes;
  }

  lemma AddedUse(s: St, k: St, m: St, root: nat, g: nat, h: nat, bytes: seq<nat>)
    requires Settled(s.t.own) && s.free != [] && g == s.free[|s.free| - 1] && g in s.t.own && s.t.own[g].Free?
      && s.data.Keys == s.t.own.Keys
    requires k == FilledWith(Kalloced(s), g, bytes) && h == g + 1 && Moved(k, m, root, g, h)
    ensures Settled(m.t.own) && Consumed(s, m, root)
  {
    forall f | f in m.t.own ensures !m.t.own[f].Held? { assert f != g ==> k.t.own[f] == s.t.own[f]; }
    forall f | f in s.t.own && !s.t.own[f].Free?
      ensures m.t.own[f] == s.t.own[f] && m.data[f] == s.data[f]
    {
      assert k.t.own[f] == s.t.own[f];
    }
    forall f | f in s.t.own && s.t.own[f].Free?
      ensures m.t.own[f].Free? || UsedBy(m.t.own[f], root)
    {
      assert f != g ==> k.t.own[f] == s.t.own[f];
    }
  }

  lemma AddedUndone(s: St, k: St, m: St, root: nat, g: nat, bytes: seq<nat>)
    requires Settled(s.t.own) && s.free != [] && g == s.free[|s.free| - 1] && g in s.t.own && s.t.own[g].Free?
      && s.data.Keys == s.t.own.Keys
    requires k == FilledWith(Kalloced(s), g, bytes) && Moved(k, m, root, g, g)
    ensures var b := Kfreed(m, g); Settled(b.t.own) && Consumed(s, b, root)
  {
    var b := Kfreed(m, g);
    UndoneSettled(s.t.own, k.t.own, m.t.own, b.t.own, root, g, |m.free|);
    UndoneBytes(s, k, m, g, bytes);
  }

  lemma UndoneBytes(s: St, k: St, m: St, g: nat, bytes: seq<nat>)
    requires g in s.t.own && s.t.own[g].Free? && s.data.Keys == s.t.own.Keys && k.t.own == s.t.own[g := Held]
    requires k.data == s.data[g := Filled(5)][g := bytes] && SameBytes(k, m) && m.t.own.Keys == k.t.own.Keys
    requires forall f {:trigger m.t.own[f]} | f in k.t.own && !k.t.own[f].Free? :: m.t.own[f] == k.t.own[f]
    ensures var b := Kfreed(m, g);
      forall f {:trigger b.t.own[f]} {:trigger b.data[f]} | f in s.t.own && !s.t.own[f].Free? ::
        b.t.own[f] == s.t.own[f] && b.data[f] == s.data[f]
  {
    forall f | f in s.t.own && !s.t.own[f].Free? ensures m.t.own[f] == s.t.own[f] && m.data[f] == s.data[f] {
      assert k.t.own[f] == s.t.own[f];
    }
  }

  lemma UndoneSettled(s: map<nat, Use>, k: map<nat, Use>, m: map<nat, Use>, b: map<nat, Use>, root: nat, g: nat,
      at: nat)
    requires Settled(s) && g in s && k == s[g := Held] && m.Keys == k.Keys && b == m[g := Free(at)]
    requires forall f {:trigger m[f]} | f in k :: m[f] == k[f] || (k[f].Free? && UsedBy(m[f], root))
    ensures Settled(b) && forall f {:trigger b[f]} | f in s && s[f].Free? :: b[f].Free? || UsedBy(b[f], root)
  {
    forall f | f in b && f != g ensures b[f] == s[f] || (s[f].Free? && UsedBy(b[f], root)) {
      assert k[f] == s[f] && b[f] == m[f];
    }
  }

  // ---- unmapping

  predicate InRange(p: Spot, root: nat, first: nat, n: nat) { p.root == root && first <= p.vpn < first + n }

  predicate PageIn(u: Use, root: nat, first: nat, n: nat) { u.Page? && InRange(u.spot, root, first, n) }

  /** Between a and b, n pages from `first` on went, and their frames went back to the pool, or
      to the caller if not `freed`; nothing else changed. */
  ghost predicate Removed(a: St, b: St, root: nat, first: nat, n: nat, freed: bool) {
    && a.t.own.Keys == b.t.own.Keys == a.data.Keys == b.data.Keys && b.t.node == a.t.node
    && (forall p: Spot {:trigger p in b.t.view} ::
        (p in b.t.view <==> p in a.t.view && !InRange(p, root, first, n))
        && (p in b.t.view ==> b.t.view[p] == a.t.view[p]))
    && (forall f {:trigger b.t.own[f]} {:trigger b.data[f]} | f in a.t.own ::
          if PageIn(a.t.own[f], root, first, n) then (if freed then b.t.own[f].Free? else b.t.own[f].Held?)
          else b.t.own[f] == a.t.own[f] && b.data[f] == a.data[f])
  }

  /** Page p is unmapped; its frame is in the hands of the caller. */
  ghost function Lifted(s: St, p: Spot): St
    requires TableOf(p) in s.t.node && s.t.node[TableOf(p)] in s.t.tab && |s.t.tab[s.t.node[TableOf(p)]]| == ENTRIES
      && p in s.t.view
  {
    St(s.free, s.data, Unmapped(s.t, p))
  }

  lemma LiftOk(s: St, p: Spot)
    requires Ok(s) && p in s.t.view
    ensures TableOf(p) in s.t.node && s.t.node[TableOf(p)] in s.t.tab && |s.t.tab[s.t.node[TableOf(p)]]| == ENTRIES
    ensures s.t.tab[s.t.node[TableOf(p)]][p.vpn % ENTRIES] == Leaf(s.t.view[p].frame, s.t.view[p].flags)
    ensures s.t.view[p].frame in s.t.own && s.t.own[s.t.view[p].frame] == Page(p)
    ensures Ok(Lifted(s, p)) && Lifted(s, p).t.own[s.t.view[p].frame] == Held
  {
    UnmappedGood(TOP, s.t, p);
    StillFree(s.free, s.t.own, s.t.view[p].frame, Held);
  }

  lemma RemovedNone(s: St, root: nat, first: nat, freed: bool)
    requires Ok(s)
    ensures Removed(s, s, root, first, 0, freed)
  {
  }

  /** What unmapping page p does. */
  ghost predicate OneRemoved(a: St, b: St, p: Spot, freed: bool) {
    && p in a.t.view && a.t.view[p].frame in a.t.own && a.t.own[a.t.view[p].frame] == Page(p)
    && (forall x {:trigger a.t.own[x]} | x in a.t.own && a.t.own[x] == Page(p) :: x == a.t.view[p].frame)
    && b.t.node == a.t.node && b.t.view == a.t.view - {p}
    && if freed then b.t.own == a.t.own[a.t.view[p].frame := Free(|a.free|)]
        && b.data == a.data[a.t.view[p].frame := Filled(1)]
       else b.t.own == a.t.own[a.t.view[p].frame := Held] && b.data == a.data
  }

  lemma LiftRemoves(s: St, p: Spot, f: nat)
    requires Ok(s) && p in s.t.view && TableOf(p) in s.t.node && s.t.node[TableOf(p)] in s.t.tab
      && |s.t.tab[s.t.node[TableOf(p)]]| == ENTRIES && f == s.t.view[p].frame
    ensures OneRemoved(s, Lifted(s, p), p, false) && OneRemoved(s, Kfreed(Lifted(s, p), f), p, true)
  {
    OneFrame(s, p);
    assert s.t.own[f := Held][f := Free(|s.free|)] == s.t.own[f := Free(|s.free|)];
  }

  /** n pages from `first` on are mapped. */
  ghost predicate AllMapped(view: map<Spot, Mapping>, root: nat, first: nat, n: nat) {
    forall v: nat {:trigger Has(view, root, v)} | first <= v < first + n :: Has(view, root, v)
  }

  lemma AllMappedMore(view: map<Spot, Mapping>, root: nat, first: nat, k: nat, v: nat)
    requires AllMapped(view, root, first, k) && v == first + k
    ensures AllMapped(view, root, first, k + 1) <==> Has(view, root, v)
  {
  }

  lemma AllMappedLess(view: map<Spot, Mapping>, root: nat, first: nat, n: nat, v: nat)
    requires first <= v < first + n && !Has(view, root, v)
    ensures !AllMapped(view, root, first, n)
  {
  }

  lemma StillThere(a: St, b: St, root: nat, first: nat, k: nat, freed: bool, v: nat)
    requires Removed(a, b, root, first, k, freed) && v == first + k
    ensures Has(b.t.view, root, v) == Has(a.t.view, root, v)
  {
    assert Spot(root, v) in b.t.view <==> Spot(root, v) in a.t.view;
  }

  lemma RemovedMore(a: St, b: St, c: St, root: nat, first: nat, k: nat, freed: bool, v: nat)
    requires Removed(a, b, root, first, k, freed) && v == first + k && OneRemoved(b, c, Spot(root, v), freed)
    ensures Removed(a, c, root, first, k + 1, freed)
  {
    var p := Spot(root, v);
    forall q: Spot
      ensures (q in c.t.view <==> q in a.t.view && !InRange(q, root, first, k + 1))
        && (q in c.t.view ==> c.t.view[q] == a.t.view[q])
    {
      assert q in b.t.view <==> q in a.t.view && !InRange(q, root, first, k);
      assert InRange(q, root, first, k + 1) <==> InRange(q, root, first, k) || q == p;
    }
    forall x | x in a.t.own
      ensures if PageIn(a.t.own[x], root, first, k + 1) then (if freed then c.t.own[x].Free? else c.t.own[x].Held?)
        else c.t.own[x] == a.t.own[x] && c.data[x] == a.data[x]
    {
      assert PageIn(a.t.own[x], root, first, k + 1) <==> PageIn(a.t.own[x], root, first, k) || a.t.own[x] == Page(p);
      assert x in b.t.own;
      assert b.t.own[x] == a.t.own[x] || PageIn(a.t.own[x], root, first, k);
    }
  }

  /** Only one frame is used for a page. */
  lemma OneFrame(s: St, p: Spot)
    requires Ok(s) && p in s.t.view
    ensures forall x {:trigger s.t.own[x]} | x in s.t.own && s.t.own[x] == Page(p) :: x == s.t.view[p].frame
  {
    forall x | x in s.t.own && s.t.own[x] == Page(p)
      ensures x == s.t.view[p].frame
    {
      assert InUse(s.t.node, s.t.view, s.t.own, x);
    }
  }

  // ---- growing by many pages

  /** A page to be added: its bytes and its attributes. */
  datatype Image = Image(bytes: seq<nat>, flags: nat)

  /** Page p of b is in a frame that was free in a, and is this image. */
  ghost predicate Holds(a: St, b: St, p: Spot, image: Image) {
    && p in b.t.view && b.t.view[p].flags == image.flags
    && b.t.view[p].frame in a.t.own && a.t.own[b.t.view[p].frame].Free? && b.t.view[p].frame in b.data
        && b.data[b.t.view[p].frame] == image.bytes
  }

  /** Page p is one of the images, or is as it was. */
  ghost predicate Shows(a: St, b: St, r: nat, lo: nat, images: seq<Image>, p: Spot) {
    if InRange(p, r, lo, |images|) then p !in a.t.view && Holds(a, b, p, images[p.vpn - lo])
    else (p in b.t.view <==> p in a.t.view) && (p in a.t.view ==> b.t.view[p] == a.t.view[p])
  }

  /** Between a and b, tree r gained the images as pages from `lo` on. */
  ghost predicate GrewBy(a: St, b: St, r: nat, lo: nat, images: seq<Image>) {
    && Ok(b) && Settled(b.t.own) && Consumed(a, b, r)
    && (forall p {:trigger Shows(a, b, r, lo, images, p)} :: Shows(a, b, r, lo, images, p))
  }

  /** The tables for n pages from `lo` on were made, and a frame taken for each and for each page. */
  ghost predicate Spent(a: St, b: St, r: nat, lo: nat, n: nat) {
    && RangeAdded(a.t.node, b.t.node, r, lo, n, TOP)
    && |b.free| + Needs(a, r, lo, n) == |a.free|
  }

  /** The frames that n new pages from `lo` on and their missing tables take. */
  ghost function Needs(a: St, r: nat, lo: nat, n: nat): nat { n + RangeLack(a.t.node, r, lo, n, TOP) }

  lemma SpentEnough(a: St, b: St, r: nat, lo: nat, n: nat)
    requires Spent(a, b, r, lo, n)
    ensures |a.free| >= Needs(a, r, lo, n)
  {
  }

  lemma SpentMore(a: St, b: St, c: St, ok: bool, r: nat, lo: nat, k: nat, v: nat, next: nat, n: nat, bytes: seq<nat>,
      perm: nat)
    requires Spent(a, b, r, lo, k) && v == lo + k && next == k + 1 <= n && AddedTo(b, c, ok, r, v, bytes, perm)
    ensures ok ==> Spent(a, c, r, lo, next)
    ensures !ok ==> |a.free| < Needs(a, r, lo, n)
  {
    LackStep(a.t.node, b.t.node, r, lo, k, v, next, TOP);
    RangeLackGrows(a.t.node, r, lo, next, n, TOP);
    if ok { RangeMore(a.t.node, b.t.node, c.t.node, r, lo, k, v, next, TOP); }
  }

  lemma GrewNone(a: St, r: nat, lo: nat)
    requires Ok(a) && Settled(a.t.own)
    ensures GrewBy(a, a, r, lo, [])
  {
  }

  /** The frame of a page stays put, with its bytes, when nothing but free frames is used. */
  lemma HoldsStill(a: St, b: St, c: St, r: nat, q: Spot, image: Image)
    requires Placed(b.t.node, b.t.view, b.t.own) && Consumed(b, c, r) && Holds(a, b, q, image) && q in c.t.view
      && c.t.view[q] == b.t.view[q]
    ensures Holds(a, c, q, image)
  {
    var f := b.t.view[q].frame;
    assert b.t.own[f] == Page(q);
    assert f in c.data;
    assert c.data[f] == b.data[f];
  }

  lemma ShowsMore(a: St, b: St, c: St, r: nat, lo: nat, images: seq<Image>, v: nat, bytes: seq<nat>, perm: nat, q: Spot)
    requires v == lo + |images| && Shows(a, b, r, lo, images, q) && Shows(a, b, r, lo, images, Spot(r, v))
    requires Placed(b.t.node, b.t.view, b.t.own) && Consumed(a, b, r) && Consumed(b, c, r)
      && Gained(b, c, Spot(r, v), bytes, perm)
    ensures Shows(a, c, r, lo, images + [Image(bytes, perm)], q)
  {
    var p := Spot(r, v);
    assert b.t.own[c.t.view[p].frame].Free?;
    if InRange(q, r, lo, |images|) { HoldsStill(a, b, c, r, q, images[q.vpn - lo]); }
  }

  lemma GrewMore(a: St, b: St, c: St, r: nat, lo: nat, images: seq<Image>, v: nat, bytes: seq<nat>, perm: nat)
    requires GrewBy(a, b, r, lo, images) && v == lo + |images| && AddedTo(b, c, true, r, v, bytes, perm)
    ensures GrewBy(a, c, r, lo, images + [Image(bytes, perm)])
  {
    var more := images + [Image(bytes, perm)];
    ConsumedTwice(a, b, c, r);
    forall q ensures Shows(a, c, r, lo, more, q) {
      assert Shows(a, b, r, lo, images, q) && Shows(a, b, r, lo, images, Spot(r, v));
      ShowsMore(a, b, c, r, lo, images, v, bytes, perm, q);
    }
  }

  lemma ShowsStill(a: St, b: St, c: St, r: nat, lo: nat, images: seq<Image>, q: Spot)
    requires Shows(a, b, r, lo, images, q) && Placed(b.t.node, b.t.view, b.t.own) && Consumed(b, c, r)
      && c.t.view == b.t.view
    ensures Shows(a, c, r, lo, images, q)
  {
    if InRange(q, r, lo, |images|) { HoldsStill(a, b, c, r, q, images[q.vpn - lo]); }
  }

  /** A page that could not be added changes no page. */
  lemma GrewSame(a: St, b: St, c: St, r: nat, lo: nat, images: seq<Image>, v: nat, bytes: seq<nat>, perm: nat)
    requires GrewBy(a, b, r, lo, images) && AddedTo(b, c, false, r, v, bytes, perm)
    ensures GrewBy(a, c, r, lo, images)
  {
    ConsumedTwice(a, b, c, r);
    forall q ensures Shows(a, c, r, lo, images, q) {
      assert Shows(a, b, r, lo, images, q);
      ShowsStill(a, b, c, r, lo, images, q);
    }
  }

  /** Taking the new pages away again leaves the pages as they were. */
  lemma GrewUndone(a: St, b: St, c: St, r: nat, lo: nat, images: seq<Image>)
    requires Ok(a) && GrewBy(a, b, r, lo, images) && Removed(b, c, r, lo, |images|, true)
    ensures c.t.view == a.t.view && Consumed(a, c, r) && Settled(c.t.own)
  {
    UndoneView(a, b, c, r, lo, images);
    UndoneOwn(a, b, c, r, lo, images);
  }

  lemma UndoneView(a: St, b: St, c: St, r: nat, lo: nat, images: seq<Image>)
    requires Removed(b, c, r, lo, |images|, true)
    requires forall p {:trigger Shows(a, b, r, lo, images, p)} :: Shows(a, b, r, lo, images, p)
    ensures c.t.view == a.t.view
  {
    forall p: Spot ensures (p in c.t.view <==> p in a.t.view) && (p in a.t.view ==> c.t.view[p] == a.t.view[p]) {
      assert p in c.t.view || p !in c.t.view;
      assert Shows(a, b, r, lo, images, p);
    }
  }

  lemma UndoneOwn(a: St, b: St, c: St, r: nat, lo: nat, images: seq<Image>)
    requires Placed(a.t.node, a.t.view, a.t.own) && Consumed(a, b, r) && Settled(b.t.own)
      && Removed(b, c, r, lo, |images|, true)
    requires forall p {:trigger Shows(a, b, r, lo, images, p)} :: Shows(a, b, r, lo, images, p)
    ensures Consumed(a, c, r) && Settled(c.t.own)
  {
    forall f | f in a.t.own && !a.t.own[f].Free? ensures c.t.own[f] == a.t.own[f] && c.data[f] == a.data[f] {
      assert b.t.own[f] == a.t.own[f];
      assert InUse(a.t.node, a.t.view, a.t.own, f);
      assert b.t.own[f].Page? ==> Shows(a, b, r, lo, images, b.t.own[f].spot);
      assert !PageIn(b.t.own[f], r, lo, |images|);
    }
    forall f | f in a.t.own && a.t.own[f].Free? ensures c.t.own[f].Free? || UsedBy(c.t.own[f], r) {
      assert b.t.own[f].Free? || UsedBy(b.t.own[f], r);
    }
  }

  /** The state of the loop of uvmalloc after k pages from `lo` on. */
  ghost predicate Growing(s: St, m: St, root: nat, lo: nat, k: nat) {
    GrewBy(s, m, root, lo, Zeroed(k)) && Spent(s, m, root, lo, k) && Key(root, TOP, 0) in m.t.node
  }

  lemma GrowingMore(s: St, m: St, c: St, ok: bool, root: nat, lo: nat, k: nat, v: nat, next: nat, n: nat)
    requires Growing(s, m, root, lo, k) && v == lo + k && next == k + 1 <= n
    requires AddedTo(m, c, ok, root, v, Filled(0), UFLAGS)
    ensures ok ==> Growing(s, c, root, lo, next)
    ensures !ok ==> GrewBy(s, c, root, lo, Zeroed(k)) && |s.free| < Needs(s, root, lo, n)
    ensures Key(root, TOP, 0) in c.t.node
  {
    SpentMore(s, m, c, ok, root, lo, k, v, next, n, Filled(0), UFLAGS);
    GrewEither(s, m, c, ok, root, lo, Zeroed(k), v, Filled(0), UFLAGS);
    assert Zeroed(next) == Zeroed(k) + [Image(Filled(0), UFLAGS)];
    assert Key(root, TOP, 0) in c.t.node;
  }

  lemma GrewEither(a: St, b: St, c: St, ok: bool, r: nat, lo: nat, images: seq<Image>, v: nat, bytes: seq<nat>,
      perm: nat)
    requires GrewBy(a, b, r, lo, images) && v == lo + |images| && AddedTo(b, c, ok, r, v, bytes, perm)
    ensures ok ==> GrewBy(a, c, r, lo, images + [Image(bytes, perm)])
    ensures !ok ==> GrewBy(a, c, r, lo, images)
  {
    if ok { GrewMore(a, b, c, r, lo, images, v, bytes, perm); }
      else { GrewSame(a, b, c, r, lo, images, v, bytes, perm); }
  }

  /** The state of the loop of uvmcopy after v pages. */
  ghost predicate Copying(s: St, m: St, old_: nat, new_: nat, v: nat) {
    && GrewBy(s, m, new_, 0, Copies(s, old_, v)) && Spent(s, m, new_, 0, v) && AllMapped(s.t.view, old_, 0, v)
    && Key(old_, TOP, 0) in m.t.node && Key(new_, TOP, 0) in m.t.node
  }

  lemma CopyingMore(s: St, m: St, c: St, ok: bool, old_: nat, new_: nat, v: nat, next: nat, n: nat, bytes: seq<nat>,
      flags: nat)
    requires Copying(s, m, old_, new_, v) && next == v + 1 <= n && Has(s.t.view, old_, v)
    requires AddedTo(m, c, ok, new_, v, bytes, flags) && ImageOf(s, Spot(old_, v)) == Image(bytes, flags)
    ensures ok ==> Copying(s, c, old_, new_, next)
    ensures !ok ==> GrewBy(s, c, new_, 0, Copies(s, old_, v)) && |s.free| < Needs(s, new_, 0, n)
    ensures Key(new_, TOP, 0) in c.t.node
  {
    SpentMore(s, m, c, ok, new_, 0, v, v, next, n, bytes, flags);
    GrewEither(s, m, c, ok, new_, 0, Copies(s, old_, v), v, bytes, flags);
    AllMappedMore(s.t.view, old_, 0, v, v);
    CopiesMore(s, old_, v);
    assert Key(old_, TOP, 0) in c.t.node && Key(new_, TOP, 0) in c.t.node;
  }

  lemma GrewMapped(a: St, b: St, r: nat, lo: nat, images: seq<Image>)
    requires GrewBy(a, b, r, lo, images)
    ensures AllMapped(b.t.view, r, lo, |images|)
  {
    forall v: nat | lo <= v < lo + |images|
      ensures Has(b.t.view, r, v)
    {
      assert Shows(a, b, r, lo, images, Spot(r, v));
    }
  }

  lemma GrewNext(a: St, b: St, r: nat, lo: nat, images: seq<Image>, v: nat)
    requires GrewBy(a, b, r, lo, images) && v == lo + |images|
    ensures Has(b.t.view, r, v) == Has(a.t.view, r, v)
  {
    assert Shows(a, b, r, lo, images, Spot(r, v));
  }

  /** What uvmalloc adds: zeroed pages the user may write. */
  const UFLAGS: nat := 0x44                  // PTE_NORMAL | PTE_U

  function Zeroed(n: nat): (z: seq<Image>)
    ensures |z| == n && forall i | 0 <= i < n :: z[i] == Image(Filled(0), UFLAGS)
  {
    if n == 0 then [] else Zeroed(n - 1) + [Image(Filled(0), UFLAGS)]
  }

  /** What uvmcopy adds: the first n pages of tree r as they are in s. */
  ghost function Copies(s: St, r: nat, n: nat): (z: seq<Image>)
    ensures |z| == n
  {
    if n == 0 then [] else Copies(s, r, n - 1) + [ImageOf(s, Spot(r, n - 1))]
  }

  ghost function ImageOf(s: St, p: Spot): Image {
    if p in s.t.view && s.t.view[p].frame in s.data then Image(s.data[s.t.view[p].frame], s.t.view[p].flags)
      else Image([], 0)
  }

  lemma CopiesMore(s: St, r: nat, n: nat)
    ensures Copies(s, r, n + 1) == Copies(s, r, n) + [ImageOf(s, Spot(r, n))]
  {
  }

  lemma {:induction false} CopiesAt(s: St, r: nat, n: nat, i: nat)
    requires i < n
    ensures Copies(s, r, n)[i] == ImageOf(s, Spot(r, i))
  {
    if i < n - 1 { CopiesAt(s, r, n - 1, i); }
  }

  /** While tree r grows, the pages of another tree can be read as they were. */
  lemma SourceStays(a: St, b: St, r: nat, lo: nat, images: seq<Image>, p: Spot)
    requires Ok(a) && GrewBy(a, b, r, lo, images) && p in a.t.view && p.root != r
    ensures p in b.t.view && b.t.view[p] == a.t.view[p] && b.t.view[p].frame in b.data
      && ImageOf(a, p) == Image(b.data[b.t.view[p].frame], b.t.view[p].flags)
  {
    assert Shows(a, b, r, lo, images, p);
    var f := a.t.view[p].frame;
    assert a.t.own[f] == Page(p);
    assert f in b.data;
    assert b.data[f] == a.data[f];
  }
}
