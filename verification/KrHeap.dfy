/** The free list of guest/xv6/user/umalloc.c as values: the headers in memory, the free
    blocks they link, the blocks in use, and which block owns each unit obtained from sbrk.
    Addresses and sizes count units of sizeof(Header). */
module KrHeap {

  /** `ptr` and `size` are the header fields in memory. `free` holds the addresses on the
      free list, `base` among them, `live` the blocks in use with their sizes, and `owner`
      gives, for every unit ever obtained, the start of the block it lies in. */
  datatype Heap = Heap(
    base: nat, ptr: map<nat, nat>, size: map<nat, nat>, free: set<nat>, live: map<nat, nat>, owner: map<nat, nat>)

  /** b comes after a on a circular list in address order. */
  ghost predicate Follows(free: set<nat>, base: nat, a: nat, b: nat) {
    if a < b then forall x | x in free :: x <= a || b <= x
    else b == base && forall x | x in free :: x <= a
  }

  /** p->s.ptr */
  function Next(ptr: map<nat, nat>, a: nat): nat { if a in ptr then ptr[a] else 0 }

  /** The headers link the free blocks into a circle in address order. */
  ghost predicate Linked(base: nat, ptr: map<nat, nat>, free: set<nat>) {
    && base in free && (forall x | x in free :: base <= x)
    && forall a {:trigger Next(ptr, a)} | a in free ::
        a in ptr && Next(ptr, a) in free && Follows(free, base, a, Next(ptr, a))
  }

  /** Free blocks do not overlap, and only the base is empty. */
  ghost predicate Ordered(base: nat, size: map<nat, nat>, free: set<nat>) {
    && (forall a | a in free :: a in size && (size[a] == 0 <==> a == base))
    && (forall a, b | a in free && b in free && a < b :: a + size[a] <= b)
  }

  /** No two free blocks could be merged. */
  ghost predicate Coalesced(size: map<nat, nat>, free: set<nat>) {
    forall a, b | a in free && b in free && a < b && a in size :: a + size[a] != b
  }

  predicate Covers(a: nat, n: nat, u: nat) { a <= u < a + n }

  /** A block owns exactly the units it covers. */
  ghost predicate OwnsRange(owner: map<nat, nat>, a: nat, n: nat) {
    && (forall u {:trigger Covers(a, n, u)} | Covers(a, n, u) :: u in owner && owner[u] == a)
    && (forall u {:trigger owner[u]} | u in owner && owner[u] == a :: Covers(a, n, u))
  }

  ghost predicate LiveOwned(size: map<nat, nat>, live: map<nat, nat>, owner: map<nat, nat>) {
    forall a {:trigger live[a]} | a in live ::
      a in size && size[a] == live[a] && live[a] > 0 && OwnsRange(owner, a, live[a])
  }

  ghost predicate FreeOwned(base: nat, size: map<nat, nat>, free: set<nat>, owner: map<nat, nat>) {
    forall a {:trigger size[a]} | a in free && a in size && a != base :: OwnsRange(owner, a, size[a])
  }

  /** Every unit lies in a block, free or in use, and no block is both. */
  ghost predicate Partition(base: nat, free: set<nat>, live: map<nat, nat>, owner: map<nat, nat>) {
    && (forall u {:trigger owner[u]} | u in owner ::
        base < u && (owner[u] in live || (owner[u] in free && owner[u] != base)))
    && (forall a | a in free :: a !in live)
  }

  /** Everything but coalescing. */
  ghost predicate Sound(h: Heap) {
    && Linked(h.base, h.ptr, h.free) && Ordered(h.base, h.size, h.free)
    && LiveOwned(h.size, h.live, h.owner) && FreeOwned(h.base, h.size, h.free, h.owner)
    && Partition(h.base, h.free, h.live, h.owner)
  }

  ghost predicate Valid(h: Heap) { Sound(h) && Coalesced(h.size, h.free) }

  // ---- what the list means

  ghost function Units(a: nat, n: nat): set<nat> { set u | a <= u < a + n && Covers(a, n, u) }

  /** The units of the blocks on the free list, and those of the blocks in use. */
  ghost function FreeUnits(h: Heap): set<nat> {
    set a, u | a in h.free && a in h.size && u in Units(a, h.size[a]) :: u
  }

  ghost function LiveUnits(h: Heap): set<nat> {
    set a, u | a in h.live && u in Units(a, h.live[a]) :: u
  }

  /** The units whose block is not in use. */
  ghost function NotLive(h: Heap): set<nat> { set u | u in h.owner && h.owner[u] !in h.live }

  /** They are the units of the blocks on the free list. */
  lemma FreeIs(h: Heap)
    requires Sound(h)
    ensures FreeUnits(h) == NotLive(h)
  {
    forall u | u in FreeUnits(h) ensures u in NotLive(h) {
      var a :| a in h.free && a in h.size && u in Units(a, h.size[a]);
      assert a != h.base && OwnsRange(h.owner, a, h.size[a]) && Covers(a, h.size[a], u);
    }
    forall u | u in NotLive(h) ensures u in FreeUnits(h) {
      var a := h.owner[u];
      assert a in h.free && a in h.size && OwnsRange(h.owner, a, h.size[a]) && Covers(a, h.size[a], u);
      assert u in Units(a, h.size[a]);
    }
  }

  lemma LiveIs(h: Heap)
    requires Sound(h)
    ensures LiveUnits(h) == h.owner.Keys - NotLive(h)
  {
    forall u | u in LiveUnits(h) ensures u in h.owner && u !in NotLive(h) {
      var a :| a in h.live && u in Units(a, h.live[a]);
      assert OwnsRange(h.owner, a, h.live[a]) && Covers(a, h.live[a], u);
    }
    forall u | u in h.owner && h.owner[u] in h.live ensures u in LiveUnits(h) {
      var a := h.owner[u];
      assert OwnsRange(h.owner, a, h.live[a]) && Covers(a, h.live[a], u);
      assert u in Units(a, h.live[a]);
    }
  }

  /** The blocks on the free list and the blocks in use cover the units obtained, each once. */
  lemma Conservation(h: Heap)
    requires Valid(h)
    ensures FreeUnits(h) + LiveUnits(h) == h.owner.Keys && FreeUnits(h) !! LiveUnits(h)
    ensures |FreeUnits(h)| + |LiveUnits(h)| == |h.owner.Keys|
  {
    FreeIs(h);
    LiveIs(h);
    TwoParts(h.owner.Keys, FreeUnits(h), LiveUnits(h));
  }

  lemma TwoParts(all: set<nat>, a: set<nat>, b: set<nat>)
    requires a <= all && b == all - a
    ensures a + b == all && a !! b && |a| + |b| == |all|
  {
    assert a + b == all;
  }

  /** Two blocks that own their ranges do not overlap. */
  lemma Disjoint(owner: map<nat, nat>, a: nat, m: nat, b: nat, n: nat)
    requires OwnsRange(owner, a, m) && OwnsRange(owner, b, n) && a != b && m > 0 && n > 0
    ensures a + m <= b || b + n <= a
  {
    assert Covers(a, m, a) && Covers(b, n, b);
    assert !(Covers(a, m, b) && Covers(b, n, b)) && !(Covers(b, n, a) && Covers(a, m, a));
  }

  /** Live blocks never overlap one another or a free block. */
  lemma NoOverlap(h: Heap, a: nat, b: nat)
    requires Sound(h) && a in h.live && a != b && (b in h.live || b in h.free)
    ensures b in h.size && (a + h.live[a] <= b || b + h.size[b] <= a)
  {
    assert h.live[a] > 0 && OwnsRange(h.owner, a, h.live[a]);
    if b in h.live {
      assert h.live[b] > 0 && OwnsRange(h.owner, b, h.live[b]);
      Disjoint(h.owner, a, h.live[a], b, h.live[b]);
    } else if b != h.base {
      assert h.size[b] > 0 && OwnsRange(h.owner, b, h.size[b]);
      Disjoint(h.owner, a, h.live[a], b, h.size[b]);
    } else {
      assert Covers(a, h.live[a], a) && h.owner[a] == a;
    }
  }

  // ---- putting a freed block on the list

  /** p is the free block after which b belongs. */
  ghost predicate Place(h: Heap, p: nat, b: nat) {
    && p in h.free && p < b && b !in h.free
    && (b < Next(h.ptr, p) || Next(h.ptr, p) <= p)
  }

  function Inserted(h: Heap, p: nat, b: nat): Heap {
    h.(ptr := h.ptr[b := Next(h.ptr, p)][p := b], free := h.free + {b}, live := h.live - {b})
  }

  /** The other links skip nothing when b comes in after p. */
  lemma InsertOther(free: set<nat>, base: nat, p: nat, q: nat, b: nat, a: nat, c: nat)
    requires p in free && Follows(free, base, p, q) && p < b && (b < q || q <= p)
    requires a in free && a != p && Follows(free, base, a, c)
    ensures Follows(free + {b}, base, a, c)
  {
  }

  lemma InsertLinked(base: nat, ptr: map<nat, nat>, free: set<nat>, p: nat, b: nat)
    requires Linked(base, ptr, free) && p in free && p < b && b !in free && (b < Next(ptr, p) || Next(ptr, p) <= p)
    ensures Linked(base, ptr[b := Next(ptr, p)][p := b], free + {b})
  {
    var ptr', free', q := ptr[b := Next(ptr, p)][p := b], free + {b}, Next(ptr, p);
    forall a | a in free' ensures a in ptr' && Next(ptr', a) in free' && Follows(free', base, a, Next(ptr', a)) {
      if a != p && a != b {
        assert Next(ptr', a) == Next(ptr, a);
        InsertOther(free, base, p, q, b, a, Next(ptr, a));
      }
    }
  }

  lemma InsertOrdered(h: Heap, b: nat)
    requires Sound(h) && b in h.live && b !in h.free
    ensures Ordered(h.base, h.size, h.free + {b})
  {
    assert h.live[b] > 0 && h.size[b] == h.live[b];
    forall a, c | a in h.free + {b} && c in h.free + {b} && a < c ensures a + h.size[a] <= c {
      if a == b { NoOverlap(h, b, c); } else if c == b { NoOverlap(h, b, a); }
    }
    assert b != h.base;
  }

  lemma InsertSound(h: Heap, p: nat, b: nat)
    requires Sound(h) && b in h.live && Place(h, p, b)
    ensures Sound(Inserted(h, p, b))
  {
    InsertLinked(h.base, h.ptr, h.free, p, b);
    InsertOrdered(h, b);
    assert h.live[b] > 0 && OwnsRange(h.owner, b, h.live[b]);
  }

  // ---- taking a block off the list

  lemma RemoveLinked(base: nat, ptr: map<nat, nat>, free: set<nat>, p: nat, b: nat)
    requires Linked(base, ptr, free) && p in free && b == Next(ptr, p) && b != base
    ensures b in free && Linked(base, ptr[p := Next(ptr, b)], free - {b})
  {
    assert Next(ptr, p) in free && Follows(free, base, p, b);
    assert Next(ptr, b) in free && Follows(free, base, b, Next(ptr, b));
    var ptr', free' := ptr[p := Next(ptr, b)], free - {b};
    forall a | a in free' ensures a in ptr' && Next(ptr', a) in free' && Follows(free', base, a, Next(ptr', a)) {
      if a != p {
        assert Next(ptr', a) == Next(ptr, a);
        assert Next(ptr, a) != b by { assert Follows(free, base, a, Next(ptr, a)); }
      }
    }
  }

  // ---- merging neighbours

  function Renamed(owner: map<nat, nat>, a: nat, b: nat): map<nat, nat> {
    map u | u in owner :: if owner[u] == b then a else owner[u]
  }

  lemma RenameOther(owner: map<nat, nat>, a: nat, b: nat, x: nat, n: nat)
    requires OwnsRange(owner, x, n) && x != a && x != b
    ensures OwnsRange(Renamed(owner, a, b), x, n)
  {
  }

  lemma RenameMerged(owner: map<nat, nat>, a: nat, m: nat, n: nat)
    requires OwnsRange(owner, a, m) && OwnsRange(owner, a + m, n) && m > 0
    ensures OwnsRange(Renamed(owner, a, a + m), a, m + n)
  {
    assert forall u {:trigger Covers(a, m + n, u)} :: Covers(a, m + n, u) <==> Covers(a, m, u) || Covers(a + m, n, u);
  }

  /** Free block a swallows b, which follows it on the list and in memory. */
  function Merged(h: Heap, a: nat, b: nat): Heap requires a in h.size && b in h.size {
    h.(ptr := h.ptr[a := Next(h.ptr, b)], size := h.size[a := h.size[a] + h.size[b]], free := h.free - {b},
       owner := Renamed(h.owner, a, b))
  }

  ghost predicate Mergeable(h: Heap, a: nat, b: nat) {
    && a in h.free && b in h.free && a != h.base && b != h.base
    && a in h.size && b in h.size && b == Next(h.ptr, a) && a + h.size[a] == b
  }

  lemma MergeOwned(h: Heap, a: nat, b: nat)
    requires Ordered(h.base, h.size, h.free) && FreeOwned(h.base, h.size, h.free, h.owner) && Mergeable(h, a, b)
    ensures FreeOwned(h.base, Merged(h, a, b).size, h.free - {b}, Renamed(h.owner, a, b))
  {
    var t := Merged(h, a, b);
    forall x | x in t.free && x in t.size && x != h.base ensures OwnsRange(t.owner, x, t.size[x]) {
      if x == a {
        RenameMerged(h.owner, a, h.size[a], h.size[b]);
      } else {
        RenameOther(h.owner, a, b, x, h.size[x]);
      }
    }
  }

  lemma MergeLive(h: Heap, a: nat, b: nat, n: nat)
    requires LiveOwned(h.size, h.live, h.owner) && a !in h.live && b !in h.live
    ensures LiveOwned(h.size[a := n], h.live, Renamed(h.owner, a, b))
  {
    forall x | x in h.live ensures OwnsRange(Renamed(h.owner, a, b), x, h.live[x]) {
      RenameOther(h.owner, a, b, x, h.live[x]);
    }
  }

  lemma MergeSound(h: Heap, a: nat, b: nat)
    requires Sound(h) && Mergeable(h, a, b)
    ensures Sound(Merged(h, a, b))
  {
    RemoveLinked(h.base, h.ptr, h.free, a, b);
    MergeOrdered(h, a, b);
    MergeOwned(h, a, b);
    MergeLive(h, a, b, h.size[a] + h.size[b]);
    MergePartition(h, a, b);
  }

  lemma MergePartition(h: Heap, a: nat, b: nat)
    requires Partition(h.base, h.free, h.live, h.owner) && a in h.free && a != b && a != h.base
    ensures Partition(h.base, h.free - {b}, h.live, Renamed(h.owner, a, b))
  {
  }

  lemma MergeOrdered(h: Heap, a: nat, b: nat)
    requires Linked(h.base, h.ptr, h.free) && Ordered(h.base, h.size, h.free) && Mergeable(h, a, b)
    ensures Ordered(h.base, Merged(h, a, b).size, h.free - {b})
  {
    assert Follows(h.free, h.base, a, b);
  }

  /** Merging moves no unit between free and live. */
  lemma MergeUnits(h: Heap, a: nat, b: nat)
    requires a in h.size && b in h.size && a !in h.live && b !in h.live
    ensures NotLive(Merged(h, a, b)) == NotLive(h) && Merged(h, a, b).owner.Keys == h.owner.Keys
  {
  }

  // ---- coalescing

  /** Only block b may have a neighbour it could be merged with. */
  ghost predicate CoalescedBut(size: map<nat, nat>, free: set<nat>, b: nat) {
    Coalesced(size, free - {b})
  }

  ghost predicate ClearAbove(size: map<nat, nat>, free: set<nat>, b: nat) requires b in size {
    forall c | c in free && b < c :: b + size[b] != c
  }

  /** Insert b after p and merge it with its successor if they touch. */
  function MergedUp(h: Heap, p: nat, b: nat): Heap requires b in h.size {
    var n := Next(h.ptr, p);
    if b + h.size[b] == n && n in h.size then Merged(Inserted(h, p, b), b, n) else Inserted(h, p, b)
  }

  /** free(), given the place p of block b in use: insert, then merge up, then merge down. */
  function Freed(h: Heap, p: nat, b: nat): Heap requires b in h.size {
    MergedDown(MergedUp(h, p, b), p, b)
  }

  /** Merge b with its predecessor p if they touch. */
  function MergedDown(h: Heap, p: nat, b: nat): Heap {
    if p in h.size && b in h.size && p + h.size[p] == b then Merged(h, p, b) else h
  }

  lemma MergeUp(h: Heap, p: nat, b: nat)
    requires Valid(h) && b in h.live && Place(h, p, b)
    ensures b in h.size && b != h.base
    ensures var h2 := MergedUp(h, p, b);
      && Sound(h2) && CoalescedBut(h2.size, h2.free, b) && b in h2.free && b in h2.size
      && ClearAbove(h2.size, h2.free, b)
      && p in h2.free && Next(h2.ptr, p) == b && h2.base == h.base && h2.live == h.live - {b}
  {
    var n := Next(h.ptr, p);
    var h1 := Inserted(h, p, b);
    assert n in h.free && Follows(h.free, h.base, p, n);
    assert h.live[b] > 0;
    InsertSound(h, p, b);
    if b + h.size[b] == n {
      assert Next(h1.ptr, b) == n;
      MergeSound(h1, b, n);
    }
    NoOverlap(h, b, n);
    AboveClear(h, p, b, n);
  }

  lemma AboveClear(h: Heap, p: nat, b: nat, n: nat)
    requires Coalesced(h.size, h.free) && Ordered(h.base, h.size, h.free) && n in h.free && n == Next(h.ptr, p)
    requires p < b && b !in h.free && b in h.size && h.size[b] > 0 && Follows(h.free, h.base, p, n)
      && (n <= p || b + h.size[b] <= n)
    ensures var h2 := MergedUp(h, p, b);
      CoalescedBut(h2.size, h2.free, b) && b in h2.size && ClearAbove(h2.size, h2.free, b)
  {
  }

  lemma MergeDown(h: Heap, p: nat, b: nat)
    requires Sound(h) && CoalescedBut(h.size, h.free, b) && b in h.free && b in h.size && ClearAbove(h.size, h.free, b)
    requires p in h.free && p < b && Next(h.ptr, p) == b && b != h.base
    ensures p in h.size && Valid(MergedDown(h, p, b))
  {
    assert Follows(h.free, h.base, p, b);
    var t := MergedDown(h, p, b);
    if p + h.size[p] == b {
      assert p != h.base;
      MergeSound(h, p, b);
    }
    forall a, c | a in t.free && c in t.free && a < c && a in t.size ensures a + t.size[a] != c {
      assert a != b && c != b ==> a in h.free - {b} && c in h.free - {b};
      assert c == b && a != p ==> a + h.size[a] <= p;
    }
  }

  lemma FreedValid(h: Heap, p: nat, b: nat)
    requires Valid(h) && b in h.live && Place(h, p, b)
    ensures b in h.size && Valid(Freed(h, p, b))
    ensures Freed(h, p, b).live == h.live - {b} && Freed(h, p, b).base == h.base && p in Freed(h, p, b).free
  {
    MergeUp(h, p, b);
    MergeDown(MergedUp(h, p, b), p, b);
  }

  lemma MergedUpUnits(h: Heap, p: nat, b: nat)
    requires Sound(h) && b in h.live && Place(h, p, b)
    ensures b in h.size && MergedUp(h, p, b).owner.Keys == h.owner.Keys
    ensures NotLive(MergedUp(h, p, b)) == NotLive(h) + Units(b, h.live[b])
  {
    var n, h1 := Next(h.ptr, p), Inserted(h, p, b);
    assert n in h.free;
    assert NotLive(h1) == NotLive(h) + Units(b, h.live[b]) by { assert OwnsRange(h.owner, b, h.live[b]); }
    if b + h.size[b] == n && n in h.size { MergeUnits(h1, b, n); }
  }

  /** Freeing moves exactly the block's units from live to free. */
  lemma FreedUnits(h: Heap, p: nat, b: nat)
    requires Valid(h) && b in h.live && Place(h, p, b)
    ensures b in h.size && Freed(h, p, b).owner.Keys == h.owner.Keys
    ensures FreeUnits(Freed(h, p, b)) == FreeUnits(h) + Units(b, h.live[b])
  {
    MergedUpUnits(h, p, b);
    MergeUp(h, p, b);
    var h2 := MergedUp(h, p, b);
    assert p !in h2.live && b !in h2.live;
    if p in h2.size && b in h2.size && p + h2.size[p] == b { MergeUnits(h2, p, b); }
    FreedValid(h, p, b);
    FreeIs(h);
    FreeIs(Freed(h, p, b));
  }

  // ---- allocating

  /** Free block p, after q on the list, is handed out whole. */
  function Taken(h: Heap, q: nat, p: nat): Heap requires p in h.size {
    h.(ptr := h.ptr[q := Next(h.ptr, p)], free := h.free - {p}, live := h.live[p := h.size[p]])
  }

  lemma TakenValid(h: Heap, q: nat, p: nat)
    requires Valid(h) && q in h.free && p == Next(h.ptr, q) && p != h.base
    ensures p in h.free && p in h.size && Valid(Taken(h, q, p))
    ensures FreeUnits(Taken(h, q, p)) == FreeUnits(h) - Units(p, h.size[p])
  {
    RemoveLinked(h.base, h.ptr, h.free, q, p);
    TakenSound(h, q, p);
    TakenNotLive(h, q, p);
    FreeIs(h);
    FreeIs(Taken(h, q, p));
  }

  lemma TakenSound(h: Heap, q: nat, p: nat)
    requires Sound(h) && p in h.free && p in h.size && p != h.base
    requires Linked(h.base, h.ptr[q := Next(h.ptr, p)], h.free - {p})
    ensures Sound(Taken(h, q, p))
  {
    assert OwnsRange(h.owner, p, h.size[p]);
  }

  lemma TakenNotLive(h: Heap, q: nat, p: nat)
    requires p in h.size && p !in h.live && OwnsRange(h.owner, p, h.size[p])
    ensures NotLive(Taken(h, q, p)) == NotLive(h) - Units(p, h.size[p])
  {
  }

  /** The last n units of free block p are handed out. */
  function Split(h: Heap, p: nat, n: nat): Heap requires p in h.size && n <= h.size[p] {
    SplitAt(h, p, n, h.size[p] - n, p + h.size[p] - n)
  }

  /** Free block p keeps m units; the n units from b on are handed out. */
  function SplitAt(h: Heap, p: nat, n: nat, m: nat, b: nat): Heap {
    h.(size := h.size[p := m][b := n], live := h.live[b := n], owner := Reassigned(h.owner, b, n))
  }

  function Reassigned(owner: map<nat, nat>, b: nat, n: nat): map<nat, nat> {
    map u | u in owner :: if Covers(b, n, u) then b else owner[u]
  }

  lemma SplitOwner(owner: map<nat, nat>, p: nat, m: nat, n: nat, b: nat, x: nat, k: nat)
    requires b == p + m && OwnsRange(owner, p, m + n) && m > 0 && OwnsRange(owner, x, k) && x != p && x != b
    ensures OwnsRange(Reassigned(owner, b, n), x, k)
  {
    assert forall u {:trigger Covers(b, n, u)} :: Covers(b, n, u) ==> Covers(p, m + n, u);
  }

  lemma SplitHalves(owner: map<nat, nat>, p: nat, m: nat, n: nat, b: nat)
    requires b == p + m && OwnsRange(owner, p, m + n) && m > 0 && n > 0
    requires forall u {:trigger owner[u]} | u in owner :: owner[u] != b
    ensures OwnsRange(Reassigned(owner, b, n), p, m) && OwnsRange(Reassigned(owner, b, n), b, n)
  {
    assert forall u {:trigger Covers(b, n, u)} :: Covers(b, n, u) ==> Covers(p, m + n, u);
    assert forall u {:trigger Covers(p, m, u)} :: Covers(p, m, u) ==> Covers(p, m + n, u) && !Covers(b, n, u);
  }

  /** The split-off address starts no other block. */
  lemma SplitFresh(h: Heap, p: nat, n: nat)
    requires Sound(h) && p in h.free && p in h.size && 0 < n < h.size[p]
    ensures var b := p + h.size[p] - n; b !in h.free && b !in h.live && b != h.base
    ensures forall u {:trigger h.owner[u]} | u in h.owner :: h.owner[u] != p + h.size[p] - n
  {
    var b := p + h.size[p] - n;
    assert OwnsRange(h.owner, p, h.size[p]) && Covers(p, h.size[p], b);
    assert h.owner[b] == p;
    if b in h.live { assert OwnsRange(h.owner, b, h.live[b]) && h.live[b] > 0 && Covers(b, h.live[b], b); }
  }

  /** What a split of block p into m units and n units from b on rests on. */
  ghost predicate Splittable(h: Heap, p: nat, n: nat, m: nat, b: nat) {
    && p in h.size && h.size[p] == m + n && m > 0 && n > 0 && b == p + m && OwnsRange(h.owner, p, m + n)
    && p in h.free && p !in h.live && b !in h.free && b !in h.live
    && forall u {:trigger h.owner[u]} | u in h.owner :: h.owner[u] != b
  }

  lemma SplitFreeOwned(h: Heap, p: nat, n: nat, m: nat, b: nat)
    requires FreeOwned(h.base, h.size, h.free, h.owner) && Splittable(h, p, n, m, b)
    ensures FreeOwned(h.base, h.size[p := m][b := n], h.free, Reassigned(h.owner, b, n))
  {
    var size', owner' := h.size[p := m][b := n], Reassigned(h.owner, b, n);
    SplitHalves(h.owner, p, m, n, b);
    forall x | x in h.free && x in size' && x != h.base ensures OwnsRange(owner', x, size'[x]) {
      if x != p { SplitOwner(h.owner, p, m, n, b, x, h.size[x]); }
    }
  }

  lemma SplitLiveOwned(h: Heap, p: nat, n: nat, m: nat, b: nat)
    requires LiveOwned(h.size, h.live, h.owner) && Splittable(h, p, n, m, b)
    ensures LiveOwned(h.size[p := m][b := n], h.live[b := n], Reassigned(h.owner, b, n))
  {
    var live', owner' := h.live[b := n], Reassigned(h.owner, b, n);
    SplitHalves(h.owner, p, m, n, b);
    forall x | x in live' ensures OwnsRange(owner', x, live'[x]) {
      if x != b { SplitOwner(h.owner, p, m, n, b, x, h.live[x]); }
    }
  }

  lemma SplitOrdered(h: Heap, p: nat, n: nat, m: nat, b: nat)
    requires Ordered(h.base, h.size, h.free) && Coalesced(h.size, h.free) && Splittable(h, p, n, m, b)
    ensures Ordered(h.base, h.size[p := m][b := n], h.free) && Coalesced(h.size[p := m][b := n], h.free)
  {
    var size' := h.size[p := m][b := n];
    forall a, c | a in h.free && c in h.free && a < c ensures a + size'[a] <= c && a + size'[a] != c {
      assert a + h.size[a] <= c && a + h.size[a] != c;
    }
  }

  lemma SplitValid(h: Heap, p: nat, n: nat)
    requires Valid(h) && p in h.free && p in h.size && 0 < n < h.size[p]
    ensures Valid(Split(h, p, n))
  {
    var m, b := h.size[p] - n, p + h.size[p] - n;
    assert Split(h, p, n) == SplitAt(h, p, n, m, b);
    SplitAtValid(h, p, n, m, b);
  }

  lemma SplitAtValid(h: Heap, p: nat, n: nat, m: nat, b: nat)
    requires Valid(h) && p in h.free && p in h.size && h.size[p] == m + n && m > 0 && n > 0 && b == p + m
    ensures Valid(SplitAt(h, p, n, m, b))
  {
    SplitReady(h, p, n, m, b);
    SplitFreeOwned(h, p, n, m, b);
    SplitLiveOwned(h, p, n, m, b);
    SplitOrdered(h, p, n, m, b);
    SplitPartition(h, p, n, m, b);
  }

  lemma SplitReady(h: Heap, p: nat, n: nat, m: nat, b: nat)
    requires Sound(h) && p in h.free && p in h.size && h.size[p] == m + n && m > 0 && n > 0 && b == p + m
    ensures Splittable(h, p, n, m, b)
  {
    assert p != h.base;
    SplitFresh(h, p, n);
  }

  lemma SplitPartition(h: Heap, p: nat, n: nat, m: nat, b: nat)
    requires Partition(h.base, h.free, h.live, h.owner) && Splittable(h, p, n, m, b)
    ensures Partition(h.base, h.free, h.live[b := n], Reassigned(h.owner, b, n))
  {
  }

  lemma SplitNotLive(h: Heap, p: nat, n: nat)
    requires Valid(h) && p in h.free && p in h.size && 0 < n < h.size[p]
    ensures NotLive(Split(h, p, n)) == NotLive(h) - Units(p + h.size[p] - n, n)
    ensures Split(h, p, n).owner.Keys == h.owner.Keys
  {
    SplitFresh(h, p, n);
    assert OwnsRange(h.owner, p, h.size[p]);
  }

  lemma SplitUnits(h: Heap, p: nat, n: nat)
    requires Valid(h) && p in h.free && p in h.size && 0 < n < h.size[p]
    ensures FreeUnits(Split(h, p, n)) == FreeUnits(h) - Units(p + h.size[p] - n, n)
    ensures Split(h, p, n).owner.Keys == h.owner.Keys
  {
    SplitNotLive(h, p, n);
    SplitValid(h, p, n);
    var t := Split(h, p, n);
    FreeIs(h);
    FreeIs(t);
  }

  // ---- growing

  /** Memory from sbrk, marked as a block in use for morecore to free. */
  function Grown(h: Heap, a: nat, n: nat): Heap {
    h.(size := h.size[a := n], live := h.live[a := n],
       owner := h.owner + map u | a <= u < a + n && Covers(a, n, u) :: a)
  }

  lemma GrownOwns(h: Heap, a: nat, n: nat, x: nat, k: nat)
    requires forall u | u in h.owner :: u < a
    requires OwnsRange(h.owner, x, k) && x != a
    ensures OwnsRange(Grown(h, a, n).owner, x, k)
  {
  }

  lemma GrownFresh(h: Heap, a: nat, x: nat)
    requires Sound(h) && h.base < a && (forall u | u in h.owner :: u < a) && (x in h.free || x in h.live)
    ensures x < a
  {
    if x in h.live {
      assert h.live[x] > 0 && OwnsRange(h.owner, x, h.live[x]) && Covers(x, h.live[x], x);
    } else if x != h.base {
      assert h.size[x] > 0 && OwnsRange(h.owner, x, h.size[x]) && Covers(x, h.size[x], x);
    }
  }

  lemma GrownFree(h: Heap, a: nat, n: nat)
    requires FreeOwned(h.base, h.size, h.free, h.owner) && a !in h.free && forall u | u in h.owner :: u < a
    ensures FreeOwned(h.base, Grown(h, a, n).size, h.free, Grown(h, a, n).owner)
  {
    var t := Grown(h, a, n);
    forall x | x in h.free && x in t.size && x != h.base ensures OwnsRange(t.owner, x, t.size[x]) {
      GrownOwns(h, a, n, x, h.size[x]);
    }
  }

  lemma GrownLive(h: Heap, a: nat, n: nat)
    requires LiveOwned(h.size, h.live, h.owner) && Partition(h.base, h.free, h.live, h.owner)
    requires 0 < n && a !in h.live && a !in h.free && forall u | u in h.owner :: u < a
    ensures LiveOwned(Grown(h, a, n).size, Grown(h, a, n).live, Grown(h, a, n).owner)
  {
    var t := Grown(h, a, n);
    forall x | x in t.live ensures OwnsRange(t.owner, x, t.live[x]) {
      if x != a { GrownOwns(h, a, n, x, h.live[x]); }
    }
  }

  lemma GrownValid(h: Heap, a: nat, n: nat)
    requires Valid(h) && 0 < n && h.base < a && forall u | u in h.owner :: u < a
    ensures Valid(Grown(h, a, n)) && a !in h.free && a !in h.live
  {
    if a in h.free || a in h.live { GrownFresh(h, a, a); }
    GrownFree(h, a, n);
    GrownLive(h, a, n);
  }
}
