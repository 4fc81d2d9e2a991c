/** The code of guest/xv6/user/umalloc.c: first fit over a circular free list in address
    order, with the list rewritten in place. */
module KrMalloc {
  import opened KrHeap
  import opened Options

  const UNIT: nat := 16                      // sizeof(Header)
  const U32: nat := 0x1_0000_0000
  const INT_LIMIT: nat := 0x8000_0000        // sbrk takes an int
  const MIN_UNITS: nat := 4096               // the least morecore asks for

  /** Garbled: the number of bytes does not fit sbrk's int argument, so that what comes back
      has nothing to do with what was asked for. */
  datatype Outcome = Null | At(addr: nat) | Garbled

  /** A header and enough units for nbytes, with less than one unit to spare. */
  function UnitsFor(nbytes: nat): (n: nat)
    ensures nbytes <= (n - 1) * UNIT < nbytes + UNIT
  {
    (nbytes + UNIT - 1) / UNIT + 1
  }

  function SbrkUnits(nunits: nat): nat { if nunits < MIN_UNITS then MIN_UNITS else nunits }

  /** The number of bytes as sbrk's int argument. */
  function SbrkArg(nunits: nat): int {
    var low := SbrkUnits(nunits) * UNIT % U32;
    if low < INT_LIMIT then low else low - U32
  }

  /** The request for n units reaches sbrk unchanged. */
  predicate SbrkExact(nunits: nat) { SbrkArg(nunits) == SbrkUnits(nunits) * UNIT }

  /** One byte more than fits asks sbrk to give memory back; 2^32 - 1 bytes ask it for one unit,
      which morecore then puts on the list as 2^28 + 1 of them. */
  lemma SbrkGarbled()
    ensures SbrkArg(UnitsFor(INT_LIMIT - 2 * UNIT + 1)) == 0 - (INT_LIMIT as int)
    ensures SbrkArg(UnitsFor(U32 - 1)) == UNIT && SbrkUnits(UnitsFor(U32 - 1)) == 0x1000_0001
  {
  }

  /** Exactly the requests of up to 2^31 - 32 bytes can be passed on to sbrk. */
  lemma SbrkExactIff(nbytes: nat)
    requires nbytes < U32
    ensures SbrkExact(UnitsFor(nbytes)) <==> nbytes <= INT_LIMIT - 2 * UNIT
  {
  }

  lemma {:induction false} Bounded(s: set<nat>) returns (top: nat)
    ensures forall x | x in s :: x <= top
  {
    if s == {} {
      top := 0;
    } else {
      var y :| y in s;
      var t := Bounded(s - {y});
      top := if y < t then t else y;
      forall x | x in s ensures x <= top { assert x == y || x in s - {y}; }
    }
  }

  /** The free blocks the search has looked at, from after `freep` up to `last`. */
  ghost predicate LookedAt(freep: nat, last: nat, x: nat) {
    if last == freep then false
    else if freep < last then freep < x <= last
    else freep < x || x <= last
  }

  lemma LookNext(h: Heap, freep: nat, last: nat, x: nat)
    requires Linked(h.base, h.ptr, h.free) && freep in h.free && last in h.free && x in h.free
    requires Next(h.ptr, last) != freep && LookedAt(freep, Next(h.ptr, last), x)
    ensures LookedAt(freep, last, x) || x == Next(h.ptr, last)
  {
    assert Follows(h.free, h.base, last, Next(h.ptr, last));
  }

  /** Coming back to `freep`, the search has looked at every other free block. */
  lemma LookedAtAll(h: Heap, freep: nat, last: nat, x: nat)
    requires Linked(h.base, h.ptr, h.free) && freep in h.free && last in h.free && x in h.free
    requires Next(h.ptr, last) == freep && x != freep
    ensures LookedAt(freep, last, x)
  {
    assert Follows(h.free, h.base, last, freep);
  }

  /** How far p is from `freep`, going up and around. */
  function Ahead(freep: nat, top: nat, p: nat): int { if p > freep then 1 + freep + top - p + 1 else freep - p }

  lemma AheadShrinks(h: Heap, freep: nat, top: nat, p: nat)
    requires Linked(h.base, h.ptr, h.free) && freep in h.free && p in h.free && p != freep
    requires forall x | x in h.free :: x <= top
    ensures 0 <= Ahead(freep, top, Next(h.ptr, p)) < Ahead(freep, top, p)
  {
    assert Next(h.ptr, p) in h.free && Follows(h.free, h.base, p, Next(h.ptr, p));
  }

  /** A freed block leaves a free block at least as large. */
  lemma FreedFits(h: Heap, p: nat, b: nat)
    requires KrHeap.Valid(h) && b in h.live && Place(h, p, b)
    ensures var t := Freed(h, p, b); exists x :: x in t.free && x in t.size && t.size[x] >= h.live[b]
  {
    FreedValid(h, p, b);
    var h2, t := MergedUp(h, p, b), Freed(h, p, b);
    MergeUp(h, p, b);
    if p in h2.size && b in h2.size && p + h2.size[p] == b {
      assert p in t.free && t.size[p] >= h.live[b];
    } else {
      assert b in t.free && t.size[b] >= h.live[b];
    }
  }

  class Allocator {
    const base: nat
    var ptr: map<nat, nat>
    var size: map<nat, nat>
    var freep: nat              // 0 until the first malloc
    ghost var heap: Heap        // what the headers mean

    ghost predicate Valid()
      reads this
    {
      && base > 0 && heap.base == base && heap.ptr == ptr && heap.size == size
      && if freep == 0 then heap.free == {} && heap.live == map[] && heap.owner == map[]
         else KrHeap.Valid(heap) && freep in heap.free
    }

    constructor (base: nat)
      requires base > 0
      ensures Valid() && freep == 0 && this.base == base
    {
      this.base := base;
      ptr, size, freep := map[], map[], 0;
      heap := Heap(base, map[], map[], {}, map[], map[]);
    }

    /** The search loop of free(): the block after which bp belongs. */
    method FindPlace(bp: nat) returns (p: nat)
      requires Valid() && freep != 0 && bp in heap.live
      ensures Place(heap, p, bp)
    {
      ghost var top := Bounded(heap.free);
      LiveAboveBase(heap, bp);
      p := freep;
      while !(bp > p && bp < Next(ptr, p))
        invariant p in heap.free && p != bp
        decreases p > bp, if p < bp then bp - p else top - p
      {
        assert Next(ptr, p) in heap.free && Follows(heap.free, base, p, Next(ptr, p));
        if p >= Next(ptr, p) && (bp > p || bp < Next(ptr, p)) { break; }
        p := Next(ptr, p);
      }
    }

    /** free(ap) of a block in use. */
    method Free(ap: nat)
      requires Valid() && freep != 0 && ap > 0 && ap - 1 in heap.live
      modifies this`ptr, this`size, this`freep, this`heap
      ensures Valid() && freep != 0
      ensures heap.live == old(heap.live) - {ap - 1} && heap.owner.Keys == old(heap.owner.Keys)
      ensures FreeUnits(heap) == old(FreeUnits(heap)) + Units(ap - 1, old(heap.live[ap - 1]))
      ensures Fits(heap, old(heap.live[ap - 1]))
    {
      var bp := ap - 1;
      var p := FindPlace(bp);
      FreedAll(heap, p, bp);
      SpliceUp(p, bp, heap);
      SpliceDown(p, bp, MergedUp(heap, p, bp));
      heap := Freed(heap, p, bp);
    }

    /** Link bp to what follows p, taking in the next block if it starts where bp ends. */
    method SpliceUp(p: nat, bp: nat, ghost h: Heap)
      requires ptr == h.ptr && size == h.size
      requires p in size && bp in size && Next(ptr, p) in size && p < bp
        && (bp + size[bp] == Next(ptr, p) ==> bp < Next(ptr, p))
      modifies this`ptr, this`size
      ensures ptr[p := bp] == MergedUp(h, p, bp).ptr && size == MergedUp(h, p, bp).size
    {
      var n := Next(ptr, p);
      if bp + size[bp] == n {
        size := size[bp := size[bp] + size[n]];
        ptr := ptr[bp := Next(ptr, n)];
      } else {
        ptr := ptr[bp := n];
      }
    }

    /** Link p to bp, or let p take bp in. */
    method SpliceDown(p: nat, bp: nat, ghost h: Heap)
      requires p < bp && p in size && bp in size && ptr[p := bp] == h.ptr && size == h.size
      modifies this`ptr, this`size, this`freep
      ensures freep == p && ptr == MergedDown(h, p, bp).ptr && size == MergedDown(h, p, bp).size
    {
      ghost var before := ptr;
      if p + size[p] == bp {
        size := size[p := size[p] + size[bp]];
        ptr := ptr[p := Next(ptr, bp)];
        assert Next(before, bp) == Next(before[p := bp], bp);
      } else {
        ptr := ptr[p := bp];
      }
      freep := p;
    }

    /** morecore: put the memory sbrk returned, at `grant`, on the free list. */
    method Morecore(nunits: nat, grant: nat)
      requires Valid() && freep != 0 && nunits > 0 && base < grant && forall u | u in heap.owner :: u < grant
      modifies this`ptr, this`size, this`freep, this`heap
      ensures Valid() && freep != 0 && heap.live == old(heap.live)
      ensures heap.owner.Keys == old(heap.owner.Keys) + Units(grant, SbrkUnits(nunits))
      ensures FreeUnits(heap) == old(FreeUnits(heap)) + Units(grant, SbrkUnits(nunits))
      ensures Fits(heap, nunits)
    {
      var nu := nunits;
      if nu < MIN_UNITS { nu := MIN_UNITS; }
      GrownAll(heap, grant, nu);
      heap := Grown(heap, grant, nu);
      size := size[grant := nu];
      Free(grant + 1);
    }

    /** One turn of the search of malloc, from after `freep` all the way round: a block of at
        least nunits and its predecessor, if there is one. */
    method FindFit(nunits: nat) returns (prevp: nat, p: nat, found: bool)
      requires Valid() && freep != 0 && nunits > 0
      ensures found ==>
        prevp in heap.free && p == Next(ptr, prevp) && p in heap.free && p != base && p in size && size[p] >= nunits
      ensures found <==> Fits(heap, nunits)
    {
      ghost var top := Bounded(heap.free);
      prevp := freep;
      p := Next(ptr, prevp);
      while true
        invariant prevp in heap.free && p == Next(ptr, prevp)
        invariant forall x | x in heap.free && x in size && LookedAt(freep, prevp, x) :: size[x] < nunits
        decreases Ahead(freep, top, p)
      {
        FitStep(heap, prevp, nunits);
        if size[p] >= nunits { return prevp, p, true; }
        if p == freep {
          forall x | x in heap.free && x in size ensures size[x] < nunits {
            if x != freep { LookedAtAll(heap, freep, prevp, x); }
          }
          return prevp, p, false;
        }
        forall x | x in heap.free && x in size && LookedAt(freep, p, x) ensures size[x] < nunits {
          LookNext(heap, freep, prevp, x);
        }
        AheadShrinks(heap, freep, top, p);
        prevp := p;
        p := Next(ptr, p);
      }
    }

    /** The first call: an empty list that holds only `base`. */
    method Start()
      requires Valid() && freep == 0
      modifies this`ptr, this`size, this`freep, this`heap
      ensures Valid() && freep != 0 && heap.live == old(heap.live) && heap.owner == old(heap.owner)
      ensures forall n | n > 0 :: !Fits(heap, n)
    {
      ptr, freep := ptr[base := base], base;
      size := size[base := 0];
      heap := Heap(base, ptr, size, {base}, map[], map[]);
      assert Follows(heap.free, base, base, Next(ptr, base));
    }

    /** Hand out all of free block p, which follows prevp. */
    method CutWhole(prevp: nat, p: nat)
      requires Valid() && freep != 0 && prevp in heap.free && p == Next(ptr, prevp) && p != base && p in size
      modifies this`ptr, this`freep, this`heap
      ensures Valid() && freep != 0 && HandedOut(old(heap), heap, p, size[p])
    {
      TakenAll(heap, prevp, p);
      heap := Taken(heap, prevp, p);
      ptr := ptr[prevp := Next(ptr, p)];
      freep := prevp;
    }

    /** Hand out the last nunits of free block p. */
    method CutTail(prevp: nat, p: nat, nunits: nat) returns (b: nat)
      requires Valid() && freep != 0 && prevp in heap.free && p in heap.free && p in size && 0 < nunits < size[p]
      modifies this`size, this`freep, this`heap
      ensures Valid() && freep != 0 && HandedOut(old(heap), heap, b, nunits)
    {
      var left := size[p] - nunits;
      b := p + left;
      ghost var t := Split(heap, p, nunits);
      SplitAll(heap, p, prevp, nunits, b, t);
      size := size[p := left][b := nunits];
      heap := t;
      freep := prevp;
    }

    method Cut(prevp: nat, p: nat, nunits: nat) returns (b: nat)
      requires Valid() && freep != 0 && nunits > 0
      requires prevp in heap.free && p == Next(ptr, prevp) && p in heap.free && p != base && p in size
        && size[p] >= nunits
      modifies this`ptr, this`size, this`freep, this`heap
      ensures Valid() && freep != 0 && HandedOut(old(heap), heap, b, nunits)
    {
      if size[p] == nunits {
        CutWhole(prevp, p);
        b := p;
      } else {
        b := CutTail(prevp, p, nunits);
      }
    }

    /** The loop of malloc. `grant` is what sbrk answers if it is asked: nothing, or memory
        above all it gave before. The list is searched once, and once more after it has grown. */
    method FirstFit(nunits: nat, grant: Option<nat>) returns (r: Outcome)
      requires Valid() && freep != 0 && nunits > 0
      requires grant.Some? ==> base < grant.value && forall u | u in heap.owner :: u < grant.value
      modifies this`ptr, this`size, this`freep, this`heap
      ensures Valid() && freep != 0 && Answered(old(heap), heap, nunits, grant, r)
    {
      var prevp, p, found := FindFit(nunits);
      if !found {
        if !SbrkExact(nunits) { return Garbled; }
        if grant.None? { return Null; }
        ghost var h, more := heap, Units(grant.value, SbrkUnits(nunits));
        Morecore(nunits, grant.value);
        ghost var g := heap;
        prevp, p, found := FindFit(nunits);
        var a := Cut(prevp, p, nunits);
        AfterMore(h, g, heap, a, nunits, more);
        return At(a + 1);
      }
      var b := Cut(prevp, p, nunits);
      r := At(b + 1);
    }

    /** malloc(nbytes) */
    method Malloc(nbytes: nat, grant: Option<nat>) returns (r: Outcome)
      requires Valid() && nbytes < U32
      requires grant.Some? ==> base < grant.value && forall u | u in heap.owner :: u < grant.value
      modifies this`ptr, this`size, this`freep, this`heap
      ensures Valid() && freep != 0 && Answered(old(heap), heap, UnitsFor(nbytes), grant, r)
    {
      ghost var h := heap;
      if freep == 0 { Start(); }
      assert Fits(h, UnitsFor(nbytes)) == Fits(heap, UnitsFor(nbytes));
      r := FirstFit((nbytes + UNIT - 1) / UNIT + 1, grant);
    }
  }

  /** What malloc answers. If a free block fits, a block from the free units; if not, a block
      from the free units and those sbrk gave, or nothing. */
  ghost predicate Answered(h: Heap, t: Heap, n: nat, grant: Option<nat>, r: Outcome) {
    if Fits(h, n) then r.At? && r.addr > 0 && HandedOut(h, t, r.addr - 1, n)
    else match r
      case At(a) => SbrkExact(n) && grant.Some? && a > 0
        && AllocatedFrom(h, t, a - 1, n, Units(grant.value, SbrkUnits(n)))
      case Null => SbrkExact(n) && grant.None? && t.live == h.live && t.owner == h.owner
      case Garbled => !SbrkExact(n) && t.live == h.live && t.owner == h.owner
  }

  /** Block b of n units, taken from free units, is the only new block in use. */
  ghost predicate HandedOut(h: Heap, t: Heap, b: nat, n: nat) {
    && b !in h.live && t.live == h.live[b := n] && t.owner.Keys == h.owner.Keys
    && Units(b, n) <= FreeUnits(h) && FreeUnits(t) == FreeUnits(h) - Units(b, n)
  }

  /** The same, after the units `more` were obtained. */
  ghost predicate AllocatedFrom(h: Heap, t: Heap, b: nat, n: nat, more: set<nat>) {
    && b !in h.live && t.live == h.live[b := n] && t.owner.Keys == h.owner.Keys + more
    && Units(b, n) <= FreeUnits(h) + more && FreeUnits(t) == FreeUnits(h) + more - Units(b, n)
  }

  lemma AfterMore(h: Heap, g: Heap, t: Heap, b: nat, n: nat, more: set<nat>)
    requires g.live == h.live && g.owner.Keys == h.owner.Keys + more && FreeUnits(g) == FreeUnits(h) + more
    requires HandedOut(g, t, b, n)
    ensures AllocatedFrom(h, t, b, n, more)
  {
  }

  /** A new block shares no unit with a block already in use. */
  lemma NewBlockIsDisjoint(h: Heap, t: Heap, b: nat, n: nat, more: set<nat>, a: nat)
    requires Sound(h) && AllocatedFrom(h, t, b, n, more) && more !! h.owner.Keys && a in h.live
    ensures Units(a, h.live[a]) !! Units(b, n)
  {
    FreeIs(h);
    assert OwnsRange(h.owner, a, h.live[a]);
    forall u | u in Units(a, h.live[a]) ensures u !in Units(b, n) {
      assert Covers(a, h.live[a], u);
    }
  }

  /** Freeing a block just handed out restores the blocks in use and the free units. */
  lemma FreeUndoesMalloc(h: Heap, t: Heap, p: nat, b: nat, n: nat)
    requires HandedOut(h, t, b, n) && KrHeap.Valid(t) && Place(t, p, b)
    ensures b in t.size && Freed(t, p, b).live == h.live && FreeUnits(Freed(t, p, b)) == FreeUnits(h)
    ensures Freed(t, p, b).owner.Keys == h.owner.Keys
  {
    FreedValid(t, p, b);
    FreedUnits(t, p, b);
  }

  lemma TakenAll(h: Heap, q: nat, p: nat)
    requires KrHeap.Valid(h) && q in h.free && p == Next(h.ptr, q) && p != h.base && h.base > 0
    ensures q > 0 && q != p && p in h.size && q in Taken(h, q, p).free && KrHeap.Valid(Taken(h, q, p))
    ensures HandedOut(h, Taken(h, q, p), p, h.size[p])
  {
    TakenValid(h, q, p);
    assert Follows(h.free, h.base, q, p);
    assert OwnsRange(h.owner, p, h.size[p]);
  }

  lemma SplitAll(h: Heap, p: nat, q: nat, n: nat, b: nat, t: Heap)
    requires KrHeap.Valid(h) && p in h.free && p in h.size && 0 < n < h.size[p] && h.base > 0 && q in h.free
    requires b == p + h.size[p] - n && t == Split(h, p, n)
    ensures q > 0 && q in t.free && KrHeap.Valid(t) && HandedOut(h, t, b, n)
  {
    SplitFresh(h, p, n);
    SplitValid(h, p, n);
    SplitUnits(h, p, n);
    FreeIs(h);
    assert OwnsRange(h.owner, p, h.size[p]);
    forall u | u in Units(p + h.size[p] - n, n) ensures u in FreeUnits(h) { assert Covers(p, h.size[p], u); }
  }

  /** Some free block has at least n units. */
  ghost predicate Fits(h: Heap, n: nat) { exists x :: x in h.free && x in h.size && h.size[x] >= n }

  lemma FreedAll(h: Heap, p: nat, b: nat)
    requires KrHeap.Valid(h) && h.base > 0 && b in h.live && Place(h, p, b)
    ensures p in h.size && b in h.size && Next(h.ptr, p) in h.size
      && (b + h.size[b] == Next(h.ptr, p) ==> b < Next(h.ptr, p))
    ensures p in MergedUp(h, p, b).size && b in MergedUp(h, p, b).size
    ensures p in Freed(h, p, b).free && p != 0
    ensures KrHeap.Valid(Freed(h, p, b)) && Freed(h, p, b).live == h.live - {b} && Freed(h, p, b).base == h.base
    ensures Freed(h, p, b).owner.Keys == h.owner.Keys && FreeUnits(Freed(h, p, b)) == FreeUnits(h) + Units(b, h.live[b])
    ensures Fits(Freed(h, p, b), h.live[b])
  {
    FreedValid(h, p, b);
    FreedUnits(h, p, b);
    FreedFits(h, p, b);
    PlaceSizes(h, p, b);
  }

  lemma FitStep(h: Heap, prevp: nat, nunits: nat)
    requires Sound(h) && prevp in h.free && nunits > 0
    ensures var p := Next(h.ptr, prevp);
      p in h.free && p in h.size && Next(h.ptr, p) in h.free && (h.size[p] >= nunits ==> p != prevp && p != h.base)
  {
    assert Follows(h.free, h.base, prevp, Next(h.ptr, prevp));
    assert Next(h.ptr, prevp) in h.free;
    assert Next(h.ptr, Next(h.ptr, prevp)) in h.free;
  }

  lemma GrownAll(h: Heap, a: nat, n: nat)
    requires KrHeap.Valid(h) && 0 < n && h.base < a && forall u | u in h.owner :: u < a
    ensures KrHeap.Valid(Grown(h, a, n)) && Grown(h, a, n).live - {a} == h.live
    ensures FreeUnits(Grown(h, a, n)) == FreeUnits(h)
    ensures Grown(h, a, n).owner.Keys == h.owner.Keys + Units(a, n)
  {
    GrownValid(h, a, n);
    GrownUnits(h, a, n);
    FreeIs(h);
    FreeIs(Grown(h, a, n));
  }

  lemma GrownUnits(h: Heap, a: nat, n: nat)
    requires KrHeap.Valid(h) && a !in h.live && forall u | u in h.owner :: u < a
    ensures NotLive(Grown(h, a, n)) == NotLive(h)
    ensures Grown(h, a, n).owner.Keys == h.owner.Keys + Units(a, n)
  {
    var t := Grown(h, a, n);
    forall u | u in t.owner ensures u in NotLive(t) <==> u in NotLive(h) {
      if u in h.owner { assert t.owner[u] == h.owner[u]; }
    }
  }

  lemma LiveAboveBase(h: Heap, b: nat)
    requires Sound(h) && b in h.live
    ensures h.base < b && b !in h.free
  {
    assert h.live[b] > 0 && OwnsRange(h.owner, b, h.live[b]) && Covers(b, h.live[b], b);
    assert h.owner[b] == b;
  }

  lemma PlaceSizes(h: Heap, p: nat, b: nat)
    requires Sound(h) && b in h.live && Place(h, p, b)
    ensures p in h.size && b in h.size && Next(h.ptr, p) in h.size && h.size[b] > 0
    ensures b + h.size[b] == Next(h.ptr, p) ==> p < b < Next(h.ptr, p)
    ensures p > 0 || p == h.base
  {
    assert Next(h.ptr, p) in h.free && Follows(h.free, h.base, p, Next(h.ptr, p));
    assert h.live[b] > 0;
  }
}
