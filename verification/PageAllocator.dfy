/** The bitmap page allocator of src/page_alloc.c: 64-bit words, a next-fit hint, and a
    search that wraps around the end of the pool. */
module PageAllocator {
  import opened Bits

  const U64: nat := 0x1_0000_0000_0000_0000
  const WORD: nat := 64
  const PFNS: nat := 0x10_0000_0000_0000   // page frames of a 64-bit address space

  datatype Found = NotFound | At(start: nat)

  /** PastEnd: the answer of a multi-page search ran over the end of the pool. `bits` tells whether
      the bitmap has that many bits; if not, the code goes on to write outside it. */
  datatype Allocated = NoMemory | Pages(start: nat, phys: nat) | PastEnd(start: nat, bits: bool)

  /** The k-th page the search looks at: from the hint to the end, then from 0 to the hint. */
  function Visited(total: nat, hint: nat, k: nat): nat
  {
    if hint + k < total then hint + k else hint + k - total
  }

  /** From the m-th visited page on, nr pages in a row are free. */
  ghost predicate FreeRun(free: set<nat>, total: nat, hint: nat, m: nat, nr: nat)
  {
    forall k | m <= k < m + nr :: Visited(total, hint, k) in free
  }

  ghost predicate FirstRun(free: set<nat>, total: nat, hint: nat, m: nat, nr: nat)
  {
    && m + nr <= total && FreeRun(free, total, hint, m, nr)
    && forall j | 0 <= j < m :: !FreeRun(free, total, hint, j, nr)
  }

  ghost predicate NoRun(free: set<nat>, total: nat, hint: nat, nr: nat) {
    forall m: nat | m + nr <= total :: !FreeRun(free, total, hint, m, nr)
  }

  ghost predicate FoundRun(free: set<nat>, total: nat, hint: nat, start: nat, nr: nat) {
    exists m: nat :: FirstRun(free, total, hint, m, nr) && start == Visited(total, hint, m)
  }

  class PageAllocator {
    const bitmap: array<nat>
    const total: nat
    const basePfn: nat
    var lastAlloc: nat

    /** The hint may lie past the end of the pool, but then all bits up to it are set. */
    ghost predicate Valid()
      reads this, bitmap
    {
      && 0 < total && total <= bitmap.Length * WORD
      && basePfn + total < PFNS
      && (forall i | 0 <= i < bitmap.Length :: bitmap[i] < One(WORD))
      && lastAlloc <= bitmap.Length * WORD && forall i: nat | total <= i < lastAlloc :: Used(i)
    }

    /** Where the search begins, in the pool. */
    ghost function Hint(): nat
      reads this
    {
      if lastAlloc < total then lastAlloc else total
    }

    /** test_bit */
    predicate Used(i: nat)
      requires i < bitmap.Length * WORD
      reads bitmap
    {
      Bit(bitmap[i / WORD], i % WORD)
    }

    /** The abstract value: the set of free page numbers. */
    ghost function FreeSet(): set<nat>
      requires total <= bitmap.Length * WORD
      reads bitmap
    {
      set i: nat | i < total && !Used(i)
    }

    /** page_allocator_init over a bitmap with any contents. */
    constructor (buf: array<nat>, total: nat, phys: nat)
      requires 0 < total <= buf.Length * WORD && phys / 4096 + total < PFNS
      requires forall i | 0 <= i < buf.Length :: buf[i] < One(WORD)
      modifies buf
      ensures Valid() && bitmap == buf && this.total == total && basePfn == phys / 4096 && lastAlloc == 0
      ensures FreeSet() == InitFree(old(buf[..]), total)
    {
      bitmap := buf;
      this.total := total;
      basePfn := phys / 4096;
      lastAlloc := 0;
      new;
      ClearedFits(total, buf.Length);
      var i := 0;
      while i < Cleared(total)
        invariant i <= Cleared(total) && Valid() && lastAlloc == 0
        invariant forall j: nat | j < bitmap.Length * WORD :: Used(j) <==> i <= j && BitAt(old(buf[..]), j)
      {
        ClearBit(i);
        i := i + 1;
      }
    }

    method SetBit(nr: nat)
      requires Valid() && nr < bitmap.Length * WORD
      modifies bitmap
      ensures forall i: nat | i < bitmap.Length * WORD :: Used(i) <==> i == nr || old(Used(i))
      ensures Valid()
    {
      var w, k := nr / WORD, nr % WORD;
      OneFits(k, WORD);
      OrFits(bitmap[w], One(k), WORD);
      forall j: nat ensures Bit(Or(bitmap[w], One(k)), j) <==> j == k || Bit(bitmap[w], j) {
        BitOr(bitmap[w], One(k), j);
        BitOne(k, j);
      }
      bitmap[w] := Or(bitmap[w], One(k));
      assert forall i: nat | i < bitmap.Length * WORD :: Used(i) <==> i == nr || old(Used(i));
    }

    method ClearBit(nr: nat)
      requires Valid() && nr < bitmap.Length * WORD
      modifies bitmap
      ensures forall i: nat | i < bitmap.Length * WORD :: Used(i) <==> i != nr && old(Used(i))
      ensures nr < total || lastAlloc <= nr ==> Valid()
    {
      var w, k := nr / WORD, nr % WORD;
      AndNotFits(bitmap[w], One(k));
      forall j: nat ensures Bit(AndNot(bitmap[w], One(k)), j) <==> j != k && Bit(bitmap[w], j) {
        BitAndNot(bitmap[w], One(k), j);
        BitOne(k, j);
      }
      bitmap[w] := AndNot(bitmap[w], One(k));
      assert forall i: nat | i < bitmap.Length * WORD :: Used(i) <==> i != nr && old(Used(i));
    }

    /** The loop body of __find_free_range at page i: the new start and cnt. */
    function Look(i: nat, start: nat, cnt: nat): (nat, nat)
      requires i < bitmap.Length * WORD
      reads bitmap
    {
      if Used(i) then (start, 0) else (if cnt == 0 then i else start, cnt + 1)
    }

    lemma LookStep(v: nat, i: nat, start: nat, cnt: nat, nr: nat)
      requires Valid() && v < total && i == Visited(total, Hint(), v)
      requires Searching(FreeSet(), total, Hint(), v, cnt, start, nr)
      ensures i < total
      ensures var (s, c) := Look(i, start, cnt);
        if c < nr then Searching(FreeSet(), total, Hint(), v + 1, c, s, nr)
        else s < total && FoundRun(FreeSet(), total, Hint(), s, nr)
    {
      SearchStep(FreeSet(), total, Hint(), v, cnt, start, nr);
    }

    /** __find_free_range: the first run of nr free pages in the order visited. A run may
        begin at the end of the pool and go on at its start. */
    method FindFreeRange(nr: nat) returns (r: Found)
      requires Valid() && 0 < nr
      ensures r == NotFound ==> NoRun(FreeSet(), total, Hint(), nr)
      ensures r.At? ==> r.start < total && FoundRun(FreeSet(), total, Hint(), r.start, nr)
    {
      var start, cnt;
      r, start, cnt := LookOn(nr);
      if r.At? { return; }
      r := LookAgain(nr, start, cnt);
    }

    /** The loop from the hint to the end; start and cnt are carried on. */
    method LookOn(nr: nat) returns (r: Found, start: nat, cnt: nat)
      requires Valid() && 0 < nr
      ensures r == NotFound ==> Searching(FreeSet(), total, Hint(), total - Hint(), cnt, start, nr)
      ensures r.At? ==> r.start < total && FoundRun(FreeSet(), total, Hint(), r.start, nr)
    {
      start, cnt := 0, 0;
      var i := lastAlloc;
      ghost var v := 0;
      while i < total
        invariant Hint() + v == (if i < total then i else total)
        invariant Searching(FreeSet(), total, Hint(), v, cnt, start, nr)
      {
        LookStep(v, i, start, cnt, nr);
        var next := Look(i, start, cnt);
        start, cnt := next.0, next.1;
        if cnt >= nr { return At(start), start, cnt; }
        i, v := i + 1, v + 1;
      }
      r := NotFound;
    }

    /** The loop from 0 to the hint. No page past the end is free. */
    method LookAgain(nr: nat, start0: nat, cnt0: nat) returns (r: Found)
      requires Valid() && 0 < nr && Searching(FreeSet(), total, Hint(), total - Hint(), cnt0, start0, nr)
      ensures r == NotFound ==> NoRun(FreeSet(), total, Hint(), nr)
      ensures r.At? ==> r.start < total && FoundRun(FreeSet(), total, Hint(), r.start, nr)
    {
      var start: nat, cnt: nat, i := start0, cnt0, 0;
      while i < lastAlloc
        invariant i <= lastAlloc && Round(FreeSet(), total, Hint(), i, cnt, start, nr)
      {
        RoundStep(i, start, cnt, nr);
        var next := Look(i, start, cnt);
        start, cnt := next.0, next.1;
        if cnt >= nr { return At(start); }
        i := i + 1;
      }
      RoundDone(FreeSet(), total, Hint(), i, cnt, start, nr);
      r := NotFound;
    }

    lemma RoundStep(i: nat, start: nat, cnt: nat, nr: nat)
      requires Valid() && 0 < nr && i < lastAlloc && Round(FreeSet(), total, Hint(), i, cnt, start, nr)
      ensures var (s, c) := Look(i, start, cnt);
        if c < nr then Round(FreeSet(), total, Hint(), i + 1, c, s, nr)
        else s < total && FoundRun(FreeSet(), total, Hint(), s, nr)
    {
      if i < total {
        LookStep(total - Hint() + i, i, start, cnt, nr);
      } else {
        assert Used(i);
        if i == total { RoundDone(FreeSet(), total, Hint(), i, cnt, start, nr); }
      }
    }

    method MarkRange(start: nat, nr: nat)
      requires Valid() && start + nr <= bitmap.Length * WORD
      modifies bitmap
      ensures Valid() && FreeSet() == old(FreeSet()) - Range(start, nr)
      ensures forall j: nat | start <= j < start + nr :: Used(j)
    {
      var i := start;
      while i < start + nr
        invariant start <= i <= start + nr && Valid()
        invariant forall j: nat | j < bitmap.Length * WORD :: Used(j) <==> start <= j < i || old(Used(j))
      {
        SetBit(i);
        i := i + 1;
      }
    }

    method ClearRange(start: nat, end: nat)
      requires Valid() && start < end <= total
      modifies bitmap
      ensures Valid() && FreeSet() == old(FreeSet()) + Range(start, end - start)
    {
      var i := start;
      while i < end
        invariant start <= i <= end && Valid()
        invariant forall j: nat | j < total :: Used(j) <==> !(start <= j < i) && old(Used(j))
      {
        ClearBit(i);
        i := i + 1;
      }
    }

    /** alloc_pages, with the page number in place of its address. */
    method AllocPages(nr: nat) returns (r: Allocated)
      requires Valid()
      modifies this`lastAlloc, bitmap
      ensures r == NoMemory ==> Valid() && FreeSet() == old(FreeSet()) && lastAlloc == old(lastAlloc)
      ensures r == NoMemory <==>
        || nr == 0 || nr > total
        || NoRun(old(FreeSet()), total, old(Hint()), nr)
      ensures r.Pages? ==>
        && Valid() && r.start + nr <= total && r.phys == (basePfn + r.start) * 4096
        && Range(r.start, nr) <= old(FreeSet()) && FreeSet() == old(FreeSet()) - Range(r.start, nr)
      ensures r.PastEnd? ==>
        && r.start + nr > total && FoundRun(old(FreeSet()), total, old(Hint()), r.start, nr)
        && (r.bits <==> r.start + nr <= bitmap.Length * WORD)
        && (r.bits ==> Valid() && FreeSet() == old(FreeSet()) - Range(r.start, nr))
      ensures r.Pages? || (r.PastEnd? && r.bits) ==> lastAlloc == r.start + nr
      ensures nr == 1 || old(lastAlloc) == 0 || old(lastAlloc) >= total ==> !r.PastEnd?
    {
      if nr == 0 || nr > total { return NoMemory; }
      var f := FindFreeRange(nr);
      if f == NotFound { return NoMemory; }
      var start := f.start;
      ghost var hint := Hint();
      FoundFits(FreeSet(), total, hint, start, nr);
      if start + nr > bitmap.Length * WORD { return PastEnd(start, false); }
      MarkRange(start, nr);
      lastAlloc := start + nr;
      r := if start + nr <= total then Pages(start, (basePfn + start) * 4096) else PastEnd(start, true);
    }

    /** free_pages of the page frame number pfn, with the wrap of its 64-bit sum. */
    method FreePages(pfn: nat, nr: nat) returns (ok: bool)
      requires Valid() && pfn < PFNS && nr < U64
      modifies this`lastAlloc, bitmap
      ensures Valid()
      ensures ok <==> pfn >= basePfn && Accepted(total, pfn - basePfn, nr)
      ensures !ok ==> FreeSet() == old(FreeSet()) && lastAlloc == old(lastAlloc)
      ensures ok ==> FreeSet() == old(FreeSet()) + FreedBy(pfn - basePfn, nr)
    {
      if pfn < basePfn || nr == 0 { return false; }
      var start := pfn - basePfn;
      var end := Wrap64(start + nr);
      if end > total { return false; }
      if start < end { ClearRange(start, end); }
      if start < lastAlloc { lastAlloc := start; }
      ok := true;
    }

    /** alloc_page: fails only when no page is free, and never hands out a live one. */
    method AllocPage() returns (r: Allocated)
      requires Valid()
      modifies this`lastAlloc, bitmap
      ensures Valid() && !r.PastEnd?
      ensures r == NoMemory <==> old(FreeSet()) == {}
      ensures r == NoMemory ==> FreeSet() == old(FreeSet())
      ensures r.Pages? ==> r.start in old(FreeSet()) && FreeSet() == old(FreeSet()) - {r.start}
      ensures r.Pages? ==> r.phys == (basePfn + r.start) * 4096
    {
      r := AllocPages(1);
      SingleRuns(old(FreeSet()), total, old(Hint()));
      if r.Pages? { assert Range(r.start, 1) == {r.start}; }
    }

    /** free_page undoes alloc_page. */
    method FreePage(page: nat) returns (ok: bool)
      requires Valid() && basePfn + page < PFNS
      modifies this`lastAlloc, bitmap
      ensures Valid() && (ok <==> page < total)
      ensures FreeSet() == old(FreeSet()) + if ok then {page} else {}
    {
      ok := FreePages(basePfn + page, 1);
      assert Range(page, 1) == {page};
    }
  }

  // ---- the start

  /** The bit of page i in a bitmap. */
  predicate BitAt(words: seq<nat>, i: nat) { i / WORD < |words| && Bit(words[i / WORD], i % WORD) }

  /** How many bits the memset of page_allocator_init clears. Its length is a number of words, but
      counts bytes. */
  function Cleared(total: nat): nat { (total + WORD - 1) / WORD * 8 }

  lemma ClearedFits(total: nat, words: nat)
    requires 0 < total <= words * WORD
    ensures Cleared(total) <= words * WORD
  {
  }

  /** The pages that are free after page_allocator_init over these words. */
  ghost function InitFree(words: seq<nat>, total: nat): set<nat> {
    set i: nat | i < total && (i < Cleared(total) || !BitAt(words, i))
  }

  /** Of a pool of 64 pages the memset clears 8 bits, so page 8 may stay in use. */
  lemma InitLeavesUsed()
    ensures InitFree([One(8)], 64) != Range(0, 64)
  {
    BitOne(8, 8);
    assert BitAt([One(8)], 8) && 8 in Range(0, 64);
  }

  /** Every page is free at the start exactly if the bits behind the cleared ones were clear. */
  lemma InitFreesAllIff(words: seq<nat>, total: nat)
    ensures InitFree(words, total) == Range(0, total) <==>
      forall i: nat | Cleared(total) <= i < total :: !BitAt(words, i)
  {
    if i: nat :| Cleared(total) <= i < total && BitAt(words, i) { assert i in Range(0, total); }
  }

  function Wrap64(x: nat): nat { if x < U64 then x else x % U64 }

  /** The range check of free_pages for nr pages from `start` on, and the pages it then frees. */
  predicate Accepted(total: nat, start: nat, nr: nat) { nr > 0 && Wrap64(start + nr) <= total }

  ghost function FreedBy(start: nat, nr: nat): set<nat> {
    var end := Wrap64(start + nr);
    if start < end then Range(start, end - start) else {}
  }

  /** The range check lets through a range that is not in the pool: 2^64 - 3 pages from page 5
      on, of which it frees none. */
  lemma FreeWraps()
    ensures Accepted(16, 5, U64 - 3) && FreedBy(5, U64 - 3) == {}
  {
  }

  /** An accepted range lies in the pool, and is what is freed, exactly if its end is below 2^64. */
  lemma FreeExactIff(total: nat, start: nat, nr: nat)
    requires total < PFNS && start < PFNS && nr < U64 && Accepted(total, start, nr)
    ensures FreedBy(start, nr) == Range(start, nr) <==> start + nr < U64
    ensures start + nr <= total <==> start + nr < U64
  {
    assert start in Range(start, nr);
  }

  /** After v visited pages the last cnt of them are free, from `start` on, and no run of
      nr pages lies wholly among them. */
  ghost predicate Searching(free: set<nat>, total: nat, hint: nat, v: nat, cnt: nat, start: nat, nr: nat)
  {
    && cnt <= v <= total && cnt < nr && hint <= total
    && FreeRun(free, total, hint, v - cnt, cnt)
    && (cnt > 0 ==> start == Visited(total, hint, v - cnt))
    && (cnt < v ==> Visited(total, hint, v - cnt - 1) !in free)
    && NoRunBefore(free, total, hint, v, nr)
  }

  /** The same after the pages from the hint to the end and those before page i. */
  ghost predicate Round(free: set<nat>, total: nat, hint: nat, i: nat, cnt: nat, start: nat, nr: nat) {
    && hint <= total
    && if i <= total then Searching(free, total, hint, total - hint + i, cnt, start, nr)
       else cnt == 0 && NoRun(free, total, hint, nr)
  }

  lemma RoundDone(free: set<nat>, total: nat, hint: nat, i: nat, cnt: nat, start: nat, nr: nat)
    requires hint <= i && Round(free, total, hint, i, cnt, start, nr)
    ensures NoRun(free, total, hint, nr)
  {
  }

  ghost predicate NoRunBefore(free: set<nat>, total: nat, hint: nat, v: nat, nr: nat) {
    forall m: nat | m + nr <= v :: !FreeRun(free, total, hint, m, nr)
  }

  lemma SearchStep(free: set<nat>, total: nat, hint: nat, v: nat, cnt: nat, start: nat, nr: nat)
    requires Searching(free, total, hint, v, cnt, start, nr) && v < total
    ensures var i := Visited(total, hint, v);
      var s := if cnt == 0 then i else start;
      if i !in free then Searching(free, total, hint, v + 1, 0, start, nr)
      else if cnt + 1 < nr then Searching(free, total, hint, v + 1, cnt + 1, s, nr)
      else s < total && FoundRun(free, total, hint, s, nr)
  {
    if Visited(total, hint, v) !in free {
      forall m: nat | m + nr <= v + 1 ensures !FreeRun(free, total, hint, m, nr) {
        if m + nr == v + 1 { assert Visited(total, hint, v) !in free; }
      }
    } else {
      forall m: nat | m + nr <= v + 1 && m < v - cnt ensures !FreeRun(free, total, hint, m, nr) {
        if m + nr == v + 1 { assert Visited(total, hint, v - cnt - 1) !in free; }
      }
    }
  }

  /** The search for one page looks at every page of the pool. */
  lemma SingleRuns(free: set<nat>, total: nat, hint: nat)
    requires 0 < total && hint <= total && forall i | i in free :: i < total
    ensures free == {} <==> NoRun(free, total, hint, 1)
  {
    if i :| i in free {
      var m := if hint <= i then i - hint else total - hint + i;
      assert Visited(total, hint, m) == i;
      assert FreeRun(free, total, hint, m, 1);
    } else {
      forall m: nat | m + 1 <= total ensures !FreeRun(free, total, hint, m, 1) {
        assert Visited(total, hint, m) !in free;
      }
    }
  }

  ghost predicate Within(i: nat, start: nat, nr: nat) { start <= i < start + nr }

  ghost function Range(start: nat, nr: nat): set<nat> {
    set i: nat | i < start + nr && Within(i, start, nr)
  }

  /** A run whose answer fits the pool is a range of free pages. */
  lemma RunIsRange(free: set<nat>, total: nat, hint: nat, m: nat, nr: nat)
    requires 0 < total && hint <= total && FreeRun(free, total, hint, m, nr) && m + nr <= total
    requires Visited(total, hint, m) + nr <= total
    ensures Range(Visited(total, hint, m), nr) <= free
  {
    var start := Visited(total, hint, m);
    forall i | i in Range(start, nr) ensures i in free {
      var k := m + (i - start);
      assert Visited(total, hint, k) == i;
    }
  }

  lemma FoundFits(free: set<nat>, total: nat, hint: nat, start: nat, nr: nat)
    requires 0 < nr <= total && hint <= total && start < total && FoundRun(free, total, hint, start, nr)
    ensures start + nr <= total ==> Range(start, nr) <= free
    ensures nr == 1 || hint == 0 || hint == total ==> start + nr <= total
  {
    var m: nat :| FirstRun(free, total, hint, m, nr) && start == Visited(total, hint, m);
    if start + nr <= total { RunIsRange(free, total, hint, m, nr); }
  }

  /** A search for several pages can answer past the end of the pool: pages 3 and 0 are
      visited in a row, so two pages "from 3 on" are found in a pool of four. */
  lemma WrapsPastEnd()
    ensures FirstRun({0, 3}, 4, 3, 0, 2) && Visited(4, 3, 0) + 2 > 4
  {
  }

  /** Whatever pages of the pool are free, the answer of a search fits the pool. */
  ghost predicate AnswersFit(total: nat, hint: nat, nr: nat) {
    forall free: set<nat>, m: nat | free <= Range(0, total) && FirstRun(free, total, hint, m, nr) ::
      Visited(total, hint, m) + nr <= total
  }

  /** Every answer fits exactly if one page is asked for or the hint is at an end of the pool. */
  lemma FitsIff(total: nat, hint: nat, nr: nat)
    requires 0 < nr <= total && hint <= total
    ensures AnswersFit(total, hint, nr) <==> nr == 1 || hint == 0 || hint == total
  {
    if nr > 1 && 0 < hint < total {
      // the run starts as late as a run can, but at the last page at the latest
      var m := if hint < nr then total - nr else total - 1 - hint;
      var free := set k | m <= k < m + nr :: Visited(total, hint, k);
      forall k | m <= k < m + nr ensures Visited(total, hint, k) in free {}
      forall j | 0 <= j < m ensures !FreeRun(free, total, hint, j, nr) {
        assert Visited(total, hint, j) !in free;
      }
      assert FirstRun(free, total, hint, m, nr) && Visited(total, hint, m) + nr > total;
      assert free <= Range(0, total);
    }
  }
}
