/** Giving back the tables of an address space, as freewalk in guest/xv6/kernel/vm.c does it,
    on values: which tables lie under a table, and what is left once they are gone. */
module TablePrune {
  import opened PageTree
  import opened GuestPages

  /** The prefix of the ancestor of k at a level, or k's own. */
  function Anc(k: Key, level: nat): nat
    decreases k.level
  {
    if k.level <= level then k.prefix else Anc(Parent(k), level)
  }

  predicate Under(k: Key, top: Key) { k.root == top.root && k.level >= top.level && Anc(k, top.level) == top.prefix }

  /** k lies under one of the first i children of `top`. */
  predicate Below(k: Key, top: Key, i: nat) {
    k.root == top.root && k.level > top.level && top.prefix * ENTRIES <= Anc(k, top.level + 1) < top.prefix * ENTRIES +
      i
  }

  lemma BelowMore(k: Key, top: Key, i: nat)
    ensures Below(k, top, i + 1) <==> Below(k, top, i) || Under(k, Child(top, i))
  {
  }

  lemma {:induction false} AncStep(k: Key, level: nat)
    requires k.level > level
    ensures Anc(k, level) == Anc(k, level + 1) / ENTRIES
    decreases k.level
  {
    if k.level > level + 1 { AncStep(Parent(k), level); }
  }

  lemma UnderIsBelow(k: Key, top: Key)
    ensures Under(k, top) <==> k == top || Below(k, top, ENTRIES)
  {
    if k.level > top.level {
      AncStep(k, top.level);
    }
  }

  /** All tables of a tree lie under its root. */
  lemma {:induction false} RootUnder(node: map<Key, nat>, view: map<Spot, Mapping>, k: Key)
    requires Closed(TOP, node, view) && k in node
    ensures Under(k, Key(k.root, TOP, 0)) && Key(k.root, TOP, 0) in node
    decreases k.level
  {
    if k.level > TOP {
      assert Parent(k) in node;
      RootUnder(node, view, Parent(k));
    }
  }

  /** Between a and b, the tables in `dead` went and their frames are free; nothing else changed. */
  ghost predicate Cut(a: St, b: St, dead: set<Key>) {
    && a.t.own.Keys == b.t.own.Keys == a.data.Keys == b.data.Keys && b.t.view == a.t.view
    && (forall k {:trigger k in b.t.node} ::
        (k in b.t.node <==> k in a.t.node && k !in dead) && (k in b.t.node ==> b.t.node[k] == a.t.node[k]))
    && (forall f {:trigger b.t.own[f]} {:trigger b.data[f]} | f in a.t.own ::
          if a.t.own[f].Node? && a.t.own[f].key in dead then b.t.own[f].Free?
          else b.t.own[f] == a.t.own[f] && b.data[f] == a.data[f])
  }

  lemma CutTwice(a: St, b: St, c: St, d: set<Key>, e: set<Key>)
    requires Cut(a, b, d) && Cut(b, c, e)
    ensures Cut(a, c, d + e)
  {
    forall k
      ensures (k in c.t.node <==> k in a.t.node && k !in d + e) && (k in c.t.node ==> c.t.node[k] == a.t.node[k])
    {
      assert k in c.t.node <==> k in b.t.node && k !in e;
      assert k in b.t.node <==> k in a.t.node && k !in d;
    }
    forall f | f in a.t.own
      ensures if a.t.own[f].Node? && a.t.own[f].key in d + e then c.t.own[f].Free?
        else c.t.own[f] == a.t.own[f] && c.data[f] == a.data[f]
    {
      assert f in b.t.own && f in c.t.own;
      assert b.t.own[f] == b.t.own[f] && c.t.own[f] == c.t.own[f];
    }
  }

  ghost function BelowSet(s: St, top: Key, i: nat): set<Key> { set k | k in s.t.node && Below(k, top, i) }
  ghost function UnderSet(s: St, top: Key): set<Key> { set k | k in s.t.node && Under(k, top) }

  ghost predicate OkBut(s: St, ex: Key) {
    GoodBut(TOP, s.t, ex) && FreeList(s.free, s.t.own) && s.data.Keys == s.t.own.Keys
  }

  /** The table of k goes back to the pool. */
  ghost function Returned(s: St, k: Key): St requires k in s.t.node {
    var f := s.t.node[k];
    St(s.free + [f], s.data[f := Filled(1)], Gave(Dropped(s.t, k), f, |s.free|))
  }

  lemma ReturnOk(s: St, k: Key)
    requires Ok(s) && k in s.t.node && Childless(s.t, k)
    ensures OkBut(Returned(s, k), k)
  {
    DroppedGood(TOP, s.t, k);
    var f := s.t.node[k];
    assert s.t.own[f] == Node(k);
    HandedGood(TOP, Dropped(s.t, k), k, f, Free(|s.free|));
    StillFree(s.free, s.t.own, f, Held);
    FreedList(s.free, Dropped(s.t, k).own, f);
  }

  lemma FreedList(free: seq<nat>, own: map<nat, Use>, f: nat)
    requires FreeList(free, own) && f in own && own[f] == Held
    ensures FreeList(free + [f], own[f := Free(|free|)])
  {
  }

  lemma ReturnCut(s: St, k: Key)
    requires Ok(s) && k in s.t.node
    ensures Cut(s, Returned(s, k), {k})
  {
    assert s.t.own[s.t.node[k]] == Node(k);
    forall f | f in s.t.own && s.t.own[f].Node? && s.t.own[f].key == k
      ensures f == s.t.node[k]
    {
      assert InUse(s.t.node, s.t.view, s.t.own, f);
    }
  }

  /** Entry i of table k is cleared after the table it pointed to has gone. */
  ghost function Zapped(s: St, k: Key, i: nat): St
    requires k in s.t.node && s.t.node[k] in s.t.tab && i < |s.t.tab[s.t.node[k]]|
  {
    St(s.free, s.data, Cleared(s.t, k, i))
  }

  lemma ZapOk(s: St, k: Key, i: nat)
    requires OkBut(s, Child(k, i)) && k in s.t.node && i < ENTRIES && k.level < LAST && Child(k, i) !in s.t.node
    ensures s.t.node[k] in s.t.tab && |s.t.tab[s.t.node[k]]| == ENTRIES && Ok(Zapped(s, k, i))
  {
    ClearedGood(TOP, s.t, k, i);
  }

  /** After all children are gone nothing hangs on table k, if its tree maps no page. */
  lemma AllCut(a: St, b: St, k: Key)
    requires Cut(a, b, BelowSet(a, k, ENTRIES)) && forall p | p in b.t.view :: p.root != k.root
    ensures Childless(b.t, k)
  {
    forall i | 0 <= i < ENTRIES ensures Child(k, i) !in b.t.node {
      assert Below(Child(k, i), k, ENTRIES);
      var c := Child(k, i);
      assert c in b.t.node <==> c in a.t.node && c !in BelowSet(a, k, ENTRIES);
    }
  }

  /** One child more. */
  lemma CutChild(a: St, b: St, c: St, k: Key, i: nat)
    requires Cut(a, b, BelowSet(a, k, i)) && Cut(b, c, UnderSet(b, Child(k, i)))
    ensures Cut(a, c, BelowSet(a, k, i + 1))
  {
    CutTwice(a, b, c, BelowSet(a, k, i), UnderSet(b, Child(k, i)));
    forall x ensures x in BelowSet(a, k, i + 1) <==> x in BelowSet(a, k, i) + UnderSet(b, Child(k, i)) {
      BelowMore(x, k, i);
      assert x in b.t.node <==> x in a.t.node && x !in BelowSet(a, k, i);
    }
    assert BelowSet(a, k, i + 1) == BelowSet(a, k, i) + UnderSet(b, Child(k, i));
  }

  /** A missing child has nothing under it. */
  lemma NoChild(a: St, b: St, k: Key, i: nat)
    requires Ok(b) && Cut(a, b, BelowSet(a, k, i)) && Child(k, i) !in b.t.node && k.level >= TOP
    ensures Cut(a, b, BelowSet(a, k, i + 1))
  {
    forall x | x in b.t.node ensures !Under(x, Child(k, i)) { NothingUnder(b.t.node, b.t.view, x, Child(k, i)); }
    assert UnderSet(b, Child(k, i)) == {};
    CutNone(b);
    CutChild(a, b, b, k, i);
  }

  lemma CutNone(s: St)
    requires s.t.own.Keys == s.data.Keys
    ensures Cut(s, s, {})
  {
  }

  lemma {:induction false} NothingUnder(node: map<Key, nat>, view: map<Spot, Mapping>, x: Key, c: Key)
    requires Closed(TOP, node, view) && x in node && c !in node && c.level > TOP
    ensures !Under(x, c)
    decreases x.level
  {
    if x.level > c.level {
      assert Parent(x) in node;
      NothingUnder(node, view, Parent(x), c);
    }
  }

  /** With the table itself, all under it is gone. */
  lemma CutAll(a: St, b: St, c: St, k: Key)
    requires Cut(a, b, BelowSet(a, k, ENTRIES)) && Cut(b, c, {k}) && k in a.t.node
    ensures Cut(a, c, UnderSet(a, k))
  {
    CutTwice(a, b, c, BelowSet(a, k, ENTRIES), {k});
    forall x ensures x in UnderSet(a, k) <==> x in BelowSet(a, k, ENTRIES) + {k} { UnderIsBelow(x, k); }
    assert UnderSet(a, k) == BelowSet(a, k, ENTRIES) + {k};
  }

  /** Entry i of table k points to its child i, if there is one. */
  lemma ChildEntry(s: St, k: Key, i: nat)
    requires Ok(s) && k in s.t.node && i < ENTRIES
    ensures TOP <= k.level <= LAST && s.t.node[k] in s.t.tab && |s.t.tab[s.t.node[k]]| == ENTRIES
    ensures s.t.tab[s.t.node[k]][i].Table? <==> Child(k, i) in s.t.node
    ensures Child(k, i) in s.t.node ==> k.level < LAST && s.t.tab[s.t.node[k]][i] == Table(s.t.node[Child(k, i)])
  {
    assert Row(s.t.tab, s.t.node, s.t.view, k, NOWHERE);
    assert s.t.tab[s.t.node[k]][i] == Entry(s.t.node, s.t.view, k, i);
  }

  /** A table is not under its child. */
  lemma KeptTable(b: St, c: St, k: Key, i: nat)
    requires k in b.t.node && Child(k, i) in b.t.node && Cut(b, c, UnderSet(b, Child(k, i)))
    ensures k in c.t.node && c.t.node[k] == b.t.node[k] && Child(k, i) !in c.t.node
  {
    assert k in c.t.node;
    assert Under(Child(k, i), Child(k, i));
    assert Child(k, i) !in c.t.node;
  }

  lemma ZapAll(s: St, m: St, c: St, k: Key, i: nat)
    requires Ok(m) && k in m.t.node && i < ENTRIES && k.level < LAST && Child(k, i) in m.t.node
      && Cut(s, m, BelowSet(s, k, i))
    requires OkBut(c, Child(k, i)) && Cut(m, c, UnderSet(m, Child(k, i)))
    ensures k in c.t.node && c.t.node[k] == m.t.node[k] && c.t.node[k] in c.t.tab && |c.t.tab[c.t.node[k]]| == ENTRIES
    ensures Ok(Zapped(c, k, i)) && Cut(s, Zapped(c, k, i), BelowSet(s, k, i + 1)) && c.t.view == m.t.view
  {
    KeptTable(m, c, k, i);
    CutChild(s, m, c, k, i);
    ZapOk(c, k, i);
  }

  lemma ReturnAll(s: St, m: St, k: Key)
    requires Ok(m) && k in m.t.node && k in s.t.node && Cut(s, m, BelowSet(s, k, ENTRIES))
      && forall p | p in m.t.view :: p.root != k.root
    ensures OkBut(Returned(m, k), k) && Cut(s, Returned(m, k), UnderSet(s, k))
  {
    AllCut(s, m, k);
    ReturnOk(m, k);
    ReturnCut(m, k);
    CutAll(s, m, Returned(m, k), k);
  }

  // ---- a whole address space

  /** A frame from the pool is the root of no tree. */
  lemma NewRoot(s: St, r: nat)
    requires Ok(s) && r in s.t.own && !s.t.own[r].Node?
    ensures forall k | k in s.t.node :: k.root != r
    ensures forall p | p in s.t.view :: p.root != r
  {
    forall k | k in s.t.node ensures k.root != r {
      RootUnder(s.t.node, s.t.view, k);
      assert s.t.own[s.t.node[Key(k.root, TOP, 0)]] == Node(Key(k.root, TOP, 0));
    }
    forall p | p in s.t.view ensures p.root != r { assert TableOf(p) in s.t.node; }
  }

  ghost function Planted(s: St, r: nat): St { St(s.free, s.data, Rooted(TOP, s.t, r)) }

  lemma PlantOk(s: St, r: nat)
    requires Ok(s) && r in s.t.own && s.t.own[r] == Held
    ensures Ok(Planted(s, r))
  {
    NewRoot(s, r);
    RootedGood(TOP, s.t, r);
    StillFree(s.free, s.t.own, r, Node(Key(r, TOP, 0)));
  }

  /** A new, empty address space with its root in a frame from the pool. */
  ghost predicate Created(a: St, b: St, r: nat) {
    && Ok(b) && Settled(b.t.own) && Consumed(a, b, r) && b.t.view == a.t.view
    && r in a.t.own && a.t.own[r].Free? && Key(r, TOP, 0) in b.t.node && Empty(a, r)
    && (forall k: Key | k in b.t.node && k.root == r :: k.level <= TOP) && |b.free| + 1 == |a.free|
  }

  /** Tree r has no table and no page. */
  ghost predicate Empty(s: St, r: nat) {
    && (forall k {:trigger k in s.t.node} | k in s.t.node :: k.root != r)
    && (forall p {:trigger p in s.t.view} | p in s.t.view :: p.root != r)
  }

  lemma CreateOk(s: St)
    requires Ok(s) && Settled(s.t.own) && s.free != []
    ensures var r := s.free[|s.free| - 1]; Created(s, Planted(Kalloced(s), r), r)
  {
    var r := s.free[|s.free| - 1];
    KallocOk(s);
    PlantOk(Kalloced(s), r);
    NewRoot(s, r);
    PlantConsumes(s, r);
  }

  lemma PlantConsumes(s: St, r: nat)
    requires s.free != [] && r == s.free[|s.free| - 1] && r in s.t.own && s.t.own[r].Free? && Settled(s.t.own)
      && s.data.Keys == s.t.own.Keys
    ensures var b := Planted(Kalloced(s), r); Consumed(s, b, r) && Settled(b.t.own)
  {
  }

  /** Once every table of tree r is gone and no page is left, no frame serves it. */
  lemma NothingLeft(a: St, b: St, r: nat)
    requires Ok(a) && Ok(b) && Cut(a, b, UnderSet(a, Key(r, TOP, 0))) && forall p | p in a.t.view :: p.root != r
    ensures Empty(b, r) && (Settled(a.t.own) ==> Unused(b.t.own, r))
  {
    forall k | k in b.t.node ensures k.root != r {
      assert k in a.t.node && k !in UnderSet(a, Key(r, TOP, 0));
      RootUnder(a.t.node, a.t.view, k);
    }
    forall f | f in b.t.own ensures Settled(a.t.own) ==> !b.t.own[f].Held? && !UsedBy(b.t.own[f], r) {
      assert InUse(b.t.node, b.t.view, b.t.own, f) && f in a.t.own;
      assert b.t.own[f].Held? ==> a.t.own[f].Held?;
    }
  }
}
