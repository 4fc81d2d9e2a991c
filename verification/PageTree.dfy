/** Radix page tables in physical frames, as guest/xv6/kernel/vm.c and src/mmu.c build them:
    the entries in memory, the map from pages to frames they stand for, and the one use every
    frame has. Tables have 512 entries; the last level is 3 and the first is `top`. */
module PageTree {
  const ENTRIES: nat := 512
  const LAST: nat := 3

  /** A table entry: empty, a pointer to the next table, or a page with its attributes. */
  datatype Pte = None | Table(frame: nat) | Leaf(frame: nat, flags: nat)

  /** A table: its tree, its level and the bits of the page number above its own index. */
  datatype Key = Key(root: nat, level: nat, prefix: nat)

  /** A page of an address space. */
  datatype Spot = Spot(root: nat, vpn: nat)

  datatype Mapping = Mapping(frame: nat, flags: nat)

  /** What a frame is used for. `Held` frames are in the hands of the code that runs. */
  datatype Use = Free(at: nat) | Node(key: Key) | Page(spot: Spot) | Held

  datatype Tree = Tree(tab: map<nat, seq<Pte>>, node: map<Key, nat>, view: map<Spot, Mapping>, own: map<nat, Use>)

  function Child(k: Key, i: nat): Key { Key(k.root, k.level + 1, k.prefix * ENTRIES + i) }
  function Parent(k: Key): Key requires k.level > 0 { Key(k.root, k.level - 1, k.prefix / ENTRIES) }
  function SpotOf(k: Key, i: nat): Spot { Spot(k.root, k.prefix * ENTRIES + i) }
  function TableOf(s: Spot): Key { Key(s.root, LAST, s.vpn / ENTRIES) }

  lemma ChildParent(k: Key, i: nat)
    requires i < ENTRIES
    ensures Parent(Child(k, i)) == k && Child(k, i).prefix % ENTRIES == i
    ensures k.level == LAST ==> TableOf(SpotOf(k, i)) == k && SpotOf(k, i).vpn % ENTRIES == i
  {
  }

  lemma ParentChild(k: Key)
    requires k.level > 0
    ensures Child(Parent(k), k.prefix % ENTRIES) == k
  {
  }

  /** What entry i of table k has to be. */
  function Entry(node: map<Key, nat>, view: map<Spot, Mapping>, k: Key, i: nat): Pte {
    if k.level < LAST then
      if Child(k, i) in node then Table(node[Child(k, i)]) else None
    else
      if SpotOf(k, i) in view then Leaf(view[SpotOf(k, i)].frame, view[SpotOf(k, i)].flags) else None
  }

  /** No table: for Good without an exception. */
  const NOWHERE: Key := Key(0, 9, 0)

  /** Table k is in memory, entry by entry, but perhaps for the one that points to `ex`. */
  ghost predicate Row(tab: map<nat, seq<Pte>>, node: map<Key, nat>, view: map<Spot, Mapping>, k: Key, ex: Key) {
    && k in node && node[k] in tab && |tab[node[k]]| == ENTRIES
    && forall i {:trigger tab[node[k]][i]} | 0 <= i < ENTRIES && Child(k, i) != ex ::
        tab[node[k]][i] == Entry(node, view, k, i)
  }

  ghost predicate Rows(tab: map<nat, seq<Pte>>, node: map<Key, nat>, view: map<Spot, Mapping>, ex: Key) {
    forall k {:trigger Row(tab, node, view, k, ex)} | k in node :: Row(tab, node, view, k, ex)
  }

  /** Every table but a root has its parent, and every page its table. */
  ghost predicate Closed(top: nat, node: map<Key, nat>, view: map<Spot, Mapping>) {
    && (forall k {:trigger k in node} | k in node ::
          top <= k.level <= LAST && (k.level == top ==> k.prefix == 0))
    && (forall k {:trigger node[k]} | k in node && k.level == top :: node[k] == k.root)
    && (forall k {:trigger Parent(k)} | k in node && k.level > top :: Parent(k) in node)
    && (forall s {:trigger s in view} | s in view :: TableOf(s) in node)
  }

  /** What frame f is used for is there and is in f. */
  ghost predicate InUse(node: map<Key, nat>, view: map<Spot, Mapping>, own: map<nat, Use>, f: nat) {
    f in own ==>
      && (own[f].Node? ==> own[f].key in node && node[own[f].key] == f)
      && (own[f].Page? ==> own[f].spot in view && view[own[f].spot].frame == f)
  }

  /** Every frame in use is one table or one page. */
  ghost predicate Placed(node: map<Key, nat>, view: map<Spot, Mapping>, own: map<nat, Use>) {
    && (forall k {:trigger node[k]} | k in node :: node[k] in own && own[node[k]] == Node(k))
    && (forall s {:trigger view[s]} | s in view :: view[s].frame in own && own[view[s].frame] == Page(s))
    && (forall f {:trigger InUse(node, view, own, f)} :: InUse(node, view, own, f))
  }

  ghost predicate GoodBut(top: nat, t: Tree, ex: Key) {
    Rows(t.tab, t.node, t.view, ex) && Closed(top, t.node, t.view) && Placed(t.node, t.view, t.own)
  }

  ghost predicate Good(top: nat, t: Tree) { GoodBut(top, t, NOWHERE) }

  function Blank(): (z: seq<Pte>)
    ensures |z| == ENTRIES && forall i | 0 <= i < ENTRIES :: z[i] == None
  {
    seq(ENTRIES, _ => None)
  }

  lemma NodePlaced(node: map<Key, nat>, view: map<Spot, Mapping>, own: map<nat, Use>, c: Key, g: nat)
    requires Placed(node, view, own) && c !in node && g in own && own[g] == Held
    ensures Placed(node[c := g], view, own[g := Node(c)])
  {
    var node', own' := node[c := g], own[g := Node(c)];
    forall f ensures InUse(node', view, own', f) { assert InUse(node, view, own, f); }
  }

  lemma PagePlaced(node: map<Key, nat>, view: map<Spot, Mapping>, own: map<nat, Use>, s: Spot, m: Mapping)
    requires Placed(node, view, own) && s !in view && m.frame in own && own[m.frame] == Held
    ensures Placed(node, view[s := m], own[m.frame := Page(s)])
  {
    var view', own' := view[s := m], own[m.frame := Page(s)];
    forall f ensures InUse(node, view', own', f) { assert InUse(node, view, own, f); }
  }

  lemma PageLifted(node: map<Key, nat>, view: map<Spot, Mapping>, own: map<nat, Use>, s: Spot)
    requires Placed(node, view, own) && s in view
    ensures Placed(node, view - {s}, own[view[s].frame := Held])
  {
    var own' := own[view[s].frame := Held];
    assert own[view[s].frame] == Page(s);
    forall y | y in view && y != s ensures view[y].frame in own' && own'[view[y].frame] == Page(y) {
      assert own[view[y].frame] == Page(y);
    }
    forall k | k in node ensures node[k] in own' && own'[node[k]] == Node(k) { assert own[node[k]] == Node(k); }
    var view' := view - {s};
    forall f ensures InUse(node, view', own', f) { assert InUse(node, view, own, f); }
  }

  // ---- a new table

  /** Entry i of table k points to the new, empty table in frame g. */
  function Linked(t: Tree, k: Key, i: nat, g: nat): Tree
    requires k in t.node && t.node[k] in t.tab && i < |t.tab[t.node[k]]|
  {
    Tree(t.tab[g := Blank()][t.node[k] := t.tab[t.node[k]][i := Table(g)]], t.node[Child(k, i) := g], t.view,
      t.own[g := Node(Child(k, i))])
  }

  lemma LinkedRow(tab: map<nat, seq<Pte>>, node: map<Key, nat>, view: map<Spot, Mapping>, k: Key, i: nat, g: nat,
      x: Key)
    requires Row(tab, node, view, x, NOWHERE) && Row(tab, node, view, k, NOWHERE) && i < ENTRIES && k.level < LAST
      && x.level <= LAST
    requires node[x] != g && node[k] != g && (x != k ==> node[x] != node[k]) && Child(k, i) !in node
    ensures Row(tab[g := Blank()][node[k] := tab[node[k]][i := Table(g)]], node[Child(k, i) := g], view, x, NOWHERE)
  {
    var tab', node' := tab[g := Blank()][node[k] := tab[node[k]][i := Table(g)]], node[Child(k, i) := g];
    forall j | 0 <= j < ENTRIES ensures tab'[node'[x]][j] == Entry(node', view, x, j) {
      ChildParent(x, j);
      ChildParent(k, i);
      assert x != k || j != i ==> tab[node[x]][j] == Entry(node, view, x, j);
    }
  }

  lemma LinkedNew(top: nat, tab: map<nat, seq<Pte>>, node: map<Key, nat>, view: map<Spot, Mapping>, c: Key, g: nat)
    requires Closed(top, node, view) && c !in node && g in tab && tab[g] == Blank() && top <= c.level <= LAST
    ensures Row(tab, node[c := g], view, c, NOWHERE)
  {
    var node' := node[c := g];
    forall j | 0 <= j < ENTRIES ensures tab[node'[c]][j] == Entry(node', view, c, j) {
      ChildParent(c, j);
      assert Child(c, j) !in node;
      assert c.level == LAST ==> SpotOf(c, j) !in view;
    }
  }

  /** The tables stay good, and no page is mapped by it. */
  lemma LinkedGood(top: nat, t: Tree, k: Key, i: nat, g: nat)
    requires Good(top, t) && k in t.node && k.level < LAST && i < ENTRIES && Child(k, i) !in t.node && g in t.own
      && t.own[g] == Held
    ensures t.node[k] in t.tab && |t.tab[t.node[k]]| == ENTRIES && g != t.node[k]
    ensures Good(top, Linked(t, k, i, g))
  {
    assert Row(t.tab, t.node, t.view, k, NOWHERE);
    var u := Linked(t, k, i, g);
    NodePlaced(t.node, t.view, t.own, Child(k, i), g);
    ChildParent(k, i);
    forall x | x in u.node ensures Row(u.tab, u.node, u.view, x, NOWHERE) {
      if x == Child(k, i) {
        LinkedNew(top, u.tab, t.node, t.view, x, g);
      } else {
        assert Row(t.tab, t.node, t.view, x, NOWHERE);
        assert t.own[t.node[x]] == Node(x) && t.own[t.node[k]] == Node(k);
        LinkedRow(t.tab, t.node, t.view, k, i, g, x);
      }
    }
  }

  // ---- pages

  /** Page s is mapped to frame g. */
  function Mapped(t: Tree, s: Spot, g: nat, flags: nat): Tree
    requires TableOf(s) in t.node && t.node[TableOf(s)] in t.tab && |t.tab[t.node[TableOf(s)]]| == ENTRIES
  {
    var f := t.node[TableOf(s)];
    Tree(t.tab[f := t.tab[f][s.vpn % ENTRIES := Leaf(g, flags)]], t.node, t.view[s := Mapping(g, flags)],
      t.own[g := Page(s)])
  }

  /** Page s is mapped no longer; its frame is in the hands of the caller. */
  function Unmapped(t: Tree, s: Spot): Tree
    requires TableOf(s) in t.node && t.node[TableOf(s)] in t.tab && |t.tab[t.node[TableOf(s)]]| == ENTRIES
      && s in t.view
  {
    var f := t.node[TableOf(s)];
    Tree(t.tab[f := t.tab[f][s.vpn % ENTRIES := None]], t.node, t.view - {s}, t.own[t.view[s].frame := Held])
  }

  /** Writing the entry of page s touches the row of its table only, and there one entry. */
  lemma SpotRow(tab: map<nat, seq<Pte>>, node: map<Key, nat>, view: map<Spot, Mapping>, view': map<Spot, Mapping>,
      s: Spot, e: Pte, x: Key)
    requires Row(tab, node, view, x, NOWHERE) && Row(tab, node, view, TableOf(s), NOWHERE)
    requires x != TableOf(s) ==> node[x] != node[TableOf(s)]
    requires x.level <= LAST && e == Entry(node, view', TableOf(s), s.vpn % ENTRIES)
    requires forall y | y != s :: (y in view' <==> y in view) && (y in view ==> view'[y] == view[y])
    ensures Row(tab[node[TableOf(s)] := tab[node[TableOf(s)]][s.vpn % ENTRIES := e]], node, view', x, NOWHERE)
  {
    var f := node[TableOf(s)];
    var tab' := tab[f := tab[f][s.vpn % ENTRIES := e]];
    forall j | 0 <= j < ENTRIES ensures tab'[node[x]][j] == Entry(node, view', x, j) {
      ChildParent(x, j);
      assert tab[node[x]][j] == Entry(node, view, x, j);
      assert x.level == LAST && SpotOf(x, j) == s ==> x == TableOf(s) && j == s.vpn % ENTRIES;
    }
  }

  lemma SpotEntry(s: Spot)
    ensures SpotOf(TableOf(s), s.vpn % ENTRIES) == s
  {
  }

  lemma MappedGood(top: nat, t: Tree, s: Spot, g: nat, flags: nat)
    requires Good(top, t) && TableOf(s) in t.node && s !in t.view && g in t.own && t.own[g] == Held
    ensures t.node[TableOf(s)] in t.tab && |t.tab[t.node[TableOf(s)]]| == ENTRIES
    ensures t.tab[t.node[TableOf(s)]][s.vpn % ENTRIES] == None
    ensures Good(top, Mapped(t, s, g, flags))
  {
    var k := TableOf(s);
    assert Row(t.tab, t.node, t.view, k, NOWHERE);
    SpotEntry(s);
    var u := Mapped(t, s, g, flags);
    PagePlaced(t.node, t.view, t.own, s, Mapping(g, flags));
    forall x | x in u.node ensures Row(u.tab, u.node, u.view, x, NOWHERE) {
      assert Row(t.tab, t.node, t.view, x, NOWHERE);
      assert t.own[t.node[x]] == Node(x) && t.own[t.node[k]] == Node(k);
      SpotRow(t.tab, t.node, t.view, u.view, s, Leaf(g, flags), x);
    }
  }

  lemma UnmappedGood(top: nat, t: Tree, s: Spot)
    requires Good(top, t) && s in t.view
    ensures TableOf(s) in t.node && t.node[TableOf(s)] in t.tab && |t.tab[t.node[TableOf(s)]]| == ENTRIES
    ensures t.tab[t.node[TableOf(s)]][s.vpn % ENTRIES] == Leaf(t.view[s].frame, t.view[s].flags)
    ensures t.view[s].frame in t.own && Good(top, Unmapped(t, s))
  {
    var k := TableOf(s);
    assert Row(t.tab, t.node, t.view, k, NOWHERE);
    SpotEntry(s);
    var u := Unmapped(t, s);
    PageLifted(t.node, t.view, t.own, s);
    assert t.own[t.view[s].frame] == Page(s);
    forall x | x in u.node ensures Row(u.tab, u.node, u.view, x, NOWHERE) {
      assert Row(t.tab, t.node, t.view, x, NOWHERE);
      assert t.own[t.node[x]] == Node(x) && t.own[t.node[k]] == Node(k);
      SpotRow(t.tab, t.node, t.view, u.view, s, None, x);
    }
  }

  // ---- the path of a page

  /** The bits of page number v that select the table at a level; at level 4, all of them. */
  function Prefix(level: nat, v: nat): nat decreases LAST + 1 - level {
    if level > LAST then v else Prefix(level + 1, v) / ENTRIES
  }

  function PathKey(r: nat, v: nat, level: nat): Key { Key(r, level, Prefix(level, v)) }

  /** The entry on the path of v is empty or points to the next table on it. */
  lemma PathStep(top: nat, t: Tree, r: nat, v: nat, level: nat)
    requires Good(top, t) && level < LAST && PathKey(r, v, level) in t.node
    ensures Child(PathKey(r, v, level), Prefix(level + 1, v) % ENTRIES) == PathKey(r, v, level + 1)
    ensures var k, n := PathKey(r, v, level), PathKey(r, v, level + 1);
      && t.node[k] in t.tab && |t.tab[t.node[k]]| == ENTRIES
      && t.tab[t.node[k]][Prefix(level + 1, v) % ENTRIES] == if n in t.node then Table(t.node[n]) else None
  {
    var k := PathKey(r, v, level);
    assert Row(t.tab, t.node, t.view, k, NOWHERE);
    var i := Prefix(level + 1, v) % ENTRIES;
    assert t.tab[t.node[k]][i] == Entry(t.node, t.view, k, i);
  }

  lemma PathEnd(r: nat, v: nat)
    ensures PathKey(r, v, LAST) == TableOf(Spot(r, v))
  {
  }

  /** The entry of a page is empty or says where it is mapped. */
  lemma LeafEntry(top: nat, t: Tree, s: Spot)
    requires Good(top, t) && TableOf(s) in t.node
    ensures t.node[TableOf(s)] in t.tab && |t.tab[t.node[TableOf(s)]]| == ENTRIES
    ensures t.tab[t.node[TableOf(s)]][s.vpn % ENTRIES] == if s in t.view then Leaf(t.view[s].frame, t.view[s].flags)
      else None
  {
    assert Row(t.tab, t.node, t.view, TableOf(s), NOWHERE);
    SpotEntry(s);
    var i := s.vpn % ENTRIES;
    assert t.tab[t.node[TableOf(s)]][i] == Entry(t.node, t.view, TableOf(s), i);
  }

  // ---- giving a table back

  /** Table k, which has no children, is in memory no longer, though its parent points to it. */
  function Dropped(t: Tree, k: Key): Tree requires k in t.node {
    Tree(t.tab - {t.node[k]}, t.node - {k}, t.view, t.own[t.node[k] := Held])
  }

  ghost predicate Childless(t: Tree, k: Key) {
    && (forall i {:trigger Child(k, i)} | 0 <= i < ENTRIES :: Child(k, i) !in t.node)
    && (k.level == LAST ==> forall i {:trigger SpotOf(k, i)} | 0 <= i < ENTRIES :: SpotOf(k, i) !in t.view)
  }

  lemma DroppedGood(top: nat, t: Tree, k: Key)
    requires Good(top, t) && k in t.node && Childless(t, k)
    ensures GoodBut(top, Dropped(t, k), k)
  {
    var u := Dropped(t, k);
    DroppedPlaced(t, k);
    forall x | x in u.node ensures Row(u.tab, u.node, u.view, x, k) {
      assert Row(t.tab, t.node, t.view, x, NOWHERE);
      assert t.own[t.node[x]] == Node(x) && t.own[t.node[k]] == Node(k);
      forall j | 0 <= j < ENTRIES && Child(x, j) != k ensures u.tab[u.node[x]][j] == Entry(u.node, u.view, x, j) {
        assert t.tab[t.node[x]][j] == Entry(t.node, t.view, x, j);
      }
    }
    forall x | x in u.node && x.level > top ensures Parent(x) in u.node {
      ParentChild(x);
      assert Child(Parent(x), x.prefix % ENTRIES) == x;
    }
    forall s | s in u.view ensures TableOf(s) in u.node {
      SpotEntry(s);
      assert SpotOf(TableOf(s), s.vpn % ENTRIES) == s;
    }
  }

  lemma DroppedPlaced(t: Tree, k: Key)
    requires Placed(t.node, t.view, t.own) && k in t.node
    ensures Placed(t.node - {k}, t.view, t.own[t.node[k] := Held])
  {
    assert t.own[t.node[k]] == Node(k);
    forall s | s in t.view ensures t.view[s].frame != t.node[k] { assert t.own[t.view[s].frame] == Page(s); }
    forall x | x in t.node && x != k ensures t.node[x] != t.node[k] { assert t.own[t.node[x]] == Node(x); }
    var node', own' := t.node - {k}, t.own[t.node[k] := Held];
    forall f ensures InUse(node', t.view, own', f) { assert InUse(t.node, t.view, t.own, f); }
  }

  /** Clearing the pointer to a dropped table makes all entries right again. */
  function Cleared(t: Tree, k: Key, i: nat): Tree requires k in t.node && t.node[k] in t.tab && i < |t.tab[t.node[k]]| {
    t.(tab := t.tab[t.node[k] := t.tab[t.node[k]][i := None]])
  }

  lemma ClearedGood(top: nat, t: Tree, k: Key, i: nat)
    requires GoodBut(top, t, Child(k, i)) && k in t.node && i < ENTRIES && k.level < LAST && Child(k, i) !in t.node
    ensures t.node[k] in t.tab && |t.tab[t.node[k]]| == ENTRIES && Good(top, Cleared(t, k, i))
  {
    assert Row(t.tab, t.node, t.view, k, Child(k, i));
    var u := Cleared(t, k, i);
    forall x | x in u.node ensures Row(u.tab, u.node, u.view, x, NOWHERE) {
      assert Row(t.tab, t.node, t.view, x, Child(k, i));
      assert t.own[t.node[x]] == Node(x) && t.own[t.node[k]] == Node(k);
      forall j | 0 <= j < ENTRIES ensures u.tab[u.node[x]][j] == Entry(u.node, u.view, x, j) {
        ChildParent(x, j);
        ChildParent(k, i);
        assert Child(x, j) != Child(k, i) ==> t.tab[t.node[x]][j] == Entry(t.node, t.view, x, j);
      }
    }
  }

  /** No table points to a root. */
  lemma RootDropped(top: nat, t: Tree, k: Key)
    requires GoodBut(top, t, k) && k.level == top
    ensures Good(top, t)
  {
    forall x | x in t.node ensures Row(t.tab, t.node, t.view, x, NOWHERE) {
      assert Row(t.tab, t.node, t.view, x, k);
      forall j | 0 <= j < ENTRIES ensures t.tab[t.node[x]][j] == Entry(t.node, t.view, x, j) {
        assert Child(x, j) != k;
      }
    }
  }

  // ---- a new tree

  function Rooted(top: nat, t: Tree, r: nat): Tree {
    Tree(t.tab[r := Blank()], t.node[Key(r, top, 0) := r], t.view, t.own[r := Node(Key(r, top, 0))])
  }

  lemma RootedGood(top: nat, t: Tree, r: nat)
    requires Good(top, t) && top <= LAST && r in t.own && t.own[r] == Held && forall k | k in t.node :: k.root != r
    ensures Good(top, Rooted(top, t, r))
  {
    var u, k := Rooted(top, t, r), Key(r, top, 0);
    NodePlaced(t.node, t.view, t.own, k, r);
    forall x | x in u.node ensures Row(u.tab, u.node, u.view, x, NOWHERE) {
      if x == k {
        LinkedNew(top, u.tab, t.node, t.view, k, r);
      } else {
        assert Row(t.tab, t.node, t.view, x, NOWHERE) && t.own[t.node[x]] == Node(x);
        forall j | 0 <= j < ENTRIES ensures u.tab[u.node[x]][j] == Entry(u.node, u.view, x, j) {
          assert t.tab[t.node[x]][j] == Entry(t.node, t.view, x, j) && Child(x, j).root != r;
        }
      }
    }
  }

  // ---- ranges of pages

  predicate Has(view: map<Spot, Mapping>, root: nat, v: nat) { Spot(root, v) in view }

  /** n pages from `first` on are not mapped. */
  ghost predicate NoneMapped(view: map<Spot, Mapping>, root: nat, first: nat, n: nat) {
    forall v: nat {:trigger Has(view, root, v)} | first <= v < first + n :: !Has(view, root, v)
  }

  /** w is view with n pages from `first` on mapped to n frames from g on. */
  ghost predicate Ranged(view: map<Spot, Mapping>, w: map<Spot, Mapping>, root: nat, first: nat, g: nat, n: nat,
      flags: nat) {
    forall p: Spot {:trigger p in w} {:trigger w[p]} ::
      if p.root == root && first <= p.vpn < first + n then p in w && w[p] == Mapping(g + p.vpn - first, flags)
      else (p in w <==> p in view) && (p in view ==> w[p] == view[p])
  }

  lemma RangedMore(view: map<Spot, Mapping>, w: map<Spot, Mapping>, root: nat, first: nat, g: nat, k: nat, flags: nat,
      v: nat, f: nat)
    requires v == first + k && f == g + k && Ranged(view, w, root, first, g, k, flags)
    ensures Ranged(view, w[Spot(root, v) := Mapping(f, flags)], root, first, g, k + 1, flags)
    ensures (Spot(root, v) in w <==> Spot(root, v) in view) && (Spot(root, v) in w <==> Has(view, root, first + k))
  {
    var w' := w[Spot(root, v) := Mapping(f, flags)];
    assert Spot(root, v) == Spot(root, first + k);
    forall p: Spot ensures
      if p.root == root && first <= p.vpn < first + (k + 1) then p in w' && w'[p] == Mapping(g + p.vpn - first, flags)
      else (p in w' <==> p in view) && (p in view ==> w'[p] == view[p])
    {
      assert p in w || p !in w;
    }
  }

  // ---- the pool

  /** No frame is in the hands of running code. */
  ghost predicate Settled(own: map<nat, Use>) { forall f {:trigger own[f]} | f in own :: !own[f].Held? }

  /** A frame that is neither table nor page changes hands. */
  lemma HandedGood(top: nat, t: Tree, ex: Key, f: nat, u: Use)
    requires GoodBut(top, t, ex) && f in t.own && (t.own[f].Held? || t.own[f].Free?) && (u.Held? || u.Free?)
    ensures GoodBut(top, t.(own := t.own[f := u]), ex)
    ensures GoodBut(top, t.(own := t.own[f := u], tab := t.tab - {f}), ex)
  {
    var w := t.(own := t.own[f := u], tab := t.tab - {f});
    forall k | k in t.node ensures Row(w.tab, w.node, w.view, k, ex) {
      assert Row(t.tab, t.node, t.view, k, ex) && t.own[t.node[k]] == Node(k);
    }
    forall x ensures InUse(t.node, t.view, w.own, x) { assert InUse(t.node, t.view, t.own, x); }
    assert Placed(t.node, t.view, w.own);
  }

  ghost function Took(t: Tree, f: nat): Tree { Tree(t.tab, t.node, t.view, t.own[f := Held]) }

  /** Between a and b, free frames became tables of tree r and the frames from lo up to hi its
      pages. */
  ghost predicate Advance(a: Tree, b: Tree, r: nat, lo: nat, hi: nat) {
    && a.own.Keys == b.own.Keys
    && (forall f {:trigger b.own[f]} | f in a.own && !a.own[f].Free? ::
          if lo <= f < hi then a.own[f].Held? && b.own[f].Page? && b.own[f].spot.root == r else b.own[f] == a.own[f])
    && (forall f {:trigger b.own[f]} | f in a.own && a.own[f].Free? ::
          b.own[f] == a.own[f] || (b.own[f].Node? && b.own[f].key.root == r))
    && (forall k: Key {:trigger k in b.node} | k in a.node :: k in b.node)
    && (forall k: Key {:trigger k in b.node} | k.root != r :: k in b.node <==> k in a.node)
  }

  lemma AdvanceTwice(a: Tree, b: Tree, c: Tree, r: nat, lo: nat, mid: nat, hi: nat)
    requires lo <= mid <= hi && Advance(a, b, r, lo, mid) && Advance(b, c, r, mid, hi)
    ensures Advance(a, c, r, lo, hi)
  {
    forall f | f in a.own && !a.own[f].Free?
      ensures if lo <= f < hi then a.own[f].Held? && c.own[f].Page? && c.own[f].spot.root == r else c.own[f] == a.own[f]
    {
      assert f in b.own && !b.own[f].Free?;
    }
    forall f | f in a.own && a.own[f].Free? ensures c.own[f] == a.own[f] || (c.own[f].Node? && c.own[f].key.root == r) {
      assert b.own[f] == a.own[f] || (b.own[f].Node? && b.own[f].key.root == r);
    }
    forall k: Key | k in a.node ensures k in c.node { assert k in b.node; }
    forall k: Key | k.root != r ensures k in c.node <==> k in a.node { assert k in b.node <==> k in a.node; }
  }

  /** Free frame g becomes the table that entry i of table k points to. */
  ghost function Sprouted(t: Tree, k: Key, i: nat, g: nat): Tree
    requires k in t.node && t.node[k] in t.tab && i < |t.tab[t.node[k]]|
  {
    Linked(Took(t, g), k, i, g)
  }

  lemma SproutAdvance(t: Tree, k: Key, i: nat, g: nat, x: nat)
    requires g in t.own && t.own[g].Free? && k in t.node && t.node[k] in t.tab && i < |t.tab[t.node[k]]|
    ensures Advance(t, Sprouted(t, k, i, g), k.root, x, x)
  {
  }

  lemma MapAdvance(t: Tree, s: Spot, g: nat, flags: nat)
    requires TableOf(s) in t.node && t.node[TableOf(s)] in t.tab && |t.tab[t.node[TableOf(s)]]| == ENTRIES
    requires g in t.own && t.own[g] == Held
    ensures Advance(t, Mapped(t, s, g, flags), s.root, g, g + 1)
  {
  }

  /** Under a missing table there is none. */
  lemma PathMissing(top: nat, t: Tree, r: nat, v: nat, level: nat)
    requires Closed(top, t.node, t.view) && top < level <= LAST && PathKey(r, v, level) !in t.node
    ensures PathKey(r, v, LAST) !in t.node
  {
    assert PathKey(r, v, 3) in t.node ==> Parent(PathKey(r, v, 3)) in t.node;
    assert PathKey(r, v, 2) in t.node && top < 2 ==> Parent(PathKey(r, v, 2)) in t.node;
  }

  /** The free list holds the free frames, each once. */
  ghost predicate FreeList(free: seq<nat>, own: map<nat, Use>) {
    && (forall j {:trigger free[j]} | 0 <= j < |free| :: free[j] in own && own[free[j]] == Free(j))
    && (forall f {:trigger own[f].at} | f in own && own[f].Free? :: own[f].at < |free| && free[own[f].at] == f)
  }

  /** The use of a frame that code working on tree r may change. */
  predicate Mine(u: Use, r: nat) {
    match u
    case Free(_) => true
    case Held => true
    case Node(k) => k.root == r
    case Page(s) => s.root == r
  }

  /** Between a and b, with contents ad and bd, only tree r and the pool changed. */
  ghost predicate Local(a: Tree, b: Tree, ad: map<nat, seq<nat>>, bd: map<nat, seq<nat>>, r: nat) {
    && a.own.Keys == b.own.Keys == ad.Keys == bd.Keys
    && (forall f {:trigger b.own[f]} {:trigger bd[f]} | f in a.own && !Mine(a.own[f], r) ::
        b.own[f] == a.own[f] && bd[f] == ad[f])
    && (forall f {:trigger b.own[f]} | f in a.own && Mine(a.own[f], r) :: Mine(b.own[f], r))
    && (forall k: Key {:trigger k in b.node} | k.root != r :: k in b.node <==> k in a.node)
    && (forall s: Spot {:trigger s in b.view} | s.root != r ::
        (s in b.view <==> s in a.view) && (s in a.view ==> b.view[s] == a.view[s]))
  }

  lemma LocalTwice(a: Tree, b: Tree, c: Tree, ad: map<nat, seq<nat>>, bd: map<nat, seq<nat>>, cd: map<nat, seq<nat>>,
      r: nat)
    requires Local(a, b, ad, bd, r) && Local(b, c, bd, cd, r)
    ensures Local(a, c, ad, cd, r)
  {
    forall f | f in a.own && !Mine(a.own[f], r)
      ensures c.own[f] == a.own[f] && cd[f] == ad[f]
    {
      assert b.own[f] == a.own[f];
    }
    forall f | f in a.own && Mine(a.own[f], r) ensures Mine(c.own[f], r) { assert Mine(b.own[f], r); }
    forall k: Key | k.root != r ensures k in c.node <==> k in a.node { assert k in b.node <==> k in a.node; }
    forall s: Spot | s.root != r ensures (s in c.view <==> s in a.view) && (s in a.view ==> c.view[s] == a.view[s]) {
      assert s in b.view <==> s in a.view;
    }
  }

  ghost function FreeSet(own: map<nat, Use>): set<nat> { set f | f in own && own[f].Free? }

  ghost predicate Unused(own: map<nat, Use>, r: nat) {
    forall f {:trigger own[f]} | f in own ::
      !own[f].Held? && (own[f].Node? ==> own[f].key.root != r) && (own[f].Page? ==> own[f].spot.root != r)
  }

  /** If tree r has no frame before and none after, the free frames are the same. */
  lemma FreeAgain(a: Tree, b: Tree, ad: map<nat, seq<nat>>, bd: map<nat, seq<nat>>, r: nat)
    requires Local(a, b, ad, bd, r) && Unused(a.own, r) && Unused(b.own, r)
    ensures FreeSet(a.own) == FreeSet(b.own)
  {
    forall f | f in a.own ensures a.own[f].Free? <==> b.own[f].Free? {
      assert f in b.own && (Mine(a.own[f], r) <==> a.own[f].Free?) && (Mine(b.own[f], r) <==> b.own[f].Free?);
    }
  }
}
