/** How many tables the pages of an address space need below its root, and which: the account that
    tells when memory runs out while pages are mapped. Roots are at level `top`. */
module TableCount {
  import opened PageTree

  type Nodes = map<Key, nat>

  // ---- one page

  function Miss(node: Nodes, k: Key): nat { if k in node then 0 else 1 }

  /** How many tables on the path of page v are missing, down to a level. */
  function LackTo(node: Nodes, root: nat, v: nat, top: nat, level: nat): nat {
    if level <= top then 0 else LackTo(node, root, v, top, level - 1) + Miss(node, PathKey(root, v, level))
  }

  function Lack(node: Nodes, root: nat, v: nat, top: nat): nat { LackTo(node, root, v, top, LAST) }

  lemma {:induction false} LackToGrows(node: Nodes, root: nat, v: nat, top: nat, l: nat, level: nat)
    requires l <= level
    ensures LackTo(node, root, v, top, l) <= LackTo(node, root, v, top, level)
  {
    if l < level { LackToGrows(node, root, v, top, l, level - 1); }
  }

  predicate OnPath(x: Key, root: nat, v: nat, top: nat, level: nat) {
    top < x.level <= level && x == PathKey(root, v, x.level)
  }

  /** The tables of b are those of a and k. */
  ghost predicate OneAdded(a: Nodes, b: Nodes, k: Key) {
    forall x: Key {:trigger x in b} :: x in b <==> x in a || x == k
  }

  /** The tables of b are those of a and those on the path of page v, down to a level. */
  ghost predicate PathAdded(a: Nodes, b: Nodes, root: nat, v: nat, top: nat, level: nat) {
    forall x: Key {:trigger x in b} :: x in b <==> x in a || OnPath(x, root, v, top, level)
  }

  /** One level down the path, to table k. */
  lemma PathMore(a: Nodes, b: Nodes, c: Nodes, root: nat, v: nat, top: nat, level: nat, k: Key)
    requires PathAdded(a, b, root, v, top, level) && top <= level < LAST && k == PathKey(root, v, level + 1)
    ensures Miss(b, k) == Miss(a, k)
    ensures OneAdded(b, c, k) ==> PathAdded(a, c, root, v, top, level + 1)
    ensures LackTo(a, root, v, top, level) + Miss(a, k) == LackTo(a, root, v, top, level + 1) <= Lack(a, root, v, top)
  {
    LackToGrows(a, root, v, top, level + 1, LAST);
    assert k in b <==> k in a;
    if OneAdded(b, c, k) {
      forall x: Key ensures x in c <==> x in a || OnPath(x, root, v, top, level + 1) {
        assert x in b <==> x in a || OnPath(x, root, v, top, level);
      }
    }
  }

  // ---- a range of pages

  /** Table x is on the path of a page of the range. */
  predicate Needed(x: Key, root: nat, first: nat, n: nat, top: nat) {
    && x.root == root && top < x.level <= LAST && n > 0
    && Prefix(x.level, first) <= x.prefix <= Prefix(x.level, first + n - 1)
  }

  /** The tables of b are those of a and those for n pages from `first` on. */
  ghost predicate RangeAdded(a: Nodes, b: Nodes, root: nat, first: nat, n: nat, top: nat) {
    forall x: Key {:trigger x in b} :: x in b <==> x in a || Needed(x, root, first, n, top)
  }

  /** The k-th page of a range is the first to need its table of a level, and it is missing. */
  function Fresh(node: Nodes, root: nat, first: nat, k: nat, level: nat): nat {
    if PathKey(root, first + k, level) in node then 0
    else if k > 0 && Prefix(level, first + k) == Prefix(level, first + k - 1) then 0
    else 1
  }

  function FreshTo(node: Nodes, root: nat, first: nat, k: nat, top: nat, level: nat): nat {
    if level <= top then 0 else FreshTo(node, root, first, k, top, level - 1) + Fresh(node, root, first, k, level)
  }

  /** How many tables are missing for n pages from `first` on. */
  function RangeLack(node: Nodes, root: nat, first: nat, n: nat, top: nat): nat {
    if n == 0 then 0
    else RangeLack(node, root, first, n - 1, top) + FreshTo(node, root, first, n - 1, top, LAST)
  }

  lemma {:induction false} RangeLackGrows(node: Nodes, root: nat, first: nat, k: nat, n: nat, top: nat)
    requires k <= n
    ensures RangeLack(node, root, first, k, top) <= RangeLack(node, root, first, n, top)
  {
    if k < n { RangeLackGrows(node, root, first, k, n - 1, top); }
  }

  lemma {:induction false} PrefixStep(level: nat, u: nat, v: nat)
    requires v == u + 1 && level <= LAST + 1
    ensures Prefix(level, u) <= Prefix(level, v) <= Prefix(level, u) + 1
    decreases LAST + 1 - level
  {
    if level <= LAST { PrefixStep(level + 1, u, v); }
  }

  lemma {:induction false} PrefixGrows(level: nat, u: nat, v: nat)
    requires u <= v && level <= LAST + 1
    ensures Prefix(level, u) <= Prefix(level, v)
    decreases v
  {
    if u < v {
      PrefixGrows(level, u, v - 1);
      PrefixStep(level, v - 1, v);
    }
  }

  /** A table on the path of the next page was needed before only by the page before it. */
  lemma NeededBefore(root: nat, first: nat, k: nat, v: nat, top: nat, level: nat)
    requires top < level <= LAST && v == first + k
    ensures Needed(PathKey(root, v, level), root, first, k, top) <==>
      k > 0 && Prefix(level, v) == Prefix(level, v - 1)
  {
    if k > 0 {
      PrefixGrows(level, first, v - 1);
      PrefixStep(level, v - 1, v);
    }
  }

  lemma FreshMiss(a: Nodes, b: Nodes, root: nat, first: nat, k: nat, v: nat, top: nat, level: nat)
    requires RangeAdded(a, b, root, first, k, top) && v == first + k && top < level <= LAST
    ensures Miss(b, PathKey(root, v, level)) == Fresh(a, root, first, k, level)
  {
    var x := PathKey(root, v, level);
    NeededBefore(root, first, k, v, top, level);
    assert x in b <==> x in a || Needed(x, root, first, k, top);
  }

  lemma {:induction false} FreshLack(a: Nodes, b: Nodes, root: nat, first: nat, k: nat, v: nat, top: nat, level: nat)
    requires RangeAdded(a, b, root, first, k, top) && v == first + k && level <= LAST
    ensures LackTo(b, root, v, top, level) == FreshTo(a, root, first, k, top, level)
    decreases level
  {
    if level > top {
      FreshLack(a, b, root, first, k, v, top, level - 1);
      FreshMiss(a, b, root, first, k, v, top, level);
    }
  }

  /** What page v lacks after k pages is what k + 1 pages lack more than k. */
  lemma LackStep(a: Nodes, b: Nodes, root: nat, first: nat, k: nat, v: nat, next: nat, top: nat)
    requires RangeAdded(a, b, root, first, k, top) && v == first + k && next == k + 1
    ensures RangeLack(a, root, first, k, top) + Lack(b, root, v, top) == RangeLack(a, root, first, next, top)
  {
    FreshLack(a, b, root, first, k, v, top, LAST);
  }

  lemma NeededMore(x: Key, root: nat, first: nat, k: nat, v: nat, next: nat, top: nat)
    requires v == first + k && next == k + 1
    ensures Needed(x, root, first, next, top) <==> Needed(x, root, first, k, top) || OnPath(x, root, v, top, LAST)
  {
    if x.root == root && top < x.level <= LAST {
      var l := x.level;
      PrefixGrows(l, first, v);
      if k > 0 {
        PrefixGrows(l, first, v - 1);
        PrefixStep(l, v - 1, v);
      }
    }
  }

  lemma RangeMore(a: Nodes, b: Nodes, c: Nodes, root: nat, first: nat, k: nat, v: nat, next: nat, top: nat)
    requires RangeAdded(a, b, root, first, k, top) && PathAdded(b, c, root, v, top, LAST)
    requires v == first + k && next == k + 1
    ensures RangeAdded(a, c, root, first, next, top)
  {
    forall x: Key ensures x in c <==> x in a || Needed(x, root, first, next, top) {
      NeededMore(x, root, first, k, v, next, top);
      assert x in b <==> x in a || Needed(x, root, first, k, top);
    }
  }

  /** A range of one page is that page. */
  lemma OnePage(node: Nodes, root: nat, v: nat, top: nat)
    ensures RangeLack(node, root, v, 1, top) == Lack(node, root, v, top)
  {
    LackStep(node, node, root, v, 0, v, 1, top);
  }

  lemma OnePath(a: Nodes, b: Nodes, root: nat, v: nat, top: nat)
    requires RangeAdded(a, b, root, v, 1, top)
    ensures PathAdded(a, b, root, v, top, LAST)
  {
    forall x: Key ensures x in b <==> x in a || OnPath(x, root, v, top, LAST) {
      NeededMore(x, root, v, 0, v, 1, top);
      assert x in b <==> x in a || Needed(x, root, v, 1, top);
    }
  }

  // ---- a new tree

  /** The tables of levels down to `level` for pages e to v: from the first page's to the last's. */
  function TablesTo(e: nat, v: nat, top: nat, level: nat): int {
    if level <= top then 0 else TablesTo(e, v, top, level - 1) + Prefix(level, v) - Prefix(level, e) + 1
  }

  /** The tables that n pages from page e on need below the root. */
  function TablesFor(e: nat, n: nat, top: nat): int { if n == 0 then 0 else TablesTo(e, e + n - 1, top, LAST) }

  lemma {:induction false} FreshFirst(node: Nodes, root: nat, e: nat, top: nat, level: nat)
    requires (forall k: Key | k in node && k.root == root :: k.level <= top) && level <= LAST
    ensures FreshTo(node, root, e, 0, top, level) == TablesTo(e, e, top, level)
    decreases level
  {
    if level > top {
      FreshFirst(node, root, e, top, level - 1);
      assert PathKey(root, e, level) !in node;
    }
  }

  lemma FreshOne(node: Nodes, root: nat, e: nat, k: nat, u: nat, v: nat, level: nat)
    requires level <= LAST && PathKey(root, v, level) !in node && v == e + k && k > 0 && v == u + 1
    ensures Fresh(node, root, e, k, level) == Prefix(level, v) - Prefix(level, u)
  {
    assert e + k == v && e + k - 1 == u;
    PrefixStep(level, u, v);
  }

  lemma {:induction false} FreshNext(node: Nodes, root: nat, e: nat, k: nat, u: nat, v: nat, top: nat, level: nat)
    requires forall x: Key | x in node && x.root == root :: x.level <= top
    requires level <= LAST && v == e + k && k > 0 && v == u + 1
    ensures TablesTo(e, u, top, level) + FreshTo(node, root, e, k, top, level) == TablesTo(e, v, top, level)
    decreases level
  {
    if level > top {
      FreshNext(node, root, e, k, u, v, top, level - 1);
      assert PathKey(root, v, level) !in node;
      FreshOne(node, root, e, k, u, v, level);
    }
  }

  /** A tree of a root alone lacks all its tables. */
  lemma {:induction false} NewTreeLacks(node: Nodes, root: nat, e: nat, n: nat, top: nat)
    requires forall k: Key | k in node && k.root == root :: k.level <= top
    ensures RangeLack(node, root, e, n, top) == TablesFor(e, n, top)
  {
    if n == 1 {
      FreshFirst(node, root, e, top, LAST);
    } else if n > 1 {
      NewTreeLacks(node, root, e, n - 1, top);
      FreshNext(node, root, e, n - 1, e + n - 2, e + n - 1, top, LAST);
    }
  }
}
