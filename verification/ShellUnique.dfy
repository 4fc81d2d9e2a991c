/** The grammar of the shell's command lines is unambiguous, and the scanner accepts every line that
    the grammar can read: a line has at most one command, and has one only if it is accepted. */
module ShellUnique {
  import opened Options
  import opened ShellGrammar

  // ---- where the next token is

  lemma SepSpot(t: string, a: nat, b: nat, c: char)
    requires Sep(t, a, b, c) && Symbol(c)
    ensures a < b <= |t| && Skip(t, a) < |t| && t[Skip(t, a)] == c && Skip(t, Skip(t, a) + 1) == Skip(t, b)
  {
    SkipTo(t, Skip(t, a) + 1, b);
  }

  lemma SameSep(t: string, a: nat, b: nat, a': nat, b': nat, c: char)
    requires Sep(t, a, b, c) && Sep(t, a', b', c) && Symbol(c) && Skip(t, a) == Skip(t, a')
    ensures Skip(t, b) == Skip(t, b')
  {
    var n := Skip(t, a) + 1;
    SepEnd(t, a, b, c, n);
    SepEnd(t, a', b', c, n);
  }

  lemma SepEnd(t: string, a: nat, b: nat, c: char, n: nat)
    requires Sep(t, a, b, c) && n == Skip(t, a) + 1
    ensures n <= |t| && Skip(t, b) == Skip(t, n)
  {
    SkipTo(t, n, b);
  }

  lemma {:induction false} WordEndIs(t: string, q: nat, e: nat)
    requires q <= e <= |t| && (forall i | q <= i < e :: Plain(t[i])) && (e < |t| ==> Blank(t[e]) || Symbol(t[e]))
    ensures WordEnd(t, q) == e
    decreases e - q
  {
    if q < e { WordEndIs(t, q + 1, e); }
  }

  /** How an item starts: with its word, or with the symbol of its redirection at p. */
  ghost predicate Starts(t: string, p: nat, it: Item) {
    && p < |t| && it.w.q < |t| && Plain(t[it.w.q])
    && match it.mode
       case None => it.w.q == p
       case Some(In) => t[p] == '<' && it.w.q == Skip(t, p + 1)
       case Some(Out) => t[p] == '>' && p + 1 < |t| && t[p + 1] != '>' && it.w.q == Skip(t, p + 1)
       case Some(Append) => t[p] == '>' && p + 1 < |t| && t[p + 1] == '>' && it.w.q == Skip(t, p + 2)
  }

  lemma ItemSpot(t: string, e: nat, it: Item)
    requires ItemOk(t, e, it) && NoNul(t)
    ensures it.from < |t| && Starts(t, Skip(t, it.from), it) && it.w.eq == WordEnd(t, it.w.q) && it.w.eq <= |t|
      && Skip(t, e) == Skip(t, it.w.eq)
  {
    var a, b := it.from, it.w.q;
    WordEndIs(t, b, it.w.eq);
    SkipTo(t, it.w.eq, e);
    assert Plain(t[b]);
    match it.mode
    case None => SkipTo(t, a, b);
    case Some(In) => SepSpot(t, a, b, '<');
    case Some(Out) => SepSpot(t, a, b, '>');
    case Some(Append) =>
      SkipTo(t, Skip(t, a) + 2, b);
  }

  /** The same spot, the same item. */
  lemma SameItem(t: string, e: nat, f: nat, x: Item, y: Item)
    requires NoNul(t) && ItemOk(t, e, x) && ItemOk(t, f, y) && x.from <= |t| && y.from <= |t|
      && Skip(t, x.from) == Skip(t, y.from)
    ensures x.mode == y.mode && x.w == y.w && Skip(t, e) == Skip(t, f)
  {
    ItemSpot(t, e, x);
    ItemSpot(t, f, y);
    SameStart(t, Skip(t, x.from), x, y);
  }

  lemma SameStart(t: string, p: nat, x: Item, y: Item)
    requires Starts(t, p, x) && Starts(t, p, y)
    ensures x.mode == y.mode && x.w.q == y.w.q
  {
  }

  // ---- lists from the front

  /** The first item ends at m, where the others start. */
  lemma {:induction false} FirstItem(t: string, s: nat, e: nat, items: seq<Item>) returns (m: nat)
    requires ItemsOk(t, s, e, items) && items != []
    ensures Blanks(t, s, items[0].from) && ItemOk(t, m, items[0]) && ItemsOk(t, m, e, items[1..]) && m <= e <= |t|
    decreases |items|
  {
    var k := |items| - 1;
    if k == 0 {
      m := e;
    } else {
      m := FirstItem(t, s, items[k].from, items[..k]);
      assert items[1..][..k - 1] == items[..k][1..];
    }
  }

  lemma FirstWords(items: seq<Item>)
    requires items != []
    ensures ArgsOf(items) == ArgsOf([items[0]]) + ArgsOf(items[1..])
      && RedsOf(items) == RedsOf([items[0]]) + RedsOf(items[1..])
  {
    assert items == [items[0]] + items[1..];
    JoinArgs([items[0]], items[1..]);
    JoinReds([items[0]], items[1..]);
  }

  lemma {:induction false} FirstAmp(t: string, s: nat, e: nat, amps: seq<nat>) returns (m: nat)
    requires Amps(t, s, e, amps) && amps != []
    ensures Sep(t, s, m, '&') && Amps(t, m, e, amps[1..]) && m <= e <= |t|
    decreases |amps|
  {
    var k := |amps| - 1;
    if k == 0 {
      assert amps[..0] == [];
      SkipTo(t, s, amps[0]);
      m := e;
    } else {
      m := FirstAmp(t, s, amps[k], amps[..k]);
      assert amps[1..][..k - 1] == amps[..k][1..];
    }
  }

  /** Items start with a word or an arrow, or are just blanks. */
  lemma ItemsSpot(t: string, s: nat, e: nat, items: seq<Item>)
    requires NoNul(t) && ItemsOk(t, s, e, items) && s <= e <= |t|
    ensures if items == [] then Skip(t, s) == Skip(t, e)
      else Skip(t, s) < |t| && (Angle(t[Skip(t, s)]) || Plain(t[Skip(t, s)]))
  {
    if items == [] {
      SkipTo(t, s, e);
    } else {
      var m := FirstItem(t, s, e, items);
      SkipTo(t, s, items[0].from);
      ItemSpot(t, m, items[0]);
    }
  }

  lemma AmpsSpot(t: string, s: nat, e: nat, amps: seq<nat>) returns (m: nat)
    requires Amps(t, s, e, amps) && s <= e <= |t|
    ensures amps == [] ==> Skip(t, s) == Skip(t, e)
    ensures amps != [] ==>
      Skip(t, s) < |t| && t[Skip(t, s)] == '&' && m <= e && Amps(t, m, e, amps[1..])
      && Skip(t, m) == Skip(t, Skip(t, s) + 1)
  {
    if amps == [] {
      m := e;
      SkipTo(t, s, e);
    } else {
      m := FirstAmp(t, s, e, amps);
      SepSpot(t, s, m, '&');
    }
  }

  // ---- what may follow

  /** The symbols after a line, a job, a pipeline and a simple command. */
  predicate After(level: nat, c: char) {
    c == ')' || (level >= 1 && c == ';') || (level >= 2 && c == '&') || (level >= 3 && c == '|')
  }

  predicate Follow(t: string, e: nat, level: nat) {
    e <= |t| && var p := Skip(t, e); p < |t| ==> After(level, t[p])
  }

  lemma {:induction false} SameItems(t: string, s: nat, s': nat, e: nat, e': nat, a: seq<Item>, b: seq<Item>)
    requires NoNul(t) && ItemsOk(t, s, e, a) && ItemsOk(t, s', e', b) && s <= e && s' <= e' && Follow(t, e, 3)
      && Follow(t, e', 3)
    requires Skip(t, s) == Skip(t, s')
    ensures Skip(t, e) == Skip(t, e') && ArgsOf(a) == ArgsOf(b) && RedsOf(a) == RedsOf(b)
    decreases |a|
  {
    ItemsSpot(t, s, e, a);
    ItemsSpot(t, s', e', b);
    if a != [] {
      var m := FirstItem(t, s, e, a);
      var m' := FirstItem(t, s', e', b);
      var x, y := a[0], b[0];
      SkipTo(t, s, x.from);
      SkipTo(t, s', y.from);
      SameItem(t, m, m', x, y);
      SameOne(x, y);
      FirstWords(a);
      FirstWords(b);
      SameItems(t, m, m', e, e', a[1..], b[1..]);
    }
  }

  lemma SameOne(x: Item, y: Item)
    requires x.mode == y.mode && x.w == y.w
    ensures ArgsOf([x]) == ArgsOf([y]) && RedsOf([x]) == RedsOf([y])
  {
    assert [x][..0] == [] && [y][..0] == [];
  }

  lemma {:induction false} SameAmps(t: string, s: nat, s': nat, e: nat, e': nat, a: seq<nat>, b: seq<nat>)
    requires Amps(t, s, e, a) && Amps(t, s', e', b) && s <= e && s' <= e' && Follow(t, e, 1) && Follow(t, e', 1)
    requires Skip(t, s) == Skip(t, s')
    ensures Skip(t, e) == Skip(t, e') && |a| == |b|
    decreases |a|
  {
    var m := AmpsSpot(t, s, e, a);
    var m' := AmpsSpot(t, s', e', b);
    if a != [] { SameAmps(t, m, m', e, e', a[1..], b[1..]); }
  }

  // ---- one command

  /** A group starts with a parenthesis, a simple command does not. */
  lemma ExecSpot(t: string, s: nat, e: nat, c: Cmd, d: Deriv)
    requires NoNul(t) && IsExec(d) && Reading(t, s, e, c, d) && Follow(t, e, 3)
    ensures d.Group? <==> Skip(t, s) < |t| && t[Skip(t, s)] == '('
  {
    if d.Simple? { ItemsSpot(t, s, e, d.items); } else { SepSpot(t, s, d.i, '('); }
  }

  lemma {:induction false} SameExec(t: string, s: nat, s': nat, e: nat, e': nat, c: Cmd, c': Cmd, d: Deriv, d': Deriv)
    requires NoNul(t) && IsExec(d) && IsExec(d') && Reading(t, s, e, c, d) && Reading(t, s', e', c', d')
      && Skip(t, s) == Skip(t, s')
    requires Follow(t, e, 3) && Follow(t, e', 3)
    ensures c == c' && Skip(t, e) == Skip(t, e')
    decreases d, 2
  {
    ExecSpot(t, s, e, c, d);
    ExecSpot(t, s', e', c', d');
    if d.Simple? {
      SameItems(t, s, s', e, e', d.items, d'.items);
    } else {
      SameGroup(t, s, s', e, e', c, c', d, d');
    }
  }

  lemma {:induction false} SameGroup(t: string, s: nat, s': nat, e: nat, e': nat, c: Cmd, c': Cmd, d: Deriv, d': Deriv)
    requires NoNul(t) && d.Group? && d'.Group? && Reading(t, s, e, c, d) && Reading(t, s', e', c', d')
      && Skip(t, s) == Skip(t, s')
    requires Follow(t, e, 3) && Follow(t, e', 3)
    ensures c == c' && Skip(t, e) == Skip(t, e')
    decreases d, 1
  {
    SameInner(t, s, s', e, e', c, c', d, d');
    SameItems(t, d.k, d'.k, e, e', d.items, d'.items);
  }

  lemma {:induction false} SameInner(t: string, s: nat, s': nat, e: nat, e': nat, c: Cmd, c': Cmd, d: Deriv, d': Deriv)
    requires NoNul(t) && d.Group? && d'.Group? && Reading(t, s, e, c, d) && Reading(t, s', e', c', d')
      && Skip(t, s) == Skip(t, s')
    ensures d.inner == d'.inner && d.k <= |t| && d'.k <= |t| && Skip(t, d.k) == Skip(t, d'.k)
    decreases d, 0
  {
    SameSep(t, s, d.i, s', d'.i, '(');
    SepSpot(t, d.j, d.k, ')');
    SepSpot(t, d'.j, d'.k, ')');
    SameLine(t, d.i, d'.i, d.j, d'.j, d.inner, d'.inner, d.line, d'.line);
    SameSep(t, d.j, d.k, d'.j, d'.k, ')');
  }

  /** The two parts of a pipeline. */
  lemma PipedSpot(t: string, s: nat, e: nat, c: Cmd, d: Deriv)
    requires d.Piped? && Reading(t, s, e, c, d)
    ensures s <= d.m < d.n <= e && c.Pipe? && IsExec(d.left) && Reading(t, s, d.m, c.left, d.left)
    ensures Follow(t, d.m, 3) && !Follow(t, d.m, 2) && Sep(t, d.m, d.n, '|')
  {
    SepSpot(t, d.m, d.n, '|');
  }

  lemma {:induction false} SamePipe(t: string, s: nat, s': nat, e: nat, e': nat, c: Cmd, c': Cmd, d: Deriv, d': Deriv)
    requires NoNul(t) && IsPipe(d) && IsPipe(d') && Reading(t, s, e, c, d) && Reading(t, s', e', c', d')
      && Skip(t, s) == Skip(t, s')
    requires Follow(t, e, 2) && Follow(t, e', 2)
    ensures c == c' && Skip(t, e) == Skip(t, e')
    decreases d, 4
  {
    if d.Piped? && d'.Piped? {
      SameHead(t, s, s', e, e', c, c', d, d');
      SameTail(t, s, s', e, e', c, c', d, d');
    } else if d.Piped? {
      PipedSpot(t, s, e, c, d);
      SameExec(t, s, s', d.m, e', c.left, c', d.left, d');
    } else if d'.Piped? {
      PipedSpot(t, s', e', c', d');
      SameExec(t, s, s', e, d'.m, c, c'.left, d, d'.left);
    } else {
      SameExec(t, s, s', e, e', c, c', d, d');
    }
  }

  lemma {:induction false} SameHead(t: string, s: nat, s': nat, e: nat, e': nat, c: Cmd, c': Cmd, d: Deriv, d': Deriv)
    requires NoNul(t) && d.Piped? && d'.Piped? && Reading(t, s, e, c, d) && Reading(t, s', e', c', d')
      && Skip(t, s) == Skip(t, s')
    ensures c.Pipe? && c'.Pipe? && c.left == c'.left && d.n <= |t| && d'.n <= |t| && Skip(t, d.n) == Skip(t, d'.n)
    decreases d, 3
  {
    PipedSpot(t, s, e, c, d);
    PipedSpot(t, s', e', c', d');
    SameExec(t, s, s', d.m, d'.m, c.left, c'.left, d.left, d'.left);
    SameSep(t, d.m, d.n, d'.m, d'.n, '|');
  }

  lemma {:induction false} SameTail(t: string, s: nat, s': nat, e: nat, e': nat, c: Cmd, c': Cmd, d: Deriv, d': Deriv)
    requires NoNul(t) && d.Piped? && d'.Piped? && Reading(t, s, e, c, d) && Reading(t, s', e', c', d')
    requires Follow(t, e, 2) && Follow(t, e', 2) && d.n <= |t| && d'.n <= |t| && Skip(t, d.n) == Skip(t, d'.n)
    ensures c.Pipe? && c'.Pipe? && c.right == c'.right && Skip(t, e) == Skip(t, e')
    decreases d, 3
  {
    SamePipe(t, d.n, d'.n, e, e', c.right, c'.right, d.right, d'.right);
  }

  /** After a pipeline comes an ampersand or what may follow the job. */
  lemma PipeFollow(t: string, m: nat, e: nat, amps: seq<nat>)
    requires m <= e && Amps(t, m, e, amps) && Follow(t, e, 1)
    ensures Follow(t, m, 2)
  {
    var _ := AmpsSpot(t, m, e, amps);
  }

  lemma {:induction false} SameJobs(t: string, s: nat, s': nat, e: nat, e': nat, c: Cmd, c': Cmd, d: Deriv, d': Deriv)
    requires NoNul(t) && d.Jobs? && d'.Jobs? && Reading(t, s, e, c, d) && Reading(t, s', e', c', d')
      && Skip(t, s) == Skip(t, s')
    requires Follow(t, e, 1) && Follow(t, e', 1)
    ensures c == c' && Skip(t, e) == Skip(t, e')
    decreases d, 4
  {
    PipeFollow(t, d.m, e, d.amps);
    PipeFollow(t, d'.m, e', d'.amps);
    SamePipe(t, s, s', d.m, d'.m, d.pipe, d'.pipe, d.d, d'.d);
    SameAmps(t, d.m, d'.m, e, e', d.amps, d'.amps);
  }

  /** The first job of a line. */
  lemma ThenSpot(t: string, s: nat, e: nat, c: Cmd, d: Deriv)
    requires d.Then? && Reading(t, s, e, c, d)
    ensures s <= d.m < d.n <= e && c.List? && d.first.Jobs? && Reading(t, s, d.m, c.first, d.first)
    ensures Follow(t, d.m, 1) && !Follow(t, d.m, 0) && Sep(t, d.m, d.n, ';')
  {
    SepSpot(t, d.m, d.n, ';');
  }

  lemma {:induction false} SameLine(t: string, s: nat, s': nat, e: nat, e': nat, c: Cmd, c': Cmd, d: Deriv, d': Deriv)
    requires NoNul(t) && IsLine(d) && IsLine(d') && Reading(t, s, e, c, d) && Reading(t, s', e', c', d')
      && Skip(t, s) == Skip(t, s')
    requires Follow(t, e, 0) && Follow(t, e', 0)
    ensures c == c' && Skip(t, e) == Skip(t, e')
    decreases d, 6
  {
    if d.Then? && d'.Then? {
      SameFirst(t, s, s', e, e', c, c', d, d');
      SameRest(t, s, s', e, e', c, c', d, d');
    } else if d.Then? {
      ThenSpot(t, s, e, c, d);
      SameJobs(t, s, s', d.m, e', c.first, c', d.first, d');
    } else if d'.Then? {
      ThenSpot(t, s', e', c', d');
      SameJobs(t, s, s', e, d'.m, c, c'.first, d, d'.first);
    } else {
      SameJobs(t, s, s', e, e', c, c', d, d');
    }
  }

  lemma {:induction false} SameFirst(t: string, s: nat, s': nat, e: nat, e': nat, c: Cmd, c': Cmd, d: Deriv, d': Deriv)
    requires NoNul(t) && d.Then? && d'.Then? && Reading(t, s, e, c, d) && Reading(t, s', e', c', d')
      && Skip(t, s) == Skip(t, s')
    ensures c.List? && c'.List? && c.first == c'.first && d.n <= |t| && d'.n <= |t| && Skip(t, d.n) == Skip(t, d'.n)
    decreases d, 5
  {
    ThenSpot(t, s, e, c, d);
    ThenSpot(t, s', e', c', d');
    SameJobs(t, s, s', d.m, d'.m, c.first, c'.first, d.first, d'.first);
    SameSep(t, d.m, d.n, d'.m, d'.n, ';');
  }

  lemma {:induction false} SameRest(t: string, s: nat, s': nat, e: nat, e': nat, c: Cmd, c': Cmd, d: Deriv, d': Deriv)
    requires NoNul(t) && d.Then? && d'.Then? && Reading(t, s, e, c, d) && Reading(t, s', e', c', d')
    requires Follow(t, e, 0) && Follow(t, e', 0) && d.n <= |t| && d'.n <= |t| && Skip(t, d.n) == Skip(t, d'.n)
    ensures c.List? && c'.List? && c.rest == c'.rest && Skip(t, e) == Skip(t, e')
    decreases d, 5
  {
    SameLine(t, d.n, d'.n, e, e', c.rest, c'.rest, d.rest, d'.rest);
  }

  /** A line reads as one command at most. */
  lemma OneCommand(t: string, c: Cmd, c': Cmd, d: Deriv, d': Deriv)
    requires NoNul(t) && IsLine(d) && IsLine(d') && Reading(t, 0, |t|, c, d) && Reading(t, 0, |t|, c', d')
    ensures c == c'
  {
    SameLine(t, 0, 0, |t|, |t|, c, c', d, d');
  }

  // ---- the scanner accepts every line that reads

  lemma SepScan(t: string, a: nat, b: nat, c: char, k: nat, at: At, st: Scan)
    requires Sep(t, a, b, c) && Symbol(c) && !Angle(c) && st == Step(Scan(k, at), Sym(c))
    ensures Rest(t, a, Scan(k, at)) == Rest(t, b, st)
  {
    var q, m := Skip(t, a), Skip(t, b);
    SepSpot(t, a, b, c);
    RestToken(t, a, q, m, Scan(k, at));
    RestSkip(t, b, m, st);
  }

  /** What an item makes of the command at hand. */
  function Taken(at: At, it: Item): At requires Open(at) {
    if it.mode.Some? then Begun(at) else if at.Args? then Args(at.n + 1) else Args(1)
  }

  lemma ItemScan(t: string, e: nat, it: Item, k: nat, at: At)
    requires NoNul(t) && ItemOk(t, e, it) && Open(at)
    requires it.mode.None? ==> !at.Grouped? && Taken(at, it).n < MAXARGS
    ensures Rest(t, it.from, Scan(k, at)) == Rest(t, e, Scan(k, Taken(at, it)))
  {
    ItemSpot(t, e, it);
    var p, m := Skip(t, it.from), Skip(t, e);
    RestSkip(t, it.from, p, Scan(k, at));
    SkipTo(t, it.from, p);
    if it.mode.None? {
      assert WordEnd(t, it.w.q) == WordEnd(t, it.w.q + 1);
      WordScan(t, p, m, k, at, Taken(at, it).n);
    } else {
      RedirScan(t, p, m, it, k, at);
    }
    RestSkip(t, e, m, Scan(k, Taken(at, it)));
  }

  /** The sign of a redirection and its file. */
  lemma RedirScan(t: string, p: nat, m: nat, it: Item, k: nat, at: At)
    requires NoNul(t) && p < |t| && Starts(t, p, it) && it.mode.Some? && Open(at) && Skip(t, p) == p
    requires it.w.eq == WordEnd(t, it.w.q) && it.w.eq <= |t| && m == Skip(t, it.w.eq)
    ensures m <= |t| && Rest(t, p, Scan(k, at)) == Rest(t, m, Scan(k, Begun(at)))
  {
    var q := it.w.q;
    ArrowScan(t, p, q, k, at);
    assert Skip(t, q) == q && WordEnd(t, q) == WordEnd(t, q + 1);
    FileScan(t, q, q, m, k, Begun(at));
  }

  /** Where the items of a command leave a scan. */
  ghost function Past(at: At, items: seq<Item>): At {
    if items == [] then at else if at.Grouped? then Grouped else Args(|ArgsOf(items)|)
  }

  lemma {:induction false} ItemsScan(t: string, s: nat, e: nat, items: seq<Item>, k: nat, at: At)
    requires NoNul(t) && s <= e <= |t| && ItemsOk(t, s, e, items)
      && (at == Begin || (at == Grouped && ArgsOf(items) == [])) && |ArgsOf(items)| < MAXARGS
    ensures Rest(t, s, Scan(k, at)) == Rest(t, e, Scan(k, Past(at, items)))
    decreases |items|
  {
    if items == [] {
      SkipTo(t, s, e);
    } else {
      var it, rest := items[|items| - 1], items[..|items| - 1];
      PastMore(at, items, it, rest);
      ItemsScan(t, s, it.from, rest, k, at);
      ItemScan(t, e, it, k, Past(at, rest));
    }
  }

  lemma PastMore(at: At, items: seq<Item>, it: Item, rest: seq<Item>)
    requires items != [] && it == items[|items| - 1] && rest == items[..|items| - 1]
    requires (at == Begin || (at == Grouped && ArgsOf(items) == [])) && |ArgsOf(items)| < MAXARGS
    ensures (at == Grouped ==> ArgsOf(rest) == []) && |ArgsOf(rest)| < MAXARGS && Open(Past(at, rest))
    ensures it.mode.None? ==> !Past(at, rest).Grouped? && Taken(Past(at, rest), it).n < MAXARGS
    ensures Past(at, items) == Taken(Past(at, rest), it)
  {
    assert |ArgsOf(items)| == |ArgsOf(rest)| + if it.mode.None? then 1 else 0;
  }

  lemma {:induction false} AmpsScan(t: string, s: nat, e: nat, amps: seq<nat>, k: nat, at: At)
    requires Amps(t, s, e, amps) && s <= e <= |t| && !at.File?
    ensures Rest(t, s, Scan(k, at)) == Rest(t, e, Scan(k, if amps == [] then at else Amped))
    decreases |amps|
  {
    if amps == [] {
      SkipTo(t, s, e);
    } else {
      var m := amps[|amps| - 1];
      var now := if |amps| == 1 then at else Amped;
      AmpsScan(t, s, m, amps[..|amps| - 1], k, at);
      SepScan(t, m, e, '&', k, now, Scan(k, Amped));
    }
  }

  /** Where a command leaves a scan. */
  ghost function Leaves(d: Deriv): At {
    match d
    case Simple(items) => Past(Begin, items)
    case Group(_, _, _, _, _, items) => Grouped
    case Piped(_, _, _, right) => Leaves(right)
    case Jobs(_, _, p, amps) => if amps == [] then Leaves(p) else Amped
    case Then(_, _, _, rest) => Leaves(rest)
  }

  lemma {:induction false} ReadingScan(t: string, s: nat, e: nat, c: Cmd, d: Deriv, k: nat)
    requires NoNul(t) && Reading(t, s, e, c, d)
    ensures Rest(t, s, Scan(k, Begin)) == Rest(t, e, Scan(k, Leaves(d))) && !Leaves(d).File?
      && (IsPipe(d) ==> Open(Leaves(d)))
    decreases d, 1
  {
    match d
    case Simple(items) => ItemsScan(t, s, e, items, k, Begin);
    case Group(i, inner, line, j, q, items) => GroupScan(t, s, e, c, d, k);
    case Piped(m, n, left, right) =>
      PipedScan(t, s, e, c, d, k);
      ReadingScan(t, n, e, c.right, right, k);
    case Jobs(m, pipe, p, amps) =>
      ReadingScan(t, s, m, pipe, p, k);
      AmpsScan(t, m, e, amps, k, Leaves(p));
    case Then(m, n, first, rest) =>
      ThenScan(t, s, e, c, d, k);
      ReadingScan(t, n, e, c.rest, rest, k);
  }

  lemma {:induction false} PipedScan(t: string, s: nat, e: nat, c: Cmd, d: Deriv, k: nat)
    requires NoNul(t) && Reading(t, s, e, c, d) && d.Piped?
    ensures d.n <= |t| && Rest(t, s, Scan(k, Begin)) == Rest(t, d.n, Scan(k, Begin))
    decreases d, 0
  {
    var at := Leaves(d.left);
    ReadingScan(t, s, d.m, c.left, d.left, k);
    SepScan(t, d.m, d.n, '|', k, at, Scan(k, Begin));
  }

  lemma {:induction false} ThenScan(t: string, s: nat, e: nat, c: Cmd, d: Deriv, k: nat)
    requires NoNul(t) && Reading(t, s, e, c, d) && d.Then?
    ensures d.n <= |t| && Rest(t, s, Scan(k, Begin)) == Rest(t, d.n, Scan(k, Begin))
    decreases d, 0
  {
    var at := Leaves(d.first);
    ReadingScan(t, s, d.m, c.first, d.first, k);
    SepScan(t, d.m, d.n, ';', k, at, Scan(k, Begin));
  }

  lemma {:induction false} GroupScan(t: string, s: nat, e: nat, c: Cmd, d: Deriv, k: nat)
    requires NoNul(t) && Reading(t, s, e, c, d) && d.Group?
    ensures Rest(t, s, Scan(k, Begin)) == Rest(t, e, Scan(k, Grouped))
    decreases d, 0
  {
    var k1, at := k + 1, Leaves(d.line);
    SepScan(t, s, d.i, '(', k, Begin, Scan(k1, Begin));
    ReadingScan(t, d.i, d.j, d.inner, d.line, k1);
    SepScan(t, d.j, d.k, ')', k1, at, Scan(k, Grouped));
    ItemsScan(t, d.k, e, d.items, k, Grouped);
  }

  /** A line that reads as a command is accepted. */
  lemma ReadingAccepted(t: string, c: Cmd, d: Deriv)
    requires NoNul(t) && IsLine(d) && Reading(t, 0, |t|, c, d)
    ensures Accepts(t)
  {
    ReadingScan(t, 0, |t|, c, d, 0);
  }
}
