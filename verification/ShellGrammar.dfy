/** The command lines of guest/xv6/user/sh.c: the grammar its parse functions follow, a scanner that
    tells which lines are commands, and that every such line is one command. */
module ShellGrammar {
  import opened Options

  const MAXARGS: nat := 10

  predicate Blank(c: char) { c == ' ' || c == '\t' || c == '\r' || c == '\n' || c == '\U{b}' }
  predicate Symbol(c: char) { c == '<' || c == '|' || c == '>' || c == '&' || c == ';' || c == '(' || c == ')' }
  predicate Angle(c: char) { c == '<' || c == '>' }
  predicate Stop(c: char) { c == '|' || c == ')' || c == '&' || c == ';' }
  predicate Plain(c: char) { c != '\0' && !Blank(c) && !Symbol(c) }

  /** The characters of the line from q up to eq. */
  datatype Span = Span(q: nat, eq: nat)

  /** A parsed command. Words are spans of the line. */
  datatype Cmd =
    | Exec(args: seq<Span>)
    | Redir(cmd: Cmd, file: Span, mode: Mode)
    | Pipe(left: Cmd, right: Cmd)
    | List(first: Cmd, rest: Cmd)
    | Back(job: Cmd)

  /** <, > and >> */
  datatype Mode = In | Out | Append

  // ---- words

  /** A word: plain characters, as many as there are. */
  ghost predicate IsRun(t: string, w: Span) {
    && w.q < w.eq <= |t| && (forall i | w.q <= i < w.eq :: Plain(t[i]))
    && (w.q > 0 ==> !Plain(t[w.q - 1])) && (w.eq < |t| ==> !Plain(t[w.eq]))
  }

  /** The words of the line from a up to b. */
  ghost function Runs(t: string, a: nat, b: nat): set<Span> {
    set q: nat, e: nat | a <= q <= b && a <= e <= b && IsRun(t, Span(q, e)) :: Span(q, e)
  }

  /** No word goes across position m. */
  predicate Gap(t: string, m: nat) { m == 0 || m >= |t| || !Plain(t[m - 1]) || !Plain(t[m]) }

  lemma RunsSplit(t: string, a: nat, m: nat, b: nat)
    requires a <= m <= b <= |t| && Gap(t, m)
    ensures Runs(t, a, b) == Runs(t, a, m) + Runs(t, m, b) && Runs(t, a, m) !! Runs(t, m, b)
    ensures multiset(Runs(t, a, b)) == multiset(Runs(t, a, m)) + multiset(Runs(t, m, b))
  {
    forall w ensures w in Runs(t, a, b) <==> w in Runs(t, a, m) + Runs(t, m, b) {
      assert w in Runs(t, a, b) ==> w.eq <= m || m <= w.q;
    }
  }

  /** There is no word among characters that are not plain. */
  lemma NoRuns(t: string, a: nat, b: nat)
    requires a <= b <= |t| && forall i | a <= i < b :: !Plain(t[i])
    ensures Runs(t, a, b) == {}
  {
    forall w ensures w !in Runs(t, a, b) { assert IsRun(t, w) ==> Plain(t[w.q]); }
  }

  lemma OneRun(t: string, q: nat, e: nat)
    requires IsRun(t, Span(q, e))
    ensures Runs(t, q, e) == {Span(q, e)}
  {
    forall w | w in Runs(t, q, e) ensures w == Span(q, e) {
      assert w.q == q;
      assert w.eq == e;
    }
  }

  // ---- tokens

  datatype Kind = End | Sym(c: char) | Twice | Word

  /** The first place from s on that is not blank. */
  function Skip(t: string, s: nat): (r: nat)
    requires s <= |t|
    ensures s <= r <= |t| && (r < |t| ==> !Blank(t[r]))
    decreases |t| - s
  {
    if s < |t| && Blank(t[s]) then Skip(t, s + 1) else s
  }

  /** Where the plain characters from q on end. */
  function WordEnd(t: string, q: nat): (r: nat)
    requires q <= |t|
    ensures q <= r <= |t|
    decreases |t| - q
  {
    if q < |t| && !Blank(t[q]) && !Symbol(t[q]) then WordEnd(t, q + 1) else q
  }

  /** Only blanks from a up to b. */
  predicate Blanks(t: string, a: nat, b: nat) { a <= b <= |t| && b <= Skip(t, a) }

  lemma {:induction false} SkipTo(t: string, s: nat, r: nat)
    requires Blanks(t, s, r)
    ensures Skip(t, s) == Skip(t, r)
    decreases r - s
  {
    if s < r { SkipTo(t, s + 1, r); }
  }

  lemma {:induction false} AllBlank(t: string, s: nat, r: nat)
    requires Blanks(t, s, r)
    ensures forall i | s <= i < r :: Blank(t[i])
    decreases r - s
  {
    if s < r { AllBlank(t, s + 1, r); }
  }

  lemma BlanksJoin(t: string, a: nat, m: nat, b: nat)
    requires Blanks(t, a, m) && Blanks(t, m, b)
    ensures Blanks(t, a, b)
  {
    SkipTo(t, a, m);
  }

  /** The characters of a token other than a word. */
  predicate Reads(t: string, kind: Kind, q: nat, eq: nat) {
    match kind
    case End => q == eq == |t|
    case Sym(c) => eq == q + 1 <= |t| && t[q] == c && Symbol(c)
    case Twice => eq == q + 2 <= |t| && t[q] == '>' && t[q + 1] == '>'
    case Word => q < eq <= |t|
  }

  /** The token at q, and where it ends. */
  function KindAt(t: string, q: nat): Kind requires q < |t| {
    if t[q] == '>' then if q + 1 < |t| && t[q + 1] == '>' then Twice else Sym('>')
    else if Symbol(t[q]) then Sym(t[q]) else Word
  }

  function EndAt(t: string, q: nat): (r: nat)
    requires q < |t| && !Blank(t[q])
    ensures q < r <= |t|
  {
    match KindAt(t, q)
    case Twice => q + 2
    case Word => WordEnd(t, q + 1)
    case _ => q + 1
  }

  predicate NoNul(t: string) { forall i | 0 <= i < |t| :: t[i] != '\0' }

  // ---- the tree

  datatype Redirect = Redirect(file: Span, mode: Mode)

  /** redircmd around a command, once for each redirection in order. */
  function Wrap(c: Cmd, rs: seq<Redirect>): Cmd {
    if rs == [] then c else Redir(Wrap(c, rs[..|rs| - 1]), rs[|rs| - 1].file, rs[|rs| - 1].mode)
  }

  function Files(rs: seq<Redirect>): seq<Span> { if rs == [] then [] else Files(rs[..|rs| - 1]) + [rs[|rs| - 1].file] }

  /** The words of a command, with how often each occurs. */
  function Words(c: Cmd): multiset<Span> {
    match c
    case Exec(args) => multiset(args)
    case Redir(d, file, _) => Words(d) + multiset{file}
    case Pipe(l, r) => Words(l) + Words(r)
    case List(l, r) => Words(l) + Words(r)
    case Back(d) => Words(d)
  }

  lemma {:induction false} WrapWords(c: Cmd, rs: seq<Redirect>)
    ensures Words(Wrap(c, rs)) == Words(c) + multiset(Files(rs))
  {
    if rs != [] { WrapWords(c, rs[..|rs| - 1]); }
  }

  lemma FilesMore(rs: seq<Redirect>, r: Redirect)
    ensures Files(rs + [r]) == Files(rs) + [r.file]
  {
    assert (rs + [r])[..|rs|] == rs;
  }

  lemma {:induction false} FilesJoin(rs: seq<Redirect>, qs: seq<Redirect>)
    ensures Files(rs + qs) == Files(rs) + Files(qs)
    decreases |qs|
  {
    if qs == [] {
      assert rs + qs == rs;
    } else {
      var k := |qs| - 1;
      FilesJoin(rs, qs[..k]);
      assert rs + qs == (rs + qs[..k]) + [qs[k]];
      FilesMore(rs + qs[..k], qs[k]);
    }
  }

  /** The words found from s up to next are those of the line, each once. */
  ghost predicate Covers(t: string, s: nat, next: nat, words: multiset<Span>) {
    s <= next <= |t| && Gap(t, next) && words == multiset(Runs(t, s, next))
  }

  lemma CoversNone(t: string, s: nat, next: nat)
    requires s <= next <= |t| && Gap(t, s) && forall i | s <= i < next :: !Plain(t[i])
    ensures Covers(t, s, next, multiset{})
  {
    NoRuns(t, s, next);
  }

  lemma CoversJoin(t: string, a: nat, m: nat, b: nat, u: multiset<Span>, v: multiset<Span>)
    requires Covers(t, a, m, u) && Covers(t, m, b, v)
    ensures Covers(t, a, b, u + v)
  {
    RunsSplit(t, a, m, b);
  }

  // ---- the grammar

  /** Blanks, the symbol c, blanks. */
  predicate Sep(t: string, a: nat, b: nat, c: char) {
    a < b <= |t| && var p := Skip(t, a); p < b && t[p] == c && Blanks(t, p + 1, b)
  }

  /** A word of a simple command, from position `from` on: an argument or the file of a
      redirection. */
  datatype Item = Item(from: nat, mode: Option<Mode>, w: Span)

  /** How far the symbol of a redirection reaches. */
  ghost predicate Arrow(t: string, a: nat, b: nat, mode: Option<Mode>) {
    match mode
    case None => Blanks(t, a, b)
    case Some(In) => Sep(t, a, b, '<')
    case Some(Out) => Sep(t, a, b, '>') && (b < |t| ==> t[b] != '>')
    case Some(Append) =>
      a < b <= |t| && var p := Skip(t, a); p + 1 < b && t[p] == '>' && t[p + 1] == '>' && Blanks(t, p + 2, b)
  }

  ghost predicate ItemOk(t: string, e: nat, it: Item) {
    && it.from <= it.w.q < it.w.eq <= e <= |t| && Arrow(t, it.from, it.w.q, it.mode)
    && (forall i | it.w.q <= i < it.w.eq :: Plain(t[i])) && (it.w.eq < |t| ==> !Plain(t[it.w.eq]))
        && Blanks(t, it.w.eq, e)
  }

  /** The items, one after the other, make up the line from s to e. */
  ghost predicate ItemsOk(t: string, s: nat, e: nat, items: seq<Item>) {
    if items == [] then Blanks(t, s, e)
    else
      var it := items[|items| - 1];
      s <= it.from && ItemOk(t, e, it) && ItemsOk(t, s, it.from, items[..|items| - 1])
  }

  ghost function ArgsOf(items: seq<Item>): seq<Span> {
    if items == [] then [] else
    var it := items[|items| - 1];
    ArgsOf(items[..|items| - 1]) + if it.mode.None? then [it.w] else []
  }

  ghost function RedsOf(items: seq<Item>): seq<Redirect> {
    if items == [] then [] else
    var it := items[|items| - 1];
    RedsOf(items[..|items| - 1]) + if it.mode.Some? then [Redirect(it.w, it.mode.value)] else []
  }

  /** How a command was read. A Simple command has its items; a Group has a line in parentheses
      and redirections; Piped has |; Line has n times &, and then perhaps ; and another line. */
  datatype Deriv =
    | Simple(items: seq<Item>)
    | Group(i: nat, inner: Cmd, line: Deriv, j: nat, k: nat, items: seq<Item>)
    | Piped(m: nat, n: nat, left: Deriv, right: Deriv)
    | Jobs(m: nat, pipe: Cmd, d: Deriv, amps: seq<nat>)
    | Then(m: nat, n: nat, first: Deriv, rest: Deriv)

  /** d reads c from the line between s and e. */
  ghost predicate Reading(t: string, s: nat, e: nat, c: Cmd, d: Deriv) decreases d {
    s <= e <= |t| && match d
    case Simple(items) => ItemsOk(t, s, e, items) && c == Wrap(Exec(ArgsOf(items)), RedsOf(items))
      && |ArgsOf(items)| < MAXARGS
    case Group(i, inner, line, j, k, items) =>
      && s <= i <= j <= k <= e && Sep(t, s, i, '(') && IsLine(line) && Reading(t, i, j, inner, line)
          && Sep(t, j, k, ')')
      && ItemsOk(t, k, e, items) && ArgsOf(items) == [] && c == Wrap(inner, RedsOf(items))
    case Piped(m, n, left, right) =>
      && s <= m <= n <= e && c.Pipe? && IsExec(left) && IsPipe(right)
      && Reading(t, s, m, c.left, left) && Sep(t, m, n, '|') && Reading(t, n, e, c.right, right)
    case Jobs(m, pipe, p, amps) =>
      s <= m <= e && IsPipe(p) && Reading(t, s, m, pipe, p) && Amps(t, m, e, amps) && c == Backs(pipe, |amps|)
    case Then(m, n, first, rest) =>
      && s <= m <= n <= e && c.List? && first.Jobs? && IsLine(rest)
      && Reading(t, s, m, c.first, first) && Sep(t, m, n, ';') && Reading(t, n, e, c.rest, rest)
  }

  predicate IsExec(d: Deriv) { d.Simple? || d.Group? }
  predicate IsPipe(d: Deriv) { IsExec(d) || d.Piped? }
  predicate IsLine(d: Deriv) { d.Jobs? || d.Then? }

  /** Ampersands, each up to the position given for it. */
  ghost predicate Amps(t: string, s: nat, e: nat, amps: seq<nat>) {
    if amps == [] then Blanks(t, s, e)
    else
      var m := amps[|amps| - 1];
      s <= m <= e && Amps(t, s, m, amps[..|amps| - 1]) && Sep(t, m, e, '&')
  }

  function Backs(c: Cmd, n: nat): Cmd { if n == 0 then c else Back(Backs(c, n - 1)) }

  // ---- blanks more or less do not matter

  lemma SepMore(t: string, a: nat, b: nat, b': nat, c: char)
    requires Sep(t, a, b, c) && Blanks(t, b, b')
    ensures Sep(t, a, b', c)
  {
    BlanksJoin(t, Skip(t, a) + 1, b, b');
  }

  lemma ItemsMore(t: string, s: nat, e: nat, e': nat, items: seq<Item>)
    requires ItemsOk(t, s, e, items) && Blanks(t, e, e')
    ensures ItemsOk(t, s, e', items)
  {
    BlanksJoin(t, if items == [] then s else items[|items| - 1].w.eq, e, e');
  }

  lemma {:induction false} ReadingMore(t: string, s: nat, e: nat, e': nat, c: Cmd, d: Deriv)
    requires Reading(t, s, e, c, d) && Blanks(t, e, e')
    ensures Reading(t, s, e', c, d)
    decreases d
  {
    match d
    case Simple(items) => ItemsMore(t, s, e, e', items);
    case Group(i, inner, line, j, k, items) => ItemsMore(t, k, e, e', items);
    case Piped(m, n, left, right) => ReadingMore(t, n, e, e', c.right, right);
    case Jobs(m, pipe, p, amps) => AmpsMore(t, m, e, e', amps);
    case Then(m, n, first, rest) => ReadingMore(t, n, e, e', c.rest, rest);
  }

  lemma AmpsOneMore(t: string, s: nat, m: nat, e: nat, amps: seq<nat>)
    requires s <= m <= e && Amps(t, s, m, amps) && Sep(t, m, e, '&')
    ensures Amps(t, s, e, amps + [m])
  {
    assert (amps + [m])[..|amps|] == amps;
  }

  lemma AmpsMore(t: string, s: nat, e: nat, e': nat, amps: seq<nat>)
    requires Amps(t, s, e, amps) && Blanks(t, e, e')
    ensures Amps(t, s, e', amps)
  {
    if amps == [] { BlanksJoin(t, s, e, e'); } else { SepMore(t, amps[|amps| - 1], e, e', '&'); }
  }

  lemma LastOf(a: seq<Item>, b: seq<Item>)
    requires b != []
    ensures a + b != [] && (a + b)[|a + b| - 1] == b[|b| - 1] && (a + b)[..|a + b| - 1] == a + b[..|b| - 1]
  {
  }

  lemma {:induction false} JoinOk(t: string, s: nat, m: nat, e: nat, a: seq<Item>, b: seq<Item>)
    requires ItemsOk(t, s, m, a) && ItemsOk(t, m, e, b) && s <= m
    ensures ItemsOk(t, s, e, a + b)
    decreases |b|
  {
    if b == [] {
      assert a + b == a;
      ItemsMore(t, s, m, e, a);
    } else {
      JoinOk(t, s, m, b[|b| - 1].from, a, b[..|b| - 1]);
      LastOf(a, b);
    }
  }

  lemma {:induction false} JoinArgs(a: seq<Item>, b: seq<Item>)
    ensures ArgsOf(a + b) == ArgsOf(a) + ArgsOf(b)
    decreases |b|
  {
    if b == [] {
      assert a + b == a;
    } else {
      JoinArgs(a, b[..|b| - 1]);
      LastOf(a, b);
    }
  }

  lemma {:induction false} JoinReds(a: seq<Item>, b: seq<Item>)
    ensures RedsOf(a + b) == RedsOf(a) + RedsOf(b)
    decreases |b|
  {
    if b == [] {
      assert a + b == a;
    } else {
      JoinReds(a, b[..|b| - 1]);
      LastOf(a, b);
    }
  }

  lemma ItemsJoin(t: string, s: nat, m: nat, e: nat, a: seq<Item>, b: seq<Item>)
    requires ItemsOk(t, s, m, a) && ItemsOk(t, m, e, b) && s <= m
    ensures ItemsOk(t, s, e, a + b) && ArgsOf(a + b) == ArgsOf(a) + ArgsOf(b) && RedsOf(a + b) == RedsOf(a) + RedsOf(b)
  {
    JoinOk(t, s, m, e, a, b);
    JoinArgs(a, b);
    JoinReds(a, b);
  }

  lemma OneItem(t: string, s: nat, e: nat, it: Item)
    requires ItemOk(t, e, it) && it.from == s
    ensures ItemsOk(t, s, e, [it])
    ensures ArgsOf([it]) == (if it.mode.None? then [it.w] else [])
      && RedsOf([it]) == if it.mode.Some? then [Redirect(it.w, it.mode.value)] else []
  {
    assert [it][..0] == [];
  }

  // ---- which lines are commands

  /** Where a scan of the line is: `depth` parentheses are open, and the command at hand is not
      begun, has some arguments, was a group, has had an &, or waits for the file of a
      redirection. */
  datatype At = Begin | Args(n: nat) | Grouped | Amped | File(back: At)
  datatype Scan = Scan(depth: nat, at: At) | Wrong

  function Step(st: Scan, k: Kind): Scan {
    if st.Wrong? then Wrong
    else
      match k
      case End => st
      case Word =>
        (match st.at
         case Begin => Scan(st.depth, Args(1))
         case Args(n) => if n + 1 >= MAXARGS then Wrong else Scan(st.depth, Args(n + 1))
         case File(back) => Scan(st.depth, back)
         case _ => Wrong)
      case Twice => Arrowed(st)
      case Sym(c) =>
        if c == '<' || c == '>' then Arrowed(st)
        else if st.at.File? then Wrong
        else if c == '(' then (if st.at.Begin? then Scan(st.depth + 1, Begin) else Wrong)
        else if c == ')' then (if st.depth == 0 then Wrong else Scan(st.depth - 1, Grouped))
        else if c == '|' then (if st.at.Amped? then Wrong else Scan(st.depth, Begin))
        else if c == ';' then Scan(st.depth, Begin)
        else if c == '&' then Scan(st.depth, Amped)
        else Wrong
  }

  function Arrowed(st: Scan): Scan requires !st.Wrong? {
    match st.at
    case Begin => Scan(st.depth, File(Args(0)))
    case Args(_) => Scan(st.depth, File(st.at))
    case Grouped => Scan(st.depth, File(st.at))
    case _ => Wrong
  }

  /** The scan of the rest of the line from s on. */
  function Rest(t: string, s: nat, st: Scan): Scan requires s <= |t| decreases |t| - s {
    var q := Skip(t, s);
    if q == |t| then st else Rest(t, EndAt(t, q), Step(st, KindAt(t, q)))
  }

  predicate Fine(st: Scan) { st.Scan? && st.depth == 0 && !st.at.File? }

  /** The line is a command. */
  predicate Accepts(t: string) { Fine(Rest(t, 0, Scan(0, Begin))) }

  lemma {:induction false} WrongStays(t: string, s: nat)
    requires s <= |t|
    ensures Rest(t, s, Wrong) == Wrong
    decreases |t| - s
  {
    var q := Skip(t, s);
    if q < |t| { WrongStays(t, EndAt(t, q)); }
  }

  /** Blanks do not change a scan. */
  lemma RestSkip(t: string, s: nat, r: nat, st: Scan)
    requires s <= |t| && r == Skip(t, s)
    ensures Rest(t, s, st) == Rest(t, r, st)
  {
    SkipTo(t, s, r);
  }

  /** One token on. */
  lemma RestToken(t: string, s: nat, q: nat, next: nat, st: Scan)
    requires s <= |t| && q == Skip(t, s) && q < |t| && next == Skip(t, EndAt(t, q))
    ensures Rest(t, s, st) == Rest(t, next, Step(st, KindAt(t, q)))
  {
    RestSkip(t, EndAt(t, q), next, Step(st, KindAt(t, q)));
  }

  predicate Open(at: At) { at.Begin? || at.Args? || at.Grouped? }

  /** What a redirection makes of a command that is not begun. */
  function Begun(at: At): At { if at.Begin? then Args(0) else at }

  /** The n-th argument. */
  lemma WordScan(t: string, p: nat, m: nat, k: nat, at: At, n: nat)
    requires p < |t| && Skip(t, p) == p && KindAt(t, p) == Word && m == Skip(t, EndAt(t, p))
    requires (at.Begin? && n == 1) || (at.Args? && n == at.n + 1)
    ensures n >= MAXARGS ==> Rest(t, p, Scan(k, at)) == Wrong
    ensures n < MAXARGS ==> Rest(t, p, Scan(k, at)) == Rest(t, m, Scan(k, Args(n)))
  {
    RestToken(t, p, p, m, Scan(k, at));
    WrongStays(t, m);
  }

  lemma FileScan(t: string, m: nat, q: nat, next: nat, k: nat, at: At)
    requires m <= |t| && q == Skip(t, m) && Open(at) && (q < |t| ==> next == Skip(t, EndAt(t, q)))
    ensures q == |t| || KindAt(t, q) != Word ==> !Fine(Rest(t, m, Scan(k, File(at))))
    ensures q < |t| && KindAt(t, q) == Word ==> Rest(t, m, Scan(k, File(at))) == Rest(t, next, Scan(k, at))
  {
    if q < |t| {
      RestToken(t, m, q, next, Scan(k, File(at)));
      WrongStays(t, next);
    }
  }

  lemma ArrowScan(t: string, p: nat, m: nat, k: nat, at: At)
    requires p < |t| && Skip(t, p) == p && Angle(t[p]) && m == Skip(t, EndAt(t, p)) && Open(at)
    ensures Rest(t, p, Scan(k, at)) == Rest(t, m, Scan(k, File(Begun(at))))
  {
    RestToken(t, p, p, m, Scan(k, at));
  }

  /** A symbol other than an arrow. */
  lemma SymbolScan(t: string, p: nat, m: nat, k: nat, at: At, st: Scan)
    requires p < |t| && Skip(t, p) == p && KindAt(t, p) == Sym(t[p]) && m == Skip(t, EndAt(t, p))
      && st == Step(Scan(k, at), Sym(t[p]))
    ensures Rest(t, p, Scan(k, at)) == Rest(t, m, st)
  {
    RestToken(t, p, p, m, Scan(k, at));
  }

  /** A token that cannot follow. */
  lemma StuckScan(t: string, p: nat, k: nat, at: At)
    requires p < |t| && Skip(t, p) == p && Step(Scan(k, at), KindAt(t, p)) == Wrong
    ensures Rest(t, p, Scan(k, at)) == Wrong
  {
    var m := Skip(t, EndAt(t, p));
    RestToken(t, p, p, m, Scan(k, at));
    WrongStays(t, m);
  }

  // ---- the words of what was read

  lemma SepRuns(t: string, a: nat, b: nat, c: char)
    requires Sep(t, a, b, c) && Symbol(c)
    ensures a < b <= |t| && Gap(t, a) && Gap(t, b) && Runs(t, a, b) == {}
  {
    AllBlank(t, a, Skip(t, a));
    AllBlank(t, Skip(t, a) + 1, b);
    NoRuns(t, a, b);
    assert !Plain(t[a]) && !Plain(t[b - 1]);
  }

  lemma ItemRuns(t: string, e: nat, it: Item)
    requires ItemOk(t, e, it) && Gap(t, it.from)
    ensures IsRun(t, it.w) && Covers(t, it.from, e, multiset{it.w})
  {
    var a, q, x := it.from, it.w.q, it.w.eq;
    ArrowPlain(t, a, q, it.mode);
    assert q > 0 ==> !Plain(t[q - 1]);
    OneRun(t, q, x);
    NoRuns(t, a, q);
    AllBlank(t, x, e);
    NoRuns(t, x, e);
    RunsSplit(t, a, q, e);
    RunsSplit(t, q, x, e);
    assert multiset({it.w}) == multiset{it.w};
  }

  lemma ArrowPlain(t: string, a: nat, b: nat, mode: Option<Mode>)
    requires Arrow(t, a, b, mode)
    ensures a <= b <= |t| && forall i | a <= i < b :: !Plain(t[i])
  {
    var p := Skip(t, a);
    AllBlank(t, a, if p < b then p else b);
    if p < b { AllBlank(t, if mode == Some(Append) then p + 2 else p + 1, b); }
  }

  ghost function AllOf(items: seq<Item>): multiset<Span> {
    if items == [] then multiset{} else AllOf(items[..|items| - 1]) + multiset{items[|items| - 1].w}
  }

  lemma OneMore(a: seq<Span>, b: seq<Span>, w: Span)
    ensures multiset(a + [w]) + multiset(b) == multiset(a) + multiset(b) + multiset{w}
    ensures multiset(a) + multiset(b + [w]) == multiset(a) + multiset(b) + multiset{w}
  {
  }

  lemma {:induction false} AllOfBoth(items: seq<Item>)
    ensures AllOf(items) == multiset(ArgsOf(items)) + multiset(Files(RedsOf(items)))
    decreases |items|
  {
    if items != [] {
      var it, rest := items[|items| - 1], items[..|items| - 1];
      var args, files := ArgsOf(rest), Files(RedsOf(rest));
      AllOfBoth(rest);
      if it.mode.Some? {
        FilesMore(RedsOf(rest), Redirect(it.w, it.mode.value));
        assert ArgsOf(items) == args && Files(RedsOf(items)) == files + [it.w];
      } else {
        assert ArgsOf(items) == args + [it.w] && RedsOf(items) == RedsOf(rest);
      }
      OneMore(args, files, it.w);
    }
  }

  lemma {:induction false} ItemsCoverAll(t: string, s: nat, e: nat, items: seq<Item>)
    requires ItemsOk(t, s, e, items) && Gap(t, s) && s <= e
    ensures Covers(t, s, e, AllOf(items))
    decreases |items|
  {
    if items == [] {
      AllBlank(t, s, e);
      CoversNone(t, s, e);
    } else {
      var it, rest := items[|items| - 1], items[..|items| - 1];
      ItemsCoverAll(t, s, it.from, rest);
      ItemRuns(t, e, it);
      CoversJoin(t, s, it.from, e, AllOf(rest), multiset{it.w});
    }
  }

  lemma ItemsCover(t: string, s: nat, e: nat, items: seq<Item>)
    requires ItemsOk(t, s, e, items) && Gap(t, s) && s <= e
    ensures Covers(t, s, e, multiset(ArgsOf(items)) + multiset(Files(RedsOf(items))))
  {
    ItemsCoverAll(t, s, e, items);
    AllOfBoth(items);
  }

  lemma {:induction false} AmpsCover(t: string, s: nat, e: nat, amps: seq<nat>)
    requires Amps(t, s, e, amps) && Gap(t, s)
    ensures Covers(t, s, e, multiset{})
    decreases |amps|
  {
    if amps == [] {
      AllBlank(t, s, e);
      CoversNone(t, s, e);
    } else {
      var m := amps[|amps| - 1];
      AmpsCover(t, s, m, amps[..|amps| - 1]);
      SepCovers(t, m, e, '&');
      CoversJoin(t, s, m, e, multiset{}, multiset{});
    }
  }

  lemma SepCovers(t: string, a: nat, b: nat, c: char)
    requires Sep(t, a, b, c) && Symbol(c)
    ensures Covers(t, a, b, multiset{})
  {
    SepRuns(t, a, b, c);
    assert multiset(Runs(t, a, b)) == multiset{};
  }

  lemma {:induction false} BacksWords(c: Cmd, n: nat)
    ensures Words(Backs(c, n)) == Words(c)
  {
    if n > 0 { BacksWords(c, n - 1); }
  }

  /** The words of a command are exactly the words of the line it was read from, each once. */
  lemma {:induction false} ReadingWords(t: string, s: nat, e: nat, c: Cmd, d: Deriv)
    requires Reading(t, s, e, c, d) && Gap(t, s)
    ensures Covers(t, s, e, Words(c))
    decreases d, 1
  {
    match d
    case Simple(items) =>
      ItemsCover(t, s, e, items);
      WrapWords(Exec(ArgsOf(items)), RedsOf(items));
    case Group(_, _, _, _, _, _) => GroupWords(t, s, e, c, d);
    case Piped(m, n, left, right) => TwoWords(t, s, m, n, e, '|', c.left, c.right, left, right, d);
    case Jobs(m, pipe, p, amps) =>
      ReadingWords(t, s, m, pipe, p);
      AmpsCover(t, m, e, amps);
      CoversJoin(t, s, m, e, Words(pipe), multiset{});
      BacksWords(pipe, |amps|);
    case Then(m, n, first, rest) => TwoWords(t, s, m, n, e, ';', c.first, c.rest, first, rest, d);
  }

  lemma {:induction false} GroupWords(t: string, s: nat, e: nat, c: Cmd, d: Deriv)
    requires Reading(t, s, e, c, d) && d.Group? && Gap(t, s)
    ensures Covers(t, s, e, Words(c))
    decreases d, 0
  {
    SepCovers(t, s, d.i, '(');
    ReadingWords(t, d.i, d.j, d.inner, d.line);
    SepCovers(t, d.j, d.k, ')');
    ItemsCover(t, d.k, e, d.items);
    CoversJoin(t, s, d.i, d.j, multiset{}, Words(d.inner));
    CoversJoin(t, s, d.j, d.k, Words(d.inner), multiset{});
    CoversJoin(t, s, d.k, e, Words(d.inner), multiset(Files(RedsOf(d.items))));
    WrapWords(d.inner, RedsOf(d.items));
  }

  /** Two commands with a sign between them. */
  lemma {:induction false} TwoWords(t: string, s: nat, m: nat, n: nat, e: nat, sign: char, l: Cmd, r: Cmd, left: Deriv,
      right: Deriv, d: Deriv)
    requires Gap(t, s) && Reading(t, s, m, l, left) && Sep(t, m, n, sign) && Symbol(sign) && Reading(t, n, e, r, right)
    requires (d.Piped? && d.left == left && d.right == right) || (d.Then? && d.first == left && d.rest == right)
    ensures Covers(t, s, e, Words(l) + Words(r))
    decreases d, 0
  {
    ReadingWords(t, s, m, l, left);
    SepCovers(t, m, n, sign);
    ReadingWords(t, n, e, r, right);
    CoversJoin(t, s, m, n, Words(l), multiset{});
    CoversJoin(t, s, n, e, Words(l), Words(r));
  }
}
