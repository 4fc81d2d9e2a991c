/** The parser of guest/xv6/user/sh.c: gettoken, peek, the parse functions and nulterminate, which
    ends every word of the command in the input line itself. */
module ShellParser {
  import opened Options
  import opened ShellGrammar
  import ShellUnique

  // ---- tokens

  method SkipBlanks(t: string, s: nat) returns (r: nat)
    requires s <= |t|
    ensures s <= r <= |t| && r == Skip(t, s)
  {
    r := s;
    while r < |t| && Blank(t[r])
      invariant s <= r <= |t| && Skip(t, s) == Skip(t, r)
    {
      r := r + 1;
    }
  }

  /** gettoken: skip blanks, read one token, skip blanks again. */
  method GetToken(t: string, s: nat) returns (kind: Kind, q: nat, eq: nat, next: nat)
    requires s <= |t| && NoNul(t)
    ensures s <= q <= eq <= next <= |t| && Reads(t, kind, q, eq)
    ensures kind.Word? ==> (forall i | q <= i < eq :: Plain(t[i])) && (eq < |t| ==> !Plain(t[eq]))
    ensures !kind.End? ==> s < next
    ensures kind == Sym('>') ==> eq == |t| || t[eq] != '>'
    ensures q == Skip(t, s) && (q < |t| ==> kind == KindAt(t, q) && eq == EndAt(t, q)) && next == Skip(t, eq)
  {
    q := SkipBlanks(t, s);
    eq := q;
    if q == |t| {
      kind := End;
    } else if t[q] == '>' {
      kind, eq := Sym('>'), q + 1;
      if eq < |t| && t[eq] == '>' { kind, eq := Twice, eq + 1; }
    } else if Symbol(t[q]) {
      kind, eq := Sym(t[q]), q + 1;
    } else {
      kind := Word;
      assert Plain(t[q]);
      while eq < |t| && !Blank(t[eq]) && !Symbol(t[eq])
        invariant q <= eq <= |t| && (eq == q ==> Plain(t[q])) && WordEnd(t, q) == WordEnd(t, eq)
        invariant forall i | q <= i < eq :: Plain(t[i])
      {
        eq := eq + 1;
      }
    }
    next := SkipBlanks(t, eq);
  }

  /** peek: skip blanks; is the next character one of `toks`? */
  method Peek(t: string, s: nat, toks: string) returns (hit: bool, next: nat)
    requires s <= |t| && NoNul(t)
    ensures s <= next <= |t| && next == Skip(t, s)
    ensures hit <==> next < |t| && t[next] in toks
  {
    next := SkipBlanks(t, s);
    hit := next < |t| && t[next] in toks;
  }

  // ---- the parse functions; not ok is a panic

  /** The symbol peek has found is the next token. */
  method TakeSymbol(t: string, p: nat) returns (next: nat)
    requires p < |t| && NoNul(t) && Symbol(t[p]) && t[p] != '>'
    ensures p < next <= |t| && Sep(t, p, next, t[p])
    ensures Skip(t, p) == p && KindAt(t, p) == Sym(t[p]) && next == Skip(t, EndAt(t, p))
  {
    var kind, q, eq;
    kind, q, eq, next := GetToken(t, p);
    assert q == p;
  }

  method ParseRedirs(t: string, s: nat, ghost k: nat, ghost at: At)
      returns (rs: seq<Redirect>, next: nat, ok: bool, ghost items: seq<Item>)
    requires s <= |t| && NoNul(t) && Open(at)
    ensures s <= next <= |t|
    ensures ok ==> ItemsOk(t, s, next, items) && ArgsOf(items) == [] && RedsOf(items) == rs
    ensures ok ==> Skip(t, next) == next && (next < |t| ==> !Angle(t[next]))
    ensures ok ==> Rest(t, s, Scan(k, at)) == Rest(t, next, Scan(k, if rs == [] then at else Begun(at)))
    ensures !ok ==> !Fine(Rest(t, s, Scan(k, at)))
  {
    rs, next, ok, items := [], s, true, [];
    while true
      invariant ok && s <= next <= |t| && ItemsOk(t, s, next, items) && ArgsOf(items) == [] && RedsOf(items) == rs
      invariant Rest(t, s, Scan(k, at)) == Rest(t, next, Scan(k, if rs == [] then at else Begun(at)))
      decreases |t| - next
    {
      var hit, p := Peek(t, next, "<>");
      ItemsMore(t, s, next, p, items);
      ghost var now := if rs == [] then at else Begun(at);
      RestSkip(t, next, p, Scan(k, now));
      SkipTo(t, next, p);
      if !hit { return rs, p, true, items; }
      var r, after;
      ghost var it;
      r, after, ok, it := ParseRedir(t, p, k, now);
      if !ok { return rs, after, false, items; }
      OneItem(t, p, after, it);
      ItemsJoin(t, s, p, after, items, [it]);
      rs, next, items := rs + [r], after, items + [it];
    }
  }

  /** One redirection: its symbol and its file. Not ok is "missing file for redirection". */
  method ParseRedir(t: string, p: nat, ghost k: nat, ghost at: At)
      returns (r: Redirect, next: nat, ok: bool, ghost it: Item)
    requires p < |t| && NoNul(t) && Angle(t[p]) && Open(at)
    ensures p < next <= |t|
    ensures ok ==> ItemOk(t, next, it) && it.from == p && it.w == r.file && it.mode == Some(r.mode)
    ensures ok ==> Rest(t, p, Scan(k, at)) == Rest(t, next, Scan(k, Begun(at)))
    ensures !ok ==> !Fine(Rest(t, p, Scan(k, at)))
  {
    var tok, a, b, m := GetToken(t, p);
    var mode := if tok == Sym('<') then In else if tok == Twice then Append else Out;
    var kind, q, eq;
    kind, q, eq, next := GetToken(t, m);
    r := Redirect(Span(q, eq), mode);
    it := Item(p, Some(mode), Span(q, eq));
    assert a == p;
    ArrowScan(t, p, m, k, at);
    FileScan(t, m, q, next, k, Begun(at));
    if !kind.Word? { return r, next, false, it; }
    assert q == m;
    ArrowThere(t, p, q, tok, b, mode);
    ok := true;
  }

  lemma ArrowThere(t: string, p: nat, q: nat, tok: Kind, b: nat, mode: Mode)
    requires p < b <= q < |t| && Reads(t, tok, p, b) && Blanks(t, b, q) && Angle(t[p]) && Plain(t[q]) && !tok.Word?
    requires tok == Sym('>') ==> b == |t| || t[b] != '>'
    requires mode == if tok == Sym('<') then In else if tok == Twice then Append else Out
    ensures Arrow(t, p, q, Some(mode))
  {
  }

  /** Where parseexec, parsepipe and parseline stop. */
  ghost predicate ExecEnd(t: string, next: nat, at: At) {
    && next <= |t| && Skip(t, next) == next && Open(at)
    && (next < |t| ==> if at.Grouped? then !Angle(t[next]) else Stop(t[next]))
  }

  ghost predicate PipeEnd(t: string, next: nat, at: At) { ExecEnd(t, next, at) && (next < |t| ==> t[next] != '|') }

  /** At the end, at a closing parenthesis, or at something that cannot follow. */
  ghost predicate LineEnd(t: string, next: nat, k: nat, at: At) {
    && next <= |t| && Skip(t, next) == next && !at.File?
    && (next < |t| ==> t[next] == ')' || Step(Scan(k, at), KindAt(t, next)) == Wrong)
  }

  method ParseExec(t: string, s: nat, ghost k: nat) returns (c: Cmd, next: nat, ok: bool, ghost d: Deriv, ghost at: At)
    requires s <= |t| && NoNul(t)
    ensures s <= next <= |t|
    ensures ok ==> IsExec(d) && Reading(t, s, next, c, d)
    ensures ok ==> ExecEnd(t, next, at) && Rest(t, s, Scan(k, Begin)) == Rest(t, next, Scan(k, at))
    ensures !ok ==> !Fine(Rest(t, s, Scan(k, Begin)))
    decreases |t| - s, 1
  {
    var hit, p := Peek(t, s, "(");
    RestSkip(t, s, p, Scan(k, Begin));
    SkipTo(t, s, p);
    if hit {
      c, next, ok, d := ParseBlock(t, s, p, k);
      at := Grouped;
    } else {
      c, next, ok, d, at := ParseArgs(t, s, p, k);
    }
  }

  /** parseexec without a parenthesis. */
  method ParseArgs(t: string, s0: nat, s: nat, ghost k: nat)
      returns (c: Cmd, next: nat, ok: bool, ghost d: Deriv, ghost at: At)
    requires s0 <= s <= |t| && NoNul(t) && Blanks(t, s0, s) && Skip(t, s) == s && (s < |t| ==> t[s] != '(')
    ensures s <= next <= |t|
    ensures ok ==> d.Simple? && Reading(t, s0, next, c, d)
    ensures ok ==> ExecEnd(t, next, at) && Rest(t, s, Scan(k, Begin)) == Rest(t, next, Scan(k, at))
    ensures !ok ==> !Fine(Rest(t, s, Scan(k, Begin)))
  {
    c, d, at := Exec([]), Simple([]), Begin;
    var rs, m;
    ghost var items;
    rs, m, ok, items := ParseRedirs(t, s, k, Begin);
    if !ok { return c, m, false, d, at; }
    if rs != [] { at := Args(0); } else { NoRedirs(t, s, m, items); }
    ItemsJoin(t, s0, s, m, [], items);
    assert [] + items == items;
    var args;
    args, rs, next, ok, items, at := MoreArgs(t, s0, m, rs, k, at, items);
    c, d := Wrap(Exec(args), rs), Simple(items);
  }

  /** Whether the arguments end here. */
  method PeekStop(t: string, s: nat) returns (hit: bool, p: nat)
    requires s <= |t| && NoNul(t)
    ensures p == Skip(t, s) && s <= p <= |t| && (hit <==> p < |t| && Stop(t[p]))
  {
    hit, p := Peek(t, s, "|)&;");
  }

  /** The loop of parseexec: arguments and redirections in any order. Not ok is "syntax" or
      "too many args". */
  method MoreArgs(t: string, s0: nat, s: nat, rs0: seq<Redirect>, ghost k: nat, ghost at0: At, ghost items0: seq<Item>)
    returns (args: seq<Span>, rs: seq<Redirect>, next: nat, ok: bool, ghost items: seq<Item>, ghost at: At)
    requires s0 <= s <= |t| && NoNul(t) && Skip(t, s) == s && (s < |t| ==> !Angle(t[s]) && (at0.Begin? ==> t[s] != '('))
    requires ItemsOk(t, s0, s, items0) && ArgsOf(items0) == [] && RedsOf(items0) == rs0
      && (at0 == Begin || at0 == Args(0))
    ensures s <= next <= |t|
    ensures ok ==> ItemsOk(t, s0, next, items) && ArgsOf(items) == args && RedsOf(items) == rs && |args| < MAXARGS
    ensures ok ==> ExecEnd(t, next, at) && Rest(t, s, Scan(k, at0)) == Rest(t, next, Scan(k, at))
    ensures !ok ==> !Fine(Rest(t, s, Scan(k, at0)))
  {
    args, rs, next, ok, items, at := [], rs0, s, true, items0, at0;
    while true
      invariant ok && s <= next <= |t| && |args| < MAXARGS && ItemsOk(t, s0, next, items) && ArgsOf(items) == args
        && RedsOf(items) == rs
      invariant Rest(t, s, Scan(k, at0)) == Rest(t, next, Scan(k, at)) && Skip(t, next) == next
        && (next < |t| ==> !Angle(t[next]))
      invariant (|args| == 0 && at == at0 && next == s) || (|args| > 0 && at == Args(|args|))
      decreases |t| - next
    {
      var hit, p := PeekStop(t, next);
      if hit { return; }
      var done, w, more, after;
      ghost var its;
      ghost var n := |args| + 1;
      done, w, more, after, ok, its := ParseArg(t, p, k, at, n);
      if !ok || done { return; }
      ItemsJoin(t, s0, p, after, items, its);
      args, rs, next, items := args + [w], rs + more, after, items + its;
      assert |args| == n;
      if |args| >= MAXARGS { return args, rs, next, false, items, at; }
      at := Args(n);
    }
  }

  /** Without redirections the cursor only goes over blanks. */
  lemma NoRedirs(t: string, s: nat, next: nat, items: seq<Item>)
    requires s <= next <= |t| && ItemsOk(t, s, next, items) && ArgsOf(items) == [] && RedsOf(items) == []
      && Skip(t, s) == s
    ensures next == s
  {
    assert items == [];
  }

  /** One argument and the redirections after it; `done` at the end of the line. */
  method ParseArg(t: string, p: nat, ghost k: nat, ghost at: At, ghost n: nat)
    returns (done: bool, w: Span, more: seq<Redirect>, next: nat, ok: bool, ghost items: seq<Item>)
    requires p <= |t| && NoNul(t) && Skip(t, p) == p && (p < |t| ==>
      !Stop(t[p]) && !Angle(t[p]) && (t[p] == '(' ==> at.Args?))
    requires (at.Begin? && n == 1) || (at.Args? && n == at.n + 1)
    ensures p <= next <= |t| && (ok && !done ==> p < next) && (done ==> p == next == |t|)
    ensures ok && !done ==> ItemsOk(t, p, next, items) && ArgsOf(items) == [w] && RedsOf(items) == more
    ensures ok && !done ==> Skip(t, next) == next && (next < |t| ==> !Angle(t[next]))
    ensures !ok ==> !Fine(Rest(t, p, Scan(k, at)))
    ensures ok && !done && n >= MAXARGS ==> !Fine(Rest(t, p, Scan(k, at)))
    ensures ok && !done && n < MAXARGS ==> Rest(t, p, Scan(k, at)) == Rest(t, next, Scan(k, Args(n)))
  {
    var kind, q, eq, m := GetToken(t, p);
    w, more, items, done := Span(q, eq), [], [], false;
    if kind.End? { return true, w, more, m, true, items; }
    if !kind.Word? {
      StuckScan(t, p, k, at);
      return false, w, more, m, false, items;
    }
    WordScan(t, p, m, k, at, n);
    ghost var it := Item(p, None, w);
    OneItem(t, p, m, it);
    more, next, ok, items := ParseRedirs(t, m, k, Args(n));
    if !ok { return; }
    ItemsJoin(t, p, m, next, [it], items);
    items := [it] + items;
  }

  /** Not ok is "missing )" or a panic inside. */
  method ParseBlock(t: string, s0: nat, s: nat, ghost k: nat) returns (c: Cmd, next: nat, ok: bool, ghost d: Deriv)
    requires s0 <= s < |t| && t[s] == '(' && NoNul(t) && Blanks(t, s0, s)
    ensures s <= next <= |t|
    ensures ok ==> d.Group? && Reading(t, s0, next, c, d)
    ensures ok ==> ExecEnd(t, next, Grouped) && Rest(t, s, Scan(k, Begin)) == Rest(t, next, Scan(k, Grouped))
    ensures !ok ==> !Fine(Rest(t, s, Scan(k, Begin)))
    decreases |t| - s, 0
  {
    d := Simple([]);
    var i := TakeSymbol(t, s);
    ghost var k1: nat := k + 1;
    SymbolScan(t, s, i, k, Begin, Scan(k1, Begin));
    ghost var dl, at;
    var inner, j;
    inner, j, ok, dl, at := ParseLine(t, i, k1);
    if !ok { return inner, j, false, d; }
    c, next, ok, d := CloseBlock(t, s0, s, i, j, inner, dl, k, k1, at);
  }

  /** The end of a block: the parenthesis, and redirections of the whole. */
  method CloseBlock(t: string, s0: nat, s: nat, i: nat, j: nat, inner: Cmd, ghost dl: Deriv, ghost k: nat,
      ghost k1: nat, ghost at: At)
    returns (c: Cmd, next: nat, ok: bool, ghost d: Deriv)
    requires s0 <= s <= i <= j <= |t| && NoNul(t) && Blanks(t, s0, s) && Sep(t, s, i, '(') && IsLine(dl)
      && Reading(t, i, j, inner, dl)
    requires k1 == k + 1 && LineEnd(t, j, k1, at)
    ensures j <= next <= |t|
    ensures ok ==> d.Group? && Reading(t, s0, next, c, d)
    ensures ok ==> ExecEnd(t, next, Grouped) && Rest(t, j, Scan(k1, at)) == Rest(t, next, Scan(k, Grouped))
    ensures !ok ==> !Fine(Rest(t, j, Scan(k1, at)))
  {
    d := Simple([]);
    var q;
    q, ok := TakeClose(t, j, k, k1, at);
    if !ok { return inner, q, false, d; }
    ghost var items;
    var rs;
    rs, next, ok, items := ParseRedirs(t, q, k, Grouped);
    if !ok { return inner, next, false, d; }
    c, d := Wrap(inner, rs), Group(i, inner, dl, j, q, items);
    GroupReads(t, s0, s, j, next, c, d);
  }

  /** The closing bracket of a block. */
  method TakeClose(t: string, j: nat, ghost k: nat, ghost k1: nat, ghost at: At) returns (q: nat, ok: bool)
    requires j <= |t| && NoNul(t) && k1 == k + 1 && LineEnd(t, j, k1, at)
    ensures j <= q <= |t|
    ensures ok ==> Sep(t, j, q, ')') && Rest(t, j, Scan(k1, at)) == Rest(t, q, Scan(k, Grouped))
    ensures !ok ==> !Fine(Rest(t, j, Scan(k1, at)))
  {
    var hit, p := Peek(t, j, ")");
    if !hit {
      if p < |t| { StuckScan(t, p, k1, at); }
      return p, false;
    }
    q := TakeSymbol(t, p);
    SymbolScan(t, p, q, k1, at, Scan(k, Grouped));
    ok := true;
  }

  lemma GroupReads(t: string, s0: nat, s: nat, j: nat, e: nat, c: Cmd, d: Deriv)
    requires d.Group? && s0 <= s <= d.i <= d.j <= d.k <= e <= |t| && Blanks(t, s0, s) && Sep(t, s, d.i, '(')
    requires IsLine(d.line) && Reading(t, d.i, d.j, d.inner, d.line) && j == d.j && Sep(t, j, d.k, ')')
    requires ItemsOk(t, d.k, e, d.items) && ArgsOf(d.items) == [] && c == Wrap(d.inner, RedsOf(d.items))
    ensures Reading(t, s0, e, c, d)
  {
    SepLess(t, s0, s, d.i, '(');
  }

  lemma SepLess(t: string, a: nat, a': nat, b: nat, c: char)
    requires Sep(t, a', b, c) && Blanks(t, a, a')
    ensures Sep(t, a, b, c)
  {
    SkipTo(t, a, a');
  }

  method ParsePipe(t: string, s: nat, ghost k: nat) returns (c: Cmd, next: nat, ok: bool, ghost d: Deriv, ghost at: At)
    requires s <= |t| && NoNul(t)
    ensures s <= next <= |t|
    ensures ok ==> IsPipe(d) && Reading(t, s, next, c, d)
    ensures ok ==> PipeEnd(t, next, at) && Rest(t, s, Scan(k, Begin)) == Rest(t, next, Scan(k, at))
    ensures !ok ==> !Fine(Rest(t, s, Scan(k, Begin)))
    decreases |t| - s, 2
  {
    c, next, ok, d, at := ParseExec(t, s, k);
    if !ok { return; }
    var hit, p := Peek(t, next, "|");
    if hit {
      var m := TakeSymbol(t, p);
      SymbolScan(t, p, m, k, at, Scan(k, Begin));
      var r;
      ghost var dr;
      r, next, ok, dr, at := ParsePipe(t, m, k);
      if !ok { return; }
      c, d := Pipe(c, r), Piped(p, m, d, dr);
    }
  }

  method ParseLine(t: string, s: nat, ghost k: nat) returns (c: Cmd, next: nat, ok: bool, ghost d: Deriv, ghost at: At)
    requires s <= |t| && NoNul(t)
    ensures s <= next <= |t|
    ensures ok ==> IsLine(d) && Reading(t, s, next, c, d)
    ensures ok ==> LineEnd(t, next, k, at) && Rest(t, s, Scan(k, Begin)) == Rest(t, next, Scan(k, at))
    ensures !ok ==> !Fine(Rest(t, s, Scan(k, Begin)))
    decreases |t| - s, 4
  {
    c, next, ok, d, at := ParseJobs(t, s, k);
    if !ok { return; }
    var hit, p := Peek(t, next, ";");
    if hit {
      var m := TakeSymbol(t, p);
      SymbolScan(t, p, m, k, at, Scan(k, Begin));
      var r;
      ghost var dr;
      r, next, ok, dr, at := ParseLine(t, m, k);
      if !ok { return; }
      c, d := List(c, r), Then(p, m, d, dr);
    }
  }

  /** parseline up to the semicolon: a pipeline and its ampersands. */
  method ParseJobs(t: string, s: nat, ghost k: nat) returns (c: Cmd, next: nat, ok: bool, ghost d: Deriv, ghost at: At)
    requires s <= |t| && NoNul(t)
    ensures s <= next <= |t|
    ensures ok ==> d.Jobs? && Reading(t, s, next, c, d)
    ensures ok ==> Rest(t, s, Scan(k, Begin)) == Rest(t, next, Scan(k, at)) && Skip(t, next) == next && !at.File?
    ensures ok && (next < |t| ==> t[next] != ';') ==> LineEnd(t, next, k, at)
    ensures !ok ==> !Fine(Rest(t, s, Scan(k, Begin)))
    decreases |t| - s, 3
  {
    var pipe, m;
    ghost var dp, ap, amps;
    pipe, m, ok, dp, ap := ParsePipe(t, s, k);
    d := dp;
    if !ok { return pipe, m, false, dp, ap; }
    c, next, amps, at := ParseBacks(t, m, pipe, k, ap);
    d := Jobs(m, pipe, dp, amps);
    NoMoreJobs(t, next, k, at);
  }

  /** What can come after a pipeline and its ampersands. */
  lemma NoMoreJobs(t: string, next: nat, k: nat, at: At)
    requires next <= |t| && Skip(t, next) == next && (next < |t| ==> t[next] != '&')
      && (at.Amped? || PipeEnd(t, next, at))
    ensures (next < |t| ==> t[next] != ';') ==> LineEnd(t, next, k, at)
  {
  }

  /** The loop over & in parseline. */
  method ParseBacks(t: string, s: nat, c0: Cmd, ghost k: nat, ghost at0: At)
    returns (c: Cmd, next: nat, ghost amps: seq<nat>, ghost at: At)
    requires s <= |t| && NoNul(t) && Skip(t, s) == s && !at0.File?
    ensures s <= next <= |t| && Amps(t, s, next, amps) && c == Backs(c0, |amps|)
    ensures Skip(t, next) == next && (next < |t| ==> t[next] != '&')
      && Rest(t, s, Scan(k, at0)) == Rest(t, next, Scan(k, at))
    ensures at == Amped || (at == at0 && next == s)
  {
    c, next, amps, at := c0, s, [], at0;
    while true
      invariant s <= next <= |t| && Amps(t, s, next, amps) && c == Backs(c0, |amps|)
      invariant Skip(t, next) == next && Rest(t, s, Scan(k, at0)) == Rest(t, next, Scan(k, at))
      invariant at == Amped || (at == at0 && next == s)
      decreases |t| - next
    {
      var hit, p := Peek(t, next, "&");
      if !hit { return; }
      var m := TakeSymbol(t, p);
      SymbolScan(t, p, m, k, at, Scan(k, Amped));
      SkipTo(t, EndAt(t, p), m);
      AmpsOneMore(t, s, p, m, amps);
      c, next, amps, at := Back(c), m, amps + [p], Amped;
    }
  }

  // ---- nulterminate

  /** The line after a NUL was stored behind each of these words. */
  ghost predicate Ended(was: seq<char>, now: seq<char>, words: multiset<Span>) {
    |now| == |was| && forall i | 0 <= i < |was| :: now[i] == if EndsAt(words, i) then '\0' else was[i]
  }

  ghost predicate EndsAt(words: multiset<Span>, i: nat) { exists q :: Span(q, i) in words }

  lemma EndedTwice(a: seq<char>, b: seq<char>, c: seq<char>, u: multiset<Span>, v: multiset<Span>)
    requires Ended(a, b, u) && Ended(b, c, v)
    ensures Ended(a, c, u + v)
  {
    forall i: nat ensures EndsAt(u + v, i) <==> EndsAt(u, i) || EndsAt(v, i) {
      if EndsAt(u, i) {
        var q :| Span(q, i) in u;
        assert Span(q, i) in u + v;
      }
      if EndsAt(v, i) {
        var q :| Span(q, i) in v;
        assert Span(q, i) in u + v;
      }
    }
  }

  lemma EndedOne(a: seq<char>, w: Span)
    requires w.eq < |a|
    ensures Ended(a, a[w.eq := '\0'], multiset{w})
  {
    assert w == Span(w.q, w.eq);
    assert EndsAt(multiset{w}, w.eq);
  }

  method Nulterminate(c: Cmd, buf: array<char>)
    requires forall w | w in Words(c) :: w.eq < buf.Length
    modifies buf
    ensures Ended(old(buf[..]), buf[..], Words(c))
    decreases c, 1
  {
    match c
    case Exec(args) =>
      forall i | 0 <= i < |args| ensures args[i].eq < buf.Length { assert args[i] in Words(c); }
      EndArgs(args, buf);
    case Redir(d, file, _) =>
      Nulterminate(d, buf);
      EndedOne(buf[..], file);
      EndedTwice(old(buf[..]), buf[..], buf[..][file.eq := '\0'], Words(d), multiset{file});
      buf[file.eq] := '\0';
    case Pipe(l, r) => EndTwo(l, r, c, buf);
    case List(l, r) => EndTwo(l, r, c, buf);
    case Back(d) => Nulterminate(d, buf);
  }

  method EndArgs(args: seq<Span>, buf: array<char>)
    requires forall i | 0 <= i < |args| :: args[i].eq < buf.Length
    modifies buf
    ensures Ended(old(buf[..]), buf[..], multiset(args))
  {
    var i := 0;
    while i < |args|
      invariant i <= |args| && Ended(old(buf[..]), buf[..], multiset(args[..i]))
    {
      EndedOne(buf[..], args[i]);
      EndedTwice(old(buf[..]), buf[..], buf[..][args[i].eq := '\0'], multiset(args[..i]), multiset{args[i]});
      assert args[..i + 1] == args[..i] + [args[i]];
      buf[args[i].eq] := '\0';
      i := i + 1;
    }
    assert args[..|args|] == args;
  }

  method EndTwo(l: Cmd, r: Cmd, ghost c: Cmd, buf: array<char>)
    requires c == Pipe(l, r) || c == List(l, r)
    requires forall w | w in Words(c) :: w.eq < buf.Length
    modifies buf
    ensures Ended(old(buf[..]), buf[..], Words(c))
    decreases c, 0
  {
    Nulterminate(l, buf);
    ghost var mid := buf[..];
    Nulterminate(r, buf);
    EndedTwice(old(buf[..]), mid, buf[..], Words(l), Words(r));
  }

  /** The string that starts at q: up to the next NUL. */
  function CString(b: seq<char>, q: nat): seq<char> decreases |b| - q {
    if q >= |b| || b[q] == '\0' then [] else [b[q]] + CString(b, q + 1)
  }

  lemma {:induction false} CStringIs(b: seq<char>, q: nat, e: nat)
    requires q <= e < |b| && b[e] == '\0' && forall i | q <= i < e :: b[i] != '\0'
    ensures CString(b, q) == b[q..e]
    decreases e - q
  {
    if q < e {
      CStringIs(b, q + 1, e);
      assert b[q..e] == [b[q]] + b[q + 1..e];
    }
  }

  /** No word ends at a plain character. */
  lemma NoEndInside(t: string, words: multiset<Span>, i: nat)
    requires i < |t| && Plain(t[i]) && forall x | x in words :: IsRun(t, x)
    ensures !EndsAt(words, i)
  {
    forall q: nat ensures Span(q, i) !in words { assert Span(q, i) in words ==> IsRun(t, Span(q, i)); }
  }

  /** No NUL falls inside a word, so each word reads back as its text. */
  lemma WordReadsBack(t: string, was: seq<char>, now: seq<char>, words: multiset<Span>, w: Span)
    requires was == t + ['\0'] && Ended(was, now, words) && w in words && forall x | x in words :: IsRun(t, x)
    ensures w.q < w.eq <= |t| && CString(now, w.q) == t[w.q..w.eq]
  {
    assert IsRun(t, w) && w == Span(w.q, w.eq) && EndsAt(words, w.eq);
    forall i | w.q <= i < w.eq ensures now[i] == t[i] && now[i] != '\0' {
      assert Plain(t[i]);
      NoEndInside(t, words, i);
    }
    CStringIs(now, w.q, w.eq);
    assert now[w.q..w.eq] == t[w.q..w.eq];
  }

  /** parsecmd on a line t in a buffer. Not ok is a panic. On success the command was read from
      the whole line, its words are the line's words, and each of them now ends in place. */
  method ParseCmd(buf: array<char>, t: string) returns (c: Cmd, ok: bool, ghost d: Deriv)
    requires NoNul(t) && buf[..] == t + ['\0']
    modifies buf
    ensures ok <==> Accepts(t)
    ensures forall c', d' | IsLine(d') && Reading(t, 0, |t|, c', d') :: ok && c' == c
    ensures !ok ==> buf[..] == old(buf[..])
    ensures ok ==> IsLine(d) && Reading(t, 0, |t|, c, d) && Words(c) == multiset(Runs(t, 0, |t|))
    ensures ok ==> forall w | w in Words(c) :: IsRun(t, w) && CString(buf[..], w.q) == t[w.q..w.eq]
  {
    c, ok, d := ParseAll(t);
    if !ok { return; }
    ReadingWords(t, 0, |t|, c, d);
    forall w | w in Words(c) ensures IsRun(t, w) && w.eq < buf.Length { assert w in Runs(t, 0, |t|); }
    ghost var was := buf[..];
    Nulterminate(c, buf);
    forall w | w in Words(c)
      ensures CString(buf[..], w.q) == t[w.q..w.eq]
    {
      WordReadsBack(t, was, buf[..], Words(c), w);
    }
  }

  /** parsecmd up to nulterminate: the command of the whole line. */
  method ParseAll(t: string) returns (c: Cmd, ok: bool, ghost d: Deriv)
    requires NoNul(t)
    ensures ok <==> Accepts(t)
    ensures forall c', d' | IsLine(d') && Reading(t, 0, |t|, c', d') :: ok && c' == c
    ensures ok ==> IsLine(d) && Reading(t, 0, |t|, c, d)
  {
    var next;
    ghost var at;
    forall c', d' | IsLine(d') && Reading(t, 0, |t|, c', d')
      ensures Accepts(t)
    {
      ShellUnique.ReadingAccepted(t, c', d');
    }
    c, next, ok, d, at := ParseLine(t, 0, 0);
    if !ok { return; }
    var hit, p := Peek(t, next, "");
    if p != |t| {
      StuckScan(t, p, 0, at);
      return c, false, d;
    }
    ReadingMore(t, 0, next, p, c, d);
    forall c', d' | IsLine(d') && Reading(t, 0, |t|, c', d')
      ensures c' == c
    {
      ShellUnique.OneCommand(t, c', c, d', d);
    }
  }
}
