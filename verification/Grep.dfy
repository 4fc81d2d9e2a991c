/** The Kernighan-Pike matcher of guest/xv6/user/grep.c against a semantics that does not
    mention it: a pattern denotes a list of items, and a text matches if a list of positions
    cuts it into stretches, one per item, that the items admit. A C string is a Dafny string
    without its closing NUL. */
module Grep {

  // ---- what a pattern means

  datatype Item =
    | One(c: char)    // one character, any for '.'
    | Star(c: char)   // any number of them
    | End             // a '$' that closes the pattern

  predicate Admits(c: char, d: char) { c == '.' || c == d }

  /** How a pattern, after any leading '^', reads as items. A '*' that follows nothing is
      itself a character; '$' before '*' is a character too. */
  function Items(re: string): seq<Item> {
    if re == "" then []
    else if |re| >= 2 && re[1] == '*' then [Star(re[0])] + Items(re[2..])
    else if re == "$" then [End]
    else [One(re[0])] + Items(re[1..])
  }

  ghost predicate Covers(item: Item, text: string, i: nat, j: nat) {
    && i <= j <= |text|
    && match item
       case One(c) => j == i + 1 && Admits(c, text[i])
       case Star(c) => forall k | i <= k < j :: Admits(c, text[k])
       case End => i == j == |text|
  }

  ghost predicate Cuts(items: seq<Item>, text: string, cut: seq<nat>) {
    && |cut| == |items| + 1
    && forall k | 0 <= k < |items| :: Covers(items[k], text, cut[k], cut[k + 1])
  }

  ghost predicate MatchesAt(items: seq<Item>, text: string, i: nat) {
    exists cut: seq<nat> :: Cuts(items, text, cut) && cut[0] == i
  }

  ghost predicate Matches(re: string, text: string) {
    if re != "" && re[0] == '^' then MatchesAt(Items(re[1..]), text, 0)
    else exists i: nat | i <= |text| :: MatchesAt(Items(re), text, i)
  }

  // ---- unfolding the semantics one item at a time

  lemma NoItems(text: string, i: nat)
    ensures MatchesAt([], text, i)
  {
    assert Cuts([], text, [i]);
  }

  lemma FirstItem(item: Item, rest: seq<Item>, text: string, i: nat)
    ensures MatchesAt([item] + rest, text, i) <==> exists j: nat :: Covers(item, text, i, j) && MatchesAt(rest, text, j)
  {
    var items := [item] + rest;
    if MatchesAt(items, text, i) {
      var cut: seq<nat> :| Cuts(items, text, cut) && cut[0] == i;
      assert Covers(items[0], text, cut[0], cut[1]);
      forall k | 0 <= k < |rest| ensures Covers(rest[k], text, cut[1..][k], cut[1..][k + 1]) {
        assert Covers(items[k + 1], text, cut[k + 1], cut[k + 2]);
      }
      assert Cuts(rest, text, cut[1..]);
      assert MatchesAt(rest, text, cut[1]);
    }
    if j: nat :| Covers(item, text, i, j) && MatchesAt(rest, text, j) {
      var cut: seq<nat> :| Cuts(rest, text, cut) && cut[0] == j;
      var longer := [i] + cut;
      forall k | 0 <= k < |items| ensures Covers(items[k], text, longer[k], longer[k + 1]) {
        if k > 0 { assert Covers(rest[k - 1], text, cut[k - 1], cut[k]); }
      }
      assert Cuts(items, text, longer);
    }
  }

  /** A match depends only on the text from its start on. */
  lemma ShiftText(items: seq<Item>, text: string, n: nat, i: nat)
    requires n <= |text|
    ensures MatchesAt(items, text[n..], i) <==> MatchesAt(items, text, n + i)
    decreases |items|
  {
    if items == [] {
      NoItems(text[n..], i);
      NoItems(text, n + i);
    } else {
      var item, rest := items[0], items[1..];
      assert items == [item] + rest;
      FirstItem(item, rest, text[n..], i);
      FirstItem(item, rest, text, n + i);
      forall j: nat ensures MatchesAt(rest, text[n..], j) <==> MatchesAt(rest, text, n + j) {
        ShiftText(rest, text, n, j);
      }
      if j: nat :| Covers(item, text[n..], i, j) && MatchesAt(rest, text[n..], j) {
        CoversShift(item, text, n, i, j);
        assert MatchesAt(rest, text, n + j);
      }
      if m: nat :| Covers(item, text, n + i, m) && MatchesAt(rest, text, m) {
        CoversShift(item, text, n, i, m - n);
        assert MatchesAt(rest, text, n + (m - n));
        assert MatchesAt(rest, text[n..], m - n);
      }
    }
  }

  lemma CoversShift(item: Item, text: string, n: nat, i: nat, j: nat)
    requires n <= |text|
    ensures Covers(item, text[n..], i, j) <==> Covers(item, text, n + i, n + j)
  {
    if item.Star? {
      if Covers(item, text[n..], i, j) {
        forall k | n + i <= k < n + j ensures Admits(item.c, text[k]) {
          assert text[k] == text[n..][k - n];
        }
      }
      if Covers(item, text, n + i, n + j) {
        forall k | i <= k < j ensures Admits(item.c, text[n..][k]) {
          assert text[n..][k] == text[n + k];
        }
      }
    }
  }

  // ---- the code

  /** matchhere. */
  method MatchHere(re: string, text: string) returns (r: bool)
    ensures r <==> MatchesAt(Items(re), text, 0)
    decreases |re|, 0
  {
    if re == "" {
      NoItems(text, 0);
      return true;
    }
    if |re| >= 2 && re[1] == '*' {
      r := MatchStar(re[0], re[2..], text);
      return;
    }
    if re[0] == '$' && |re| == 1 {
      EndOnly(re, text);
      return text == "";
    }
    OneThenRest(re, text);
    if text != "" && (re[0] == '.' || re[0] == text[0]) {
      r := MatchHere(re[1..], text[1..]);
      ShiftText(Items(re[1..]), text, 1, 0);
      return;
    }
    return false;
  }

  /** matchstar: c* followed by re. */
  method MatchStar(c: char, re: string, text: string) returns (r: bool)
    ensures r <==> MatchesAt([Star(c)] + Items(re), text, 0)
    decreases |re|, 1
  {
    FirstItem(Star(c), Items(re), text, 0);
    var i := 0;
    while true
      invariant 0 <= i <= |text|
      invariant forall k | 0 <= k < i :: Admits(c, text[k])
      invariant forall k | 0 <= k < i :: !MatchesAt(Items(re), text, k)
      decreases |text| - i
    {
      r := MatchHere(re, text[i..]);
      ShiftText(Items(re), text, i, 0);
      if r {
        assert Covers(Star(c), text, 0, i);
        return true;
      }
      if i < |text| && (text[i] == c || c == '.') {
        i := i + 1;
      } else {
        assert i < |text| ==> !Admits(c, text[i]);
        return false;
      }
    }
  }

  lemma EndOnly(re: string, text: string)
    requires re == "$"
    ensures MatchesAt(Items(re), text, 0) <==> text == ""
  {
    FirstItem(End, [], text, 0);
    assert [End] + [] == [End];
    NoItems(text, 0);
    if text == "" { assert Covers(End, text, 0, 0); }
  }

  lemma OneThenRest(re: string, text: string)
    requires re != "" && !(|re| >= 2 && re[1] == '*') && re != "$"
    ensures MatchesAt(Items(re), text, 0) <==>
      text != "" && Admits(re[0], text[0]) && MatchesAt(Items(re[1..]), text, 1)
  {
    FirstItem(One(re[0]), Items(re[1..]), text, 0);
    if text != "" && Admits(re[0], text[0]) { assert Covers(One(re[0]), text, 0, 1); }
  }

  /** match: search the whole text, or only its start after '^'. */
  method Match(re: string, text: string) returns (r: bool)
    ensures r <==> Matches(re, text)
  {
    if re != "" && re[0] == '^' {
      r := MatchHere(re[1..], text);
      return;
    }
    var i := 0;
    while true
      invariant 0 <= i <= |text|
      invariant forall k | 0 <= k < i :: !MatchesAt(Items(re), text, k)
      decreases |text| - i
    {
      r := MatchHere(re, text[i..]);
      ShiftText(Items(re), text, i, 0);
      if r { return true; }
      if i == |text| { break; }
      i := i + 1;
    }
    r := false;
  }
}
