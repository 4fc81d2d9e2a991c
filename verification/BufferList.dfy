/** The list of guest/xv6/kernel/bio.c as values: a circle of links through the buffers and a
    head, in the order of last use. Buffers are numbered from 0; the head has number n. */
module BufferList {

  /** `at` lists the n buffers, most recently used first; `pos` says where each one is. */
  ghost predicate Order(at: seq<nat>, pos: seq<nat>) {
    && 0 < |at| == |pos|
    && (forall i {:trigger at[i]} | 0 <= i < |at| :: at[i] < |at| && pos[at[i]] == i)
    && (forall x {:trigger pos[x]} | 0 <= x < |pos| :: pos[x] < |at| && at[pos[x]] == x)
  }

  ghost function After(at: seq<nat>, pos: seq<nat>, x: nat): nat requires Order(at, pos) && x <= |at| {
    if x == |at| then at[0] else if pos[x] == |at| - 1 then |at| else at[pos[x] + 1]
  }

  ghost function Before(at: seq<nat>, pos: seq<nat>, x: nat): nat requires Order(at, pos) && x <= |at| {
    if x == |at| then at[|at| - 1] else if pos[x] == 0 then |at| else at[pos[x] - 1]
  }

  ghost predicate Linked(next: seq<nat>, prev: seq<nat>, at: seq<nat>, pos: seq<nat>) {
    && Order(at, pos) && |next| == |prev| == |at| + 1
    && (forall x {:trigger next[x]} | 0 <= x <= |at| :: next[x] == After(at, pos, x))
    && (forall x {:trigger prev[x]} | 0 <= x <= |at| :: prev[x] == Before(at, pos, x))
  }

  /** The links agree both ways, and each buffer is reached. */
  lemma Consistent(next: seq<nat>, prev: seq<nat>, at: seq<nat>, pos: seq<nat>, x: nat)
    requires Linked(next, prev, at, pos) && x <= |at|
    ensures next[x] <= |at| && prev[x] <= |at| && prev[next[x]] == x && next[prev[x]] == x
  {
  }

  ghost function FrontAt(at: seq<nat>, b: nat, p: nat): seq<nat> requires p < |at| { [b] + at[..p] + at[p + 1..] }

  ghost function FrontPos(pos: seq<nat>, b: nat, p: nat): (r: seq<nat>) {
    seq(|pos|, x requires 0 <= x < |pos| => if x == b then 0 else if pos[x] < p then pos[x] + 1 else pos[x])
  }

  lemma FrontOrder(at: seq<nat>, pos: seq<nat>, b: nat)
    requires Order(at, pos) && b < |at|
    ensures Order(FrontAt(at, b, pos[b]), FrontPos(pos, b, pos[b]))
  {
    var p := pos[b];
    var at', pos' := FrontAt(at, b, p), FrontPos(pos, b, p);
    forall i | 0 <= i < |at'| ensures at'[i] < |at'| && pos'[at'[i]] == i {
      assert at'[i] == if i == 0 then b else if i <= p then at[i - 1] else at[i];
    }
    forall x | 0 <= x < |pos'| ensures pos'[x] < |at'| && at'[pos'[x]] == x {
      assert pos[x] == p ==> x == b;
    }
  }

  /** The new order, element by element. */
  lemma FrontMeans(at: seq<nat>, pos: seq<nat>, b: nat, i: nat)
    requires Order(at, pos) && b < |at| && i < |at|
    ensures |FrontAt(at, b, pos[b])| == |at|
    ensures FrontAt(at, b, pos[b])[i] == if i == 0 then b else if i <= pos[b] then at[i - 1] else at[i]
  {
  }

  /** The links after brelse has taken b out and put it first. */
  ghost function NextAfter(next: seq<nat>, prev: seq<nat>, b: nat, head: nat): seq<nat>
    requires b < |next| == |prev| && head < |next| && prev[b] < |next|
  {
    var out := next[prev[b] := next[b]];
    out[b := out[head]][head := b]
  }

  ghost function PrevAfter(next: seq<nat>, prev: seq<nat>, b: nat, head: nat): seq<nat>
    requires b < |next| == |prev| && head < |next| && next[b] < |next| && prev[b] < |next|
      && next[prev[b] := next[b]][head] < |next|
  {
    prev[next[b] := prev[b]][b := head][next[prev[b] := next[b]][head] := b]
  }

  /** The neighbours of b before the move. */
  lemma Neighbours(next: seq<nat>, prev: seq<nat>, at: seq<nat>, pos: seq<nat>, b: nat)
    requires Linked(next, prev, at, pos) && b < |at|
    ensures var p, n := pos[b], |at|;
      && prev[b] == (if p == 0 then n else at[p - 1]) && next[b] == (if p == n - 1 then n else at[p + 1])
      && next[n] == at[0] && prev[n] == at[n - 1] && next[b] <= n && prev[b] <= n && prev[b] != b && next[b] != b
      && next[prev[b] := next[b]][n] == (if p == 0 then next[b] else at[0])
  {
  }

  /** What follows x once b is first. */
  ghost function AfterOther(at: seq<nat>, pos: seq<nat>, p: nat, x: nat): nat requires Order(at, pos) && x < |at| {
    var i := if pos[x] + 1 == p then p + 1 else pos[x] + 1;
    if i < |at| then at[i] else |at|
  }

  lemma LinkOther(next: seq<nat>, prev: seq<nat>, at: seq<nat>, pos: seq<nat>, b: nat, x: nat)
    requires Linked(next, prev, at, pos) && b < |at| && x < |at| && x != b && prev[b] <= |at|
    ensures NextAfter(next, prev, b, |at|)[x] == AfterOther(at, pos, pos[b], x)
  {
    Neighbours(next, prev, at, pos, b);
    assert next[x] == if pos[x] == |at| - 1 then |at| else at[pos[x] + 1];
    assert x == prev[b] <==> pos[x] + 1 == pos[b];
  }

  lemma FrontOther(at: seq<nat>, pos: seq<nat>, b: nat, x: nat)
    requires Order(at, pos) && b < |at| && x < |at| && x != b
    requires Order(FrontAt(at, b, pos[b]), FrontPos(pos, b, pos[b]))
    ensures After(FrontAt(at, b, pos[b]), FrontPos(pos, b, pos[b]), x) == AfterOther(at, pos, pos[b], x)
  {
    var q := FrontPos(pos, b, pos[b])[x];
    assert pos[x] != pos[b];
    if q < |at| - 1 { FrontMeans(at, pos, b, q + 1); }
  }

  lemma NextOther(next: seq<nat>, prev: seq<nat>, at: seq<nat>, pos: seq<nat>, b: nat, x: nat)
    requires Linked(next, prev, at, pos) && b < |at| && x < |at| && x != b && prev[b] <= |at|
    requires Order(FrontAt(at, b, pos[b]), FrontPos(pos, b, pos[b]))
    ensures NextAfter(next, prev, b, |at|)[x] == After(FrontAt(at, b, pos[b]), FrontPos(pos, b, pos[b]), x)
  {
    LinkOther(next, prev, at, pos, b, x);
    FrontOther(at, pos, b, x);
  }

  lemma NextRelinked(next: seq<nat>, prev: seq<nat>, at: seq<nat>, pos: seq<nat>, b: nat, x: nat)
    requires Linked(next, prev, at, pos) && b < |at| && x <= |at| && prev[b] <= |at|
    requires Order(FrontAt(at, b, pos[b]), FrontPos(pos, b, pos[b]))
    ensures NextAfter(next, prev, b, |at|)[x] == After(FrontAt(at, b, pos[b]), FrontPos(pos, b, pos[b]), x)
  {
    Neighbours(next, prev, at, pos, b);
    FrontMeans(at, pos, b, 0);
    if x < |at| && x != b {
      NextOther(next, prev, at, pos, b, x);
    } else if x == b && |at| > 1 {
      FrontMeans(at, pos, b, 1);
    }
  }

  /** What comes before x once b is first. */
  ghost function BeforeOther(at: seq<nat>, pos: seq<nat>, b: nat, p: nat, x: nat): nat
    requires Order(at, pos) && x < |at| && p < |at| && pos[x] != p
  {
    if pos[x] == (if p == 0 then 1 else 0) then b else if pos[x] == p + 1 then at[p - 1] else at[pos[x] - 1]
  }

  lemma LinkBack(next: seq<nat>, prev: seq<nat>, at: seq<nat>, pos: seq<nat>, b: nat, x: nat)
    requires Linked(next, prev, at, pos) && b < |at| && x < |at| && x != b && next[b] <= |at| && prev[b] <= |at|
    requires next[prev[b] := next[b]][|at|] <= |at| && pos[x] != pos[b]
    ensures PrevAfter(next, prev, b, |at|)[x] == BeforeOther(at, pos, b, pos[b], x)
  {
    Neighbours(next, prev, at, pos, b);
    assert prev[x] == if pos[x] == 0 then |at| else at[pos[x] - 1];
    assert x == next[b] <==> pos[x] == pos[b] + 1;
    assert x == at[0] <==> pos[x] == 0;
  }

  lemma FrontBack(at: seq<nat>, pos: seq<nat>, b: nat, x: nat)
    requires Order(at, pos) && b < |at| && x < |at| && x != b && pos[x] != pos[b]
    requires Order(FrontAt(at, b, pos[b]), FrontPos(pos, b, pos[b]))
    ensures Before(FrontAt(at, b, pos[b]), FrontPos(pos, b, pos[b]), x) == BeforeOther(at, pos, b, pos[b], x)
  {
    FrontMeans(at, pos, b, FrontPos(pos, b, pos[b])[x] - 1);
  }

  lemma PrevOther(next: seq<nat>, prev: seq<nat>, at: seq<nat>, pos: seq<nat>, b: nat, x: nat)
    requires Linked(next, prev, at, pos) && b < |at| && x < |at| && x != b && next[b] <= |at| && prev[b] <= |at|
    requires Order(FrontAt(at, b, pos[b]), FrontPos(pos, b, pos[b])) && next[prev[b] := next[b]][|at|] <= |at|
    ensures PrevAfter(next, prev, b, |at|)[x] == Before(FrontAt(at, b, pos[b]), FrontPos(pos, b, pos[b]), x)
  {
    assert pos[x] != pos[b];
    LinkBack(next, prev, at, pos, b, x);
    FrontBack(at, pos, b, x);
  }

  lemma PrevRelinked(next: seq<nat>, prev: seq<nat>, at: seq<nat>, pos: seq<nat>, b: nat, x: nat)
    requires Linked(next, prev, at, pos) && b < |at| && x <= |at|
    requires Order(FrontAt(at, b, pos[b]), FrontPos(pos, b, pos[b]))
    ensures next[b] <= |at| && prev[b] <= |at| && next[prev[b] := next[b]][|at|] <= |at|
    ensures PrevAfter(next, prev, b, |at|)[x] == Before(FrontAt(at, b, pos[b]), FrontPos(pos, b, pos[b]), x)
  {
    Neighbours(next, prev, at, pos, b);
    FrontMeans(at, pos, b, |at| - 1);
    if x < |at| && x != b { PrevOther(next, prev, at, pos, b, x); }
  }

  /** Moving b to the front keeps the circle. */
  lemma FrontLinked(next: seq<nat>, prev: seq<nat>, at: seq<nat>, pos: seq<nat>, b: nat)
    requires Linked(next, prev, at, pos) && b < |at|
    ensures next[b] <= |at| && prev[b] <= |at| && next[prev[b] := next[b]][|at|] <= |at|
    ensures Linked(NextAfter(next, prev, b, |at|), PrevAfter(next, prev, b, |at|), FrontAt(at, b, pos[b]),
      FrontPos(pos, b, pos[b]))
  {
    FrontOrder(at, pos, b);
    PrevRelinked(next, prev, at, pos, b, 0);
    forall x: nat | x <= |at|
      ensures NextAfter(next, prev, b, |at|)[x] == After(FrontAt(at, b, pos[b]), FrontPos(pos, b, pos[b]), x)
      ensures PrevAfter(next, prev, b, |at|)[x] == Before(FrontAt(at, b, pos[b]), FrontPos(pos, b, pos[b]), x)
    {
      NextRelinked(next, prev, at, pos, b, x);
      PrevRelinked(next, prev, at, pos, b, x);
    }
  }
}
