/** Machine words as naturals, with the shifts and bitwise operations that the bitmap code
    of src/page_alloc.c applies to them. */
module Bits {

  /** x >> k */
  function Shr(x: nat, k: nat): nat { if k == 0 then x else Shr(x / 2, k - 1) }

  /** 1 << k */
  function One(k: nat): nat { if k == 0 then 1 else 2 * One(k - 1) }

  /** x | y */
  function Or(x: nat, y: nat): nat
    decreases x + y
  {
    if x == 0 && y == 0 then 0
    else 2 * Or(x / 2, y / 2) + if x % 2 == 1 || y % 2 == 1 then 1 else 0
  }

  /** x & ~y */
  function AndNot(x: nat, y: nat): nat {
    if x == 0 then 0
    else 2 * AndNot(x / 2, y / 2) + if x % 2 == 1 && y % 2 == 0 then 1 else 0
  }

  /** Bit k of x: (x >> k) & 1. */
  predicate Bit(x: nat, k: nat) { Shr(x, k) % 2 == 1 }

  lemma {:induction false} BitZero(k: nat)
    ensures !Bit(0, k)
  {
    if k > 0 { BitZero(k - 1); }
  }

  lemma {:induction false} BitOne(k: nat, j: nat)
    ensures Bit(One(k), j) <==> j == k
  {
    if k > 0 && j > 0 {
      BitOne(k - 1, j - 1);
      assert One(k) / 2 == One(k - 1);
    } else if k == 0 && j > 0 {
      BitZero(j - 1);
    }
  }

  lemma OrHalves(x: nat, y: nat)
    ensures Or(x, y) / 2 == Or(x / 2, y / 2)
    ensures Or(x, y) % 2 == 1 <==> x % 2 == 1 || y % 2 == 1
  {
  }

  lemma AndNotHalves(x: nat, y: nat)
    ensures AndNot(x, y) / 2 == AndNot(x / 2, y / 2)
    ensures AndNot(x, y) % 2 == 1 <==> x % 2 == 1 && y % 2 == 0
  {
  }

  lemma BitNext(x: nat, k: nat)
    requires k > 0
    ensures Bit(x, k) <==> Bit(x / 2, k - 1)
  {
  }

  lemma {:induction false} BitOr(x: nat, y: nat, k: nat)
    ensures Bit(Or(x, y), k) <==> Bit(x, k) || Bit(y, k)
  {
    OrHalves(x, y);
    if k > 0 {
      BitNext(x, k);
      BitNext(y, k);
      BitNext(Or(x, y), k);
      BitOr(x / 2, y / 2, k - 1);
    }
  }

  lemma {:induction false} BitAndNot(x: nat, y: nat, k: nat)
    ensures Bit(AndNot(x, y), k) <==> Bit(x, k) && !Bit(y, k)
  {
    AndNotHalves(x, y);
    if k > 0 {
      BitNext(x, k);
      BitNext(y, k);
      BitNext(AndNot(x, y), k);
      BitAndNot(x / 2, y / 2, k - 1);
    }
  }

  /** The operations stay within a word of any width. */
  lemma {:induction false} OrFits(x: nat, y: nat, width: nat)
    requires x < One(width) && y < One(width)
    ensures Or(x, y) < One(width)
  {
    if width > 0 { OrFits(x / 2, y / 2, width - 1); }
  }

  lemma {:induction false} AndNotFits(x: nat, y: nat)
    ensures AndNot(x, y) <= x
  {
    if x > 0 { AndNotFits(x / 2, y / 2); }
  }

  lemma {:induction false} OneFits(k: nat, width: nat)
    requires k < width
    ensures One(k) < One(width)
  {
    if k > 0 { OneFits(k - 1, width - 1); } else { OnePositive(width - 1); }
  }

  lemma {:induction false} OnePositive(k: nat)
    ensures One(k) >= 1
  {
    if k > 0 { OnePositive(k - 1); }
  }
}
