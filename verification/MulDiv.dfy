/** The 64x32/32 multiply-divide of src/timer.c and the two time conversions built on it.
    Every 64-bit operation is written with its wrap-around, so that the absence of
    intermediate overflow is something proved and not assumed. */
module MulDiv {

  const U32: nat := 0x1_0000_0000
  const U64: nat := 0x1_0000_0000_0000_0000
  const NS_PER_SECOND: nat := 1_000_000_000

  /** Truncation to 64 bits. */
  function Wrap64(x: int): int { if 0 <= x < U64 then x else x % U64 }
  function Low32(x: int): int { x % U32 }

  // ---- arithmetic

  lemma MulMono(x: nat, y: nat, m: nat, n: nat)
    requires x <= m && y <= n
    ensures x * y <= m * n
  {
    assert x * y <= m * y;
    assert m * y <= m * n;
  }

  /** The quotient is characterised by its two bounds. */
  lemma DivUnique(n: nat, c: nat, q: nat)
    requires 0 < c && q * c <= n < (q + 1) * c
    ensures n / c == q
  {
    var k := n / c;
    assert n == k * c + n % c;
    if k < q {
      MulMono(k + 1, c, q, c);
      assert false;
    } else if k > q {
      MulMono(q + 1, c, k, c);
      assert false;
    }
  }

  lemma DivBounds(n: nat, c: nat)
    requires 0 < c
    ensures (n / c) * c <= n < (n / c) * c + c
  {
    assert n == (n / c) * c + n % c;
  }

  /** No product or sum below needs more than 64 bits. */
  lemma HalvesFit(low: nat, high: nat, b: nat)
    requires low < U32 && high < U32 && b < U32
    ensures low * b < U64 && high * b + low * b / U32 < U64
  {
    MulMono(low, b, U32 - 1, U32 - 1);
    MulMono(high, b, U32 - 1, U32 - 1);
  }

  /** a * b regrouped around 2^32. */
  lemma Regroup(a: nat, b: nat)
    ensures a * b == (a / U32 * b + a % U32 * b / U32) * U32 + a % U32 * b % U32
  {
    var h, l := a / U32, a % U32;
    var p := l * b;
    assert a == h * U32 + l;
    assert a * b == (h * U32 + l) * b;
    Distribute(h, U32, l, b);
    assert p == p / U32 * U32 + p % U32;
    assert (h * b + p / U32) * U32 == h * b * U32 + p / U32 * U32;
  }

  lemma Distribute(h: nat, u: nat, l: nat, b: nat)
    ensures (h * u + l) * b == h * b * u + l * b
  {
    assert (h * u + l) * b == (h * u) * b + l * b;
    assert (h * u) * b == h * b * u;
  }

  /** Schoolbook division: the high half divided first, its remainder carried down. */
  lemma CarryDown(top: nat, bottom: nat, c: nat)
    requires 0 < c && bottom < U32
    ensures (top % c * U32 + bottom) / c < U32
    ensures (top * U32 + bottom) / c == top / c * U32 + (top % c * U32 + bottom) / c
  {
    var q, m := top / c, top % c;
    var rest := m * U32 + bottom;
    var low := rest / c;
    assert top == q * c + m;
    QuotientFits(rest, m, bottom, c);
    DivBounds(rest, c);
    Distribute(q, c, m, U32);
    assert top * U32 + bottom == q * U32 * c + rest;
    assert (q * U32 + low) * c == q * U32 * c + low * c;
    assert (q * U32 + low + 1) * c == q * U32 * c + low * c + c;
    DivUnique(top * U32 + bottom, c, q * U32 + low);
  }

  lemma TopWraps(q: nat, low: nat)
    requires low < U32
    ensures Low32(q) * U32 + low == (q * U32 + low) % U64
  {
    assert q == q / U32 * U32 + q % U32;
    assert q * U32 + low == q / U32 * U64 + (q % U32 * U32 + low);
  }

  // ---- the code

  lemma ByHalves(a: nat, b: nat, c: nat, rl: nat, rh: nat)
    requires 0 < c
    requires rl == a % U32 * b && rh == a / U32 * b + rl / U32
    ensures (rh % c * U32 + rl % U32) / c < U32
    ensures (a * b / c) % U64 == Low32(rh / c) * U32 + (rh % c * U32 + rl % U32) / c
  {
    Regroup(a, b);
    CarryDown(rh, rl % U32, c);
    TopWraps(rh / c, (rh % c * U32 + rl % U32) / c);
  }

  lemma ShiftFits(m: nat, c: nat, bottom: nat)
    requires m < c < U32 && bottom < U32
    ensures m * U32 + bottom < U64
  {
    MulMono(m, U32, U32 - 2, U32);
  }

  /** The two partial products of do_muldiv64; neither wraps. */
  method PartialProducts(low: nat, high: nat, b: nat) returns (rl: nat, rh: nat)
    requires low < U32 && high < U32 && b < U32
    ensures rl == low * b && rh == high * b + rl / U32
  {
    HalvesFit(low, high, b);
    rl := Wrap64(low * b);
    rh := Wrap64(Wrap64(high * b) + rl / U32);
  }

  /** The shifted remainder does not wrap, and its quotient fits 32 bits. */
  method LowQuotient(m: nat, bottom: nat, c: nat) returns (resLow: int)
    requires m < c < U32 && bottom < U32
    ensures resLow == (m * U32 + bottom) / c
  {
    ShiftFits(m, c, bottom);
    var rest: nat := Wrap64(Wrap64(m * U32) + bottom);
    QuotientFits(rest, m, bottom, c);
    resLow := Low32(rest / c);
  }

  lemma QuotientFits(rest: nat, m: nat, bottom: nat, c: nat)
    requires m < c && bottom < U32 && rest == m * U32 + bottom
    ensures 0 <= rest / c < U32
  {
    DivBounds(rest, c);
    MulMono(m, U32, c - 1, U32);
    if rest / c >= U32 { MulMono(U32, c, rest / c, c); }
  }

  /** The two divisions of do_muldiv64. */
  method DivideHalves(rh: nat, bottom: nat, c: nat) returns (resHigh: int, resLow: int)
    requires bottom < U32 && 0 < c < U32
    ensures resHigh == Low32(rh / c) && resLow == (rh % c * U32 + bottom) / c
  {
    resHigh := Low32(rh / c);
    var m := rh % c;
    resLow := LowQuotient(m, bottom, c);
  }

  /** do_muldiv64: a * b / c by halves. */
  method DoMuldiv64(a: nat, b: nat, c: nat) returns (r: int)
    requires a < U64 && b < U32 && 0 < c < U32
    ensures r == (a * b / c) % U64
  {
    var rl, rh := PartialProducts(a % U32, a / U32, b);
    ByHalves(a, b, c, rl, rh);
    var resHigh, resLow := DivideHalves(rh, rl % U32, c);
    r := resHigh * U32 + resLow;
  }

  /** muldiv64: zero for a zero divisor. */
  method Muldiv64(a: nat, b: nat, c: nat) returns (r: int)
    requires a < U64 && b < U32 && c < U32
    ensures r == Scale(a, b, c)
  {
    if c != 0 {
      r := DoMuldiv64(a, b, c);
    } else {
      r := 0;
    }
  }

  function Scale(a: nat, b: nat, c: nat): nat {
    if c == 0 then 0 else (a * b / c) % U64
  }

  class Timer {
    var freq: nat   // g_freq, a u64

    constructor (cntfrq: nat)
      requires cntfrq < U64
      ensures freq == cntfrq % U32
    {
      freq := cntfrq % U32;
    }

    /** nstime_to_count; g_freq is cut to the u32 parameter of muldiv64. */
    method NstimeToCount(ns: nat) returns (count: nat)
      requires ns < U64
      ensures count == ToCount(ns, Low32(freq))
    {
      count := Muldiv64(ns, Low32(freq), NS_PER_SECOND);
    }

    method CountToTimeNs(count: nat) returns (ns: nat)
      requires count < U64
      ensures ns == ToNs(count, Low32(freq))
    {
      ns := Muldiv64(count, NS_PER_SECOND, Low32(freq));
    }
  }

  function ToCount(ns: nat, freq: nat): nat { Scale(ns, freq, NS_PER_SECOND) }
  function ToNs(count: nat, freq: nat): nat { Scale(count, NS_PER_SECOND, freq) }

  // ---- what the conversions promise

  /** The stored result is the true quotient exactly when that quotient fits 64 bits. */
  lemma ScaleExactIff(a: nat, b: nat, c: nat)
    requires 0 < c
    ensures Scale(a, b, c) == a * b / c <==> a * b / c < U64
  {
  }

  /** Scaling by b/c and back never gains, and loses less than c/b + 1. */
  lemma ThereAndBack(x: nat, b: nat, c: nat)
    requires 0 < b && 0 < c
    ensures x * b / c * c / b <= x
    ensures (x - x * b / c * c / b) * b < c + b
  {
    var y := x * b / c;
    var z := y * c / b;
    DivBounds(x * b, c);
    DivBounds(y * c, b);
    assert z <= x by {
      if z > x { MulMono(x + 1, b, z, b); }
    }
    assert (x - z) * b == x * b - z * b;
  }

  /** z comes close to x from below. */
  predicate Close(x: nat, z: nat, b: nat, c: nat) { z <= x && (x - z) * b < c + b }

  /** With 64-bit results that is so exactly if the first quotient fits. */
  lemma ScaledThereAndBack(x: nat, b: nat, c: nat)
    requires 0 < b < U32 && 0 < c && x < U64
    ensures Close(x, Scale(Scale(x, b, c), c, b), b, c) <==> x * b / c < U64
  {
    if x * b / c < U64 {
      ThereAndBack(x, b, c);
      ScaleExactIff(x, b, c);
      ScaleExactIff(Scale(x, b, c), c, b);
    } else {
      LostByWrap(x, b, c, x * b / c);
    }
  }

  /** A first quotient q that wraps is short by 2^64, which is too much. */
  lemma LostByWrap(x: nat, b: nat, c: nat, q: nat)
    requires 0 < b < U32 && 0 < c && q == x * b / c >= U64
    ensures !Close(x, Scale(Scale(x, b, c), c, b), b, c)
  {
    var y := Scale(x, b, c);
    var z := Scale(y, c, b);
    WrapBelow(q);
    WrapAtMost(y * c / b);
    DivBounds(x * b, c);
    DivBounds(y * c, b);
    MulMono(y, c, q - U64, c);
    MulMono(z, b, y * c / b, b);
    LessTimes(q, U64, c);
    FarOff(x, z, b, c);
  }

  lemma WrapBelow(q: nat)
    requires q >= U64
    ensures q % U64 <= q - U64
  {
  }

  lemma WrapAtMost(q: nat)
    ensures q % U64 <= q
  {
  }

  lemma LessTimes(q: nat, u: nat, c: nat)
    requires u <= q
    ensures (q - u) * c == q * c - u * c
  {
  }

  lemma FarOff(x: nat, z: nat, b: nat, c: nat)
    requires 0 < b < U32 && 0 < c && z * b + U64 * c <= x * b
    ensures !Close(x, z, b, c)
  {
    if z <= x { LessTimes(x, z, b); }
  }

  /** Nanoseconds to count and back, if g_freq is not zero: never more than ns and short by less
      than 10^9 / g_freq + 1, exactly if the count fits 64 bits. */
  lemma RoundTrip(ns: nat, freq: nat)
    requires 0 < freq < U32 && ns < U64
    ensures Close(ns, ToNs(ToCount(ns, freq), freq), freq, NS_PER_SECOND) <==> ns * freq / NS_PER_SECOND < U64
  {
    ScaledThereAndBack(ns, freq, NS_PER_SECOND);
  }

  /** Count to nanoseconds and back: the same, exactly if the time fits 64 bits. */
  lemma RoundTripCount(count: nat, freq: nat)
    requires 0 < freq < U32 && count < U64
    ensures Close(count, ToCount(ToNs(count, freq), freq), NS_PER_SECOND, freq) <==> count * NS_PER_SECOND / freq < U64
  {
    ScaledThereAndBack(count, NS_PER_SECOND, freq);
  }

  /** It does not come back at the largest count and 62.5 MHz, nor at the largest time and 2 GHz. */
  lemma RoundTripsWrap()
    ensures !Close(U64 - 1, ToCount(ToNs(U64 - 1, 62_500_000), 62_500_000), NS_PER_SECOND, 62_500_000)
    ensures !Close(U64 - 1, ToNs(ToCount(U64 - 1, 2_000_000_000), 2_000_000_000), 2_000_000_000, NS_PER_SECOND)
  {
    RoundTripCount(U64 - 1, 62_500_000);
    RoundTrip(U64 - 1, 2_000_000_000);
  }
}
