/** 64-bit division from 32-bit divides, shared/div64.c, with its inline assembly as operations on 32-bit
    registers; and the shift-subtract division and the 16-bit product of user/tests/lib/math.c. */
module Div64 {
  import opened Arith

  const W32: int := 0x1_0000_0000
  const W64: int := 0x1_0000_0000_0000_0000

  // ---- the instructions

  /** bsr: the position of the highest bit set. */
  function Bsr(n: nat): (r: nat)
    requires n > 0
    ensures Pow2(r) <= n < Pow2(r + 1)
  {
    if n == 1 then 0 else 1 + Bsr(n / 2)
  }

  /** shrdl by c % 32: the low word of a register pair shifted right, high bits coming from hi. */
  function Shrd(hi: int, lo: int, c: nat): int
    requires c <= 32
  {
    if c % 32 == 0 then lo else lo / Pow2(c) + hi % Pow2(c) * Pow2(32 - c)
  }

  /** shrl by c % 32. */
  function Shr(x: int, c: nat): int {
    x / Pow2(c % 32)
  }

  datatype Quotient = Quotient(q: nat, r: nat) | DivideError

  /** divl: hi:lo divided by d, which fails when d is zero or the quotient does not fit 32 bits. */
  function Divl(hi: nat, lo: nat, d: nat): (res: Quotient)
    requires lo < W32
    ensures res.DivideError? <==> d == 0 || hi >= d
    ensures res.Quotient? ==> hi * W32 + lo == res.q * d + res.r && res.r < d && res.q < W32
  {
    if d == 0 || hi >= d then DivideError
    else
      DivlFits(hi, lo, d);
      Quotient((hi * W32 + lo) / d, (hi * W32 + lo) % d)
  }

  lemma DivlFits(hi: nat, lo: nat, d: nat)
    requires lo < W32 && hi < d
    ensures (hi * W32 + lo) / d < W32
  {
    var n := hi * W32 + lo;
    var q := n / d;
    assert n == q * d + n % d;
    assert n < d * W32;
    if q >= W32 {
      MulDistributes(q, W32, d);
      if q > W32 {
        MulGrows(q - W32, d);
      }
    }
  }

  // ---- shifts of register pairs

  lemma ShrdIs(hi: nat, lo: nat, c: nat)
    requires lo < W32 && 1 <= c <= 31
    ensures Shrd(hi, lo, c) == (hi * W32 + lo) / Pow2(c) % W32
    ensures hi / Pow2(c) == (hi * W32 + lo) / Pow2(c) / W32
  {
    ShrdUnfolds(hi, lo, c);
    hide Shrd, Pow2;
    var p, s := Pow2(c), Pow2(32 - c);
    Pow2Add(c, 32 - c);
    Pow32();
    ShrdParts(hi, lo, p, s);
  }

  lemma ShrdUnfolds(hi: int, lo: int, c: nat)
    requires 1 <= c <= 31
    ensures Shrd(hi, lo, c) == lo / Pow2(c) + hi % Pow2(c) * Pow2(32 - c)
  {
    hide Pow2;
  }

  lemma ShrdParts(hi: nat, lo: nat, p: nat, s: nat)
    requires p > 0 && s > 0 && p * s == W32 && lo < W32
    ensures lo / p + hi % p * s == (hi * W32 + lo) / p % W32
    ensures hi / p == (hi * W32 + lo) / p / W32
  {
    Euclid(hi, p);
    Euclid(lo, p);
    ShrdCore(hi, lo, p, s, hi / p, hi % p, lo / p, lo % p);
  }

  lemma Euclid(n: nat, p: nat)
    requires p > 0
    ensures n == n / p * p + n % p && 0 <= n / p
  {
  }

  lemma ShrdCore(hi: nat, lo: nat, p: nat, s: nat, a: nat, b: nat, u: nat, v: nat)
    requires p > 0 && s > 0 && p * s == W32 && lo < W32 && hi == a * p + b && lo == u * p + v && b < p && v < p
    ensures u + b * s == (hi * W32 + lo) / p % W32 && a == (hi * W32 + lo) / p / W32
  {
    SumBelow(b, u, p, s, lo);
    Spread(a, b, u, v, p, s);
    var low := u + b * s;
    ShiftedPair(hi * W32 + lo, p, a, low, v);
  }

  lemma ShiftedPair(n: int, p: nat, a: nat, low: nat, v: nat)
    requires p > 0 && n == (a * W32 + low) * p + v && low < W32 && v < p
    ensures n / p % W32 == low && n / p / W32 == a
  {
    ModUnique(n, p, a * W32 + low, v);
    ModUnique(a * W32 + low, W32, a, low);
  }

  lemma Spread(a: int, b: int, u: int, v: int, p: int, s: int)
    requires p * s == W32
    ensures (a * p + b) * W32 + (u * p + v) == (a * W32 + (u + b * s)) * p + v
  {
    assert (b * s) * p == b * (p * s);
    assert (a * W32 + (u + b * s)) * p == a * W32 * p + u * p + (b * s) * p;
  }

  lemma SumBelow(b: nat, u: nat, p: nat, s: nat, lo: nat)
    requires b < p && u * p <= lo < W32 && p * s == W32 && p > 0 && s > 0
    ensures 0 <= u + b * s < W32
  {
    assert s * p == W32;
    NotAbove(u, s, p);
    MulDistributes(p - 1, b, s);
    MulDistributes(p, 1, s);
    if p - 1 > b { MulGrows(p - 1 - b, s); }
  }

  /** u * p < s * p says u < s. */
  lemma NotAbove(u: int, s: int, p: nat)
    requires p > 0 && u * p < s * p
    ensures u < s
  {
    if u >= s {
      MulDistributes(u, s, p);
      if u > s { MulGrows(u - s, p); }
    }
  }

  // ---- do_div64

  /** The 32 leading significant bits of a divisor of more than 32 bits. */
  function Leading(y: nat): nat
    requires y >= W32
  {
    y / Pow2(Bsr(y / W32) + 1)
  }

  /** A 64-bit number shifted right by l through a register pair: its two words. */
  lemma PairShifted(x: nat, l: nat)
    requires x < W64 && 1 <= l <= 31
    ensures Shrd(x / W32, x % W32, l) == x / Pow2(l) % W32 && Shr(x / W32, l) == x / Pow2(l) / W32
  {
    assert l % 32 == l;
    hide Shrd, Pow2;
    var hi, lo := x / W32, x % W32;
    assert hi * W32 + lo == x;
    ShrdIs(hi, lo, l);
  }

  lemma LeadingBounds(y: nat, l: nat)
    requires W32 <= y < W64 && l == Bsr(y / W32) + 1
    ensures 1 <= l <= 32 && 0x8000_0000 <= y / Pow2(l) < W32
  {
    var y1 := y / W32;
    Pow32();
    if l > 32 {
      Pow2Monotone(32, l - 1);
    }
    assert Pow2(l) == 2 * Pow2(l - 1);
    hide Pow2, Bsr;
    var p := Pow2(l - 1);
    Between(y, y1, p);
  }

  /** y1, the high word of y, lies between p and 2p; then y / 2p lies between 2^31 and 2^32. */
  lemma Between(y: nat, y1: nat, p: nat)
    requires y1 == y / W32 && p <= y1 < 2 * p
    ensures 0x8000_0000 <= y / (2 * p) < W32
  {
    var q := y / (2 * p);
    Euclid(y, 2 * p);
    assert p * W32 <= y < 2 * p * W32;
    assert q * (2 * p) <= y < (q + 1) * (2 * p) by { MulDistributes(q, 1, 2 * p); }
    assert (2 * p) * W32 == W32 * (2 * p) && p * W32 == 0x8000_0000 * (2 * p);
    NotAbove(q, W32, 2 * p);
    NotAbove(0x8000_0000, q + 1, 2 * p);
  }

  /** The estimate from the leading bits is never too large, and at most two too small. */
  lemma EstimateIsClose(x: nat, y: nat, p: nat, q: nat)
    requires x < W64 && p >= 2 && 0x8000_0000 <= y / p < W32 && q == x / p / (y / p + 1)
    ensures y * q <= x < y * q + 3 * y
  {
    var xs, xl, ys, yl := x / p, x % p, y / p, y % p;
    Euclid(x, p);
    Euclid(y, p);
    var rho := xs % (ys + 1);
    Euclid(xs, ys + 1);
    EstimateStep(x, y, p, q, xs, xl, ys, yl, rho);
  }

  lemma EstimateStep(x: nat, y: nat, p: nat, q: nat, xs: nat, xl: nat, ys: nat, yl: nat, rho: nat)
    requires p >= 2 && x < W64 && x == xs * p + xl && xl < p && y == ys * p + yl && yl < p
    requires 0x8000_0000 <= ys && xs == q * (ys + 1) + rho && rho <= ys
    ensures y * q <= x < y * q + 3 * y
  {
    // x - y q == q (p - yl) + p rho + xl
    var d := q * (p - yl) + p * rho + xl;
    assert x == y * q + d by { Expand(q, ys, rho, p, xl, yl); }
    assert d >= 0 by { NonNegative(q, p - yl); NonNegative(p, rho); }
    SmallEstimate(x, p, q, xs, ys, rho, xl);
    // q + 1 <= 2 ys, so d < p (q + ys + 1) <= 3 ys p <= 3 y
    assert q * (p - yl) <= q * p by { MulUp(p - yl, p, q); }
    assert p * rho <= p * ys by { MulUp(rho, ys, p); }
    assert q * p + p * ys + p == (q + ys + 1) * p;
    assert (q + ys + 1) * p <= (3 * ys) * p by { MulUp(q + ys + 1, 3 * ys, p); }
    assert (3 * ys) * p == 3 * (ys * p);
  }

  lemma Expand(q: int, ys: int, rho: int, p: int, xl: int, yl: int)
    ensures (q * (ys + 1) + rho) * p + xl == (ys * p + yl) * q + (q * (p - yl) + p * rho + xl)
  {
    assert q * (ys + 1) == q * ys + q;
    assert (q * ys + q + rho) * p == q * ys * p + q * p + rho * p;
    assert (ys * p + yl) * q == q * ys * p + yl * q;
    assert q * (p - yl) == q * p - q * yl;
  }

  lemma NonNegative(a: nat, b: nat)
    ensures a * b >= 0
  {
  }

  lemma MulUp(a: int, b: int, c: nat)
    requires a <= b
    ensures a * c <= b * c && c * a <= c * b
  {
    MulDistributes(b, a, c);
    if b > a && c > 0 { MulGrows(b - a, c); }
  }

  /** The estimate stays below twice the leading bits of the divisor. */
  lemma SmallEstimate(x: nat, p: nat, q: nat, xs: nat, ys: nat, rho: nat, xl: nat)
    requires p >= 2 && x < W64 && x == xs * p + xl && 0x8000_0000 <= ys && xs == q * (ys + 1) + rho
    ensures q + 1 <= 2 * ys
  {
    assert 2 * xs <= xs * p by { MulUp(2, p, xs); }
    if q >= 2 * ys {
      MulUp(2 * ys, q, ys + 1);
      MulUp(0x1_0000_0000, 2 * ys, ys + 1);
    }
  }

  /** do_div64. The divide that fails is the one by the leading bits of the divisor plus one, when these are
      all ones; steps counts the turns of the correction loop. */
  method DoDiv64(x: nat, y: nat) returns (res: Quotient, ghost steps: nat)
    requires x < W64 && y < W64
    ensures res.DivideError? <==> y >= W32 && Leading(y) == W32 - 1
    ensures res.Quotient? ==> if y == 0 then res.q == 0 && res.r == x else x == res.q * y + res.r && res.r < y
    ensures res.Quotient? ==> steps <= 2
  {
    hide Pow2, Bsr, Divl;
    var y1, y0, x1, x0 := y / W32, y % W32, x / W32, x % W32;
    steps := 0;
    if y1 != 0 {
      var l := Bsr(y1) + 1;
      y0, x1, x0 := ShiftAll(x, y, l);
      LeadingBounds(y, l);
      assert y0 == Leading(y);
      var divided := Divl(x1, x0, (y0 + 1) % W32);
      if divided.DivideError? {
        NoOverflow(x, y, l);
        return DivideError, 0;
      }
      x0 := divided.q;
      EstimateQuotient(x, y, l, divided);
      var r;
      x0, r, steps := Correct(x, y, x0);
      return Quotient(x0, r), steps;
    } else {
      res := DivideByWord(x1, x0, y0);
    }
  }

  /** The rest of do_div64, for a divisor of one word. */
  method DivideByWord(x1: nat, x0: nat, y: nat) returns (res: Quotient)
    requires x1 < W32 && x0 < W32 && y < W32
    ensures res.Quotient?
    ensures var x := x1 * W32 + x0; if y == 0 then res.q == 0 && res.r == x else x == res.q * y + res.r && res.r < y
  {
    hide Divl;
    if x1 < y {
      res := Divl(x1, x0, y);
    } else if y != 0 {
      var high := Divl(0, x1, y);
      var low := Divl(high.r, x0, y);
      TwoSteps(x1, x0, y, high, low);
      res := Quotient(high.q * W32 + low.q, low.r);
    } else {
      res := Quotient(0, x1 * W32 + x0);
    }
  }

  /** The largest divisor has nothing but ones. */
  lemma AllOnes()
    ensures Leading(W64 - 1) == W32 - 1
  {
    var r := Bsr(W32 - 1);
    hide Pow2, Bsr;
    Pow32();
    if r < 31 {
      Pow2Monotone(r + 1, 31);
    } else if r > 31 {
      Pow2Monotone(32, r);
    }
    assert (W64 - 1) / W32 == W32 - 1;
  }

  /** So do_div64 fails for it. */
  method DivideByAllOnes(x: nat) returns (res: Quotient)
    requires x < W64
    ensures res == DivideError
  {
    AllOnes();
    ghost var steps;
    res, steps := DoDiv64(x, W64 - 1);
  }

  /** The correction loop, from an estimate at most two too small. */
  method Correct(x: nat, y: nat, q0: nat) returns (q: nat, r: nat, ghost steps: nat)
    requires x < W64 && y > 0 && y * q0 <= x < y * q0 + 3 * y
    ensures x == q * y + r && r < y && steps <= 2 && q == q0 + steps
  {
    q, steps := q0, 0;
    ghost var done := y * q0;
    r := (x - y * q) % W64;
    while r >= y
      invariant y * q == done && x == done + r && q == q0 + steps && r < 3 * y - steps * y && 0 <= steps <= 2
      decreases r
    {
      NextMultiple(y, q);
      NextMultiple(y, steps);
      q := q + 1;
      r := r - y;
      done := done + y;
      steps := steps + 1;
    }
  }

  lemma NextMultiple(y: int, q: int)
    ensures y * (q + 1) == y * q + y && (q + 1) * y == q * y + y
  {
  }

  function ShiftedBy(x: nat, l: nat): int {
    x / Pow2(l)
  }

  /** rshift64_32 on the divisor and rshift64 on the dividend. */
  method ShiftAll(x: nat, y: nat, l: nat) returns (y0: int, x1: int, x0: int)
    requires x < W64 && W32 <= y < W64 && l == Bsr(y / W32) + 1
    ensures y0 == y / Pow2(l) && 0 <= x1 < W32 && 0 <= x0 < W32 && x1 * W32 + x0 == x / Pow2(l)
  {
    hide Shrd, Shr, Pow2, Bsr;
    LeadingBounds(y, l);
    y0, x1, x0 := ShiftWords(x, y, l);
  }

  method ShiftWords(x: nat, y: nat, l: nat) returns (y0: int, x1: int, x0: int)
    requires x < W64 && W32 <= y < W64 && 1 <= l <= 32 && ShiftedBy(y, l) < W32
    ensures y0 == ShiftedBy(y, l) && 0 <= x1 < W32 && 0 <= x0 < W32 && x1 * W32 + x0 == ShiftedBy(x, l)
  {
    hide Shrd, Shr, Pow2, Bsr, ShiftedBy;
    FullShift(x);
    FullShift(y);
    if l < 32 {
      WordsShifted(x, l);
      WordsShifted(y, l);
    }
    var y1 := y / W32;
    y0, x1, x0 := y % W32, x / W32, x % W32;
    y0 := if l / 32 % 2 == 1 then y1 else Shrd(y1, y0, l);
    x0 := Shrd(x1, x0, l);
    x1 := Shr(x1, l);
    if l / 32 % 2 == 1 {
      x0, x1 := x1, 0;
    }
  }

  /** A shift by 1..31 leaves the two words of the shifted number, and the low one alone when it fits. */
  lemma WordsShifted(x: nat, l: nat)
    requires x < W64 && 1 <= l <= 31
    ensures 0 <= Shrd(x / W32, x % W32, l) < W32 && 0 <= Shr(x / W32, l) < W32
    ensures Shr(x / W32, l) * W32 + Shrd(x / W32, x % W32, l) == ShiftedBy(x, l)
    ensures ShiftedBy(x, l) < W32 ==> Shrd(x / W32, x % W32, l) == ShiftedBy(x, l)
  {
    PairShifted(x, l);
    hide Shrd, Shr, Pow2;
    SmallHigh(x, Pow2(l));
    TwoWords(x / Pow2(l));
  }

  lemma TwoWords(q: int)
    requires 0 <= q < W64
    ensures q == q / W32 * W32 + q % W32 && 0 <= q / W32 < W32 && 0 <= q % W32 < W32
    ensures q < W32 ==> q % W32 == q
  {
  }

  /** A shift by 32 moves the high word down. */
  lemma FullShift(x: nat)
    requires x < W64
    ensures Shr(x / W32, 32) == x / W32 && ShiftedBy(x, 32) == x / W32 < W32
  {
    Pow32();
  }

  lemma SmallHigh(x: nat, p: nat)
    requires x < W64 && p > 0
    ensures 0 <= x / p < W64
  {
    var q := x / p;
    Euclid(x, p);
    if q >= W64 {
      MulUp(W64, q, p);
    }
  }

  /** The first divide does not overflow. */
  lemma NoOverflow(x: nat, y: nat, l: nat)
    requires x < W64 && W32 <= y < W64 && l == Bsr(y / W32) + 1
    ensures 0x8000_0000 <= y / Pow2(l) < W32 && x / Pow2(l) / W32 < y / Pow2(l) + 1
  {
    LeadingBounds(y, l);
    assert Pow2(l) >= 2;
    hide Pow2, Bsr;
    HalfHigh(x, Pow2(l));
  }

  lemma HalfHigh(x: nat, p: nat)
    requires x < W64 && p >= 2
    ensures x / p / W32 < 0x8000_0000
  {
    var q := x / p;
    Euclid(x, p);
    if q >= W64 / 2 {
      MulUp(W64 / 2, q, p);
    }
  }

  lemma EstimateQuotient(x: nat, y: nat, l: nat, d: Quotient)
    requires x < W64 && W32 <= y < W64 && l == Bsr(y / W32) + 1 && d.Quotient? && (y / Pow2(l) + 1) % W32 != 0
    requires x / Pow2(l) == d.q * ((y / Pow2(l) + 1) % W32) + d.r && d.r < (y / Pow2(l) + 1) % W32
    ensures y * d.q <= x < y * d.q + 3 * y
  {
    LeadingBounds(y, l);
    assert Pow2(l) >= 2;
    hide Pow2, Bsr;
    NoWrap(y / Pow2(l) + 1);
    ModUnique(x / Pow2(l), y / Pow2(l) + 1, d.q, d.r);
    EstimateIsClose(x, y, Pow2(l), d.q);
  }

  lemma NoWrap(v: nat)
    requires v <= W32 && v % W32 != 0
    ensures v % W32 == v
  {
  }

  lemma TwoSteps(x1: nat, x0: nat, y: nat, high: Quotient, low: Quotient)
    requires x1 < W32 && x0 < W32 && y > 0 && high == Divl(0, x1, y) && high.Quotient? &&
      low == Divl(high.r, x0, y) && low.Quotient?
    ensures x1 * W32 + x0 == (high.q * W32 + low.q) * y + low.r && low.r < y
  {
    assert x1 == high.q * y + high.r;
    assert high.r * W32 + x0 == low.q * y + low.r;
    assert (high.q * W32 + low.q) * y == high.q * y * W32 + low.q * y;
  }

  // ---- user/tests/lib/math.c

  /** div64 by shifting and subtracting. */
  method ShiftSubtract(x: nat, d: nat) returns (q: nat, r: nat)
    requires x < W64 && d < W64
    ensures if d == 0 then q == 0 && r == x else x == q * d + r && r < d
  {
    if d > x || d == 0 {
      NothingTaken(d);
      return 0, x;
    }
    var mul, div := 1, d;
    ghost var k: nat := 0;
    while div < W64 / 2
      invariant mul == Doubled(1, k) && div == Doubled(d, k) && d <= div <= x
      decreases x - div
    {
      var next := div + div;
      if next > x {
        break;
      }
      div := next;
      mul := mul + mul;
      k := k + 1;
    }
    q := mul;
    r := x - div;
    ghost var taken := div;
    MulDoubled(d, k);
    while true
      invariant mul == Doubled(1, k) && div == Doubled(d, k) && 0 <= r < div && x == taken + r && taken == q * d
      decreases k
    {
      DoubledHalves(k, d);
      mul := mul / 2;
      div := div / 2;
      if mul == 0 {
        return;
      }
      k := k - 1;
      if r >= div {
        MulDoubled(d, k);
        MulDistributes(q, mul, d);
        q := q + mul;
        r := r - div;
        taken := taken + div;
      }
    }
  }

  lemma NothingTaken(d: nat)
    ensures 0 * d == 0
  {
  }

  /** n doubled k times. */
  function Doubled(n: int, k: nat): int {
    if k == 0 then n else 2 * Doubled(n, k - 1)
  }

  lemma {:induction false} MulDoubled(d: int, k: nat)
    ensures Doubled(1, k) * d == Doubled(d, k)
  {
    if k > 0 {
      MulDoubled(d, k - 1);
      Halve(Doubled(1, k - 1), d);
    }
  }

  lemma {:induction false} DoubledHalves(k: nat, d: int)
    ensures Doubled(1, k) >= 1 && (k == 0 ==> Doubled(1, k) / 2 == 0 && Doubled(d, k) == d)
    ensures k > 0 ==> Doubled(1, k) / 2 == Doubled(1, k - 1) >= 1 && Doubled(d, k) / 2 == Doubled(d, k - 1)
    ensures k > 0 ==> Doubled(d, k) == 2 * Doubled(d, k - 1)
  {
    if k > 0 {
      DoubledHalves(k - 1, d);
    }
  }

  // ---- mul64

  const W16: int := 0x1_0000

  /** a number from its four 16-bit digits. */
  function FromDigits(a: int, b: int, c: int, d: int): int {
    a + W16 * (b + W16 * (c + W16 * d))
  }

  lemma DigitsOf(x: nat)
    requires x < W64
    ensures x == FromDigits(x % W16, x / W16 % W16, x / W16 / W16 % W16, x / W16 / W16 / W16)
    ensures x / W16 / W16 / W16 < W16
  {
    var x1 := x / W16;
    var x2 := x1 / W16;
    var x3 := x2 / W16;
    assert x == W16 * x1 + x % W16 && x1 == W16 * x2 + x1 % W16 && x2 == W16 * x3 + x2 % W16;
  }

  lemma Distribute(a: int, r: int, y: int)
    ensures (a + W16 * r) * y == a * y + W16 * (r * y)
  {
    MulDistributes(a, W16 * r, y);
    assert W16 * r * y == W16 * (r * y);
  }

  /** A digit times a number, digit by digit. */
  lemma Row(a: int, e: int, f: int, g: int, h: int)
    ensures a * FromDigits(e, f, g, h) == FromDigits(a * e, a * f, a * g, a * h)
  {
    Distribute(g, h, a);
    Distribute(f, g + W16 * h, a);
    Distribute(e, f + W16 * (g + W16 * h), a);
  }

  /** The terms of a product that stay below 2^64, and the rest. */
  lemma ProductOfDigits(a: int, b: int, c: int, d: int, e: int, f: int, g: int, h: int)
    ensures FromDigits(a, b, c, d) * FromDigits(e, f, g, h) ==
      a * e + W16 * ((b * e + a * f) + W16 * ((c * e + b * f + a * g) + W16 * (d * e + c * f + b * g + a * h))) +
      W64 * ((d * f + c * g + b * h) + W16 * ((d * g + c * h) + W16 * (d * h)))
  {
    var y := FromDigits(e, f, g, h);
    Distribute(a, b + W16 * (c + W16 * d), y);
    Distribute(b, c + W16 * d, y);
    Distribute(c, d, y);
    Row(a, e, f, g, h);
    Row(b, e, f, g, h);
    Row(c, e, f, g, h);
    Row(d, e, f, g, h);
    Columns(a * e, a * f, a * g, a * h, b * e, b * f, b * g, b * h,
            c * e, c * f, c * g, c * h, d * e, d * f, d * g, d * h);
  }

  lemma Columns(ae: int, af: int, ag: int, ah: int, be: int, bf: int, bg: int, bh: int,
                ce: int, cf: int, cg: int, ch: int, de: int, df: int, dg: int, dh: int)
    ensures FromDigits(ae, af, ag, ah) + W16 * (FromDigits(be, bf, bg, bh) +
            W16 * (FromDigits(ce, cf, cg, ch) + W16 * FromDigits(de, df, dg, dh))) ==
      ae + W16 * ((be + af) + W16 * ((ce + bf + ag) + W16 * (de + cf + bg + ah))) +
      W64 * ((df + cg + bh) + W16 * ((dg + ch) + W16 * dh))
  {
  }

  /** What a 64-bit register keeps of a number. */
  function Mod64(u: int): int {
    u % W64
  }

  /** Reducing modulo 2^64 on the way does not change the result. */
  lemma ReduceInside(u: int, v: int)
    ensures Mod64(Mod64(u) * W16 + v) == Mod64(u * W16 + v)
  {
    var q := u / W64;
    assert u == W64 * q + u % W64;
    assert u * W16 + v == (u % W64 * W16 + v) + W64 * (q * W16);
    ModAddMultiple(u % W64 * W16 + v, W64, q * W16);
  }

  /** mul64: the product modulo 2^64, from products of 16-bit digits. */
  method Mul64(x0: nat, y0: nat) returns (res: nat)
    requires x0 < W64 && y0 < W64
    ensures res == x0 * y0 % W64
  {
    var x, y := x0, y0;
    var a := x % W16;
    x := x / W16;
    var b := x % W16;
    x := x / W16;
    var c := x % W16;
    x := x / W16;
    var d := x % W16;
    var e := y % W16;
    y := y / W16;
    var f := y % W16;
    y := y / W16;
    var g := y % W16;
    y := y / W16;
    var h := y % W16;
    DigitsOf(x0);
    DigitsOf(y0);
    hide FromDigits;
    res := MulDigits(x0, y0, a, b, c, d, e, f, g, h);
  }

  method MulDigits(ghost x: nat, ghost y: nat, a: nat, b: nat, c: nat, d: nat, e: nat, f: nat, g: nat, h: nat)
    returns (res: nat)
    requires x == FromDigits(a, b, c, d) && y == FromDigits(e, f, g, h)
    requires a < W16 && b < W16 && c < W16 && d < W16 && e < W16 && f < W16 && g < W16 && h < W16
    ensures res == x * y % W64
  {
    hide FromDigits, Low, Mod64;
    DigitProducts(a, b, c, d, e, f, g, h);
    ProductModulo(x, y, a, b, c, d, e, f, g, h);
    NonNegativeMod(x * y);
    res := SumProducts(d * e, c * f, b * g, a * h, c * e, b * f, a * g, b * e, a * f, a * e);
  }

  lemma ProductModulo(x: nat, y: nat, a: nat, b: nat, c: nat, d: nat, e: nat, f: nat, g: nat, h: nat)
    requires x == FromDigits(a, b, c, d) && y == FromDigits(e, f, g, h)
    ensures x * y % W64 == Low(d * e + c * f + b * g + a * h, c * e + b * f + a * g, b * e + a * f, a * e) % W64
  {
    ProductOfDigits(a, b, c, d, e, f, g, h);
    ModAddMultiple(Low(d * e + c * f + b * g + a * h, c * e + b * f + a * g, b * e + a * f, a * e), W64,
                   (d * f + c * g + b * h) + W16 * ((d * g + c * h) + W16 * (d * h)));
  }

  function Low(s3: int, s2: int, s1: int, s0: int): int {
    ((s3 * W16 + s2) * W16 + s1) * W16 + s0
  }

  /** The additions and shifts of mul64. */
  method SumProducts(de: nat, cf: nat, bg: nat, ah: nat, ce: nat, bf: nat, ag: nat, be: nat, af: nat, ae: nat)
    returns (res: int)
    ensures res == Low(de + cf + bg + ah, ce + bf + ag, be + af, ae) % W64
  {
    hide Mod64;
    ghost var s3, s2, s1 := de + cf + bg + ah, ce + bf + ag, be + af;
    var acc := Mod64(de);
    acc := Mod64(acc + cf);
    acc := Mod64(acc + bg);
    acc := Mod64(acc + ah);
    AddThree(de, cf, bg, ah);
    acc := Mod64(acc * W16);
    acc := Mod64(acc + ce);
    acc := Mod64(acc + bf);
    acc := Mod64(acc + ag);
    AddThree(Mod64(s3) * W16, ce, bf, ag);
    ReduceInside(s3, s2);
    ghost var t := s3 * W16 + s2;
    acc := Mod64(acc * W16);
    acc := Mod64(acc + be);
    acc := Mod64(acc + af);
    AddTwo(Mod64(t) * W16, be, af);
    ReduceInside(t, s1);
    ghost var w := t * W16 + s1;
    acc := Mod64(acc * W16);
    acc := Mod64(acc + ae);
    AddReduced(Mod64(w) * W16, ae);
    ReduceInside(w, ae);
    NonNegativeMod(w * W16 + ae);
    res := acc;
  }

  lemma NonNegativeMod(u: int)
    ensures Mod64(u) == u % W64 && 0 <= u % W64 < W64
  {
  }

  /** Products of 16-bit digits fit 32 bits, and four of them 64. */
  lemma DigitProducts(a: nat, b: nat, c: nat, d: nat, e: nat, f: nat, g: nat, h: nat)
    requires a < W16 && b < W16 && c < W16 && d < W16 && e < W16 && f < W16 && g < W16 && h < W16
    ensures 0 <= d * e < W32 && 0 <= c * f < W32 && 0 <= b * g < W32 && 0 <= a * h < W32
    ensures 0 <= c * e < W32 && 0 <= b * f < W32 && 0 <= a * g < W32 && 0 <= b * e < W32 &&
      0 <= a * f < W32 && 0 <= a * e < W32
  {
    DigitProduct(d, e);
    DigitProduct(c, f);
    DigitProduct(b, g);
    DigitProduct(a, h);
    DigitProduct(c, e);
    DigitProduct(b, f);
    DigitProduct(a, g);
    DigitProduct(b, e);
    DigitProduct(a, f);
    DigitProduct(a, e);
  }

  lemma DigitProduct(a: nat, b: nat)
    requires a < W16 && b < W16
    ensures 0 <= a * b < W32
  {
    NonNegative(a, b);
    MulUp(a, W16, b);
    assert W16 * b < W32;
  }

  lemma AddThree(u: int, p: int, q: int, r: int)
    ensures Mod64(Mod64(Mod64(Mod64(u) + p) + q) + r) == Mod64(u + p + q + r)
  {
    hide Mod64;
    AddReduced(u, p);
    AddReduced(u + p, q);
    AddReduced(u + p + q, r);
  }

  lemma AddTwo(u: int, p: int, q: int)
    ensures Mod64(Mod64(Mod64(u) + p) + q) == Mod64(u + p + q)
  {
    hide Mod64;
    AddReduced(u, p);
    AddReduced(u + p, q);
  }

  lemma AddReduced(u: int, p: int)
    ensures Mod64(Mod64(u) + p) == Mod64(u + p)
  {
    var q := u / W64;
    assert u == W64 * q + u % W64;
    ModAddMultiple(u % W64 + p, W64, q);
  }
}
