/** Request sizes, bin indices and the bin map of shared/malloc.c, on 32-bit words. */
module MallocSizes {
  import opened Arith

  const WORD: int := 0x1_0000_0000
  const MINSIZE: int := 16
  const NBINS: int := 96
  const NSMALLBINS: int := 32
  const MIN_LARGE_SIZE: int := 256
  const MAX_FAST: int := 72       // request2size(DEFAULT_MXFAST)
  const NFASTBINS: int := 10
  const BINMAPSIZE: int := 3

  // ---- request2size

  predicate OutOfRange(bytes: nat) {
    bytes >= WORD - 2 * MINSIZE
  }

  function Request2Size(bytes: nat): nat {
    if bytes + 4 + 7 < MINSIZE then MINSIZE else (bytes + 4 + 7) / 8 * 8
  }

  /** The padded size is the least legal chunk size that holds the request and its header word; asking for
      a padded size again gives it back, as sYSMALLOc relies on; and adding MINSIZE does not wrap. */
  lemma PaddedSize(bytes: nat)
    ensures var nb := Request2Size(bytes); nb % 8 == 0 && nb >= MINSIZE && nb >= bytes + 4
    ensures forall n: nat :: n % 8 == 0 && n >= MINSIZE && n >= bytes + 4 ==> Request2Size(bytes) <= n
    ensures Request2Size(Request2Size(bytes) - 7) == Request2Size(bytes)
    ensures !OutOfRange(bytes) ==> Request2Size(bytes) + MINSIZE < WORD
  {
    var nb := Request2Size(bytes);
    assert nb - 7 + 4 + 7 == nb + 4;
  }

  // ---- bin_index

  /** Bitwise and of two words. */
  function And(a: nat, b: nat): nat
    decreases a
  {
    if a == 0 then 0 else (a % 2) * (b % 2) + 2 * And(a / 2, b / 2)
  }

  function Sub32(a: int, b: int): nat {
    (a - b) % WORD
  }

  function Shl32(x: nat, n: nat): nat {
    x * Pow2(n) % WORD
  }

  /** The branch-free search for the highest bit in largebin_index. */
  function HighBit(x: nat): int {
    var n0 := And(8, Sub32(x, 0x100) / 0x10000);
    var x0 := Shl32(x, n0);
    var m0 := And(4, Sub32(x0, 0x1000) / 0x10000);
    var x1 := Shl32(x0, m0);
    var m1 := And(2, Sub32(x1, 0x4000) / 0x10000);
    var x2 := Shl32(x1, m1) / 0x4000;
    13 - (n0 + m0 + m1) + And(x2, WORD - 1 - x2 / 2)
  }

  /** m is the position of the highest set bit of x. */
  predicate IsHighBit(x: nat, m: nat) {
    Pow2(m) <= x < Pow2(m + 1)
  }

  lemma AndOfPower(w: nat)
    requires w == 0 || w == 0xFFFF
    ensures And(8, w) == (if w == 0 then 0 else 8)
    ensures And(4, w) == (if w == 0 then 0 else 4)
    ensures And(2, w) == (if w == 0 then 0 else 2)
  {
    assert And(1, w) == w % 2;
    assert And(1, w / 2) == w / 2 % 2 && And(1, w / 4) == w / 4 % 2 && And(1, w / 8) == w / 8 % 2;
    assert And(2, w) == 2 * And(1, w / 2);
    assert And(2, w / 2) == 2 * And(1, w / 4) && And(2, w / 4) == 2 * And(1, w / 8);
    assert And(4, w) == 2 * And(2, w / 2) && And(4, w / 2) == 2 * And(2, w / 4);
    assert And(8, w) == 2 * And(4, w / 2);
  }

  /** x - bound borrows exactly when x is below the bound. */
  lemma Borrow(x: nat, bound: nat)
    requires x < 0x10000 && bound <= 0x10000
    ensures Sub32(x, bound) / 0x10000 == if x < bound then 0xFFFF else 0
  {
    if x < bound {
      assert Sub32(x, bound) == x - bound + WORD;
    } else {
      assert Sub32(x, bound) == x - bound;
    }
  }

  lemma SmallPowers()
    ensures Pow2(0) == 1 && Pow2(1) == 2 && Pow2(2) == 4 && Pow2(4) == 16 && Pow2(8) == 256
    ensures Pow2(13) == 0x2000 && Pow2(14) == 0x4000 && Pow2(15) == 0x8000 && Pow2(16) == 0x10000
  {
    assert Pow2(4) == 16;
    assert Pow2(8) == 256 by { Pow2Add(4, 4); }
    assert Pow2(12) == 4096 by { Pow2Add(4, 8); }
    assert Pow2(16) == 0x10000 by { Pow2Add(8, 8); }
  }

  lemma LastStep(x: nat)
    requires 1 <= x <= 3
    ensures And(x, WORD - 1 - x / 2) == if x == 1 then 1 else 2
  {
    var b := WORD - 1 - x / 2;
    assert And(x / 2, b / 2) == (x / 2 % 2) * (b / 2 % 2);
  }

  /** What one step of the search leaves: x was shifted left by n in all and reaches bound. */
  ghost predicate Shifted(x0: nat, x: nat, n: nat, bound: nat) {
    x == x0 * Pow2(n) && bound <= x < 0x10000
  }

  lemma ShiftInRange(x: nat, p: nat, bound: nat, reach: nat)
    requires bound <= x < reach && p > 0 && reach * p == 0x10000 && bound * p >= reach
    ensures reach <= x * p < 0x10000
  {
    MulMonotone(x, reach, p);
    if bound < x {
      MulMonotone(bound, x, p);
    }
  }

  lemma ShiftMore(x0: nat, x: nat, n: nat, k: nat, bound: nat, reach: nat)
    requires Shifted(x0, x, n, bound) && (k == 0 || x < reach) && (k == 0 ==> x >= reach)
    requires k > 0 ==> reach * Pow2(k) == 0x10000 && bound * Pow2(k) >= reach
    ensures Shl32(x, k) == x * Pow2(k) && Shifted(x0, x * Pow2(k), n + k, reach)
  {
    var p := Pow2(k);
    if k == 0 {
      assert x * p == x by { SmallPowers(); }
    } else {
      ShiftInRange(x, p, bound, reach);
    }
    hide Pow2;
    assert reach <= x * p < 0x10000;
    assert Shl32(x, k) == x * p;
    Pow2Add(n, k);
    Assoc(x0, Pow2(n), p);
  }

  lemma MulMonotone(a: int, b: int, c: nat)
    requires a < b && c > 0
    ensures a * c < b * c
  {
    MulDistributes(b, a, c);
    MulGrows(b - a, c);
  }

  lemma Assoc(a: int, b: int, c: int)
    ensures a * b * c == a * (b * c)
  {
  }

  /** The branch-free code finds the highest set bit of every x below 2^16. */
  lemma HighBitIsHighest(x: nat)
    requires 1 <= x < 0x10000
    ensures 0 <= HighBit(x) <= 15 && IsHighBit(x, HighBit(x))
  {
    hide Shl32, Sub32, And, Pow2;
    SmallPowers();
    AndOfPower(0);
    AndOfPower(0xFFFF);
    assert Shifted(x, x, 0, 1);
    var n0 := And(8, Sub32(x, 0x100) / 0x10000);
    Borrow(x, 0x100);
    ShiftMore(x, x, 0, n0, 1, 0x100);
    var x0 := Shl32(x, n0);
    var m0 := And(4, Sub32(x0, 0x1000) / 0x10000);
    Borrow(x0, 0x1000);
    ShiftMore(x, x0, n0, m0, 0x100, 0x1000);
    var x1 := Shl32(x0, m0);
    var m1 := And(2, Sub32(x1, 0x4000) / 0x10000);
    Borrow(x1, 0x4000);
    ShiftMore(x, x1, n0 + m0, m1, 0x1000, 0x4000);
    var x2 := Shl32(x1, m1);
    LastStep(x2 / 0x4000);
    Normalised(x, x2, n0 + m0 + m1);
  }

  /** The highest bit of x, from that of x shifted to the top two positions of 16 bits. */
  lemma Normalised(x: nat, y: nat, n: nat)
    requires y == x * Pow2(n) && 0x4000 <= y < 0x10000 && n <= 14
    ensures var m := if y < 0x8000 then 14 - n else 15 - n; IsHighBit(x, m)
  {
    SmallPowers();
    var m := if y < 0x8000 then 14 - n else 15 - n;
    Pow2Add(m, n);
    Pow2Add(m + 1, n);
    assert Pow2(m) * Pow2(n) <= x * Pow2(n) < Pow2(m + 1) * Pow2(n);
    if x < Pow2(m) {
      MulMonotone(x, Pow2(m), Pow2(n));
    }
    if x >= Pow2(m + 1) {
      assert x == Pow2(m + 1) || x > Pow2(m + 1);
      if x > Pow2(m + 1) {
        MulMonotone(Pow2(m + 1), x, Pow2(n));
      }
    }
  }

  function LargeBinIndex(sz: nat): int {
    var x := sz / 0x100;
    if x >= 0x10000 then NBINS - 1
    else
      var m := if x == 0 then 0 else HighBit(x);
      NSMALLBINS + 4 * m + (if m >= 0 then sz / Pow2(m + 6) % 4 else 0)
  }

  function BinIndex(sz: nat): int {
    if sz < MIN_LARGE_SIZE then sz / 8 else LargeBinIndex(sz)
  }

  /** Large bins are spaced logarithmically, four to each power of two. */
  lemma LargeIndexIs(sz: nat, m: nat)
    requires MIN_LARGE_SIZE <= sz < 0x100_0000 && m == HighBit(sz / 0x100)
    ensures 4 * Pow2(m + 6) <= sz < 8 * Pow2(m + 6) && m <= 15
    ensures LargeBinIndex(sz) == NSMALLBINS + 4 * m + (sz / Pow2(m + 6) - 4)
    ensures 4 <= sz / Pow2(m + 6) <= 7
  {
    hide HighBit;
    var x := sz / 0x100;
    HighBitIsHighest(x);
    assert Pow2(m + 8) == 256 * Pow2(m) && Pow2(m + 8) == 4 * Pow2(m + 6) by {
      SmallPowers();
      Pow2Add(m, 8);
      Pow2Add(m + 6, 2);
    }
    assert Pow2(m + 9) == 2 * Pow2(m + 8) && Pow2(m + 1) == 2 * Pow2(m);
    QuotientBounds(sz, Pow2(m + 6));
  }

  lemma QuotientBounds(a: nat, d: nat)
    requires d > 0 && 4 * d <= a < 8 * d
    ensures 4 <= a / d <= 7
  {
    var q := a / d;
    assert a == q * d + a % d;
    if q < 4 {
      MulMonotone(q, 4, d);
      MulDistributes(4, q, d);
      MulGrows(4 - q, d);
    } else if q > 7 {
      MulDistributes(q, 8, d);
      if q > 8 {
        MulGrows(q - 8, d);
      }
    }
  }

  lemma QuotientMonotone(a: nat, b: nat, d: nat)
    requires d > 0 && a <= b
    ensures a / d <= b / d
  {
    var p, q := a / d, b / d;
    assert a == p * d + a % d && b == q * d + b % d;
    if p > q {
      MulDistributes(p, q, d);
      MulGrows(p - q, d);
    }
  }

  /** A larger chunk never has a smaller index. */
  lemma BinIndexMonotone(s: nat, t: nat)
    requires s <= t
    ensures BinIndex(s) <= BinIndex(t)
  {
    if s < MIN_LARGE_SIZE {
      BinIndexBounds(t);
    } else if t < 0x100_0000 {
      LargeIndexMonotone(s, t);
    } else {
      BinIndexBounds(s);
    }
  }

  lemma BinIndexBounds(sz: nat)
    ensures 0 <= BinIndex(sz) < NBINS
    ensures sz >= MIN_LARGE_SIZE <==> BinIndex(sz) >= NSMALLBINS
    ensures sz >= MINSIZE ==> BinIndex(sz) >= 2
  {
    hide HighBit;
    if MIN_LARGE_SIZE <= sz < 0x100_0000 {
      HighBitIsHighest(sz / 0x100);
      LargeIndexIs(sz, HighBit(sz / 0x100));
    }
  }

  lemma LargeIndexMonotone(s: nat, t: nat)
    requires MIN_LARGE_SIZE <= s <= t < 0x100_0000
    ensures LargeBinIndex(s) <= LargeBinIndex(t)
  {
    hide HighBit, LargeBinIndex;
    HighBitIsHighest(s / 0x100);
    HighBitIsHighest(t / 0x100);
    var m, n := HighBit(s / 0x100), HighBit(t / 0x100);
    LargeIndexIs(s, m);
    LargeIndexIs(t, n);
    if m == n {
      QuotientMonotone(s, t, Pow2(m + 6));
    } else if m > n {
      Pow2Monotone(n + 7, m + 6);
      assert Pow2(n + 7) == 2 * Pow2(n + 6);
    }
  }

  /** Every chunk in a bin above the one of a request is large enough for it. */
  lemma HigherBinFits(nb: nat, sz: nat)
    requires BinIndex(sz) > BinIndex(nb)
    ensures sz > nb
  {
    if sz <= nb {
      BinIndexMonotone(sz, nb);
    }
  }

  // ---- binmap

  /** Bit k of a word. */
  predicate Bit(w: nat, k: nat) {
    if k == 0 then w % 2 == 1 else Bit(w / 2, k - 1)
  }

  /** w | 1 << k. */
  function SetBit(w: nat, k: nat): (r: nat)
    ensures forall j: nat :: Bit(r, j) <==> j == k || Bit(w, j)
    ensures r >= w
  {
    var r := if k == 0 then w / 2 * 2 + 1 else 2 * SetBit(w / 2, k - 1) + w % 2;
    assert forall j: nat :: Bit(r, j) <==> if j == 0 then r % 2 == 1 else Bit(r / 2, j - 1);
    assert forall j: nat :: Bit(w, j) <==> if j == 0 then w % 2 == 1 else Bit(w / 2, j - 1);
    r
  }

  /** w & ~(1 << k). */
  function ClearBit(w: nat, k: nat): (r: nat)
    ensures forall j: nat :: Bit(r, j) <==> j != k && Bit(w, j)
    ensures r <= w
  {
    var r := if k == 0 then w / 2 * 2 else 2 * ClearBit(w / 2, k - 1) + w % 2;
    assert forall j: nat :: Bit(r, j) <==> if j == 0 then r % 2 == 1 else Bit(r / 2, j - 1);
    assert forall j: nat :: Bit(w, j) <==> if j == 0 then w % 2 == 1 else Bit(w / 2, j - 1);
    r
  }

  /** 1 << k exceeds w: no bit of w is set from k on. */
  lemma {:induction false} NoBitsAbove(w: nat, k: nat, j: nat)
    requires Pow2(k) > w && j >= k
    ensures !Bit(w, j)
  {
    if j > 0 {
      NoBitsAbove(w / 2, if k == 0 then 0 else k - 1, j - 1);
    }
  }

  /** 1 << k does not exceed w, and bit k is clear: then neither does 1 << (k + 1). */
  lemma {:induction false} BitAbove(w: nat, k: nat)
    requires Pow2(k) <= w && !Bit(w, k)
    ensures Pow2(k + 1) <= w
  {
    if k > 0 {
      assert Pow2(k) == 2 * Pow2(k - 1) && Pow2(k + 1) == 2 * Pow2(k);
      BitAbove(w / 2, k - 1);
    }
  }

  lemma {:induction false} SetBitBound(w: nat, k: nat, n: nat)
    requires w < Pow2(n) && k < n
    ensures SetBit(w, k) < Pow2(n)
  {
    if k > 0 {
      SetBitBound(w / 2, k - 1, n - 1);
    }
  }
}
