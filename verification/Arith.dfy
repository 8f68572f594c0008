/** Powers of two and divisibility, shared by the other modules. */
module Arith {

  function Pow2(k: nat): (p: nat)
    ensures p >= 1
    ensures k > 0 ==> p % 2 == 0
  {
    if k == 0 then 1 else 2 * Pow2(k - 1)
  }

  /** 2^k divides a, by repeated halving. */
  predicate DivPow(k: nat, a: int) {
    k == 0 || (a % 2 == 0 && DivPow(k - 1, a / 2))
  }

  lemma {:induction false} DivPowIffMod(k: nat, a: int)
    ensures DivPow(k, a) <==> a % Pow2(k) == 0
  {
    if k > 0 {
      DivPowIffMod(k - 1, a / 2);
      if a % 2 == 0 {
        HalveMod(a / 2, Pow2(k - 1));
      } else {
        OddMod(a, Pow2(k - 1));
      }
    }
  }

  lemma HalveMod(h: int, p: nat)
    requires p > 0
    ensures (2 * h) % (2 * p) == 0 <==> h % p == 0
  {
    var q, r := h / p, h % p;
    assert h == q * p + r;
    assert 2 * h == q * (2 * p) + 2 * r;
    ModUnique(2 * h, 2 * p, q, 2 * r);
  }

  lemma OddMod(a: int, p: nat)
    requires p > 0 && a % 2 == 1
    ensures a % (2 * p) != 0
  {
    var q, r := a / (2 * p), a % (2 * p);
    assert a == q * (2 * p) + r;
    assert q * (2 * p) == 2 * (q * p);
  }

  lemma ModOfMultiple(d: nat, q: int)
    requires d > 0
    ensures (d * q) % d == 0
  {
    ModUnique(d * q, d, q, 0);
  }

  lemma MulGrows(a: int, d: nat)
    requires a >= 1 && d > 0
    ensures a * d >= d
  {
    assert a * d == (a - 1) * d + d;
  }

  lemma MulDistributes(a: int, b: int, d: int)
    ensures (a - b) * d == a * d - b * d
    ensures (a + b) * d == a * d + b * d
  {
  }

  /** Quotient and remainder are determined by a == q * d + r with 0 <= r < d. */
  lemma ModUnique(a: int, d: nat, q: int, r: int)
    requires d > 0 && a == q * d + r && 0 <= r < d
    ensures a / d == q && a % d == r
  {
    var q', r' := a / d, a % d;
    assert a == q' * d + r';
    MulDistributes(q, q', d);
    MulDistributes(q', q, d);
    if q > q' {
      MulGrows(q - q', d);
    } else if q < q' {
      MulGrows(q' - q, d);
    }
  }

  lemma ModAddMultiple(a: int, d: nat, q: int)
    requires d > 0
    ensures (a + d * q) % d == a % d
  {
    var q', r' := a / d, a % d;
    assert a + d * q == (q' + q) * d + r' by {
      assert (q' + q) * d == q' * d + q * d;
    }
    ModUnique(a + d * q, d, q' + q, r');
  }

  /** Equal residues differ by a multiple, and conversely. */
  lemma SameModIffDivides(a: int, b: int, d: nat)
    requires d > 0
    ensures a % d == b % d <==> (a - b) % d == 0
  {
    if a % d == b % d {
      assert a - b == d * (a / d - b / d) by {
        assert d * (a / d - b / d) == d * (a / d) - d * (b / d);
      }
      ModOfMultiple(d, a / d - b / d);
    }
    if (a - b) % d == 0 {
      var q := (a - b) / d;
      assert a == b + d * q;
      ModAddMultiple(b, d, q);
    }
  }

  lemma ModTwice(a: int, m: nat, n: nat)
    requires m > 0 && n > 0
    ensures (a % (m * n)) % m == a % m
  {
    var q := a / (m * n);
    assert a == a % (m * n) + (m * n) * q;
    assert (m * n) * q == m * (n * q);
    ModAddMultiple(a % (m * n), m, n * q);
  }

  lemma Pow2Step(k: nat)
    ensures Pow2(k + 1) == 2 * Pow2(k)
  {
  }

  lemma DoubleFactor(p: int, q: int, r: int)
    requires r == 2 * p
    ensures r * q == 2 * (p * q)
  {
  }

  lemma {:induction false} Pow2Add(a: nat, b: nat)
    ensures Pow2(a + b) == Pow2(a) * Pow2(b)
  {
    if a == 0 {
      assert Pow2(0) == 1;
    } else {
      hide Pow2;
      Pow2Add(a - 1, b);
      Pow2Step(a - 1);
      Pow2Step(a - 1 + b);
      DoubleFactor(Pow2(a - 1), Pow2(b), Pow2(a));
    }
  }

  lemma Pow32()
    ensures Pow2(32) == 0x1_0000_0000 && Pow2(31) == 0x8000_0000
  {
    assert Pow2(4) == 16;
    assert Pow2(32) == 2 * Pow2(31);
    hide Pow2;
    Pow2Add(4, 4);
    Pow2Add(8, 8);
    Pow2Add(16, 16);
  }

  lemma Pow2Monotone(a: nat, b: nat)
    requires a <= b
    ensures Pow2(a) <= Pow2(b)
    ensures a < b ==> 2 * Pow2(a) <= Pow2(b)
  {
    if a < b {
      Pow2Add(1, b - a - 1);
      Pow2Add(a, b - a);
      assert Pow2(b - a) >= 2;
      assert Pow2(a) * Pow2(b - a) >= Pow2(a) * 2;
    }
  }

  /** An odd factor carries no power of two. */
  lemma {:induction false} OddFactor(k: nat, a: int, y: int)
    ensures DivPow(k, a * (2 * y + 1)) <==> DivPow(k, a)
  {
    if k > 0 {
      var h := a / 2;
      if a == 2 * h {
        assert a * (2 * y + 1) == 2 * (h * (2 * y + 1)) by { Halve(h, 2 * y + 1); }
        OddFactor(k - 1, h, y);
      } else {
        assert a == 2 * h + 1;
        OddProduct(h, y);
      }
    }
  }

  lemma Halve(h: int, c: int)
    ensures (2 * h) * c == 2 * (h * c)
  {
  }

  lemma OddProduct(x: int, y: int)
    ensures (2 * x + 1) * (2 * y + 1) == 2 * (x * (2 * y + 1) + y) + 1
  {
  }
}
