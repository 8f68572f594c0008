/** The probe order of kernel/hash.c: index := 5 * index + perturb + 1, perturb := perturb >> 5,
    both in 32-bit unsigned arithmetic, the slot being index & mask. */
module HashCycle {
  import opened Arith

  const WORD: nat := 0x1_0000_0000

  /** Once the perturbation is exhausted: n further steps of i -> 5 * i + 1 on the integers. */
  function Orbit(i: int, n: nat): int {
    if n == 0 then i else 5 * Orbit(i, n - 1) + 1
  }

  /** 1 + 5 + ... + 5^(n-1). */
  function Geometric(n: nat): nat {
    if n == 0 then 0 else 5 * Geometric(n - 1) + 1
  }

  lemma {:induction false} OrbitClosedForm(i: int, n: nat)
    ensures Orbit(i, n) - i == Geometric(n) * (4 * i + 1)
  {
    if n > 0 {
      OrbitClosedForm(i, n - 1);
      var g, t := Geometric(n - 1), 4 * i + 1;
      assert Orbit(i, n) - i == 5 * (g * t) + t;
      assert (5 * g + 1) * t == 5 * (g * t) + t;
    }
  }

  lemma {:induction false} OrbitAdd(i: int, m: nat, n: nat)
    ensures Orbit(i, m + n) == Orbit(Orbit(i, m), n)
  {
    if n > 0 {
      OrbitAdd(i, m, n - 1);
      assert m + n - 1 == m + (n - 1);
    }
  }

  lemma {:induction false} GeometricAdd(m: nat, n: nat)
    ensures Geometric(m + n) == Geometric(m) + Geometric(n) + 4 * (Geometric(m) * Geometric(n))
  {
    if n > 0 {
      GeometricAdd(m, n - 1);
      assert m + n - 1 == m + (n - 1);
      GeometricStep(Geometric(m), Geometric(n - 1));
    }
  }

  lemma GeometricStep(a: int, b: int)
    ensures 5 * (a + b + 4 * (a * b)) + 1 == a + (5 * b + 1) + 4 * (a * (5 * b + 1))
  {
    assert a * (5 * b + 1) == 5 * (a * b) + a;
  }

  lemma {:induction false} GeometricParity(n: nat)
    ensures Geometric(n) % 2 == n % 2
  {
    if n > 0 {
      GeometricParity(n - 1);
    }
  }

  /** 2^k divides 1 + 5 + ... + 5^(n-1) exactly when it divides n. */
  lemma {:induction false} GeometricDivisibility(k: nat, n: nat)
    ensures DivPow(k, Geometric(n)) <==> DivPow(k, n)
  {
    if k > 0 {
      GeometricParity(n);
      if n % 2 == 0 {
        var h := n / 2;
        var g := Geometric(h);
        GeometricAdd(h, h);
        assert n == h + h;
        assert Geometric(n) == 2 * (g * (2 * g + 1)) by { DoubleGeometric(g); }
        OddFactor(k - 1, g, g);
        GeometricDivisibility(k - 1, h);
      }
    }
  }

  lemma DoubleGeometric(g: int)
    ensures g + g + 4 * (g * g) == 2 * (g * (2 * g + 1))
  {
    assert g * (2 * g + 1) == 2 * (g * g) + g;
  }

  /** n steps lead back to the starting residue exactly when 2^k divides n. */
  lemma OrbitReturns(x: int, k: nat, n: nat)
    ensures DivPow(k, Orbit(x, n) - x) <==> DivPow(k, n)
  {
    OrbitClosedForm(x, n);
    OddFactor(k, Geometric(n), 2 * x);
    GeometricDivisibility(k, n);
  }

  /** The full-cycle theorem, first half: 2^k consecutive orbit points fall in distinct residues. */
  lemma OrbitInjective(i: int, k: nat, a: nat, b: nat)
    requires a < b < a + Pow2(k)
    ensures Orbit(i, a) % Pow2(k) != Orbit(i, b) % Pow2(k)
  {
    var x, n := Orbit(i, a), b - a;
    OrbitAdd(i, a, n);
    OrbitReturns(x, k, n);
    assert Orbit(i, b) == Orbit(x, n);
    NotBackEarly(k, n, Orbit(x, n), x);
  }

  lemma NotBackEarly(k: nat, n: nat, y: int, x: int)
    requires 0 < n < Pow2(k) && (DivPow(k, y - x) <==> DivPow(k, n))
    ensures x % Pow2(k) != y % Pow2(k)
  {
    DivPowIffMod(k, y - x);
    DivPowIffMod(k, n);
    SmallIsNotDivisible(n, Pow2(k));
    SameModIffDivides(y, x, Pow2(k));
  }

  lemma SmallIsNotDivisible(n: nat, d: nat)
    requires 0 < n < d
    ensures n % d != 0
  {
    ModUnique(n, d, 0, n);
  }

  /** Pigeonhole: a sequence of n distinct residues below n hits every residue. */
  lemma {:induction false} Pigeonhole(s: seq<nat>, n: nat, v: nat)
    requires |s| == n && v < n
    requires forall j :: 0 <= j < n ==> s[j] < n
    requires forall i, j :: 0 <= i < j < n ==> s[i] != s[j]
    ensures v in s
  {
    var all := Below(n);
    var hit := set j | 0 <= j < n :: s[j];
    CardinalityOfRange(n);
    CardinalityOfImage(s, n);
    if v !in s {
      assert hit <= all - {v};
      SubsetCardinality(hit, all - {v});
      assert false;
    }
  }

  lemma {:induction false} SubsetCardinality<T>(a: set<T>, b: set<T>)
    requires a <= b
    ensures |a| <= |b|
  {
    if a != {} {
      var x :| x in a;
      SubsetCardinality(a - {x}, b - {x});
    }
  }

  function Below(n: nat): (s: set<nat>)
    ensures forall r: nat :: r in s <==> r < n
  {
    if n == 0 then {} else Below(n - 1) + {n - 1}
  }

  lemma {:induction false} CardinalityOfRange(n: nat)
    ensures |Below(n)| == n
  {
    if n > 0 {
      CardinalityOfRange(n - 1);
    }
  }

  lemma {:induction false} CardinalityOfImage(s: seq<nat>, n: nat)
    requires n <= |s|
    requires forall i, j :: 0 <= i < j < n ==> s[i] != s[j]
    ensures |set j | 0 <= j < n :: s[j]| == n
  {
    if n > 0 {
      CardinalityOfImage(s, n - 1);
      assert (set j | 0 <= j < n :: s[j]) == (set j | 0 <= j < n - 1 :: s[j]) + {s[n - 1]};
    }
  }

  /** The full-cycle theorem: 2^k consecutive orbit points visit every residue modulo 2^k. */
  lemma OrbitVisitsAll(i: int, k: nat, v: nat) returns (n: nat)
    requires v < Pow2(k)
    ensures n < Pow2(k) && Orbit(i, n) % Pow2(k) == v
  {
    var size := Pow2(k);
    var s: seq<nat> := seq(size, j requires 0 <= j => Orbit(i, j) % size);
    forall a, b | 0 <= a < b < size ensures s[a] != s[b] {
      OrbitInjective(i, k, a, b);
    }
    Pigeonhole(s, size, v);
    n :| 0 <= n < size && s[n] == v;
  }

  // ---- the 32-bit probe sequence

  /** Value of perturb after n shifts by five. */
  function Perturb(hash: nat, n: nat): nat {
    if n == 0 then hash else Perturb(hash, n - 1) / 32
  }

  /** Value of index at the n-th probe, before masking. */
  function Index(hash: nat, size: nat, n: nat): nat
    requires size > 0
  {
    if n == 0 then hash % size
    else (5 * Index(hash, size, n - 1) + Perturb(hash, n - 1) + 1) % WORD
  }

  /** Slot examined at the n-th probe. */
  function Probe(hash: nat, size: nat, n: nat): (r: nat)
    requires size > 0
    ensures r < size
  {
    Index(hash, size, n) % size
  }

  lemma FirstProbe(hash: nat, size: nat)
    requires size > 0
    ensures Probe(hash, size, 0) == Index(hash, size, 0) == hash % size && Perturb(hash, 0) == hash
  {
    ModUnique(hash % size, size, 0, hash % size);
  }

  lemma NextProbe(hash: nat, size: nat, n: nat)
    requires size > 0
    ensures Index(hash, size, n + 1) == (5 * Index(hash, size, n) + Perturb(hash, n) + 1) % WORD
    ensures Probe(hash, size, n + 1) == Index(hash, size, n + 1) % size && Perturb(hash, n + 1) == Perturb(hash, n) / 32
  {
  }

  lemma PerturbExhausted(hash: nat, n: nat)
    requires hash < WORD && n >= 7
    ensures Perturb(hash, n) == 0
  {
    if n == 7 {
      assert Perturb(hash, 1) == hash / 32;
      assert Perturb(hash, 2) < 0x40_0000;
      assert Perturb(hash, 4) < 0x1000;
      assert Perturb(hash, 6) < 4;
    } else {
      PerturbExhausted(hash, n - 1);
    }
  }

  /** From probe 7 on the masked index follows the orbit. */
  lemma {:induction false} ProbeFollowsOrbit(hash: nat, k: nat, n: nat)
    requires hash < WORD && k <= 32
    ensures Probe(hash, Pow2(k), 7 + n) == Orbit(Index(hash, Pow2(k), 7), n) % Pow2(k)
  {
    var size := Pow2(k);
    if n > 0 {
      ProbeFollowsOrbit(hash, k, n - 1);
      PerturbExhausted(hash, 7 + n - 1);
      StepModulo(k, Index(hash, size, 7 + n - 1), Orbit(Index(hash, size, 7), n - 1));
    }
  }

  /** One unmasked 32-bit step agrees with one step modulo the table size. */
  lemma StepModulo(k: nat, x: int, y: int)
    requires k <= 32 && x % Pow2(k) == y % Pow2(k)
    ensures ((5 * x + 1) % WORD) % Pow2(k) == (5 * y + 1) % Pow2(k)
  {
    Pow2Add(k, 32 - k);
    Pow32();
    ModTwice(5 * x + 1, Pow2(k), Pow2(32 - k));
    StepCongruent(x, y, Pow2(k));
  }

  lemma StepCongruent(x: int, y: int, size: nat)
    requires size > 0 && x % size == y % size
    ensures (5 * x + 1) % size == (5 * y + 1) % size
  {
    SameModIffDivides(x, y, size);
    var q := (x - y) / size;
    assert 5 * x + 1 == (5 * y + 1) + size * (5 * q) by {
      assert x - y == size * q;
      assert 5 * (size * q) == size * (5 * q);
    }
    ModAddMultiple(5 * y + 1, size, 5 * q);
  }

  /** Every slot of the table is examined within 7 + size probes. */
  lemma ProbeVisitsAll(hash: nat, k: nat, v: nat) returns (n: nat)
    requires hash < WORD && k <= 32 && v < Pow2(k)
    ensures n < 7 + Pow2(k) && Probe(hash, Pow2(k), n) == v
  {
    var m := OrbitVisitsAll(Index(hash, Pow2(k), 7), k, v);
    ProbeFollowsOrbit(hash, k, m);
    n := 7 + m;
  }
}
