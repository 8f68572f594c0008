/** kernel/page_allocator.c on values: the free lists, the two operations and what they keep.

    A block is an address and a level; a level-l block spans 2^(l+12) bytes. */
module BuddySpec {
  import opened Arith
  import opened Lists

  const MAP_SIZE: nat := 15
  const SHIFT: nat := 12
  const FIRST_ADDRESS: nat := 0x400_0000
  const ARENA: nat := 0x400_0000  // 2^26, the span of a block of the top level

  /** area.map as lists of addresses, head first, and area.nb_alloc. */
  datatype Area = Area(free: seq<seq<int>>, arenas: nat)

  function Size(l: nat): (s: nat)
    ensures s > 0
  {
    Pow2(SHIFT + l)
  }

  predicate Aligned(a: int, l: nat) {
    DivPow(SHIFT + l, a)
  }

  /** a ^ (1 << k). */
  function Flip(a: int, k: nat): int
    decreases k
  {
    if k == 0 then (if a % 2 == 0 then a + 1 else a - 1)
    else 2 * Flip(a / 2, k - 1) + a % 2
  }

  /** The buddy of a block: its address with one bit flipped. */
  function Buddy(a: int, l: nat): int {
    Flip(a, SHIFT + l)
  }

  // ---- arithmetic of aligned blocks

  lemma {:induction false} DivPowSum(k: nat, a: int, b: int)
    requires DivPow(k, a)
    ensures DivPow(k, a + b) <==> DivPow(k, b)
  {
    if k > 0 && b % 2 == 0 {
      assert (a + b) / 2 == a / 2 + b / 2;
      DivPowSum(k - 1, a / 2, b / 2);
    }
  }

  lemma {:induction false} DivPowNeg(k: nat, a: int)
    requires DivPow(k, a)
    ensures DivPow(k, -a)
  {
    if k > 0 {
      assert (-a) / 2 == -(a / 2);
      DivPowNeg(k - 1, a / 2);
    }
  }

  lemma {:induction false} DivPowSelf(k: nat)
    ensures DivPow(k, Pow2(k)) && !DivPow(k + 1, Pow2(k))
  {
    if k > 0 {
      assert Pow2(k) / 2 == Pow2(k - 1);
      DivPowSelf(k - 1);
    } else {
      assert Pow2(0) == 1;
    }
  }

  lemma {:induction false} DivPowWeaken(k: nat, m: nat, a: int)
    requires k <= m && DivPow(m, a)
    ensures DivPow(k, a)
  {
    if k > 0 {
      DivPowWeaken(k - 1, m - 1, a / 2);
    }
  }

  /** The only multiple of 2^k strictly between -2^k and 2^k is zero. */
  lemma {:induction false} DivPowSmall(k: nat, a: int)
    requires DivPow(k, a) && a < Pow2(k) && 0 < a + Pow2(k)
    ensures a == 0
  {
    if k > 0 {
      DivPowSmall(k - 1, a / 2);
    }
  }

  /** Two aligned blocks are disjoint or nested. */
  lemma Dyadic(a: int, l: nat, b: int, m: nat)
    requires l <= m && Aligned(a, l) && Aligned(b, m)
    requires a < b + Size(m) && b < a + Size(l)
    ensures b <= a && a + Size(l) <= b + Size(m)
  {
    var k := SHIFT + l;
    DivPowWeaken(k, SHIFT + m, b);
    DivPowSelf(SHIFT + m);
    DivPowWeaken(k, SHIFT + m, Size(m));
    DivPowNeg(k, b);
    DivPowSum(k, -b, a);
    NotJustBelow(k, a - b);
    DivPowNeg(k, a);
    DivPowSum(k, b, Size(m));
    DivPowSum(k, -a, b + Size(m));
    NotJustBelow(k, b + Size(m) - a);
    NotJustAbove(k, b + Size(m) - a);
  }

  lemma NotJustBelow(k: nat, x: int)
    requires DivPow(k, x) && x + Pow2(k) > 0
    ensures x >= 0
  {
    if x < 0 {
      DivPowSmall(k, x);
    }
  }

  lemma NotJustAbove(k: nat, x: int)
    requires DivPow(k, x) && x > 0
    ensures x >= Pow2(k)
  {
    if x < Pow2(k) {
      DivPowSmall(k, x);
    }
  }

  lemma {:induction false} FlipAligned(k: nat, a: int)
    requires DivPow(k, a)
    ensures Flip(a, k) == if DivPow(k + 1, a) then a + Pow2(k) else a - Pow2(k)
  {
    if k > 0 {
      FlipAligned(k - 1, a / 2);
    } else {
      assert DivPow(1, a) <==> a % 2 == 0;
    }
  }

  /** The buddy is the other half of the block one level up. */
  lemma BuddyIs(a: int, l: nat)
    requires Aligned(a, l)
    ensures Aligned(Buddy(a, l), l) && Buddy(Buddy(a, l), l) == a
    ensures Aligned(a, l + 1) ==> Buddy(a, l) == a + Size(l)
    ensures !Aligned(a, l + 1) ==> Buddy(a, l) == a - Size(l) && Aligned(a - Size(l), l + 1)
    ensures Size(l + 1) == 2 * Size(l)
  {
    var k := SHIFT + l;
    var s: int := Size(l);
    FlipAligned(k, a);
    DivPowSelf(k);
    DivPowNeg(k, s);
    DivPowSum(k, s, a);
    DivPowSum(k, -s, a);
    if DivPow(k + 1, a) {
      DivPowSum(k + 1, a, Size(l));
      FlipAligned(k, a + Size(l));
    } else {
      OddPlusOdd(k, a);
      FlipAligned(k, a - Size(l));
    }
  }

  lemma {:induction false} OddPlusOdd(k: nat, a: int)
    requires DivPow(k, a) && !DivPow(k + 1, a)
    ensures DivPow(k + 1, a - Pow2(k))
  {
    if k > 0 {
      assert (a - Pow2(k)) / 2 == a / 2 - Pow2(k - 1);
      OddPlusOdd(k - 1, a / 2);
    } else {
      assert DivPow(1, a) <==> a % 2 == 0;
      assert DivPow(0, (a - 1) / 2);
    }
  }

  lemma TopLevelSpan()
    ensures Size(0) == 4096 && Size(14) == ARENA
  {
    assert Pow2(6) == 64;
    Pow2Add(6, 6);
    Pow2Add(12, 7);
    assert Pow2(7) == 128;
    Pow2Add(19, 7);
  }

  // ---- blocks and the state invariant

  /** Level of each block handed out and not yet freed. */
  type Live = map<int, nat>

  predicate IsFree(s: Area, a: int, l: nat) {
    l < |s.free| && a in s.free[l]
  }

  predicate IsBlock(s: Area, live: Live, a: int, l: nat) {
    IsFree(s, a, l) || (a in live && live[a] == l)
  }

  ghost predicate Shapes(s: Area, live: Live) {
    && |s.free| == MAP_SIZE && s.arenas <= 3
    && forall a, l: nat :: IsBlock(s, live, a, l) ==>
      l < MAP_SIZE && Aligned(a, l) && FIRST_ADDRESS <= a && a + Size(l) <= FIRST_ADDRESS + s.arenas * ARENA
  }

  predicate Apart(a: int, l: nat, b: int, m: nat) {
    a + Size(l) <= b || b + Size(m) <= a
  }

  ghost predicate Disjoint(s: Area, live: Live) {
    forall a, l: nat, b, m: nat ::
      IsBlock(s, live, a, l) && IsBlock(s, live, b, m) && (a != b || l != m) ==> Apart(a, l, b, m)
  }

  /** The free lists are free of repetitions, and no live block is listed. */
  ghost predicate Separate(s: Area, live: Live) {
    && (forall l: nat :: l < |s.free| ==> NoRepeats(s.free[l]))
    && (forall a, l: nat :: IsFree(s, a, l) ==> a !in live)
  }

  ghost predicate NoFreeBuddies(s: Area) {
    forall a, l: nat :: IsFree(s, a, l) ==> !IsFree(s, Buddy(a, l), l)
  }

  predicate Covers(a: int, l: nat, x: int) {
    a <= x < a + Size(l)
  }

  ghost predicate Covered(s: Area, live: Live, x: int) {
    exists a, l: nat :: IsBlock(s, live, a, l) && Covers(a, l, x)
  }

  ghost predicate Tiled(s: Area, live: Live) {
    forall x :: FIRST_ADDRESS <= x < FIRST_ADDRESS + s.arenas * ARENA ==> Covered(s, live, x)
  }

  ghost predicate WellFormed(s: Area, live: Live) {
    && Shapes(s, live) && Disjoint(s, live) && Separate(s, live)
    && NoFreeBuddies(s) && Tiled(s, live)
  }

  // ---- the five primitive changes of state

  function Push(s: Area, a: int, l: nat): Area
    requires l < |s.free|
  {
    s.(free := s.free[l := [a] + s.free[l]])
  }

  function Drop(s: Area, a: int, l: nat): Area
    requires l < |s.free|
  {
    s.(free := s.free[l := Remove(s.free[l], a)])
  }

  lemma PushMembers(s: Area, a: int, l: nat)
    requires l < |s.free|
    ensures forall b, m: nat :: IsFree(Push(s, a, l), b, m) <==> IsFree(s, b, m) || (b == a && m == l)
  {
  }

  lemma DropMembers(s: Area, a: int, l: nat)
    requires l < |s.free| && NoRepeats(s.free[l])
    ensures forall b, m: nat :: IsFree(Drop(s, a, l), b, m) <==> IsFree(s, b, m) && (b != a || m != l)
  {
    RemoveMembers(s.free[l], a);
  }

  /** A free block is handed out. */
  lemma TakeKeeps(s: Area, live: Live, a: int, l: nat)
    requires WellFormed(s, live) && IsFree(s, a, l)
    ensures WellFormed(Drop(s, a, l), live[a := l])
  {
    var s', live' := Drop(s, a, l), live[a := l];
    DropMembers(s, a, l);
    RemoveMembers(s.free[l], a);
    assert SameBlocks(s, live, s', live') by {
      forall b, m: nat ensures IsBlock(s', live', b, m) <==> IsBlock(s, live, b, m) {
        assert !Apart(a, l, a, m);
      }
    }
    forall b, m: nat | IsFree(s', b, m) ensures b !in live' {
      assert b == a ==> Apart(a, l, a, m);
    }
    SameBlocksKeep(s, live, s', live');
  }

  /** A live block whose buddy is not free goes back on its list. */
  lemma GiveKeeps(s: Area, live: Live, a: int, l: nat)
    requires WellFormed(s, live) && l < MAP_SIZE && a in live && live[a] == l && !IsFree(s, Buddy(a, l), l)
    ensures WellFormed(Push(s, a, l), live - {a})
  {
    var s', live' := Push(s, a, l), live - {a};
    assert IsBlock(s, live, a, l);
    PushMembers(s, a, l);
    assert !IsFree(s, a, l);
    assert SameBlocks(s, live, s', live');
    SameBlocksKeep(s, live, s', live');
    BuddyIs(a, l);
    forall b, m: nat | IsFree(s', b, m) ensures !IsFree(s', Buddy(b, m), m) {
      if IsFree(s, b, m) {
        assert IsBlock(s, live, b, m);
        BuddyIs(b, m);
        assert Buddy(b, m) == a && m == l ==> b == Buddy(a, l);
      }
    }
  }

  ghost predicate SameBlocks(s: Area, live: Live, s': Area, live': Live) {
    forall b, m: nat :: IsBlock(s', live', b, m) <==> IsBlock(s, live, b, m)
  }

  lemma SameBlocksKeep(s: Area, live: Live, s': Area, live': Live)
    requires SameBlocks(s, live, s', live') && s.arenas == s'.arenas && |s'.free| == |s.free|
    requires Shapes(s, live) && Disjoint(s, live) && Tiled(s, live)
    ensures Shapes(s', live') && Disjoint(s', live') && Tiled(s', live')
  {
    forall a, l: nat | IsBlock(s', live', a, l)
      ensures l < MAP_SIZE && Aligned(a, l) && FIRST_ADDRESS <= a && a + Size(l) <= FIRST_ADDRESS + s.arenas * ARENA
    {
      assert IsBlock(s, live, a, l);
    }
    forall x | FIRST_ADDRESS <= x < FIRST_ADDRESS + s.arenas * ARENA ensures Covered(s', live', x) {
      assert Covered(s, live, x);
      var a, l: nat :| IsBlock(s, live, a, l) && Covers(a, l, x);
      assert IsBlock(s', live', a, l);
    }
  }

  /** The blocks of s' are those of s with block (p, l + 1) cut into its two halves. */
  ghost predicate CutBlocks(s: Area, live: Live, s': Area, live': Live, p: int, l: nat) {
    forall b: int, m: nat :: IsBlock(s', live', b, m) <==>
      (IsBlock(s, live, b, m) && (b != p || m != l + 1)) || (m == l && (b == p || b == p + Size(l)))
  }

  lemma CutKeeps(s: Area, live: Live, s': Area, live': Live, p: int, l: nat)
    requires CutBlocks(s, live, s', live', p, l) && s.arenas == s'.arenas && |s'.free| == |s.free|
    requires Shapes(s, live) && Disjoint(s, live) && Tiled(s, live) && IsBlock(s, live, p, l + 1)
    ensures Shapes(s', live') && Disjoint(s', live') && Tiled(s', live')
  {
    DivPowWeaken(SHIFT + l, SHIFT + l + 1, p);
    BuddyIs(p, l);
    forall b: int, m: nat | IsBlock(s', live', b, m)
      ensures m < MAP_SIZE && Aligned(b, m) && FIRST_ADDRESS <= b && b + Size(m) <= FIRST_ADDRESS + s.arenas * ARENA
    {
      assert IsBlock(s, live, b, m) || b == p || b == p + Size(l);
    }
    forall a: int, k: nat, b: int, m: nat | IsBlock(s', live', a, k) && IsBlock(s', live', b, m) && (a != b || k != m)
      ensures Apart(a, k, b, m)
    {
      CutApart(s, live, s', live', p, l, a, k, b, m);
    }
    forall x | FIRST_ADDRESS <= x < FIRST_ADDRESS + s.arenas * ARENA ensures Covered(s', live', x) {
      assert Covered(s, live, x);
      var a: int, k: nat :| IsBlock(s, live, a, k) && Covers(a, k, x);
      if a == p && k == l + 1 {
        assert Covers(p, l, x) || Covers(p + Size(l), l, x);
        assert IsBlock(s', live', p, l) && IsBlock(s', live', p + Size(l), l);
      } else {
        assert IsBlock(s', live', a, k);
      }
    }
  }

  lemma CutApart(s: Area, live: Live, s': Area, live': Live, p: int, l: nat, a: int, k: nat, b: int, m: nat)
    requires CutBlocks(s, live, s', live', p, l) && Disjoint(s, live) && IsBlock(s, live, p, l + 1)
    requires IsBlock(s', live', a, k) && IsBlock(s', live', b, m) && (a != b || k != m)
    ensures Apart(a, k, b, m)
  {
    assert Size(l + 1) == 2 * Size(l) by { BuddySize(l); }
    var aOld := IsBlock(s, live, a, k) && (a != p || k != l + 1);
    var bOld := IsBlock(s, live, b, m) && (b != p || m != l + 1);
    if aOld {
      assert Apart(a, k, p, l + 1);
      assert bOld ==> Apart(a, k, b, m);
    } else if bOld {
      assert Apart(b, m, p, l + 1);
    }
  }

  lemma BuddySize(l: nat)
    ensures Size(l + 1) == 2 * Size(l)
  {
  }

  /** The blocks of s' are those of s with the two halves (p, l) and (p + Size(l), l) joined. */
  ghost predicate JoinBlocks(s: Area, live: Live, s': Area, live': Live, p: int, l: nat) {
    forall b: int, m: nat :: IsBlock(s', live', b, m) <==>
      (IsBlock(s, live, b, m) && !(m == l && (b == p || b == p + Size(l)))) || (b == p && m == l + 1)
  }

  lemma JoinKeeps(s: Area, live: Live, s': Area, live': Live, p: int, l: nat)
    requires JoinBlocks(s, live, s', live', p, l) && s.arenas == s'.arenas && |s'.free| == |s.free|
    requires Shapes(s, live) && Disjoint(s, live) && Tiled(s, live)
    requires IsBlock(s, live, p, l) && IsBlock(s, live, p + Size(l), l) && l + 1 < MAP_SIZE && Aligned(p, l + 1)
    ensures Shapes(s', live') && Disjoint(s', live') && Tiled(s', live')
  {
    BuddySize(l);
    forall b: int, m: nat | IsBlock(s', live', b, m)
      ensures m < MAP_SIZE && Aligned(b, m) && FIRST_ADDRESS <= b && b + Size(m) <= FIRST_ADDRESS + s.arenas * ARENA
    {
      assert IsBlock(s, live, b, m) || b == p;
    }
    forall a: int, k: nat, b: int, m: nat | IsBlock(s', live', a, k) && IsBlock(s', live', b, m) && (a != b || k != m)
      ensures Apart(a, k, b, m)
    {
      JoinApart(s, live, s', live', p, l, a, k, b, m);
    }
    forall x | FIRST_ADDRESS <= x < FIRST_ADDRESS + s.arenas * ARENA ensures Covered(s', live', x) {
      assert Covered(s, live, x);
      var a: int, k: nat :| IsBlock(s, live, a, k) && Covers(a, k, x);
      if k == l && (a == p || a == p + Size(l)) {
        assert IsBlock(s', live', p, l + 1) && Covers(p, l + 1, x);
      } else {
        assert IsBlock(s', live', a, k);
      }
    }
  }

  lemma JoinApart(s: Area, live: Live, s': Area, live': Live, p: int, l: nat, a: int, k: nat, b: int, m: nat)
    requires JoinBlocks(s, live, s', live', p, l) && Disjoint(s, live)
    requires IsBlock(s, live, p, l) && IsBlock(s, live, p + Size(l), l)
    requires IsBlock(s', live', a, k) && IsBlock(s', live', b, m) && (a != b || k != m)
    ensures Apart(a, k, b, m)
  {
    BuddySize(l);
    if a != p || k != l + 1 {
      assert Apart(a, k, p, l) && Apart(a, k, p + Size(l), l);
      if b == p && m == l + 1 {
        assert Size(k) > 0;
      } else {
        assert Apart(a, k, b, m);
      }
    } else {
      assert Apart(b, m, p, l) && Apart(b, m, p + Size(l), l);
      assert Size(m) > 0;
    }
  }

  /** A live block is halved; its upper half becomes free. */
  lemma HalveKeeps(s: Area, live: Live, p: int, l: nat)
    requires WellFormed(s, live) && l + 1 < MAP_SIZE && p in live && live[p] == l + 1
    ensures Buddy(p, l) == p + Size(l)
    ensures WellFormed(Push(s, Buddy(p, l), l), live[p := l])
  {
    assert IsBlock(s, live, p, l + 1);
    DivPowWeaken(SHIFT + l, SHIFT + l + 1, p);
    BuddyIs(p, l);
    var q := Buddy(p, l);
    var s', live' := Push(s, q, l), live[p := l];
    UpperHalfIsNew(s, live, p, l, q);
    HalveCuts(s, live, p, l, q);
    CutKeeps(s, live, s', live', p, l);
    assert !IsBlock(s, live, q, l);
    HalveSeparate(s, live, p, l, q);
  }

  lemma HalveCuts(s: Area, live: Live, p: int, l: nat, q: int)
    requires Disjoint(s, live) && Separate(s, live) && l < |s.free| && p in live && live[p] == l + 1
    requires q == p + Size(l) && forall m: nat :: !IsBlock(s, live, q, m)
    ensures CutBlocks(s, live, Push(s, q, l), live[p := l], p, l)
  {
    PushMembers(s, q, l);
    OneLevelEach(s, live, p, l + 1);
  }

  lemma HalveSeparate(s: Area, live: Live, p: int, l: nat, q: int)
    requires WellFormed(s, live) && l < MAP_SIZE && p in live && p != q
    requires Aligned(q, l) && Buddy(q, l) == p && q !in live && !IsFree(s, q, l)
    ensures Separate(Push(s, q, l), live[p := l]) && NoFreeBuddies(Push(s, q, l))
  {
    var s' := Push(s, q, l);
    PushMembers(s, q, l);
    NoRepeatsCons(q, s.free[l]);
    forall b: int, m: nat | IsFree(s', b, m) ensures !IsFree(s', Buddy(b, m), m) {
      if IsFree(s, b, m) {
        assert IsBlock(s, live, b, m);
        BuddyIs(b, m);
        assert Buddy(b, m) == q && m == l ==> b == p;
      }
    }
  }

  lemma UpperHalfIsNew(s: Area, live: Live, p: int, l: nat, q: int)
    requires Disjoint(s, live) && IsBlock(s, live, p, l + 1) && q == p + Size(l)
    ensures forall m: nat :: !IsBlock(s, live, q, m)
    ensures q !in live
  {
    BuddySize(l);
    forall m: nat ensures !IsBlock(s, live, q, m) {
      assert !Apart(q, m, p, l + 1);
    }
    if q in live {
      assert IsBlock(s, live, q, live[q]);
    }
  }

  function Min(a: int, b: int): int {
    if a < b then a else b
  }

  /** A live block absorbs its free buddy. */
  lemma MergeKeeps(s: Area, live: Live, p: int, l: nat)
    requires WellFormed(s, live) && l + 1 < MAP_SIZE && p in live && live[p] == l
    requires IsFree(s, Buddy(p, l), l)
    ensures WellFormed(Drop(s, Buddy(p, l), l), (live - {p})[Min(p, Buddy(p, l)) := l + 1])
  {
    hide Size, Aligned, Tiled, Apart, NoFreeBuddies, Buddy;
    var q := Buddy(p, l);
    var low := Min(p, q);
    assert IsBlock(s, live, p, l) && IsBlock(s, live, q, l);
    BuddyIs(p, l);
    var s', live' := Drop(s, q, l), (live - {p})[low := l + 1];
    DropMembers(s, q, l);
    OneLevelEach(s, live, q, l);
    OneLevelEach(s, live, p, l);
    assert JoinBlocks(s, live, s', live', low, l);
    JoinKeeps(s, live, s', live', low, l);
    MergeSeparate(s, live, p, l, q);
  }

  lemma MergeSeparate(s: Area, live: Live, p: int, l: nat, q: int)
    requires WellFormed(s, live) && l < MAP_SIZE && p in live && IsFree(s, q, l)
    requires forall m: nat :: IsBlock(s, live, q, m) ==> m == l
    ensures Separate(Drop(s, q, l), (live - {p})[Min(p, q) := l + 1]) && NoFreeBuddies(Drop(s, q, l))
  {
    var s', live' := Drop(s, q, l), (live - {p})[Min(p, q) := l + 1];
    DropMembers(s, q, l);
    RemoveMembers(s.free[l], q);
    forall b: int, m: nat | IsFree(s', b, m) ensures b !in live' && !IsFree(s', Buddy(b, m), m) {
      assert IsFree(s, b, m) && b != p;
      assert b == q ==> IsBlock(s, live, q, m);
    }
  }

  lemma OneLevelEach(s: Area, live: Live, a: int, l: nat)
    requires Disjoint(s, live) && IsBlock(s, live, a, l)
    ensures forall m: nat :: IsBlock(s, live, a, m) ==> m == l
  {
    forall m: nat | IsBlock(s, live, a, m) ensures m == l {
      assert !Apart(a, l, a, m);
    }
  }

  /** Address of the arena opened next. */
  function NextArena(s: Area): int {
    FIRST_ADDRESS + s.arenas * ARENA
  }

  function OpenArena(s: Area): Area
    requires |s.free| == MAP_SIZE
  {
    Area(s.free[MAP_SIZE - 1 := [NextArena(s)]], s.arenas + 1)
  }

  /** A fresh arena is one free block of the top level. */
  lemma OpenKeeps(s: Area, live: Live)
    requires WellFormed(s, live) && s.arenas < 3 && s.free[MAP_SIZE - 1] == []
    ensures WellFormed(OpenArena(s), live)
  {
    var s', a := OpenArena(s), NextArena(s);
    TopLevelSpan();
    assert Aligned(a, 14) by { ArenaAligned(s.arenas); }
    assert forall b: int, m: nat :: IsFree(s', b, m) <==> IsFree(s, b, m) || (b == a && m == 14);
    assert forall b: int, m: nat :: IsBlock(s', live, b, m) <==> IsBlock(s, live, b, m) || (b == a && m == 14);
    OpenKeepsTiling(s, live);
    forall m: nat ensures !IsBlock(s, live, a, m) {
      assert Size(m) > 0;
    }
    assert a !in live by { if a in live { assert IsBlock(s, live, a, live[a]); } }
    BuddyIs(a, 14);
    assert NoRepeats([a]);
    forall b: int, m: nat | IsFree(s', b, m) ensures !IsFree(s', Buddy(b, m), m) {
      if m == 14 {
        assert b == a;
      } else {
        assert IsFree(s, b, m);
      }
    }
  }

  lemma OpenKeepsTiling(s: Area, live: Live)
    requires WellFormed(s, live) && s.arenas < 3 && s.free[MAP_SIZE - 1] == []
    requires Size(14) == ARENA && Aligned(NextArena(s), 14)
    requires forall b: int, m: nat ::
      IsBlock(OpenArena(s), live, b, m) <==> IsBlock(s, live, b, m) || (b == NextArena(s) && m == 14)
    ensures Shapes(OpenArena(s), live) && Disjoint(OpenArena(s), live) && Tiled(OpenArena(s), live)
  {
    var s', a := OpenArena(s), NextArena(s);
    forall x | FIRST_ADDRESS <= x < FIRST_ADDRESS + s'.arenas * ARENA ensures Covered(s', live, x) {
      if x < a {
        assert Covered(s, live, x);
        var b: int, m: nat :| IsBlock(s, live, b, m) && Covers(b, m, x);
        assert IsBlock(s', live, b, m);
      } else {
        assert IsBlock(s', live, a, 14) && Covers(a, 14, x);
      }
    }
    forall b: int, m: nat | IsBlock(s', live, b, m)
      ensures m < MAP_SIZE && Aligned(b, m) && FIRST_ADDRESS <= b && b + Size(m) <= FIRST_ADDRESS + s'.arenas * ARENA
    {
      assert IsBlock(s, live, b, m) || b == a;
    }
    forall b: int, k: nat, c: int, m: nat | IsBlock(s', live, b, k) && IsBlock(s', live, c, m) && (b != c || k != m)
      ensures Apart(b, k, c, m)
    {
      if b == a && k == 14 {
        assert IsBlock(s, live, c, m);
      } else if c == a && m == 14 {
        assert IsBlock(s, live, b, k);
      }
    }
  }

  lemma ArenaAligned(n: nat)
    ensures Aligned(FIRST_ADDRESS + n * ARENA, 14)
  {
    TopLevelSpan();
    DivPowIffMod(SHIFT + 14, FIRST_ADDRESS + n * ARENA);
    ModUnique(FIRST_ADDRESS + n * ARENA, ARENA, n + 1, 0);
  }
}
