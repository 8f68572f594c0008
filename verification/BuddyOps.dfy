/** The two operations of kernel/page_allocator.c as functions on the free lists, and what they promise. */
module BuddyOps {
  import opened Arith
  import opened Lists
  import opened BuddySpec

  const TOP: nat := MAP_SIZE - 1

  // ---- allocation

  /** Outcome of alloc_physical_page. PastMap is the scan running off the end of area.map. */
  datatype AllocResult = Allocated(area: Area, addr: int) | Panic | PastMap

  /** First level at or above l with a free block, or MAP_SIZE. */
  function FirstFit(free: seq<seq<int>>, l: nat): (j: nat)
    requires |free| == MAP_SIZE && l <= MAP_SIZE
    ensures l <= j <= MAP_SIZE
    ensures j < MAP_SIZE ==> free[j] != []
    ensures forall i :: l <= i < j ==> free[i] == []
    decreases MAP_SIZE - l
  {
    if l == MAP_SIZE || free[l] != [] then l else FirstFit(free, l + 1)
  }

  /** The halves left over while a block at page is cut from level j down to level l. */
  function Fill(free: seq<seq<int>>, page: int, j: nat, l: nat): (r: seq<seq<int>>)
    requires |free| == MAP_SIZE && l <= j < MAP_SIZE
    ensures |r| == MAP_SIZE
    decreases j
  {
    if j == l then free else Fill(free[j - 1 := [Buddy(page, j - 1)]], page, j - 1, l)
  }

  function Carve(s: Area, j: nat, l: nat): (r: AllocResult)
    requires |s.free| == MAP_SIZE && l <= j < MAP_SIZE && s.free[j] != []
    ensures r.Allocated?
  {
    var page := s.free[j][0];
    Allocated(s.(free := Fill(s.free[j := s.free[j][1..]], page, j, l)), page)
  }

  function Alloc(s: Area, l: nat): AllocResult
    requires |s.free| == MAP_SIZE && l < MAP_SIZE
  {
    var j := FirstFit(s.free, l);
    if j < MAP_SIZE then Carve(s, j, l)
    else if l == TOP then PastMap
    else if s.arenas >= 3 then Panic
    else Carve(OpenArena(s), TOP, l)
  }

  lemma TakeHead(s: Area, live: Live, j: nat)
    requires WellFormed(s, live) && j < MAP_SIZE && s.free[j] != []
    ensures WellFormed(s.(free := s.free[j := s.free[j][1..]]), live[s.free[j][0] := j])
    ensures s.free[j][0] !in live
  {
    assert IsFree(s, s.free[j][0], j);
    TakeKeeps(s, live, s.free[j][0], j);
    assert Remove(s.free[j], s.free[j][0]) == s.free[j][1..];
  }

  lemma {:induction false} FillKeeps(s: Area, live: Live, page: int, j: nat, l: nat)
    requires WellFormed(s, live) && l <= j < MAP_SIZE && page in live && live[page] == j
    requires forall i :: l <= i < j ==> s.free[i] == []
    ensures WellFormed(s.(free := Fill(s.free, page, j, l)), live[page := l])
    decreases j
  {
    if j == l {
      assert live[page := l] == live;
    } else {
      var s' := Push(s, Buddy(page, j - 1), j - 1);
      HalveKeeps(s, live, page, j - 1);
      assert [Buddy(page, j - 1)] + s.free[j - 1] == [Buddy(page, j - 1)];
      assert s'.free == s.free[j - 1 := [Buddy(page, j - 1)]];
      FillKeeps(s', live[page := j - 1], page, j - 1, l);
      assert live[page := j - 1][page := l] == live[page := l];
    }
  }

  lemma CarveKeeps(s: Area, live: Live, j: nat, l: nat)
    requires WellFormed(s, live) && l <= j < MAP_SIZE && s.free[j] != []
    requires forall i :: l <= i < j ==> s.free[i] == []
    ensures WellFormed(Carve(s, j, l).area, live[Carve(s, j, l).addr := l]) && Carve(s, j, l).addr !in live
  {
    var page := s.free[j][0];
    TakeHead(s, live, j);
    FillKeeps(s.(free := s.free[j := s.free[j][1..]]), live[page := j], page, j, l);
    assert live[page := j][page := l] == live[page := l];
  }

  /** A successful allocation hands out a block that was not live and keeps the invariant: the new block
      is aligned, lies in the opened arenas and is disjoint from every free and every live block. */
  lemma AllocKeeps(s: Area, live: Live, l: nat)
    requires WellFormed(s, live) && l < MAP_SIZE && Alloc(s, l).Allocated?
    ensures WellFormed(Alloc(s, l).area, live[Alloc(s, l).addr := l])
    ensures Alloc(s, l).addr !in live
  {
    var j := FirstFit(s.free, l);
    if j < MAP_SIZE {
      CarveKeeps(s, live, j, l);
    } else {
      OpenKeeps(s, live);
      CarveKeeps(OpenArena(s), live, TOP, l);
    }
  }

  // ---- freeing

  /** Outcome of free_physical_page. Overrun is the write to area.map[MAP_SIZE] after a merge at the top. */
  datatype FreeResult = Freed(area: Area) | Overrun

  function Free(s: Area, page: int, l: nat): FreeResult
    requires |s.free| == MAP_SIZE && l < MAP_SIZE
    decreases MAP_SIZE - l
  {
    var b := Buddy(page, l);
    if b !in s.free[l] then Freed(Push(s, page, l))
    else if l == TOP then Overrun
    else Free(Drop(s, b, l), Min(page, b), l + 1)
  }

  /** Freeing a live block keeps the invariant. */
  lemma {:induction false} FreeKeeps(s: Area, live: Live, page: int, l: nat)
    requires WellFormed(s, live) && l < MAP_SIZE && page in live && live[page] == l && Free(s, page, l).Freed?
    ensures WellFormed(Free(s, page, l).area, live - {page})
    decreases MAP_SIZE - l
  {
    var b := Buddy(page, l);
    if IsFree(s, b, l) {
      var low := Min(page, b);
      MergeKeeps(s, live, page, l);
      FreeKeeps(Drop(s, b, l), (live - {page})[low := l + 1], low, l + 1);
      assert IsBlock(s, live, b, l);
      assert b !in live;
      assert (live - {page})[low := l + 1] - {low} == live - {page};
    } else {
      GiveKeeps(s, live, page, l);
    }
  }

  // ---- freeing right after allocating

  lemma {:induction false} FreeUndoesFill(s: Area, page: int, j: nat, l: nat)
    requires |s.free| == MAP_SIZE && l <= j < MAP_SIZE && Aligned(page, j)
    requires forall i :: l <= i < j ==> s.free[i] == []
    requires Buddy(page, j) !in s.free[j]
    ensures Free(s.(free := Fill(s.free, page, j, l)), page, l) == Freed(Push(s, page, j))
    decreases j - l
  {
    if l < j {
      // the innermost half was produced last: peel it off
      FillInner(s.free, page, j, l);
      var t := s.(free := Fill(s.free, page, j, l));
      DivPowWeaken(SHIFT + l, SHIFT + j, page);
      DivPowWeaken(SHIFT + l + 1, SHIFT + j, page);
      BuddyIs(page, l);
      assert t.free[l] == [Buddy(page, l)];
      assert Remove([Buddy(page, l)], Buddy(page, l)) == [];
      var t' := s.(free := Fill(s.free, page, j, l + 1));
      assert Drop(t, Buddy(page, l), l) == t' by {
        FillBelow(s.free, page, j, l + 1, l);
        assert t.free[l := []] == t'.free;
      }
      FreeUndoesFill(s, page, j, l + 1);
    }
  }

  lemma {:induction false} FillInner(free: seq<seq<int>>, page: int, j: nat, l: nat)
    requires |free| == MAP_SIZE && l < j < MAP_SIZE
    ensures Fill(free, page, j, l) == Fill(free, page, j, l + 1)[l := [Buddy(page, l)]]
    decreases j
  {
    if j > l + 1 {
      FillInner(free[j - 1 := [Buddy(page, j - 1)]], page, j - 1, l);
    }
  }

  lemma {:induction false} FillBelow(free: seq<seq<int>>, page: int, j: nat, l: nat, i: nat)
    requires |free| == MAP_SIZE && l <= j < MAP_SIZE && (i < l || j <= i < MAP_SIZE)
    ensures Fill(free, page, j, l)[i] == free[i]
    decreases j
  {
    if j > l {
      FillBelow(free[j - 1 := [Buddy(page, j - 1)]], page, j - 1, l, i);
    }
  }

  lemma FreeUndoesCarve(s: Area, live: Live, j: nat, l: nat)
    requires WellFormed(s, live) && l <= j < MAP_SIZE && s.free[j] != []
    requires forall i :: l <= i < j ==> s.free[i] == []
    ensures Free(Carve(s, j, l).area, Carve(s, j, l).addr, l) == Freed(s)
  {
    var page := s.free[j][0];
    var t := s.(free := s.free[j := s.free[j][1..]]);
    assert IsFree(s, page, j) && IsBlock(s, live, page, j);
    assert !IsFree(s, Buddy(page, j), j);
    FreeUndoesFill(t, page, j, l);
    assert [page] + s.free[j][1..] == s.free[j];
    assert Push(t, page, j).free == s.free;
  }

  /** Freeing right after an allocation that opened no arena restores every list exactly; after one
      that did, it leaves the old lists plus the new arena as one block. */
  lemma FreeUndoesAlloc(s: Area, live: Live, l: nat)
    requires WellFormed(s, live) && l < MAP_SIZE && Alloc(s, l).Allocated?
    ensures var r := Alloc(s, l);
      Free(r.area, r.addr, l) == Freed(if r.area.arenas == s.arenas then s else OpenArena(s))
  {
    var j := FirstFit(s.free, l);
    if j < MAP_SIZE {
      FreeUndoesCarve(s, live, j, l);
    } else {
      OpenKeeps(s, live);
      FreeUndoesCarve(OpenArena(s), live, TOP, l);
    }
  }

  // ---- coalescing is complete

  /** Every byte of the level-l block at a lies in a free block. */
  ghost predicate WhollyFree(s: Area, a: int, l: nat) {
    forall x :: Covers(a, l, x) ==> CoveredFree(s, x)
  }

  ghost predicate CoveredFree(s: Area, x: int) {
    exists b: int, m: nat :: IsFree(s, b, m) && Covers(b, m, x)
  }

  ghost predicate InsideFree(s: Area, a: int, l: nat) {
    exists b: int, m: nat :: IsFree(s, b, m) && b <= a && a + Size(l) <= b + Size(m)
  }

  /** Because no two buddies are free, an aligned wholly free region lies inside one free block. */
  lemma {:induction false} FreeRegionInOneBlock(s: Area, live: Live, a: int, l: nat)
    requires WellFormed(s, live) && Aligned(a, l) && WhollyFree(s, a, l)
    ensures InsideFree(s, a, l)
    decreases l
  {
    var b, m := FreeBlockAt(s, live, a, l);
    if l <= m {
      Dyadic(a, l, b, m);
    } else {
      HalvesAligned(a, l - 1);
      HalvesFree(s, a, l - 1);
      FreeRegionInOneBlock(s, live, a, l - 1);
      FreeRegionInOneBlock(s, live, a + Size(l - 1), l - 1);
      HalvesInOneBlock(s, live, a, l - 1);
    }
  }

  lemma FreeBlockAt(s: Area, live: Live, a: int, l: nat) returns (b: int, m: nat)
    requires WellFormed(s, live) && WhollyFree(s, a, l)
    ensures IsFree(s, b, m) && Covers(b, m, a) && Aligned(b, m)
  {
    assert Covers(a, l, a);
    b, m :| IsFree(s, b, m) && Covers(b, m, a);
    assert IsBlock(s, live, b, m);
  }

  lemma HalvesAligned(a: int, l: nat)
    requires Aligned(a, l + 1)
    ensures Aligned(a, l) && Aligned(a + Size(l), l)
  {
    DivPowWeaken(SHIFT + l, SHIFT + l + 1, a);
    BuddyIs(a, l);
  }

  lemma HalvesFree(s: Area, a: int, l: nat)
    requires WhollyFree(s, a, l + 1)
    ensures WhollyFree(s, a, l) && WhollyFree(s, a + Size(l), l)
  {
    BuddySize(l);
    forall x | Covers(a, l, x) || Covers(a + Size(l), l, x) ensures CoveredFree(s, x) {
      assert Covers(a, l + 1, x);
    }
  }

  lemma HalvesInOneBlock(s: Area, live: Live, a: int, l: nat)
    requires WellFormed(s, live) && Aligned(a, l + 1) && Aligned(a, l)
    requires InsideFree(s, a, l) && InsideFree(s, a + Size(l), l)
    ensures InsideFree(s, a, l + 1)
  {
    hide WellFormed, Size, Aligned, IsFree;
    var h := a + Size(l);
    var c: int, k: nat :| IsFree(s, c, k) && c <= a && a + Size(l) <= c + Size(k);
    var d: int, n: nat :| IsFree(s, d, n) && d <= h && h + Size(l) <= d + Size(n);
    FreeIsAligned(s, live, c, k);
    FreeIsAligned(s, live, d, n);
    BuddyIs(a, l);
    if k > l {
      Dyadic(a, l + 1, c, k);
    } else if n > l {
      Dyadic(a, l + 1, d, n);
    } else {
      SameSpan(c, k, a, l);
      SameSpan(d, n, h, l);
      OneFreeHalf(s, live, a, l);
    }
  }

  lemma FreeIsAligned(s: Area, live: Live, a: int, l: nat)
    requires WellFormed(s, live) && IsFree(s, a, l)
    ensures Aligned(a, l)
  {
    assert IsBlock(s, live, a, l);
  }

  lemma OneFreeHalf(s: Area, live: Live, a: int, l: nat)
    requires WellFormed(s, live) && IsFree(s, a, l)
    ensures !IsFree(s, Buddy(a, l), l)
  {
  }

  lemma SameSpan(c: int, k: nat, a: int, l: nat)
    requires k <= l && c <= a && a + Size(l) <= c + Size(k)
    ensures c == a && k == l
  {
    SizeAtMost(k, l);
  }

  lemma SizeAtMost(k: nat, l: nat)
    requires k <= l
    ensures Size(k) <= Size(l) && (k < l ==> Size(k) < Size(l))
  {
    Pow2Monotone(SHIFT + k, SHIFT + l);
  }

  lemma BlockRegionFree(s: Area, live: Live, a: int, j: nat, l: nat)
    requires WellFormed(s, live) && IsFree(s, a, j) && l <= j
    ensures Aligned(a, l) && WhollyFree(s, a, l)
  {
    assert IsBlock(s, live, a, j);
    DivPowWeaken(SHIFT + l, SHIFT + j, a);
    SizeAtMost(l, j);
    forall x | Covers(a, l, x) ensures CoveredFree(s, x) {
      assert Covers(a, j, x);
    }
  }

  ghost predicate RegionAvailable(s: Area, l: nat) {
    exists a :: Aligned(a, l) && WhollyFree(s, a, l)
  }

  /** A block of level l or more is listed exactly when some aligned region of level l is wholly free. */
  lemma FitsIffRegion(s: Area, live: Live, l: nat)
    requires WellFormed(s, live) && l < MAP_SIZE
    ensures FirstFit(s.free, l) < MAP_SIZE <==> RegionAvailable(s, l)
  {
    var j := FirstFit(s.free, l);
    if j < MAP_SIZE {
      assert IsFree(s, s.free[j][0], j);
      BlockRegionFree(s, live, s.free[j][0], j, l);
    } else {
      forall a | Aligned(a, l) ensures !WhollyFree(s, a, l) {
        if WhollyFree(s, a, l) {
          FreeRegionInOneBlock(s, live, a, l);
          var b: int, m: nat :| IsFree(s, b, m) && b <= a && a + Size(l) <= b + Size(m);
          assert m < l;
          SizeAtMost(m, l);
        }
      }
    }
  }

  /** alloc_physical_page succeeds exactly when an aligned region is free or an arena may be opened;
      it panics only with all arenas open, and runs off area.map exactly for a top-level request
      while no top-level block is listed. */
  lemma AllocOutcome(s: Area, live: Live, l: nat)
    requires WellFormed(s, live) && l < MAP_SIZE
    ensures Alloc(s, l).Allocated? <==> RegionAvailable(s, l) || (l < TOP && s.arenas < 3)
    ensures Alloc(s, l).Panic? <==> !RegionAvailable(s, l) && l < TOP && s.arenas == 3
    ensures Alloc(s, l).PastMap? <==> l == TOP && s.free[TOP] == []
  {
    FitsIffRegion(s, live, l);
  }

  /** The block lies at the start of a free block of the smallest size that is large enough; a new arena is opened only
      when there is none, and then the block is its start. */
  lemma AllocTakesSmallest(s: Area, live: Live, l: nat)
    requires WellFormed(s, live) && l < MAP_SIZE && Alloc(s, l).Allocated?
    ensures var a := Alloc(s, l).addr;
      if RegionAvailable(s, l)
      then Alloc(s, l).area.arenas == s.arenas && exists j :: SmallestFit(s, l, a, j)
      else Alloc(s, l).area.arenas == s.arenas + 1 && a == FIRST_ADDRESS + s.arenas * ARENA
  {
    FitsIffRegion(s, live, l);
    var j := FirstFit(s.free, l);
    if j < MAP_SIZE {
      assert SmallestFit(s, l, s.free[j][0], j);
    }
  }

  ghost predicate SmallestFit(s: Area, l: nat, a: int, j: nat) {
    IsFree(s, a, j) && l <= j && forall b, m: nat :: IsFree(s, b, m) && l <= m ==> j <= m
  }

  // ---- when a free overruns

  /** All of the arena at base outside the block (page, l) is free, and so is the buddy arena. */
  ghost predicate WillOverrun(s: Area, page: int, l: nat, base: int) {
    && Aligned(base, TOP) && base <= page < base + Size(TOP)
    && IsFree(s, Buddy(base, TOP), TOP)
    && forall x :: Covers(base, TOP, x) && !Covers(page, l, x) ==> CoveredFree(s, x)
  }

  /** The arena of this block is otherwise free, and its buddy arena is listed. */
  ghost predicate CompletesArena(s: Area, page: int, l: nat) {
    exists base :: WillOverrun(s, page, l, base)
  }

  lemma CompletesAfterMerge(s: Area, live: Live, page: int, l: nat)
    requires WellFormed(s, live) && l < TOP && page in live && live[page] == l && IsFree(s, Buddy(page, l), l)
    ensures CompletesArena(s, page, l) <==>
            CompletesArena(Drop(s, Buddy(page, l), l), Min(page, Buddy(page, l)), l + 1)
  {
    var s', low := Drop(s, Buddy(page, l), l), Min(page, Buddy(page, l));
    if CompletesArena(s, page, l) {
      var base :| WillOverrun(s, page, l, base);
      OverrunAfterMerge(s, live, page, l, base);
      assert WillOverrun(s', low, l + 1, base);
    }
    if CompletesArena(s', low, l + 1) {
      var base :| WillOverrun(s', low, l + 1, base);
      OverrunAfterMerge(s, live, page, l, base);
      assert WillOverrun(s, page, l, base);
    }
  }

  lemma NeverCompletes(s: Area, live: Live, page: int, l: nat)
    requires WellFormed(s, live) && l < TOP && page in live && live[page] == l && !IsFree(s, Buddy(page, l), l)
    ensures !CompletesArena(s, page, l)
  {
    forall base ensures !WillOverrun(s, page, l, base) {
      NoOverrunWithoutBuddy(s, live, page, l, base);
    }
  }

  lemma OverrunAfterMerge(s: Area, live: Live, page: int, l: nat, base: int)
    requires WellFormed(s, live) && l < TOP && page in live && live[page] == l && IsFree(s, Buddy(page, l), l)
    ensures WillOverrun(s, page, l, base) <==>
            WillOverrun(Drop(s, Buddy(page, l), l), Min(page, Buddy(page, l)), l + 1, base)
  {
    var b := Buddy(page, l);
    var s', low := Drop(s, b, l), Min(page, b);
    assert IsBlock(s, live, page, l) && IsBlock(s, live, b, l);
    BuddyIs(page, l);
    DropMembers(s, b, l);
    assert Covers(low, l + 1, page) && Covers(low, l + 1, b);
    if Aligned(base, TOP) {
      ParentInArena(base, low, l, page);
    }
    forall x | !Covers(low, l + 1, x) ensures CoveredFree(s, x) <==> CoveredFree(s', x) {
      OutsideMerge(s, s', b, l, x);
    }
    assert forall x :: Covers(low, l + 1, x) <==> Covers(page, l, x) || Covers(b, l, x);
    assert forall x :: Covers(b, l, x) ==> CoveredFree(s, x);
    assert IsFree(s, Buddy(base, TOP), TOP) <==> IsFree(s', Buddy(base, TOP), TOP);
  }

  lemma ParentInArena(base: int, low: int, l: nat, page: int)
    requires Aligned(base, TOP) && Aligned(low, l + 1) && l < TOP && Covers(low, l + 1, page)
    ensures base <= page < base + Size(TOP) <==> base <= low < base + Size(TOP)
  {
    if base <= page < base + Size(TOP) || base <= low < base + Size(TOP) {
      Dyadic(low, l + 1, base, TOP);
    }
  }

  lemma OutsideMerge(s: Area, s': Area, b: int, l: nat, x: int)
    requires forall c: int, m: nat :: IsFree(s', c, m) <==> IsFree(s, c, m) && (c != b || m != l)
    requires !Covers(b, l, x)
    ensures CoveredFree(s, x) <==> CoveredFree(s', x)
  {
    if c: int, m: nat :| IsFree(s, c, m) && Covers(c, m, x) {
      assert IsFree(s', c, m);
    }
  }

  lemma NoOverrunWithoutBuddy(s: Area, live: Live, page: int, l: nat, base: int)
    requires WellFormed(s, live) && l < TOP && page in live && live[page] == l && !IsFree(s, Buddy(page, l), l)
    ensures !WillOverrun(s, page, l, base)
  {
    var b := Buddy(page, l);
    assert IsBlock(s, live, page, l);
    BuddyIs(page, l);
    if WillOverrun(s, page, l, base) {
      ParentInArena(base, Min(page, b), l, page);
      ParentInArena(base, Min(page, b), l, b);
      Dyadic(b, l, base, TOP);
      forall x | Covers(b, l, x) ensures CoveredFree(s, x) {
        assert Covers(base, TOP, x) && !Covers(page, l, x);
      }
      FreeRegionInOneBlock(s, live, b, l);
      BuddyCoveredIsFree(s, live, page, l, b);
    }
  }

  /** Next to a live block only its exact buddy can cover the buddy region. */
  lemma BuddyCoveredIsFree(s: Area, live: Live, page: int, l: nat, b: int)
    requires WellFormed(s, live) && l < TOP && page in live && live[page] == l && b == Buddy(page, l)
    requires InsideFree(s, b, l)
    ensures IsFree(s, b, l)
  {
    assert IsBlock(s, live, page, l);
    BuddyIs(page, l);
    var c: int, m: nat :| IsFree(s, c, m) && c <= b && b + Size(l) <= c + Size(m);
    assert IsBlock(s, live, c, m);
    assert Apart(c, m, page, l);
    if m > l {
      Dyadic(Min(page, b), l + 1, c, m);
    } else {
      SizeAtMost(m, l);
    }
  }

  lemma OverrunAtTop(s: Area, live: Live, page: int)
    requires WellFormed(s, live) && page in live && live[page] == TOP
    ensures IsFree(s, Buddy(page, TOP), TOP) <==> CompletesArena(s, page, TOP)
  {
    assert IsBlock(s, live, page, TOP);
    if base :| WillOverrun(s, page, TOP, base) {
      Dyadic(page, TOP, base, TOP);
    }
    if IsFree(s, Buddy(page, TOP), TOP) {
      assert WillOverrun(s, page, TOP, page);
    }
  }

  /** free_physical_page writes past area.map exactly when the freed block completes its arena
      and the buddy arena is listed as one free block. */
  lemma {:induction false} OverrunIff(s: Area, live: Live, page: int, l: nat)
    requires WellFormed(s, live) && l < MAP_SIZE && page in live && live[page] == l
    ensures Free(s, page, l).Overrun? <==> CompletesArena(s, page, l)
    decreases MAP_SIZE - l
  {
    var b := Buddy(page, l);
    if l == TOP {
      OverrunAtTop(s, live, page);
    } else if IsFree(s, b, l) {
      MergeKeeps(s, live, page, l);
      OverrunIff(Drop(s, b, l), (live - {page})[Min(page, b) := l + 1], Min(page, b), l + 1);
      CompletesAfterMerge(s, live, page, l);
    } else {
      NeverCompletes(s, live, page, l);
    }
  }

  /** Only the second and third arenas are ever buddies. */
  lemma OverrunNeedsTwoArenas(s: Area, live: Live, page: int, l: nat)
    requires WellFormed(s, live) && l < MAP_SIZE && page in live && live[page] == l && Free(s, page, l).Overrun?
    ensures s.arenas == 3 && page >= 0x800_0000
  {
    OverrunIff(s, live, page, l);
    var base :| WillOverrun(s, page, l, base);
    assert IsBlock(s, live, page, l) && IsBlock(s, live, Buddy(base, TOP), TOP);
    TopLevelSpan();
    ArenaBuddy(base);
    assert page >= FIRST_ADDRESS && page + Size(l) <= FIRST_ADDRESS + s.arenas * ARENA;
  }

  lemma ArenaBuddy(base: int)
    requires Aligned(base, TOP) && base > 0
    ensures base == ARENA ==> Buddy(base, TOP) == 0
    ensures base == ARENA || base >= 2 * ARENA
    ensures base == 2 * ARENA ==> Buddy(base, TOP) == 3 * ARENA
    ensures base == 2 * ARENA || base == ARENA || base >= 3 * ARENA
  {
    TopLevelSpan();
    FlipAligned(SHIFT + TOP, base);
    DivPowIffMod(SHIFT + TOP, base);
    DivPowIffMod(SHIFT + TOP + 1, base);
    assert Pow2(SHIFT + TOP + 1) == 2 * ARENA;
  }

  // ---- conservation of memory

  function ListBytes(n: nat, l: nat): nat {
    if n == 0 then 0 else Size(l) + ListBytes(n - 1, l)
  }

  /** Bytes in the free lists of levels below n. */
  function FreeBytes(free: seq<seq<int>>, n: nat): nat
    requires n <= |free|
  {
    if n == 0 then 0 else FreeBytes(free, n - 1) + ListBytes(|free[n - 1]|, n - 1)
  }

  ghost function LiveBytes(live: Live): nat {
    if exists a: int :: a in live then
      var a: int :| a in live;
      Size(live[a]) + LiveBytes(live - {a})
    else 0
  }

  lemma {:induction false} LiveBytesWithout(live: Live, a: int)
    requires a in live
    ensures LiveBytes(live) == Size(live[a]) + LiveBytes(live - {a})
    decreases |live|
  {
    var b :| b in live && LiveBytes(live) == Size(live[b]) + LiveBytes(live - {b});
    if a != b {
      LiveBytesWithout(live - {b}, a);
      LiveBytesWithout(live - {a}, b);
      assert live - {b} - {a} == live - {a} - {b};
    }
  }

  lemma {:induction false} FreeBytesUpdate(free: seq<seq<int>>, l: nat, xs: seq<int>, n: nat)
    requires l < |free| && n <= |free|
    ensures FreeBytes(free[l := xs], n) ==
            FreeBytes(free, n) + (if l < n then ListBytes(|xs|, l) - ListBytes(|free[l]|, l) else 0)
  {
    if n > 0 {
      FreeBytesUpdate(free, l, xs, n - 1);
    }
  }

  /** Free plus live bytes are exactly the bytes of the opened arenas. */
  ghost predicate Balanced(s: Area, live: Live) {
    |s.free| == MAP_SIZE && FreeBytes(s.free, MAP_SIZE) + LiveBytes(live) == s.arenas * ARENA
  }

  /** Before the first allocation. */
  const Unopened: Area := Area(seq(MAP_SIZE, _ => []), 0)

  lemma EmptyBalances()
    ensures Balanced(Unopened, map[]) && WellFormed(Unopened, map[])
  {
    EmptyBytes(Unopened.free, MAP_SIZE);
    assert forall a: int, l: nat :: !IsBlock(Unopened, map[], a, l);
  }

  lemma {:induction false} EmptyBytes(free: seq<seq<int>>, n: nat)
    requires n <= |free| && forall i :: 0 <= i < |free| ==> free[i] == []
    ensures FreeBytes(free, n) == 0
  {
    if n > 0 {
      EmptyBytes(free, n - 1);
    }
  }

  lemma {:induction false} FillBytes(free: seq<seq<int>>, page: int, j: nat, l: nat)
    requires |free| == MAP_SIZE && l <= j < MAP_SIZE
    requires forall i :: l <= i < j ==> free[i] == []
    ensures FreeBytes(Fill(free, page, j, l), MAP_SIZE) + Size(l) == FreeBytes(free, MAP_SIZE) + Size(j)
    decreases j
  {
    if j > l {
      var half := [Buddy(page, j - 1)];
      FillBytes(free[j - 1 := half], page, j - 1, l);
      FreeBytesUpdate(free, j - 1, half, MAP_SIZE);
      assert ListBytes(1, j - 1) == Size(j - 1);
      BuddySize(j - 1);
    }
  }

  lemma CarveBytes(s: Area, j: nat, l: nat)
    requires |s.free| == MAP_SIZE && l <= j < MAP_SIZE && s.free[j] != []
    requires forall i :: l <= i < j ==> s.free[i] == []
    ensures FreeBytes(Carve(s, j, l).area.free, MAP_SIZE) + Size(l) == FreeBytes(s.free, MAP_SIZE)
  {
    FreeBytesUpdate(s.free, j, s.free[j][1..], MAP_SIZE);
    FillBytes(s.free[j := s.free[j][1..]], s.free[j][0], j, l);
  }

  lemma CarveBalances(s: Area, live: Live, j: nat, l: nat)
    requires Balanced(s, live) && l <= j < MAP_SIZE && s.free[j] != [] && s.free[j][0] !in live
    requires forall i :: l <= i < j ==> s.free[i] == []
    ensures Balanced(Carve(s, j, l).area, live[Carve(s, j, l).addr := l])
  {
    var page := s.free[j][0];
    LiveBytesWithout(live[page := l], page);
    assert live[page := l] - {page} == live;
    CarveBytes(s, j, l);
  }

  lemma OpenBalances(s: Area, live: Live)
    requires Balanced(s, live) && s.free[TOP] == []
    ensures Balanced(OpenArena(s), live)
  {
    TopLevelSpan();
    FreeBytesUpdate(s.free, TOP, [NextArena(s)], MAP_SIZE);
    assert ListBytes(1, TOP) == Size(TOP);
  }

  lemma AllocBalances(s: Area, live: Live, l: nat)
    requires WellFormed(s, live) && l < MAP_SIZE && Alloc(s, l).Allocated? && Balanced(s, live)
    ensures Balanced(Alloc(s, l).area, live[Alloc(s, l).addr := l])
  {
    AllocKeeps(s, live, l);
    var j := FirstFit(s.free, l);
    if j < MAP_SIZE {
      CarveBalances(s, live, j, l);
    } else {
      OpenBalances(s, live);
      CarveBalances(OpenArena(s), live, TOP, l);
    }
  }

  lemma {:induction false} FreeAddsBytes(s: Area, page: int, l: nat)
    requires |s.free| == MAP_SIZE && l < MAP_SIZE && Free(s, page, l).Freed?
    ensures var t := Free(s, page, l).area;
      |t.free| == MAP_SIZE && t.arenas == s.arenas &&
      FreeBytes(t.free, MAP_SIZE) == FreeBytes(s.free, MAP_SIZE) + Size(l)
    decreases MAP_SIZE - l
  {
    var b := Buddy(page, l);
    if b in s.free[l] {
      RemoveLength(s.free[l], b);
      FreeBytesUpdate(s.free, l, Remove(s.free[l], b), MAP_SIZE);
      BuddySize(l);
      FreeAddsBytes(Drop(s, b, l), Min(page, b), l + 1);
    } else {
      FreeBytesUpdate(s.free, l, [page] + s.free[l], MAP_SIZE);
    }
  }

  lemma FreeBalances(s: Area, live: Live, page: int, l: nat)
    requires l < MAP_SIZE && page in live && live[page] == l && Balanced(s, live) && Free(s, page, l).Freed?
    ensures Balanced(Free(s, page, l).area, live - {page})
  {
    FreeAddsBytes(s, page, l);
    LiveBytesWithout(live, page);
  }
}
