/** kernel/page_allocator.c as it stands: area.map holds list heads, and each free block's first
    word holds the address of the next free block of its level. Address 0 is NULL. */
module Buddy {
  import opened Arith
  import opened Lists
  import opened BuddySpec
  import opened BuddyOps

  const NB_PAGES_ALLOC: int := 0x4000

  /** Memory words by address. */
  type Memory = map<int, int>

  // ---- lists threaded through memory

  predicate Linked(mem: Memory, head: int, xs: seq<int>)
    decreases xs
  {
    if xs == [] then head == 0
    else head == xs[0] && head != 0 && head in mem && Linked(mem, mem[head], xs[1..])
  }

  lemma {:induction false} LinkedFrame(mem: Memory, head: int, xs: seq<int>, a: int, v: int)
    requires Linked(mem, head, xs) && a !in xs
    ensures Linked(mem[a := v], head, xs)
    decreases xs
  {
    if xs != [] {
      LinkedFrame(mem, mem[head], xs[1..], a, v);
    }
  }

  function At(xs: seq<int>, i: nat): int {
    if i < |xs| then xs[i] else 0
  }

  lemma {:induction false} LinkedSuffix(mem: Memory, head: int, xs: seq<int>, i: nat)
    requires Linked(mem, head, xs) && i <= |xs|
    ensures Linked(mem, At(xs, i), xs[i..])
    ensures i < |xs| ==> xs[i] in mem && xs[i] != 0 && mem[xs[i]] == At(xs, i + 1)
    decreases xs
  {
    if i > 0 {
      LinkedSuffix(mem, mem[head], xs[1..], i - 1);
      assert xs[1..][i - 1..] == xs[i..];
    } else {
      assert xs[0..] == xs;
    }
  }

  lemma {:induction false} UnlinkAt(mem: Memory, head: int, xs: seq<int>, i: nat)
    requires Linked(mem, head, xs) && NoRepeats(xs) && 0 < i < |xs|
    ensures xs[i] in mem && Linked(mem[xs[i - 1] := mem[xs[i]]], head, Remove(xs, xs[i]))
    decreases xs
  {
    LinkedSuffix(mem, head, xs, i);
    var mem' := mem[xs[i - 1] := mem[xs[i]]];
    assert Remove(xs, xs[i]) == [xs[0]] + Remove(xs[1..], xs[i]);
    if i == 1 {
      LinkedSuffix(mem, head, xs, 2);
      assert Remove(xs[1..], xs[1]) == xs[2..] by { assert xs[1..][1..] == xs[2..]; }
      LinkedFrame(mem, At(xs, 2), xs[2..], xs[0], mem[xs[1]]);
    } else {
      UnlinkAt(mem, mem[head], xs[1..], i - 1);
    }
  }

  // ---- sizes

  function BitLength(n: nat): nat {
    if n == 0 then 0 else 1 + BitLength(n / 2)
  }

  lemma {:induction false} BitLengthIff(n: nat, k: nat)
    ensures BitLength(n) <= k <==> n < Pow2(k)
  {
    if n > 0 && k > 0 {
      BitLengthIff(n / 2, k - 1);
    }
  }

  lemma {:induction false} BitLengthShift(k: nat, nb: nat)
    requires nb > 0
    ensures Pow2(k) * nb >= 1 && BitLength(Pow2(k) * nb - 1) == k + BitLength(nb - 1)
  {
    if k > 0 {
      BitLengthShift(k - 1, nb);
      Halve(Pow2(k - 1), nb);
      assert (Pow2(k) * nb - 1) / 2 == Pow2(k - 1) * nb - 1;
    }
  }

  /** Level of a request: the least l with nb <= 2^l pages. */
  function Level(nb: nat): (l: nat)
    requires nb > 0
    ensures nb < NB_PAGES_ALLOC ==> l < MAP_SIZE
  {
    assert Pow2(14) == NB_PAGES_ALLOC by { Pow2Of14(); }
    BitLengthIff(nb - 1, 14);
    BitLength(nb - 1)
  }

  lemma Pow2Of14()
    ensures Pow2(14) == NB_PAGES_ALLOC
  {
    assert Pow2(7) == 128;
    Pow2Add(7, 7);
  }

  lemma LevelIsLeast(nb: nat, l: nat)
    requires nb > 0
    ensures Level(nb) <= l <==> nb <= Pow2(l)
  {
    BitLengthIff(nb - 1, l);
  }

  /** puiss2: the exponent of the least power of two at or above size. */
  method Puiss2(size: nat) returns (p: nat)
    requires 0 < size
    ensures p == BitLength(size - 1)
    ensures forall k: nat :: p <= k <==> size <= Pow2(k)
  {
    p := 0;
    var s: nat := size - 1;
    while s != 0
      invariant p + BitLength(s) == BitLength(size - 1)
    {
      p := p + 1;
      s := s / 2;
    }
    forall k: nat ensures p <= k <==> size <= Pow2(k) {
      BitLengthIff(size - 1, k);
    }
  }

  datatype PageResult = Page(addr: int) | Panicked | OffMap

  function Init(s: Area): Area
    requires |s.free| == MAP_SIZE
  {
    if s.arenas == 0 then OpenArena(s) else s
  }

  lemma InitKeeps(s: Area, live: Live)
    requires WellFormed(s, live) && Balanced(s, live)
    ensures WellFormed(Init(s), live) && Balanced(Init(s), live)
  {
    if s.arenas == 0 {
      NothingYet(s, live);
      OpenKeeps(s, live);
      OpenBalances(s, live);
    }
  }

  lemma NothingYet(s: Area, live: Live)
    requires WellFormed(s, live) && s.arenas == 0
    ensures s.free[TOP] == []
  {
    forall a | IsFree(s, a, TOP) ensures false {
      assert Size(TOP) > 0;
      assert IsBlock(s, live, a, TOP);
    }
    assert s.free[TOP] == [] || IsFree(s, s.free[TOP][0], TOP);
  }

  class PageAllocator {
    var heads: array<int>  // area.map
    var nbAlloc: nat       // area.nb_alloc
    var mem: Memory
    ghost var free: seq<seq<int>>
    ghost var live: Live

    ghost function State(): Area
      reads this
    {
      Area(free, nbAlloc)
    }

    ghost predicate Threaded(lists: seq<seq<int>>)
      reads this, heads
    {
      && heads.Length == MAP_SIZE == |lists|
      && forall l: nat :: l < MAP_SIZE ==> Linked(mem, heads[l], lists[l])
    }

    ghost predicate Valid()
      reads this, heads
    {
      Threaded(free) && WellFormed(State(), live) && Balanced(State(), live)
    }

    constructor ()
      ensures Valid() && State() == Unopened && live == map[] && fresh(heads)
    {
      heads := new int[MAP_SIZE](_ => 0);
      nbAlloc, mem, live := 0, map[], map[];
      free := Unopened.free;
      new;
      EmptyBalances();
    }

    /** A process writes to the memory of a block it holds. */
    method UserStore(block: int, addr: int, v: int)
      requires Valid() && block in live && Covers(block, live[block], addr)
      modifies this`mem
      ensures Valid() && mem == old(mem)[addr := v]
    {
      HeldWordsAreUnlisted(State(), live, block, addr);
      forall l: nat | l < MAP_SIZE ensures Linked(mem[addr := v], heads[l], free[l]) {
        LinkedFrame(mem, heads[l], free[l], addr, v);
      }
      mem := mem[addr := v];
    }

    /** The arena opening shared by init_alloc and alloc_block. */
    method AllocBlock()
      requires Valid() && nbAlloc < 3 && free[TOP] == []
      modifies this`nbAlloc, this`mem, this`free, heads
      ensures Valid() && State() == OpenArena(old(State()))
    {
      var a := FIRST_ADDRESS + nbAlloc * ARENA;
      ghost var s := State();
      OpenKeeps(s, live);
      OpenBalances(s, live);
      forall l: nat | l < MAP_SIZE ensures Linked(mem[a := 0], heads[l], free[l]) {
        NewArenaUnlisted(s, live, l);
        LinkedFrame(mem, heads[l], free[l], a, 0);
      }
      heads[TOP] := a;
      mem := mem[a := 0];
      nbAlloc := nbAlloc + 1;
      free := OpenArena(s).free;
      assert Linked(mem, a, [a]);
    }

    /** init_alloc. */
    method InitAlloc()
      requires Valid()
      modifies this`nbAlloc, this`mem, this`free, heads
      ensures Valid() && State() == Init(old(State()))
    {
      if nbAlloc == 0 {
        NothingYet(State(), live);
        AllocBlock();
      }
    }

    /** The scan of alloc_physical_page for the first level with a block, opening an arena
        when it arrives at the top level from below and finds nothing. */
    method Scan(index: nat) returns (scan: nat, panicked: bool)
      requires Valid() && index < MAP_SIZE && nbAlloc <= 3
      modifies this`nbAlloc, this`mem, this`free, heads
      ensures Valid()
      ensures panicked <==> FirstFit(old(free), index) == MAP_SIZE && index < TOP && old(nbAlloc) >= 3
      ensures !panicked ==>
        scan == FirstFit(free, index) &&
        State() ==
          if FirstFit(old(free), index) < MAP_SIZE || index == TOP then old(State()) else OpenArena(old(State()))
      ensures panicked ==> State() == old(State())
    {
      scan, panicked := index, false;
      while scan < MAP_SIZE && heads[scan] == 0
        invariant index <= scan <= MAP_SIZE && Valid() && !panicked
        invariant FirstFit(free, index) == FirstFit(free, scan)
        invariant State() == old(State()) ||
          (scan == TOP && index < TOP && FirstFit(old(free), index) == MAP_SIZE && State() == OpenArena(old(State())))
        invariant scan == TOP && index < TOP ==> heads[scan] != 0
        invariant scan == MAP_SIZE ==> index == TOP && State() == old(State())
        decreases MAP_SIZE - scan
      {
        assert Linked(mem, heads[scan], free[scan]);
        scan := scan + 1;
        if scan == TOP && heads[scan] == 0 {
          assert Linked(mem, heads[scan], free[scan]);
          if nbAlloc >= 3 {
            panicked := true;
            return;
          }
          ghost var s := State();
          AllocBlock();
          FirstFitAfterOpen(s, index);
        }
      }
      if scan < MAP_SIZE {
        assert Linked(mem, heads[scan], free[scan]);
      }
    }

    /** The splitting loop of alloc_physical_page. While it runs, the block being cut heads the
        list of its level and `lists` is what the levels hold besides it. */
    method CutDown(first: nat, index: nat, ghost page: int, ghost start: seq<seq<int>>)
      requires Cutting(start, page, first, index) && heads.Length == MAP_SIZE
      requires ShownLinked(mem, heads[..], start, page, first)
      requires WellFormed(Area(start, nbAlloc), live[page := first])
      modifies this`mem, heads
      ensures ShownLinked(mem, heads[..], Fill(start, page, first, index), page, index)
    {
      var scan := first;
      ghost var lists := start;
      while scan != index
        invariant index <= scan <= first
        invariant Cutting(lists, page, scan, index) && Fill(lists, page, scan, index) == Fill(start, page, first, index)
        invariant WellFormed(Area(lists, nbAlloc), live[page := scan])
        invariant ShownLinked(mem, heads[..], lists, page, scan)
        decreases scan
      {
        SplitOnce(mem, heads[..], lists, nbAlloc, live, page, scan);
        var currBlock := heads[scan];
        heads[scan] := mem[currBlock];
        scan := scan - 1;
        heads[scan] := currBlock;
        var buddyBlock := Buddy(currBlock, scan);
        mem := mem[currBlock := buddyBlock];
        mem := mem[buddyBlock := 0];
        lists := lists[scan := [buddyBlock]];
      }
    }

    /** The second half of alloc_physical_page: cut the block found, then take it off its list. */
    method Split(first: nat, index: nat) returns (ptr: int)
      requires Valid() && index <= first < MAP_SIZE && free[first] != []
      requires forall i :: index <= i < first ==> free[i] == []
      modifies this`mem, this`free, this`live, heads
      ensures Allocated(State(), ptr) == Carve(old(State()), first, index)
      ensures live == old(live)[ptr := index] && Valid()
    {
      ghost var s, page := State(), free[first][0];
      ghost var start := free[first := free[first][1..]];
      CarveKeeps(s, live, first, index);
      CarveBalances(s, live, first, index);
      SplitStarts(s, live, first, index);
      CutDown(first, index, page, start);
      free := Fill(start, page, first, index);
      live := live[page := index];
      SplitEnds(mem, heads[..], free, page, index);
      ptr := heads[index];
      heads[index] := mem[ptr];
    }

    /** alloc_physical_page. The source asserts the bounds on nbPages. */
    method AllocPhysicalPage(nbPages: int) returns (r: PageResult)
      requires Valid() && 0 < nbPages < NB_PAGES_ALLOC
      modifies this, heads
      ensures Valid() && heads == old(heads)
      ensures match Alloc(Init(old(State())), Level(nbPages))
              case Allocated(s, a) =>
                r == Page(a) && State() == s && live == old(live)[a := Level(nbPages)] && a !in old(live)
              case Panic => r == Panicked && State() == Init(old(State())) && live == old(live)
              case PastMap => r == OffMap && State() == Init(old(State())) && live == old(live)
    {
      hide Alloc, Carve, Fill, WellFormed, Balanced, Threaded;
      InitKeeps(State(), live);
      InitAlloc();
      ThreeAtMost(State(), live);
      var size := nbPages * 4096;
      var bits := Puiss2(size);
      LevelOfSize(nbPages);
      LevelIsLeast(nbPages, 0);
      var index := bits - SHIFT;
      ghost var s := State();
      var scan, panicked := Scan(index);
      AllocFails(s, index);
      if FirstFit(s.free, index) == MAP_SIZE && index < TOP {
        FirstFitAfterOpen(s, index);
      }
      if panicked {
        return Panicked;
      }
      if scan == MAP_SIZE {
        // the source now reads area.map[MAP_SIZE]
        return OffMap;
      }
      AllocByScan(s, State(), live, index);
      var ptr := Split(scan, index);
      return Page(ptr);
    }

    /** Takes the block at scanPtr off the list of its level, as free_physical_page relinks it. */
    method Unlink(index: nat, scanPtr: int, previousPtr: int, ghost lists: seq<seq<int>>, ghost pos: nat)
      requires Threaded(lists) && index < MAP_SIZE && pos < |lists[index]| && NoRepeats(lists[index])
      requires scanPtr == lists[index][pos] && previousPtr == (if pos > 0 then lists[index][pos - 1] else 0)
      requires forall l: nat :: l < MAP_SIZE && l != index ==> previousPtr !in lists[l]
      modifies this`mem, heads
      ensures Threaded(lists[index := Remove(lists[index], scanPtr)])
    {
      LinkedSuffix(mem, heads[index], lists[index], pos);
      if previousPtr != 0 {
        assert pos > 0;
        UnlinkAt(mem, heads[index], lists[index], pos);
        forall l: nat | l < MAP_SIZE && l != index
          ensures Linked(mem[previousPtr := mem[scanPtr]], heads[l], lists[l])
        {
          LinkedFrame(mem, heads[l], lists[l], previousPtr, mem[scanPtr]);
        }
        mem := mem[previousPtr := mem[scanPtr]];
      } else {
        LinkedSuffix(mem, heads[index], lists[index], if pos > 0 then pos - 1 else 0);
        assert pos == 0;
        heads[index] := mem[scanPtr];
      }
    }

    /** The last three statements of free_physical_page. */
    method Link(index: nat, page: int, ghost lists: seq<seq<int>>)
      requires Threaded(lists) && index < MAP_SIZE && page != 0
      requires forall l: nat :: l < MAP_SIZE ==> page !in lists[l]
      modifies this`mem, heads
      ensures Threaded(lists[index := [page] + lists[index]])
    {
      var nextPtr := heads[index];
      forall l: nat | l < MAP_SIZE ensures Linked(mem[page := nextPtr], heads[l], lists[l]) {
        LinkedFrame(mem, heads[l], lists[l], page, nextPtr);
      }
      heads[index] := page;
      mem := mem[page := nextPtr];
      assert ([page] + lists[index])[1..] == lists[index];
    }

    /** The loop of free_physical_page: searches each level for the buddy and merges upwards. The answer
        is false where the source would leave the loop past the top level. */
    method Coalesce(physicalPage: int, level: nat) returns (ok: bool, index: nat, page: int, ghost t: Area)
      requires Valid() && level < MAP_SIZE && physicalPage in live && live[physicalPage] == level
      modifies this`mem, heads
      ensures ok <==> BuddyOps.Free(State(), physicalPage, level).Freed?
      ensures ok ==> index < MAP_SIZE && Threaded(t.free) && t.arenas == nbAlloc && page != 0
      ensures ok ==> forall l: nat :: l < MAP_SIZE ==> page !in t.free[l]
      ensures ok ==> BuddyOps.Free(State(), physicalPage, level) == Freed(Push(t, page, index))
    {
      ok, index, page := true, level, physicalPage;
      var buddyAddress := Buddy(page, index);
      var scanPtr, previousPtr := heads[index], 0;
      t := State();
      ghost var held: Live, pos := live, 0;
      while scanPtr != 0
        invariant Merging(t, held, page, index, State(), physicalPage, level)
        invariant Threaded(t.free) && buddyAddress == Buddy(page, index) && pos <= |t.free[index]|
        invariant scanPtr == At(t.free[index], pos) && previousPtr == (if pos > 0 then t.free[index][pos - 1] else 0)
        invariant buddyAddress !in t.free[index][..pos]
        decreases MAP_SIZE - index, |t.free[index]| - pos
      {
        LinkedSuffix(mem, heads[index], t.free[index], pos);
        if scanPtr == buddyAddress {
          assert buddyAddress in t.free[index];
          if index + 1 == MAP_SIZE {
            ok := false;
            return;
          }
          UnlinkedElsewhere(t, held, index, pos);
          Unlink(index, scanPtr, previousPtr, t.free, pos);
          MergingGoesOn(t, held, page, index, State(), physicalPage, level);
          t, held := Drop(t, buddyAddress, index), (held - {page})[Min(page, buddyAddress) := index + 1];
          index := index + 1;
          page := Min(page, buddyAddress);
          scanPtr := heads[index];
          buddyAddress := Buddy(page, index);
          previousPtr := 0;
          pos := 0;
          assert Linked(mem, heads[index], t.free[index]);
        } else {
          previousPtr := scanPtr;
          scanPtr := mem[scanPtr];
          pos := pos + 1;
        }
      }
      EndOfList(mem, heads[index], t.free[index], pos);
      MergingEnds(t, held, page, index);
    }

    /** free_physical_page, for a block obtained with the same number of pages. The answer is false
        where the source would go on to overwrite the word after area.map. */
    method FreePhysicalPage(physicalPage: int, nbPages: int) returns (ok: bool)
      requires Valid() && 0 < nbPages < NB_PAGES_ALLOC
      requires physicalPage in live && live[physicalPage] == Level(nbPages)
      modifies this`mem, this`free, this`live, heads
      ensures heads == old(heads)
      ensures ok <==> !CompletesArena(old(State()), physicalPage, Level(nbPages))
      ensures ok ==> Valid() && live == old(live) - {physicalPage}
      ensures ok ==> Freed(State()) == BuddyOps.Free(old(State()), physicalPage, Level(nbPages))
    {
      OverrunIff(State(), live, physicalPage, Level(nbPages));
      LevelOfSize(nbPages);
      var bits := Puiss2(nbPages * 4096);
      var index, page;
      ghost var t;
      ok, index, page, t := Coalesce(physicalPage, bits - SHIFT);
      if ok {
        Link(index, page, t.free);
        FreeKeeps(State(), live, physicalPage, Level(nbPages));
        FreeBalances(State(), live, physicalPage, Level(nbPages));
        free := Push(t, page, index).free;
        live := live - {physicalPage};
      }
    }
  }

  // ---- the loop of free_physical_page on values

  /** Halfway through the merges: `t` is what is listed, `page` at level `index` what is being freed. */
  ghost predicate Merging(t: Area, held: Live, page: int, index: nat, s: Area, start: int, level: nat) {
    && WellFormed(t, held) && index < MAP_SIZE && level < MAP_SIZE == |s.free| && t.arenas == s.arenas
    && page in held && held[page] == index
    && BuddyOps.Free(t, page, index) == BuddyOps.Free(s, start, level)
  }

  lemma MergingGoesOn(t: Area, held: Live, page: int, index: nat, s: Area, start: int, level: nat)
    requires Merging(t, held, page, index, s, start, level) && index + 1 < MAP_SIZE
    requires Buddy(page, index) in t.free[index]
    ensures var b := Buddy(page, index);
      Merging(Drop(t, b, index), (held - {page})[Min(page, b) := index + 1], Min(page, b), index + 1, s, start, level)
  {
    MergeKeeps(t, held, page, index);
  }

  lemma MergingEnds(t: Area, held: Live, page: int, index: nat)
    requires WellFormed(t, held) && index < MAP_SIZE && page in held && held[page] == index
    ensures page != 0 && forall l: nat :: l < MAP_SIZE ==> page !in t.free[l]
  {
    assert IsBlock(t, held, page, index);
    forall l: nat | l < MAP_SIZE ensures page !in t.free[l] {
      assert !IsFree(t, page, l);
    }
  }

  lemma UnlinkedElsewhere(t: Area, held: Live, index: nat, pos: nat)
    requires WellFormed(t, held) && index < MAP_SIZE && pos < |t.free[index]|
    ensures NoRepeats(t.free[index])
    ensures forall l: nat :: l < MAP_SIZE && l != index ==>
      (if pos > 0 then t.free[index][pos - 1] else 0) !in t.free[l]
  {
    var x := if pos > 0 then t.free[index][pos - 1] else 0;
    forall l: nat | l < MAP_SIZE && l != index ensures x !in t.free[l] {
      if pos > 0 {
        assert IsFree(t, x, index);
        OneLevelEach(t, held, x, index);
        assert IsFree(t, x, l) ==> IsBlock(t, held, x, l);
      } else {
        assert IsFree(t, 0, l) ==> IsBlock(t, held, 0, l);
      }
    }
  }

  lemma EndOfList(mem: Memory, head: int, xs: seq<int>, pos: nat)
    requires Linked(mem, head, xs) && pos <= |xs| && At(xs, pos) == 0
    ensures xs[..pos] == xs
  {
    LinkedSuffix(mem, head, xs, pos);
  }

  lemma LevelOfSize(nb: nat)
    requires nb > 0
    ensures BitLength(nb * 4096 - 1) == SHIFT + Level(nb)
  {
    hide BitLength, Pow2;
    BitLengthShift(SHIFT, nb);
    TopLevelSpan();
  }

  lemma ThreeAtMost(s: Area, live: Live)
    requires WellFormed(s, live)
    ensures s.arenas <= 3 && |s.free| == MAP_SIZE
  {
  }

  lemma AllocFails(s: Area, l: nat)
    requires |s.free| == MAP_SIZE && l < MAP_SIZE
    ensures FirstFit(s.free, l) == MAP_SIZE && l == TOP ==> Alloc(s, l) == PastMap
    ensures FirstFit(s.free, l) == MAP_SIZE && l < TOP && s.arenas >= 3 ==> Alloc(s, l) == Panic
  {
  }

  /** After a scan that found a block, cutting it is what the allocation does. */
  lemma AllocByScan(s: Area, t: Area, live: Live, l: nat)
    requires |s.free| == MAP_SIZE && |t.free| == MAP_SIZE && l < MAP_SIZE && FirstFit(t.free, l) < MAP_SIZE
    requires FirstFit(s.free, l) < MAP_SIZE || l == TOP ==> t == s
    requires FirstFit(s.free, l) == MAP_SIZE && l < TOP ==> s.arenas < 3 && t == OpenArena(s)
    requires WellFormed(t, live)
    ensures Alloc(s, l) == Carve(t, FirstFit(t.free, l), l)
    ensures Alloc(s, l).addr !in live
  {
    if FirstFit(s.free, l) == MAP_SIZE {
      FirstFitAfterOpen(s, l);
    }
    CarveKeeps(t, live, FirstFit(t.free, l), l);
  }

  // ---- the pointers during a split

  ghost predicate Cutting(lists: seq<seq<int>>, page: int, scan: nat, index: nat) {
    |lists| == MAP_SIZE && index <= scan < MAP_SIZE && forall i :: index <= i < scan ==> lists[i] == []
  }

  /** Every level shows its list, with the block being cut in front of the list of level scan. */
  ghost predicate ShownLinked(mem: Memory, heads: seq<int>, lists: seq<seq<int>>, page: int, scan: nat) {
    && |heads| == MAP_SIZE == |lists| && scan < MAP_SIZE
    && Linked(mem, heads[scan], [page] + lists[scan])
    && forall l: nat :: l < MAP_SIZE && l != scan ==> Linked(mem, heads[l], lists[l])
  }

  lemma SplitStarts(s: Area, live: Live, first: nat, index: nat)
    requires WellFormed(s, live) && index <= first < MAP_SIZE && s.free[first] != []
    ensures var page, lists := s.free[first][0], s.free[first := s.free[first][1..]];
      WellFormed(Area(lists, s.arenas), live[page := first]) &&
      lists[first := [page] + lists[first]] == s.free
  {
    TakeHead(s, live, first);
    assert [s.free[first][0]] + s.free[first][1..] == s.free[first];
    assert s.(free := s.free[first := s.free[first][1..]]) == Area(s.free[first := s.free[first][1..]], s.arenas);
  }

  lemma SplitEnds(mem: Memory, heads: seq<int>, lists: seq<seq<int>>, page: int, index: nat)
    requires ShownLinked(mem, heads, lists, page, index)
    ensures heads[index] == page && page in mem && Linked(mem, mem[page], lists[index])
  {
    assert ([page] + lists[index])[1..] == lists[index];
  }

  lemma SplitOnce(mem: Memory, heads: seq<int>, lists: seq<seq<int>>, arenas: nat, live: Live, page: int, scan: nat)
    requires WellFormed(Area(lists, arenas), live[page := scan]) && 0 < scan < MAP_SIZE && lists[scan - 1] == []
    requires ShownLinked(mem, heads, lists, page, scan)
    ensures heads[scan] == page && page in mem
    ensures var b, lists' := Buddy(page, scan - 1), lists[scan - 1 := [Buddy(page, scan - 1)]];
      WellFormed(Area(lists', arenas), live[page := scan - 1]) &&
      ShownLinked(mem[page := b][b := 0], heads[scan := mem[page]][scan - 1 := page], lists', page, scan - 1)
  {
    var s, held, b := Area(lists, arenas), live[page := scan], Buddy(page, scan - 1);
    HalveKeeps(s, held, page, scan - 1);
    assert held[page := scan - 1] == live[page := scan - 1];
    assert [b] + lists[scan - 1] == [b];
    var lists' := lists[scan - 1 := [b]];
    assert Push(s, b, scan - 1) == Area(lists', arenas);
    SplitEnds(mem, heads, lists, page, scan);
    NewHalfUnlisted(s, held, page, scan - 1);
    var mem', heads' := mem[page := b][b := 0], heads[scan := mem[page]][scan - 1 := page];
    forall l: nat | l < MAP_SIZE && l != scan - 1 ensures Linked(mem', heads'[l], lists'[l]) {
      assert Linked(mem, heads'[l], lists[l]);
      LinkedFrame(mem, heads'[l], lists[l], page, b);
      LinkedFrame(mem[page := b], heads'[l], lists[l], b, 0);
    }
    TwoLinked(mem', page, b);
  }

  lemma TwoLinked(mem: Memory, a: int, b: int)
    requires a in mem && b in mem && a != 0 && b != 0 && mem[a] == b && mem[b] == 0
    ensures Linked(mem, a, [a] + [b])
  {
    assert ([a] + [b])[1..] == [b];
    assert Linked(mem, b, [b]);
  }

  lemma NewHalfUnlisted(s: Area, live: Live, p: int, l: nat)
    requires WellFormed(s, live) && l + 1 < MAP_SIZE && p in live && live[p] == l + 1
    ensures p > 0 && Buddy(p, l) > p
    ensures forall m: nat :: m < MAP_SIZE ==> p !in s.free[m] && Buddy(p, l) !in s.free[m]
  {
    HalveKeeps(s, live, p, l);
    assert IsBlock(s, live, p, l + 1);
    UpperHalfIsNew(s, live, p, l, Buddy(p, l));
    forall m: nat | m < MAP_SIZE ensures p !in s.free[m] && Buddy(p, l) !in s.free[m] {
      assert !IsBlock(s, live, Buddy(p, l), m);
      assert !IsFree(s, p, m);
    }
  }

  /** Opening an arena leaves the lower lists alone. */
  lemma FirstFitAfterOpen(s: Area, l: nat)
    requires |s.free| == MAP_SIZE && l <= TOP && FirstFit(s.free, l) == MAP_SIZE
    ensures FirstFit(OpenArena(s).free, l) == TOP
    decreases TOP - l
  {
    if l < TOP {
      FirstFitAfterOpen(s, l + 1);
    }
  }

  lemma HeldWordsAreUnlisted(s: Area, live: Live, block: int, addr: int)
    requires WellFormed(s, live) && block in live && Covers(block, live[block], addr)
    ensures forall l: nat :: l < MAP_SIZE ==> addr !in s.free[l]
  {
    assert IsBlock(s, live, block, live[block]);
    forall l: nat | l < MAP_SIZE ensures addr !in s.free[l] {
      assert !Apart(addr, l, block, live[block]);
      assert IsFree(s, addr, l) ==> IsBlock(s, live, addr, l);
    }
  }

  lemma NewArenaUnlisted(s: Area, live: Live, l: nat)
    requires WellFormed(s, live) && l < MAP_SIZE
    ensures NextArena(s) !in s.free[l]
  {
    assert Size(l) > 0;
    assert IsFree(s, NextArena(s), l) ==> IsBlock(s, live, NextArena(s), l);
  }
}
