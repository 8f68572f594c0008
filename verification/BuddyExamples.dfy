/** Runs of the page allocator that end badly. */
module BuddyExamples {
  import opened Lists
  import opened BuddySpec
  import opened BuddyOps
  import opened BuddyRuns

  /** Lists that are empty below level 13. */
  function Upper(halves: seq<int>, arenas: seq<int>): (r: seq<seq<int>>)
    ensures |r| == MAP_SIZE
  {
    [[], [], [], [], [], [], [], [], [], [], [], [], [], halves, arenas]
  }

  const HALF: int := 0x200_0000

  /** Pages of half an arena, and of more than half. */
  const HALF_PAGES: nat := 8192
  const ARENA_PAGES: nat := 16383

  lemma Levels()
    ensures Pages.Level(HALF_PAGES) == 13 && Pages.Level(ARENA_PAGES) == TOP
  {
    Pages.Pow2Of14();
    Pages.LevelIsLeast(HALF_PAGES, 12);
    Pages.LevelIsLeast(HALF_PAGES, 13);
    Pages.LevelIsLeast(ARENA_PAGES, 13);
    Pages.LevelIsLeast(ARENA_PAGES, 14);
  }

  lemma UpperFit(halves: seq<int>, arenas: seq<int>)
    ensures FirstFit(Upper(halves, arenas), TOP) == if arenas == [] then MAP_SIZE else TOP
    ensures FirstFit(Upper(halves, arenas), 13) == if halves != [] then 13 else if arenas == [] then MAP_SIZE else TOP
  {
  }

  lemma Halves(n: nat)
    requires 1 <= n <= 3
    ensures Size(13) == HALF && Buddy(n * ARENA, 13) == n * ARENA + HALF && Buddy(n * ARENA + HALF, 13) == n * ARENA
  {
    ArenaAligned(n - 1);
    DivPowWeaken(SHIFT + 13, SHIFT + 14, n * ARENA);
    TopLevelSpan();
    BuddyIs(n * ARENA, 13);
  }

  /** A half is taken off its list, or cut from a new arena. */
  lemma GetHalf(halves: seq<int>, n: nat)
    requires n < 3
    ensures Alloc(Area(Upper(halves, []), n), 13) ==
      if halves != [] then Allocated(Area(Upper(halves[1..], []), n), halves[0])
      else Allocated(Area(Upper([(n + 1) * ARENA + HALF], []), n + 1), (n + 1) * ARENA)
  {
    UpperFit(halves, []);
    if halves != [] {
      assert Upper(halves, [])[13 := halves[1..]] == Upper(halves[1..], []);
    } else {
      OpenHalf(n);
    }
  }

  lemma OpenHalf(n: nat)
    requires n < 3
    ensures var s, a := Area(Upper([], []), n), (n + 1) * ARENA;
      Carve(OpenArena(s), TOP, 13) == Allocated(Area(Upper([a + HALF], []), n + 1), a)
  {
    var s, a := Area(Upper([], []), n), (n + 1) * ARENA;
    Halves(n + 1);
    assert OpenArena(s) == Area(Upper([], [a]), n + 1);
    assert [a][1..] == [];
    assert Upper([], [a])[TOP := []] == Upper([], []);
    var halved := Upper([], [])[13 := [Buddy(a, 13)]];
    assert halved == Upper([a + HALF], []);
    assert Fill(halved, a, 13, 13) == halved;
    assert Fill(Upper([], []), a, TOP, 13) == halved;
  }

  /** A half whose other half is taken goes on its list; otherwise the two become an arena again. */
  lemma GiveHalf(halves: seq<int>, arenas: seq<int>, page: int, buddy: int)
    requires buddy == Buddy(page, 13) && NoRepeats(halves)
    ensures var s := Area(Upper(halves, arenas), 3);
      Free(s, page, 13) == if buddy !in halves then Freed(Area(Upper([page] + halves, arenas), 3))
                           else Free(Area(Upper(Remove(halves, buddy), arenas), 3), Min(page, buddy), TOP)
  {
    assert Upper(halves, arenas)[13 := [page] + halves] == Upper([page] + halves, arenas);
    assert Upper(halves, arenas)[13 := Remove(halves, buddy)] == Upper(Remove(halves, buddy), arenas);
  }

  lemma GiveArena(halves: seq<int>, arenas: seq<int>, base: int)
    ensures var s := Area(Upper(halves, arenas), 3);
      Free(s, base, TOP) ==
        if Buddy(base, TOP) in arenas then Overrun else Freed(Area(Upper(halves, [base] + arenas), 3))
  {
    assert Upper(halves, arenas)[TOP := [base] + arenas] == Upper(halves, [base] + arenas);
  }

  lemma TakesHalf(halves: seq<int>, n: nat, live: Live)
    requires 0 < n < 3 && WellFormed(Area(Upper(halves, []), n), live) && Balanced(Area(Upper(halves, []), n), live)
    ensures Legal(live, Get(HALF_PAGES))
    ensures Perform(Area(Upper(halves, []), n), live, Get(HALF_PAGES)) ==
      if halves != [] then Going(Area(Upper(halves[1..], []), n), live[halves[0] := 13])
      else Going(Area(Upper([(n + 1) * ARENA + HALF], []), n + 1), live[(n + 1) * ARENA := 13])
  {
    hide Alloc, Upper, WellFormed, Balanced, Pages.Level;
    Levels();
    GetHalf(halves, n);
  }

  lemma GivesBack(s: Area, live: Live, page: int)
    requires WellFormed(s, live) && Balanced(s, live) && page in live && live[page] == 13
    ensures Legal(live, Give(page, HALF_PAGES))
    ensures Perform(s, live, Give(page, HALF_PAGES)) ==
      if Free(s, page, 13).Freed? then Going(Free(s, page, 13).area, live - {page}) else Stopped(WrotePastMap)
  {
    hide Free, WellFormed, Balanced, Pages.Level;
    Levels();
  }

  /** The first request for more than half an arena takes the first one. */
  lemma TakesFirstArena()
    ensures WellFormed(Unopened, map[]) && Balanced(Unopened, map[]) && Legal(map[], Get(ARENA_PAGES))
    ensures Perform(Unopened, map[], Get(ARENA_PAGES)) == Going(Area(Upper([], []), 1), map[0x400_0000 := TOP])
  {
    hide Alloc, WellFormed, Balanced, Pages.Level;
    Levels();
    EmptyBalances();
    assert OpenArena(Unopened) == Area(Upper([], [0x400_0000]), 1);
    TakesTop(0x400_0000);
  }

  lemma TakesTop(a: int)
    ensures Alloc(Area(Upper([], [a]), 1), TOP) == Allocated(Area(Upper([], []), 1), a)
  {
    UpperFit([], [a]);
    assert [a][1..] == [];
    assert Upper([], [a])[TOP := []] == Upper([], []);
    assert Fill(Upper([], []), a, TOP, TOP) == Upper([], []);
  }

  lemma NoSecondArena(live: Live)
    requires WellFormed(Area(Upper([], []), 1), live) && Balanced(Area(Upper([], []), 1), live)
    ensures Legal(live, Get(ARENA_PAGES))
    ensures Perform(Area(Upper([], []), 1), live, Get(ARENA_PAGES)) == Stopped(ReadPastMap)
  {
    hide Upper, WellFormed, Balanced, Pages.Level;
    Levels();
    UpperFit([], []);
  }

  lemma {:induction false} PlayOn(s: Area, live: Live, ops: seq<Op>, op: Op)
    requires WellFormed(s, live) && Balanced(s, live) && AllLegal(s, live, ops)
    requires Play(s, live, ops).Going? && Legal(Play(s, live, ops).live, op)
    ensures AllLegal(s, live, ops + [op])
    ensures var p := Play(s, live, ops); Play(s, live, ops + [op]) == Perform(p.area, p.live, op)
    decreases |ops|
  {
    hide Perform, WellFormed, Balanced, Legal;
    if ops == [] {
      assert [] + [op] == [op] && [op][1..] == [];
    } else {
      assert (ops + [op])[1..] == ops[1..] + [op];
      var p := Perform(s, live, ops[0]);
      PlayOn(p.area, p.live, ops[1..], op);
    }
  }

  /** A second request for more than half an arena, while only the first one is open. */
  const TwoArenas: seq<Op> := [Get(ARENA_PAGES)] + [Get(ARENA_PAGES)]

  lemma FirstArenaTaken()
    ensures WellFormed(Unopened, map[]) && Balanced(Unopened, map[]) && AllLegal(Unopened, map[], [Get(ARENA_PAGES)])
    ensures Play(Unopened, map[], [Get(ARENA_PAGES)]) == Going(Area(Upper([], []), 1), map[0x400_0000 := TOP])
  {
    hide Upper, WellFormed, Balanced, Perform, Legal;
    TakesFirstArena();
    PlayOn(Unopened, map[], [], Get(ARENA_PAGES));
    assert [] + [Get(ARENA_PAGES)] == [Get(ARENA_PAGES)];
  }

  lemma SecondArenaRequest()
    ensures WellFormed(Unopened, map[]) && Balanced(Unopened, map[]) && AllLegal(Unopened, map[], TwoArenas)
    ensures Play(Unopened, map[], TwoArenas) == Stopped(ReadPastMap)
  {
    hide Upper, WellFormed, Balanced, Perform, Legal, Play, AllLegal;
    FirstArenaTaken();
    NoSecondArena(map[0x400_0000 := TOP]);
    PlayOn(Unopened, map[], [Get(ARENA_PAGES)], Get(ARENA_PAGES));
  }

  /** The first arena and both halves of the second are taken, and half of the third. */
  const Taken: Live := map[0x400_0000 := TOP, 0x800_0000 := 13, 0xA00_0000 := 13, 0xC00_0000 := 13]
  const Takes: seq<Op> := [Get(ARENA_PAGES)] + [Get(HALF_PAGES)] + [Get(HALF_PAGES)] + [Get(HALF_PAGES)]

  lemma ThreeArenas()
    ensures WellFormed(Unopened, map[]) && Balanced(Unopened, map[]) && AllLegal(Unopened, map[], Takes)
    ensures Play(Unopened, map[], Takes) == Going(Area(Upper([0xE00_0000], []), 3), Taken)
  {
    hide Upper, WellFormed, Balanced, Perform, Legal, Play, AllLegal;
    var ops := [Get(ARENA_PAGES)] + [Get(HALF_PAGES)];
    FirstArenaTaken();
    TakesHalf([], 1, map[0x400_0000 := TOP]);
    PlayOn(Unopened, map[], [Get(ARENA_PAGES)], Get(HALF_PAGES));
    TakesHalf([0xA00_0000], 2, map[0x400_0000 := TOP, 0x800_0000 := 13]);
    PlayOn(Unopened, map[], ops, Get(HALF_PAGES));
    assert [0xA00_0000][1..] == [];
    TakesHalf([], 2, map[0x400_0000 := TOP, 0x800_0000 := 13, 0xA00_0000 := 13]);
    PlayOn(Unopened, map[], ops + [Get(HALF_PAGES)], Get(HALF_PAGES));
  }

  /** Then the second arena becomes free again as a whole, and at last the half of the third. */
  const Gives: seq<Op> := Takes + [Give(0x800_0000, HALF_PAGES)] + [Give(0xA00_0000, HALF_PAGES)]

  lemma SecondArenaBack()
    ensures WellFormed(Unopened, map[]) && Balanced(Unopened, map[]) && AllLegal(Unopened, map[], Gives)
    ensures Play(Unopened, map[], Gives) ==
      Going(Area(Upper([0xE00_0000], [0x800_0000]), 3), map[0x400_0000 := TOP, 0xC00_0000 := 13])
  {
    hide Upper, Free, WellFormed, Balanced, Perform, Legal, Play, AllLegal;
    ThreeArenas();
    FreesOfHalves();
    GivesBack(Area(Upper([0xE00_0000], []), 3), Taken, 0x800_0000);
    PlayOn(Unopened, map[], Takes, Give(0x800_0000, HALF_PAGES));
    var ops := Takes + [Give(0x800_0000, HALF_PAGES)];
    GivesBack(Area(Upper([0x800_0000, 0xE00_0000], []), 3), Taken - {0x800_0000}, 0xA00_0000);
    PlayOn(Unopened, map[], ops, Give(0xA00_0000, HALF_PAGES));
    assert Taken - {0x800_0000} - {0xA00_0000} == map[0x400_0000 := TOP, 0xC00_0000 := 13];
  }

  /** The release that completes the third arena writes past area.map. */
  lemma ThirdArenaOverruns()
    ensures WellFormed(Unopened, map[]) && Balanced(Unopened, map[])
    ensures AllLegal(Unopened, map[], Gives + [Give(0xC00_0000, HALF_PAGES)])
    ensures Play(Unopened, map[], Gives + [Give(0xC00_0000, HALF_PAGES)]) == Stopped(WrotePastMap)
  {
    hide Upper, Free, WellFormed, Balanced, Perform, Legal, Play, AllLegal;
    SecondArenaBack();
    FreesOfHalves();
    GivesBack(Area(Upper([0xE00_0000], [0x800_0000]), 3), map[0x400_0000 := TOP, 0xC00_0000 := 13], 0xC00_0000);
    PlayOn(Unopened, map[], Gives, Give(0xC00_0000, HALF_PAGES));
  }

  lemma FreesOfHalves()
    ensures Free(Area(Upper([0xE00_0000], []), 3), 0x800_0000, 13) ==
      Freed(Area(Upper([0x800_0000, 0xE00_0000], []), 3))
    ensures Free(Area(Upper([0x800_0000, 0xE00_0000], []), 3), 0xA00_0000, 13) ==
      Freed(Area(Upper([0xE00_0000], [0x800_0000]), 3))
    ensures Free(Area(Upper([0xE00_0000], [0x800_0000]), 3), 0xC00_0000, 13) == Overrun
  {
    hide Upper, Free, BuddySpec.Buddy;
    Halves(2);
    Halves(3);
    assert [0x800_0000] + [0xE00_0000] == [0x800_0000, 0xE00_0000];
    assert Remove([0x800_0000, 0xE00_0000], 0x800_0000) == [0xE00_0000] && Remove([0xE00_0000], 0xE00_0000) == [];
    assert [0x800_0000] + [] == [0x800_0000];
    GiveHalf([0xE00_0000], [], 0x800_0000, 0xA00_0000);
    GiveHalf([0x800_0000, 0xE00_0000], [], 0xA00_0000, 0x800_0000);
    TopLevelSpan();
    ArenaAligned(1);
    ArenaBuddy(0x800_0000);
    BuddyIs(0x800_0000, TOP);
    GiveArena([0xE00_0000], [], 0x800_0000);
    GiveHalf([0xE00_0000], [0x800_0000], 0xC00_0000, 0xE00_0000);
    assert Buddy(0xC00_0000, TOP) == 0x800_0000;
    GiveArena([], [0x800_0000], 0xC00_0000);
  }
}
