/** Runs of the page allocator: any sequence of allocations and releases, on lists and on the words in memory. */
module BuddyRuns {
  import opened Options
  import opened BuddySpec
  import opened BuddyOps
  import Pages = Buddy

  /** A call of alloc_physical_page or free_physical_page, with its number of pages. */
  datatype Op = Get(pages: nat) | Give(page: int, pages: nat)

  /** Stopped: the kernel panicked, read past area.map, or wrote past it. */
  datatype Progress = Going(area: Area, live: Live) | Stopped(failure: Failure)

  datatype Failure = Panicked | ReadPastMap | WrotePastMap

  /** The source asserts the bounds on the number of pages; a block is freed with the number it was obtained with. */
  predicate Legal(live: Live, op: Op) {
    0 < op.pages < Pages.NB_PAGES_ALLOC && (op.Give? ==> op.page in live && live[op.page] == Pages.Level(op.pages))
  }

  ghost function Perform(s: Area, live: Live, op: Op): (r: Progress)
    requires WellFormed(s, live) && Balanced(s, live) && Legal(live, op)
    ensures r.Going? ==> WellFormed(r.area, r.live) && Balanced(r.area, r.live)
  {
    var l := Pages.Level(op.pages);
    match op
    case Get(_) =>
      Pages.InitKeeps(s, live);
      var s1 := Pages.Init(s);
      (match Alloc(s1, l)
       case Allocated(t, a) =>
         AllocKeeps(s1, live, l);
         AllocBalances(s1, live, l);
         Going(t, live[a := l])
       case Panic => Stopped(Panicked)
       case PastMap => Stopped(ReadPastMap))
    case Give(a, _) =>
      (match Free(s, a, l)
       case Freed(t) =>
         FreeKeeps(s, live, a, l);
         FreeBalances(s, live, a, l);
         Going(t, live - {a})
       case Overrun => Stopped(WrotePastMap))
  }

  /** Over every run the blocks tile the opened arenas, no two buddies are free, and no byte is lost. */
  ghost function Play(s: Area, live: Live, ops: seq<Op>): (r: Progress)
    requires WellFormed(s, live) && Balanced(s, live) && AllLegal(s, live, ops)
    ensures r.Going? ==> WellFormed(r.area, r.live) && Balanced(r.area, r.live)
    decreases |ops|
  {
    if ops == [] then Going(s, live)
    else
      var p := Perform(s, live, ops[0]);
      if p.Going? then Play(p.area, p.live, ops[1..]) else p
  }

  /** Every call of the run is legal, as long as none fails. */
  ghost predicate AllLegal(s: Area, live: Live, ops: seq<Op>)
    requires WellFormed(s, live) && Balanced(s, live)
    decreases |ops|
  {
    ops == [] || (Legal(live, ops[0]) &&
      var p := Perform(s, live, ops[0]);
      p.Going? ==> AllLegal(p.area, p.live, ops[1..]))
  }

  /** One call on the words in memory. */
  method Do(pages: Pages.PageAllocator, op: Op) returns (failure: Option<Failure>)
    requires pages.Valid() && Legal(pages.live, op)
    modifies pages, pages.heads
    ensures pages.heads == old(pages.heads)
    ensures match Perform(old(pages.State()), old(pages.live), op)
            case Going(s, live) => failure == None && pages.Valid() && pages.State() == s && pages.live == live
            case Stopped(f) => failure == Some(f)
  {
    hide WellFormed, Balanced, Alloc, Free, Pages.Init, Pages.Level;
    failure := None;
    match op {
      case Get(n) =>
        var r := pages.AllocPhysicalPage(n);
        match r {
          case Page(_) =>
          case Panicked => failure := Some(Panicked);
          case OffMap => failure := Some(ReadPastMap);
        }
      case Give(a, n) =>
        OverrunIff(pages.State(), pages.live, a, Pages.Level(n));
        var ok := pages.FreePhysicalPage(a, n);
        if !ok {
          failure := Some(WrotePastMap);
        }
    }
  }

  /** Any run of the page allocator on the words in memory, up to its end or its first failure. */
  method Replay(pages: Pages.PageAllocator, ops: seq<Op>) returns (failure: Option<Failure>)
    requires pages.Valid() && AllLegal(pages.State(), pages.live, ops)
    modifies pages, pages.heads
    ensures match Play(old(pages.State()), old(pages.live), ops)
            case Going(s, live) => failure == None && pages.Valid() && pages.State() == s && pages.live == live
            case Stopped(f) => failure == Some(f)
  {
    hide WellFormed, Balanced, Perform, Legal;
    var i := 0;
    assert ops[0..] == ops;
    while i < |ops|
      invariant 0 <= i <= |ops| && pages.heads == old(pages.heads) && pages.Valid()
      invariant AllLegal(pages.State(), pages.live, ops[i..])
      invariant Play(pages.State(), pages.live, ops[i..]) == Play(old(pages.State()), old(pages.live), ops)
    {
      assert ops[i..][0] == ops[i] && ops[i..][1..] == ops[i + 1..];
      failure := Do(pages, ops[i]);
      if failure.Some? {
        return;
      }
      i := i + 1;
    }
    failure := None;
  }
}
