/** Any run of malloc, free and stores by a program that uses only what it was given. */
module MallocRuns {
  import opened MallocSizes
  import opened MallocHeap
  import opened MallocArena
  import Malloc
  import MallocUser

  /** A block the program holds: what malloc returned, and the size it asked for. */
  datatype Block = Block(ptr: Addr, bytes: nat)

  /** The program frees and writes the blocks it holds, by number. */
  datatype Op = Ask(bytes: nat) | Release(which: nat) | Write(which: nat, offset: nat, value: int)

  /** What happened: a block was given, or none; a block was freed; a word was written. */
  datatype Event = Got(block: Block) | Refused(bytes: nat) | Gave(block: Block)
    | Wrote(block: Block, addr: Addr, value: int) | Skipped

  predicate InBlock(b: Block, w: Addr) {
    b.ptr <= w < b.ptr + b.bytes
  }

  /** The blocks held after some events. */
  function Held(log: seq<Event>): seq<Block> {
    if log == [] then []
    else
      var before, e := Held(log[..|log| - 1]), log[|log| - 1];
      match e
      case Got(b) => before + [b]
      case Gave(b) => Without(before, b)
      case _ => before
  }

  function Without(blocks: seq<Block>, b: Block): seq<Block> {
    if blocks == [] then []
    else if blocks[0] == b then blocks[1..]
    else [blocks[0]] + Without(blocks[1..], b)
  }

  /** What the program wrote last to the words of the blocks it holds. */
  function Contents(log: seq<Event>): map<Addr, int> {
    if log == [] then map[]
    else
      var before, e := Contents(log[..|log| - 1]), log[|log| - 1];
      match e
      case Wrote(_, w, v) => before[w := v]
      case Gave(b) => map w | w in before && !InBlock(b, w) :: before[w]
      case _ => before
  }

  /** An event that an operation can cause when some blocks are held. */
  predicate Causes(op: Op, held: seq<Block>, e: Event) {
    match op
    case Ask(bytes) => (e.Got? && e.block.bytes == bytes && e.block !in held) || e == Refused(bytes)
    case Release(i) => e == if i < |held| then Gave(held[i]) else Skipped
    case Write(i, offset, v) =>
      e == if i < |held| && offset % 4 == 0 && offset + 4 <= held[i].bytes
           then Wrote(held[i], held[i].ptr + offset, v) else Skipped
  }

  /** The events of a run, one for each operation. */
  predicate Follows(log: seq<Event>, ops: seq<Op>) {
    |log| == |ops| && forall i :: 0 <= i < |ops| ==> Causes(ops[i], Held(log[..i]), log[i])
  }

  /** A held block is a live chunk of at least the padded size, and its words are aligned. */
  ghost predicate Owned(h: Heap, b: Block) {
    && b.ptr % 8 == 0 && b.ptr - 8 in h && h[b.ptr - 8].use.Live?
    && !OutOfRange(b.bytes) && h[b.ptr - 8].size >= Request2Size(b.bytes)
  }

  predicate Distinct(held: seq<Block>) {
    forall i, j :: 0 <= i < j < |held| ==> held[i].ptr != held[j].ptr
  }

  predicate Inside(held: seq<Block>, w: Addr) {
    w % 4 == 0 && exists i :: 0 <= i < |held| && InBlock(held[i], w)
  }

  /** Every block held is owned, no two share a byte, and every word reads as it was last written. */
  ghost predicate Kept(a: Arena, held: seq<Block>, contents: map<Addr, int>) {
    && (forall i :: 0 <= i < |held| ==> Owned(a.heap, held[i]))
    && Distinct(held)
    && (forall w {:trigger w in contents} :: w in contents ==> Inside(held, w) && Word(a.mem, w) == contents[w])
  }

  lemma {:induction false} WithoutMembers(blocks: seq<Block>, i: nat)
    requires Distinct(blocks) && i < |blocks|
    ensures Without(blocks, blocks[i]) == blocks[..i] + blocks[i + 1..]
  {
    if i > 0 {
      assert blocks[0].ptr != blocks[i].ptr;
      WithoutMembers(blocks[1..], i - 1);
      assert blocks[1..][..i - 1] == blocks[1..i];
    }
  }

  /** A word of a held block is the user's. */
  lemma HeldWord(a: Arena, b: Block, w: Addr)
    requires Good(a) && Owned(a.heap, b) && InBlock(b, w)
    ensures Payload(a.heap, b.ptr - 8, w)
  {
    MallocUser.RequestIsOwned(a, b.ptr, b.bytes, w);
  }

  /** Held blocks share no byte. */
  lemma HeldApart(a: Arena, held: seq<Block>, contents: map<Addr, int>, i: nat, j: nat, w: Addr)
    requires Good(a) && Kept(a, held, contents) && i < |held| && j < |held| && InBlock(held[i], w) &&
      InBlock(held[j], w)
    ensures i == j
  {
    HeldWord(a, held[i], w);
    HeldWord(a, held[j], w);
    MallocUser.PayloadsDisjoint(a, held[i].ptr - 8, held[j].ptr - 8, w);
  }

  /** malloc. */
  lemma AskKeeps(a: Arena, a': Arena, held: seq<Block>, contents: map<Addr, int>, r: Addr, bytes: nat)
    requires held != [] ==> Good(a)
    requires Kept(a, held, contents) && !OutOfRange(bytes)
    requires Malloc.Result(a.heap, a.mem, a'.heap, a'.mem, r, Request2Size(bytes))
    ensures Kept(a', if r == 0 then held else held + [Block(r, bytes)], contents)
    ensures r != 0 ==> Block(r, bytes) !in held
  {
    var held' := if r == 0 then held else held + [Block(r, bytes)];
    forall w | w in contents ensures Inside(held', w) && Word(a'.mem, w) == contents[w] {
      assert Inside(held, w);
      var i :| 0 <= i < |held| && InBlock(held[i], w);
      assert InBlock(held'[i], w);
      HeldWord(a, held[i], w);
    }
    forall i | 0 <= i < |held| ensures Owned(a'.heap, held[i]) && (r != 0 ==> held[i].ptr != r) {
      assert Owned(a.heap, held[i]);
    }
  }

  /** free. */
  lemma ReleaseKeeps(a: Arena, a': Arena, held: seq<Block>, contents: map<Addr, int>, i: nat)
    requires Good(a) && Kept(a, held, contents) && i < |held|
    requires Malloc.Taken(a.heap, a'.heap, held[i].ptr - 8)
    requires Owned(a.heap, held[i]) && PayloadKept(Retag(a.heap, held[i].ptr - 8, Limbo), a.mem, a'.mem)
    ensures Kept(a', held[..i] + held[i + 1..], map w | w in contents && !InBlock(held[i], w) :: contents[w])
  {
    hide Good, Distinct, Owned, Payload, Malloc.Taken;
    var b := held[i];
    var held' := held[..i] + held[i + 1..];
    var contents' := map w | w in contents && !InBlock(b, w) :: contents[w];
    DistinctWithout(held, i);
    forall w | w in contents' ensures Inside(held', w) && Word(a'.mem, w) == contents'[w] {
      assert Inside(held, w);
      var j :| 0 <= j < |held| && InBlock(held[j], w);
      assert held'[if j < i then j else j - 1] == held[j];
      HeldWord(a, held[j], w);
      OtherPayload(held, i, j, a.heap, w);
    }
    forall k | 0 <= k < |held'| ensures Owned(a'.heap, held'[k]) {
      var j := if k < i then k else k + 1;
      assert held'[k] == held[j];
      StillOwned(held, i, j, a.heap, a'.heap);
    }
  }

  lemma DistinctWithout(held: seq<Block>, i: nat)
    requires Distinct(held) && i < |held|
    ensures Distinct(held[..i] + held[i + 1..])
  {
  }

  lemma OtherPayload(held: seq<Block>, i: nat, j: nat, h: Heap, w: Addr)
    requires Distinct(held) && i < |held| && j < |held| && i != j && Owned(h, held[i]) && Payload(h, held[j].ptr - 8, w)
    ensures Payload(Retag(h, held[i].ptr - 8, Limbo), held[j].ptr - 8, w)
  {
  }

  lemma StillOwned(held: seq<Block>, i: nat, j: nat, h: Heap, h': Heap)
    requires Distinct(held) && i < |held| && j < |held| && i != j && Owned(h, held[j]) &&
      Malloc.Taken(h, h', held[i].ptr - 8)
    ensures Owned(h', held[j])
  {
  }

  /** A store. */
  lemma WriteKeeps(a: Arena, held: seq<Block>, contents: map<Addr, int>, i: nat, w: Addr, v: int)
    requires Good(a) && Kept(a, held, contents) && i < |held| && InBlock(held[i], w) && w % 4 == 0
    ensures Kept(a.(mem := a.mem[w := v]), held, contents[w := v])
  {
  }

  lemma {:induction false} HeldSnoc(log: seq<Event>, ops: seq<Op>, e: Event)
    requires |log| < |ops| && Follows(log, ops[..|log|]) && Causes(ops[|log|], Held(log), e)
    ensures Follows(log + [e], ops[..|log| + 1]) && (log + [e])[..|log|] == log
  {
    var longer := log + [e];
    assert longer[..|log|] == log;
    forall i | 0 <= i < |longer| ensures Causes(ops[..|log| + 1][i], Held(longer[..i]), longer[i]) {
      if i < |log| {
        assert longer[..i] == log[..i];
        assert ops[..|log|][i] == ops[..|log| + 1][i];
      } else {
        assert longer[..i] == log;
      }
    }
  }

  /** In between the operations of a run. */
  ghost predicate Running(heap: Malloc.Allocator, held: seq<Block>, log: seq<Event>)
    reads heap
  {
    heap.Valid() && held == Held(log) && Kept(heap.A(), held, Contents(log))
  }

  /** Holding a block takes memory. */
  lemma HoldingIsGood(heap: Malloc.Allocator, held: seq<Block>, log: seq<Event>)
    requires Running(heap, held, log)
    ensures held != [] ==> Good(heap.A())
  {
    if held != [] {
      assert Owned(heap.heap, held[0]);
      heap.LiveMeansReady();
    }
  }

  method Step(heap: Malloc.Allocator, op: Op, held0: seq<Block>, ghost log: seq<Event>)
    returns (held: seq<Block>, ghost e: Event)
    requires Running(heap, held0, log) && (op.Ask? ==> op.bytes < WORD)
    modifies heap
    ensures Running(heap, held, log + [e]) && Causes(op, held0, e)
  {
    hide Good, Kept, PayloadKept, Owned, Malloc.Result, Malloc.Taken;
    HoldingIsGood(heap, held0, log);
    ghost var a, contents := heap.A(), Contents(log);
    held, e := held0, Skipped;
    match op {
      case Ask(bytes) =>
        var r;
        ghost var s;
        r, s := heap.Malloc(bytes);
        if OutOfRange(bytes) {
          e := Refused(bytes);
        } else {
          AskKeeps(a, heap.A(), held0, contents, r, bytes);
          e := if r == 0 then Refused(bytes) else Got(Block(r, bytes));
          if r != 0 {
            held := held + [Block(r, bytes)];
          }
        }
      case Release(i) =>
        if i < |held0| {
          OwnedAt(a, held0, contents, i);
          ghost var _, _ := heap.Free(held0[i].ptr);
          ReleaseKeeps(a, heap.A(), held0, contents, i);
          WithoutMembers(held0, i);
          held := held0[..i] + held0[i + 1..];
          e := Gave(held0[i]);
        }
      case Write(i, offset, v) =>
        if i < |held0| && offset % 4 == 0 && offset + 4 <= held0[i].bytes {
          var w := held0[i].ptr + offset;
          OwnedAt(a, held0, contents, i);
          HeldWord(a, held0[i], w);
          heap.UserStore(held0[i].ptr - 8, w, v);
          WriteKeeps(a, held0, contents, i, w, v);
          e := Wrote(held0[i], w, v);
        }
    }
    assert (log + [e])[..|log|] == log;
  }

  /** A small block that is freed is the one that malloc gives next for its size. */
  method FreeThenAsk(heap: Malloc.Allocator, ptr: Addr, bytes: nat) returns (r: Addr)
    requires heap.Valid() && bytes < WORD && !OutOfRange(bytes) && Request2Size(bytes) <= MAX_FAST
    requires ptr != 0 && ptr - 8 in heap.heap && heap.heap[ptr - 8].use.Live?
    requires heap.heap[ptr - 8].size == Request2Size(bytes)
    modifies heap
    ensures heap.Valid() && r == ptr
  {
    hide Good, PayloadKept, Malloc.Taken, Malloc.Result, Malloc.Chosen, Malloc.SearchedIn;
    OutOfNothing(heap, ptr);
    ghost var _, _ := heap.Free(ptr);
    ghost var s;
    r, s := heap.Malloc(bytes);
  }

  /** Two small requests in a row lie side by side: when a free chunk x is cut for the first, and enough of it is left,
      the second gets what comes next, unless a chunk of just its size is free. */
  method AskTwice(heap: Malloc.Allocator, first: nat, second: nat)
    returns (p: Addr, q: Addr, ghost s: Arena, ghost mid: Arena, ghost fast: Addr)
    requires heap.Valid() && first < WORD && second < WORD && !OutOfRange(first) && !OutOfRange(second)
    requires Request2Size(first) < MIN_LARGE_SIZE && Request2Size(second) < MIN_LARGE_SIZE
    requires heap.FastHead(Request2Size(first)) == 0
    modifies heap
    ensures heap.Valid()
    ensures Malloc.SearchedIn(old(heap.A()), old(heap.fastChunks), Request2Size(first), s)
    ensures var n, m := Request2Size(first), Request2Size(second);
      p != 0 && p - 8 in s.heap && s.heap[p - 8].use.Free? && s.heap[p - 8].size > n + m + MINSIZE ==>
        p + n - 8 in mid.heap && mid.heap[p + n - 8].use.Free? && mid.heap[p + n - 8].size == s.heap[p - 8].size - n &&
        (fast == 0 && !Malloc.HasExact(mid.heap, m) ==> q == p + n)
  {
    hide Good, NoFit, Malloc.Result, Malloc.Chosen, Malloc.SearchedIn, Malloc.Remains, Malloc.HasExact, Request2Size;
    ghost var n, m, last0 := Request2Size(first), Request2Size(second), heap.lastRemainder;
    p, s := heap.Malloc(first);
    mid, fast := heap.A(), heap.FastHead(m);
    ghost var last, used, s2 := heap.lastRemainder, heap.fastChunks, mid;
    q, s2 := heap.Malloc(second);
    if p != 0 && p - 8 in s.heap && s.heap[p - 8].use.Free? && s.heap[p - 8].size > n + m + MINSIZE {
      Malloc.RemainderIsNext(s, last0, n, p - 8, mid, last, m, q - 8);
      if fast == 0 {
        Malloc.FitNoSweep(mid, used, m, s2);
      }
    }
  }

  lemma OutOfNothing(heap: Malloc.Allocator, ptr: Addr)
    requires heap.Valid() && ptr - 8 in heap.heap
    ensures ptr - 8 != 0
  {
    heap.LiveMeansReady();
    assert Placed(heap.heap, heap.base, heap.top, ptr - 8) && Placed(heap.heap, heap.base, heap.top, heap.base);
  }

  /** What holding a block means for the calls that use it. */
  lemma OwnedAt(a: Arena, held: seq<Block>, contents: map<Addr, int>, i: nat)
    requires Good(a) && Kept(a, held, contents) && i < |held|
    ensures Owned(a.heap, held[i]) && held[i].ptr - 8 in a.heap && a.heap[held[i].ptr - 8].use.Live?
    ensures Distinct(held) && held[i].ptr > 0 && held[i].ptr % 4 == 0
  {
    assert Owned(a.heap, held[i]);
    assert Placed(a.heap, a.base, a.top, held[i].ptr - 8);
    hide Good, Kept, Owned, Distinct, Placed;
    Aligned4(held[i].ptr);
  }

  lemma Aligned4(p: Addr)
    requires p % 8 == 0
    ensures p % 4 == 0
  {
  }

  /** Every run of malloc, free and stores, from an empty heap: what the program holds is owned by nobody else,
      and reads as it was last written. */
  method Run(heap: Malloc.Allocator, ops: seq<Op>) returns (held: seq<Block>, ghost log: seq<Event>)
    requires heap.Valid() && heap.heap == map[]
    requires forall i :: 0 <= i < |ops| ==> ops[i].Ask? ==> ops[i].bytes < WORD
    modifies heap
    ensures heap.Valid() && Follows(log, ops) && held == Held(log)
    ensures Kept(heap.A(), held, Contents(log))
    ensures forall i, j, w ::
      0 <= i < |held| && 0 <= j < |held| && InBlock(held[i], w) && InBlock(held[j], w) ==> i == j
  {
    held, log := [], [];
    var done := 0;
    while done < |ops|
      invariant 0 <= done <= |ops| && |log| == done && Follows(log, ops[..done]) && Running(heap, held, log)
    {
      ghost var e;
      held, e := Step(heap, ops[done], held, log);
      HeldSnoc(log, ops, e);
      log := log + [e];
      done := done + 1;
    }
    assert ops[..done] == ops;
    HoldingIsGood(heap, held, log);
    forall i, j, w | 0 <= i < |held| && 0 <= j < |held| && InBlock(held[i], w) && InBlock(held[j], w) ensures i == j {
      HeldApart(heap.A(), held, Contents(log), i, j, w);
    }
  }
}
