/** The chunks of the heap of shared/malloc.c, apart from how memory encodes them: they tile the heap from
    its base up to and including the top chunk, and no two free ones touch. */
module MallocHeap {
  import opened Arith
  import opened MallocSizes

  type Addr = int

  /** Live chunks belong to the user; Limbo is a chunk in the hands of the allocator; Fast(i) and Free(i)
      are linked in a fastbin and in a bin, where bin 1 is the unsorted list. */
  datatype Use = Live | Limbo | Fast(i: nat) | Free(i: nat) | Top

  /** before is the size of the preceding chunk, 0 for the first. */
  datatype Chunk = Chunk(size: nat, before: nat, use: Use)

  type Heap = map<Addr, Chunk>

  /** In use as far as boundary tags go. */
  predicate InUse(u: Use) {
    u.Live? || u.Limbo? || u.Fast?
  }

  function Next(h: Heap, p: Addr): Addr
    requires p in h
  {
    p + h[p].size
  }

  /** A chunk is aligned, large enough, and agrees with both neighbours. */
  predicate Placed(h: Heap, base: Addr, top: Addr, p: Addr) {
    p in h ==>
      && base <= p <= top && p % 8 == 0 && h[p].size >= MINSIZE
      && (p != top ==> h[p].size % 8 == 0 && !h[p].use.Top?)
      && (p != top ==> Next(h, p) in h && h[Next(h, p)].before == h[p].size)
      && (p == top ==> h[p].size % 4 == 0 && h[p].use.Top?)
      && (p != base ==> h[p].before >= MINSIZE && p - h[p].before in h && h[p - h[p].before].size == h[p].before)
      && (p == base ==> h[p].before == 0)
  }

  predicate Before(h: Heap, p: Addr, q: Addr) {
    p in h && q in h && p < q ==> Next(h, p) <= q
  }

  ghost predicate Shape(h: Heap, base: Addr, top: Addr) {
    && base in h && top in h && base > 0
    && (forall p {:trigger Placed(h, base, top, p)} :: Placed(h, base, top, p))
    && (forall p, q {:trigger Before(h, p, q)} :: Before(h, p, q))
  }

  /** A free chunk is followed by one in use, so that free chunks touch neither each other nor top. */
  predicate Coalesced(h: Heap, p: Addr) {
    p in h && h[p].use.Free? && Next(h, p) in h ==> InUse(h[Next(h, p)].use)
  }

  ghost predicate AllCoalesced(h: Heap) {
    forall p {:trigger Coalesced(h, p)} :: Coalesced(h, p)
  }

  /** The chunk before p is free: what a clear PREV_INUSE bit says. */
  predicate PrevFree(h: Heap, p: Addr) {
    p in h && h[p].before > 0 && p - h[p].before in h && h[p - h[p].before].use.Free?
  }

  // ---- changes

  function Retag(h: Heap, p: Addr, u: Use): Heap
    requires p in h
  {
    h[p := h[p].(use := u)]
  }

  function Fix(h: Heap, q: Addr, before: nat): Heap {
    if q in h then h[q := h[q].(before := before)] else h
  }

  /** p is cut after n bytes. */
  function Split(h: Heap, p: Addr, n: nat, u: Use, v: Use): Heap
    requires p in h && 0 < n < h[p].size
  {
    var r := h[p].size - n;
    Fix(h, Next(h, p), r)[p := Chunk(n, h[p].before, u)][p + n := Chunk(r, n, v)]
  }

  /** p absorbs the chunk that follows it. */
  function Join(h: Heap, p: Addr, u: Use): Heap
    requires p in h && Next(h, p) in h
  {
    var q := Next(h, p);
    var s := h[p].size + h[q].size;
    Fix(h - {q}, Next(h, q), s)[p := Chunk(s, h[p].before, u)]
  }

  lemma RetagShape(h: Heap, base: Addr, top: Addr, p: Addr, u: Use)
    requires Shape(h, base, top) && p in h && p != top && !u.Top?
    ensures Shape(Retag(h, p, u), base, top)
  {
    var h' := Retag(h, p, u);
    forall x ensures Placed(h', base, top, x) {
      assert Placed(h, base, top, x);
    }
    forall x, y ensures Before(h', x, y) {
      assert Before(h, x, y);
    }
  }

  /** The cut falls strictly inside p. */
  lemma CutInside(h: Heap, base: Addr, top: Addr, p: Addr, n: nat)
    requires Shape(h, base, top) && p in h && MINSIZE <= n <= h[p].size - MINSIZE
    ensures p + n !in h && p < p + n < Next(h, p) && (p == top <==> Next(h, p) !in h)
  {
    assert Placed(h, base, top, p) && Placed(h, base, top, Next(h, p)) && Before(h, p, p + n);
  }

  lemma MultiplesOf8(a: int, b: int)
    requires a % 8 == 0 && b % 8 == 0
    ensures (a + b) % 8 == 0 && (a - b) % 8 == 0
  {
    var x, y := a / 8, b / 8;
    assert a == 8 * x && b == 8 * y;
    ModUnique(a + b, 8, x + y, 0);
    ModUnique(a - b, 8, x - y, 0);
  }

  lemma MultiplesOf4(a: int, b: int)
    requires a % 4 == 0 && b % 8 == 0
    ensures (a - b) % 4 == 0 && (a + b) % 4 == 0
  {
    var x, y := a / 4, b / 8;
    assert a == 4 * x && b == 8 * y;
    ModUnique(a - b, 4, x - 2 * y, 0);
    ModUnique(a + b, 4, x + 2 * y, 0);
  }

  lemma SplitPlaced(h: Heap, base: Addr, top: Addr, p: Addr, n: nat, u: Use, v: Use, x: Addr)
    requires Shape(h, base, top) && p in h && MINSIZE <= n <= h[p].size - MINSIZE && n % 8 == 0
    requires !u.Top? && (v.Top? <==> p == top)
    ensures Placed(Split(h, p, n, u, v), base, if p == top then p + n else top, x)
  {
    CutInside(h, base, top, p, n);
    assert Placed(h, base, top, p) && Placed(h, base, top, Next(h, p)) && Placed(h, base, top, x);
    MultiplesOf8(p, n);
    if p == top {
      MultiplesOf4(h[p].size, n);
    } else {
      MultiplesOf8(h[p].size, n);
    }
    assert Before(h, p, x) && Before(h, x, p);
  }

  lemma SplitBefore(h: Heap, base: Addr, top: Addr, p: Addr, n: nat, u: Use, v: Use, x: Addr, y: Addr)
    requires Shape(h, base, top) && p in h && MINSIZE <= n <= h[p].size - MINSIZE
    ensures Before(Split(h, p, n, u, v), x, y)
  {
    CutInside(h, base, top, p, n);
    assert Before(h, x, y) && Before(h, p, y) && Before(h, x, p) && Before(h, p, x);
  }

  lemma SplitShape(h: Heap, base: Addr, top: Addr, p: Addr, n: nat, u: Use, v: Use)
    requires Shape(h, base, top) && p in h && MINSIZE <= n <= h[p].size - MINSIZE && n % 8 == 0
    requires !u.Top? && (v.Top? <==> p == top)
    ensures Shape(Split(h, p, n, u, v), base, if p == top then p + n else top)
  {
    hide Placed, Before;
    CutInside(h, base, top, p, n);
    var h', top' := Split(h, p, n, u, v), if p == top then p + n else top;
    forall x ensures Placed(h', base, top', x) {
      SplitPlaced(h, base, top, p, n, u, v, x);
    }
    forall x, y ensures Before(h', x, y) {
      SplitBefore(h, base, top, p, n, u, v, x, y);
    }
  }

  lemma JoinPlaced(h: Heap, base: Addr, top: Addr, p: Addr, u: Use, x: Addr)
    requires Shape(h, base, top) && p in h && p != top && Next(h, p) in h && (u.Top? <==> Next(h, p) == top)
    ensures Placed(Join(h, p, u), base, if Next(h, p) == top then p else top, x)
  {
    var q := Next(h, p);
    assert Placed(h, base, top, p) && Placed(h, base, top, q) && Placed(h, base, top, Next(h, q)) &&
      Placed(h, base, top, x);
    if q == top {
      MultiplesOf4(h[q].size, h[p].size);
    } else {
      MultiplesOf8(h[q].size, h[p].size);
    }
    assert Before(h, p, x) && Before(h, x, p) && Before(h, q, x) && Before(h, x, q);
  }

  lemma JoinBefore(h: Heap, base: Addr, top: Addr, p: Addr, u: Use, x: Addr, y: Addr)
    requires Shape(h, base, top) && p in h && p != top && Next(h, p) in h
    ensures Before(Join(h, p, u), x, y)
  {
    var q := Next(h, p);
    assert Placed(h, base, top, p) && Placed(h, base, top, q);
    assert Before(h, x, y) && Before(h, p, y) && Before(h, x, p) && Before(h, q, y);
  }

  lemma JoinShape(h: Heap, base: Addr, top: Addr, p: Addr, u: Use)
    requires Shape(h, base, top) && p in h && p != top && Next(h, p) in h
    requires u.Top? <==> Next(h, p) == top
    ensures Shape(Join(h, p, u), base, if Next(h, p) == top then p else top)
  {
    assert Placed(h, base, top, p) && Placed(h, base, top, Next(h, p)) && Placed(h, base, top, base);
    hide Placed, Before;
    var h', top' := Join(h, p, u), if Next(h, p) == top then p else top;
    forall x ensures Placed(h', base, top', x) {
      JoinPlaced(h, base, top, p, u, x);
    }
    forall x, y ensures Before(h', x, y) {
      JoinBefore(h, base, top, p, u, x, y);
    }
  }

  /** Top grows, or takes its place after the last chunk. */
  lemma GrowShape(h: Heap, base: Addr, top: Addr, size: nat)
    requires Shape(h, base, top) && size >= MINSIZE && size % 4 == 0
    ensures Shape(h[top := h[top].(size := size)], base, top)
  {
    var h' := h[top := h[top].(size := size)];
    forall x ensures Placed(h', base, top, x) {
      assert Placed(h, base, top, x) && Placed(h, base, top, top) && Before(h, x, top);
    }
    forall x, y ensures Before(h', x, y) {
      assert Before(h, x, y) && Placed(h, base, top, y);
    }
  }

  /** A heap of nothing but top. */
  lemma FirstShape(base: Addr, size: nat)
    requires base > 0 && base % 8 == 0 && size >= MINSIZE && size % 4 == 0
    ensures Shape(map[base := Chunk(size, 0, Top)], base, base) && AllCoalesced(map[base := Chunk(size, 0, Top)])
  {
  }

  // ---- coalescing

  lemma PrevInUse(h: Heap, base: Addr, top: Addr, p: Addr)
    requires Shape(h, base, top) && AllCoalesced(h) && p in h && p != base && !InUse(h[p].use)
    ensures p - h[p].before in h && InUse(h[p - h[p].before].use)
  {
    assert Placed(h, base, top, p);
    assert Placed(h, base, top, p - h[p].before) && Coalesced(h, p - h[p].before);
  }

  /** A chunk in use stays in use, or a free one is taken: nothing touches that did not. */
  lemma RetagCoalesced(h: Heap, p: Addr, u: Use)
    requires AllCoalesced(h) && p in h && InUse(u)
    ensures AllCoalesced(Retag(h, p, u))
  {
    forall x ensures Coalesced(Retag(h, p, u), x) {
      assert Coalesced(h, x);
    }
  }

  /** A chunk becomes free between two chunks in use. */
  lemma FreeCoalesced(h: Heap, base: Addr, top: Addr, p: Addr, i: nat)
    requires Shape(h, base, top) && AllCoalesced(h) && p in h && p != top
    requires !PrevFree(h, p) && Next(h, p) in h && InUse(h[Next(h, p)].use)
    ensures AllCoalesced(Retag(h, p, Free(i)))
  {
    forall x ensures Coalesced(Retag(h, p, Free(i)), x) {
      assert Coalesced(h, x) && Placed(h, base, top, x) && Placed(h, base, top, p);
    }
  }

  lemma SplitCoalesced(h: Heap, base: Addr, top: Addr, p: Addr, n: nat, v: Use)
    requires Shape(h, base, top) && AllCoalesced(h) && p in h && MINSIZE <= n <= h[p].size - MINSIZE && n % 8 == 0
    requires v.Free? ==> h[p].use.Free?
    ensures AllCoalesced(Split(h, p, n, Live, v))
  {
    var h', q := Split(h, p, n, Live, v), p + n;
    assert Placed(h, base, top, p) && Placed(h, base, top, Next(h, p)) && Coalesced(h, p);
    forall x ensures Coalesced(h', x) {
      assert Coalesced(h, x) && Placed(h, base, top, x);
      if x in h && x != p && Next(h, x) != p {
        assert Before(h, p, x) && Before(h, x, p);
      }
    }
  }

  lemma JoinCoalesced(h: Heap, base: Addr, top: Addr, p: Addr, u: Use)
    requires Shape(h, base, top) && AllCoalesced(h) && p in h && p != top && InUse(h[p].use)
    requires Next(h, p) in h && (InUse(u) || (u.Top? && !PrevFree(h, p)))
    ensures AllCoalesced(Join(h, p, u))
  {
    var h', q := Join(h, p, u), Next(h, p);
    assert Placed(h, base, top, p) && Placed(h, base, top, q);
    forall x ensures Coalesced(h', x) {
      assert Coalesced(h, x) && Placed(h, base, top, x);
      if x in h && x != p && x != q && Next(h, x) != p {
        assert Before(h, p, x) && Before(h, x, p) && Before(h, q, x) && Before(h, x, q);
      }
    }
  }

  // ---- tiling

  /** The chunks from p up to top, in address order. */
  ghost function ChunksFrom(h: Heap, base: Addr, top: Addr, p: Addr): (ps: seq<Addr>)
    requires Shape(h, base, top) && p in h
    ensures forall i :: 0 <= i < |ps| ==> ps[i] in h
    decreases top - p
  {
    assert Placed(h, base, top, p);
    if p == top then [p] else [p] + ChunksFrom(h, base, top, Next(h, p))
  }

  function TotalSize(h: Heap, ps: seq<Addr>): nat
    requires forall i :: 0 <= i < |ps| ==> ps[i] in h
  {
    if ps == [] then 0 else h[ps[0]].size + TotalSize(h, ps[1..])
  }

  /** The chunks tile the memory between the base and the end of top: laid end to end they are all the
      chunks there are, and their sizes add up to all the bytes there are. */
  lemma {:induction false} ChunksTile(h: Heap, base: Addr, top: Addr, p: Addr)
    requires Shape(h, base, top) && p in h
    ensures forall x :: x in ChunksFrom(h, base, top, p) <==> x in h && x >= p
    ensures TotalSize(h, ChunksFrom(h, base, top, p)) == Next(h, top) - p
    decreases top - p
  {
    var ps := ChunksFrom(h, base, top, p);
    assert Placed(h, base, top, p);
    if p == top {
      forall x | x in h && x >= p ensures x in ps {
        assert Placed(h, base, top, x);
      }
      assert ps[1..] == [];
    } else {
      ChunksTile(h, base, top, Next(h, p));
      assert ps[1..] == ChunksFrom(h, base, top, Next(h, p));
      forall x | x in h && x >= p ensures x in ps {
        assert Before(h, p, x);
      }
    }
  }
}
