/** What a user of malloc relies on, from the state that every call of malloc and free keeps. */
module MallocUser {
  import opened MallocSizes
  import opened MallocHeap
  import opened MallocArena

  /** No word belongs to two live chunks. */
  lemma PayloadsDisjoint(a: Arena, p: Addr, q: Addr, w: Addr)
    requires Good(a) && Payload(a.heap, p, w) && Payload(a.heap, q, w)
    ensures p == q
  {
    assert Before(a.heap, p, q) && Before(a.heap, q, p);
    assert Placed(a.heap, a.base, a.top, p) && Placed(a.heap, a.base, a.top, q);
  }

  /** The bytes asked for, from the pointer returned on, all belong to the chunk given. */
  lemma RequestIsOwned(a: Arena, r: Addr, bytes: nat, w: Addr)
    requires Good(a) && r - 8 in a.heap && a.heap[r - 8].use.Live? && a.heap[r - 8].size >= Request2Size(bytes)
    requires r <= w < r + bytes
    ensures Payload(a.heap, r - 8, w) && a.base < w < Next(a.heap, r - 8) + 4 <= Next(a.heap, a.top)
  {
    PaddedSize(bytes);
    assert Placed(a.heap, a.base, a.top, r - 8) && Placed(a.heap, a.base, a.top, a.top);
    assert Before(a.heap, r - 8, a.top);
  }

  /** Every byte between the base of the heap and its end belongs to exactly one chunk. */
  lemma {:induction false} ByteHasOwner(a: Arena, p: Addr, w: Addr) returns (o: Addr)
    requires Good(a) && p in a.heap && p <= w < Next(a.heap, a.top) && a.top in a.heap
    ensures o in a.heap && o <= w < Next(a.heap, o)
    ensures forall x :: x in a.heap && x <= w < Next(a.heap, x) ==> x == o
    decreases w - p
  {
    assert Placed(a.heap, a.base, a.top, p);
    if w < Next(a.heap, p) {
      o := p;
      forall x | x in a.heap && x <= w < Next(a.heap, x) ensures x == o {
        assert Before(a.heap, x, p) && Before(a.heap, p, x);
      }
    } else {
      o := ByteHasOwner(a, Next(a.heap, p), w);
    }
  }

  /** The sizes of all chunks, live, cached, free and top, add up to the memory that sbrk gave. */
  lemma MemoryIsConserved(a: Arena)
    requires Good(a)
    ensures a.base in a.heap && a.top in a.heap
    ensures TotalSize(a.heap, ChunksFrom(a.heap, a.base, a.top, a.base)) == Next(a.heap, a.top) - a.base
    ensures forall x :: x in ChunksFrom(a.heap, a.base, a.top, a.base) <==> x in a.heap
  {
    ChunksTile(a.heap, a.base, a.top, a.base);
    forall x | x in a.heap ensures x >= a.base {
      assert Placed(a.heap, a.base, a.top, x);
    }
  }

  /** No two free chunks touch, and none touches top. */
  lemma FreeChunksApart(a: Arena, p: Addr)
    requires Good(a) && p in a.heap && a.heap[p].use.Free?
    ensures Next(a.heap, p) in a.heap && InUse(a.heap[Next(a.heap, p)].use)
    ensures p != a.base ==> p - a.heap[p].before in a.heap && InUse(a.heap[p - a.heap[p].before].use)
  {
    assert Placed(a.heap, a.base, a.top, p) && Coalesced(a.heap, p);
    if p != a.base {
      PrevInUse(a.heap, a.base, a.top, p);
    }
  }
}
