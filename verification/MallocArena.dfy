/** How memory encodes the chunks: boundary tags, footers, and the links of bins and fastbins, all of them
    words inside the chunks they describe. */
module MallocArena {
  import opened Arith
  import opened Lists
  import opened MallocSizes
  import opened MallocHeap
  import Queue

  /** 32-bit words by address; memory starts out zero. */
  type Mem = map<Addr, int>

  function Word(m: Mem, a: Addr): int {
    if a in m then m[a] else 0
  }

  // ---- struct malloc_chunk

  function PrevSize(m: Mem, p: Addr): int {
    Word(m, p)
  }

  function SizeField(m: Mem, p: Addr): int {
    Word(m, p + 4)
  }

  function Fd(m: Mem, p: Addr): Addr {
    Word(m, p + 8)
  }

  function Bk(m: Mem, p: Addr): Addr {
    Word(m, p + 12)
  }

  /** chunksize: the size field without its two flag bits. */
  function ChunkSize(m: Mem, p: Addr): int {
    SizeField(m, p) - SizeField(m, p) % 4
  }

  predicate PrevInUseBit(m: Mem, p: Addr) {
    SizeField(m, p) % 2 == 1
  }

  // ---- boundary tags

  function Tag(h: Heap, p: Addr): int
    requires p in h
  {
    h[p].size + if PrevFree(h, p) then 0 else 1
  }

  /** The header of p holds its size and whether the chunk before it is in use; the footer of a free chunk
      holds its size. */
  predicate Tagged(m: Mem, h: Heap, p: Addr) {
    p in h ==> SizeField(m, p) == Tag(h, p) && (PrevFree(h, p) ==> PrevSize(m, p) == h[p].before)
  }

  ghost predicate AllTagged(m: Mem, h: Heap) {
    forall p {:trigger Tagged(m, h, p)} :: Tagged(m, h, p)
  }

  /** What the code reads from a header. */
  lemma ReadTag(m: Mem, h: Heap, base: Addr, top: Addr, p: Addr)
    requires Shape(h, base, top) && Tagged(m, h, p) && p in h
    ensures ChunkSize(m, p) == h[p].size && (PrevInUseBit(m, p) <==> !PrevFree(h, p))
    ensures PrevFree(h, p) ==> PrevSize(m, p) == h[p].before && p != base
  {
    assert Placed(h, base, top, p);
    FlagBits(SizeField(m, p), h[p].size, Tag(h, p) - h[p].size);
  }

  lemma FlagBits(w: int, size: nat, b: int)
    requires w == size + b && 0 <= b <= 1 && size % 4 == 0
    ensures w - w % 4 == size && (w % 2 == 1 <==> b == 1)
  {
    assert w % 4 == b;
  }

  // ---- lists

  /** The header of bin i, placed so that its links are the fd and bk fields of a chunk. */
  function BinAt(i: int): Addr {
    8 * i - 1024
  }

  predicate Linked(m: Mem, a: Addr, b: Addr) {
    Fd(m, a) == b && Bk(m, b) == a
  }

  /** q is a circular list through head, from first to last. */
  ghost predicate Ring(m: Mem, head: Addr, q: seq<Addr>) {
    && NoRepeats(q) && head !in q
    && forall k: nat {:trigger LinkedAt(m, head, q, k)} :: LinkedAt(m, head, q, k)
  }

  predicate LinkedAt(m: Mem, head: Addr, q: seq<Addr>, k: nat) {
    k <= |q| ==> Linked(m, Queue.Around(head, q, k), Queue.Around(head, q, k + 1))
  }

  /** q is a list linked through fd from head, ended by a null link. */
  predicate Chain(m: Mem, head: Addr, q: seq<Addr>)
    decreases |q|
  {
    if q == [] then head == 0 else head == q[0] && head != 0 && Chain(m, Fd(m, head), q[1..])
  }

  /** Everything the allocator keeps but the bin map, the flags and the break. */
  datatype Arena = Arena(
    mem: Mem,
    heap: Heap,
    base: Addr,
    top: Addr,
    bins: seq<seq<Addr>>,   // contents of the bins, from first to last; bin 1 is the unsorted list
    heads: seq<Addr>,       // the fastbins array
    fasts: seq<seq<Addr>>)  // contents of the fastbins

  predicate Sized(a: Arena) {
    |a.bins| == NBINS && |a.heads| == NFASTBINS && |a.fasts| == NFASTBINS
  }

  ghost predicate Rings(a: Arena)
    requires Sized(a)
  {
    forall i {:trigger a.bins[i]} :: 1 <= i < NBINS ==> Ring(a.mem, BinAt(i), a.bins[i])
  }

  ghost predicate Chains(a: Arena)
    requires Sized(a)
  {
    forall i {:trigger a.fasts[i]} ::
      0 <= i < NFASTBINS ==> Chain(a.mem, a.heads[i], a.fasts[i]) && NoRepeats(a.fasts[i])
  }

  /** Lists and uses agree. */
  ghost predicate Listed(a: Arena)
    requires Sized(a)
  {
    && (forall i, p :: 0 <= i < NBINS ==> (p in a.bins[i] <==> p in a.heap && a.heap[p].use == Free(i)))
    && (forall i, p :: 0 <= i < NFASTBINS ==> (p in a.fasts[i] <==> p in a.heap && a.heap[p].use == Fast(i)))
    && (forall p {:trigger a.heap[p]} :: p in a.heap ==> Filed(a.heap[p]))
  }

  /** A binned chunk is in the bin of its size; so is a chunk in a fastbin. */
  predicate Filed(c: Chunk) {
    match c.use
    case Free(i) => 1 <= i < NBINS && (i > 1 ==> BinIndex(c.size) == i)
    case Fast(i) => c.size == 8 * (i + 2) && c.size <= MAX_FAST
    case _ => true
  }

  /** Large bins are sorted, largest first. */
  ghost predicate Sorted(h: Heap, q: seq<Addr>) {
    forall j, k :: 0 <= j < k < |q| && q[j] in h && q[k] in h ==> h[q[j]].size >= h[q[k]].size
  }

  ghost predicate AllSorted(a: Arena)
    requires Sized(a)
  {
    forall i {:trigger a.bins[i]} :: NSMALLBINS <= i < NBINS ==> Sorted(a.heap, a.bins[i])
  }

  ghost predicate Good(a: Arena) {
    && Sized(a) && Shape(a.heap, a.base, a.top) && AllCoalesced(a.heap) && AllTagged(a.mem, a.heap)
    && Rings(a) && Chains(a) && Listed(a) && AllSorted(a)
  }

  // ---- what belongs to the user

  /** The word at address a is part of the live chunk q: all of the chunk past its header, and the word of
      the next header that would be its footer. */
  predicate Payload(h: Heap, q: Addr, a: Addr) {
    q in h && h[q].use.Live? && q + 8 <= a < Next(h, q) + 4
  }

  ghost predicate PayloadKept(h: Heap, m: Mem, m': Mem) {
    forall q, a {:trigger Payload(h, q, a)} :: Payload(h, q, a) ==> Word(m', a) == Word(m, a)
  }

  /** The same chunks are live, with the same sizes. */
  ghost predicate LiveKept(h: Heap, h': Heap) {
    forall q :: (q in h' && h'[q].use.Live? <==> q in h && h[q].use.Live?) &&
                (q in h && h[q].use.Live? ==> h'[q].size == h[q].size)
  }

  // ---- writes that leave things alone

  /** What owns links: a chunk, or the header of a bin. */
  predicate Node(h: Heap, n: Addr) {
    n in h || (BinAt(0) <= n <= BinAt(NBINS - 1) && n % 8 == 0)
  }

  predicate LinkSame(m: Mem, m': Mem, n: Addr) {
    Fd(m', n) == Fd(m, n) && Bk(m', n) == Bk(m, n)
  }

  predicate HeaderSame(m: Mem, m': Mem, p: Addr) {
    PrevSize(m', p) == PrevSize(m, p) && SizeField(m', p) == SizeField(m, p)
  }

  ghost predicate HeadersSame(h: Heap, m: Mem, m': Mem) {
    forall p {:trigger HeaderSame(m, m', p)} :: p in h ==> HeaderSame(m, m', p)
  }

  /** All nodes but those of a few keep their links. */
  ghost predicate LinksSame(h: Heap, m: Mem, m': Mem, but: set<Addr>) {
    forall n {:trigger LinkSame(m, m', n)} :: Node(h, n) && n !in but ==> LinkSame(m, m', n)
  }

  /** Two chunks, or a chunk and a bin header, are at least 16 bytes apart. */
  lemma NodesApart(h: Heap, base: Addr, top: Addr, p: Addr, n: Addr)
    requires Shape(h, base, top) && p in h && Node(h, n) && n != p
    ensures p % 8 == 0 && n % 8 == 0 && (n <= p - 16 || n >= p + 16)
  {
    assert Placed(h, base, top, p) && Placed(h, base, top, n) && Before(h, n, p) && Before(h, p, n);
  }

  /** A write to a link of a node that is not the user's. */
  lemma LinkWrite(h: Heap, base: Addr, top: Addr, m: Mem, n: Addr, w: Addr, v: int)
    requires Shape(h, base, top) && Node(h, n) && (w == n + 8 || w == n + 12)
    requires n in h ==> !h[n].use.Live?
    ensures HeadersSame(h, m, m[w := v]) && LinksSame(h, m, m[w := v], {n}) && PayloadKept(h, m, m[w := v])
  {
    var m' := m[w := v];
    forall p | p in h ensures HeaderSame(m, m', p) {
      if p != n {
        NodesApart(h, base, top, p, n);
      }
    }
    forall x | Node(h, x) && x != n ensures LinkSame(m, m', x) {
      assert Placed(h, base, top, x) && Placed(h, base, top, n);
    }
    forall q, a | Payload(h, q, a) ensures Word(m', a) == Word(m, a) {
      assert n != q;
      NodesApart(h, base, top, q, n);
      assert Placed(h, base, top, q) && Before(h, n, q) && Before(h, q, n);
    }
  }

  /** A write to the header of a chunk, or to the footer before it when that is not the user's. */
  lemma TagWrite(h: Heap, base: Addr, top: Addr, m: Mem, p: Addr, w: Addr, v: int)
    requires Shape(h, base, top) && p in h && (w == p + 4 || w == p)
    requires w == p ==> p != base && !(p - h[p].before in h && h[p - h[p].before].use.Live?)
    ensures LinksSame(h, m, m[w := v], {}) && PayloadKept(h, m, m[w := v])
    ensures forall x {:trigger HeaderSame(m, m[w := v], x)} :: x in h && x != p ==> HeaderSame(m, m[w := v], x)
  {
    var m' := m[w := v];
    assert Placed(h, base, top, p);
    forall x | Node(h, x) ensures LinkSame(m, m', x) {
      if x != p {
        NodesApart(h, base, top, p, x);
      }
    }
    forall x | x in h && x != p ensures HeaderSame(m, m', x) {
      NodesApart(h, base, top, p, x);
    }
    forall q, a | Payload(h, q, a) ensures Word(m', a) == Word(m, a) {
      assert Placed(h, base, top, q) && Before(h, p, q) && Before(h, q, p);
    }
  }

  lemma TagsKept(m: Mem, m': Mem, h: Heap)
    requires AllTagged(m, h) && HeadersSame(h, m, m')
    ensures AllTagged(m', h)
  {
    forall p ensures Tagged(m', h, p) {
      assert Tagged(m, h, p);
      assert p in h ==> HeaderSame(m, m', p);
    }
  }

  lemma RingKept(m: Mem, m': Mem, head: Addr, q: seq<Addr>)
    requires Ring(m, head, q) && LinkSame(m, m', head) &&
      forall x {:trigger LinkSame(m, m', x)} :: x in q ==> LinkSame(m, m', x)
    ensures Ring(m', head, q)
  {
    forall k: nat ensures LinkedAt(m', head, q, k) {
      assert LinkedAt(m, head, q, k);
      if k <= |q| {
        Queue.AroundIn(head, q, k);
        Queue.AroundIn(head, q, k + 1);
        assert LinkSame(m, m', Queue.Around(head, q, k)) && LinkSame(m, m', Queue.Around(head, q, k + 1));
      }
    }
  }

  lemma {:induction false} ChainKept(m: Mem, m': Mem, head: Addr, q: seq<Addr>)
    requires Chain(m, head, q) && forall x {:trigger Fd(m', x)} :: x in q ==> Fd(m', x) == Fd(m, x)
    ensures Chain(m', head, q)
    decreases |q|
  {
    if q != [] {
      assert Fd(m', q[0]) == Fd(m, q[0]);
      ChainKept(m, m', Fd(m, head), q[1..]);
    }
  }

  /** Lists none of whose nodes changed are untouched. */
  lemma ListsKept(a: Arena, m': Mem, but: set<Addr>, i: nat)
    requires Sized(a) && Shape(a.heap, a.base, a.top) && Rings(a) && Chains(a) && Listed(a)
    requires LinksSame(a.heap, a.mem, m', but)
    requires forall n :: n in but ==>
      (1 <= i < NBINS && (n == BinAt(i) || n in a.bins[i])) ||
      (n in a.heap && (a.heap[n].use.Limbo? || a.heap[n].use.Live?))
    ensures Chains(a.(mem := m'))
    ensures forall j {:trigger a.bins[j]} :: 1 <= j < NBINS && j != i ==> Ring(m', BinAt(j), a.bins[j])
  {
    forall j | 0 <= j < NFASTBINS ensures Chain(m', a.heads[j], a.fasts[j]) {
      assert Chain(a.mem, a.heads[j], a.fasts[j]);
      forall x | x in a.fasts[j] ensures Fd(m', x) == Fd(a.mem, x) {
        assert a.heap[x].use == Fast(j) && x !in but by { FastIsNot(a, but, i, x); }
        assert LinkSame(a.mem, m', x);
      }
      ChainKept(a.mem, m', a.heads[j], a.fasts[j]);
    }
    forall j | 1 <= j < NBINS && j != i ensures Ring(m', BinAt(j), a.bins[j]) {
      assert Ring(a.mem, BinAt(j), a.bins[j]);
      assert BinAt(j) !in but by { HeadIsNot(a, but, i, j); }
      assert LinkSame(a.mem, m', BinAt(j));
      forall x | x in a.bins[j] ensures LinkSame(a.mem, m', x) {
        assert x in a.heap && a.heap[x].use == Free(j);
        assert i < NBINS ==> x !in a.bins[i];
        assert x !in but by { assert Placed(a.heap, a.base, a.top, x); }
      }
      RingKept(a.mem, m', BinAt(j), a.bins[j]);
    }
  }

  lemma FastIsNot(a: Arena, but: set<Addr>, i: nat, x: Addr)
    requires Sized(a) && Shape(a.heap, a.base, a.top) && Listed(a) && x in a.heap && a.heap[x].use.Fast?
    requires forall n :: n in but ==>
      (1 <= i < NBINS && (n == BinAt(i) || n in a.bins[i])) ||
      (n in a.heap && (a.heap[n].use.Limbo? || a.heap[n].use.Live?))
    ensures x !in but
  {
    assert Placed(a.heap, a.base, a.top, x);
  }

  lemma HeadIsNot(a: Arena, but: set<Addr>, i: nat, j: nat)
    requires Sized(a) && Shape(a.heap, a.base, a.top) && Listed(a) && j < NBINS && j != i
    requires forall n :: n in but ==>
      (1 <= i < NBINS && (n == BinAt(i) || n in a.bins[i])) ||
      (n in a.heap && (a.heap[n].use.Limbo? || a.heap[n].use.Live?))
    ensures BinAt(j) !in but
  {
    assert Placed(a.heap, a.base, a.top, BinAt(j));
    assert i < NBINS && BinAt(j) in a.bins[i] ==> BinAt(j) in a.heap;
  }

  // ---- taking out of a list and putting in

  /** Only the forward link of b and the back link of f differ, as far as the nodes of a ring go. */
  ghost predicate Relinked(m: Mem, m': Mem, head: Addr, q: seq<Addr>, b: Addr, f: Addr) {
    && (forall x {:trigger Fd(m', x)} :: (x == head || x in q) && x != b ==> Fd(m', x) == Fd(m, x))
    && (forall x {:trigger Bk(m', x)} :: (x == head || x in q) && x != f ==> Bk(m', x) == Bk(m, x))
  }

  lemma RingRemove(m: Mem, m': Mem, head: Addr, q: seq<Addr>, k: nat)
    requires Ring(m, head, q) && k < |q|
    requires Linked(m', Queue.Around(head, q, k), Queue.Around(head, q, k + 2))
    requires Relinked(m, m', head, q, Queue.Around(head, q, k), Queue.Around(head, q, k + 2))
    ensures Ring(m', head, q[..k] + q[k + 1..])
  {
    var q' := q[..k] + q[k + 1..];
    forall i: nat ensures LinkedAt(m', head, q', i) {
      if i <= |q'| && i != k {
        var j := if i < k then i else i + 1;
        assert LinkedAt(m, head, q, j);
        SameStep(m, m', head, q, k, k + 2, j);
        assert Queue.Around(head, q', i) == Queue.Around(head, q, j);
        assert Queue.Around(head, q', i + 1) == Queue.Around(head, q, j + 1);
      }
    }
  }

  /** A step of the ring that does not start at position b or end at position f is kept. */
  lemma SameStep(m: Mem, m': Mem, head: Addr, q: seq<Addr>, b: nat, f: nat, j: nat)
    requires NoRepeats(q) && head !in q && b <= |q| && 1 <= f <= |q| + 1
    requires j <= |q| && j != b && j + 1 != f && LinkedAt(m, head, q, j)
    requires Relinked(m, m', head, q, Queue.Around(head, q, b), Queue.Around(head, q, f))
    ensures Linked(m', Queue.Around(head, q, j), Queue.Around(head, q, j + 1))
  {
    var x, y := Queue.Around(head, q, j), Queue.Around(head, q, j + 1);
    Queue.AroundIn(head, q, j);
    Queue.AroundIn(head, q, j + 1);
    assert x != Queue.Around(head, q, b) by {
      if j < b { Queue.AroundDistinct(head, q, j, b); } else { Queue.AroundDistinct(head, q, b, j); }
    }
    assert y != Queue.Around(head, q, f) by {
      if j + 1 < f { Queue.AroundDistinct'(head, q, j + 1, f); } else { Queue.AroundDistinct'(head, q, f, j + 1); }
    }
    assert Fd(m', x) == Fd(m, x) && Bk(m', y) == Bk(m, y);
  }

  lemma RingInsert(m: Mem, m': Mem, head: Addr, q: seq<Addr>, k: nat, p: Addr)
    requires Ring(m, head, q) && k <= |q| && p !in q && p != head
    requires Linked(m', Queue.Around(head, q, k), p) && Linked(m', p, Queue.Around(head, q, k + 1))
    requires Relinked(m, m', head, q, Queue.Around(head, q, k), Queue.Around(head, q, k + 1))
    ensures Ring(m', head, q[..k] + [p] + q[k..])
  {
    var q' := q[..k] + [p] + q[k..];
    forall i: nat ensures LinkedAt(m', head, q', i) {
      if i <= |q'| && i != k && i != k + 1 {
        var j := if i < k then i else i - 1;
        assert LinkedAt(m, head, q, j);
        SameStep(m, m', head, q, k, k + 1, j);
        assert Queue.Around(head, q', i) == Queue.Around(head, q, j);
        assert Queue.Around(head, q', i + 1) == Queue.Around(head, q, j + 1);
      }
    }
  }

  /** The state when p is taken out of position k of bin i: the two writes of unlink. */
  ghost function Unlinked(a: Arena, i: nat, k: nat): Arena
    requires Sized(a) && i < NBINS && k < |a.bins[i]| && a.bins[i][k] in a.heap
  {
    var q := a.bins[i];
    var b, f := Queue.Around(BinAt(i), q, k), Queue.Around(BinAt(i), q, k + 2);
    a.(mem := a.mem[f + 12 := b][b + 8 := f], heap := Retag(a.heap, q[k], Limbo),
      bins := a.bins[i := q[..k] + q[k + 1..]])
  }

  lemma UnlinkedIs(a: Arena, i: nat, k: nat)
    requires Sized(a) && i < NBINS && k < |a.bins[i]| && a.bins[i][k] in a.heap
    ensures var a1, q := Unlinked(a, i, k), a.bins[i];
      a1 == a.(mem := a1.mem, heap := Retag(a.heap, q[k], Limbo), bins := a.bins[i := q[..k] + q[k + 1..]])
  {
  }

  /** Everything but the boundary tags. */
  ghost predicate Core(a: Arena) {
    && Sized(a) && Shape(a.heap, a.base, a.top) && AllCoalesced(a.heap)
    && Rings(a) && Chains(a) && Listed(a) && AllSorted(a)
  }

  /** The nodes of a bin, its header among them, belong to the allocator. */
  lemma NodeOf(a: Arena, i: nat, k: nat)
    requires Sized(a) && Shape(a.heap, a.base, a.top) && Listed(a) && 1 <= i < NBINS && k <= |a.bins[i]| + 1
    ensures var n := Queue.Around(BinAt(i), a.bins[i], k);
      Node(a.heap, n) && n % 8 == 0 && (n in a.heap ==> !a.heap[n].use.Live?) && (n == BinAt(i) || n in a.bins[i])
  {
    var n := Queue.Around(BinAt(i), a.bins[i], k);
    Queue.AroundIn(BinAt(i), a.bins[i], k);
    assert Placed(a.heap, a.base, a.top, n);
  }

  /** Addresses of link words are distinct when the nodes are aligned. */
  lemma AlignedRelink(m: Mem, head: Addr, q: seq<Addr>, b: Addr, f: Addr)
    requires head % 8 == 0 && b % 8 == 0 && f % 8 == 0 && forall x :: x in q ==> x % 8 == 0
    ensures var m' := m[f + 12 := b][b + 8 := f]; Relinked(m, m', head, q, b, f) && Linked(m', b, f)
  {
  }

  lemma BinAligned(a: Arena, i: nat)
    requires Sized(a) && Shape(a.heap, a.base, a.top) && Listed(a) && i < NBINS
    ensures forall x :: x in a.bins[i] ==> x % 8 == 0 && x in a.heap && a.heap[x].use == Free(i)
    ensures BinAt(i) % 8 == 0 && BinAt(i) !in a.heap
  {
    forall x | x in a.bins[i] ensures x % 8 == 0 && x in a.heap && a.heap[x].use == Free(i) {
      assert Placed(a.heap, a.base, a.top, x);
    }
    assert Placed(a.heap, a.base, a.top, BinAt(i));
  }

  /** The writes of unlink touch only the links of two neighbours in the bin. */
  lemma UnlinkWrites(a: Arena, i: nat, k: nat)
    requires Core(a) && 1 <= i < NBINS && k < |a.bins[i]| && a.bins[i][k] in a.heap
    ensures var a' := Unlinked(a, i, k);
      HeadersSame(a.heap, a.mem, a'.mem) && PayloadKept(a.heap, a.mem, a'.mem) &&
      LinksSame(a.heap, a.mem, a'.mem, {Queue.Around(BinAt(i), a.bins[i], k), Queue.Around(BinAt(i), a.bins[i], k + 2)})
  {
    hide Listed, Rings, Chains, AllSorted, AllCoalesced, Shape, LinksSame, HeadersSame, PayloadKept;
    var b, f := Queue.Around(BinAt(i), a.bins[i], k), Queue.Around(BinAt(i), a.bins[i], k + 2);
    NodeOf(a, i, k);
    NodeOf(a, i, k + 2);
    LinkWrite(a.heap, a.base, a.top, a.mem, f, f + 12, b);
    var m1 := a.mem[f + 12 := b];
    LinkWrite(a.heap, a.base, a.top, m1, b, b + 8, f);
    ThroughWrites(a.heap, a.mem, m1, m1[b + 8 := f], {f}, {b});
    assert {f} + {b} == {b, f};
  }

  lemma ThroughWrites(h: Heap, m: Mem, m1: Mem, m2: Mem, s: set<Addr>, t: set<Addr>)
    requires HeadersSame(h, m, m1) && LinksSame(h, m, m1, s) && PayloadKept(h, m, m1)
    requires HeadersSame(h, m1, m2) && LinksSame(h, m1, m2, t) && PayloadKept(h, m1, m2)
    ensures HeadersSame(h, m, m2) && LinksSame(h, m, m2, s + t) && PayloadKept(h, m, m2)
  {
    forall p | p in h ensures HeaderSame(m, m2, p) {
      assert HeaderSame(m, m1, p) && HeaderSame(m1, m2, p);
    }
    forall n | Node(h, n) && n !in s + t ensures LinkSame(m, m2, n) {
      assert LinkSame(m, m1, n) && LinkSame(m1, m2, n);
    }
  }

  lemma UnlinkRings(a: Arena, i: nat, k: nat)
    requires Core(a) && 1 <= i < NBINS && k < |a.bins[i]| && a.bins[i][k] in a.heap
    ensures Rings(Unlinked(a, i, k)) && Chains(Unlinked(a, i, k))
  {
    var a', q := Unlinked(a, i, k), a.bins[i];
    var b, f := Queue.Around(BinAt(i), q, k), Queue.Around(BinAt(i), q, k + 2);
    UnlinkWrites(a, i, k);
    NodeOf(a, i, k);
    NodeOf(a, i, k + 2);
    ListsKept(a, a'.mem, {b, f}, i);
    BinAligned(a, i);
    AlignedRelink(a.mem, BinAt(i), q, b, f);
    assert Ring(a.mem, BinAt(i), q);
    RingRemove(a.mem, a'.mem, BinAt(i), q, k);
    assert forall j {:trigger a'.bins[j]} :: 1 <= j < NBINS && j != i ==> a'.bins[j] == a.bins[j];
  }

  /** Membership after one element moved. */
  lemma UnlinkListed(a: Arena, i: nat, k: nat)
    requires Core(a) && 1 <= i < NBINS && k < |a.bins[i]| && a.bins[i][k] in a.heap
    ensures Listed(Unlinked(a, i, k))
  {
    var a', q := Unlinked(a, i, k), a.bins[i];
    assert Ring(a.mem, BinAt(i), q);
    RemoveAt(q, k);
    RemoveMembers(q, q[k]);
    assert q[k] in q;
    forall j, p | 0 <= j < NBINS ensures p in a'.bins[j] <==> p in a'.heap && a'.heap[p].use == Free(j) {
      assert p in a.bins[j] <==> p in a.heap && a.heap[p].use == Free(j);
      assert q[k] in a.bins[j] <==> a.heap[q[k]].use == Free(j);
    }
    forall j, p | 0 <= j < NFASTBINS ensures p in a'.fasts[j] <==> p in a'.heap && a'.heap[p].use == Fast(j) {
      assert p in a.fasts[j] <==> p in a.heap && a.heap[p].use == Fast(j);
    }
  }

  /** Retagging keeps sizes, so lists that lose elements stay sorted. */
  predicate SizeSame(h: Heap, h': Heap, p: Addr) {
    p in h && p in h' && h'[p].size == h[p].size
  }

  lemma SortedKept(h: Heap, h': Heap, q: seq<Addr>)
    requires Sorted(h, q) && forall x {:trigger SizeSame(h, h', x)} :: x in q ==> SizeSame(h, h', x)
    ensures Sorted(h', q)
  {
    forall j, k | 0 <= j < k < |q| && q[j] in h' && q[k] in h' ensures h'[q[j]].size >= h'[q[k]].size {
      assert q[j] in q && q[k] in q;
      assert SizeSame(h, h', q[j]) && SizeSame(h, h', q[k]);
    }
  }

  lemma UnlinkSorted(a: Arena, i: nat, k: nat)
    requires Core(a) && 1 <= i < NBINS && k < |a.bins[i]| && a.bins[i][k] in a.heap
    ensures AllSorted(Unlinked(a, i, k))
  {
    var a', q := Unlinked(a, i, k), a.bins[i];
    forall j | NSMALLBINS <= j < NBINS ensures Sorted(a'.heap, a'.bins[j]) {
      assert Sorted(a.heap, a.bins[j]);
      forall x | x in a.bins[j] ensures SizeSame(a.heap, a'.heap, x) {
        assert x in a.heap && a.heap[x].use == Free(j);
      }
      SortedKept(a.heap, a'.heap, a.bins[j]);
      if j == i {
        SortedCut(a'.heap, q, k);
      }
    }
  }

  lemma SortedCut(h: Heap, q: seq<Addr>, k: nat)
    requires Sorted(h, q) && k < |q|
    ensures Sorted(h, q[..k] + q[k + 1..])
  {
    var q' := q[..k] + q[k + 1..];
    forall i, j | 0 <= i < j < |q'| && q'[i] in h && q'[j] in h ensures h[q'[i]].size >= h[q'[j]].size {
      assert q'[i] == q[if i < k then i else i + 1] && q'[j] == q[if j < k then j else j + 1];
    }
  }

  /** unlink: a free chunk leaves its bin for the hands of the allocator. */
  lemma UnlinkKeeps(a: Arena, i: nat, k: nat)
    requires Core(a) && 1 <= i < NBINS && k < |a.bins[i]|
    ensures a.bins[i][k] in a.heap && a.heap[a.bins[i][k]].use == Free(i)
    ensures Core(Unlinked(a, i, k)) && HeadersSame(a.heap, a.mem, Unlinked(a, i, k).mem)
    ensures PayloadKept(a.heap, a.mem, Unlinked(a, i, k).mem)
  {
    hide Rings, Chains, Listed, AllSorted, AllCoalesced, Shape;
    var p := a.bins[i][k];
    assert p in a.heap && a.heap[p].use == Free(i) && p != a.top by { InBin(a, i, p); }
    UnlinkWrites(a, i, k);
    UnlinkRings(a, i, k);
    UnlinkListed(a, i, k);
    UnlinkSorted(a, i, k);
    RetagShape(a.heap, a.base, a.top, p, Limbo);
    RetagCoalesced(a.heap, p, Limbo);
  }

  lemma InBin(a: Arena, i: nat, p: Addr)
    requires Core(a) && i < NBINS && p in a.bins[i]
    ensures p in a.heap && a.heap[p].use == Free(i) && p != a.top && Filed(a.heap[p])
  {
    assert Placed(a.heap, a.base, a.top, p);
  }

  /** The four writes that put p between b and f. */
  function Spliced(m: Mem, p: Addr, b: Addr, f: Addr): Mem {
    m[p + 12 := b][p + 8 := f][f + 12 := p][b + 8 := p]
  }

  /** The state when p, in the hands of the allocator, is put at position k of bin i. */
  ghost function Inserted(a: Arena, i: nat, k: nat, p: Addr): Arena
    requires Sized(a) && i < NBINS && k <= |a.bins[i]| && p in a.heap
  {
    var q := a.bins[i];
    a.(mem := Spliced(a.mem, p, Queue.Around(BinAt(i), q, k), Queue.Around(BinAt(i), q, k + 1)),
       heap := Retag(a.heap, p, Free(i)), bins := a.bins[i := q[..k] + [p] + q[k..]])
  }

  ghost predicate MayInsert(a: Arena, i: nat, k: nat, p: Addr) {
    Core(a) && 1 <= i < NBINS && k <= |a.bins[i]| && p in a.heap && a.heap[p].use.Limbo?
  }

  lemma InsertWrites(a: Arena, i: nat, k: nat, p: Addr)
    requires MayInsert(a, i, k, p)
    ensures var m, m' := a.mem, Inserted(a, i, k, p).mem;
      var b, f := Queue.Around(BinAt(i), a.bins[i], k), Queue.Around(BinAt(i), a.bins[i], k + 1);
      HeadersSame(a.heap, m, m') && PayloadKept(a.heap, m, m') && LinksSame(a.heap, m, m', {p, b, f})
  {
    hide Listed, Rings, Chains, AllSorted, AllCoalesced, Shape, LinksSame, HeadersSame, PayloadKept;
    var b, f := Queue.Around(BinAt(i), a.bins[i], k), Queue.Around(BinAt(i), a.bins[i], k + 1);
    NodeOf(a, i, k);
    NodeOf(a, i, k + 1);
    var m1 := a.mem[p + 12 := b];
    var m2 := m1[p + 8 := f];
    var m3 := m2[f + 12 := p];
    var m4 := m3[b + 8 := p];
    LinkWrite(a.heap, a.base, a.top, a.mem, p, p + 12, b);
    LinkWrite(a.heap, a.base, a.top, m1, p, p + 8, f);
    LinkWrite(a.heap, a.base, a.top, m2, f, f + 12, p);
    LinkWrite(a.heap, a.base, a.top, m3, b, b + 8, p);
    ThroughWrites(a.heap, a.mem, m1, m2, {p}, {p});
    ThroughWrites(a.heap, a.mem, m2, m3, {p} + {p}, {f});
    ThroughWrites(a.heap, a.mem, m3, m4, {p} + {p} + {f}, {b});
    assert {p} + {p} + {f} + {b} == {p, b, f};
  }

  lemma AlignedSplice(m: Mem, head: Addr, q: seq<Addr>, p: Addr, b: Addr, f: Addr)
    requires head % 8 == 0 && b % 8 == 0 && f % 8 == 0 && p % 8 == 0 && forall x :: x in q ==> x % 8 == 0
    requires p != head && p !in q && (b == head || b in q) && (f == head || f in q)
    ensures Relinked(m, Spliced(m, p, b, f), head, q, b, f)
    ensures Linked(Spliced(m, p, b, f), b, p) && Linked(Spliced(m, p, b, f), p, f)
  {
    Fields(p, b);
    Fields(p, f);
    forall x | x == head || x in q
      ensures x != b ==> Fd(Spliced(m, p, b, f), x) == Fd(m, x)
      ensures x != f ==> Bk(Spliced(m, p, b, f), x) == Bk(m, x)
    {
      Fields(x, p);
      Fields(x, b);
      Fields(x, f);
    }
  }

  /** The fd and bk fields of aligned chunks never coincide. */
  lemma Fields(x: Addr, y: Addr)
    requires x % 8 == 0 && y % 8 == 0
    ensures x + 8 != y + 12 && x + 12 != y + 8
  {
    var i, j := x / 8, y / 8;
    assert x == 8 * i && y == 8 * j;
  }

  lemma InsertRings(a: Arena, i: nat, k: nat, p: Addr)
    requires MayInsert(a, i, k, p)
    ensures Rings(Inserted(a, i, k, p)) && Chains(Inserted(a, i, k, p))
  {
    var a', q := Inserted(a, i, k, p), a.bins[i];
    var b, f := Queue.Around(BinAt(i), q, k), Queue.Around(BinAt(i), q, k + 1);
    InsertWrites(a, i, k, p);
    NodeOf(a, i, k);
    NodeOf(a, i, k + 1);
    ListsKept(a, a'.mem, {p, b, f}, i);
    BinAligned(a, i);
    assert Placed(a.heap, a.base, a.top, p);
    AlignedSplice(a.mem, BinAt(i), q, p, b, f);
    assert Ring(a.mem, BinAt(i), q);
    RingInsert(a.mem, a'.mem, BinAt(i), q, k, p);
    NoRepeatsInsert(q, k, p);
    assert forall j {:trigger a'.bins[j]} :: 1 <= j < NBINS && j != i ==> a'.bins[j] == a.bins[j];
  }

  lemma NoRepeatsInsert(q: seq<Addr>, k: nat, p: Addr)
    requires NoRepeats(q) && k <= |q| && p !in q
    ensures NoRepeats(q[..k] + [p] + q[k..])
    ensures forall x :: x in q[..k] + [p] + q[k..] <==> x in q || x == p
  {
    assert q == q[..k] + q[k..];
  }

  lemma InsertListed(a: Arena, i: nat, k: nat, p: Addr)
    requires MayInsert(a, i, k, p) && Filed(a.heap[p].(use := Free(i)))
    ensures Listed(Inserted(a, i, k, p))
  {
    var a', q := Inserted(a, i, k, p), a.bins[i];
    assert Ring(a.mem, BinAt(i), q);
    assert p !in q;
    NoRepeatsInsert(q, k, p);
    forall j, x | 0 <= j < NBINS ensures x in a'.bins[j] <==> x in a'.heap && a'.heap[x].use == Free(j) {
      assert x in a.bins[j] <==> x in a.heap && a.heap[x].use == Free(j);
    }
    forall j, x | 0 <= j < NFASTBINS ensures x in a'.fasts[j] <==> x in a'.heap && a'.heap[x].use == Fast(j) {
      assert x in a.fasts[j] <==> x in a.heap && a.heap[x].use == Fast(j);
    }
  }

  /** p has its place in a sorted list. */
  predicate Fits(h: Heap, q: seq<Addr>, k: nat, p: Addr) {
    p in h && k <= |q| &&
    (forall j :: 0 <= j < k && q[j] in h ==> h[q[j]].size >= h[p].size) &&
    (forall j :: k <= j < |q| && q[j] in h ==> h[p].size >= h[q[j]].size)
  }

  lemma InsertSorted(a: Arena, i: nat, k: nat, p: Addr)
    requires MayInsert(a, i, k, p) && (i >= NSMALLBINS ==> Fits(a.heap, a.bins[i], k, p))
    ensures AllSorted(Inserted(a, i, k, p))
  {
    var a', q := Inserted(a, i, k, p), a.bins[i];
    forall j | NSMALLBINS <= j < NBINS ensures Sorted(a'.heap, a'.bins[j]) {
      assert Sorted(a.heap, a.bins[j]);
      if j == i {
        SortedPlace(a.heap, a'.heap, q, k, p);
      } else {
        forall x | x in a.bins[j] ensures SizeSame(a.heap, a'.heap, x) {
          assert x in a.heap && a.heap[x].use == Free(j);
        }
        SortedKept(a.heap, a'.heap, a.bins[j]);
      }
    }
  }

  lemma SortedPlace(h: Heap, h': Heap, q: seq<Addr>, k: nat, p: Addr)
    requires Sorted(h, q) && Fits(h, q, k, p) && h'.Keys == h.Keys
    requires forall x {:trigger h'[x]} :: x in h ==> h'[x].size == h[x].size
    ensures Sorted(h', q[..k] + [p] + q[k..])
  {
    var q' := q[..k] + [p] + q[k..];
    forall i, j | 0 <= i < j < |q'| && q'[i] in h' && q'[j] in h' ensures h'[q'[i]].size >= h'[q'[j]].size {
      assert i < k ==> q'[i] == q[i];
      assert j < k ==> q'[j] == q[j];
      assert i > k ==> q'[i] == q[i - 1];
      assert j > k ==> q'[j] == q[j - 1];
      assert q'[k] == p;
      assert q'[i] in h && q'[j] in h;
    }
  }

  /** A chunk in the hands of the allocator goes into a bin. */
  lemma InsertKeeps(a: Arena, i: nat, k: nat, p: Addr)
    requires MayInsert(a, i, k, p) && Filed(a.heap[p].(use := Free(i)))
    requires i >= NSMALLBINS ==> Fits(a.heap, a.bins[i], k, p)
    requires !PrevFree(a.heap, p) && Next(a.heap, p) in a.heap && InUse(a.heap[Next(a.heap, p)].use)
    ensures Core(Inserted(a, i, k, p)) && HeadersSame(a.heap, a.mem, Inserted(a, i, k, p).mem)
    ensures PayloadKept(a.heap, a.mem, Inserted(a, i, k, p).mem)
  {
    hide Rings, Chains, Listed, AllSorted, AllCoalesced;
    assert p != a.top by { assert Placed(a.heap, a.base, a.top, p); }
    hide Shape;
    InsertWrites(a, i, k, p);
    InsertRings(a, i, k, p);
    InsertListed(a, i, k, p);
    InsertSorted(a, i, k, p);
    RetagShape(a.heap, a.base, a.top, p, Free(i));
    FreeCoalesced(a.heap, a.base, a.top, p, i);
  }

  // ---- tags while chunks change

  ghost predicate TaggedBut(m: Mem, h: Heap, s: set<Addr>) {
    forall p {:trigger Tagged(m, h, p)} :: p !in s ==> Tagged(m, h, p)
  }

  lemma HeadersTagged(m: Mem, m': Mem, h: Heap, s: set<Addr>)
    requires TaggedBut(m, h, s) && HeadersSame(h, m, m')
    ensures TaggedBut(m', h, s)
  {
    forall p | p !in s ensures Tagged(m', h, p) {
      assert Tagged(m, h, p);
      assert p in h ==> HeaderSame(m, m', p);
    }
  }

  /** A change of use shows in the tag of the next chunk only. */
  lemma RetagTags(m: Mem, h: Heap, base: Addr, top: Addr, p: Addr, u: Use, s: set<Addr>)
    requires Shape(h, base, top) && p in h && TaggedBut(m, h, s)
    ensures TaggedBut(m, Retag(h, p, u), if u.Free? == h[p].use.Free? then s else s + {Next(h, p)})
  {
    var h' := Retag(h, p, u);
    forall x | x !in s && (u.Free? == h[p].use.Free? || x != Next(h, p)) ensures Tagged(m, h', x) {
      assert Tagged(m, h, x) && Placed(h, base, top, x);
    }
  }

  lemma JoinTags(m: Mem, h: Heap, base: Addr, top: Addr, p: Addr, u: Use, s: set<Addr>)
    requires Shape(h, base, top) && p in h && p != top && Next(h, p) in h && TaggedBut(m, h, s)
    requires !h[p].use.Free? && !h[Next(h, p)].use.Free? && !u.Free?
    ensures TaggedBut(m, Join(h, p, u), s + {p})
  {
    var h', q := Join(h, p, u), Next(h, p);
    forall x | x !in s + {p} ensures Tagged(m, h', x) {
      assert Tagged(m, h, x) && Placed(h, base, top, x) && Placed(h, base, top, p) && Placed(h, base, top, q);
    }
  }

  lemma SplitTags(m: Mem, h: Heap, base: Addr, top: Addr, p: Addr, n: nat, u: Use, v: Use, s: set<Addr>)
    requires Shape(h, base, top) && p in h && MINSIZE <= n <= h[p].size - MINSIZE && n % 8 == 0
    requires TaggedBut(m, h, s) && !h[p].use.Free? && !u.Free? && !v.Free?
    ensures TaggedBut(m, Split(h, p, n, u, v), s + {p, p + n})
  {
    var h' := Split(h, p, n, u, v);
    forall x | x !in s + {p, p + n} ensures Tagged(m, h', x) {
      assert Tagged(m, h, x) && Placed(h, base, top, x) && Placed(h, base, top, p);
      assert Before(h, p, x) && Before(h, p, p + n);
    }
  }

  /** Writing the header of a chunk that follows one in use. */
  lemma HeadWrite(m: Mem, h: Heap, base: Addr, top: Addr, p: Addr, s: set<Addr>)
    requires Shape(h, base, top) && p in h && !PrevFree(h, p) && TaggedBut(m, h, s)
    ensures TaggedBut(m[p + 4 := h[p].size + 1], h, s - {p})
    ensures PayloadKept(h, m, m[p + 4 := h[p].size + 1]) && LinksSame(h, m, m[p + 4 := h[p].size + 1], {})
  {
    var m' := m[p + 4 := h[p].size + 1];
    TagWrite(h, base, top, m, p, p + 4, h[p].size + 1);
    forall x | x !in s - {p} ensures Tagged(m', h, x) {
      if x != p {
        assert Tagged(m, h, x);
        assert x in h ==> HeaderSame(m, m', x);
      }
    }
  }

  /** Writing the footer of a free chunk, when the header after it already says so. */
  lemma FootWrite(m: Mem, h: Heap, base: Addr, top: Addr, e: Addr, s: set<Addr>)
    requires Shape(h, base, top) && e in h && PrevFree(h, e) && TaggedBut(m, h, s) && SizeField(m, e) == h[e].size
    ensures TaggedBut(m[e := h[e].before], h, s - {e})
    ensures PayloadKept(h, m, m[e := h[e].before]) && LinksSame(h, m, m[e := h[e].before], {})
  {
    var m' := m[e := h[e].before];
    assert Placed(h, base, top, e);
    TagWrite(h, base, top, m, e, e, h[e].before);
    forall x | x !in s - {e} ensures Tagged(m', h, x) {
      if x != e {
        assert Tagged(m, h, x);
        assert x in h ==> HeaderSame(m, m', x);
      }
    }
  }

  lemma LinksSameLists(a: Arena, m': Mem)
    requires Core(a) && LinksSame(a.heap, a.mem, m', {})
    ensures Core(a.(mem := m'))
  {
    ListsKept(a, m', {}, NBINS);
  }

  // ---- changes of chunks that touch no list

  lemma JoinCore(a: Arena, p: Addr, u: Use)
    requires Core(a) && p in a.heap && a.heap[p].use.Limbo? && Next(a.heap, p) in a.heap
    requires if u.Top? then Next(a.heap, p) == a.top && !PrevFree(a.heap, p)
             else u.Limbo? && a.heap[Next(a.heap, p)].use.Limbo?
    ensures Core(a.(heap := Join(a.heap, p, u), top := if u.Top? then p else a.top))
  {
    var q := Next(a.heap, p);
    assert Placed(a.heap, a.base, a.top, p) && Placed(a.heap, a.base, a.top, q);
    JoinShape(a.heap, a.base, a.top, p, u);
    JoinCoalesced(a.heap, a.base, a.top, p, u);
    var a' := a.(heap := Join(a.heap, p, u), top := if u.Top? then p else a.top);
    assert Loose(a.heap, p) && Loose(a'.heap, p) && Loose(a.heap, q) && Loose(a'.heap, q);
    SameFiles(a, a', {p, q});
  }

  lemma SplitCore(a: Arena, p: Addr, n: nat)
    requires Core(a) && p in a.heap && MINSIZE <= n <= a.heap[p].size - MINSIZE && n % 8 == 0
    requires a.heap[p].use.Limbo? || p == a.top
    ensures var v := if p == a.top then Top else Limbo;
      Core(a.(heap := Split(a.heap, p, n, Live, v), top := if p == a.top then p + n else a.top))
  {
    var v := if p == a.top then Top else Limbo;
    assert Placed(a.heap, a.base, a.top, p);
    SplitShape(a.heap, a.base, a.top, p, n, Live, v);
    SplitCoalesced(a.heap, a.base, a.top, p, n, v);
    assert p + n !in a.heap by { assert Before(a.heap, p, p + n); }
    var a' := a.(heap := Split(a.heap, p, n, Live, v), top := if p == a.top then p + n else a.top);
    assert Loose(a.heap, p) && Loose(a'.heap, p) && Loose(a.heap, p + n) && Loose(a'.heap, p + n);
    SameFiles(a, a', {p, p + n});
  }

  lemma RetagCore(a: Arena, p: Addr, u: Use)
    requires Core(a) && p in a.heap && (a.heap[p].use.Limbo? || a.heap[p].use.Live?) && (u.Live? || u.Limbo?)
    ensures Core(a.(heap := Retag(a.heap, p, u)))
  {
    var a' := a.(heap := Retag(a.heap, p, u));
    assert p != a.top by { assert Placed(a.heap, a.base, a.top, p); }
    RetagShape(a.heap, a.base, a.top, p, u);
    RetagCoalesced(a.heap, p, u);
    assert Loose(a.heap, p) && Loose(a'.heap, p);
    SameFiles(a, a', {p});
  }

  /** A chunk in no list. */
  predicate Loose(h: Heap, p: Addr) {
    p in h ==> h[p].use.Live? || h[p].use.Limbo? || h[p].use.Top?
  }

  /** Outside s the chunks have the same size and use, and nothing in s is in a list. */
  lemma SameFiles(a: Arena, a': Arena, s: set<Addr>)
    requires Core(a) && a' == a.(heap := a'.heap, top := a'.top)
    requires forall p {:trigger Loose(a.heap, p)} :: p in s ==> Loose(a.heap, p) && Loose(a'.heap, p)
    requires forall p :: p !in s ==> (p in a'.heap <==> p in a.heap)
    requires forall p ::
      p !in s && p in a.heap && p in a'.heap ==> a'.heap[p].size == a.heap[p].size && a'.heap[p].use == a.heap[p].use
    ensures Listed(a') && AllSorted(a') && Rings(a') && Chains(a')
  {
    forall j, p | 0 <= j < NBINS ensures p in a'.bins[j] <==> p in a'.heap && a'.heap[p].use == Free(j) {
      assert p in a.bins[j] <==> p in a.heap && a.heap[p].use == Free(j);
      assert p in s ==> Loose(a.heap, p);
    }
    forall j, p | 0 <= j < NFASTBINS ensures p in a'.fasts[j] <==> p in a'.heap && a'.heap[p].use == Fast(j) {
      assert p in a.fasts[j] <==> p in a.heap && a.heap[p].use == Fast(j);
      assert p in s ==> Loose(a.heap, p);
    }
    forall p | p in a'.heap ensures Filed(a'.heap[p]) {
      assert p in s ==> Loose(a.heap, p);
      assert p in a.heap ==> Filed(a.heap[p]);
    }
    forall j | NSMALLBINS <= j < NBINS ensures Sorted(a'.heap, a'.bins[j]) {
      assert Sorted(a.heap, a.bins[j]);
      forall x | x in a.bins[j] ensures SizeSame(a.heap, a'.heap, x) {
        assert x in a.heap && a.heap[x].use == Free(j);
        assert x in s ==> Loose(a.heap, x);
      }
      SortedKept(a.heap, a'.heap, a.bins[j]);
    }
    assert forall j {:trigger a'.bins[j]} :: 1 <= j < NBINS ==> Ring(a.mem, BinAt(j), a.bins[j]);
  }

  // ---- what else each change leaves alone

  /** Chunks in the hands of the allocator, other than p, keep their forward link. */
  ghost predicate LimboLinks(h: Heap, m: Mem, m': Mem, p: Addr) {
    forall x {:trigger Fd(m', x)} :: x in h && h[x].use.Limbo? && x != p ==> Fd(m', x) == Fd(m, x)
  }

  lemma UnlinkLimbo(a: Arena, i: nat, k: nat, p: Addr)
    requires Core(a) && 1 <= i < NBINS && k < |a.bins[i]| && a.bins[i][k] in a.heap
    ensures LimboLinks(a.heap, a.mem, Unlinked(a, i, k).mem, p)
  {
    var a' := Unlinked(a, i, k);
    UnlinkWrites(a, i, k);
    NodeOf(a, i, k);
    NodeOf(a, i, k + 2);
    BinAligned(a, i);
    forall x | x in a.heap && a.heap[x].use.Limbo? ensures Fd(a'.mem, x) == Fd(a.mem, x) {
      assert LinkSame(a.mem, a'.mem, x);
    }
  }

  lemma InsertLimbo(a: Arena, i: nat, k: nat, p: Addr)
    requires MayInsert(a, i, k, p)
    ensures LimboLinks(a.heap, a.mem, Inserted(a, i, k, p).mem, p)
  {
    var a' := Inserted(a, i, k, p);
    InsertWrites(a, i, k, p);
    NodeOf(a, i, k);
    NodeOf(a, i, k + 1);
    BinAligned(a, i);
    forall x | x in a.heap && a.heap[x].use.Limbo? && x != p ensures Fd(a'.mem, x) == Fd(a.mem, x) {
      assert LinkSame(a.mem, a'.mem, x);
    }
  }

  /** Limbo chunks of h other than p are Limbo chunks of h'. */
  ghost predicate LimboKept(h: Heap, h': Heap, p: Addr) {
    forall x {:trigger LimboSame(h, h', x)} :: x != p ==> LimboSame(h, h', x)
  }

  predicate LimboSame(h: Heap, h': Heap, x: Addr) {
    x in h && h[x].use.Limbo? ==> x in h' && h'[x].use.Limbo? && h'[x].size == h[x].size
  }

  /** Sorted bins only lost chunks. */
  ghost predicate Fewer(bins: seq<seq<Addr>>, bins': seq<seq<Addr>>) {
    |bins'| == |bins| && forall i {:trigger bins'[i]} :: 2 <= i < |bins| && bins[i] == [] ==> bins'[i] == []
  }

  // ---- coalescing, as free and malloc_consolidate do it

  /** What merging a chunk p with its neighbours leaves alone. */
  ghost predicate Apart(a: Arena, a': Arena, p: Addr) {
    && LiveKept(a.heap, a'.heap) && PayloadKept(a.heap, a.mem, a'.mem)
    && LimboKept(a.heap, a'.heap, p) && LimboLinks(a.heap, a.mem, a'.mem, p) && Fewer(a.bins, a'.bins)
    && a'.base == a.base && a'.heads == a.heads && a'.fasts == a.fasts
    && a.top in a.heap && a'.top in a'.heap && Next(a'.heap, a'.top) == Next(a.heap, a.top)
  }

  /** p is in the hands of the allocator, and its header may be stale. */
  ghost predicate Held(a: Arena, p: Addr, stale: set<Addr>) {
    Core(a) && p in a.heap && a.heap[p].use.Limbo? && TaggedBut(a.mem, a.heap, stale) && !PrevFree(a.heap, p)
  }

  lemma ApartThrough(a: Arena, a1: Arena, a2: Arena, p: Addr, p1: Addr)
    requires Apart(a, a1, p) && Apart(a1, a2, p1) && (p1 == p || p1 !in a.heap || !a.heap[p1].use.Limbo?)
    ensures Apart(a, a2, p)
  {
    forall x | x != p ensures LimboSame(a.heap, a2.heap, x) {
      assert LimboSame(a.heap, a1.heap, x) && (x != p1 ==> LimboSame(a1.heap, a2.heap, x));
    }
    forall x | x in a.heap && a.heap[x].use.Limbo? && x != p ensures Fd(a2.mem, x) == Fd(a.mem, x) {
      assert LimboSame(a.heap, a1.heap, x);
      assert Fd(a1.mem, x) == Fd(a.mem, x);
    }
    forall q, w | Payload(a.heap, q, w) ensures Word(a2.mem, w) == Word(a.mem, w) {
      assert Payload(a1.heap, q, w);
    }
    forall i | 2 <= i < |a.bins| && a.bins[i] == [] ensures a2.bins[i] == [] {
      assert a1.bins[i] == [];
    }
  }

  ghost function BackJoined(a: Arena, p: Addr, i: nat, k: nat): Arena
    requires Core(a) && 1 <= i < NBINS && k < |a.bins[i]| && a.bins[i][k] in a.heap &&
      Next(a.heap, a.bins[i][k]) == p && p in a.heap
  {
    assert Placed(a.heap, a.base, a.top, a.bins[i][k]);
    var a1 := Unlinked(a, i, k);
    a1.(heap := Join(a1.heap, a.bins[i][k], Limbo))
  }

  /** r is the free chunk before p. */
  predicate PrevIs(h: Heap, top: Addr, p: Addr, r: Addr)
    requires r in h
  {
    Next(h, r) == p && r != top && r < p && !PrevFree(h, r) && h[r].use.Free?
  }

  lemma PrevFacts(h: Heap, base: Addr, top: Addr, p: Addr)
    requires Shape(h, base, top) && AllCoalesced(h) && PrevFree(h, p)
    ensures p - h[p].before in h && PrevIs(h, top, p, p - h[p].before)
  {
    var r := p - h[p].before;
    assert Placed(h, base, top, p);
    assert Placed(h, base, top, r);
    if PrevFree(h, r) {
      PrevInUse(h, base, top, r);
    }
  }

  /** The chunk before p, when it is free, is in a bin. */
  lemma PrevBinned(a: Arena, p: Addr)
    requires Core(a) && PrevFree(a.heap, p)
    ensures p - a.heap[p].before in a.heap && PrevIs(a.heap, a.top, p, p - a.heap[p].before)
  {
    hide Rings, Chains, Listed, AllSorted;
    PrevFacts(a.heap, a.base, a.top, p);
  }

  lemma BackKeeps(a: Arena, p: Addr, i: nat, k: nat)
    requires Good(a) && p in a.heap && a.heap[p].use.Limbo? && PrevFree(a.heap, p)
    requires 1 <= i < NBINS && k < |a.bins[i]| && a.bins[i][k] == p - a.heap[p].before
    ensures a.bins[i][k] in a.heap && Next(a.heap, a.bins[i][k]) == p
    ensures var a', r := BackJoined(a, p, i, k), a.bins[i][k];
      Held(a', r, {r}) && Apart(a, a', p) && Next(a'.heap, r) == Next(a.heap, p) && a'.top == a.top &&
      a'.heap[r].size == a.heap[r].size + a.heap[p].size
    ensures var a', e := BackJoined(a, p, i, k), Next(a.heap, p);
      e in a.heap && e in a'.heap && a'.heap[e].use == a.heap[e].use && a'.heap[e].size == a.heap[e].size
  {
    hide Rings, Chains, Listed, AllSorted, AllCoalesced, PayloadKept, LinksSame, LimboLinks, Apart;
    var r := a.bins[i][k];
    InBin(a, i, r);
    PrevBinned(a, p);
    var a1 := Unlinked(a, i, k);
    UnlinkKeeps(a, i, k);
    UnlinkLimbo(a, i, k, p);
    HeadersTagged(a.mem, a1.mem, a.heap, {});
    RetagTags(a1.mem, a.heap, a.base, a.top, r, Limbo, {});
    assert {} + {p} == {p};
    JoinCore(a1, r, Limbo);
    JoinTags(a1.mem, a1.heap, a1.base, a1.top, r, Limbo, {p});
    BackFrames(a, p, i, k);
  }

  lemma BackFrames(a: Arena, p: Addr, i: nat, k: nat)
    requires Good(a) && p in a.heap && a.heap[p].use.Limbo? && PrevFree(a.heap, p)
    requires 1 <= i < NBINS && k < |a.bins[i]| && a.bins[i][k] == p - a.heap[p].before
    requires a.bins[i][k] in a.heap && PrevIs(a.heap, a.top, p, a.bins[i][k])
    requires PayloadKept(a.heap, a.mem, Unlinked(a, i, k).mem) && LimboLinks(a.heap, a.mem, Unlinked(a, i, k).mem, p)
    ensures var a', r := BackJoined(a, p, i, k), a.bins[i][k];
      r in a'.heap && a'.heap[r].use.Limbo? && !PrevFree(a'.heap, r) && Apart(a, a', p) &&
      Next(a'.heap, r) == Next(a.heap, p) && a'.heap[r].size == a.heap[r].size + a.heap[p].size && p !in a'.heap
    ensures var a', e := BackJoined(a, p, i, k), Next(a.heap, p);
      e in a.heap && e in a'.heap && a'.heap[e].use == a.heap[e].use && a'.heap[e].size == a.heap[e].size
  {
    var a', r := BackJoined(a, p, i, k), a.bins[i][k];
    assert Placed(a.heap, a.base, a.top, p) && p != a.top;
    assert a'.heap == Join(Retag(a.heap, r, Limbo), r, Limbo);
    JoinFacts(a.heap, a.base, a.top, r, p, r);
    FewerAfterCut(a.bins, i, k);
    forall x | x != p ensures LimboSame(a.heap, a'.heap, x) {
    }
  }

  lemma FewerAfterCut(bins: seq<seq<Addr>>, i: nat, k: nat)
    requires i < |bins| && k < |bins[i]|
    ensures Fewer(bins, bins[i := bins[i][..k] + bins[i][k + 1..]])
  {
  }

  /** Any write to the header of a chunk makes at most that header stale. */
  lemma HeadStale(a: Arena, x: Addr, v: int, s: set<Addr>)
    requires Core(a) && x in a.heap && TaggedBut(a.mem, a.heap, s)
    ensures Core(a.(mem := a.mem[x + 4 := v])) && TaggedBut(a.mem[x + 4 := v], a.heap, s + {x})
    ensures PayloadKept(a.heap, a.mem, a.mem[x + 4 := v]) && LinksSame(a.heap, a.mem, a.mem[x + 4 := v], {})
  {
    var m' := a.mem[x + 4 := v];
    TagWrite(a.heap, a.base, a.top, a.mem, x, x + 4, v);
    LinksSameLists(a, m');
    forall y | y !in s + {x} ensures Tagged(m', a.heap, y) {
      assert Tagged(a.mem, a.heap, y);
      assert y in a.heap ==> HeaderSame(a.mem, m', y);
    }
  }

  lemma SameHeapApart(a: Arena, m': Mem, p: Addr)
    requires Core(a) && PayloadKept(a.heap, a.mem, m') && LinksSame(a.heap, a.mem, m', {})
    ensures Apart(a, a.(mem := m'), p)
  {
    forall x | x in a.heap ensures Fd(m', x) == Fd(a.mem, x) {
      assert LinkSame(a.mem, m', x);
    }
  }

  /** The chunk after p, when it is free, is in a bin, and the one after that is in use. */
  lemma NextBinned(a: Arena, p: Addr)
    requires Core(a) && p in a.heap && p != a.top && Next(a.heap, p) in a.heap && a.heap[Next(a.heap, p)].use.Free?
    ensures var q := Next(a.heap, p); q != a.top && Next(a.heap, q) in a.heap && PrevFree(a.heap, Next(a.heap, q))
    ensures InUse(a.heap[Next(a.heap, Next(a.heap, p))].use) && p < Next(a.heap, p) < Next(a.heap, Next(a.heap, p))
  {
    var q := Next(a.heap, p);
    assert Placed(a.heap, a.base, a.top, p) && Placed(a.heap, a.base, a.top, q);
    assert Placed(a.heap, a.base, a.top, Next(a.heap, q)) && Coalesced(a.heap, q);
  }

  ghost function Absorbed(a: Arena, p: Addr): Arena
    requires p in a.heap && Next(a.heap, p) in a.heap
  {
    a.(heap := Join(a.heap, p, Limbo))
  }

  lemma LimboBelowTop(a: Arena, p: Addr)
    requires Core(a) && p in a.heap && a.heap[p].use.Limbo?
    ensures p != a.top
  {
    assert Placed(a.heap, a.base, a.top, p);
  }

  /** A free chunk after p is taken out of its bin and absorbed. */
  lemma ForwardKeeps(a: Arena, p: Addr, i: nat, k: nat)
    requires p in a.heap && Held(a, p, {p, Next(a.heap, p)}) && Next(a.heap, p) in a.heap
    requires 1 <= i < NBINS && k < |a.bins[i]| && a.bins[i][k] == Next(a.heap, p)
    requires a.heap[Next(a.heap, p)].use.Free? && Next(a.heap, Next(a.heap, p)) in a.heap
    requires SizeField(a.mem, Next(a.heap, Next(a.heap, p))) == a.heap[Next(a.heap, Next(a.heap, p))].size
    ensures Next(a.heap, p) in Unlinked(a, i, k).heap && Next(Unlinked(a, i, k).heap, p) == Next(a.heap, p)
    ensures JoinedTo(a, Absorbed(Unlinked(a, i, k), p), p, Next(a.heap, Next(a.heap, p)))
  {
    hide Shape, Rings, Chains, Listed, AllSorted, AllCoalesced, PayloadKept, LinksSame, LimboLinks, Apart,
      PrevFree, Join, Tagged;
    var q := Next(a.heap, p);
    var e := Next(a.heap, q);
    LimboBelowTop(a, p);
    NextBinned(a, p);
    var a1 := Unlinked(a, i, k);
    UnlinkKeeps(a, i, k);
    UnlinkLimbo(a, i, k, p);
    assert HeaderSame(a.mem, a1.mem, e);
    HeadersTagged(a.mem, a1.mem, a.heap, {p, q});
    RetagTags(a1.mem, a.heap, a.base, a.top, q, Limbo, {p, q});
    JoinCore(a1, p, Limbo);
    JoinTags(a1.mem, a1.heap, a1.base, a1.top, p, Limbo, {p, q} + {e});
    ForwardFrames(a, a1, p, i, k);
    var a2 := a1.(heap := Join(a1.heap, p, Limbo));
    assert {p, q} + {e} + {p} == {p, q, e};
    assert TaggedBut(a2.mem, a2.heap, {p, e}) by { DropStale(a2.mem, a2.heap, p, q, e); }
  }

  lemma DropStale(m: Mem, h: Heap, p: Addr, q: Addr, e: Addr)
    requires TaggedBut(m, h, {p, q, e}) && q !in h
    ensures TaggedBut(m, h, {p, e})
  {
    forall x | x !in {p, e} ensures Tagged(m, h, x) {
      assert x != q ==> x !in {p, q, e};
    }
  }

  /** p now reaches up to e, which is in use and whose header already says that p is free. */
  ghost predicate JoinedTo(a: Arena, a': Arena, p: Addr, e: Addr) {
    && Held(a', p, {p, e}) && Apart(a, a', p) && Next(a'.heap, p) == e && a'.top == a.top && e in a'.heap
    && InUse(a'.heap[e].use) && SizeField(a'.mem, e) == a'.heap[e].size
  }

  /** Two neighbours, one free and one in the hands of the allocator, become one. */
  lemma JoinFacts(h: Heap, base: Addr, top: Addr, p: Addr, q: Addr, r: Addr)
    requires Shape(h, base, top) && p in h && q in h && Next(h, p) == q && p != top && q != top && (r == p || r == q)
    requires !PrevFree(h, p) && Next(Retag(h, r, Limbo), p) in Retag(h, r, Limbo) && Next(h, q) in h
    requires !h[p].use.Live? && !h[q].use.Live?
    ensures var h', e := Join(Retag(h, r, Limbo), p, Limbo), Next(h, q);
      p in h' && h'[p].use.Limbo? && h'[p].size == h[p].size + h[q].size && !PrevFree(h', p) && q !in h' &&
      e in h' && h'[e].use == h[e].use && h'[e].size == h[e].size && top in h' && Next(h', top) == Next(h, top)
    ensures LiveKept(h, Join(Retag(h, r, Limbo), p, Limbo))
    ensures forall x {:trigger LimboSame(h, Join(Retag(h, r, Limbo), p, Limbo), x)} :: x != p && x != q ==>
      LimboSame(h, Join(Retag(h, r, Limbo), p, Limbo), x)
  {
    var h', e := Join(Retag(h, r, Limbo), p, Limbo), Next(h, q);
    assert Placed(h, base, top, p) && Placed(h, base, top, q) && Placed(h, base, top, e);
  }

  lemma ForwardFrames(a: Arena, a1: Arena, p: Addr, i: nat, k: nat)
    requires Core(a) && p in a.heap && a.heap[p].use.Limbo? && !PrevFree(a.heap, p) &&
      Next(a.heap, p) in a.heap && p != a.top
    requires 1 <= i < NBINS && k < |a.bins[i]| && a.bins[i][k] == Next(a.heap, p) && a1 == Unlinked(a, i, k)
    requires a.heap[Next(a.heap, p)].use.Free? && Next(a.heap, Next(a.heap, p)) in a.heap && Next(a.heap, p) != a.top
    requires PayloadKept(a.heap, a.mem, a1.mem) && LimboLinks(a.heap, a.mem, a1.mem, p)
    ensures Next(a1.heap, p) in a1.heap
    ensures var a', q, e := Absorbed(a1, p), Next(a.heap, p), Next(a.heap, Next(a.heap, p));
      Apart(a, a', p) && p in a'.heap && Next(a'.heap, p) == e && e in a'.heap &&
        a'.heap[e].use == a.heap[e].use && q !in a'.heap &&
      a'.heap[e].size == a.heap[e].size && a'.heap[p].use.Limbo? && !PrevFree(a'.heap, p)
  {
    var q := Next(a.heap, p);
    assert a.top in a.heap && q in a.heap;
    UnlinkedIs(a, i, k);
    hide Core, Unlinked, Shape, PayloadKept, LimboLinks;
    JoinFacts(a.heap, a.base, a.top, p, q, q);
    FewerAfterCut(a.bins, i, k);
    var a' := Absorbed(a1, p);
    forall x | x != p ensures LimboSame(a.heap, a'.heap, x) {
    }
  }

  /** The chunk at the front of the unsorted list, with its header and footer written. */
  ghost function Released(a: Arena, p: Addr): Arena
    requires Sized(a) && p in a.heap
  {
    var a1 := Inserted(a, 1, 0, p);
    a1.(mem := a1.mem[p + 4 := a.heap[p].size + 1][p + a.heap[p].size := a.heap[p].size])
  }

  /** Once p is in the unsorted list, its header and its footer are all that is stale. */
  ghost predicate Unwritten(a: Arena, p: Addr, e: Addr) {
    && Core(a) && p in a.heap && e in a.heap && Next(a.heap, p) == e && a.heap[e].before == a.heap[p].size
    && p % 8 == 0 && e % 8 == 0 && p != e && !PrevFree(a.heap, p) && PrevFree(a.heap, e)
    && TaggedBut(a.mem, a.heap, {p, e}) && SizeField(a.mem, e) == a.heap[e].size
  }

  lemma ReleaseInserts(a: Arena, p: Addr)
    requires p in a.heap && Held(a, p, {p, Next(a.heap, p)}) && Next(a.heap, p) in a.heap
    requires InUse(a.heap[Next(a.heap, p)].use) && SizeField(a.mem, Next(a.heap, p)) == a.heap[Next(a.heap, p)].size
    ensures Unwritten(Inserted(a, 1, 0, p), p, Next(a.heap, p)) && p != a.top
    ensures PayloadKept(a.heap, a.mem, Inserted(a, 1, 0, p).mem) &&
      LimboLinks(a.heap, a.mem, Inserted(a, 1, 0, p).mem, p)
  {
    var e, n := Next(a.heap, p), a.heap[p].size;
    var a1 := Inserted(a, 1, 0, p);
    assert p != a.top && a.heap[e].before == n && p < e by { assert Placed(a.heap, a.base, a.top, p); }
    assert p % 8 == 0 && e % 8 == 0 by { NodesApart(a.heap, a.base, a.top, p, e); }
    hide Shape, Rings, Chains, Listed, AllSorted, AllCoalesced, PayloadKept, LinksSame, LimboLinks;
    InsertKeeps(a, 1, 0, p);
    InsertLimbo(a, 1, 0, p);
    assert HeaderSame(a.mem, a1.mem, e);
    HeadersTagged(a.mem, a1.mem, a.heap, {p, e});
    RetagTags(a1.mem, a.heap, a.base, a.top, p, Free(1), {p, e});
    assert {p, e} + {e} == {p, e};
    PrevAfterRetag(a, p, e);
  }

  lemma ReleaseWrites(a: Arena, p: Addr, e: Addr)
    requires Unwritten(a, p, e)
    ensures var n := a.heap[p].size; var m2 := a.mem[p + 4 := n + 1];
      Good(a.(mem := m2[e := n])) &&
      PayloadKept(a.heap, a.mem, m2) && LinksSame(a.heap, a.mem, m2, {}) &&
      PayloadKept(a.heap, m2, m2[e := n]) && LinksSame(a.heap, m2, m2[e := n], {})
  {
    hide Shape, Rings, Chains, Listed, AllSorted, AllCoalesced, PayloadKept, LinksSame;
    var n := a.heap[p].size;
    HeadWrite(a.mem, a.heap, a.base, a.top, p, {p, e});
    var m2 := a.mem[p + 4 := n + 1];
    assert {p, e} - {p} == {e} && {e} - {e} == {};
    LinksSameLists(a, m2);
    assert SizeField(m2, e) == a.heap[e].size;
    FootWrite(m2, a.heap, a.base, a.top, e, {e});
    LinksSameLists(a.(mem := m2), m2[e := n]);
  }

  lemma ReleaseKeeps(a: Arena, p: Addr)
    requires p in a.heap && Held(a, p, {p, Next(a.heap, p)}) && Next(a.heap, p) in a.heap
    requires InUse(a.heap[Next(a.heap, p)].use) && SizeField(a.mem, Next(a.heap, p)) == a.heap[Next(a.heap, p)].size
    ensures Good(Released(a, p)) && Apart(a, Released(a, p), p)
  {
    hide Good, Apart, PayloadKept, LinksSame, LimboLinks;
    var a1 := Inserted(a, 1, 0, p);
    ReleaseInserts(a, p);
    ReleaseWrites(a1, p, Next(a.heap, p));
    ReleaseApart(a, p, a1, a1.mem[p + 4 := a.heap[p].size + 1]);
  }

  lemma PrevAfterRetag(a: Arena, p: Addr, e: Addr)
    requires Core(a) && p in a.heap && e in a.heap && e == Next(a.heap, p) && p != a.top && !PrevFree(a.heap, p)
    ensures !PrevFree(Retag(a.heap, p, Free(1)), p) && PrevFree(Retag(a.heap, p, Free(1)), e)
  {
    assert Placed(a.heap, a.base, a.top, p);
  }

  lemma ReleaseApart(a: Arena, p: Addr, a1: Arena, m2: Mem)
    requires Core(a) && p in a.heap && a.heap[p].use.Limbo? && a1 == Inserted(a, 1, 0, p) && p != a.top
    requires PayloadKept(a.heap, a.mem, a1.mem) && LimboLinks(a.heap, a.mem, a1.mem, p)
    requires PayloadKept(a1.heap, a1.mem, m2) && LinksSame(a1.heap, a1.mem, m2, {})
    requires var m3 := m2[Next(a.heap, p) := a.heap[p].size];
      PayloadKept(a1.heap, m2, m3) && LinksSame(a1.heap, m2, m3, {})
    ensures Apart(a, a1.(mem := m2[Next(a.heap, p) := a.heap[p].size]), p)
  {
    var m3 := m2[Next(a.heap, p) := a.heap[p].size];
    forall x | x in a.heap && a.heap[x].use.Limbo? && x != p ensures Fd(m3, x) == Fd(a.mem, x) {
      assert LinkSame(a1.mem, m2, x) && LinkSame(m2, m3, x);
      assert Fd(a1.mem, x) == Fd(a.mem, x);
    }
    forall x | x != p ensures LimboSame(a.heap, a1.heap, x) {
    }
    forall q, w | Payload(a.heap, q, w) ensures Word(m3, w) == Word(a.mem, w) {
      assert Payload(a1.heap, q, w);
    }
  }

  /** p, the last chunk, becomes the start of top. */
  ghost function Topped(a: Arena, p: Addr): Arena
    requires p in a.heap && Next(a.heap, p) in a.heap
  {
    var h' := Join(a.heap, p, Top);
    a.(heap := h', top := p, mem := a.mem[p + 4 := h'[p].size + 1])
  }

  lemma TopKeeps(a: Arena, p: Addr)
    requires p in a.heap && Held(a, p, {p}) && Next(a.heap, p) in a.heap && Next(a.heap, p) == a.top
    ensures Good(Topped(a, p)) && Apart(a, Topped(a, p), p)
  {
    hide Shape, Rings, Chains, Listed, AllSorted, AllCoalesced, PayloadKept, LinksSame, LimboLinks, Apart,
      PrevFree, Tagged, Join;
    var a1 := a.(heap := Join(a.heap, p, Top), top := p);
    JoinedTop(a, p);
    JoinCore(a, p, Top);
    JoinTags(a.mem, a.heap, a.base, a.top, p, Top, {p});
    assert {p} + {p} == {p} && {p} - {p} == {};
    HeadWrite(a1.mem, a1.heap, a1.base, a1.top, p, {p});
    LinksSameLists(a1, a1.mem[p + 4 := a1.heap[p].size + 1]);
    TopApart(a, p);
  }

  lemma JoinedTop(a: Arena, p: Addr)
    requires Core(a) && p in a.heap && a.heap[p].use.Limbo? && !PrevFree(a.heap, p)
    requires Next(a.heap, p) in a.heap && Next(a.heap, p) == a.top
    ensures var h := Join(a.heap, p, Top);
      p != a.top && !PrevFree(h, p) && a.heap[a.top].use.Top? && p in h &&
        h[p].size == a.heap[p].size + a.heap[a.top].size
  {
    assert Placed(a.heap, a.base, a.top, p) && Placed(a.heap, a.base, a.top, a.top);
  }

  lemma TopApart(a: Arena, p: Addr)
    requires Core(a) && p in a.heap && a.heap[p].use.Limbo? && Next(a.heap, p) in a.heap &&
      Next(a.heap, p) == a.top && p != a.top
    requires PayloadKept(Join(a.heap, p, Top), a.mem, Topped(a, p).mem) &&
      LinksSame(Join(a.heap, p, Top), a.mem, Topped(a, p).mem, {})
    ensures Apart(a, Topped(a, p), p)
  {
    var a' := Topped(a, p);
    assert Placed(a.heap, a.base, a.top, p) && Placed(a.heap, a.base, a.top, a.top);
    forall x | x != p ensures LimboSame(a.heap, a'.heap, x) {
      assert Placed(a.heap, a.base, a.top, x);
    }
    forall x | x in a.heap && a.heap[x].use.Limbo? && x != p ensures Fd(a'.mem, x) == Fd(a.mem, x) {
      assert LimboSame(a.heap, a'.heap, x) && LinkSame(a.mem, a'.mem, x);
    }
    forall q, w | Payload(a.heap, q, w) ensures Word(a'.mem, w) == Word(a.mem, w) {
      assert Placed(a.heap, a.base, a.top, q);
      assert Payload(a'.heap, q, w);
    }
  }

  // ---- what the code reads

  /** Before anything is merged. */
  lemma HeldAtFirst(a: Arena, p: Addr)
    requires Good(a) && p in a.heap && a.heap[p].use.Limbo?
    ensures Core(a) && TaggedBut(a.mem, a.heap, {p}) && (PrevInUseBit(a.mem, p) <==> !PrevFree(a.heap, p))
    ensures PrevFree(a.heap, p) ==> PrevSize(a.mem, p) == a.heap[p].before
    ensures Next(a.heap, p) in a.heap && Apart(a, a, p)
  {
    assert Tagged(a.mem, a.heap, p);
    ReadTag(a.mem, a.heap, a.base, a.top, p);
    assert Placed(a.heap, a.base, a.top, p);
  }

  /** The header of the next chunk, and the in-use bit of the one after it. */
  lemma NextTag(a: Arena, p: Addr)
    requires p in a.heap && Held(a, p, {p}) && Next(a.heap, p) in a.heap && Next(a.heap, p) != a.top
    ensures var q := Next(a.heap, p);
      ChunkSize(a.mem, q) == a.heap[q].size && Next(a.heap, q) in a.heap && q != p && Next(a.heap, q) != q &&
      (PrevInUseBit(a.mem, Next(a.heap, q)) <==> !a.heap[q].use.Free?) && q % 8 == 0 &&
      (a.heap[q].use.Free? ==> SizeField(a.mem, Next(a.heap, q)) == a.heap[Next(a.heap, q)].size) &&
      (!a.heap[q].use.Free? ==> InUse(a.heap[q].use))
  {
    var q := Next(a.heap, p);
    assert p != a.top by { assert Placed(a.heap, a.base, a.top, p); }
    assert Placed(a.heap, a.base, a.top, p) && Placed(a.heap, a.base, a.top, q);
    var e := Next(a.heap, q);
    assert Tagged(a.mem, a.heap, q) && Tagged(a.mem, a.heap, e);
    ReadTag(a.mem, a.heap, a.base, a.top, q);
    ReadTag(a.mem, a.heap, a.base, a.top, e);
  }

  /** The header of a chunk in the hands of the allocator, and that of the next one. */
  lemma LimboTag(a: Arena, p: Addr)
    requires Good(a) && p in a.heap && a.heap[p].use.Limbo?
    ensures ChunkSize(a.mem, p) == a.heap[p].size && Next(a.heap, p) in a.heap
    ensures ChunkSize(a.mem, Next(a.heap, p)) == a.heap[Next(a.heap, p)].size
  {
    assert Placed(a.heap, a.base, a.top, p);
    assert Tagged(a.mem, a.heap, p) && Tagged(a.mem, a.heap, Next(a.heap, p));
    ReadTag(a.mem, a.heap, a.base, a.top, p);
    ReadTag(a.mem, a.heap, a.base, a.top, Next(a.heap, p));
  }

  /** The first chunk of the unsorted list, or its header. */
  lemma FrontOf(a: Arena)
    requires Core(a)
    ensures Fd(a.mem, BinAt(1)) == Queue.Around(BinAt(1), a.bins[1], 1) && Fd(a.mem, BinAt(1)) % 8 == 0
  {
    assert Ring(a.mem, BinAt(1), a.bins[1]) && LinkedAt(a.mem, BinAt(1), a.bins[1], 0);
    NodeOf(a, 1, 1);
  }

  lemma SpliceCommutes(m: Mem, p: Addr, b: Addr, f: Addr)
    requires b % 8 == 0 && f % 8 == 0
    ensures m[p + 12 := b][p + 8 := f][b + 8 := p][f + 12 := p] == Spliced(m, p, b, f)
  {
  }

  // ---- chunks in the hands of the allocator

  /** No chunk is left in the hands of the allocator. */
  ghost predicate NoLimbo(h: Heap) {
    forall p :: p in h ==> !h[p].use.Limbo?
  }

  /** p, which replaced p0, is the only new chunk in the hands of the allocator. */
  ghost predicate LimboOnly(h: Heap, h': Heap, p0: Addr, p: Addr) {
    forall x :: x in h' && h'[x].use.Limbo? ==> x == p || (x in h && h[x].use.Limbo? && x != p0)
  }

  /** One chunk fewer is in the hands of the allocator. */
  ghost predicate LimboLess(h: Heap, h': Heap, p: Addr) {
    forall x :: x in h' && h'[x].use.Limbo? ==> x in h && h[x].use.Limbo? && x != p
  }

  lemma LimboThrough(h: Heap, h1: Heap, h2: Heap, h3: Heap, p0: Addr, p: Addr)
    requires LimboOnly(h, h1, p0, p) && (h2 == h1 || LimboOnly(h1, h2, p, p))
    requires (p in h2 && h3 == Retag(h2, p, Free(1))) || LimboLess(h2, h3, p)
    ensures LimboLess(h, h3, p0)
  {
  }

  lemma LimboAfterJoin(h: Heap, p: Addr, q: Addr, r: Addr)
    requires p in h && q in h && q != p && (r == p || r == q) && Next(h, p) == q &&
      Next(Retag(h, r, Limbo), p) in Retag(h, r, Limbo)
    ensures LimboOnly(h, Join(Retag(h, r, Limbo), p, Limbo), q, p)
  {
  }

  /** The user's chunk p goes to the allocator, or comes from it: both count as in use. */
  lemma HandOver(a: Arena, p: Addr, u: Use)
    requires Good(a) && p in a.heap && (a.heap[p].use.Limbo? || a.heap[p].use.Live?) && (u.Live? || u.Limbo?)
    ensures Good(a.(heap := Retag(a.heap, p, u)))
  {
    RetagCore(a, p, u);
    RetagTags(a.mem, a.heap, a.base, a.top, p, u, {});
  }

  // ---- fastbins

  ghost function FastPopped(a: Arena, i: nat, u: Use): Arena
    requires Sized(a) && i < NFASTBINS && a.fasts[i] != [] && a.fasts[i][0] in a.heap
  {
    var p := a.fasts[i][0];
    a.(heap := Retag(a.heap, p, u), heads := a.heads[i := Fd(a.mem, p)], fasts := a.fasts[i := a.fasts[i][1..]])
  }

  lemma InFast(a: Arena, i: nat)
    requires Core(a) && i < NFASTBINS
    ensures a.heads[i] == 0 <==> a.fasts[i] == []
    ensures a.fasts[i] != [] ==>
      a.fasts[i][0] == a.heads[i] && a.heads[i] in a.heap && a.heads[i] != a.top && a.heads[i] > 0
    ensures a.fasts[i] != [] ==> a.heap[a.heads[i]].use == Fast(i) && a.heap[a.heads[i]].size == 8 * (i + 2) <= MAX_FAST
  {
    assert Chain(a.mem, a.heads[i], a.fasts[i]);
    if a.fasts[i] != [] {
      var p := a.fasts[i][0];
      assert p in a.fasts[i];
      assert Placed(a.heap, a.base, a.top, p) && Filed(a.heap[p]);
      assert Placed(a.heap, a.base, a.top, a.base);
    }
  }

  lemma FastPopKeeps(a: Arena, i: nat, u: Use)
    requires Good(a) && i < NFASTBINS && a.fasts[i] != [] && (u.Live? || u.Limbo?)
    ensures a.fasts[i][0] in a.heap && Good(FastPopped(a, i, u))
  {
    InFast(a, i);
    var p := a.fasts[i][0];
    var a' := FastPopped(a, i, u);
    RetagShape(a.heap, a.base, a.top, p, u);
    RetagCoalesced(a.heap, p, u);
    RetagTags(a.mem, a.heap, a.base, a.top, p, u, {});
    FastPopFiles(a, a', i, p);
  }

  lemma FastPopFiles(a: Arena, a': Arena, i: nat, p: Addr)
    requires Core(a) && i < NFASTBINS && a.fasts[i] != [] && p == a.fasts[i][0] && p in a.heap && p != a.top
    requires a.heap[p].use == Fast(i)
    requires exists u: Use :: (u.Live? || u.Limbo?) && a' == FastPopped(a, i, u)
    ensures Listed(a') && AllSorted(a') && Rings(a') && Chains(a')
  {
    assert Chain(a.mem, a.heads[i], a.fasts[i]) && NoRepeats(a.fasts[i]);
    assert a.fasts[i] == [p] + a.fasts[i][1..];
    forall j, x | 0 <= j < NBINS ensures x in a'.bins[j] <==> x in a'.heap && a'.heap[x].use == Free(j) {
      assert x in a.bins[j] <==> x in a.heap && a.heap[x].use == Free(j);
    }
    forall j, x | 0 <= j < NFASTBINS ensures x in a'.fasts[j] <==> x in a'.heap && a'.heap[x].use == Fast(j) {
      assert x in a.fasts[j] <==> x in a.heap && a.heap[x].use == Fast(j);
    }
    forall j | NSMALLBINS <= j < NBINS ensures Sorted(a'.heap, a'.bins[j]) {
      assert Sorted(a.heap, a.bins[j]);
    }
    assert forall j {:trigger a'.bins[j]} :: 1 <= j < NBINS ==> Ring(a.mem, BinAt(j), a.bins[j]);
    assert forall j {:trigger a'.fasts[j]} :: 0 <= j < NFASTBINS && j != i ==> a'.fasts[j] == a.fasts[j];
  }

  ghost function FastPushed(a: Arena, p: Addr, i: nat): Arena
    requires Sized(a) && i < NFASTBINS && p in a.heap
  {
    a.(mem := a.mem[p + 8 := a.heads[i]], heap := Retag(a.heap, p, Fast(i)), heads := a.heads[i := p],
       fasts := a.fasts[i := [p] + a.fasts[i]])
  }

  lemma FastPushKeeps(a: Arena, p: Addr, i: nat)
    requires Good(a) && p in a.heap && a.heap[p].use.Limbo? && i < NFASTBINS
    requires a.heap[p].size == 8 * (i + 2) && a.heap[p].size <= MAX_FAST
    ensures Good(FastPushed(a, p, i)) && PayloadKept(a.heap, a.mem, FastPushed(a, p, i).mem)
  {
    var a' := FastPushed(a, p, i);
    assert p != a.top && p > 0 by {
      assert Placed(a.heap, a.base, a.top, p) && Placed(a.heap, a.base, a.top, a.base);
    }
    LinkWrite(a.heap, a.base, a.top, a.mem, p, p + 8, a.heads[i]);
    ListsKept(a, a'.mem, {p}, NBINS);
    TagsKept(a.mem, a'.mem, a.heap);
    RetagShape(a.heap, a.base, a.top, p, Fast(i));
    RetagCoalesced(a.heap, p, Fast(i));
    RetagTags(a'.mem, a.heap, a.base, a.top, p, Fast(i), {});
    FastPushFiles(a, p, i);
  }

  lemma FastPushFiles(a: Arena, p: Addr, i: nat)
    requires Core(a) && p in a.heap && a.heap[p].use.Limbo? && i < NFASTBINS && p > 0
    requires a.heap[p].size == 8 * (i + 2) && a.heap[p].size <= MAX_FAST
    requires Chains(a.(mem := a.mem[p + 8 := a.heads[i]]))
    requires forall j {:trigger a.bins[j]} :: 1 <= j < NBINS ==> Ring(a.mem[p + 8 := a.heads[i]], BinAt(j), a.bins[j])
    ensures var a' := FastPushed(a, p, i); Listed(a') && AllSorted(a') && Rings(a') && Chains(a')
  {
    var a' := FastPushed(a, p, i);
    FastPushChains(a, p, i);
    forall j, x | 0 <= j < NBINS ensures x in a'.bins[j] <==> x in a'.heap && a'.heap[x].use == Free(j) {
      assert x in a.bins[j] <==> x in a.heap && a.heap[x].use == Free(j);
    }
    forall j, x | 0 <= j < NFASTBINS ensures x in a'.fasts[j] <==> x in a'.heap && a'.heap[x].use == Fast(j) {
      assert x in a.fasts[j] <==> x in a.heap && a.heap[x].use == Fast(j);
    }
    forall j | NSMALLBINS <= j < NBINS ensures Sorted(a'.heap, a'.bins[j]) {
      assert Sorted(a.heap, a.bins[j]);
    }
  }

  lemma FastPushChains(a: Arena, p: Addr, i: nat)
    requires Core(a) && p in a.heap && a.heap[p].use.Limbo? && i < NFASTBINS && p > 0
    requires Chains(a.(mem := a.mem[p + 8 := a.heads[i]]))
    ensures Chains(FastPushed(a, p, i))
  {
    var a' := FastPushed(a, p, i);
    assert Chain(a'.mem, a.heads[i], a.fasts[i]) && NoRepeats(a.fasts[i]);
    assert p !in a.fasts[i];
    NoRepeatsCons(p, a.fasts[i]);
    assert ([p] + a.fasts[i])[1..] == a.fasts[i];
    assert Fd(a'.mem, p) == a.heads[i];
    assert Chain(a'.mem, p, [p] + a.fasts[i]);
    assert forall j {:trigger a'.fasts[j]} :: 0 <= j < NFASTBINS && j != i ==> a'.fasts[j] == a.fasts[j];
  }

  // ---- taking a free chunk

  /** The chunk p is new for the user, with a size from lo up to hi; nothing else of the user's changed. */
  ghost predicate Given(h: Heap, h': Heap, p: Addr, lo: int, hi: int) {
    && p in h' && h'[p].use.Live? && lo <= h'[p].size <= hi && !(p in h && h[p].use.Live?)
    && forall q :: q != p ==> (q in h' && h'[q].use.Live? <==> q in h && h[q].use.Live?) &&
                              (q in h && h[q].use.Live? ==> h'[q].size == h[q].size)
  }

  /** An exact fit: the whole chunk, and the in-use bit in the header after it. */
  ghost function ExactTaken(a: Arena, i: nat, k: nat): Arena
    requires Sized(a) && i < NBINS && k < |a.bins[i]| && a.bins[i][k] in a.heap
  {
    MarkTaken(Unlinked(a, i, k), a.bins[i][k])
  }

  /** The same once the chunk p is off its list. */
  ghost function MarkTaken(a1: Arena, p: Addr): Arena
    requires p in a1.heap
  {
    var e := Next(a1.heap, p);
    a1.(heap := Retag(a1.heap, p, Live), mem := a1.mem[e + 4 := SizeField(a1.mem, e) + 1])
  }

  /** The chunk after a free one is in use and says so by a clear bit. */
  lemma AfterFree(a: Arena, i: nat, k: nat)
    requires Good(a) && 1 <= i < NBINS && k < |a.bins[i]|
    ensures var p := a.bins[i][k]; p in a.heap && Next(a.heap, p) in a.heap && a.heap[p].use == Free(i)
    ensures var e := Next(a.heap, a.bins[i][k]);
      PrevFree(a.heap, e) && SizeField(a.mem, e) == a.heap[e].size && e != a.bins[i][k]
    ensures InUse(a.heap[Next(a.heap, a.bins[i][k])].use) && a.bins[i][k] != a.top && !PrevFree(a.heap, a.bins[i][k])
    ensures a.heap[a.bins[i][k]].size % 8 == 0
  {
    var p := a.bins[i][k];
    InBin(a, i, p);
    assert Placed(a.heap, a.base, a.top, p) && Coalesced(a.heap, p);
    assert Tagged(a.mem, a.heap, Next(a.heap, p));
    if PrevFree(a.heap, p) {
      PrevInUse(a.heap, a.base, a.top, p);
    }
  }

  /** After unlink: only the header after the chunk is stale. */
  ghost predicate AfterUnlink(a1: Arena, p: Addr, e: Addr) {
    && Core(a1) && p in a1.heap && a1.heap[p].use.Limbo? && e in a1.heap && Next(a1.heap, p) == e && p != a1.top
    && TaggedBut(a1.mem, a1.heap, {e}) && SizeField(a1.mem, e) == a1.heap[e].size && e != p
    && !PrevFree(a1.heap, p) && !PrevFree(a1.heap, e) && InUse(a1.heap[e].use) && a1.heap[p].size % 8 == 0
  }

  lemma PrevAfterLimbo(a: Arena, p: Addr, e: Addr)
    requires Core(a) && p in a.heap && p != a.top && e in a.heap && e == Next(a.heap, p) && !PrevFree(a.heap, p)
    ensures !PrevFree(Retag(a.heap, p, Limbo), p) && !PrevFree(Retag(a.heap, p, Limbo), e)
  {
    assert Placed(a.heap, a.base, a.top, p) && Placed(a.heap, a.base, a.top, e);
  }

  lemma UnlinkGood(a: Arena, i: nat, k: nat)
    requires Good(a) && 1 <= i < NBINS && k < |a.bins[i]|
    ensures a.bins[i][k] in a.heap && a.heap[a.bins[i][k]].use == Free(i)
    ensures AfterUnlink(Unlinked(a, i, k), a.bins[i][k], Next(a.heap, a.bins[i][k]))
    ensures PayloadKept(a.heap, a.mem, Unlinked(a, i, k).mem)
  {
    var p := a.bins[i][k];
    AfterFree(a, i, k);
    var a1, e := Unlinked(a, i, k), Next(a.heap, p);
    UnlinkedIs(a, i, k);
    PrevAfterLimbo(a, p, e);
    hide Shape, Rings, Chains, Listed, AllSorted, AllCoalesced, LinksSame, PayloadKept, Unlinked;
    UnlinkKeeps(a, i, k);
    assert HeaderSame(a.mem, a1.mem, e);
    HeadersTagged(a.mem, a1.mem, a.heap, {});
    RetagTags(a1.mem, a.heap, a.base, a.top, p, Limbo, {});
    assert {} + {e} == {e};
  }

  /** Payload outside p is the same whichever way p is used. */
  lemma SamePayload(h: Heap, h': Heap, m: Mem, m': Mem)
    requires PayloadKept(h', m, m')
    requires forall q :: q in h && h[q].use.Live? ==> q in h' && h'[q].use.Live? && h'[q].size == h[q].size
    ensures PayloadKept(h, m, m')
  {
    forall q, w | Payload(h, q, w) ensures Word(m', w) == Word(m, w) {
      assert Payload(h', q, w);
    }
  }

  lemma MarkKeeps(a: Arena, a1: Arena, p: Addr, e: Addr)
    requires AfterUnlink(a1, p, e) && PayloadKept(a.heap, a.mem, a1.mem)
    requires p in a.heap && !a.heap[p].use.Live? && a1.heap == Retag(a.heap, p, Limbo)
    ensures Good(MarkTaken(a1, p)) && PayloadKept(a.heap, a.mem, MarkTaken(a1, p).mem)
    ensures Given(a.heap, MarkTaken(a1, p).heap, p, a.heap[p].size, a.heap[p].size)
  {
    hide Shape, Rings, Chains, Listed, AllSorted, AllCoalesced, LinksSame, PayloadKept;
    HeadWrite(a1.mem, a1.heap, a1.base, a1.top, e, {e});
    var m2 := a1.mem[e + 4 := a1.heap[e].size + 1];
    assert {e} - {e} == {};
    LinksSameLists(a1, m2);
    HandOver(a1.(mem := m2), p, Live);
    hide Good, Core, TaggedBut;
    SamePayload(a.heap, a1.heap, a1.mem, m2);
    PayloadThrough(a.heap, a.mem, a1.mem, m2);
  }

  lemma ExactKeeps(a: Arena, i: nat, k: nat)
    requires Good(a) && 1 <= i < NBINS && k < |a.bins[i]|
    ensures a.bins[i][k] in a.heap && Good(ExactTaken(a, i, k)) && PayloadKept(a.heap, a.mem, ExactTaken(a, i, k).mem)
    ensures var p := a.bins[i][k]; Given(a.heap, ExactTaken(a, i, k).heap, p, a.heap[p].size, a.heap[p].size)
    ensures Fewer(a.bins, ExactTaken(a, i, k).bins)
    ensures a.top in a.heap && a.top in ExactTaken(a, i, k).heap &&
      Next(ExactTaken(a, i, k).heap, a.top) == Next(a.heap, a.top)
  {
    assert a.top in a.heap;
    UnlinkGood(a, i, k);
    UnlinkedIs(a, i, k);
    hide Good, Core, PayloadKept, TaggedBut, Given, Unlinked;
    var p := a.bins[i][k];
    MarkKeeps(a, Unlinked(a, i, k), p, Next(a.heap, p));
    FewerAfterCut(a.bins, i, k);
  }

  lemma PayloadThrough(h: Heap, m: Mem, m1: Mem, m2: Mem)
    requires PayloadKept(h, m, m1) && PayloadKept(h, m1, m2)
    ensures PayloadKept(h, m, m2)
  {
  }

  /** A free chunk cut after n bytes: the remainder becomes the only unsorted chunk. */
  ghost function SplitTaken(a: Arena, i: nat, k: nat, n: nat): Arena
    requires Sized(a) && i < NBINS && k < |a.bins[i]| && a.bins[i][k] in a.heap && 0 < n < a.heap[a.bins[i][k]].size
  {
    CutTaken(Unlinked(a, i, k), a.bins[i][k], n)
  }

  /** The same once the chunk p is off its list. */
  ghost function CutTaken(a1: Arena, p: Addr, n: nat): Arena
    requires Sized(a1) && p in a1.heap && 0 < n < a1.heap[p].size
  {
    var a2 := a1.(heap := Split(a1.heap, p, n, Live, Limbo));
    var a3, q, r := Inserted(a2, 1, 0, p + n), p + n, a1.heap[p].size - n;
    a3.(mem := a3.mem[p + 4 := n + 1][q + 4 := r + 1][q + r := r])
  }

  /** After the split: the two new headers, and the header and footer after them, are all that is stale. */
  ghost predicate AfterSplit(a: Arena, p: Addr, q: Addr, e: Addr) {
    && Core(a) && p in a.heap && q in a.heap && e in a.heap && Next(a.heap, p) == q
    && Next(a.heap, q) == e && q != a.top
    && a.heap[p].use.Live? && a.heap[q].use.Limbo? && InUse(a.heap[e].use) && a.heap[e].before == a.heap[q].size
    && TaggedBut(a.mem, a.heap, {e, p, q}) && SizeField(a.mem, e) == a.heap[e].size
    && !PrevFree(a.heap, p) && !PrevFree(a.heap, q) && p < q < e
  }

  lemma SplitStep(a1: Arena, p: Addr, e: Addr, n: nat)
    requires AfterUnlink(a1, p, e) && MINSIZE <= n <= a1.heap[p].size - MINSIZE && n % 8 == 0
    ensures AfterSplit(a1.(heap := Split(a1.heap, p, n, Live, Limbo)), p, p + n, e)
    ensures var h' := Split(a1.heap, p, n, Live, Limbo);
      Given(a1.heap, h', p, n, n) && Next(h', a1.top) == Next(a1.heap, a1.top)
  {
    SplitCore(a1, p, n);
    SplitTags(a1.mem, a1.heap, a1.base, a1.top, p, n, Live, Limbo, {e});
    assert {e} + {p, p + n} == {e, p, p + n};
    assert Placed(a1.heap, a1.base, a1.top, p) && Placed(a1.heap, a1.base, a1.top, e);
    assert Before(a1.heap, p, p + n);
  }

  /** After the remainder is in the unsorted list. */
  ghost predicate AfterInsert(a: Arena, p: Addr, q: Addr, e: Addr) {
    && Core(a) && p in a.heap && q in a.heap && e in a.heap && a.heap[e].before == a.heap[q].size
    && Next(a.heap, q) == e
    && TaggedBut(a.mem, a.heap, {e, p, q}) && SizeField(a.mem, e) == a.heap[e].size
    && !PrevFree(a.heap, p) && !PrevFree(a.heap, q) && PrevFree(a.heap, e) && p < q < e
    && p % 8 == 0 && q % 8 == 0 && e % 8 == 0
  }

  lemma InsertStep(a: Arena, p: Addr, q: Addr, e: Addr)
    requires AfterSplit(a, p, q, e)
    ensures AfterInsert(Inserted(a, 1, 0, q), p, q, e) && PayloadKept(a.heap, a.mem, Inserted(a, 1, 0, q).mem)
  {
    var a1 := Inserted(a, 1, 0, q);
    assert p % 8 == 0 && q % 8 == 0 && e % 8 == 0 && !PrevFree(a1.heap, p) by {
      assert Placed(a.heap, a.base, a.top, p) && Placed(a.heap, a.base, a.top, q) && Placed(a.heap, a.base, a.top, e);
    }
    PrevAfterRetag(a, q, e);
    hide Shape, Rings, Chains, Listed, AllSorted, AllCoalesced, LinksSame, PayloadKept;
    InsertKeeps(a, 1, 0, q);
    assert HeaderSame(a.mem, a1.mem, e);
    HeadersTagged(a.mem, a1.mem, a.heap, {e, p, q});
    RetagTags(a1.mem, a.heap, a.base, a.top, q, Free(1), {e, p, q});
    assert {e, p, q} + {e} == {e, p, q};
  }

  lemma WriteStep(a: Arena, p: Addr, q: Addr, e: Addr)
    requires AfterInsert(a, p, q, e)
    ensures var m' := a.mem[p + 4 := a.heap[p].size + 1][q + 4 := a.heap[q].size + 1][e := a.heap[q].size];
      Good(a.(mem := m')) && PayloadKept(a.heap, a.mem, m')
  {
    hide Shape, Rings, Chains, Listed, AllSorted, AllCoalesced, LinksSame, PayloadKept;
    var m1 := a.mem[p + 4 := a.heap[p].size + 1];
    var m2 := m1[q + 4 := a.heap[q].size + 1];
    HeadWrite(a.mem, a.heap, a.base, a.top, p, {e, p, q});
    LinksSameLists(a, m1);
    assert {e, p, q} - {p} == {e, q} && {e, q} - {q} == {e} && {e} - {e} == {};
    HeadWrite(m1, a.heap, a.base, a.top, q, {e, q});
    LinksSameLists(a.(mem := m1), m2);
    assert SizeField(m2, e) == a.heap[e].size;
    FootWrite(m2, a.heap, a.base, a.top, e, {e});
    LinksSameLists(a.(mem := m2), m2[e := a.heap[q].size]);
    PayloadThrough(a.heap, a.mem, m1, m2);
    PayloadThrough(a.heap, a.mem, m2, m2[e := a.heap[q].size]);
  }

  /** The three steps of a split, one after the other. */
  lemma SplitGood(a: Arena, a1: Arena, a2: Arena, a3: Arena, p: Addr, q: Addr, e: Addr)
    requires AfterUnlink(a1, p, e) && PayloadKept(a.heap, a.mem, a1.mem) && p in a.heap &&
      a1.heap == Retag(a.heap, p, Limbo)
    requires !a.heap[p].use.Live? && AfterSplit(a2, p, q, e) && a2 == a1.(heap := a2.heap) &&
      a3 == Inserted(a2, 1, 0, q)
    requires Given(a1.heap, a2.heap, p, 0, a1.heap[p].size)
    ensures var m' := a3.mem[p + 4 := a3.heap[p].size + 1][q + 4 := a3.heap[q].size + 1][e := a3.heap[q].size];
      Good(a3.(mem := m')) && PayloadKept(a.heap, a.mem, m')
  {
    hide Good, Core, PayloadKept, TaggedBut;
    InsertStep(a2, p, q, e);
    WriteStep(a3, p, q, e);
    var m' := a3.mem[p + 4 := a3.heap[p].size + 1][q + 4 := a3.heap[q].size + 1][e := a3.heap[q].size];
    SamePayload(a.heap, a2.heap, a1.mem, a3.mem);
    SamePayload(a.heap, a3.heap, a3.mem, m');
    PayloadThrough(a.heap, a.mem, a1.mem, a3.mem);
    PayloadThrough(a.heap, a.mem, a3.mem, m');
  }

  lemma GivenFrom(h: Heap, h1: Heap, h2: Heap, h3: Heap, p: Addr, q: Addr, n: nat)
    requires p in h && !h[p].use.Live? && h1 == Retag(h, p, Limbo) && Given(h1, h2, p, n, n)
    requires q in h2 && h2[q].use.Limbo? && h3 == Retag(h2, q, Free(1))
    ensures Given(h, h3, p, n, n)
  {
  }

  lemma InsertedIs(a: Arena, i: nat, k: nat, p: Addr)
    requires Sized(a) && i < NBINS && k <= |a.bins[i]| && p in a.heap
    ensures var a1, q := Inserted(a, i, k, p), a.bins[i];
      a1 == a.(mem := a1.mem, heap := Retag(a.heap, p, Free(i)), bins := a.bins[i := q[..k] + [p] + q[k..]])
  {
  }

  lemma InsertedAs(a: Arena, i: nat, k: nat, p: Addr)
    requires Sized(a) && i < NBINS && k <= |a.bins[i]| && p in a.heap
    ensures var b, f, q := Queue.Around(BinAt(i), a.bins[i], k), Queue.Around(BinAt(i), a.bins[i], k + 1), a.bins[i];
      Inserted(a, i, k, p) == a.(mem := a.mem[p + 12 := b][p + 8 := f][f + 12 := p][b + 8 := p],
                                 heap := Retag(a.heap, p, Free(i)), bins := a.bins[i := q[..k] + [p] + q[k..]])
  {
  }

  lemma FewerAfterSplit(bins: seq<seq<Addr>>, i: nat, k: nat, q: Addr)
    requires |bins| == NBINS && 1 <= i < NBINS && k < |bins[i]|
    ensures var bins1 := bins[i := bins[i][..k] + bins[i][k + 1..]];
      Fewer(bins, bins1[1 := bins1[1][..0] + [q] + bins1[1][0..]])
  {
  }

  lemma CutKeeps(a: Arena, a1: Arena, p: Addr, e: Addr, n: nat)
    requires AfterUnlink(a1, p, e) && PayloadKept(a.heap, a.mem, a1.mem) && n % 8 == 0
    requires p in a.heap && !a.heap[p].use.Live? && a1.heap == Retag(a.heap, p, Limbo) &&
      MINSIZE <= n <= a.heap[p].size - MINSIZE
    ensures Good(CutTaken(a1, p, n)) && PayloadKept(a.heap, a.mem, CutTaken(a1, p, n).mem)
    ensures Given(a.heap, CutTaken(a1, p, n).heap, p, n, n)
  {
    hide Good, Core, PayloadKept, TaggedBut, Given, Split;
    SplitStep(a1, p, e, n);
    var a2 := a1.(heap := Split(a1.heap, p, n, Live, Limbo));
    GivenWider(a1.heap, a2.heap, p, n, a1.heap[p].size);
    CutFrom(a, a1, a2, p, e, n);
  }

  lemma CoreIsSized(a: Arena)
    requires Core(a)
    ensures Sized(a)
  {
  }

  lemma SplitSizes(h: Heap, p: Addr, n: nat)
    requires p in h && 0 < n < h[p].size
    ensures var h' := Split(h, p, n, Live, Limbo);
      p in h' && h'[p].size == n && p + n in h' && h'[p + n] == Chunk(h[p].size - n, n, Limbo)
  {
  }

  lemma CutFrom(a: Arena, a1: Arena, a2: Arena, p: Addr, e: Addr, n: nat)
    requires AfterUnlink(a1, p, e) && PayloadKept(a.heap, a.mem, a1.mem) && p in a.heap && !a.heap[p].use.Live?
    requires a1.heap == Retag(a.heap, p, Limbo) && MINSIZE <= n <= a.heap[p].size - MINSIZE
    requires a2 == a1.(heap := Split(a1.heap, p, n, Live, Limbo)) && AfterSplit(a2, p, p + n, e)
    requires Given(a1.heap, a2.heap, p, 0, a1.heap[p].size) && Given(a1.heap, a2.heap, p, n, n)
    ensures Good(CutTaken(a1, p, n)) && PayloadKept(a.heap, a.mem, CutTaken(a1, p, n).mem)
    ensures Given(a.heap, CutTaken(a1, p, n).heap, p, n, n)
  {
    hide Good, Core, PayloadKept, TaggedBut, Given, Inserted, Split, Fix;
    CoreIsSized(a2);
    var q := p + n;
    var a3 := Inserted(a2, 1, 0, q);
    InsertedIs(a2, 1, 0, q);
    SplitSizes(a1.heap, p, n);
    SplitGood(a, a1, a2, a3, p, q, e);
    GivenFrom(a.heap, a1.heap, a2.heap, a3.heap, p, q, n);
  }

  lemma CutFrame(a1: Arena, p: Addr, e: Addr, n: nat)
    requires AfterUnlink(a1, p, e) && n % 8 == 0 && MINSIZE <= n <= a1.heap[p].size - MINSIZE
    ensures a1.top in a1.heap && a1.top in CutTaken(a1, p, n).heap
    ensures Next(CutTaken(a1, p, n).heap, a1.top) == Next(a1.heap, a1.top)
    ensures CutTaken(a1, p, n).bins == a1.bins[1 := a1.bins[1][..0] + [p + n] + a1.bins[1][0..]]
  {
    SplitStep(a1, p, e, n);
  }

  lemma SplitKeeps(a: Arena, i: nat, k: nat, n: nat)
    requires Good(a) && 1 <= i < NBINS && k < |a.bins[i]| && MINSIZE <= n && n % 8 == 0
    requires a.bins[i][k] in a.heap && n <= a.heap[a.bins[i][k]].size - MINSIZE
    ensures Good(SplitTaken(a, i, k, n)) && PayloadKept(a.heap, a.mem, SplitTaken(a, i, k, n).mem)
    ensures Given(a.heap, SplitTaken(a, i, k, n).heap, a.bins[i][k], n, n)
    ensures a.top in a.heap && a.top in SplitTaken(a, i, k, n).heap
    ensures Next(SplitTaken(a, i, k, n).heap, a.top) == Next(a.heap, a.top)
    ensures Fewer(a.bins, SplitTaken(a, i, k, n).bins)
  {
    UnlinkGood(a, i, k);
    UnlinkedIs(a, i, k);
    hide Core, PayloadKept, TaggedBut, Given, Unlinked, CutTaken;
    var p := a.bins[i][k];
    CutKeeps(a, Unlinked(a, i, k), p, Next(a.heap, p), n);
    CutFrame(Unlinked(a, i, k), p, Next(a.heap, p), n);
    FewerAfterSplit(a.bins, i, k, p + n);
  }

  lemma GivenWider(h: Heap, h': Heap, p: Addr, n: nat, hi: nat)
    requires Given(h, h', p, n, n) && n <= hi
    ensures Given(h, h', p, 0, hi)
  {
  }

  // ---- stores of the user

  /** The user may write anything into its own chunk. */
  lemma StoreKeeps(a: Arena, q: Addr, w: Addr, v: int)
    requires Good(a) && Payload(a.heap, q, w) && w % 4 == 0
    ensures Good(a.(mem := a.mem[w := v]))
  {
    hide Rings, Chains, Listed, AllSorted;
    var m' := a.mem[w := v];
    forall x | Node(a.heap, x) && x != q ensures LinkSame(a.mem, m', x) {
      StoreNode(a.heap, a.base, a.top, a.mem, q, w, v, x);
    }
    ListsKept(a, m', {q}, NBINS);
    forall x ensures Tagged(m', a.heap, x) {
      StoreTag(a.heap, a.base, a.top, a.mem, q, w, v, x);
    }
    assert forall i {:trigger a.bins[i]} :: 1 <= i < NBINS ==> Ring(m', BinAt(i), a.bins[i]);
    StoreRest(a, m');
  }

  lemma StoreRest(a: Arena, m': Mem)
    requires Core(a) && Chains(a.(mem := m')) && AllTagged(m', a.heap)
    requires forall i {:trigger a.bins[i]} :: 1 <= i < NBINS ==> Ring(m', BinAt(i), a.bins[i])
    ensures Good(a.(mem := m'))
  {
  }

  lemma StoreNode(h: Heap, base: Addr, top: Addr, m: Mem, q: Addr, w: Addr, v: int, x: Addr)
    requires Shape(h, base, top) && Payload(h, q, w) && w % 4 == 0 && Node(h, x) && x != q
    ensures LinkSame(m, m[w := v], x)
  {
    NodesApart(h, base, top, q, x);
    assert Placed(h, base, top, q) && Placed(h, base, top, x);
    assert Before(h, q, x) && Before(h, x, q);
  }

  /** What follows a live chunk does not count it as free. */
  lemma AfterLive(h: Heap, base: Addr, top: Addr, q: Addr, x: Addr)
    requires Shape(h, base, top) && q in h && h[q].use.Live? && x in h && x != q
    ensures q % 8 == 0 && Next(h, q) % 8 == 0 && x % 8 == 0 && (x < q || Next(h, q) <= x)
    ensures x == Next(h, q) ==> !PrevFree(h, x)
  {
    assert Placed(h, base, top, q) && Placed(h, base, top, x) && Before(h, q, x);
    MultiplesOf8(q, h[q].size);
  }

  lemma TagWords(q: Addr, next: Addr, x: Addr, w: Addr)
    requires q % 8 == 0 && next % 8 == 0 && x % 8 == 0 && w % 4 == 0 && q + 8 <= w < next + 4 && (x < q || next <= x)
    ensures w != x + 4 && (x != next ==> w != x)
  {
    var n, y, v := next / 8, x / 8, w / 4;
    assert next == 8 * n && x == 8 * y && w == 4 * v;
  }

  lemma StoreTag(h: Heap, base: Addr, top: Addr, m: Mem, q: Addr, w: Addr, v: int, x: Addr)
    requires Shape(h, base, top) && Payload(h, q, w) && w % 4 == 0 && Tagged(m, h, x)
    ensures Tagged(m[w := v], h, x)
  {
    hide Shape, PrevFree;
    if x in h && x != q {
      AfterLive(h, base, top, q, x);
      TagWords(q, Next(h, q), x, w);
    }
  }

  // ---- top

  /** Top gives its first n bytes. */
  ghost function TopTaken(a: Arena, n: nat): Arena
    requires a.top in a.heap && 0 < n < a.heap[a.top].size
  {
    var p, r := a.top, a.heap[a.top].size - n;
    a.(heap := Split(a.heap, p, n, Live, Top), top := p + n, mem := a.mem[p + 4 := n + 1][p + n + 4 := r + 1])
  }

  /** The chunk before top is in use. */
  lemma TopTag(a: Arena)
    requires Good(a)
    ensures a.top in a.heap && a.heap[a.top].use.Top? && !PrevFree(a.heap, a.top)
    ensures SizeField(a.mem, a.top) == a.heap[a.top].size + 1 && ChunkSize(a.mem, a.top) == a.heap[a.top].size
    ensures a.top % 8 == 0 && a.heap[a.top].size >= MINSIZE && a.top > 0
  {
    var p := a.top;
    assert Placed(a.heap, a.base, a.top, p) && Tagged(a.mem, a.heap, p) && Placed(a.heap, a.base, a.top, a.base);
    if PrevFree(a.heap, p) {
      PrevInUse(a.heap, a.base, a.top, p);
    }
    ReadTag(a.mem, a.heap, a.base, a.top, p);
  }

  /** The lower part of top is cut off: two headers are still to be written. */
  lemma TopCut(a: Arena, n: nat)
    requires Good(a) && a.top in a.heap && MINSIZE <= n <= a.heap[a.top].size - MINSIZE && n % 8 == 0
    ensures var p, q := a.top, a.top + n;
      var a2 := a.(heap := Split(a.heap, p, n, Live, Top), top := q);
      && Core(a2) && TaggedBut(a2.mem, a2.heap, {p, q}) && !PrevFree(a2.heap, p) && !PrevFree(a2.heap, q)
      && p in a2.heap && q in a2.heap && a2.heap[p].size == n && a2.heap[q].size == a.heap[p].size - n
    ensures Core(a) && a.heap[a.top].use.Top? && a.top + n !in a.heap && Next(a.heap, a.top) !in a.heap
    ensures Next(Split(a.heap, a.top, n, Live, Top), a.top + n) == Next(a.heap, a.top)
  {
    hide Rings, Chains, Listed, AllSorted, AllCoalesced;
    TopTag(a);
    SplitCore(a, a.top, n);
    CutInside(a.heap, a.base, a.top, a.top, n);
    SplitTags(a.mem, a.heap, a.base, a.top, a.top, n, Live, Top, {});
    assert {} + {a.top, a.top + n} == {a.top, a.top + n};
    assert Placed(a.heap, a.base, a.top, a.top);
  }

  lemma TwoHeads(a: Arena, p: Addr, q: Addr)
    requires Core(a) && TaggedBut(a.mem, a.heap, {p, q}) && p in a.heap && q in a.heap && p != q
    requires !PrevFree(a.heap, p) && !PrevFree(a.heap, q)
    ensures var m1 := a.mem[p + 4 := a.heap[p].size + 1];
      var m2 := m1[q + 4 := a.heap[q].size + 1];
      Good(a.(mem := m2)) && PayloadKept(a.heap, a.mem, m1) && PayloadKept(a.heap, m1, m2)
  {
    hide Shape, Rings, Chains, Listed, AllSorted, AllCoalesced, LinksSame, PayloadKept;
    HeadWrite(a.mem, a.heap, a.base, a.top, p, {p, q});
    var m1 := a.mem[p + 4 := a.heap[p].size + 1];
    LinksSameLists(a, m1);
    assert {p, q} - {p} == {q} && {q} - {q} == {};
    HeadWrite(m1, a.heap, a.base, a.top, q, {q});
    LinksSameLists(a.(mem := m1), m1[q + 4 := a.heap[q].size + 1]);
  }

  lemma TopTakeKeeps(a: Arena, n: nat)
    requires Good(a) && a.top in a.heap && MINSIZE <= n <= a.heap[a.top].size - MINSIZE && n % 8 == 0
    ensures Good(TopTaken(a, n)) && PayloadKept(a.heap, a.mem, TopTaken(a, n).mem)
    ensures Given(a.heap, TopTaken(a, n).heap, a.top, n, n)
    ensures TopTaken(a, n).top in TopTaken(a, n).heap &&
      Next(TopTaken(a, n).heap, TopTaken(a, n).top) == Next(a.heap, a.top)
    ensures NoLimbo(a.heap) ==> NoLimbo(TopTaken(a, n).heap)
  {
    hide Good, Core, PayloadKept, Given, NoLimbo, TaggedBut, Split, PrevFree;
    TopCut(a, n);
    var a2 := a.(heap := Split(a.heap, a.top, n, Live, Top), top := a.top + n);
    TwoHeads(a2, a.top, a.top + n);
    TopPayload(a, a2, a2.mem[a.top + 4 := n + 1], n);
  }

  lemma TopPayload(a: Arena, a2: Arena, m1: Mem, n: nat)
    requires Core(a) && a.top in a.heap && a.heap[a.top].use.Top? && 0 < n < a.heap[a.top].size && a.top + n !in a.heap
    requires a2 == a.(heap := Split(a.heap, a.top, n, Live, Top), top := a.top + n) && Next(a.heap, a.top) !in a.heap
    requires m1 == a.mem[a.top + 4 := n + 1]
    requires PayloadKept(a2.heap, m1, m1[a.top + n + 4 := a.heap[a.top].size - n + 1]) &&
      PayloadKept(a2.heap, a.mem, m1)
    ensures PayloadKept(a.heap, a.mem, TopTaken(a, n).mem) && Given(a.heap, a2.heap, a.top, n, n)
    ensures NoLimbo(a.heap) ==> NoLimbo(a2.heap)
  {
    SamePayload(a.heap, a2.heap, a.mem, m1);
    SamePayload(a.heap, a2.heap, m1, TopTaken(a, n).mem);
    PayloadThrough(a.heap, a.mem, m1, TopTaken(a, n).mem);
  }

  /** Top grows by the n bytes that sbrk gave after it. */
  ghost function Grown(a: Arena, n: nat): Arena
    requires a.top in a.heap
  {
    var s := a.heap[a.top].size + n;
    a.(heap := a.heap[a.top := a.heap[a.top].(size := s)], mem := a.mem[a.top + 4 := s + 1])
  }

  lemma GrowKeeps(a: Arena, n: nat)
    requires Good(a) && a.top in a.heap && n % 8 == 0
    ensures Good(Grown(a, n)) && PayloadKept(a.heap, a.mem, Grown(a, n).mem) && LiveKept(a.heap, Grown(a, n).heap)
    ensures Next(Grown(a, n).heap, a.top) == Next(a.heap, a.top) + n
    ensures NoLimbo(a.heap) ==> NoLimbo(Grown(a, n).heap)
  {
    TopTag(a);
    var p, a1 := a.top, a.(heap := Grown(a, n).heap);
    assert Placed(a.heap, a.base, a.top, p);
    MultiplesOf4(a.heap[p].size, n);
    GrowShape(a.heap, a.base, a.top, a1.heap[p].size);
    GrowRest(a, a1, p);
    hide Shape, Rings, Chains, Listed, AllSorted, AllCoalesced, LinksSame, PayloadKept;
    HeadWrite(a1.mem, a1.heap, a1.base, a1.top, p, {p});
    assert {p} - {p} == {};
    LinksSameLists(a1, a1.mem[p + 4 := a1.heap[p].size + 1]);
    SamePayload(a.heap, a1.heap, a.mem, a1.mem[p + 4 := a1.heap[p].size + 1]);
  }

  lemma GrowRest(a: Arena, a1: Arena, p: Addr)
    requires Good(a) && p == a.top && p in a.heap && !PrevFree(a.heap, p)
    requires p in a1.heap && a1 == a.(heap := a.heap[p := a.heap[p].(size := a1.heap[p].size)]) &&
      Shape(a1.heap, a1.base, a1.top)
    ensures Core(a1) && TaggedBut(a1.mem, a1.heap, {p}) && !PrevFree(a1.heap, p)
  {
    assert Placed(a.heap, a.base, a.top, p);
    forall x ensures Coalesced(a1.heap, x) {
      assert Coalesced(a.heap, x) && Placed(a.heap, a.base, a.top, x);
    }
    forall x | x !in {p} ensures Tagged(a1.mem, a1.heap, x) {
      assert Tagged(a.mem, a.heap, x) && Placed(a.heap, a.base, a.top, x);
    }
    assert Loose(a.heap, p) && Loose(a1.heap, p);
    SameFiles(a, a1, {p});
  }

  /** The heap that the first call of sbrk gives: nothing but top. */
  ghost function FirstArena(a: Arena, p: Addr, size: nat): Arena {
    a.(heap := map[p := Chunk(size, 0, Top)], base := p, top := p, mem := a.mem[p + 4 := size + 1])
  }

  /** No chunk exists yet. */
  ghost predicate NoChunks(a: Arena) {
    && Sized(a) && a.heap == map[] && Rings(a)
    && (forall i {:trigger a.bins[i]} :: 0 <= i < NBINS ==> a.bins[i] == [])
    && (forall i {:trigger a.fasts[i]} :: 0 <= i < NFASTBINS ==> a.fasts[i] == [] && a.heads[i] == 0)
  }

  lemma FirstKeeps(a: Arena, p: Addr, size: nat)
    requires NoChunks(a) && p > 0 && p % 8 == 0 && size >= MINSIZE && size % 4 == 0
    ensures Good(FirstArena(a, p, size)) && NoLimbo(FirstArena(a, p, size).heap)
    ensures LiveKept(a.heap, FirstArena(a, p, size).heap) && PayloadKept(a.heap, a.mem, FirstArena(a, p, size).mem)
  {
    var a' := FirstArena(a, p, size);
    FirstShape(p, size);
    forall i | 1 <= i < NBINS ensures Ring(a'.mem, BinAt(i), a'.bins[i]) {
      assert Ring(a.mem, BinAt(i), a.bins[i]) && a.bins[i] == [];
      assert LinkSame(a.mem, a'.mem, BinAt(i));
      RingKept(a.mem, a'.mem, BinAt(i), []);
    }
    assert forall i {:trigger a'.fasts[i]} :: 0 <= i < NFASTBINS ==> a.fasts[i] == [];
    assert forall i {:trigger a'.bins[i]} :: 0 <= i < NBINS ==> a.bins[i] == [];
  }

  // ---- from the unsorted list into a bin

  ghost function Moved(a: Arena, k: nat, j: nat, l: nat): Arena
    requires Sized(a) && k < |a.bins[1]| && a.bins[1][k] in a.heap && 2 <= j < NBINS && l <= |a.bins[j]|
  {
    Inserted(Unlinked(a, 1, k), j, l, a.bins[1][k])
  }

  lemma MoveKeeps(a: Arena, k: nat, j: nat, l: nat)
    requires Good(a) && k < |a.bins[1]| && a.bins[1][k] in a.heap && 2 <= j < NBINS && l <= |a.bins[j]|
    requires BinIndex(a.heap[a.bins[1][k]].size) == j && (j >= NSMALLBINS ==> Fits(a.heap, a.bins[j], l, a.bins[1][k]))
    ensures Good(Moved(a, k, j, l)) && PayloadKept(a.heap, a.mem, Moved(a, k, j, l).mem)
  {
    var p := a.bins[1][k];
    UnlinkGood(a, 1, k);
    UnlinkKeeps(a, 1, k);
    UnlinkedIs(a, 1, k);
    var a1, e := Unlinked(a, 1, k), Next(a.heap, p);
    InsertedIs(a1, j, l, p);
    assert a1.heap[p].size == a.heap[p].size;
    FitsAfter(a.heap, a1.heap, a.bins[j], l, p);
    hide Shape, Rings, Chains, Listed, AllSorted, AllCoalesced, PayloadKept, Unlinked, Inserted, Fits;
    InsertKeeps(a1, j, l, p);
    var a2 := Inserted(a1, j, l, p);
    MoveTags(a, a1, a2, p, j);
    SamePayload(a.heap, a1.heap, a1.mem, a2.mem);
    PayloadThrough(a.heap, a.mem, a1.mem, a2.mem);
  }

  lemma FitsAfter(h: Heap, h1: Heap, q: seq<Addr>, l: nat, p: Addr)
    requires p in h && h1 == Retag(h, p, Limbo)
    ensures Fits(h, q, l, p) ==> Fits(h1, q, l, p)
  {
  }

  lemma MoveTags(a: Arena, a1: Arena, a2: Arena, p: Addr, j: nat)
    requires AllTagged(a.mem, a.heap) && p in a.heap && a.heap[p].use == Free(1)
    requires a1.heap == Retag(a.heap, p, Limbo) && a2.heap == Retag(a1.heap, p, Free(j))
    requires HeadersSame(a.heap, a.mem, a1.mem) && HeadersSame(a1.heap, a1.mem, a2.mem)
    ensures AllTagged(a2.mem, a2.heap)
  {
    forall x ensures Tagged(a2.mem, a2.heap, x) {
      assert Tagged(a.mem, a.heap, x);
      assert x in a.heap ==> HeaderSame(a.mem, a1.mem, x) && HeaderSame(a1.mem, a2.mem, x);
    }
  }

  // ---- looking through the bins

  /** Bins hold chunks preceded by one in use, so their size fields have the bit set. */
  lemma BinnedTag(a: Arena, i: nat, k: nat)
    requires Good(a) && 1 <= i < NBINS && k < |a.bins[i]|
    ensures a.bins[i][k] in a.heap && a.heap[a.bins[i][k]].use == Free(i) && Next(a.heap, a.bins[i][k]) in a.heap
    ensures SizeField(a.mem, a.bins[i][k]) == a.heap[a.bins[i][k]].size + 1
    ensures ChunkSize(a.mem, a.bins[i][k]) == a.heap[a.bins[i][k]].size
    ensures a.bins[i][k] > 0 && a.bins[i][k] % 8 == 0 && a.heap[a.bins[i][k]].size % 8 == 0
    ensures i > 1 ==> BinIndex(a.heap[a.bins[i][k]].size) == i
    ensures a.heap[a.bins[i][k]].size >= MINSIZE
  {
    var p := a.bins[i][k];
    AfterFree(a, i, k);
    InBin(a, i, p);
    assert Tagged(a.mem, a.heap, p) && Placed(a.heap, a.base, a.top, p) && Placed(a.heap, a.base, a.top, a.base);
    ReadTag(a.mem, a.heap, a.base, a.top, p);
  }

  /** The links met going round a bin. */
  lemma BinLinks(a: Arena, i: nat, k: nat)
    requires Core(a) && 1 <= i < NBINS && k <= |a.bins[i]| + 1
    ensures var n := Queue.Around(BinAt(i), a.bins[i], k);
      (k > 0 ==> Bk(a.mem, n) == Queue.Around(BinAt(i), a.bins[i], k - 1)) &&
      (k <= |a.bins[i]| ==> Fd(a.mem, n) == Queue.Around(BinAt(i), a.bins[i], k + 1)) && n % 8 == 0
    ensures 0 < k <= |a.bins[i]| ==> Queue.Around(BinAt(i), a.bins[i], k) > 0
  {
    assert Ring(a.mem, BinAt(i), a.bins[i]);
    if k > 0 {
      assert LinkedAt(a.mem, BinAt(i), a.bins[i], k - 1);
    }
    assert LinkedAt(a.mem, BinAt(i), a.bins[i], k);
    NodeOf(a, i, k);
    if 0 < k <= |a.bins[i]| {
      InBin(a, i, a.bins[i][k - 1]);
      assert Placed(a.heap, a.base, a.top, a.bins[i][k - 1]) && Placed(a.heap, a.base, a.top, a.base);
    }
  }

  /** No free chunk outside the unsorted list that can hold nb is smaller than p. */
  ghost predicate BestFit(h: Heap, p: Addr, nb: nat) {
    p in h && h[p].use.Free? && h[p].size >= nb &&
    forall x :: x in h && h[x].use.Free? && h[x].size >= nb ==> h[p].size <= h[x].size
  }

  /** No free chunk can hold nb. */
  ghost predicate NoFit(h: Heap, nb: nat) {
    forall x :: x in h && h[x].use.Free? ==> h[x].size < nb
  }

  /** A free chunk is in the bin of its size once the unsorted list is empty. */
  lemma FreeIsBinned(a: Arena, x: Addr)
    requires Core(a) && a.bins[1] == [] && x in a.heap && a.heap[x].use.Free?
    ensures var i := BinIndex(a.heap[x].size); 2 <= i < NBINS && x in a.bins[i]
  {
    assert Filed(a.heap[x]);
    var i := a.heap[x].use.i;
    assert x in a.bins[i] <==> a.heap[x].use == Free(i);
    assert i != 1;
  }

  /** The last chunk of the first bin above that of nb that is not empty is the best fit, when no chunk of
      the bin of nb can hold it. */
  lemma LastIsBest(a: Arena, nb: nat, j: nat)
    requires Good(a) && a.bins[1] == [] && 0 <= BinIndex(nb) < j < NBINS && j >= 2 && a.bins[j] != []
    requires forall i :: BinIndex(nb) < i < j ==> a.bins[i] == []
    requires forall x :: x in a.bins[BinIndex(nb)] && x in a.heap ==> a.heap[x].size < nb
    ensures BestFit(a.heap, a.bins[j][|a.bins[j]| - 1], nb)
  {
    var q := a.bins[j];
    var p := q[|q| - 1];
    BinnedTag(a, j, |q| - 1);
    HigherBinFits(nb, a.heap[p].size);
    BinIndexBounds(nb);
    hide Good, BinIndex;
    forall x | x in a.heap && a.heap[x].use.Free? && a.heap[x].size >= nb ensures a.heap[p].size <= a.heap[x].size {
      LastIsLess(a, nb, j, x);
    }
  }

  lemma LastIsLess(a: Arena, nb: nat, j: nat, x: Addr)
    requires Good(a) && a.bins[1] == [] && BinIndex(nb) < j < NBINS && a.bins[j] != [] && j >= 2
    requires forall i :: BinIndex(nb) < i < j ==> a.bins[i] == []
    requires 0 <= BinIndex(nb) && forall y :: y in a.bins[BinIndex(nb)] && y in a.heap ==> a.heap[y].size < nb
    requires x in a.heap && a.heap[x].use.Free? && a.heap[x].size >= nb
    ensures var p := a.bins[j][|a.bins[j]| - 1]; p in a.heap && a.heap[p].size <= a.heap[x].size
  {
    assert Sized(a);
    hide Good, BinIndex;
    FreeIsBinned(a, x);
    var i := BinIndex(a.heap[x].size);
    BinnedTag(a, j, |a.bins[j]| - 1);
    BinIndexMonotone(nb, a.heap[x].size);
    var p := a.bins[j][|a.bins[j]| - 1];
    if i == j {
      SmallestIsLast(a, j, x);
    } else {
      assert i > j;
      if a.heap[x].size < a.heap[p].size {
        BinIndexMonotone(a.heap[x].size, a.heap[p].size);
      }
    }
  }

  /** Within a bin the last chunk is the smallest. */
  lemma SmallestIsLast(a: Arena, j: nat, x: Addr)
    requires Good(a) && 2 <= j < NBINS && x in a.bins[j] && x in a.heap
    ensures a.bins[j][|a.bins[j]| - 1] in a.heap && a.heap[a.bins[j][|a.bins[j]| - 1]].size <= a.heap[x].size
  {
    var q := a.bins[j];
    hide Good, BinIndex, Sorted;
    var k :| 0 <= k < |q| && q[k] == x;
    BinnedTag(a, j, k);
    BinnedTag(a, j, |q| - 1);
    if j < NSMALLBINS {
      SmallSizes(a.heap[x].size, a.heap[q[|q| - 1]].size);
    } else {
      BinSorted(a, j);
      LastOfSorted(a.heap, q, k);
    }
  }

  lemma BinSorted(a: Arena, j: nat)
    requires Good(a) && NSMALLBINS <= j < NBINS
    ensures Sorted(a.heap, a.bins[j])
  {
  }

  lemma LastOfSorted(h: Heap, q: seq<Addr>, k: nat)
    requires Sorted(h, q) && k < |q| && q[k] in h && q[|q| - 1] in h
    ensures h[q[|q| - 1]].size <= h[q[k]].size
  {
  }

  /** Small bins hold one size each. */
  lemma SmallSizes(s: nat, t: nat)
    requires BinIndex(s) == BinIndex(t) && BinIndex(s) < NSMALLBINS && s % 8 == 0 && t % 8 == 0
    ensures s == t
  {
    BinIndexBounds(s);
    BinIndexBounds(t);
  }

  // ---- the bin map

  /** A bin whose bit is clear is empty; the trailing word is zero. */
  ghost predicate Mapped(binmap: seq<nat>, bins: seq<seq<Addr>>) {
    && |binmap| == BINMAPSIZE + 1 && binmap[BINMAPSIZE] == 0 && |bins| == NBINS
    && (forall b :: 0 <= b < BINMAPSIZE ==> binmap[b] < Pow2(32))
    && forall i: nat {:trigger bins[i]} :: 2 <= i < NBINS && bins[i] != [] ==> Bit(binmap[i / 32], i % 32)
  }

  lemma FewerMapped(binmap: seq<nat>, bins: seq<seq<Addr>>, bins': seq<seq<Addr>>)
    requires Mapped(binmap, bins) && Fewer(bins, bins')
    ensures Mapped(binmap, bins')
  {
    forall i: nat | 2 <= i < NBINS && bins'[i] != [] ensures Bit(binmap[i / 32], i % 32) {
      assert bins[i] != [];
    }
  }

  lemma MarkMapped(binmap: seq<nat>, bins: seq<seq<Addr>>, j: nat, q: seq<Addr>)
    requires Mapped(binmap, bins) && 2 <= j < NBINS
    ensures Mapped(binmap[j / 32 := SetBit(binmap[j / 32], j % 32)], bins[j := q])
  {
    hide Bit, Pow2;
    var map', bins' := binmap[j / 32 := SetBit(binmap[j / 32], j % 32)], bins[j := q];
    SetBitBound(binmap[j / 32], j % 32, 32);
    forall i: nat | 2 <= i < NBINS && bins'[i] != [] ensures Bit(map'[i / 32], i % 32) {
      assert i != j ==> bins'[i] == bins[i];
    }
  }

  lemma UnmarkMapped(binmap: seq<nat>, bins: seq<seq<Addr>>, j: nat)
    requires Mapped(binmap, bins) && 2 <= j < NBINS && bins[j] == []
    ensures Mapped(binmap[j / 32 := ClearBit(binmap[j / 32], j % 32)], bins)
  {
    var map' := binmap[j / 32 := ClearBit(binmap[j / 32], j % 32)];
    forall i: nat | 2 <= i < NBINS && bins[i] != [] ensures Bit(map'[i / 32], i % 32) {
      assert i != j;
      assert i / 32 == j / 32 ==> i % 32 != j % 32;
    }
  }

  // ---- what the user keeps

  lemma UserThrough(h: Heap, m: Mem, h1: Heap, m1: Mem, h2: Heap, m2: Mem)
    requires LiveKept(h, h1) && PayloadKept(h, m, m1) && LiveKept(h1, h2) && PayloadKept(h1, m1, m2)
    ensures LiveKept(h, h2) && PayloadKept(h, m, m2)
  {
    SamePayload(h, h1, m1, m2);
    PayloadThrough(h, m, m1, m2);
  }

  lemma PopLive(h: Heap, p: Addr, m: Mem)
    requires p in h && h[p].use.Fast?
    ensures LiveKept(h, Retag(h, p, Limbo)) && PayloadKept(h, m, m)
    ensures NoLimbo(h) ==> forall x :: x in Retag(h, p, Limbo) && Retag(h, p, Limbo)[x].use.Limbo? ==> x == p
  {
  }

  lemma LimboGone(h: Heap, h': Heap, p: Addr)
    requires LimboLess(h, h', p) && forall x :: x in h && h[x].use.Limbo? ==> x == p
    ensures NoLimbo(h')
  {
  }

  lemma FastEmpty(a: Arena, i: nat)
    requires Core(a) && 8 <= i < NFASTBINS
    ensures a.fasts[i] == []
  {
    if a.fasts[i] != [] {
      InFast(a, i);
    }
  }

  /** Nothing fits: every bin above that of nb is empty, and no chunk of its own bin is large enough. */
  lemma NothingFits(a: Arena, nb: nat)
    requires Good(a) && a.bins[1] == []
    requires forall i :: BinIndex(nb) < i < NBINS ==> a.bins[i] == []
    requires forall x :: 0 <= BinIndex(nb) < NBINS && x in a.bins[BinIndex(nb)] && x in a.heap ==> a.heap[x].size < nb
    ensures NoFit(a.heap, nb)
  {
    forall x | x in a.heap && a.heap[x].use.Free? ensures a.heap[x].size < nb {
      FreeIsBinned(a, x);
      if a.heap[x].size >= nb {
        BinIndexMonotone(nb, a.heap[x].size);
        BinIndexBounds(nb);
      }
    }
  }

  /** The scan of the bin of a large request finds the best fit: the last chunk large enough. */
  lemma ScannedIsBest(a: Arena, nb: nat, k: nat)
    requires Good(a) && a.bins[1] == [] && nb >= MIN_LARGE_SIZE
    requires 0 <= BinIndex(nb) < NBINS && k < |a.bins[BinIndex(nb)]|
    requires var q := a.bins[BinIndex(nb)];
      q[k] in a.heap && a.heap[q[k]].size >= nb && forall j :: k < j < |q| && q[j] in a.heap ==> a.heap[q[j]].size < nb
    ensures BestFit(a.heap, a.bins[BinIndex(nb)][k], nb)
  {
    var i := BinIndex(nb);
    var q := a.bins[i];
    BinIndexBounds(nb);
    BinnedTag(a, i, k);
    assert Sorted(a.heap, q);
    forall x | x in a.heap && a.heap[x].use.Free? && a.heap[x].size >= nb ensures a.heap[q[k]].size <= a.heap[x].size {
      FreeIsBinned(a, x);
      BinIndexMonotone(nb, a.heap[x].size);
      if BinIndex(a.heap[x].size) == i {
        var j :| 0 <= j < |q| && q[j] == x;
        assert j <= k;
      } else if a.heap[x].size < a.heap[q[k]].size {
        BinIndexMonotone(a.heap[x].size, a.heap[q[k]].size);
      }
    }
  }

  /** Two ways to write the links of a chunk that is alone in its list. */
  lemma AloneLinks(m: Mem, u: Addr, q: Addr)
    requires u % 8 == 0 && q % 8 == 0 && u != q
    ensures m[u + 12 := q][u + 8 := q][q + 12 := u][q + 8 := u] == Spliced(m, q, u, u)
    ensures Spliced(m[u + 12 := u][u + 8 := u], q, u, u) == Spliced(m, q, u, u)
  {
  }

  /** Taking a free chunk leaves nothing in the hands of the allocator. */
  lemma ExactNoLimbo(a: Arena, i: nat, k: nat)
    requires Sized(a) && i < NBINS && k < |a.bins[i]| && a.bins[i][k] in a.heap && NoLimbo(a.heap)
    ensures NoLimbo(ExactTaken(a, i, k).heap)
  {
    UnlinkedIs(a, i, k);
  }

  lemma SplitNoLimbo(a: Arena, i: nat, k: nat, n: nat)
    requires Sized(a) && i < NBINS && k < |a.bins[i]| && a.bins[i][k] in a.heap &&
      0 < n < a.heap[a.bins[i][k]].size && NoLimbo(a.heap)
    ensures NoLimbo(SplitTaken(a, i, k, n).heap)
  {
    UnlinkedIs(a, i, k);
    var p := a.bins[i][k];
    var a2 := Unlinked(a, i, k).(heap := Split(Unlinked(a, i, k).heap, p, n, Live, Limbo));
    InsertedIs(a2, 1, 0, p + n);
  }
}
