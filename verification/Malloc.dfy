/** malloc and free of shared/malloc.c, with the heap the kernel and the user library give them: memory from
    one contiguous sbrk that never shrinks, and no mmap. Memory is read and written word by word. */
module Malloc {
  import opened Arith
  import opened MallocSizes
  import opened MallocHeap
  import opened MallocArena

  /** The heap ends far enough from the end of the address space for page rounding not to wrap. */
  const LIMIT: int := 0xF000_0000
  const PAGE: int := 0x1000
  const CONSOLIDATION_THRESHOLD: int := 0x2_0000

  /** The live chunks that remain when p is gone. */
  ghost predicate Taken(h: Heap, h': Heap, p: Addr) {
    && !(p in h' && h'[p].use.Live?)
    && forall q :: q != p ==> (q in h' && h'[q].use.Live? <==> q in h && h[q].use.Live?) &&
                              (q in h && h[q].use.Live? ==> h'[q].size == h[q].size)
  }

  /** The chunk q of that size, free or top, holds all of what was a chunk of n bytes at p. */
  ghost predicate Merged(h: Heap, q: Addr, size: nat, p: Addr, n: nat) {
    q in h && (h[q].use.Free? || h[q].use.Top?) && h[q].size == size && q <= p && p + n <= q + size
  }

  lemma TakenAfter(h: Heap, h': Heap, p: Addr)
    requires p in h && LiveKept(Retag(h, p, Limbo), h')
    ensures Taken(h, h', p)
  {
  }

  lemma GoodIsCore(a: Arena)
    requires Good(a)
    ensures Core(a)
  {
  }

  lemma UserAtFirst(h: Heap, m: Mem)
    ensures LiveKept(h, h) && PayloadKept(h, m, m)
  {
  }

  /** The header of an empty bin. */
  predicate SelfLinked(m: Mem, j: int) {
    Fd(m, BinAt(j)) == BinAt(j) && Bk(m, BinAt(j)) == BinAt(j)
  }

  lemma SelfLink(m: Mem, m': Mem, i: int)
    requires i >= 1 && m' == m[BinAt(i) + 12 := BinAt(i)][BinAt(i) + 8 := BinAt(i)]
    ensures SelfLinked(m', i) && SizeField(m', BinAt(1)) == SizeField(m, BinAt(1))
    ensures forall j {:trigger SelfLinked(m', j)} :: SelfLinked(m, j) ==> SelfLinked(m', j)
  {
  }

  lemma InitialRings(a: Arena)
    requires NothingListed(a.bins, a.fasts, a.heads) && a.heap == map[]
    requires forall j {:trigger SelfLinked(a.mem, j)} :: 1 <= j < NBINS ==> SelfLinked(a.mem, j)
    ensures NoChunks(a)
  {
    forall j | 1 <= j < NBINS ensures Ring(a.mem, BinAt(j), a.bins[j]) {
      assert a.bins[j] == [] && SelfLinked(a.mem, j);
      EmptyRing(a.mem, BinAt(j));
    }
    forall k | 0 <= k < NFASTBINS ensures a.fasts[k] == [] && a.heads[k] == 0 {
      assert a.fasts[k] == [];
    }
  }

  lemma EmptyRing(m: Mem, head: Addr)
    requires Fd(m, head) == head && Bk(m, head) == head
    ensures Ring(m, head, [])
  {
    assert LinkedAt(m, head, [], 0);
  }

  /** The header of a live chunk. */
  lemma LiveTag(a: Arena, p: Addr)
    requires Good(a) && p in a.heap && a.heap[p].use.Live?
    ensures ChunkSize(a.mem, p) == a.heap[p].size && a.heap[p].size % 8 == 0 && a.heap[p].size >= MINSIZE
  {
    assert Tagged(a.mem, a.heap, p) && Placed(a.heap, a.base, a.top, p) && Placed(a.heap, a.base, a.top, a.top);
    ReadTag(a.mem, a.heap, a.base, a.top, p);
  }

  lemma AloneInLimbo(h: Heap, p: Addr)
    requires NoLimbo(h) && p in h
    ensures forall x :: x in Retag(h, p, Limbo) && Retag(h, p, Limbo)[x].use.Limbo? ==> x == p
  {
  }

  lemma NoLimboAgain(h: Heap, p: Addr, u: Use)
    requires p in h && !u.Limbo? && forall x :: x in h && h[x].use.Limbo? ==> x == p
    ensures NoLimbo(Retag(h, p, u))
  {
  }

  /** A call that returns r, a pointer past the header of a new chunk for nb bytes, or null. */
  ghost predicate Result(h: Heap, m: Mem, h': Heap, m': Mem, r: Addr, nb: nat) {
    PayloadKept(h, m, m') && if r == 0 then LiveKept(h, h') else r > 0 && r % 8 == 0 && Given(h, h', r - 8, nb, nb + 8)
  }

  lemma ResultAfter(h: Heap, m: Mem, h1: Heap, m1: Mem, h2: Heap, m2: Mem, r: Addr, nb: nat)
    requires LiveKept(h, h1) && PayloadKept(h, m, m1) && Result(h1, m1, h2, m2, r, nb)
    ensures Result(h, m, h2, m2, r, nb)
  {
    SamePayload(h, h1, m1, m2);
    PayloadThrough(h, m, m1, m2);
  }

  lemma GivenWider8(h: Heap, h': Heap, p: Addr, nb: nat)
    requires Given(h, h', p, nb, nb)
    ensures Given(h, h', p, nb, nb + 8)
  {
  }

  /** x rounded up to a page. */
  function PageUp(x: int): int {
    (x + PAGE - 1) / PAGE * PAGE
  }

  lemma PageUpIs(x: int)
    ensures x <= PageUp(x) < x + PAGE && PageUp(x) % PAGE == 0 && PageUp(x) % 8 == 0
    ensures x % 4 == 0 ==> (PageUp(x) - x) % 4 == 0
  {
    var q := (x + PAGE - 1) / PAGE;
    ModUnique(PageUp(x), PAGE, q, 0);
    ModUnique(PageUp(x), 8, 512 * q, 0);
    if x % 4 == 0 {
      ModUnique(PageUp(x) - x, 4, 1024 * q - x / 4, 0);
    }
  }

  /** The first chunk is aligned, and at most one word is lost in front of it. */
  lemma FirstAligned(b: Addr, size: nat, aligned: Addr, correction: int)
    requires b % 4 == 0 && size % PAGE == 0 && size > 0
    requires aligned == if (b + 8) % 8 > 0 then b + 8 - (b + 8) % 8 else b
    requires correction == aligned - b + (PageUp(aligned + size) - (aligned + size))
    ensures aligned % 8 == 0 && 0 <= aligned - b <= 4 && correction >= 0
    ensures var t := b + size - aligned; t >= MINSIZE && t % 4 == 0 && (t + correction) % 4 == 0
    ensures (b + size + correction) % 4 == 0
    ensures aligned - b <= correction <= PAGE
  {
    var e := aligned + size;
    var x, y := b / 4, size / PAGE;
    assert b == 4 * x && size == PAGE * y;
    if x % 2 == 0 {
      ModUnique(b + 8, 8, x / 2 + 1, 0);
      ModUnique(aligned, 8, x / 2, 0);
    } else {
      ModUnique(b + 8, 8, x / 2 + 1, 4);
      ModUnique(aligned, 8, x / 2 + 1, 0);
    }
    var a8 := aligned / 8;
    assert aligned == 8 * a8;
    ModUnique(e, 4, 2 * a8 + 1024 * y, 0);
    PageUpIs(e);
    var c := (PageUp(e) - e) / 4;
    assert PageUp(e) - e == 4 * c;
    assert c <= 1023;
    ModUnique(b + size - aligned, 4, x + 1024 * y - 2 * a8, 0);
    ModUnique(b + size - aligned + correction, 4, 1024 * y + c, 0);
    ModUnique(b + size + correction, 4, 1024 * y + c + 2 * a8, 0);
  }

  /** Going round a bin, the header is met only at the ends. */
  lemma NotAround(a: Arena, i: nat, k: nat)
    requires Core(a) && 1 <= i < NBINS && k <= |a.bins[i]|
    ensures Queue.Around(BinAt(i), a.bins[i], k) == BinAt(i) <==> k == 0
  {
    assert Ring(a.mem, BinAt(i), a.bins[i]);
  }

  /** The bins from lo on and below hi are empty. */
  ghost predicate Bare(bins: seq<seq<Addr>>, lo: nat, hi: nat) {
    |bins| == NBINS && forall i :: 2 <= i < NBINS && lo <= i < hi ==> bins[i] == []
  }

  lemma NothingBetween(bins: seq<seq<Addr>>, i: nat)
    requires |bins| == NBINS
    ensures Bare(bins, i, i)
  {
  }

  lemma BareOn(bins: seq<seq<Addr>>, lo: nat, mid: nat, hi: nat)
    requires Bare(bins, lo, mid) && Bare(bins, mid, hi)
    ensures Bare(bins, lo, hi)
  {
  }

  lemma BareAt(bins: seq<seq<Addr>>, lo: nat, j: nat)
    requires Bare(bins, lo, j) && (2 <= j < NBINS ==> bins[j] == [])
    ensures Bare(bins, lo, j + 1)
  {
  }

  lemma NoneLeft(a: Arena, nb: nat, lo: nat, hi: nat)
    requires Good(a) && a.bins[1] == [] && lo == BinIndex(nb) + 1 && 2 <= BinIndex(nb) < NBINS <= hi &&
      Bare(a.bins, lo, hi)
    requires forall x :: x in a.bins[BinIndex(nb)] && x in a.heap ==> a.heap[x].size < nb
    ensures NoFit(a.heap, nb)
  {
    hide Good, BinIndex, NoFit;
    NothingFits(a, nb);
  }

  lemma FirstFound(a: Arena, nb: nat, lo: nat, j: nat)
    requires Good(a) && a.bins[1] == [] && lo == BinIndex(nb) + 1 && 2 <= BinIndex(nb) < j < NBINS &&
      Bare(a.bins, lo, j)
    requires a.bins[j] != [] && forall x :: x in a.bins[BinIndex(nb)] && x in a.heap ==> a.heap[x].size < nb
    ensures BestFit(a.heap, a.bins[j][|a.bins[j]| - 1], nb) && a.bins[j][|a.bins[j]| - 1] != 0
  {
    hide Good, BinIndex, BestFit;
    LastIsBest(a, nb, j);
    BinnedTag(a, j, |a.bins[j]| - 1);
  }

  /** What last(b) reads. */
  lemma LastOf(a: Arena, j: nat)
    requires Good(a) && 1 <= j < NBINS
    ensures Bk(a.mem, BinAt(j)) == if a.bins[j] == [] then BinAt(j) else a.bins[j][|a.bins[j]| - 1]
    ensures a.bins[j] != [] ==> Bk(a.mem, BinAt(j)) != BinAt(j)
  {
    hide Good, Bk;
    GoodIsCore(a);
    BinLinks(a, j, |a.bins[j]| + 1);
    NotAround(a, j, |a.bins[j]|);
  }

  lemma WordOf(i: nat, block: nat)
    requires 32 * block <= i < 32 * block + 32
    ensures i / 32 == block && i % 32 == i - 32 * block
  {
  }

  lemma RestEmpty(binmap: seq<nat>, bins: seq<seq<Addr>>, block: nat, bit: nat)
    requires Mapped(binmap, bins) && block <= BINMAPSIZE && bit <= 32 && binmap[block] < Pow2(bit)
    ensures Bare(bins, 32 * block + bit, 32 * block + 32)
  {
    hide Bit, Pow2;
    forall i | 2 <= i < NBINS && 32 * block + bit <= i < 32 * block + 32 ensures bins[i] == [] {
      WordOf(i, block);
      NoBitsAbove(binmap[block], bit, i % 32);
    }
  }

  lemma ClearIsEmpty(binmap: seq<nat>, bins: seq<seq<Addr>>, block: nat, bit: nat)
    requires Mapped(binmap, bins) && block <= BINMAPSIZE && bit < 32 && !Bit(binmap[block], bit)
    ensures 2 <= 32 * block + bit < NBINS ==> bins[32 * block + bit] == []
  {
    var i := 32 * block + bit;
    assert i / 32 == block && i % 32 == bit;
  }

  lemma ZeroEmpty(binmap: seq<nat>, bins: seq<seq<Addr>>, block: nat)
    requires Mapped(binmap, bins) && block <= BINMAPSIZE && binmap[block] == 0
    ensures forall i :: 2 <= i < NBINS && 32 * block <= i < 32 * block + 32 ==> bins[i] == []
  {
    RestEmpty(binmap, bins, block, 0);
  }

  lemma NotZero(w: nat)
    requires w > 0
    ensures Pow2(0) <= w
  {
  }

  lemma MappedWords(binmap: seq<nat>, bins: seq<seq<Addr>>)
    requires Mapped(binmap, bins)
    ensures |binmap| == BINMAPSIZE + 1 && binmap[BINMAPSIZE] == 0 && |bins| == NBINS
    ensures forall b :: 0 <= b < BINMAPSIZE ==> binmap[b] < Pow2(32)
  {
  }

  lemma PowBelow(bit: nat, w: nat)
    requires Pow2(bit) <= w < Pow2(32)
    ensures bit < 32
  {
    Pow2Monotone(32, if bit < 32 then 32 else bit);
  }

  /** w | PREV_INUSE. */
  function OrOne(w: int): int {
    w / 2 * 2 + 1
  }

  lemma OrOneOfEven(w: int)
    requires w % 4 == 0
    ensures OrOne(w) == w + 1
  {
    var x := w / 4;
    assert w == 4 * x;
    ModUnique(w, 2, 2 * x, 0);
  }

  /** The header after a free chunk is even. */
  lemma EvenBit(a: Arena, i: nat, k: nat)
    requires Good(a) && 1 <= i < NBINS && k < |a.bins[i]|
    ensures a.bins[i][k] in a.heap && Next(a.heap, a.bins[i][k]) in a.heap
    ensures var e := Next(a.heap, a.bins[i][k]); OrOne(a.heap[e].size) == a.heap[e].size + 1 && e != a.bins[i][k]
    ensures var e := Next(a.heap, a.bins[i][k]); SizeField(Unlinked(a, i, k).mem, e) == a.heap[e].size
  {
    hide OrOne;
    AfterFree(a, i, k);
    UnlinkGood(a, i, k);
    UnlinkedIs(a, i, k);
    var e := Next(a.heap, a.bins[i][k]);
    assert a.heap[e].size % 4 == 0 by { EvenSize(a.heap, a.base, a.top, e); }
    OrOneOfEven(a.heap[e].size);
  }

  lemma EvenSize(h: Heap, base: Addr, top: Addr, e: Addr)
    requires Shape(h, base, top) && e in h
    ensures h[e].size % 4 == 0
  {
    assert Placed(h, base, top, e);
    if e != top {
      MultiplesOf4(0, h[e].size);
    }
  }

  lemma InBinAligned(a: Arena, i: nat, k: nat)
    requires Good(a) && 1 <= i < NBINS && k < |a.bins[i]|
    ensures a.bins[i][k] % 8 == 0 && a.bins[i][k] > 0
  {
    BinnedTag(a, i, k);
  }

  /** A chunk is in one bin, once. */
  lemma SamePosition(a: Arena, i: nat, k: nat, i': nat, k': nat)
    requires Core(a) && 1 <= i < NBINS && k < |a.bins[i]| && 1 <= i' < NBINS && k' < |a.bins[i']| &&
      a.bins[i][k] == a.bins[i'][k']
    ensures i == i' && k == k'
  {
    InBin(a, i, a.bins[i][k]);
    InBin(a, i', a.bins[i'][k']);
    assert Ring(a.mem, BinAt(i), a.bins[i]);
  }

  lemma SizeLeft(size: nat, nb: nat)
    requires size % 8 == 0 && nb % 8 == 0 && nb <= size < nb + 16
    ensures size == nb || size == nb + 8
  {
    MultiplesOf8(size, nb);
  }

  lemma ResultOf(h: Heap, m: Mem, h': Heap, m': Mem, p: Addr, nb: nat, n: nat)
    requires Given(h, h', p, n, n) && nb <= n <= nb + 8 && PayloadKept(h, m, m') && p > 0 && p % 8 == 0
    ensures Result(h, m, h', m', p + 8, nb)
  {
    MultiplesOf8(p, 8);
  }

  /** Size fields in a bin, once a chunk has left the unsorted list. */
  lemma BinnedAfter(a: Arena, k: nat, j: nat, l: nat)
    requires Good(a) && k < |a.bins[1]| && a.bins[1][k] in a.heap && 2 <= j < NBINS && l < |a.bins[j]|
    ensures var m, x := Unlinked(a, 1, k).mem, a.bins[j][l]; x in a.heap && SizeField(m, x) == a.heap[x].size + 1
    ensures a.heap[a.bins[j][l]].size % 8 == 0
  {
    BinnedTag(a, j, l);
    UnlinkKeeps(a, 1, k);
    assert HeaderSame(a.mem, Unlinked(a, 1, k).mem, a.bins[j][l]);
  }

  /** size is a multiple of 8, so size < n | 1 says size <= n. */
  lemma FitsLast(a: Arena, j: nat, p: Addr)
    requires Good(a) && NSMALLBINS <= j < NBINS && a.bins[j] != [] && p in a.heap &&
      a.bins[j][|a.bins[j]| - 1] in a.heap
    requires a.heap[p].size < a.heap[a.bins[j][|a.bins[j]| - 1]].size + 1
    ensures Fits(a.heap, a.bins[j], |a.bins[j]|, p)
  {
    var q := a.bins[j];
    assert Sorted(a.heap, q);
    forall i | 0 <= i < |q| && q[i] in a.heap ensures a.heap[q[i]].size >= a.heap[p].size {
      assert i < |q| - 1 ==> a.heap[q[i]].size >= a.heap[q[|q| - 1]].size;
    }
  }

  lemma FitsHere(a: Arena, j: nat, l: nat, p: Addr)
    requires Good(a) && NSMALLBINS <= j < NBINS && l < |a.bins[j]| && p in a.heap && a.bins[j][l] in a.heap
    requires forall i :: 0 <= i < l && a.bins[j][i] in a.heap ==> a.heap[a.bins[j][i]].size >= a.heap[p].size
    requires a.heap[p].size >= a.heap[a.bins[j][l]].size
    ensures Fits(a.heap, a.bins[j], l, p)
  {
    assert Sorted(a.heap, a.bins[j]);
  }

  /** The walk along a large bin stops before its header. */
  lemma StepInside(a: Arena, j: nat, l: nat, size: nat)
    requires Good(a) && NSMALLBINS <= j < NBINS && l < |a.bins[j]| && a.bins[j][l] in a.heap &&
      a.heap[a.bins[j][l]].size > size
    requires a.bins[j][|a.bins[j]| - 1] in a.heap && size >= a.heap[a.bins[j][|a.bins[j]| - 1]].size + 1
    ensures l + 1 < |a.bins[j]|
  {
  }

  lemma FitsEmpty(a: Arena, a1: Arena, k: nat, j: nat, p: Addr, fwd: Addr)
    requires Good(a) && k < |a.bins[1]| && a.bins[1][k] == p && p in a.heap && a1 == Unlinked(a, 1, k) &&
      Core(a1) && 2 <= j < NBINS
    requires fwd == Queue.Around(BinAt(j), a.bins[j], 1)
    requires j < NSMALLBINS || fwd == BinAt(j)
    ensures j >= NSMALLBINS ==> Fits(a.heap, a.bins[j], 0, p)
  {
    UnlinkedIs(a, 1, k);
    assert Ring(a1.mem, BinAt(j), a1.bins[j]);
  }

  /** The split of the only unsorted chunk, in the order malloc writes it. */
  lemma AloneSplit(a: Arena, p: Addr, n: nat)
    requires Good(a) && a.bins[1] == [p] && p in a.heap && 0 < n < a.heap[p].size && p % 8 == 0 && n % 8 == 0 && p > 0
    ensures var u, q, r := BinAt(1), p + n, a.heap[p].size - n;
      SplitTaken(a, 1, 0, n) == a.(heap := SplitTaken(a, 1, 0, n).heap, bins := SplitTaken(a, 1, 0, n).bins,
        mem := a.mem[u + 12 := q][u + 8 := q][q + 12 := u][q + 8 := u][p + 4 := n + 1][q + 4 := r + 1][q + r := r])
  {
    var u, q := BinAt(1), p + n;
    MultiplesOf8(p, n);
    AloneLinks(a.mem, u, q);
    var a1 := Unlinked(a, 1, 0);
    assert a1.bins[1] == [];
    assert a1.mem == a.mem[u + 12 := u][u + 8 := u];
  }

  lemma SplitUnlinked(a: Arena, i: nat, k: nat, n: nat)
    requires Sized(a) && i < NBINS && k < |a.bins[i]| && a.bins[i][k] in a.heap && 0 < n < a.heap[a.bins[i][k]].size
    ensures var a1, p := Unlinked(a, i, k), a.bins[i][k];
      Sized(a1) && p in a1.heap && a1.heap[p].size == a.heap[p].size && SplitTaken(a, i, k, n) == CutTaken(a1, p, n)
  {
    UnlinkedIs(a, i, k);
  }

  /** The writes of a split whose remainder is alone in the unsorted list. */
  lemma CutIs(a: Arena, p: Addr, n: nat)
    requires Sized(a) && a.bins[1] == [] && p in a.heap && 0 < n < a.heap[p].size && (p + n) % 8 == 0 && p + n > 0
    ensures p + n in Split(a.heap, p, n, Live, Limbo)
    ensures var u, q, r := BinAt(1), p + n, a.heap[p].size - n;
      CutTaken(a, p, n) == a.(heap := Retag(Split(a.heap, p, n, Live, Limbo), q, Use.Free(1)), bins := a.bins[1 := [q]],
        mem := a.mem[u + 12 := q][u + 8 := q][q + 12 := u][q + 8 := u][p + 4 := n + 1][q + 4 := r + 1][q + r := r])
  {
    AloneLinks(a.mem, BinAt(1), p + n);
    assert [][..0] + [p + n] + [][0..] == [p + n];
  }

  lemma SplitLists(a: Arena, i: nat, k: nat, n: nat)
    requires Sized(a) && i < NBINS && k < |a.bins[i]| && a.bins[i][k] in a.heap && 0 < n < a.heap[a.bins[i][k]].size
    ensures var a' := SplitTaken(a, i, k, n);
      Sized(a') && a'.heads == a.heads && a'.fasts == a.fasts && a'.top == a.top && a'.base == a.base
  {
  }

  lemma ExactLists(a: Arena, i: nat, k: nat)
    requires Sized(a) && i < NBINS && k < |a.bins[i]| && a.bins[i][k] in a.heap
    ensures var a' := ExactTaken(a, i, k);
      Sized(a') && a'.heads == a.heads && a'.fasts == a.fasts && a'.top == a.top && a'.base == a.base
  {
  }

  lemma UnsortedHead(a: Arena)
    requires Good(a)
    ensures Bk(a.mem, BinAt(1)) == BinAt(1) <==> a.bins[1] == []
  {
    BinLinks(a, 1, |a.bins[1]| + 1);
    NotAround(a, 1, |a.bins[1]|);
  }

  /** What is read from the last unsorted chunk. */
  lemma LastUnsorted(a: Arena)
    requires Good(a) && a.bins[1] != []
    ensures var p := a.bins[1][|a.bins[1]| - 1];
      Bk(a.mem, BinAt(1)) == p && p in a.heap && ChunkSize(a.mem, p) == a.heap[p].size && p > 0 && p % 8 == 0 &&
      (Bk(a.mem, p) == BinAt(1) <==> a.bins[1] == [p]) && a.heap[p].size % 8 == 0 && a.heap[p].use == Use.Free(1)
  {
    var n := |a.bins[1]|;
    BinLinks(a, 1, n + 1);
    BinLinks(a, 1, n);
    NotAround(a, 1, n - 1);
    BinnedTag(a, 1, n - 1);
  }

  lemma UnlinkFewer(a: Arena, k: nat)
    requires Sized(a) && k < |a.bins[1]| && a.bins[1][k] in a.heap
    ensures Fewer(a.bins, Unlinked(a, 1, k).bins)
  {
    UnlinkedIs(a, 1, k);
    FewerAfterCut(a.bins, 1, k);
  }

  /** Binning a chunk changes nothing the user sees, and only two lists. */
  lemma MovedRest(a: Arena, k: nat, j: nat, l: nat)
    requires Good(a) && k < |a.bins[1]| && a.bins[1][k] in a.heap && 2 <= j < NBINS && l <= |a.bins[j]|
    ensures var a' := Moved(a, k, j, l);
      LiveKept(a.heap, a'.heap) && (NoLimbo(a.heap) ==> NoLimbo(a'.heap)) && a'.top == a.top && a'.heads == a.heads &&
      a'.fasts == a.fasts && |a'.bins| == NBINS && a'.bins[1] == a.bins[1][..k] + a.bins[1][k + 1..] &&
      SameFree(a.heap, a'.heap)
    ensures forall i :: 2 <= i < NBINS && i != j ==> Moved(a, k, j, l).bins[i] == a.bins[i]
    ensures a.top in a.heap && a.top in Moved(a, k, j, l).heap &&
      Next(Moved(a, k, j, l).heap, a.top) == Next(a.heap, a.top)
  {
    UnlinkedIs(a, 1, k);
    InsertedIs(Unlinked(a, 1, k), j, l, a.bins[1][k]);
    InBin(a, 1, a.bins[1][k]);
  }

  /** A chunk that is not an exact fit goes to another bin than that of a small request. */
  lemma OtherBin(nb: nat, size: nat)
    requires size != nb && size % 8 == 0 && nb % 8 == 0
    ensures nb < MIN_LARGE_SIZE ==> BinIndex(size) != BinIndex(nb)
  {
    BinIndexBounds(size);
    BinIndexBounds(nb);
    if nb < MIN_LARGE_SIZE && BinIndex(size) == BinIndex(nb) {
      SmallSizes(size, nb);
    }
  }

  /** A chunk size that request2size gives. */
  predicate Padded(nb: nat) {
    nb % 8 == 0 && nb >= MINSIZE && nb + MINSIZE < WORD
  }

  /** sYSMALLOc asks malloc again for a size that pads to the same. */
  lemma RepeatedSize(nb: nat)
    requires Padded(nb) && nb < MIN_LARGE_SIZE
    ensures nb - 7 >= 0 && nb - 7 < WORD && !OutOfRange(nb - 7) && Request2Size(nb - 7) == nb
  {
    MultiplesOf8(nb, 8);
  }

  /** A size that survives page rounding on 32 bits is large enough. */
  lemma PageSize(want: nat, size: int)
    requires size == (want + PAGE - 1) % WORD / PAGE * PAGE && 0 < size && want < WORD
    ensures size >= want && size % PAGE == 0 && size % 8 == 0 && size % 4 == 0
  {
    var sum := want + PAGE - 1;
    if sum < WORD {
      ModUnique(sum, WORD, 0, sum);
      PageUpIs(want);
      ModUnique(size, 4, 2 * (size / 8), 0);
    } else {
      ModUnique(sum, WORD, 1, sum - WORD);
      ModUnique(sum - WORD, PAGE, 0, sum - WORD);
    }
  }

  lemma WordAligned(a: int, size: int)
    requires size % 8 == 0
    ensures a % 4 == 0 ==> (a + size) % 4 == 0
  {
    if a % 4 == 0 {
      MultiplesOf4(a, size);
    }
  }

  lemma NobodyThere(m: Mem, m': Mem)
    ensures LiveKept(map[], map[]) && PayloadKept(map[], m, m')
  {
  }

  lemma FastGiven(a: Arena, p: Addr)
    requires Good(a) && p in a.heap && a.heap[p].use.Fast?
    ensures Given(a.heap, Retag(a.heap, p, Live), p, a.heap[p].size, a.heap[p].size) && p % 8 == 0
    ensures NoLimbo(a.heap) ==> NoLimbo(Retag(a.heap, p, Live))
    ensures PayloadKept(a.heap, a.mem, a.mem) && p != a.top
  {
    assert Placed(a.heap, a.base, a.top, p);
  }

  lemma IndexOf(nb: nat)
    requires Padded(nb)
    ensures BinIndex(nb) == (if nb < MIN_LARGE_SIZE then nb / 8 else LargeBinIndex(nb)) && 2 <= BinIndex(nb) < NBINS
  {
    BinIndexBounds(nb);
  }

  lemma NothingGiven(h: Heap, m: Mem, h': Heap, m': Mem, nb: nat)
    requires LiveKept(h, h') && PayloadKept(h, m, m')
    ensures Result(h, m, h', m', 0, nb)
  {
  }

  lemma NothingYet(h: Heap, m: Mem, h': Heap, m': Mem, nb: nat)
    requires Result(h, m, h', m', 0, nb)
    ensures LiveKept(h, h') && PayloadKept(h, m, m')
  {
  }

  lemma FitIsFit(h: Heap, p: Addr, nb: nat)
    requires BestFit(h, p, nb)
    ensures p in h && h[p].use.Free? && h[p].size >= nb
  {
  }

  ghost predicate AllUser(h: Heap) {
    forall p :: p in h ==> h[p].use.Live? || h[p].use.Top?
  }

  lemma NothingFreed(h: Heap, nb: nat)
    requires AllUser(h)
    ensures NoFit(h, nb)
  {
  }

  /** What sbrk is asked for, in 32 bits, for want more bytes. */
  lemma Refusal(want: nat, size: int)
    requires size == (want + PAGE - 1) % WORD / PAGE * PAGE && 0 < want < WORD
    ensures 0 < size < 0x8000_0000 ==> size == PageUp(want)
    ensures !(0 < size < 0x8000_0000) ==> PageUp(want) >= 0x8000_0000
  {
    if want + PAGE - 1 < WORD {
      PageUpIs(want);
    } else {
      PageUpIs(want);
      var over := want + PAGE - 1 - WORD;
      ModUnique(want + PAGE - 1, WORD, 1, over);
      ModUnique(over, PAGE, 0, over);
    }
  }

  lemma LastPage(want: int)
    requires 0 < want <= 4
    ensures PageUp(want) == PAGE
  {
    ModUnique(want + PAGE - 1, PAGE, 1, want - 1);
  }

  // ---- which chunk malloc gives

  /** The same chunks, of the same sizes, are free. */
  ghost predicate SameFree(h: Heap, h': Heap) {
    h'.Keys == h.Keys &&
    forall x {:trigger h'[x]} :: x in h ==> h'[x].size == h[x].size && (h'[x].use.Free? <==> h[x].use.Free?)
  }

  lemma SameFreeFits(h: Heap, h': Heap, nb: nat)
    requires SameFree(h, h')
    ensures NoFit(h', nb) <==> NoFit(h, nb)
    ensures HasExact(h', nb) <==> HasExact(h, nb)
    ensures forall p :: BestFit(h', p, nb) <==> BestFit(h, p, nb)
  {
    assert forall x :: x in h ==> h'[x].size == h[x].size && (h'[x].use.Free? <==> h[x].use.Free?);
    if HasExact(h, nb) {
      var x :| x in h && h[x].use.Free? && h[x].size == nb;
      assert x in h' && h'[x].use.Free? && h'[x].size == nb;
    }
  }

  lemma SameFreeThrough(h: Heap, h1: Heap, h2: Heap)
    requires SameFree(h, h1) && SameFree(h1, h2)
    ensures SameFree(h, h2)
  {
  }

  ghost predicate HasExact(h: Heap, nb: nat) {
    exists x :: x in h && h[x].use.Free? && h[x].size == nb
  }

  lemma ExactIsBest(h: Heap, x: Addr, nb: nat)
    requires x in h && h[x].use.Free? && h[x].size == nb
    ensures BestFit(h, x, nb) && HasExact(h, nb) && !NoFit(h, nb)
  {
  }

  /** The newest unsorted chunk is the remainder of the last split for a small request, and large enough to be split
      again for one. */
  ghost predicate Newest(a: Arena, last: Addr, nb: nat) {
    && nb < MIN_LARGE_SIZE && |a.bins| == NBINS && a.bins[1] != [] && a.bins[1][0] == last
    && last in a.heap && a.heap[last].use.Free? && a.heap[last].size > nb + MINSIZE
  }

  /** The chunk for nb bytes that a search finds: an exact fit if there is one; else, for a small request, the last
      remainder if it is the newest of the unsorted chunks; else the smallest free chunk that fits; and a part of top
      only when no free chunk fits. */
  ghost predicate Chosen(a: Arena, last: Addr, nb: nat, p: Addr) {
    if Newest(a, last, nb) && !HasExact(a.heap, nb) then p == last
    else if NoFit(a.heap, nb) then a.top in a.heap ==> p == a.top
    else BestFit(a.heap, p, nb)
  }

  /** The last remainder after the chunk p was taken for nb bytes: what is left of it, when it is cut for a small
      request. */
  ghost function RemainderAfter(a: Arena, last: Addr, nb: nat, p: Addr): Addr {
    if nb < MIN_LARGE_SIZE && p in a.heap && a.heap[p].use.Free? && a.heap[p].size >= nb + MINSIZE then p + nb else last
  }

  /** What is left of the chunk p, cut after nb bytes, is the only unsorted chunk. */
  ghost predicate Left(a: Arena, p: Addr, nb: nat, a': Arena) {
    && p in a.heap && |a'.bins| == NBINS && a'.bins[1] == [p + nb]
    && p + nb in a'.heap && a'.heap[p + nb].use.Free? && a'.heap[p + nb].size == a.heap[p].size - nb
  }

  /** What remains once the chunk p was taken for nb bytes, and whether it is remembered. */
  ghost predicate Remains(a: Arena, last: Addr, nb: nat, p: Addr, a': Arena, last': Addr) {
    && last' == RemainderAfter(a, last, nb, p)
    && (p in a.heap && a.heap[p].use.Free? && a.heap[p].size >= nb + MINSIZE ==> Left(a, p, nb, a'))
  }

  /** What is left of a chunk cut for a small request serves the next small one that it can be cut for again, right
      behind the first, unless a free chunk is an exact fit. */
  lemma RemainderIsNext(a: Arena, last: Addr, nb: nat, p: Addr, a': Arena, last': Addr, m: nat, q: Addr)
    requires Remains(a, last, nb, p, a', last') && p in a.heap && a.heap[p].use.Free?
    requires nb < MIN_LARGE_SIZE && m < MIN_LARGE_SIZE && a.heap[p].size > nb + m + MINSIZE
    ensures Left(a, p, nb, a') && !NoFit(a'.heap, m)
    ensures Chosen(a', last', m, q) && !HasExact(a'.heap, m) ==> q == p + nb
  {
    assert p + nb in a'.heap && a'.heap[p + nb].use.Free? && a'.heap[p + nb].size >= m;
  }

  lemma LeftBySplit(a: Arena, i: nat, k: nat, nb: nat)
    requires Sized(a) && 1 <= i < NBINS && k < |a.bins[i]| && a.bins[i][k] in a.heap
    requires 0 < nb < a.heap[a.bins[i][k]].size && Unlinked(a, i, k).bins[1] == []
    ensures Left(a, a.bins[i][k], nb, SplitTaken(a, i, k, nb))
  {
  }

  lemma LeftOfListed(a: Arena, i: nat, k: nat, nb: nat)
    requires Good(a) && 1 <= i < NBINS && k < |a.bins[i]| && a.bins[i][k] in a.heap
    requires 0 < nb < a.heap[a.bins[i][k]].size && Unlinked(a, i, k).bins[1] == []
    ensures Left(a, a.bins[i][k], nb, SplitTaken(a, i, k, nb))
  {
    hide Left, SplitTaken, Unlinked;
    GoodIsCore(a);
    CoreIsSized(a);
    LeftBySplit(a, i, k, nb);
  }

  lemma SameFreeRemains(a: Arena, a1: Arena, last: Addr, nb: nat, p: Addr, a': Arena, last': Addr)
    requires SameFree(a.heap, a1.heap) && Remains(a1, last, nb, p, a', last')
    ensures Remains(a, last, nb, p, a', last')
  {
    assert p in a.heap ==> a1.heap[p].size == a.heap[p].size && (a1.heap[p].use.Free? <==> a.heap[p].use.Free?);
  }

  lemma ExactRemains(a: Arena, last: Addr, nb: nat, p: Addr, a': Arena)
    requires p in a.heap && a.heap[p].size == nb
    ensures Remains(a, last, nb, p, a', last)
  {
  }

  /** An exact fit is taken if there is one; while any free chunk fits, one is taken that does, the smallest unless it
      is the last remainder; and top is cut only when none does. */
  lemma ChosenFits(a: Arena, last: Addr, nb: nat, p: Addr)
    requires Chosen(a, last, nb, p)
    ensures HasExact(a.heap, nb) ==> p in a.heap && a.heap[p].use.Free? && a.heap[p].size == nb
    ensures !NoFit(a.heap, nb) ==> p in a.heap && a.heap[p].use.Free? && a.heap[p].size >= nb
    ensures !NoFit(a.heap, nb) && p != last ==> BestFit(a.heap, p, nb)
    ensures nb >= MIN_LARGE_SIZE && !NoFit(a.heap, nb) ==> BestFit(a.heap, p, nb)
    ensures NoFit(a.heap, nb) && a.top in a.heap ==> p == a.top
  {
    if HasExact(a.heap, nb) {
      var x :| x in a.heap && a.heap[x].use.Free? && a.heap[x].size == nb;
      ExactIsBest(a.heap, x, nb);
    }
  }

  lemma ExactIsChosen(a: Arena, last: Addr, nb: nat, x: Addr)
    requires x in a.heap && a.heap[x].use.Free? && a.heap[x].size == nb
    ensures Chosen(a, last, nb, x) && !NoFit(a.heap, nb)
  {
    ExactIsBest(a.heap, x, nb);
  }

  /** With one unsorted chunk left, and the small bin of nb empty, no free chunk is an exact fit but, perhaps, that. */
  lemma NoExactLeft(a: Arena, nb: nat, v: Addr)
    requires Good(a) && a.bins[1] == [v] && v in a.heap && a.heap[v].size != nb
    requires 2 <= BinIndex(nb) < NBINS && a.bins[BinIndex(nb)] == []
    ensures !HasExact(a.heap, nb)
  {
    hide BinIndex;
    forall x | x in a.heap && a.heap[x].use.Free? ensures a.heap[x].size != nb {
      FreeIsListed(a, x);
      hide Good;
    }
  }

  /** A free chunk is unsorted, or in the bin of its size. */
  lemma FreeIsListed(a: Arena, x: Addr)
    requires Good(a) && x in a.heap && a.heap[x].use.Free?
    ensures x in a.bins[1] || (0 <= BinIndex(a.heap[x].size) < NBINS && x in a.bins[BinIndex(a.heap[x].size)])
  {
    hide BinIndex;
    assert Filed(a.heap[x]);
    assert x in a.bins[a.heap[x].use.i];
  }

  lemma SameFreeAtFirst(h: Heap)
    ensures SameFree(h, h)
  {
  }

  lemma NothingUnsorted(a: Arena, last: Addr, nb: nat)
    requires Sized(a)
    ensures a.bins[1] == [] ==> !Newest(a, last, nb)
  {
  }

  lemma OnePopped(all: seq<Addr>, q: seq<Addr>, q': seq<Addr>)
    requires 0 < |q| <= |all| && q == all[..|q|] && q' == q[..|q| - 1] + q[|q| - 1 + 1..]
    ensures |q'| == |q| - 1 && q' == all[..|q'|]
  {
  }

  /** The last remainder alone in the unsorted list, with no exact fit among the chunks sorted before. */
  lemma NewestIsChosen(first: Arena, a: Arena, nb: nat, v: Addr)
    requires SameFree(first.heap, a.heap) && Good(a) && a.bins[1] == [v] && v in a.heap && a.heap[v].use.Free?
    requires nb < MIN_LARGE_SIZE && a.heap[v].size > nb + MINSIZE && |first.bins| == NBINS
    requires first.bins[1] != [] && first.bins[1][0] == v
    requires 2 <= BinIndex(nb) < NBINS && a.bins[BinIndex(nb)] == []
    ensures Chosen(first, v, nb, v) && !NoFit(first.heap, nb)
  {
    hide Good, BinIndex, BestFit, HasExact;
    NoExactLeft(a, nb, v);
    SameFreeFits(first.heap, a.heap, nb);
    assert v in first.heap && a.heap[v].size == first.heap[v].size && first.heap[v].use.Free?;
  }

  lemma ExactFound(first: Arena, a: Arena, last: Addr, nb: nat, v: Addr)
    requires SameFree(first.heap, a.heap) && v in a.heap && a.heap[v].use.Free? && a.heap[v].size == nb
    ensures Chosen(first, last, nb, v) && !NoFit(first.heap, nb)
  {
    assert v in first.heap && a.heap[v].size == first.heap[v].size && first.heap[v].use.Free?;
    ExactIsChosen(first, last, nb, v);
  }

  /** The newest chunk was looked at, alone, and not taken. */
  lemma NewestPassed(first: Arena, a: Arena, last: Addr, nb: nat, v: Addr)
    requires SameFree(first.heap, a.heap) && v in a.heap
    requires |first.bins| == NBINS && first.bins[1] != [] && first.bins[1][0] == v
    requires !(nb < MIN_LARGE_SIZE && v == last && a.heap[v].size > nb + MINSIZE)
    ensures !Newest(first, last, nb)
  {
    assert v in first.heap && a.heap[v].size == first.heap[v].size;
  }

  /** s is a once all fastbins have been emptied: the user has lost nothing, no chunk is in a fastbin, and no two free
      chunks touch. */
  ghost predicate Swept(a: Arena, s: Arena) {
    && Good(s) && LiveKept(a.heap, s.heap) && s.base == a.base && (forall x :: x in s.heap ==> !s.heap[x].use.Fast?)
    && a.top in a.heap && s.top in s.heap && Next(s.heap, s.top) == Next(a.heap, a.top)
  }

  /** Sorting chunks before the fastbins are emptied makes no difference. */
  lemma SweptFrom(a: Arena, a1: Arena, s: Arena)
    requires Swept(a1, s) && SameFree(a.heap, a1.heap) && LiveKept(a.heap, a1.heap)
    requires a1.top == a.top && a1.base == a.base
    ensures Swept(a, s)
  {
    hide Good;
    assert a.top in a.heap && a1.heap[a.top].size == a.heap[a.top].size;
  }

  lemma BestIsChosen(a: Arena, last: Addr, nb: nat, p: Addr)
    requires BestFit(a.heap, p, nb) && !Newest(a, last, nb)
    ensures Chosen(a, last, nb, p) && !NoFit(a.heap, nb)
  {
  }

  /** Where nothing was ever freed. */
  lemma NothingToChoose(a: Arena, last: Addr, nb: nat, p: Addr)
    requires AllUser(a.heap)
    ensures NoFit(a.heap, nb) && ((a.top in a.heap ==> p == a.top) ==> Chosen(a, last, nb, p))
  {
  }

  lemma NothingRemains(a: Arena, last: Addr, nb: nat, p: Addr, a': Arena)
    requires NoFit(a.heap, nb)
    ensures Remains(a, last, nb, p, a', last)
  {
  }

  lemma TopIsChosen(a: Arena, last: Addr, nb: nat, p: Addr)
    requires NoFit(a.heap, nb) && !Newest(a, last, nb) && (a.top in a.heap ==> p == a.top)
    ensures Chosen(a, last, nb, p)
  {
  }

  lemma ExactNoSweep(a: Arena, fast: bool, nb: nat, x: Addr)
    requires nb < MIN_LARGE_SIZE && x in a.heap && a.heap[x].use.Free? && a.heap[x].size == nb
    ensures SearchedIn(a, fast, nb, a)
  {
  }

  lemma FitNoSweep(a: Arena, fast: bool, nb: nat, s: Arena)
    requires nb < MIN_LARGE_SIZE && !NoFit(a.heap, nb) && SearchedIn(a, fast, nb, s)
    ensures s == a
  {
    hide NoFit;
  }

  lemma SearchedNow(a: Arena, nb: nat, s: Arena)
    requires SearchedIn(a, false, nb, s)
    ensures s == a
  {
  }

  lemma SweptFirst(a: Arena, fast: bool, nb: nat, a1: Arena, s: Arena)
    requires nb >= MIN_LARGE_SIZE && (if fast then Swept(a, a1) else a1 == a) && SearchedIn(a1, false, nb, s)
    ensures SearchedIn(a, fast, nb, s)
  {
    hide Swept;
  }

  /** What decides whether the fastbins are emptied is the same before and after the unsorted pass. */
  lemma SearchFailed(s: Arena, a: Arena, fast: bool, nb: nat)
    requires SameFree(s.heap, a.heap) && a.top == s.top && NoFit(a.heap, nb)
    ensures nb < MIN_LARGE_SIZE ==>
      (Sweeps(s, fast, nb) <==> fast && a.top in a.heap && a.heap[a.top].size < nb + MINSIZE)
    ensures NoFit(s.heap, nb) && (s.top in s.heap <==> a.top in a.heap)
  {
    SameFreeFits(s.heap, a.heap, nb);
    assert a.top in s.heap ==> a.heap[a.top].size == s.heap[a.top].size;
  }

  lemma FastIsListed(a: Arena, x: Addr)
    requires Good(a) && x in a.heap && a.heap[x].use.Fast?
    ensures 0 <= a.heap[x].use.i < NFASTBINS && x in a.fasts[a.heap[x].use.i]
  {
    assert Filed(a.heap[x]);
  }

  lemma NoFastLeft(a: Arena)
    requires Good(a) && forall i {:trigger a.fasts[i]} :: 0 <= i < NFASTBINS ==> a.fasts[i] == []
    ensures forall x :: x in a.heap ==> !a.heap[x].use.Fast?
  {
    hide Good;
    if x :| x in a.heap && a.heap[x].use.Fast? {
      FastIsListed(a, x);
      assert false;
    }
  }

  /** Whether malloc empties the fastbins for nb bytes: for a large request before it searches, and for a small one when
      it has found nothing and top is too small. */
  ghost predicate Sweeps(a: Arena, fast: bool, nb: nat) {
    fast && (nb >= MIN_LARGE_SIZE || (NoFit(a.heap, nb) && a.top in a.heap && a.heap[a.top].size < nb + MINSIZE))
  }

  /** The arena that the last search of malloc saw. */
  ghost predicate SearchedIn(a: Arena, fast: bool, nb: nat, s: Arena) {
    if Sweeps(a, fast, nb) then Swept(a, s) else s == a
  }

  ghost predicate NothingListed(bins: seq<seq<Addr>>, fasts: seq<seq<Addr>>, fastbins: seq<Addr>) {
    && |bins| == NBINS && |fasts| == NFASTBINS && |fastbins| == NFASTBINS
    && (forall i {:trigger bins[i]} :: 0 <= i < NBINS ==> bins[i] == [])
    && (forall i {:trigger fasts[i]} :: 0 <= i < NFASTBINS ==> fasts[i] == [] && fastbins[i] == 0)
  }

  class Allocator {
    var mem: Mem
    var fastbins: seq<Addr>
    var binmap: seq<nat>
    var top: Addr
    var lastRemainder: Addr
    var maxFast: nat         // max_fast without its two flag bits, 0 before the first call
    var anyChunks: bool      // ANYCHUNKS_BIT
    var fastChunks: bool     // FASTCHUNKS_BIT
    var brk: Addr            // the end of the memory sbrk has given
    const heapEnd: Addr
    ghost var heap: Heap
    ghost var base: Addr
    ghost var bins: seq<seq<Addr>>
    ghost var heads: seq<Addr>  // the fastbins array, but for the list being consolidated
    ghost var fasts: seq<seq<Addr>>

    ghost function A(): Arena
      reads this
    {
      Arena(mem, heap, base, top, bins, heads, fasts)
    }

    /** Before the first call everything is zero. */
    ghost predicate Fresh()
      reads this
    {
      && maxFast == 0 && !anyChunks && !fastChunks && top == 0 && heap == map[] && mem == map[] && Blank()
    }

    /** Between malloc_init_state and the first call of sbrk, top points to the unsorted bin. */
    ghost predicate Initial()
      reads this
    {
      maxFast == MAX_FAST && !anyChunks && !fastChunks && top == BinAt(1) && SizeField(mem, top) == 0 &&
        NoChunks(A()) && Blank()
    }

    ghost predicate Blank()
      reads this
    {
      heads == fastbins && Mapped(binmap, bins) && NothingListed(bins, fasts, fastbins) && brk > 0 && brk % 4 == 0
    }

    /** In between calls, once there is memory. */
    ghost predicate Ready()
      reads this
    {
      Good(A()) && heads == fastbins && NoLimbo(heap) && Sound()
    }

    /** What does not concern single chunks. */
    ghost predicate Sound()
      reads this
    {
      SoundWith(A())
    }

    ghost predicate SoundWith(a: Arena)
      reads this`binmap, this`maxFast, this`brk, this`fastChunks, this`anyChunks
    {
      && Sized(a) && Mapped(binmap, a.bins) && maxFast == MAX_FAST
      && a.top in a.heap && Next(a.heap, a.top) == brk
      && (fastChunks ==> anyChunks)
      && (forall i {:trigger a.fasts[i]} :: 0 <= i < NFASTBINS && a.fasts[i] != [] ==> fastChunks)
    }

    ghost predicate Valid()
      reads this
    {
      brk <= heapEnd <= LIMIT && (Fresh() || Initial() || Ready()) && Touched()
    }

    /** Until the first free, every chunk is live, but top. */
    ghost predicate Touched()
      reads this
    {
      anyChunks || AllUser(heap)
    }

    ghost function TopSize(): int
      reads this
    {
      ChunkSize(mem, top)
    }

    /** No memory for a chunk of nb bytes: nothing free is large enough, nothing is left in the fastbins, top is
        too small, and sbrk refuses the pages that would make it large enough. */
    ghost predicate Exhausted(nb: nat)
      reads this
    {
      && NoFit(heap, nb) && !fastChunks && TopSize() < nb + MINSIZE
      && (PageUp(nb + MINSIZE - TopSize()) >= 0x8000_0000 || brk + PageUp(nb + MINSIZE - TopSize()) > heapEnd)
    }

    /** An address space with nothing allocated; sbrk gives memory from heapStart up to end. */
    constructor (heapStart: Addr, end: Addr)
      requires 0 < heapStart <= end <= LIMIT && heapStart % 4 == 0
      ensures Valid() && heap == map[]
    {
      mem, fastbins, binmap := map[], seq(NFASTBINS, _ => 0), seq(BINMAPSIZE + 1, _ => 0);
      top, lastRemainder, maxFast, anyChunks, fastChunks := 0, 0, 0, false, false;
      brk, heapEnd := heapStart, end;
      heap, base := map[], 0;
      bins, heads, fasts := seq(NBINS, _ => []), seq(NFASTBINS, _ => 0), seq(NFASTBINS, _ => []);
    }

    // ---- lists

    /** unlink: a free chunk leaves its bin. */
    method Unlink(p: Addr) returns (ghost i: nat, ghost k: nat)
      requires Core(A()) && p in heap && heap[p].use.Free?
      modifies this`mem, this`heap, this`bins
      ensures 1 <= i < NBINS && k < |old(bins)[i]| && old(bins)[i][k] == p && old(heap)[p].use == Use.Free(i)
      ensures A() == Unlinked(old(A()), i, k)
    {
      i := heap[p].use.i;
      assert Filed(heap[p]) && p in bins[i];
      k :| 0 <= k < |bins[i]| && bins[i][k] == p;
      assert Ring(mem, BinAt(i), bins[i]) && LinkedAt(mem, BinAt(i), bins[i], k) &&
        LinkedAt(mem, BinAt(i), bins[i], k + 1);
      var fd, bk := Fd(mem, p), Bk(mem, p);
      mem := mem[fd + 12 := bk];
      mem := mem[bk + 8 := fd];
      heap := Retag(heap, p, Limbo);
      bins := bins[i := bins[i][..k] + bins[i][k + 1..]];
    }

    /** "consolidate backward": the chunk before p0, if it is free, absorbs p0. */
    method JoinBack(p0: Addr, size0: nat) returns (p: Addr, size: nat)
      requires Good(A()) && p0 in heap && heap[p0].use.Limbo? && size0 == heap[p0].size
      modifies this`mem, this`heap, this`bins
      ensures p in heap && Held(A(), p, {p}) && heap[p].size == size && Apart(old(A()), A(), p0)
      ensures p == p0 || (p in old(heap) && old(heap)[p].use.Free?)
      ensures p <= p0 && LimboOnly(old(heap), heap, p0, p)
      ensures Next(heap, p) == Next(old(heap), p0) && top == old(top) && Next(heap, p) in old(heap) &&
        Next(heap, p) in heap
      ensures var e := Next(heap, p); heap[e].use == old(heap)[e].use && heap[e].size == old(heap)[e].size
    {
      hide Shape, Rings, Chains, Listed, AllSorted, AllCoalesced, TaggedBut, PayloadKept, LinksSame, LimboLinks;
      HeldAtFirst(A(), p0);
      if !PrevInUseBit(mem, p0) {
        var prevSize := PrevSize(mem, p0);
        size := size0 + prevSize;
        p := p0 - prevSize;
        PrevBinned(A(), p0);
        ghost var i, k := Unlink(p);
        BackKeeps(old(A()), p0, i, k);
        LimboAfterJoin(old(heap), p, p0, p);
        heap := Join(heap, p, Limbo);
        assert A() == BackJoined(old(A()), p0, i, k);
      } else {
        p, size := p0, size0;
      }
    }

    /** "consolidate forward": the chunk after p, not top, is absorbed if it is free; either way its header,
        or that of the one after it, now says that p is free. */
    method JoinForward(p: Addr, size0: nat) returns (size: nat)
      requires p in heap && Held(A(), p, {p}) && size0 == heap[p].size && Next(heap, p) in heap && Next(heap, p) != top
      modifies this`mem, this`heap, this`bins
      ensures p in heap && JoinedTo(old(A()), A(), p, p + size) && heap[p].size == size && Next(heap, p) == p + size
      ensures size >= size0
      ensures LimboOnly(old(heap), heap, p, p)
    {
      hide Shape, Rings, Chains, Listed, AllSorted, AllCoalesced, TaggedBut, PayloadKept, LinksSame, LimboLinks, Apart;
      var next := p + size0;
      NextTag(A(), p);
      var nextSize := ChunkSize(mem, next);
      var nextInUse := PrevInUseBit(mem, next + nextSize);
      size := size0;
      HeadStale(A(), next, nextSize, {p});
      SameHeapApart(A(), mem[next + 4 := nextSize], p);
      mem := mem[next + 4 := nextSize];
      ghost var a1 := A();
      assert {p} + {next} == {p, next};
      if !nextInUse {
        ghost var i, k := Unlink(next);
        size := size + nextSize;
        ForwardKeeps(a1, p, i, k);
        LimboAfterJoin(old(heap), p, next, next);
        heap := Join(heap, p, Limbo);
        ApartThrough(old(A()), a1, A(), p, p);
      }
    }

    /** "place the chunk in unsorted chunk list", with its header and footer. */
    method PushUnsorted(p: Addr, size: nat)
      requires p in heap && Held(A(), p, {p, Next(heap, p)}) && Next(heap, p) in heap && size == heap[p].size
      requires InUse(heap[Next(heap, p)].use) && SizeField(mem, Next(heap, p)) == heap[Next(heap, p)].size
      modifies this`mem, this`heap, this`bins
      ensures Good(A()) && Apart(old(A()), A(), p) && heap == Retag(old(heap), p, Use.Free(1))
    {
      hide Shape, Rings, Chains, Listed, AllSorted, AllCoalesced, TaggedBut, PayloadKept, LinksSame, LimboLinks, Apart;
      var bck := BinAt(1);
      var fwd := Fd(mem, bck);
      FrontOf(A());
      mem := mem[p + 12 := bck];
      mem := mem[p + 8 := fwd];
      mem := mem[bck + 8 := p];
      mem := mem[fwd + 12 := p];
      SpliceCommutes(old(mem), p, bck, fwd);
      mem := mem[p + 4 := size + 1];
      mem := mem[p + size := size];
      heap := Retag(heap, p, Use.Free(1));
      bins := bins[1 := bins[1][..0] + [p] + bins[1][0..]];
      ReleaseKeeps(old(A()), p);
      assert A() == Released(old(A()), p);
    }

    /** "the chunk borders the current high end of memory": it becomes the start of top. */
    method MergeTop(p: Addr, size: nat)
      requires p in heap && Held(A(), p, {p}) && Next(heap, p) in heap && Next(heap, p) == top
      requires size == heap[p].size + heap[top].size
      modifies this`mem, this`heap, this`top
      ensures Good(A()) && Apart(old(A()), A(), p) && LimboLess(old(heap), heap, p)
      ensures p in heap && heap[p].use.Top? && heap[p].size == size
    {
      hide Shape, Rings, Chains, Listed, AllSorted, AllCoalesced, TaggedBut, PayloadKept, LinksSame, LimboLinks, Apart;
      mem := mem[p + 4 := size + 1];
      heap := Join(heap, p, Top);
      top := p;
      TopKeeps(old(A()), p);
      assert A() == Topped(old(A()), p);
    }

    /** The part of free and of malloc_consolidate that merges a chunk with its free neighbours and puts the
        result at the front of the unsorted list, or into top. */
    method Coalesce(p0: Addr) returns (size: nat, ghost q: Addr)
      requires Good(A()) && p0 in heap && heap[p0].use.Limbo?
      modifies this`mem, this`heap, this`bins, this`top
      ensures Good(A()) && Apart(old(A()), A(), p0) && LimboLess(old(heap), heap, p0)
      ensures Merged(heap, q, size, p0, old(heap)[p0].size)
    {
      hide Shape, Rings, Chains, Listed, AllSorted, AllCoalesced, TaggedBut, PayloadKept, LinksSame, LimboLinks, Apart;
      LimboTag(A(), p0);
      size := ChunkSize(mem, p0);
      var next := p0 + size;
      var nextSize := ChunkSize(mem, next);
      var p;
      p, size := JoinBack(p0, size);
      ghost var a1 := A();
      q := p;
      if next != top {
        size := JoinForward(p, size);
        ghost var a2 := A();
        PushUnsorted(p, size);
        ApartThrough(a1, a2, A(), p, p);
        LimboThrough(old(heap), a1.heap, a2.heap, heap, p0, p);
      } else {
        size := size + nextSize;
        MergeTop(p, size);
        LimboThrough(old(heap), a1.heap, a1.heap, heap, p0, p);
      }
      ApartThrough(old(A()), a1, A(), p0, p);
    }

    // ---- free

    /** max_fast with its flag bits. */
    function MaxFastWord(): nat
      reads this
    {
      maxFast + (if anyChunks then 1 else 0) + (if fastChunks then 2 else 0)
    }

    /** One round of the outer loop of malloc_consolidate: the chunks of one fastbin are merged with their
        free neighbours. Meanwhile the rest of the list hangs on the local variable p alone. */
    method ConsolidateBin(fb: nat)
      requires Good(A()) && heads == fastbins && NoLimbo(heap) && Mapped(binmap, bins) && fb < NFASTBINS && Sized(A())
      requires top in heap && Next(heap, top) == brk
      modifies this`mem, this`heap, this`bins, this`top, this`heads, this`fastbins, this`fasts
      ensures Good(A()) && heads == fastbins && NoLimbo(heap) && Mapped(binmap, bins) && Sized(A())
      ensures top in heap && Next(heap, top) == brk && fasts == old(fasts)[fb := []]
      ensures LiveKept(old(heap), heap) && PayloadKept(old(heap), old(mem), mem)
    {
      hide Good, PayloadKept, LiveKept, NoLimbo, Mapped, LimboLess, LimboKept, LimboLinks;
      var p := fastbins[fb];
      UserAtFirst(heap, mem);
      InFast(A(), fb) by { GoodIsCore(A()); }
      if p != 0 {
        fastbins := fastbins[fb := 0];
        while p != 0
          invariant Good(A()) && Sized(A()) && |fastbins| == NFASTBINS &&
            heads == fastbins[fb := p] && fastbins[fb] == 0
          invariant NoLimbo(heap) && Mapped(binmap, bins) && top in heap && Next(heap, top) == brk
          invariant |fasts| == |old(fasts)| && fasts == old(fasts)[fb := fasts[fb]] && (p == 0 <==> fasts[fb] == [])
          invariant LiveKept(old(heap), heap) && PayloadKept(old(heap), old(mem), mem)
          decreases |fasts[fb]|
        {
          InFast(A(), fb) by { GoodIsCore(A()); }
          ghost var a0 := A();
          var nextp := Fd(mem, p);
          FastPopKeeps(A(), fb, Limbo);
          PopLive(heap, p, mem);
          heap := Retag(heap, p, Limbo);
          heads := heads[fb := nextp];
          fasts := fasts[fb := fasts[fb][1..]];
          ghost var a1 := A();
          UserThrough(old(heap), old(mem), a0.heap, mem, heap, mem);
          var _, _ := Coalesce(p);
          UserThrough(old(heap), old(mem), a1.heap, a1.mem, heap, mem);
          LimboGone(a1.heap, heap, p);
          FewerMapped(binmap, a1.bins, bins);
          p := nextp;
          InFast(A(), fb) by { GoodIsCore(A()); }
        }
      }
    }

    /** malloc_consolidate, once initialised. */
    method Consolidate()
      requires Ready()
      modifies this`mem, this`heap, this`bins, this`top, this`heads, this`fastbins, this`fasts, this`fastChunks
      ensures Ready() && !fastChunks && LiveKept(old(heap), heap) && PayloadKept(old(heap), old(mem), mem)
      ensures Swept(old(A()), A())
    {
      hide Good, PayloadKept, LiveKept, NoLimbo, Mapped;
      fastChunks := false;
      UserAtFirst(heap, mem);
      var maxfb := (maxFast + if anyChunks then 1 else 0) / 8 - 2;
      var fb := 0;
      while fb <= maxfb
        invariant 0 <= fb <= maxfb + 1 && maxfb == 7
        invariant Good(A()) && heads == fastbins && NoLimbo(heap) && Sized(A()) && Mapped(binmap, bins)
        invariant top in heap && Next(heap, top) == brk && !fastChunks
        invariant forall i {:trigger fasts[i]} :: 0 <= i < fb ==> fasts[i] == []
        invariant LiveKept(old(heap), heap) && PayloadKept(old(heap), old(mem), mem)
      {
        ghost var a0 := A();
        ConsolidateBin(fb);
        UserThrough(old(heap), old(mem), a0.heap, a0.mem, heap, mem);
        fb := fb + 1;
      }
      FastEmpty(A(), 8) by { GoodIsCore(A()); }
      FastEmpty(A(), 9) by { GoodIsCore(A()); }
      NoFastLeft(A());
    }

    /** "place chunk on a fastbin". */
    method PushFast(p: Addr, size: nat)
      requires Good(A()) && heads == fastbins && p in heap && heap[p].use.Limbo? &&
        size == heap[p].size <= MAX_FAST && Sound()
      requires size % 8 == 0 && size >= MINSIZE && fastChunks && forall x :: x in heap && heap[x].use.Limbo? ==> x == p
      modifies this`mem, this`heap, this`fastbins, this`heads, this`fasts
      ensures Ready() && PayloadKept(old(heap), old(mem), mem) && LiveKept(old(heap), heap)
      ensures |old(fastbins)| == NFASTBINS && fastbins == old(fastbins)[size / 8 - 2 := p]
    {
      hide Good, PayloadKept, NoLimbo, Mapped;
      var fb := size / 8 - 2;
      FastPushKeeps(A(), p, fb);
      mem := mem[p + 8 := fastbins[fb]];
      fastbins := fastbins[fb := p];
      heads := fastbins;
      fasts := fasts[fb := [p] + fasts[fb]];
      heap := Retag(heap, p, Fast(fb));
      NoLimboAgain(old(heap), p, Fast(fb));
    }

    /** fREe of a chunk too large for a fastbin: it is merged with its free neighbours, and the fastbins are emptied if
        that makes it large enough. */
    method FreeLarge(p: Addr) returns (size: nat, ghost q: Addr)
      requires Good(A()) && heads == fastbins && p in heap && heap[p].use.Limbo? && Sound()
      requires forall x :: x in heap && heap[x].use.Limbo? ==> x == p
      modifies this`mem, this`heap, this`bins, this`top, this`heads, this`fastbins, this`fasts, this`fastChunks
      ensures Ready() && PayloadKept(old(heap), old(mem), mem) && LiveKept(old(heap), heap)
      ensures fastChunks == (old(fastChunks) && size < CONSOLIDATION_THRESHOLD)
      ensures fastChunks == old(fastChunks) ==> Merged(heap, q, size, p, old(heap)[p].size) && fastbins == old(fastbins)
    {
      hide Good, PayloadKept, NoLimbo, Mapped, LimboLess, LimboKept, LimboLinks;
      ghost var a1 := A();
      size, q := Coalesce(p);
      FewerMapped(binmap, a1.bins, bins);
      LimboGone(a1.heap, heap, p);
      if size >= CONSOLIDATION_THRESHOLD && fastChunks {
        ghost var a2 := A();
        Consolidate();
        UserThrough(a1.heap, a1.mem, a2.heap, a2.mem, heap, mem);
      }
    }

    /** fREe: a small chunk becomes the newest of its fastbin; any other is merged with its free neighbours into a chunk
        q of that size, and the fastbins are emptied if there are chunks in them and that size is large. Trimming
        is a call of sbrk with a negative argument, which it refuses. */
    method Free(ptr: Addr) returns (ghost merged: nat, ghost q: Addr)
      requires Valid() && (ptr == 0 || (ptr - 8 in heap && heap[ptr - 8].use.Live?))
      modifies this
      ensures Valid()
      ensures ptr == 0 ==> A() == old(A())
      ensures ptr != 0 ==> Taken(old(heap), heap, ptr - 8)
      ensures ptr != 0 ==> PayloadKept(Retag(old(heap), ptr - 8, Limbo), old(mem), mem)
      ensures ptr != 0 && old(heap)[ptr - 8].size <= MAX_FAST ==>
        fastChunks && anyChunks && FastHead(old(heap)[ptr - 8].size) == ptr - 8
      ensures ptr != 0 && old(heap)[ptr - 8].size > MAX_FAST ==>
        && anyChunks && fastChunks == (old(fastChunks) && merged < CONSOLIDATION_THRESHOLD)
        && (fastChunks == old(fastChunks) ==>
             fastbins == old(fastbins) && Merged(heap, q, merged, ptr - 8, old(heap)[ptr - 8].size))
    {
      hide Good, PayloadKept, NoLimbo, Mapped, Fresh, Initial, LiveKept, Taken, Merged;
      merged, q := 0, 0;
      if ptr == 0 {
        return;
      }
      assert Ready() by { LiveMeansReady(); }
      var p := ptr - 8;
      LiveTag(A(), p);
      var size := ChunkSize(mem, p);
      HandOver(A(), p, Limbo);
      ghost var h1 := Retag(heap, p, Limbo);
      AloneInLimbo(heap, p);
      heap := h1;
      if size <= MaxFastWord() {
        fastChunks, anyChunks := true, true;
        PushFast(p, size);
      } else {
        anyChunks := true;
        merged, q := FreeLarge(p);
      }
      TakenAfter(old(heap), heap, p);
    }

    /** Only a heap with memory has live chunks. */
    lemma LiveMeansReady()
      requires Valid() && exists p :: p in heap
      ensures Ready()
    {
    }

    /** A store of the user into a chunk it owns. */
    method UserStore(ghost p: Addr, w: Addr, v: int)
      requires Valid() && Payload(heap, p, w) && w % 4 == 0
      modifies this`mem
      ensures Valid() && mem == old(mem)[w := v]
    {
      hide Good, Fresh, Initial, NoLimbo, Mapped;
      LiveMeansReady();
      StoreKeeps(A(), p, w, v);
      mem := mem[w := v];
    }

    // ---- the system

    /** sbrk: -1 when the heap would shrink or outgrow its end. */
    method Sbrk(diff: int) returns (s: Addr)
      modifies this`brk
      ensures 0 <= diff && old(brk) + diff <= heapEnd ==> s == old(brk) && brk == old(brk) + diff
      ensures !(0 <= diff && old(brk) + diff <= heapEnd) ==> s == -1 && brk == old(brk)
    {
      if diff < 0 || brk + diff > heapEnd {
        return -1;
      }
      s := brk;
      brk := brk + diff;
    }

    /** malloc_init_state. */
    method InitState()
      requires Fresh() && brk <= heapEnd <= LIMIT
      modifies this`mem, this`maxFast, this`top
      ensures Initial()
    {
      hide Mapped, NothingListed;
      var i := 1;
      while i < NBINS
        invariant 1 <= i <= NBINS
        invariant forall j {:trigger SelfLinked(mem, j)} :: 1 <= j < i ==> SelfLinked(mem, j)
        invariant SizeField(mem, BinAt(1)) == 0
      {
        ghost var m := mem;
        mem := mem[BinAt(i) + 12 := BinAt(i)];
        mem := mem[BinAt(i) + 8 := BinAt(i)];
        SelfLink(m, mem, i);
        i := i + 1;
      }
      maxFast := MAX_FAST;
      top := BinAt(1);
      InitialRings(A());
    }

    /** "split off the chunk bordering the end of memory". */
    method CutTop(nb: nat) returns (r: Addr)
      requires Ready() && nb % 8 == 0 && nb >= MINSIZE && heap[top].size >= nb + MINSIZE
      modifies this`mem, this`heap, this`top
      ensures Ready() && r - 8 == old(top) && r != 0 && Result(old(heap), old(mem), heap, mem, r, nb)
      ensures AllUser(old(heap)) ==> AllUser(heap)
    {
      hide Good, PayloadKept, NoLimbo, Mapped, Given;
      TopTag(A());
      TopTakeKeeps(A(), nb);
      var victim := top;
      var size := ChunkSize(mem, victim);
      var remainderSize := size - nb;
      var remainder := victim + nb;
      top := remainder;
      mem := mem[victim + 4 := nb + 1];
      mem := mem[remainder + 4 := remainderSize + 1];
      heap := Split(heap, victim, nb, Live, Top);
      assert A() == TopTaken(old(A()), nb);
      GivenWider8(old(heap), heap, victim, nb);
      MultiplesOf8(victim, 8);
      r := victim + 8;
    }

    /** "Adjust top based on results of second sbrk". */
    method PlaceTop(at: Addr, topSize: nat)
      requires NoChunks(A()) && heads == fastbins && Mapped(binmap, bins) && maxFast == MAX_FAST &&
        (fastChunks ==> anyChunks)
      requires at > 0 && at % 8 == 0 && topSize >= MINSIZE && topSize % 4 == 0 && at + topSize == brk
      modifies this`mem, this`heap, this`base, this`top
      ensures Ready() && LiveKept(old(heap), heap) && PayloadKept(old(heap), old(mem), mem)
      ensures AllUser(heap) && heap.Keys == {top} && TopSize() == heap[top].size == topSize
    {
      hide Good, PayloadKept, NoLimbo, Mapped;
      FirstKeeps(A(), at, topSize);
      top := at;
      mem := mem[top + 4 := topSize + 1];
      heap, base := map[top := Chunk(topSize, 0, Top)], top;
      assert A() == FirstArena(old(A()), at, topSize);
      TopTag(A());
    }

    /** sYSMALLOc, first call: top is placed at the first aligned address, and the end of the memory is
        rounded up to a page if sbrk agrees. */
    method FirstTop(b: Addr, size: nat)
      requires Initial() && b > 0 && b % 4 == 0 && size % PAGE == 0 && size > 0 && brk == b + size &&
        brk <= heapEnd <= LIMIT
      modifies this`mem, this`heap, this`base, this`top, this`brk
      ensures Ready() && brk <= heapEnd && LiveKept(old(heap), heap) && PayloadKept(old(heap), old(mem), mem)
      ensures AllUser(heap) && heap.Keys == {top} && TopSize() == heap[top].size
      ensures TopSize() >= size || (TopSize() >= size - 4 && brk + PAGE > heapEnd)
    {
      hide Good, PayloadKept, NoLimbo, Mapped;
      var frontMisalign := (b + 8) % 8;
      var correction, alignedBrk := 0, b;
      if frontMisalign > 0 {
        correction := 8 - frontMisalign;
        alignedBrk := b + correction;
      }
      var endMisalign := b + size + correction;
      correction := correction + (PageUp(endMisalign) - endMisalign);
      FirstAligned(b, size, alignedBrk, correction);
      var sndBrk := Sbrk(correction);
      if sndBrk == -1 {
        correction := 0;
        sndBrk := Sbrk(0);
      }
      PlaceTop(alignedBrk, sndBrk - alignedBrk + correction);
    }

    /** sYSMALLOc, when sbrk extended the memory top lies in. */
    method GrowTop(size: nat)
      requires Good(A()) && heads == fastbins && NoLimbo(heap) && Sized(A()) && Mapped(binmap, bins) &&
        maxFast == MAX_FAST
      requires top in heap && Next(heap, top) + size == brk && (fastChunks ==> anyChunks) && size % 8 == 0
      requires forall i {:trigger fasts[i]} :: 0 <= i < NFASTBINS && fasts[i] != [] ==> fastChunks
      modifies this`mem, this`heap
      ensures Ready() && LiveKept(old(heap), heap) && PayloadKept(old(heap), old(mem), mem)
      ensures heap[top].size == old(heap)[top].size + size && (AllUser(old(heap)) ==> AllUser(heap))
    {
      hide Good, PayloadKept, LiveKept, NoLimbo, Mapped;
      TopTag(A());
      GrowKeeps(A(), size);
      var oldSize := ChunkSize(mem, top);
      mem := mem[top + 4 := size + oldSize + 1];
      heap := heap[top := heap[top].(size := oldSize + size)];
      assert A() == Grown(old(A()), size);
    }

    // ---- malloc, step by step

    /** "scan through the chunks of current bin to find one that fits", from the smallest. */
    method ScanLarge(nb: nat, idx: nat) returns (victim: Addr, ghost k: nat)
      requires Good(A()) && Sized(A()) && bins[1] == [] && nb >= MIN_LARGE_SIZE &&
        idx == BinIndex(nb) && 2 <= idx < NBINS
      ensures victim == 0 ==> forall x :: x in bins[idx] && x in heap ==> heap[x].size < nb
      ensures victim != 0 ==> k < |bins[idx]| && bins[idx][k] == victim && BestFit(heap, victim, nb)
    {
      hide Good, BestFit, BinIndex;
      ghost var q := bins[idx];
      var bin := BinAt(idx);
      GoodIsCore(A());
      BinLinks(A(), idx, |q| + 1);
      victim := Bk(mem, bin);
      k := |q|;
      while victim != bin
        invariant 0 <= k <= |q| && victim == Queue.Around(bin, q, k)
        invariant forall j :: k <= j < |q| && q[j] in heap ==> heap[q[j]].size < nb
        decreases k
      {
        BinnedTag(A(), idx, k - 1);
        var size := ChunkSize(mem, victim);
        if size >= nb {
          k := k - 1;
          ScannedIsBest(A(), nb, k);
          return;
        }
        BinLinks(A(), idx, k);
        victim := Bk(mem, victim);
        k := k - 1;
      }
      NotAround(A(), idx, k);
      forall x | x in bins[idx] && x in heap ensures heap[x].size < nb {
        var j :| 0 <= j < |q| && q[j] == x;
      }
      victim := 0;
    }

    /** "Skip rest of block": the next word of the bin map that is not zero, if any. */
    method SkipBlocks(block0: nat) returns (block: nat)
      requires Mapped(binmap, bins) && block0 <= BINMAPSIZE
      ensures block0 < block <= BINMAPSIZE + 1 && (block < BINMAPSIZE ==> |binmap| > BINMAPSIZE && binmap[block] != 0)
      ensures Bare(bins, 32 * block0 + 32, 32 * block)
    {
      hide Mapped, Bit;
      MappedWords(binmap, bins);
      block := block0 + 1;
      while block < BINMAPSIZE && binmap[block] == 0
        invariant block0 < block <= BINMAPSIZE + 1
        invariant forall i :: 2 <= i < NBINS && 32 * block0 + 32 <= i < 32 * block ==> bins[i] == []
      {
        ZeroEmpty(binmap, bins, block);
        block := block + 1;
      }
    }

    /** "Advance to bin with set bit. There must be one." */
    method NextSetBit(block: nat, bit0: nat) returns (bit: nat)
      requires Mapped(binmap, bins) && block < BINMAPSIZE && bit0 < 32 && |binmap| > BINMAPSIZE &&
        Pow2(bit0) <= binmap[block]
      ensures bit0 <= bit < 32 && Bit(binmap[block], bit)
      ensures Bare(bins, 32 * block + bit0, 32 * block + bit)
    {
      hide Mapped, Bit, Pow2;
      MappedWords(binmap, bins);
      bit := bit0;
      while !Bit(binmap[block], bit)
        invariant bit0 <= bit < 32 && Pow2(bit) <= binmap[block]
        invariant forall i :: 2 <= i < NBINS && 32 * block + bit0 <= i < 32 * block + bit ==> bins[i] == []
        decreases 32 - bit
      {
        BitAbove(binmap[block], bit);
        ClearIsEmpty(binmap, bins, block, bit);
        PowBelow(bit + 1, binmap[block]);
        bit := bit + 1;
      }
    }

    /** "Search for a chunk by scanning bins, starting with next largest bin", skipping what the bin map says
        is empty. The variable bit is the exponent of the word of that name. */
    method ScanBins(nb: nat, idx0: nat) returns (victim: Addr, ghost j: nat)
      requires Good(A()) && Sized(A()) && Mapped(binmap, bins) && bins[1] == []
      requires idx0 == BinIndex(nb) && 2 <= idx0 < NBINS
      requires forall x :: x in bins[idx0] && x in heap ==> heap[x].size < nb
      modifies this`binmap
      ensures Mapped(binmap, bins)
      ensures victim == 0 ==> NoFit(heap, nb)
      ensures victim != 0 ==>
        2 <= j < NBINS && bins[j] != [] && victim == bins[j][|bins[j]| - 1] && BestFit(heap, victim, nb)
    {
      hide Good, BestFit, NoFit, BinIndex, Bit, Pow2, Mapped, Bare, Bk, ClearBit;
      MappedWords(binmap, bins);
      var idx := idx0 + 1;
      var block, bit := idx / 32, idx % 32;
      NothingBetween(bins, idx);
      while true
        invariant 0 <= block <= BINMAPSIZE && 0 <= bit <= 32 && Mapped(binmap, bins) && |binmap| == BINMAPSIZE + 1
        invariant idx0 < 32 * block + bit && Bare(bins, idx, 32 * block + bit)
        decreases BINMAPSIZE - block, 33 - bit
      {
        MappedWords(binmap, bins);
        if bit == 32 || Pow2(bit) > binmap[block] {
          if bit < 32 {
            RestEmpty(binmap, bins, block, bit);
            BareOn(bins, idx, 32 * block + bit, 32 * block + 32);
          }
          ghost var from := 32 * block + 32;
          block := SkipBlocks(block);
          BareOn(bins, idx, from, 32 * block);
          if block >= BINMAPSIZE {
            NoneLeft(A(), nb, idx, 32 * block);
            return 0, 0;
          }
          bit := 0;
          NotZero(binmap[block]);
        }
        ghost var from := bit;
        bit := NextSetBit(block, bit);
        BareOn(bins, idx, 32 * block + from, 32 * block + bit);
        j := 32 * block + bit;
        LastOf(A(), j);
        var bin := BinAt(32 * block + bit);
        victim := Bk(mem, bin);
        if victim == bin {
          UnmarkMapped(binmap, bins, j);
          BareAt(bins, idx, j);
          binmap := binmap[block := ClearBit(binmap[block], bit)];
          bit := bit + 1;
        } else {
          FirstFound(A(), nb, idx, j);
          return;
        }
      }
    }

    /** set_inuse_bit_at_offset of a chunk that was taken whole. */
    method MarkWhole(victim: Addr, size: nat, ghost a: Arena, ghost i: nat, ghost k: nat)
      requires Good(a) && 1 <= i < NBINS && k < |a.bins[i]| && a.bins[i][k] == victim && victim in a.heap
      requires A() == Unlinked(a, i, k) && size == a.heap[victim].size
      modifies this`mem, this`heap
      ensures A() == ExactTaken(a, i, k)
    {
      EvenBit(a, i, k);
      UnlinkedIs(a, i, k);
      hide Good, Core, Unlinked, PayloadKept, TaggedBut, OrOne;
      var e := victim + size;
      mem := mem[e + 4 := OrOne(SizeField(mem, e))];
      heap := Retag(heap, victim, Live);
    }

    /** The remainder of a chunk cut after nb bytes becomes the only unsorted chunk. */
    method SplitOff(victim: Addr, size: nat, nb: nat, ghost a: Arena, ghost i: nat, ghost k: nat)
      requires Good(a) && 1 <= i < NBINS && k < |a.bins[i]| && a.bins[i][k] == victim && victim in a.heap
      requires A() == Unlinked(a, i, k) && size == a.heap[victim].size && bins[1] == []
      requires MINSIZE <= nb <= size - MINSIZE && nb % 8 == 0
      modifies this`mem, this`heap, this`bins
      ensures A() == SplitTaken(a, i, k, nb)
    {
      hide Good, Core, Unlinked, PayloadKept, TaggedBut, CutTaken, Split, Retag;
      InBinAligned(a, i, k);
      GoodIsCore(a);
      CoreIsSized(a);
      ghost var a1 := A();
      SplitUnlinked(a, i, k, nb);
      var remainderSize := size - nb;
      var remainder := victim + nb;
      MultiplesOf8(victim, nb);
      mem := mem[BinAt(1) + 12 := remainder];
      mem := mem[BinAt(1) + 8 := remainder];
      mem := mem[remainder + 12 := BinAt(1)];
      mem := mem[remainder + 8 := BinAt(1)];
      mem := mem[victim + 4 := nb + 1];
      mem := mem[remainder + 4 := remainderSize + 1];
      mem := mem[remainder + remainderSize := remainderSize];
      CutIs(a1, victim, nb);
      heap := Retag(Split(heap, victim, nb, Live, Limbo), remainder, Use.Free(1));
      bins := bins[1 := [remainder]];
      assert A() == CutTaken(a1, victim, nb);
    }

    /** A chunk taken off its list is given out whole. */
    method TakeWhole(victim: Addr, size: nat, nb: nat, ghost a: Arena, ghost i: nat, ghost k: nat) returns (r: Addr)
      requires Good(a) && NoLimbo(a.heap) && SoundWith(a) && a.heads == heads == fastbins
      requires 1 <= i < NBINS && k < |a.bins[i]| && a.bins[i][k] == victim && victim in a.heap &&
        a.heap[victim].size == size
      requires A() == Unlinked(a, i, k) && (size == nb || size == nb + 8)
      modifies this`mem, this`heap
      ensures Ready() && Result(a.heap, a.mem, heap, mem, r, nb) && r == victim + 8 != 0
    {
      hide Good, PayloadKept, NoLimbo, Mapped, Given, ExactTaken, Unlinked, Fewer, Result;
      MarkWhole(victim, size, a, i, k);
      ExactKeeps(a, i, k);
      ExactNoLimbo(a, i, k);
      ExactLists(a, i, k);
      FewerMapped(binmap, a.bins, bins);
      InBinAligned(a, i, k);
      ResultOf(a.heap, a.mem, heap, mem, victim, nb, size);
      MultiplesOf8(victim, 8);
      r := victim + 8;
    }

    /** A chunk taken off its list is cut, and its lower part given out. */
    method TakeCut(victim: Addr, size: nat, nb: nat, ghost a: Arena, ghost i: nat, ghost k: nat) returns (r: Addr)
      requires Good(a) && NoLimbo(a.heap) && SoundWith(a) && a.heads == heads == fastbins &&
        |bins| == NBINS && bins[1] == []
      requires 1 <= i < NBINS && k < |a.bins[i]| && a.bins[i][k] == victim && victim in a.heap &&
        a.heap[victim].size == size
      requires A() == Unlinked(a, i, k) && MINSIZE <= nb <= size - MINSIZE && nb % 8 == 0
      modifies this`mem, this`heap, this`bins
      ensures Ready() && Result(a.heap, a.mem, heap, mem, r, nb) && r == victim + 8 != 0
      ensures Left(a, victim, nb, A())
    {
      hide Good, PayloadKept, NoLimbo, Mapped, Given, SplitTaken, Unlinked, Fewer, Result, Left;
      LeftOfListed(a, i, k, nb);
      SplitOff(victim, size, nb, a, i, k);
      SplitKeeps(a, i, k, nb);
      SplitNoLimbo(a, i, k, nb);
      SplitLists(a, i, k, nb);
      FewerMapped(binmap, a.bins, bins);
      InBinAligned(a, i, k);
      ResultOf(a.heap, a.mem, heap, mem, victim, nb, nb);
      MultiplesOf8(victim, 8);
      r := victim + 8;
    }

    /** "Exhaust" or "Split": the chunk found for nb bytes, whole or cut. */
    method TakeOrSplit(victim: Addr, nb: nat, remember: bool, ghost i: nat, ghost k: nat) returns (r: Addr)
      requires Ready() && 2 <= i < NBINS && k < |bins[i]| && bins[i][k] == victim && bins[1] == []
      requires victim in heap && heap[victim].size >= nb && nb >= MINSIZE && nb % 8 == 0
      modifies this`mem, this`heap, this`bins, this`lastRemainder
      ensures Ready() && r == victim + 8 != 0 && Result(old(heap), old(mem), heap, mem, r, nb)
      ensures lastRemainder ==
        if remember && old(heap)[victim].size - nb >= MINSIZE then victim + nb else old(lastRemainder)
      ensures old(heap)[victim].size >= nb + MINSIZE ==> Left(old(A()), victim, nb, A())
    {
      hide Good, PayloadKept, NoLimbo, Mapped, Given, Unlinked, Result, Left;
      ghost var a := A();
      BinnedTag(a, i, k);
      GoodIsCore(a);
      var size := ChunkSize(mem, victim);
      var remainderSize := size - nb;
      ghost var i', k' := Unlink(victim);
      SamePosition(a, i, k, i', k');
      UnlinkedIs(a, i, k);
      if remainderSize < MINSIZE {
        SizeLeft(size, nb);
        r := TakeWhole(victim, size, nb, a, i, k);
      } else {
        r := TakeCut(victim, size, nb, a, i, k);
        if remember {
          lastRemainder := victim + nb;
        }
      }
    }

    /** "remove from unsorted list" the last chunk. */
    method PopUnsorted() returns (victim: Addr)
      requires Core(A()) && bins[1] != []
      modifies this`mem, this`heap, this`bins
      ensures victim == old(bins)[1][|old(bins)[1]| - 1] && victim in old(heap)
      ensures A() == Unlinked(old(A()), 1, |old(bins)[1]| - 1)
    {
      ghost var q := bins[1];
      hide Core, Shape;
      BinLinks(A(), 1, |q| + 1);
      BinLinks(A(), 1, |q|);
      InBin(A(), 1, q[|q| - 1]);
      victim := Bk(mem, BinAt(1));
      var bck := Bk(mem, victim);
      mem := mem[BinAt(1) + 12 := bck];
      mem := mem[bck + 8 := BinAt(1)];
      heap := Retag(heap, victim, Limbo);
      bins := bins[1 := q[..|q| - 1] + q[|q| - 1 + 1..]];
    }

    /** "maintain large bins in sorted order": the first chunk that is not larger. */
    method WalkBin(size: nat, idx: nat, ghost a: Arena, ghost k: nat) returns (fwd: Addr, ghost l: nat)
      requires Good(a) && k < |a.bins[1]| && a.bins[1][k] in a.heap && A() == Unlinked(a, 1, k) && Core(A())
      requires NSMALLBINS <= idx < NBINS && bins[idx] == a.bins[idx] && bins[idx] != []
      requires var q := bins[idx]; q[|q| - 1] in a.heap && size >= a.heap[q[|q| - 1]].size + 1
      ensures l < |bins[idx]| && fwd == bins[idx][l] && fwd in a.heap && size >= a.heap[fwd].size
      ensures forall j :: 0 <= j < l && bins[idx][j] in a.heap ==> a.heap[bins[idx][j]].size >= size
    {
      ghost var a1, q := A(), bins[idx];
      hide Good, Unlinked, Core, Sized, Fits;
      BinLinks(a1, idx, 0);
      fwd := Fd(mem, BinAt(idx));
      l := 0;
      var marked := size + 1;
      BinnedAfter(a, k, idx, 0);
      while marked < SizeField(mem, fwd)
        invariant 0 <= l < |q| && fwd == q[l] && fwd in a.heap && SizeField(mem, fwd) == a.heap[fwd].size + 1
        invariant forall j :: 0 <= j < l && q[j] in a.heap ==> a.heap[q[j]].size >= size
        decreases |q| - l
      {
        BinLinks(a1, idx, l + 1);
        StepInside(a, idx, l, size);
        fwd := Fd(mem, fwd);
        l := l + 1;
        BinnedAfter(a, k, idx, l);
      }
    }

    /** Where a chunk of the given size goes in its large bin: before the first that is not larger, or last
        when it is not larger than the last. Size fields have their in-use bit set. */
    method FindPlace(victim: Addr, size: nat, idx: nat, ghost a: Arena, ghost k: nat)
      returns (bck: Addr, fwd: Addr, ghost l: nat)
      requires Good(a) && k < |a.bins[1]| && a.bins[1][k] == victim && victim in a.heap && size == a.heap[victim].size
      requires A() == Unlinked(a, 1, k) && Core(A()) && NSMALLBINS <= idx < NBINS && bins[idx] == a.bins[idx]
      ensures l <= |bins[idx]| && Fits(a.heap, bins[idx], l, victim)
      ensures bck == Queue.Around(BinAt(idx), bins[idx], l) && fwd == Queue.Around(BinAt(idx), bins[idx], l + 1)
    {
      ghost var a1, q := A(), bins[idx];
      hide Good, Unlinked, Core, Sized, Fits;
      bck := BinAt(idx);
      BinLinks(a1, idx, 0);
      fwd := Fd(mem, bck);
      l := 0;
      if fwd == bck {
        FitsEmpty(a, a1, k, idx, victim, fwd);
        return;
      }
      NotAround(a1, idx, if q == [] then 0 else 1);
      BinLinks(a1, idx, |q| + 1);
      BinnedAfter(a, k, idx, |q| - 1);
      var last := Bk(mem, bck);
      if size < SizeField(mem, last) {
        fwd := bck;
        bck := last;
        l := |q|;
        FitsLast(a, idx, victim);
        return;
      }
      fwd, l := WalkBin(size, idx, a, k);
      BinLinks(a1, idx, l + 1);
      bck := Bk(mem, fwd);
      FitsHere(a, idx, l, victim);
    }

    /** The four writes that link a chunk between two neighbours of a bin. */
    method LinkBetween(victim: Addr, bck: Addr, fwd: Addr, ghost idx: nat, ghost l: nat)
      requires Sized(A()) && idx < NBINS && l <= |bins[idx]| && victim in heap
      requires bck == Queue.Around(BinAt(idx), bins[idx], l) && fwd == Queue.Around(BinAt(idx), bins[idx], l + 1)
      modifies this`mem, this`heap, this`bins
      ensures A() == Inserted(old(A()), idx, l, victim)
    {
      InsertedAs(A(), idx, l, victim);
      hide Inserted, BinAt;
      mem := mem[victim + 12 := bck];
      mem := mem[victim + 8 := fwd];
      mem := mem[fwd + 12 := victim];
      mem := mem[bck + 8 := victim];
      heap := Retag(heap, victim, Use.Free(idx));
      bins := bins[idx := bins[idx][..l] + [victim] + bins[idx][l..]];
    }

    /** "place chunk in bin": at the front of a small bin, in order of size in a large one. */
    method PlaceInBin(victim: Addr, size: nat, ghost a: Arena, ghost k: nat) returns (ghost l: nat)
      requires Good(a) && k < |a.bins[1]| && a.bins[1][k] == victim && victim in a.heap && size == a.heap[victim].size
      requires A() == Unlinked(a, 1, k) && Mapped(binmap, bins)
      modifies this`mem, this`heap, this`bins, this`binmap
      ensures 2 <= BinIndex(size) < NBINS && l <= |a.bins[BinIndex(size)]| && A() == Moved(a, k, BinIndex(size), l)
      ensures if BinIndex(size) < NSMALLBINS then l == 0 else Fits(a.heap, a.bins[BinIndex(size)], l, victim)
      ensures Mapped(binmap, bins)
    {
      UnlinkKeeps(a, 1, k);
      UnlinkedIs(a, 1, k);
      BinnedTag(a, 1, k);
      BinIndexBounds(size);
      assert BinIndex(size) == if size < MIN_LARGE_SIZE then size / 8 else LargeBinIndex(size);
      hide Good, Unlinked, Inserted, Mapped, BinIndex, Core, Fits;
      ghost var a1 := A();
      var idx, bck, fwd;
      if size < MIN_LARGE_SIZE {
        idx := size / 8;
        bck := BinAt(idx);
        BinLinks(a1, idx, 0);
        fwd := Fd(mem, bck);
        l := 0;
      } else {
        idx := LargeBinIndex(size);
        bck, fwd, l := FindPlace(victim, size, idx, a, k);
      }
      MappedWords(binmap, bins);
      MarkMapped(binmap, bins, idx, bins[idx][..l] + [victim] + bins[idx][l..]);
      binmap := binmap[idx / 32 := SetBit(binmap[idx / 32], idx % 32)];
      LinkBetween(victim, bck, fwd, idx, l);
      InsertedAs(a1, idx, l, victim);
    }

    /** The only unsorted chunk is cut, and its remainder takes its place. */
    method SplitAlone(victim: Addr, size: nat, nb: nat)
      requires Good(A()) && bins[1] == [victim] && victim in heap && size == heap[victim].size
      requires MINSIZE <= nb < size - MINSIZE && nb % 8 == 0
      modifies this`mem, this`heap, this`bins, this`lastRemainder
      ensures A() == SplitTaken(old(A()), 1, 0, nb) && lastRemainder == victim + nb
    {
      hide Good, SplitTaken;
      ghost var a := A();
      InBinAligned(a, 1, 0);
      GoodIsCore(a);
      CoreIsSized(a);
      hide Core;
      AloneSplit(a, victim, nb);
      var remainderSize := size - nb;
      var remainder := victim + nb;
      MultiplesOf8(victim, nb);
      mem := mem[BinAt(1) + 12 := remainder];
      mem := mem[BinAt(1) + 8 := remainder];
      lastRemainder := remainder;
      mem := mem[remainder + 12 := BinAt(1)];
      mem := mem[remainder + 8 := BinAt(1)];
      mem := mem[victim + 4 := nb + 1];
      mem := mem[remainder + 4 := remainderSize + 1];
      mem := mem[remainder + remainderSize := remainderSize];
      heap := SplitTaken(a, 1, 0, nb).heap;
      bins := SplitTaken(a, 1, 0, nb).bins;
    }

    /** "try to use last remainder if it is the only chunk in unsorted bin". */
    method SplitRemainder(victim: Addr, size: nat, nb: nat) returns (r: Addr)
      requires Ready() && bins[1] == [victim] && victim in heap && size == heap[victim].size
      requires MINSIZE <= nb < size - MINSIZE && nb % 8 == 0 && nb < MIN_LARGE_SIZE && heap[victim].use.Free?
      modifies this`mem, this`heap, this`bins, this`lastRemainder
      ensures Ready() && r == victim + 8 != 0 && Result(old(heap), old(mem), heap, mem, r, nb)
      ensures Remains(old(A()), old(lastRemainder), nb, victim, A(), lastRemainder)
    {
      hide Good, PayloadKept, NoLimbo, Mapped, Given, SplitTaken, Fewer, Result, Left;
      ghost var a := A();
      LeftOfListed(a, 1, 0, nb);
      InBinAligned(a, 1, 0);
      SplitAlone(victim, size, nb);
      SplitKeeps(a, 1, 0, nb);
      SplitNoLimbo(a, 1, 0, nb);
      SplitLists(a, 1, 0, nb);
      FewerMapped(binmap, a.bins, bins);
      ResultOf(a.heap, a.mem, heap, mem, victim, nb, nb);
      MultiplesOf8(victim, 8);
      r := victim + 8;
    }

    /** A chunk taken off the unsorted list goes to the bin of its size. */
    method Sort(victim: Addr, size: nat, ghost a: Arena, ghost k: nat)
      requires Good(a) && NoLimbo(a.heap) && SoundWith(a) && a.heads == heads == fastbins
      requires k < |a.bins[1]| && a.bins[1][k] == victim && victim in a.heap && size == a.heap[victim].size
      requires A() == Unlinked(a, 1, k)
      modifies this`mem, this`heap, this`bins, this`binmap
      ensures Ready() && LiveKept(a.heap, heap) && PayloadKept(a.heap, a.mem, mem) && SameFree(a.heap, heap)
      ensures bins[1] == a.bins[1][..k] + a.bins[1][k + 1..]
      ensures forall i :: 2 <= i < NBINS && i != BinIndex(size) ==> bins[i] == a.bins[i]
    {
      hide Good, PayloadKept, NoLimbo, Mapped, Unlinked, Moved, Fewer, LiveKept, BinIndex, Fits, SameFree;
      UnlinkFewer(a, k);
      FewerMapped(binmap, a.bins, bins);
      ghost var l := PlaceInBin(victim, size, a, k);
      MoveKeeps(a, k, BinIndex(size), l);
      MovedRest(a, k, BinIndex(size), l);
    }

    /** "Process recently freed or remaindered chunks": the pass over the unsorted list. A small request whose
        own bin is empty finds it empty still when the pass ends without a fit. */
    method UnsortedPass(nb: nat) returns (r: Addr)
      requires Ready() && nb >= MINSIZE && nb % 8 == 0 && 2 <= BinIndex(nb) < NBINS
      requires nb < MIN_LARGE_SIZE ==> bins[BinIndex(nb)] == []
      modifies this`mem, this`heap, this`bins, this`binmap, this`lastRemainder
      ensures Ready() && Result(old(heap), old(mem), heap, mem, r, nb)
      ensures r == 0 ==> bins[1] == [] && (nb < MIN_LARGE_SIZE ==> bins[BinIndex(nb)] == [])
      ensures r == 0 ==> SameFree(old(heap), heap) && lastRemainder == old(lastRemainder)
      ensures r == 0 ==> !Newest(old(A()), lastRemainder, nb)
      ensures r != 0 ==> Chosen(old(A()), old(lastRemainder), nb, r - 8) && !NoFit(old(heap), nb)
      ensures r != 0 ==> Remains(old(A()), old(lastRemainder), nb, r - 8, A(), lastRemainder)
    {
      hide Good, PayloadKept, NoLimbo, Mapped, Unlinked, LiveKept, BinIndex, SameFree, Newest, Chosen, NoFit, HasExact,
        Result, Remains;
      ghost var first := A();
      UserAtFirst(heap, mem);
      UnsortedHead(A());
      SameFreeAtFirst(heap);
      NothingUnsorted(first, lastRemainder, nb);
      while Bk(mem, BinAt(1)) != BinAt(1)
        invariant Ready() && (Bk(mem, BinAt(1)) == BinAt(1) <==> bins[1] == [])
        invariant LiveKept(old(heap), heap) && PayloadKept(old(heap), old(mem), mem)
        invariant nb < MIN_LARGE_SIZE ==> bins[BinIndex(nb)] == []
        invariant SameFree(first.heap, heap) && lastRemainder == old(lastRemainder)
        invariant |bins[1]| <= |first.bins[1]| && bins[1] == first.bins[1][..|bins[1]|]
        invariant bins[1] == [] ==> !Newest(first, lastRemainder, nb)
        decreases |bins[1]|
      {
        ghost var a, k := A(), |bins[1]| - 1;
        assert bins[1][k] == first.bins[1][k];
        LastUnsorted(a);
        var victim := Bk(mem, BinAt(1));
        var size := ChunkSize(mem, victim);
        if nb < MIN_LARGE_SIZE && Bk(mem, victim) == BinAt(1) && victim == lastRemainder && size > nb + MINSIZE {
          r := SplitRemainder(victim, size, nb);
          ResultAfter(old(heap), old(mem), a.heap, a.mem, heap, mem, r, nb);
          NewestIsChosen(first, a, nb, victim);
          SameFreeRemains(first, a, old(lastRemainder), nb, victim, A(), lastRemainder);
          return;
        }
        GoodIsCore(a);
        var _ := PopUnsorted();
        if size == nb {
          r := TakeWhole(victim, size, nb, a, 1, k);
          ResultAfter(old(heap), old(mem), a.heap, a.mem, heap, mem, r, nb);
          ExactFound(first, a, old(lastRemainder), nb, victim);
          ExactRemains(a, lastRemainder, nb, victim, A());
          SameFreeRemains(first, a, lastRemainder, nb, victim, A(), lastRemainder);
          return;
        }
        Sort(victim, size, a, k);
        UserThrough(old(heap), old(mem), a.heap, a.mem, heap, mem);
        OtherBin(nb, size);
        UnsortedHead(A());
        SameFreeThrough(first.heap, a.heap, heap);
        OnePopped(first.bins[1], a.bins[1], bins[1]);
        if k == 0 {
          NewestPassed(first, a, lastRemainder, nb, victim);
        }
      }
      r := 0;
      NothingGiven(old(heap), old(mem), heap, mem, nb);
    }

    /** The end of sYSMALLOc: top now serves nb bytes, or sbrk gave less than was asked for. */
    method CutExtended(nb: nat) returns (r: Addr)
      requires Ready() && brk <= heapEnd <= LIMIT && Padded(nb) && !fastChunks && Touched()
      requires TopSize() >= nb + MINSIZE || (nb + MINSIZE - TopSize() <= 4 && brk + PAGE > heapEnd && NoFit(heap, nb))
      modifies this`mem, this`heap, this`top
      ensures Valid() && Result(old(heap), old(mem), heap, mem, r, nb)
      ensures r == 0 ==> Exhausted(nb)
      ensures r != 0 ==> r - 8 == old(top)
    {
      hide Good, PayloadKept, NoLimbo, Mapped, Given, LiveKept, NoFit;
      TopTag(A());
      var size := ChunkSize(mem, top);
      if size >= nb + MINSIZE {
        r := CutTop(nb);
      } else {
        UserAtFirst(heap, mem);
        LastPage(nb + MINSIZE - size);
        r := 0;
      }
    }

    /** sYSMALLOc, once the fastbins are empty: sbrk extends top, or gives the first memory. */
    method Extend(nb: nat) returns (r: Addr)
      requires brk <= heapEnd <= LIMIT && (Initial() || Ready()) && Padded(nb) && ChunkSize(mem, top) < nb + MINSIZE
      requires Touched() && !fastChunks && NoFit(heap, nb)
      modifies this`mem, this`heap, this`base, this`top, this`brk
      ensures Valid() && Result(old(heap), old(mem), heap, mem, r, nb)
      ensures r == 0 ==> Exhausted(nb)
      ensures r != 0 && old(top) in old(heap) ==> r - 8 == old(top)
    {
      hide Good, PayloadKept, NoLimbo, Mapped, Given, LiveKept, NoChunks, NothingListed;
      UserAtFirst(heap, mem);
      TopWhere();
      var oldTop := top;
      var oldSize := ChunkSize(mem, oldTop);
      var oldEnd := oldTop + oldSize;
      var size := (nb + MINSIZE - oldSize + PAGE - 1) % WORD / PAGE * PAGE;
      var b := -1;
      Refusal(nb + MINSIZE - oldSize, size);
      if 0 < size < 0x8000_0000 {
        PageSize(nb + MINSIZE - oldSize, size);
        b := Sbrk(size);
        WordAligned(old(brk), size);
      }
      if b == -1 {
        r := 0;
        return;
      }
      if b == oldEnd {
        GrowTop(size);
      } else {
        FirstTop(b, size);
      }
      ghost var a := A();
      TopTag(a);
      r := CutExtended(nb);
      ResultAfter(old(heap), old(mem), a.heap, a.mem, heap, mem, r, nb);
    }

    /** sYSMALLOc: top cannot serve nb bytes. */
    method SysMalloc(nb: nat) returns (r: Addr, ghost s: Arena)
      requires brk <= heapEnd <= LIMIT && (Initial() || Ready()) && Padded(nb) && ChunkSize(mem, top) < nb + MINSIZE
      requires fastChunks ==> nb < MIN_LARGE_SIZE
      requires Touched() && (fastChunks || NoFit(heap, nb))
      modifies this
      ensures Valid() && Result(old(heap), old(mem), heap, mem, r, nb) && anyChunks == old(anyChunks)
      ensures r == 0 ==> Exhausted(nb)
      ensures if old(fastChunks) then Swept(old(A()), s) else s == old(A())
      ensures old(fastChunks) && !NoFit(s.heap, nb) ==> r != 0
      ensures r != 0 ==>
        if old(fastChunks) then Chosen(s, old(lastRemainder), nb, r - 8) else s.top in s.heap ==> r - 8 == s.top
      ensures if r != 0 && old(fastChunks) then Remains(s, old(lastRemainder), nb, r - 8, A(), lastRemainder)
              else lastRemainder == old(lastRemainder)
      decreases if fastChunks then 1 else 0, 0
    {
      hide Good, PayloadKept, NoLimbo, Mapped, Given, LiveKept, NoChunks, NothingListed, Swept, Chosen, NoFit, Result,
        Remains, SearchedIn, AllUser;
      UserAtFirst(heap, mem);
      s := A();
      if fastChunks {
        Consolidate();
        ghost var a := A();
        RepeatedSize(nb);
        FastIsUsed();
        r, s := Malloc(nb - 7);
        SearchedNow(a, nb, s);
        ResultAfter(old(heap), old(mem), a.heap, a.mem, heap, mem, r, nb);
        return;
      }
      r := Extend(nb);
    }

    /** Where top lies, and where it ends. */
    lemma TopWhere()
      requires brk <= heapEnd <= LIMIT && (Initial() || Ready())
      ensures ChunkSize(mem, top) >= 0 && brk > 0
      ensures if top in heap then Ready() && top + ChunkSize(mem, top) == brk && ChunkSize(mem, top) == heap[top].size
              else Initial() && top + ChunkSize(mem, top) < 0 && ChunkSize(mem, top) == 0 && brk % 4 == 0
    {
      if top in heap {
        assert Ready();
        TopTag(A());
      } else {
        assert Initial();
      }
    }

    /** use_top: "split off the chunk bordering the end of memory" if it is large enough. */
    method UseTop(nb: nat) returns (r: Addr, ghost s: Arena)
      requires brk <= heapEnd <= LIMIT && (Initial() || Ready()) && Padded(nb) && (fastChunks ==> nb < MIN_LARGE_SIZE)
      requires Touched() && (fastChunks || NoFit(heap, nb))
      modifies this
      ensures Valid() && Result(old(heap), old(mem), heap, mem, r, nb) && anyChunks == old(anyChunks)
      ensures r == 0 ==> Exhausted(nb)
      ensures if old(fastChunks) && old(TopLess(nb)) then Swept(old(A()), s) else s == old(A())
      ensures old(fastChunks) && old(TopLess(nb)) && !NoFit(s.heap, nb) ==> r != 0
      ensures if r != 0 && old(fastChunks) && old(TopLess(nb))
              then Remains(s, old(lastRemainder), nb, r - 8, A(), lastRemainder)
              else lastRemainder == old(lastRemainder)
      ensures r != 0 ==>
        if old(fastChunks) && old(TopLess(nb)) then Chosen(s, old(lastRemainder), nb, r - 8)
        else s.top in s.heap ==> r - 8 == s.top
      decreases if fastChunks then 1 else 0, 1
    {
      hide Good, PayloadKept, NoLimbo, Mapped, Given, LiveKept, NoChunks, Blank, Swept, Chosen, NoFit, Remains;
      TopWhere();
      s := A();
      if ChunkSize(mem, top) >= nb + MINSIZE {
        r := CutTop(nb);
      } else {
        r, s := SysMalloc(nb);
      }
    }

    /** Top is too small for a chunk of nb bytes. */
    ghost predicate TopLess(nb: nat)
      reads this
    {
      top in heap && heap[top].size < nb + MINSIZE
    }

    /** "check corresponding bin" of a request that qualifies as a fastbin. */
    method TakeFast(nb: nat) returns (r: Addr)
      requires Ready() && Padded(nb) && nb <= MAX_FAST
      modifies this`heap, this`fastbins, this`heads, this`fasts
      ensures Ready() && Result(old(heap), old(mem), heap, mem, r, nb) &&
        (r == 0 ==> A() == old(A()) && fastbins == old(fastbins))
      ensures r == 0 <==> old(FastHead(nb)) == 0
      ensures r != 0 ==> r - 8 == old(FastHead(nb))
    {
      hide Good, PayloadKept, NoLimbo, Mapped, Given, LiveKept;
      UserAtFirst(heap, mem);
      var fb := nb / 8 - 2;
      GoodIsCore(A());
      InFast(A(), fb);
      var victim := fastbins[fb];
      if victim == 0 {
        r := 0;
        return;
      }
      FastPopKeeps(A(), fb, Live);
      FastGiven(A(), victim);
      fastbins := fastbins[fb := Fd(mem, victim)];
      heads := fastbins;
      fasts := fasts[fb := fasts[fb][1..]];
      heap := Retag(heap, victim, Live);
      ResultOf(old(heap), mem, heap, mem, victim, nb, nb);
      MultiplesOf8(victim, 8);
      r := victim + 8;
    }

    /** The exact fit for a small request, the oldest chunk of its bin. */
    method TakeSmall(nb: nat, idx: nat) returns (r: Addr)
      requires Ready() && Padded(nb) && nb < MIN_LARGE_SIZE && idx == BinIndex(nb) && 2 <= idx < NBINS
      modifies this`mem, this`heap, this`bins
      ensures Ready() && Result(old(heap), old(mem), heap, mem, r, nb)
      ensures r == 0 ==> bins[idx] == [] && A() == old(A())
      ensures r != 0 ==> r - 8 in old(heap) && old(heap)[r - 8].use.Free? && old(heap)[r - 8].size == nb
      ensures r != 0 ==> |old(bins)[idx]| > 0 && r - 8 == old(bins)[idx][|old(bins)[idx]| - 1]
    {
      hide Good, PayloadKept, NoLimbo, Mapped, Given, ExactTaken, Unlinked, Fewer, LiveKept, BinIndex;
      UserAtFirst(heap, mem);
      ghost var a, k := A(), |bins[idx]| - 1;
      GoodIsCore(a);
      BinLinks(a, idx, |bins[idx]| + 1);
      NotAround(a, idx, |bins[idx]|);
      var victim := Bk(mem, BinAt(idx));
      if victim == BinAt(idx) {
        r := 0;
        return;
      }
      BinnedTag(a, idx, k);
      BinIndexBounds(nb);
      SmallSizes(heap[victim].size, nb);
      ghost var i', k' := Unlink(victim);
      SamePosition(a, idx, k, i', k');
      MarkWhole(victim, nb, a, idx, k);
      ExactKeeps(a, idx, k);
      ExactNoLimbo(a, idx, k);
      FewerMapped(binmap, a.bins, bins);
      ResultOf(a.heap, a.mem, heap, mem, victim, nb, nb);
      MultiplesOf8(victim, 8);
      r := victim + 8;
    }

    /** The search of the bins once the unsorted list is empty: the chunk taken is the smallest that fits. */
    method TakeBinned(nb: nat, idx: nat) returns (r: Addr)
      requires Ready() && Padded(nb) && bins[1] == [] && idx == BinIndex(nb) && 2 <= idx < NBINS
      requires nb < MIN_LARGE_SIZE ==> bins[idx] == []
      modifies this`mem, this`heap, this`bins, this`binmap, this`lastRemainder
      ensures Ready() && Result(old(heap), old(mem), heap, mem, r, nb)
      ensures r == 0 ==> NoFit(heap, nb) && A() == old(A()) && lastRemainder == old(lastRemainder)
      ensures r != 0 ==> Remains(old(A()), old(lastRemainder), nb, r - 8, A(), lastRemainder)
      ensures r != 0 ==> BestFit(old(heap), r - 8, nb)
    {
      hide Good, PayloadKept, NoLimbo, Mapped, Given, LiveKept, BinIndex, BestFit, NoFit, Left;
      UserAtFirst(heap, mem);
      var victim;
      ghost var k;
      if nb >= MIN_LARGE_SIZE {
        victim, k := ScanLarge(nb, idx);
        if victim != 0 {
          BinnedTag(A(), idx, k);
          FitIsFit(heap, victim, nb);
          r := TakeOrSplit(victim, nb, false, idx, k);
          return;
        }
      }
      ghost var j;
      victim, j := ScanBins(nb, idx);
      if victim == 0 {
        r := 0;
        return;
      }
      FitIsFit(heap, victim, nb);
      r := TakeOrSplit(victim, nb, nb < MIN_LARGE_SIZE, j, |bins[j]| - 1);
    }

    /** malloc from the unsorted pass on. */
    method SearchAll(nb: nat, idx: nat) returns (r: Addr, ghost s: Arena)
      requires brk <= heapEnd <= LIMIT && Ready() && Padded(nb) && anyChunks && idx == BinIndex(nb) && 2 <= idx < NBINS
      requires if nb < MIN_LARGE_SIZE then bins[idx] == [] else !fastChunks
      modifies this
      ensures Valid() && Result(old(heap), old(mem), heap, mem, r, nb) && anyChunks == old(anyChunks)
      ensures r == 0 ==> Exhausted(nb)
      ensures SearchedIn(old(A()), old(fastChunks), nb, s)
      ensures r != 0 ==> Chosen(s, old(lastRemainder), nb, r - 8)
      ensures !NoFit(s.heap, nb) ==> r != 0
      ensures if r != 0 then Remains(s, old(lastRemainder), nb, r - 8, A(), lastRemainder)
              else lastRemainder == old(lastRemainder)
      decreases if fastChunks then 1 else 0, 2
    {
      hide Good, PayloadKept, NoLimbo, Mapped, Given, LiveKept, NoChunks, Blank, BinIndex, NoFit, BestFit, Result,
        Swept, Chosen, Newest, SameFree, HasExact, Remains;
      s := A();
      r := UnsortedPass(nb);
      if r != 0 {
        return;
      }
      ghost var a := A();
      NothingYet(old(heap), old(mem), heap, mem, nb);
      SameFreeFits(s.heap, heap, nb);
      r := TakeBinned(nb, idx);
      ResultAfter(old(heap), old(mem), a.heap, a.mem, heap, mem, r, nb);
      if r != 0 {
        BestIsChosen(s, old(lastRemainder), nb, r - 8);
        SameFreeRemains(s, a, old(lastRemainder), nb, r - 8, A(), lastRemainder);
        return;
      }
      SearchFailed(s, a, fastChunks, nb);
      ghost var s1, sweeps := A(), fastChunks && TopLess(nb);
      r, s1 := UseTop(nb);
      ResultAfter(old(heap), old(mem), a.heap, a.mem, heap, mem, r, nb);
      if sweeps {
        SweptFrom(s, a, s1);
        s := s1;
      } else if r != 0 {
        TopIsChosen(s, old(lastRemainder), nb, r - 8);
        NothingRemains(s, lastRemainder, nb, r - 8, A());
      }
    }

    /** malloc between the fastbins and the unsorted pass: a small request looks in its bin, and before a large one the
        fastbins are emptied. */
    method BeforeSearch(nb: nat) returns (r: Addr, idx: nat)
      requires brk <= heapEnd <= LIMIT && Ready() && Padded(nb) && anyChunks
      modifies this`mem, this`heap, this`bins, this`top, this`heads, this`fastbins, this`fasts, this`fastChunks
      ensures Ready() && Result(old(heap), old(mem), heap, mem, r, nb) && idx == BinIndex(nb) && 2 <= idx < NBINS
      ensures r != 0 ==>
        nb < MIN_LARGE_SIZE && r - 8 in old(heap) && old(heap)[r - 8].use.Free? && old(heap)[r - 8].size == nb
      ensures r == 0 && nb < MIN_LARGE_SIZE ==> bins[idx] == [] && A() == old(A()) && fastChunks == old(fastChunks)
      ensures r == 0 && nb >= MIN_LARGE_SIZE ==>
        !fastChunks && if old(fastChunks) then Swept(old(A()), A()) else A() == old(A())
    {
      hide Good, PayloadKept, NoLimbo, Mapped, Given, LiveKept, Blank, BinIndex, Swept;
      UserAtFirst(heap, mem);
      IndexOf(nb);
      r := 0;
      if nb < MIN_LARGE_SIZE {
        idx := nb / 8;
        r := TakeSmall(nb, idx);
      } else {
        idx := LargeBinIndex(nb);
        if fastChunks {
          Consolidate();
        }
      }
    }

    /** malloc past the fastbins: the chunk it gives is the one that a search of the arena s chooses. */
    method MallocFromBins(nb: nat) returns (r: Addr, ghost s: Arena)
      requires brk <= heapEnd <= LIMIT && Ready() && Padded(nb) && anyChunks
      modifies this
      ensures Valid() && Result(old(heap), old(mem), heap, mem, r, nb) && anyChunks == old(anyChunks)
      ensures r == 0 ==> Exhausted(nb)
      ensures SearchedIn(old(A()), old(fastChunks), nb, s)
      ensures r != 0 ==> Chosen(s, old(lastRemainder), nb, r - 8)
      ensures !NoFit(s.heap, nb) ==> r != 0
      ensures if r != 0 then Remains(s, old(lastRemainder), nb, r - 8, A(), lastRemainder)
              else lastRemainder == old(lastRemainder)
      decreases if fastChunks then 1 else 0, 3
    {
      hide Good, PayloadKept, NoLimbo, Mapped, Given, LiveKept, NoChunks, Blank, BinIndex, NoFit, BestFit, Result,
        Swept, Chosen, Newest, SameFree, HasExact, SearchedIn, Sweeps, Ready, Fresh, Initial, Exhausted, Remains;
      s := A();
      var idx;
      r, idx := BeforeSearch(nb);
      if r != 0 {
        ExactIsChosen(s, lastRemainder, nb, r - 8);
        ExactRemains(s, lastRemainder, nb, r - 8, A());
        ExactNoSweep(s, old(fastChunks), nb, r - 8);
        return;
      }
      ghost var a := A();
      NothingYet(old(heap), old(mem), heap, mem, nb);
      r, s := SearchAll(nb, idx);
      ResultAfter(old(heap), old(mem), a.heap, a.mem, heap, mem, r, nb);
      if nb >= MIN_LARGE_SIZE {
        SweptFirst(old(A()), old(fastChunks), nb, a, s);
      }
    }

    /** mALLOc: the chunk it gives is the newest of the fastbin of its size, if that is not empty, and else the one that
        a search of the arena s chooses. */
    method Malloc(bytes: nat) returns (r: Addr, ghost s: Arena)
      requires Valid() && bytes < WORD
      modifies this
      ensures Valid()
      ensures OutOfRange(bytes) ==> r == 0 && A() == old(A())
      ensures !OutOfRange(bytes) ==> Result(old(heap), old(mem), heap, mem, r, Request2Size(bytes))
      ensures !OutOfRange(bytes) && r == 0 ==> Exhausted(Request2Size(bytes))
      ensures !OutOfRange(bytes) && old(FastHead(Request2Size(bytes))) != 0 ==>
        r - 8 == old(FastHead(Request2Size(bytes)))
      ensures !OutOfRange(bytes) && old(FastHead(Request2Size(bytes))) == 0 ==>
        var nb := Request2Size(bytes);
        && SearchedIn(old(A()), old(fastChunks), nb, s)
        && (r != 0 ==> Chosen(s, old(lastRemainder), nb, r - 8)) && (!NoFit(s.heap, nb) ==> r != 0)
        && if r != 0 then Remains(s, old(lastRemainder), nb, r - 8, A(), lastRemainder)
           else lastRemainder == old(lastRemainder)
      ensures anyChunks == old(anyChunks)
      decreases if fastChunks then 1 else 0, 4
    {
      hide Good, PayloadKept, NoLimbo, Mapped, Given, LiveKept, Blank, BinIndex, NoFit, BestFit, Chosen, Swept, Remains;
      s := A();
      if OutOfRange(bytes) {
        return 0, s;
      }
      PaddedSize(bytes);
      var nb := Request2Size(bytes);
      if !anyChunks {
        FastIsUsed();
        ghost var started := Ready();
        if MaxFastWord() == 0 {
          InitState();
        }
        NothingFreed(heap, nb);
        NobodyThere(old(mem), mem);
        ghost var m := mem;
        assert !started ==> old(heap) == map[] && heap == map[];
        ghost var s1;
        r, s1 := UseTop(nb);
        if !started {
          ResultAfter(map[], old(mem), map[], m, heap, mem, r, nb);
        }
        NothingToChoose(s, old(lastRemainder), nb, r - 8);
        NothingRemains(s, lastRemainder, nb, r - 8, A());
        return;
      }
      assert nb > MaxFastWord() ==> FastHead(nb) == 0;
      if nb <= MaxFastWord() {
        assert nb <= MAX_FAST;
        r := TakeFast(nb);
        if r != 0 {
          return;
        }
      }
      r, s := MallocFromBins(nb);
    }

    /** A fastbin holds a chunk only after something was freed. */
    lemma FastIsUsed()
      requires Valid() && !fastChunks
      ensures forall nb: nat :: FastHead(nb) == 0
    {
      if Ready() {
        forall nb: nat ensures FastHead(nb) == 0 {
          if MINSIZE <= nb <= MAX_FAST && nb % 8 == 0 {
            var i := nb / 8 - 2;
            assert fasts[i] == [] && Chain(mem, heads[i], fasts[i]);
          }
        }
      } else {
        forall nb: nat ensures FastHead(nb) == 0 {
          if MINSIZE <= nb <= MAX_FAST && nb % 8 == 0 {
            assert fasts[nb / 8 - 2] == [];
          }
        }
      }
    }

    /** The newest chunk of the fastbin for nb bytes, 0 if there is none. */
    function FastHead(nb: nat): Addr
      reads this
    {
      if MINSIZE <= nb <= MAX_FAST && nb % 8 == 0 && nb / 8 - 2 < |fastbins| then fastbins[nb / 8 - 2] else 0
    }
  }
}
