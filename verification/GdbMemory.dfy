/** The debugger stub's own walk of the page tables, kernel/gdb_serial_support.c. It reads any address of the
    client, through 4 KB and 4 MB pages. */
module GdbMemory {
  import opened Options
  import opened Arith
  import opened PagingSpec

  /** Addresses of one page translate alike. */
  lemma WithinPage(m: Mem, dir: int, va: int, k: int)
    requires 0 <= k < PAGE - va % PAGE
    ensures (va + k) / PAGE == va / PAGE && (va + k) % PAGE == va % PAGE + k
  {
    ModUnique(va + k, PAGE, va / PAGE, va % PAGE + k);
  }

  /** Addresses of one superpage have the same directory entry. */
  lemma WithinSuperpage(va: int, k: int)
    requires 0 <= k < SUPERPAGE - va % SUPERPAGE
    ensures (va + k) / PAGE / ENTRIES == va / PAGE / ENTRIES && (va + k) % SUPERPAGE == va % SUPERPAGE + k
  {
    ModUnique(va + k, SUPERPAGE, va / SUPERPAGE, va % SUPERPAGE + k);
    IndexIs(va);
    IndexIs(va + k);
  }

  function Byte(ram: map<int, int>, p: int): int {
    if p in ram then ram[p] else 0
  }

  /** Addresses of the client from va on, with its page directory, if paging is on. Addresses are 32 bits wide. */
  datatype Client = Client(m: Mem, dir: int, paging: bool, va: int)

  /** Where the client finds its k-th address. */
  function Where(c: Client, k: int): Option<int> {
    if !c.paging then Some((c.va + k) % WORD)
    else match Translate(c.m, c.dir, (c.va + k) % WORD)
         case Some(p) => Some(p % WORD)
         case None => None
  }

  /** b is the client's k-th byte. */
  predicate ReadsFrom(c: Client, k: int, ram: map<int, int>, b: int) {
    Where(c, k).Some? && Byte(ram, Where(c, k).value) == b
  }

  /** No two of the first size addresses share a physical one. */
  ghost predicate Injective(c: Client, size: int) {
    forall j, k ::
      0 <= j < k < size && Where(c, j).Some? && Where(c, k).Some? ==> Where(c, j).value != Where(c, k).value
  }

  /** Without paging that is always so: size is an unsigned long. */
  lemma InjectiveWithoutPaging(c: Client, size: int)
    requires size < WORD && !c.paging
    ensures Injective(c, size)
  {
    forall j, k | 0 <= j < k < size ensures Where(c, j).value != Where(c, k).value {
      if (c.va + j) % WORD == (c.va + k) % WORD {
        SameModIffDivides(c.va + k, c.va + j, WORD);
        ModUnique(k - j, WORD, 0, k - j);
      }
    }
  }

  /** p is none of the first size addresses. */
  ghost predicate Unreached(c: Client, size: int, p: int) {
    forall k {:trigger Where(c, k)} :: 0 <= k < size ==> Where(c, k) != Some(p)
  }

  /** phys_addr_lookup: the physical address and what is left of the page, 0 when there is no mapping. */
  method PhysAddrLookup(m: Mem, dir: int, paging: bool, vaddr: int) returns (paddr: int, len: int)
    requires 0 <= vaddr < WORD
    ensures !paging ==> paddr == vaddr && len == WORD - 1
    ensures paging ==> (len == 0 <==> Translate(m, dir, vaddr) == None)
    ensures paging ==>
      len >= 0 && forall a :: vaddr <= a < vaddr + len ==> Translate(m, dir, a) == Some(paddr + (a - vaddr))
    ensures paging && len > 0 ==> (vaddr + len) % PAGE == 0 && vaddr + len <= WORD
  {
    IndexIs(vaddr);
    var pde := Word(m, dir + 4 * (vaddr / SUPERPAGE));
    if !paging {
      return vaddr, WORD - 1;
    }
    paddr, len := 0, 0;
    if !Present(pde) {
      return;
    }
    if !Super(pde) {
      var pte := Word(m, Frame(pde) + 4 * (vaddr / PAGE % ENTRIES));
      var offs := vaddr % PAGE;
      if !Present(pte) {
        return;
      }
      paddr := Frame(pte) + offs;
      len := PAGE - offs;
      forall a | vaddr <= a < vaddr + len ensures Translate(m, dir, a) == Some(paddr + (a - vaddr)) {
        WithinPage(m, dir, vaddr, a - vaddr);
      }
      ModUnique(vaddr + len, PAGE, vaddr / PAGE + 1, 0);
      EndOfUnit(vaddr, PAGE, 0x10_0000);
    } else {
      var offs := vaddr % SUPERPAGE;
      paddr := pde - pde % SUPERPAGE + offs;
      len := SUPERPAGE - offs;
      forall a | vaddr <= a < vaddr + len ensures Translate(m, dir, a) == Some(paddr + (a - vaddr)) {
        WithinSuperpage(vaddr, a - vaddr);
      }
      ModUnique(vaddr + len, PAGE, (vaddr / SUPERPAGE + 1) * ENTRIES, 0);
      EndOfUnit(vaddr, SUPERPAGE, ENTRIES);
    }
  }

  lemma EndOfUnit(va: int, unit: nat, n: nat)
    requires unit > 0 && 0 <= va < unit * n
    ensures va + (unit - va % unit) <= unit * n
  {
    var q := va / unit;
    assert va == unit * q + va % unit;
    if q >= n {
      MulDistributes(q, n, unit);
      if q > n { MulGrows(q - n, unit); }
    } else if q + 1 < n {
      MulDistributes(n, q + 1, unit);
      MulGrows(n - (q + 1), unit);
    }
    assert unit * (q + 1) == unit * q + unit;
  }

  /** The j-th address from pa on, and which one p is. */
  function Phys(pa: int, j: int): int {
    (pa + j) % WORD
  }

  function Offset(pa: int, p: int): int {
    (p - pa) % WORD
  }

  lemma OffsetOfPhys(pa: int, j: int)
    requires 0 <= j < WORD
    ensures Offset(pa, Phys(pa, j)) == j && 0 <= Phys(pa, j) < WORD
  {
    var q := (pa + j) / WORD;
    assert pa + j == WORD * q + Phys(pa, j);
    ModUnique(Phys(pa, j) - pa, WORD, -q, j);
  }

  lemma PhysOfOffset(pa: int, p: int)
    requires 0 <= p < WORD
    ensures Phys(pa, Offset(pa, p)) == p && 0 <= Offset(pa, p) < WORD
  {
    var q := (p - pa) / WORD;
    assert p - pa == WORD * q + Offset(pa, p);
    ModUnique(pa + Offset(pa, p), WORD, -q, p);
  }

  /** p is one of n addresses from pa on. */
  predicate InChunk(pa: int, n: int, p: int) {
    0 <= p < WORD && Offset(pa, p) < n
  }

  /** What a lookup says of the client. */
  lemma LookupIsClient(c: Client, i: int, va: int, pa: int, len: int, k: int)
    requires va == (c.va + i) % WORD && i <= k < i + len
    requires !c.paging ==> pa == va && len == WORD - 1
    requires c.paging ==>
      va + len <= WORD && forall a :: va <= a < va + len ==> Translate(c.m, c.dir, a) == Some(pa + (a - va))
    ensures Where(c, k) == Some(Phys(pa, k - i))
  {
    var q := (c.va + i) / WORD;
    assert c.va + i == WORD * q + va;
    if c.paging {
      ModUnique(c.va + k, WORD, q, va + (k - i));
    } else {
      ModAddMultiple(va + (k - i), WORD, q);
    }
  }

  /** memcpy into memory. */
  method Memcpy(ram: map<int, int>, pa: int, data: seq<int>) returns (ram': map<int, int>)
    requires |data| < WORD
    ensures forall p :: Byte(ram', p) == if InChunk(pa, |data|, p) then data[Offset(pa, p)] else Byte(ram, p)
  {
    ram' := ram;
    var i := 0;
    while i < |data|
      invariant 0 <= i <= |data|
      invariant forall p :: Byte(ram', p) == if InChunk(pa, i, p) then data[Offset(pa, p)] else Byte(ram, p)
    {
      ghost var before := ram';
      ram' := ram'[Phys(pa, i) := data[i]];
      OffsetOfPhys(pa, i);
      forall p ensures Byte(ram', p) == if InChunk(pa, i + 1, p) then data[Offset(pa, p)] else Byte(ram, p) {
        if 0 <= p < WORD {
          PhysOfOffset(pa, p);
        }
        hide Offset, Phys;
        assert Byte(before, p) == if InChunk(pa, i, p) then data[Offset(pa, p)] else Byte(ram, p);
      }
      i := i + 1;
    }
  }

  /** gdb_copyin: bytes of the client, read where it finds them, up to the first address that is not mapped. */
  method CopyIn(c: Client, size: int, ram: map<int, int>) returns (ok: bool, data: seq<int>)
    requires 0 <= size < WORD && 0 <= c.va < WORD
    ensures ok <==> forall k :: 0 <= k < size ==> Where(c, k).Some?
    ensures ok ==> |data| == size
    ensures |data| <= size && forall k :: 0 <= k < |data| ==> ReadsFrom(c, k, ram, data[k])
  {
    hide Translate, Where;
    var va, left := c.va, size;
    data := [];
    FirstAddress(c);
    while left > 0
      invariant 0 <= left <= size && size - left == |data| && va == (c.va + |data|) % WORD
      invariant forall k :: 0 <= k < |data| ==> ReadsFrom(c, k, ram, data[k])
    {
      ghost var i := |data|;
      var pa, sz := PhysAddrLookup(c.m, c.dir, c.paging, va);
      if sz == 0 {
        NotMapped(c, i, va);
        return false, data;
      }
      LookupsAre(c, i, va, pa, sz);
      if sz > left {
        sz := left;
      }
      ghost var before := data;
      var chunk := seq(sz, j requires 0 <= j < sz => Byte(ram, Phys(pa, j)));
      data := data + chunk;
      forall k | 0 <= k < |data| ensures ReadsFrom(c, k, ram, data[k]) {
        if k < i {
          assert data[k] == before[k];
        } else {
          assert Where(c, k) == Some(Phys(pa, k - i)) && data[k] == chunk[k - i];
        }
      }
      NextWraps(c.va + i, va, sz);
      left := left - sz;
      va := (va + sz) % WORD;
    }
    forall k | 0 <= k < size ensures Where(c, k).Some? {
      assert ReadsFrom(c, k, ram, data[k]);
    }
    ok := true;
  }

  lemma FirstAddress(c: Client)
    requires 0 <= c.va < WORD
    ensures c.va == (c.va + 0) % WORD
  {
  }

  lemma NotMapped(c: Client, i: int, va: int)
    requires va == (c.va + i) % WORD && c.paging && Translate(c.m, c.dir, va) == None
    ensures Where(c, i).None?
  {
  }

  lemma LookupsAre(c: Client, i: int, va: int, pa: int, len: int)
    requires va == (c.va + i) % WORD
    requires !c.paging ==> pa == va && len == WORD - 1
    requires c.paging ==>
      va + len <= WORD && forall a :: va <= a < va + len ==> Translate(c.m, c.dir, a) == Some(pa + (a - va))
    ensures forall k {:trigger Where(c, k)} :: i <= k < i + len ==> Where(c, k) == Some(Phys(pa, k - i))
  {
    forall k | i <= k < i + len ensures Where(c, k) == Some(Phys(pa, k - i)) {
      LookupIsClient(c, i, va, pa, len, k);
    }
  }

  lemma NextWraps(a: int, va: int, sz: int)
    requires va == a % WORD
    ensures (va + sz) % WORD == (a + sz) % WORD
  {
    ModAddMultiple(va + sz, WORD, a / WORD);
    assert a == WORD * (a / WORD) + va;
  }

  /** gdb_copyout: the client's memory is written where it finds it, up to the first address that is not mapped. The
      bytes of page tables are not part of ram. */
  method CopyOut(c: Client, data: seq<int>, ram: map<int, int>) returns (ok: bool, ram': map<int, int>, ghost done: nat)
    requires |data| < WORD && 0 <= c.va < WORD && Injective(c, |data|)
    ensures ok <==> forall k :: 0 <= k < |data| ==> Where(c, k).Some?
    ensures done <= |data| && (ok ==> done == |data|) && (!ok ==> done < |data| && Where(c, done).None?)
    ensures forall k :: 0 <= k < done ==> ReadsFrom(c, k, ram', data[k])
    ensures forall p :: Unreached(c, done, p) ==> Byte(ram', p) == Byte(ram, p)
  {
    hide Translate, Where, InChunk, Offset, Phys;
    var va, i := c.va, 0;
    ram', done := ram, 0;
    FirstAddress(c);
    while i < |data|
      invariant 0 <= i <= |data| && done == i && va == (c.va + i) % WORD
      invariant forall k :: 0 <= k < i ==> ReadsFrom(c, k, ram', data[k])
      invariant forall p :: Unreached(c, i, p) ==> Byte(ram', p) == Byte(ram, p)
    {
      var pa, sz := PhysAddrLookup(c.m, c.dir, c.paging, va);
      if sz == 0 {
        NotMapped(c, i, va);
        return false, ram', i;
      }
      LookupsAre(c, i, va, pa, sz);
      if sz > |data| - i {
        sz := |data| - i;
      }
      ghost var before := ram';
      ram' := Memcpy(ram', pa, data[i..i + sz]);
      Extended(c, data, i, pa, sz, ram, before, ram');
      NextWraps(c.va + i, va, sz);
      i := i + sz;
      va := (va + sz) % WORD;
      done := i;
    }
    forall k | 0 <= k < |data| ensures Where(c, k).Some? {
      assert ReadsFrom(c, k, ram', data[k]);
    }
    ok := true;
  }

  /** What one memcpy adds. */
  lemma Extended(c: Client, data: seq<int>, i: nat, pa: int, sz: nat, ram: map<int, int>, before: map<int, int>,
      after: map<int, int>)
    requires i + sz <= |data| < WORD && Injective(c, |data|)
    requires forall k {:trigger Where(c, k)} :: i <= k < i + sz ==> Where(c, k) == Some(Phys(pa, k - i))
    requires forall k :: 0 <= k < i ==> ReadsFrom(c, k, before, data[k])
    requires forall p :: Unreached(c, i, p) ==> Byte(before, p) == Byte(ram, p)
    requires forall p ::
      Byte(after, p) == if InChunk(pa, sz, p) then data[i..i + sz][Offset(pa, p)] else Byte(before, p)
    ensures forall k :: 0 <= k < i + sz ==> ReadsFrom(c, k, after, data[k])
    ensures forall p :: Unreached(c, i + sz, p) ==> Byte(after, p) == Byte(ram, p)
  {
    hide Where, Offset, Phys;
    forall k | 0 <= k < i + sz ensures ReadsFrom(c, k, after, data[k]) {
      if k < i {
        assert ReadsFrom(c, k, before, data[k]);
        OutsideChunk(c, data, i, pa, sz, k);
      } else {
        OffsetOfPhys(pa, k - i);
        assert data[i..i + sz][k - i] == data[k];
      }
    }
    forall p | Unreached(c, i + sz, p) ensures Byte(after, p) == Byte(ram, p) {
      ChunkIsWhere(c, i, pa, sz, p);
      assert Unreached(c, i, p);
    }
  }

  lemma OutsideChunk(c: Client, data: seq<int>, i: nat, pa: int, sz: nat, k: nat)
    requires k < i && i + sz <= |data| && Injective(c, |data|) && Where(c, k).Some?
    requires forall k {:trigger Where(c, k)} :: i <= k < i + sz ==> Where(c, k) == Some(Phys(pa, k - i))
    ensures !InChunk(pa, sz, Where(c, k).value)
  {
    hide Where, Offset, Phys;
    ChunkIsWhere(c, i, pa, sz, Where(c, k).value);
  }

  lemma ChunkIsWhere(c: Client, i: nat, pa: int, sz: nat, p: int)
    requires forall k {:trigger Where(c, k)} :: i <= k < i + sz ==> Where(c, k) == Some(Phys(pa, k - i))
    ensures InChunk(pa, sz, p) ==> 0 <= Offset(pa, p) && Where(c, i + Offset(pa, p)) == Some(p)
  {
    hide Where, Offset, Phys;
    if InChunk(pa, sz, p) {
      PhysOfOffset(pa, p);
    }
  }
}
