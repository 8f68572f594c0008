/** Two-level 32-bit paging (Intel SDM volume 3A, section 4.3) and the page tables of kernel/paging.c. */
module PagingSpec {
  import opened Options
  import opened Arith

  const WORD: int := 0x1_0000_0000
  const PAGE: int := 0x1000
  const ENTRIES: int := 0x400
  const SUPERPAGE: int := 0x40_0000
  const KERNEL_ENTRIES: int := 64          // the directory entries every process shares
  const USER_PAGE: int := 0x1_0000         // the first virtual page above 256 MB

  /** Physical memory by words; it starts out zero. */
  type Mem = map<int, int>

  function Word(m: Mem, a: int): int {
    if a in m then m[a] else 0
  }

  // ---- entries

  predicate Present(e: int) {
    e % 2 == 1
  }

  predicate Writable(e: int) {
    e / 2 % 2 == 1
  }

  predicate User(e: int) {
    e / 4 % 2 == 1
  }

  predicate Super(e: int) {
    e / 0x80 % 2 == 1
  }

  /** e & 0xFFFFF000. */
  function Frame(e: int): int {
    e - e % PAGE
  }

  /** frame | flags | PRESENT, for a page-aligned frame. */
  function Entry(frame: int, flags: int): int {
    frame + flags / 2 * 2 + 1
  }

  /** The entry present maps the frame, and its bits 1 to 6 are those of the flags. */
  lemma EntryFields(frame: int, flags: int)
    requires frame % PAGE == 0 && 0 <= flags < 0x80
    ensures Entry(frame, flags) % 0x80 / 2 == flags / 2
    ensures Frame(Entry(frame, flags)) == frame && Present(Entry(frame, flags)) && !Super(Entry(frame, flags))
    ensures User(Entry(frame, flags)) <==> User(flags)
    ensures Writable(Entry(frame, flags)) <==> Writable(flags)
  {
    var low := flags / 2 * 2 + 1;
    var f := frame / PAGE;
    assert frame == PAGE * f;
    ModUnique(frame + low, PAGE, f, low);
    ModUnique(frame + low, 2, 2048 * f + flags / 2, 1);
    ModUnique(2048 * f + flags / 2, 2, 1024 * f + flags / 4, flags / 2 % 2);
    ModUnique(frame + low, 4, 1024 * f + low / 4, low % 4);
    ModUnique(1024 * f + low / 4, 2, 512 * f + low / 8, low / 4 % 2);
    ModUnique(frame + low, 0x80, 32 * f, low);
    ModUnique(32 * f, 2, 16 * f, 0);
    assert low / 4 == flags / 4;
  }

  // ---- the walk

  function Pde(m: Mem, dir: int, vpn: int): int {
    Word(m, dir + 4 * (vpn / ENTRIES))
  }

  function Pte(m: Mem, table: int, vpn: int): int {
    Word(m, table + 4 * (vpn % ENTRIES))
  }

  /** The entry that maps virtual page vpn, 0 when there is no page table for it. */
  function EntryOf(m: Mem, dir: int, vpn: int): int {
    var pde := Pde(m, dir, vpn);
    if Present(pde) then Pte(m, Frame(pde), vpn) else 0
  }

  /** What the processor does with a linear address. */
  function Translate(m: Mem, dir: int, va: int): Option<int> {
    var pde := Pde(m, dir, va / PAGE);
    if !Present(pde) then None
    else if Super(pde) then Some(pde - pde % SUPERPAGE + va % SUPERPAGE)
    else
      var pte := Pte(m, Frame(pde), va / PAGE);
      if Present(pte) then Some(Frame(pte) + va % PAGE) else None
  }

  /** Whether user code may access the page: both levels must allow it. */
  predicate UserMay(m: Mem, dir: int, va: int) {
    var pde := Pde(m, dir, va / PAGE);
    Present(pde) && User(pde) && Present(Pte(m, Frame(pde), va / PAGE)) && User(Pte(m, Frame(pde), va / PAGE))
  }

  /** Whether the page may be written: both levels must allow it. */
  predicate WriteMay(m: Mem, dir: int, va: int) {
    var pde := Pde(m, dir, va / PAGE);
    Present(pde) && Writable(pde) && Present(Pte(m, Frame(pde), va / PAGE)) && Writable(Pte(m, Frame(pde), va / PAGE))
  }

  // ---- the tables of one process above 256 MB

  /** Directory; by directory index, the page tables and the flags of the map_page call that created each; and
      the entries of the pages they map, by virtual page. */
  datatype Tables = Tables(dir: int, tables: map<int, int>, flags: map<int, int>, pages: map<int, int>)

  /** p is one of some page tables. */
  ghost predicate IsTable(tables: map<int, int>, p: int) {
    exists i :: i in tables && tables[i] == p
  }

  predicate UserPage(vpn: int) {
    USER_PAGE <= vpn < 0x10_0000
  }

  predicate Aligned(a: int) {
    a > 0 && a % PAGE == 0
  }

  /** The directory and the page tables are distinct pages. */
  ghost predicate Distinct(t: Tables) {
    && Aligned(t.dir)
    && (forall i :: i in t.tables ==> KERNEL_ENTRIES <= i < ENTRIES && Aligned(t.tables[i]) && t.tables[i] != t.dir)
    && (forall i, j :: i in t.tables && j in t.tables && i != j ==> t.tables[i] != t.tables[j])
  }

  /** Directory entry i points to its page table with the flags recorded. */
  predicate Pointed(m: Mem, t: Tables, i: int) {
    Word(m, t.dir + 4 * i) == if i in t.tables && i in t.flags then Entry(t.tables[i], t.flags[i]) else 0
  }

  /** Entry k of page table i is what is recorded for the page. */
  predicate Recorded(m: Mem, t: Tables, i: int, k: int) {
    i in t.tables ==> Word(m, t.tables[i] + 4 * k) == if ENTRIES * i + k in t.pages then t.pages[ENTRIES * i + k] else 0
  }

  ghost predicate Good(m: Mem, t: Tables) {
    && Distinct(t) && t.flags.Keys == t.tables.Keys && (forall i :: i in t.flags ==> 0 <= t.flags[i] < 0x80)
    && (forall i {:trigger Pointed(m, t, i)} :: KERNEL_ENTRIES <= i < ENTRIES ==> Pointed(m, t, i))
    && (forall i, k {:trigger Recorded(m, t, i, k)} ::
         KERNEL_ENTRIES <= i < ENTRIES && 0 <= k < ENTRIES ==> Recorded(m, t, i, k))
    && (forall v :: v in t.pages ==> UserPage(v) && v / ENTRIES in t.tables && Present(t.pages[v]))
  }

  /** The entry found by walking is the recorded one. */
  lemma WalkFinds(m: Mem, t: Tables, vpn: int)
    requires Good(m, t) && UserPage(vpn)
    ensures EntryOf(m, t.dir, vpn) == if vpn in t.pages then t.pages[vpn] else 0
    ensures Present(Pde(m, t.dir, vpn)) <==> vpn / ENTRIES in t.tables
    ensures Present(Pde(m, t.dir, vpn)) ==>
      !Super(Pde(m, t.dir, vpn)) && Frame(Pde(m, t.dir, vpn)) == t.tables[vpn / ENTRIES]
    ensures Present(Pde(m, t.dir, vpn)) ==> (User(Pde(m, t.dir, vpn)) <==> User(t.flags[vpn / ENTRIES]))
    ensures Present(Pde(m, t.dir, vpn)) ==> (Writable(Pde(m, t.dir, vpn)) <==> Writable(t.flags[vpn / ENTRIES]))
  {
    var i, k := vpn / ENTRIES, vpn % ENTRIES;
    assert Pointed(m, t, i) && Recorded(m, t, i, k);
    assert i in t.tables <==> i in t.flags.Keys;
    if i in t.tables {
      EntryFields(t.tables[i], t.flags[i]);
    }
    assert ENTRIES * i + k == vpn;
  }

  lemma WalkTranslates(m: Mem, t: Tables, va: int)
    requires Good(m, t) && UserPage(va / PAGE)
    ensures Translate(m, t.dir, va) ==
            if va / PAGE in t.pages then Some(Frame(t.pages[va / PAGE]) + va % PAGE) else None
  {
    WalkFinds(m, t, va / PAGE);
  }

  // ---- writes

  /** A word of a page belongs to no other page. */
  lemma WordOfPage(p: int, q: int, j: int, k: int)
    requires p % PAGE == 0 && q % PAGE == 0 && 0 <= j < ENTRIES && 0 <= k < ENTRIES && p + 4 * j == q + 4 * k
    ensures p == q && j == k
  {
    ModUnique(p + 4 * j, PAGE, p / PAGE, 4 * j);
    ModUnique(q + 4 * k, PAGE, q / PAGE, 4 * k);
  }

  /** Writing an entry of a page table that exists maps or unmaps one page. */
  lemma SetEntryKeeps(m: Mem, t: Tables, vpn: int, e: int)
    requires Good(m, t) && UserPage(vpn) && vpn / ENTRIES in t.tables && (e == 0 || Present(e))
    ensures var m' := m[t.tables[vpn / ENTRIES] + 4 * (vpn % ENTRIES) := e];
      Good(m', t.(pages := if e == 0 then t.pages - {vpn} else t.pages[vpn := e]))
  {
    var i, k := vpn / ENTRIES, vpn % ENTRIES;
    var m', t' := m[t.tables[i] + 4 * k := e], t.(pages := if e == 0 then t.pages - {vpn} else t.pages[vpn := e]);
    forall j | KERNEL_ENTRIES <= j < ENTRIES ensures Pointed(m', t', j) {
      assert Pointed(m, t, j);
      if t.dir + 4 * j == t.tables[i] + 4 * k {
        WordOfPage(t.dir, t.tables[i], j, k);
      }
    }
    forall j, l | KERNEL_ENTRIES <= j < ENTRIES && 0 <= l < ENTRIES ensures Recorded(m', t', j, l) {
      assert Recorded(m, t, j, l);
      SamePageIndex(i, k, j, l, vpn);
      if j in t.tables && t.tables[j] + 4 * l == t.tables[i] + 4 * k {
        WordOfPage(t.tables[j], t.tables[i], l, k);
      }
    }
  }

  lemma SamePageIndex(i: int, k: int, j: int, l: int, vpn: int)
    requires i == vpn / ENTRIES && k == vpn % ENTRIES && 0 <= l < ENTRIES
    ensures ENTRIES * j + l == vpn <==> i == j && k == l
  {
    if ENTRIES * j + l == vpn {
      ModUnique(vpn, ENTRIES, j, l);
    }
  }

  /** All words of a page are zero. */
  ghost predicate Zeroed(m: Mem, p: int) {
    forall k :: 0 <= k < ENTRIES ==> Word(m, p + 4 * k) == 0
  }

  /** A zeroed page becomes the page table of directory entry i. */
  lemma NewTableKeeps(m: Mem, t: Tables, i: int, p: int, flags: int)
    requires Good(m, t) && KERNEL_ENTRIES <= i < ENTRIES && i !in t.tables && Aligned(p) &&
      p != t.dir && 0 <= flags < 0x80
    requires (forall j :: j in t.tables ==> t.tables[j] != p) && Zeroed(m, p)
    ensures Good(m[t.dir + 4 * i := Entry(p, flags)], t.(tables := t.tables[i := p], flags := t.flags[i := flags]))
  {
    var m', t' := m[t.dir + 4 * i := Entry(p, flags)], t.(tables := t.tables[i := p], flags := t.flags[i := flags]);
    hide Entry;
    forall j | KERNEL_ENTRIES <= j < ENTRIES ensures Pointed(m', t', j) {
      assert Pointed(m, t, j);
    }
    forall j, l | KERNEL_ENTRIES <= j < ENTRIES && 0 <= l < ENTRIES ensures Recorded(m', t', j, l) {
      assert Recorded(m, t, j, l);
      if j in t'.tables && t'.tables[j] + 4 * l == t.dir + 4 * i {
        WordOfPage(t'.tables[j], t.dir, l, i);
      }
      if j == i {
        ModUnique(ENTRIES * j + l, ENTRIES, j, l);
      }
    }
  }

  predicate WordSame(m: Mem, m': Mem, p: int, k: int) {
    Word(m', p + 4 * k) == Word(m, p + 4 * k)
  }

  ghost predicate PageSame(m: Mem, m': Mem, p: int) {
    forall k {:trigger WordSame(m, m', p, k)} :: 0 <= k < ENTRIES ==> WordSame(m, m', p, k)
  }

  /** Words outside the directory and the page tables do not matter. */
  lemma OtherWordsKeep(m: Mem, m': Mem, t: Tables)
    requires Good(m, t) && PageSame(m, m', t.dir)
    requires forall i {:trigger t.tables[i]} :: i in t.tables ==> PageSame(m, m', t.tables[i])
    ensures Good(m', t)
  {
    forall j | KERNEL_ENTRIES <= j < ENTRIES ensures Pointed(m', t, j) {
      assert Pointed(m, t, j) && WordSame(m, m', t.dir, j);
    }
    forall j, l | KERNEL_ENTRIES <= j < ENTRIES && 0 <= l < ENTRIES ensures Recorded(m', t, j, l) {
      assert Recorded(m, t, j, l);
      assert j in t.tables ==> PageSame(m, m', t.tables[j]) && WordSame(m, m', t.tables[j], l);
    }
  }

  // ---- the kernel part

  /** Page table i of the kernel, if there is one, is not p. */
  predicate KernelTableIsNot(entries: seq<int>, i: int, p: int)
    requires 0 <= i < |entries|
  {
    Present(entries[i]) && !Super(entries[i]) ==> Frame(entries[i]) != p
  }

  /** p is no page table of the kernel. */
  ghost predicate OutsideKernel(entries: seq<int>, p: int) {
    forall i {:trigger KernelTableIsNot(entries, i, p)} :: 0 <= i < |entries| ==> KernelTableIsNot(entries, i, p)
  }

  /** The kernel's directory entries and the words of its page tables are the same. */
  ghost predicate KernelSame(m: Mem, m': Mem, dir: int, entries: seq<int>) {
    && (forall i {:trigger WordSame(m, m', dir, i)} ::
         0 <= i < |entries| ==> WordSame(m, m', dir, i) && Word(m, dir + 4 * i) == entries[i])
    && (forall i {:trigger entries[i]} :: 0 <= i < |entries| && Present(entries[i]) && !Super(entries[i]) ==>
          PageSame(m, m', Frame(entries[i])))
  }

  /** Then every address below 256 MB translates as before. */
  lemma KernelTranslates(m: Mem, m': Mem, dir: int, entries: seq<int>, va: int)
    requires |entries| == KERNEL_ENTRIES && KernelSame(m, m', dir, entries) && 0 <= va < 0x1000_0000
    ensures Translate(m', dir, va) == Translate(m, dir, va)
  {
    var i := va / PAGE / ENTRIES;
    assert WordSame(m, m', dir, i);
    if Present(entries[i]) && !Super(entries[i]) {
      var f := Frame(entries[i]);
      assert PageSame(m, m', f);
      assert WordSame(m, m', f, va / PAGE % ENTRIES);
    }
  }

  /** A directory with the same kernel entries, elsewhere in memory, translates them alike. */
  lemma KernelCopied(m: Mem, m': Mem, early: int, dir: int, entries: seq<int>, va: int)
    requires |entries| == KERNEL_ENTRIES && 0 <= va < 0x1000_0000 && OutsideKernel(entries, dir)
    requires forall i :: 0 <= i < |entries| ==> Word(m, early + 4 * i) == entries[i] == Word(m', dir + 4 * i)
    requires forall q {:trigger PageSame(m, m', q)} :: q % PAGE == 0 && q != dir ==> PageSame(m, m', q)
    ensures Translate(m', dir, va) == Translate(m, early, va)
  {
    var i := va / PAGE / ENTRIES;
    assert Word(m, early + 4 * i) == entries[i] == Word(m', dir + 4 * i);
    if Present(entries[i]) && !Super(entries[i]) {
      var f := Frame(entries[i]);
      ModUnique(f, PAGE, entries[i] / PAGE, 0);
      assert KernelTableIsNot(entries, i, dir) && PageSame(m, m', f);
      assert WordSame(m, m', f, va / PAGE % ENTRIES);
    }
  }

  lemma KernelSameThrough(m: Mem, m1: Mem, m2: Mem, dir: int, entries: seq<int>)
    requires KernelSame(m, m1, dir, entries) && KernelSame(m1, m2, dir, entries)
    ensures KernelSame(m, m2, dir, entries)
  {
    forall i | 0 <= i < |entries| ensures WordSame(m, m2, dir, i) && Word(m, dir + 4 * i) == entries[i] {
      assert WordSame(m, m1, dir, i) && WordSame(m1, m2, dir, i);
    }
    forall i | 0 <= i < |entries| && Present(entries[i]) && !Super(entries[i])
      ensures PageSame(m, m2, Frame(entries[i]))
    {
      var f := Frame(entries[i]);
      assert PageSame(m, m1, f) && PageSame(m1, m2, f);
      forall k | 0 <= k < ENTRIES ensures WordSame(m, m2, f, k) {
        assert WordSame(m, m1, f, k) && WordSame(m1, m2, f, k);
      }
    }
  }

  /** A write to word k of a page that is neither a kernel table nor, among its first entries, the directory. */
  lemma KernelSameWrite(m: Mem, dir: int, entries: seq<int>, p: int, k: int, e: int)
    requires dir % PAGE == 0 && p % PAGE == 0 && 0 <= k < ENTRIES && |entries| == KERNEL_ENTRIES &&
      OutsideKernel(entries, p)
    requires p == dir ==> k >= KERNEL_ENTRIES
    requires forall i :: 0 <= i < |entries| ==> Word(m, dir + 4 * i) == entries[i]
    ensures KernelSame(m, m[p + 4 * k := e], dir, entries)
  {
    var m' := m[p + 4 * k := e];
    forall i | 0 <= i < |entries| ensures WordSame(m, m', dir, i) {
      if dir + 4 * i == p + 4 * k {
        WordOfPage(dir, p, i, k);
      }
    }
    forall i | 0 <= i < |entries| && Present(entries[i]) && !Super(entries[i])
      ensures PageSame(m, m', Frame(entries[i]))
    {
      var f := Frame(entries[i]);
      assert KernelTableIsNot(entries, i, p);
      ModUnique(f, PAGE, entries[i] / PAGE, 0);
      forall j | 0 <= j < ENTRIES ensures WordSame(m, m', f, j) {
        if f + 4 * j == p + 4 * k {
          WordOfPage(f, p, j, k);
        }
      }
    }
  }

  // ---- user access

  /** is_user_addr looks at the page table entry alone. It agrees with the processor exactly when the page is not
      mapped, or was mapped without the user flag, or lies in a 4 MB region whose first mapping had that flag. */
  lemma UserBitIff(m: Mem, t: Tables, va: int)
    requires Good(m, t) && UserPage(va / PAGE)
    ensures (User(EntryOf(m, t.dir, va / PAGE)) <==> UserMay(m, t.dir, va)) <==>
      va / PAGE !in t.pages || !User(t.pages[va / PAGE]) || User(t.flags[va / PAGE / ENTRIES])
  {
    WalkFinds(m, t, va / PAGE);
  }

  /** What the processor grants: a page is for the user, or may be written, exactly when the entry of the page and
      the first mapping of its region both say so. */
  lemma AccessIff(m: Mem, t: Tables, va: int)
    requires Good(m, t) && UserPage(va / PAGE)
    ensures UserMay(m, t.dir, va) <==>
      va / PAGE in t.pages && User(t.pages[va / PAGE]) && User(t.flags[va / PAGE / ENTRIES])
    ensures WriteMay(m, t.dir, va) <==>
      va / PAGE in t.pages && Writable(t.pages[va / PAGE]) && Writable(t.flags[va / PAGE / ENTRIES])
  {
    WalkFinds(m, t, va / PAGE);
  }

  lemma IndexIs(virt: int)
    ensures virt / SUPERPAGE == virt / PAGE / ENTRIES
  {
    var q, r := virt / SUPERPAGE, virt % SUPERPAGE;
    assert virt == SUPERPAGE * q + r;
    ModUnique(virt, PAGE, ENTRIES * q + r / PAGE, r % PAGE);
    ModUnique(virt / PAGE, ENTRIES, q, r / PAGE);
  }

  // ---- zones

  /** The entry of virtual page v when page first maps to the frame of phys and the pages after it follow on. */
  function ZoneEntry(first: int, phys: int, flags: int, v: int): int {
    Entry((phys + PAGE * (v - first)) % WORD, flags)
  }

  /** Pages first up to last are mapped to consecutive frames, and nothing else changed. */
  ghost predicate ZoneMapped(pages: map<int, int>, pages': map<int, int>, first: int, last: int,
      phys: int, flags: int)
  {
    && (forall v :: v in pages' <==> v in pages || first <= v <= last)
    && (forall v ::
         v in pages' ==> pages'[v] == if first <= v <= last then ZoneEntry(first, phys, flags, v) else pages[v])
  }

  /** The regions of pages first up to last have page tables now: new ones with the given flags, old ones with
      the flags they had. */
  ghost predicate RegionsMapped(regions: map<int, int>, regions': map<int, int>, first: int, last: int, flags: int) {
    && (forall i :: i in regions' <==> i in regions || (first <= last && first / ENTRIES <= i <= last / ENTRIES))
    && (forall i :: i in regions' ==> regions'[i] == if i in regions then regions[i] else flags)
  }

  /** One more page. */
  lemma RegionsGrow(regions: map<int, int>, before: map<int, int>, after: map<int, int>, first: int,
      last: int, flags: int)
    requires first <= last + 1 && RegionsMapped(regions, before, first, last, flags)
    requires after == if (last + 1) / ENTRIES in before then before else before[(last + 1) / ENTRIES := flags]
    ensures RegionsMapped(regions, after, first, last + 1, flags)
  {
  }

  /** Pages first up to last are not mapped any more, and nothing else changed. */
  ghost predicate ZoneUnmapped(pages: map<int, int>, pages': map<int, int>, first: int, last: int) {
    && (forall v :: v in pages' <==> v in pages && !(first <= v <= last))
    && (forall v :: v in pages' ==> pages'[v] == pages[v])
  }

  lemma FrameAligned(phys: int)
    requires phys % PAGE == 0
    ensures phys % WORD % PAGE == 0
  {
    var x, y := phys / PAGE, phys / WORD;
    assert phys == PAGE * x;
    ModUnique(phys % WORD, PAGE, x - 0x10_0000 * y, 0);
  }

  /** What map_zone means to the processor: page j of the zone translates to page j of the physical zone,
      and every other address above 256 MB as before. */
  lemma MappedTranslates(m: Mem, t: Tables, m': Mem, t': Tables, first: int, last: int, phys: int, flags: int, va: int)
    requires Good(m, t) && Good(m', t') && t'.dir == t.dir && UserPage(va / PAGE) &&
      phys % PAGE == 0 && 0 <= flags < 0x80
    requires ZoneMapped(t.pages, t'.pages, first, last, phys, flags)
    ensures Translate(m', t.dir, va) ==
      if first <= va / PAGE <= last then Some((phys + PAGE * (va / PAGE - first)) % WORD + va % PAGE)
      else Translate(m, t.dir, va)
  {
    WalkTranslates(m, t, va);
    WalkTranslates(m', t', va);
    var f := phys + PAGE * (va / PAGE - first);
    ModUnique(f, PAGE, phys / PAGE + (va / PAGE - first), 0);
    FrameAligned(f);
    EntryFields(f % WORD, flags);
  }

  /** The flags a region has once a zone with these flags is mapped in it. */
  function RegionFlags(regions: map<int, int>, i: int, flags: int): int {
    if i in regions then regions[i] else flags
  }

  /** What map_zone allows: a page of the zone is for the user, or may be written, exactly when the flags say so and
      those of the first mapping in its region do; every other page allows what it allowed. */
  lemma MappedAccess(m: Mem, t: Tables, m': Mem, t': Tables, first: int, last: int, phys: int, flags: int, va: int)
    requires Good(m, t) && Good(m', t') && t'.dir == t.dir && UserPage(va / PAGE) &&
      phys % PAGE == 0 && 0 <= flags < 0x80
    requires ZoneMapped(t.pages, t'.pages, first, last, phys, flags)
    requires RegionsMapped(t.flags, t'.flags, first, last, flags)
    ensures UserMay(m', t.dir, va) <==> if first <= va / PAGE <= last
      then User(flags) && User(RegionFlags(t.flags, va / PAGE / ENTRIES, flags)) else UserMay(m, t.dir, va)
    ensures WriteMay(m', t.dir, va) <==> if first <= va / PAGE <= last
      then Writable(flags) && Writable(RegionFlags(t.flags, va / PAGE / ENTRIES, flags)) else WriteMay(m, t.dir, va)
  {
    hide User, Writable, UserMay, WriteMay, Entry;
    AccessIff(m, t, va);
    AccessIff(m', t', va);
    var f := phys + PAGE * (va / PAGE - first);
    ModUnique(f, PAGE, phys / PAGE + (va / PAGE - first), 0);
    FrameAligned(f);
    EntryFields(f % WORD, flags);
    assert va / PAGE in t.pages ==> va / PAGE / ENTRIES in t.flags.Keys;
    assert va / PAGE in t'.pages ==> va / PAGE / ENTRIES in t'.flags.Keys;
  }

  /** What unmap_zone means to the processor. */
  lemma UnmappedTranslates(m: Mem, t: Tables, m': Mem, t': Tables, first: int, last: int, va: int)
    requires Good(m, t) && Good(m', t') && t'.dir == t.dir && UserPage(va / PAGE)
    requires ZoneUnmapped(t.pages, t'.pages, first, last)
    ensures Translate(m', t.dir, va) == if first <= va / PAGE <= last then None else Translate(m, t.dir, va)
  {
    WalkTranslates(m, t, va);
    WalkTranslates(m', t', va);
  }

  /** Unmapping a zone that was free before it was mapped restores every mapping. */
  lemma UnmapUndoesMap(before: map<int, int>, mapped: map<int, int>, after: map<int, int>, first: int, last: int,
                       phys: int, flags: int)
    requires ZoneMapped(before, mapped, first, last, phys, flags) && ZoneUnmapped(mapped, after, first, last)
    requires forall v :: first <= v <= last ==> v !in before
    ensures after == before
  {
    forall v ensures v in after <==> v in before {
      assert v in mapped <==> v in before || first <= v <= last;
      assert v in after <==> v in mapped && !(first <= v <= last);
    }
    forall v | v in before ensures after[v] == before[v] {
      assert v in after && v in mapped;
    }
    assert after == before;
  }
}
