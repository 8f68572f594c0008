/** kernel/paging.c, which builds page tables word by word, and the second walker of
    kernel/gdb_serial_support.c, which reads them. Pages come from a page allocator in the order of frames. */
module Paging {
  import opened Options
  import opened Arith
  import opened Lists
  import opened PagingSpec

  /** ALIGN. */
  function Align(a: int): int {
    Frame(a)
  }

  /** ALIGN_UP as it is written: an address that is not aligned is rounded down. */
  function AlignUp(a: int): int {
    if a % PAGE == 0 then a else Align(a)
  }

  lemma AlignIs(a: int)
    ensures Align(a) == AlignUp(a) == PAGE * (a / PAGE) && Align(a) % PAGE == 0 && Align(a) / PAGE == a / PAGE
  {
    ModUnique(Align(a), PAGE, a / PAGE, 0);
  }

  lemma VirtPage(virt: int, v: int)
    requires virt == PAGE * v
    ensures virt / PAGE == v
  {
    ModUnique(virt, PAGE, v, 0);
  }

  lemma NextAligned(a: int)
    requires a % PAGE == 0
    ensures (a + PAGE) % PAGE == 0
  {
    ModUnique(a + PAGE, PAGE, a / PAGE + 1, 0);
  }

  lemma NoRepeatsSnoc<T>(xs: seq<T>, x: T)
    requires NoRepeats(xs) && x !in xs
    ensures NoRepeats(xs + [x])
  {
  }

  class AddressSpace {
    const dir: int
    const kernelEntries: seq<int>  // the first entries of the early page directory
    var mem: Mem
    var frames: seq<int>           // the pages alloc_physical_page(1) will return; it panics when there is none
    ghost const pool: seq<int>     // the pages it had at first
    ghost var taken: seq<int>      // those that became page tables
    ghost var t: Tables

    /** f is free for a new page table. */
    ghost predicate Spare(f: int)
      reads this
    {
      Aligned(f) && f != dir && OutsideKernel(kernelEntries, f) && !IsTable(t.tables, f)
    }

    ghost predicate Valid()
      reads this
    {
      && Good(mem, t) && t.dir == dir
      && NoRepeats(pool) && pool == [dir] + taken + frames
      && (forall f :: f in taken <==> IsTable(t.tables, f))
      && (forall f {:trigger Spare(f)} :: f in frames ==> Spare(f))
      && Kernel()
    }

    /** The kernel's entries are in the directory, and its tables are no tables of this address space. */
    ghost predicate Kernel()
      reads this
    {
      && |kernelEntries| == KERNEL_ENTRIES
      && (forall i :: 0 <= i < KERNEL_ENTRIES ==> Word(mem, dir + 4 * i) == kernelEntries[i])
      && OutsideKernel(kernelEntries, dir)
      && forall f {:trigger IsTable(t.tables, f)} :: IsTable(t.tables, f) ==> OutsideKernel(kernelEntries, f)
    }

    /** page_directory_create, with the page directory of the early boot, whose tables are not for sale. */
    constructor (memory: Mem, pages: seq<int>, pgdir: seq<int>, ghost early: int)
      requires pages != [] && NoRepeats(pages) && |pgdir| == KERNEL_ENTRIES
      requires forall f :: f in pages ==> Aligned(f) && OutsideKernel(pgdir, f)
      requires forall i :: 0 <= i < KERNEL_ENTRIES ==> Word(memory, early + 4 * i) == pgdir[i]
      ensures Valid() && dir == pages[0] && kernelEntries == pgdir && t == Tables(dir, map[], map[], map[])
      ensures pool == pages && frames == pages[1..]
      ensures forall va {:trigger Translate(mem, dir, va)} ::
        0 <= va < 0x1000_0000 ==> Translate(mem, dir, va) == Translate(memory, early, va)
    {
      dir, kernelEntries := pages[0], pgdir;
      frames, pool, taken := pages[1..], pages, [];
      t := Tables(pages[0], map[], map[], map[]);
      var m, d, k := memory, pages[0], 0;
      assert Aligned(d);
      while k < ENTRIES
        invariant 0 <= k <= ENTRIES
        invariant forall j :: 0 <= j < k ==> Word(m, d + 4 * j) == 0
        invariant forall q {:trigger PageSame(memory, m, q)} :: q % PAGE == 0 && q != d ==> PageSame(memory, m, q)
      {
        OtherPagesSame(memory, m, d, k, 0, m[d + 4 * k := 0]);
        m := m[d + 4 * k := 0];
        k := k + 1;
      }
      k := 0;
      while k < KERNEL_ENTRIES
        invariant 0 <= k <= KERNEL_ENTRIES
        invariant forall j :: 0 <= j < k ==> Word(m, d + 4 * j) == pgdir[j]
        invariant forall j :: k <= j < ENTRIES ==> Word(m, d + 4 * j) == 0
        invariant forall q {:trigger PageSame(memory, m, q)} :: q % PAGE == 0 && q != d ==> PageSame(memory, m, q)
      {
        OtherPagesSame(memory, m, d, k, pgdir[k], m[d + 4 * k := pgdir[k]]);
        m := m[d + 4 * k := pgdir[k]];
        k := k + 1;
      }
      mem := m;
      new;
      forall j | KERNEL_ENTRIES <= j < ENTRIES ensures Pointed(mem, t, j) {
        assert Word(mem, dir + 4 * j) == 0;
      }
      assert Good(mem, t);
      assert pool == [dir] + taken + frames;
      forall f | f in frames ensures Spare(f) {
        assert f in pages;
      }
      forall va | 0 <= va < 0x1000_0000 ensures Translate(mem, dir, va) == Translate(memory, early, va) {
        KernelCopied(memory, mem, early, dir, kernelEntries, va);
      }
    }

    /** alloc_physical_page(1) and memset: a page of zeros. */
    method AllocZeroed() returns (p: int)
      requires Valid() && frames != []
      modifies this`mem, this`frames
      ensures p == old(frames)[0] && frames == old(frames)[1..] && Good(mem, t) && Kernel() &&
        Zeroed(mem, p) && Spare(p)
      ensures forall q {:trigger PageSame(old(mem), mem, q)} :: q % PAGE == 0 && q != p ==> PageSame(old(mem), mem, q)
      ensures KernelSame(old(mem), mem, dir, kernelEntries)
    {
      p := frames[0];
      assert Spare(p);
      frames := frames[1..];
      var k := 0;
      while k < ENTRIES
        invariant 0 <= k <= ENTRIES && frames == old(frames)[1..]
        invariant forall j :: 0 <= j < k ==> Word(mem, p + 4 * j) == 0
        invariant forall q {:trigger PageSame(old(mem), mem, q)} ::
          q % PAGE == 0 && q != p ==> PageSame(old(mem), mem, q)
      {
        OtherPagesSame(old(mem), mem, p, k, 0, mem[p + 4 * k := 0]);
        mem := mem[p + 4 * k := 0];
        k := k + 1;
      }
      OthersKeep(old(mem), p);
    }

    /** Only page p, which is spare, was written. */
    lemma OthersKeep(m: Mem, p: int)
      requires Good(m, t) && t.dir == dir && Spare(p) && |kernelEntries| == KERNEL_ENTRIES
      requires forall i :: 0 <= i < KERNEL_ENTRIES ==> Word(m, dir + 4 * i) == kernelEntries[i]
      requires forall q {:trigger PageSame(m, mem, q)} :: q % PAGE == 0 && q != p ==> PageSame(m, mem, q)
      ensures Good(mem, t) && KernelSame(m, mem, dir, kernelEntries)
      ensures forall i :: 0 <= i < KERNEL_ENTRIES ==> Word(mem, dir + 4 * i) == kernelEntries[i]
    {
      assert PageSame(m, mem, dir);
      forall i | i in t.tables ensures PageSame(m, mem, t.tables[i]) {
        assert IsTable(t.tables, t.tables[i]);
      }
      OtherWordsKeep(m, mem, t);
      forall i | 0 <= i < KERNEL_ENTRIES ensures WordSame(m, mem, dir, i) {
      }
      forall i | 0 <= i < KERNEL_ENTRIES ensures Word(mem, dir + 4 * i) == kernelEntries[i] {
        assert WordSame(m, mem, dir, i);
      }
      forall i | 0 <= i < KERNEL_ENTRIES && Present(kernelEntries[i]) && !Super(kernelEntries[i])
        ensures PageSame(m, mem, Frame(kernelEntries[i]))
      {
        assert KernelTableIsNot(kernelEntries, i, p);
        ModUnique(Frame(kernelEntries[i]), PAGE, kernelEntries[i] / PAGE, 0);
      }
    }

    /** A page becomes the page table of directory entry i, with flags. */
    method NewTable(i: int, flags: int)
      requires Valid() && frames != [] && KERNEL_ENTRIES <= i < ENTRIES && i !in t.tables && 0 <= flags < 0x80
      modifies this`mem, this`frames, this`taken, this`t
      ensures Valid() && taken == old(taken) + [old(frames)[0]] && frames == old(frames)[1..]
      ensures t == old(t).(tables := old(t).tables[i := old(frames)[0]], flags := old(t).flags[i := flags])
      ensures KernelSame(old(mem), mem, dir, kernelEntries)
    {
      hide Good, KernelSame, OutsideKernel, Zeroed, PageSame, Spare;
      ghost var m, t0 := mem, t;
      FreshPage();
      SparesSplit();
      var pt := AllocZeroed();
      TableIsNew(pt, i, flags);
      KernelSameThrough(m, mem, mem[dir + 4 * i := Entry(pt, flags)], dir, kernelEntries);
      mem := mem[dir + 4 * i := Entry(pt, flags)];
      t := t.(tables := t.tables[i := pt], flags := t.flags[i := flags]);
      taken := taken + [pt];
      assert pool == [dir] + taken + frames;
      TableValues(t0.tables, i, pt);
      StillSpare(t0, i, pt);
      KernelEntriesSame(m);
      assert t.tables == t0.tables[i := pt];
      forall f | IsTable(t.tables, f) ensures OutsideKernel(kernelEntries, f) {
        assert f == pt || IsTable(t0.tables, f);
      }
      forall f ensures f in taken <==> IsTable(t.tables, f) {
        assert f in taken <==> f in old(taken) || f == pt;
      }
    }

    lemma TableIsNew(p: int, i: int, flags: int)
      requires Good(mem, t) && t.dir == dir && Kernel() && Spare(p) && Zeroed(mem, p)
      requires KERNEL_ENTRIES <= i < ENTRIES && i !in t.tables && 0 <= flags < 0x80
      ensures Good(mem[dir + 4 * i := Entry(p, flags)], t.(tables := t.tables[i := p], flags := t.flags[i := flags]))
      ensures KernelSame(mem, mem[dir + 4 * i := Entry(p, flags)], dir, kernelEntries) &&
        OutsideKernel(kernelEntries, p)
    {
      NotATable(p);
      NewTableKeeps(mem, t, i, p, flags);
      KernelSameWrite(mem, dir, kernelEntries, dir, i, Entry(p, flags));
    }

    lemma SparesSplit()
      requires Valid()
      ensures forall f ::
        f in frames ==> Aligned(f) && f != dir && OutsideKernel(kernelEntries, f) && !IsTable(t.tables, f)
    {
      forall f | f in frames
        ensures Aligned(f) && f != dir && OutsideKernel(kernelEntries, f) && !IsTable(t.tables, f)
      {
        assert Spare(f);
      }
    }

    lemma FreshPage()
      requires Valid() && frames != []
      ensures frames[0] !in frames[1..]
    {
      assert forall k :: 0 <= k < |frames| ==> pool[|taken| + 1 + k] == frames[k];
    }

    lemma NotATable(p: int)
      requires Spare(p)
      ensures forall j :: j in t.tables ==> t.tables[j] != p
    {
      forall j | j in t.tables ensures t.tables[j] != p {
        assert IsTable(t.tables, t.tables[j]);
      }
    }

    lemma StillSpare(before: Tables, i: int, p: int)
      requires t.tables == before.tables[i := p] && p !in frames && i !in before.tables
      requires forall f ::
        f in frames ==> Aligned(f) && f != dir && OutsideKernel(kernelEntries, f) && !IsTable(before.tables, f)
      ensures forall f {:trigger Spare(f)} :: f in frames ==> Spare(f)
    {
      TableValues(before.tables, i, p);
    }

    lemma KernelEntriesSame(m: Mem)
      requires KernelSame(m, mem, dir, kernelEntries) && |kernelEntries| == KERNEL_ENTRIES
      ensures forall i :: 0 <= i < KERNEL_ENTRIES ==> Word(mem, dir + 4 * i) == kernelEntries[i]
    {
      forall i | 0 <= i < KERNEL_ENTRIES ensures Word(mem, dir + 4 * i) == kernelEntries[i] {
        assert WordSame(m, mem, dir, i);
      }
    }

    /** One entry of an existing page table is written. */
    method SetEntry(vpn: int, e: int)
      requires Valid() && UserPage(vpn) && vpn / ENTRIES in t.tables && (e == 0 || Present(e))
      modifies this`mem, this`t
      ensures Valid() && t == old(t).(pages := if e == 0 then old(t).pages - {vpn} else old(t).pages[vpn := e])
      ensures KernelSame(old(mem), mem, dir, kernelEntries)
    {
      ghost var m, before := mem, t;
      WalkFinds(mem, t, vpn);
      assert IsTable(t.tables, t.tables[vpn / ENTRIES]);
      var pageTable := Frame(Word(mem, dir + 4 * (vpn / ENTRIES)));
      SetEntryKeeps(mem, t, vpn, e);
      KernelSameWrite(mem, dir, kernelEntries, pageTable, vpn % ENTRIES, e);
      mem := mem[pageTable + 4 * (vpn % ENTRIES) := e];
      t := t.(pages := if e == 0 then t.pages - {vpn} else t.pages[vpn := e]);
      KernelEntriesSame(m);
      forall f | f in frames ensures Spare(f) {
        assert old(Spare(f));
      }
    }

    /** map_page. It panics when it needs a page table and there is no page left. */
    method MapPage(virt: int, phy: int, flags: int) returns (ok: bool)
      requires Valid() && UserPage(virt / PAGE) && phy % PAGE == 0 && 0 <= flags < 0x80
      modifies this`mem, this`frames, this`taken, this`t
      ensures Valid() && KernelSame(old(mem), mem, dir, kernelEntries)
      ensures ok <==> virt / PAGE / ENTRIES in old(t).tables || old(frames) != []
      ensures !ok ==> frames == old(frames) && t == old(t) && mem == old(mem)
      ensures ok ==> t.pages == old(t).pages[virt / PAGE := Entry(phy, flags)]
      ensures ok ==>
        var i := virt / PAGE / ENTRIES;
        t.flags == if i in old(t).flags then old(t).flags else old(t).flags[i := flags]
    {
      ghost var vpn, m := virt / PAGE, mem;
      var pdIndex := virt / SUPERPAGE;
      IndexIs(virt);
      WalkFinds(mem, t, vpn);
      KernelSameSelf();
      if !Present(Word(mem, dir + 4 * pdIndex)) {
        if frames == [] {
          return false;
        }
        NewTable(pdIndex, flags);
      }
      ghost var m1 := mem;
      EntryFields(phy, flags);
      SetEntry(virt / PAGE, Entry(phy, flags));
      KernelSameThrough(m, m1, mem, dir, kernelEntries);
      ok := true;
    }

    lemma KernelSameSelf()
      requires Kernel()
      ensures KernelSame(mem, mem, dir, kernelEntries)
    {
    }

    /** Below 256 MB nothing changes. */
    lemma KernelUntouched(m: Mem)
      requires |kernelEntries| == KERNEL_ENTRIES && KernelSame(m, mem, dir, kernelEntries)
      ensures forall va {:trigger Translate(mem, dir, va)} ::
        0 <= va < 0x1000_0000 ==> Translate(mem, dir, va) == Translate(m, dir, va)
    {
      forall va | 0 <= va < 0x1000_0000 ensures Translate(mem, dir, va) == Translate(m, dir, va) {
        KernelTranslates(m, mem, dir, kernelEntries, va);
      }
    }

    /** map_zone. Both zones start at any address and end at an address that is included; they are aligned
        down to pages. It panics when their sizes differ, or when there is no page left for a page table. */
    method MapZone(virtStart: int, virtEnd: int, phyStart: int, phyEnd: int, flags: int) returns (ok: bool)
      requires Valid() && 0x1000_0000 <= virtStart < WORD && 0x1000_0000 <= virtEnd < WORD && 0 <= flags < 0x80
      modifies this`mem, this`frames, this`taken, this`t
      ensures Valid() && (ok ==> virtEnd - virtStart == phyEnd - phyStart)
      ensures ok ==> ZoneMapped(old(t).pages, t.pages, virtStart / PAGE, virtEnd / PAGE, Align(phyStart), flags)
      ensures ok ==> RegionsMapped(old(t).flags, t.flags, virtStart / PAGE, virtEnd / PAGE, flags)
      ensures !ok && virtEnd - virtStart == phyEnd - phyStart ==> frames == []
      ensures ok ==> forall va {:trigger WriteMay(mem, dir, va)} :: virtStart / PAGE <= va / PAGE <= virtEnd / PAGE ==>
        (WriteMay(mem, dir, va) <==>
          Writable(flags) && Writable(RegionFlags(old(t).flags, va / PAGE / ENTRIES, flags)))
      ensures ok ==> forall va {:trigger UserMay(mem, dir, va)} :: virtStart / PAGE <= va / PAGE <= virtEnd / PAGE ==>
        (UserMay(mem, dir, va) <==> User(flags) && User(RegionFlags(old(t).flags, va / PAGE / ENTRIES, flags)))
      ensures forall va {:trigger Translate(mem, dir, va)} ::
        0 <= va < 0x1000_0000 ==> Translate(mem, dir, va) == Translate(old(mem), dir, va)
    {
      ghost var m := mem;
      KernelSameSelf();
      KernelUntouched(m);
      if virtEnd - virtStart != phyEnd - phyStart {
        return false;
      }
      AlignIs(phyStart);
      AlignIs(virtStart);
      AlignIs(virtEnd);
      var virt, phy := Align(virtStart), Align(phyStart);
      ghost var before := t;
      ok := MapPages(virt, AlignUp(virtEnd), phy, flags, virtStart / PAGE, virtEnd / PAGE);
      KernelUntouched(m);
      if ok {
        ZoneAccess(m, before, virtStart / PAGE, virtEnd / PAGE, phy, flags);
      }
    }

    lemma ZoneAccess(m: Mem, before: Tables, first: int, last: int, phys: int, flags: int)
      requires Good(m, before) && Good(mem, t) && before.dir == t.dir == dir && phys % PAGE == 0 && 0 <= flags < 0x80
      requires USER_PAGE <= first && last < 0x10_0000
      requires ZoneMapped(before.pages, t.pages, first, last, phys, flags)
      requires RegionsMapped(before.flags, t.flags, first, last, flags)
      ensures forall va {:trigger WriteMay(mem, dir, va)} :: first <= va / PAGE <= last ==>
        (WriteMay(mem, dir, va) <==> Writable(flags) && Writable(RegionFlags(before.flags, va / PAGE / ENTRIES, flags)))
      ensures forall va {:trigger UserMay(mem, dir, va)} :: first <= va / PAGE <= last ==>
        (UserMay(mem, dir, va) <==> User(flags) && User(RegionFlags(before.flags, va / PAGE / ENTRIES, flags)))
    {
      hide User, Writable, UserMay, WriteMay, Good, ZoneMapped, RegionsMapped, RegionFlags;
      forall va | first <= va / PAGE <= last
        ensures WriteMay(mem, dir, va) <==>
          Writable(flags) && Writable(RegionFlags(before.flags, va / PAGE / ENTRIES, flags))
        ensures UserMay(mem, dir, va) <==> User(flags) && User(RegionFlags(before.flags, va / PAGE / ENTRIES, flags))
      {
        MappedAccess(m, before, mem, t, first, last, phys, flags, va);
      }
    }

    /** The loop of map_zone. */
    method MapPages(virt0: int, end: int, phy0: int, flags: int, ghost first: int, ghost last: int) returns (ok: bool)
      requires Valid() && USER_PAGE <= first < 0x10_0000 && last < 0x10_0000 && virt0 == PAGE * first &&
        end == PAGE * last
      requires phy0 % PAGE == 0 && 0 <= flags < 0x80
      modifies this`mem, this`frames, this`taken, this`t
      ensures Valid() && KernelSame(old(mem), mem, dir, kernelEntries) && (!ok ==> frames == [])
      ensures ok ==> ZoneMapped(old(t).pages, t.pages, first, last, phy0, flags)
      ensures ok ==> RegionsMapped(old(t).flags, t.flags, first, last, flags)
    {
      hide Good, KernelSame, ZoneEntry, OutsideKernel;
      ghost var m, v := mem, first;
      KernelSameSelf();
      var virt, phy := virt0, phy0;
      while virt <= end
        invariant Valid() && KernelSame(m, mem, dir, kernelEntries)
        invariant virt == PAGE * v && phy == phy0 + PAGE * (v - first) && phy % PAGE == 0
        invariant first <= v && (v <= last + 1 || v == first) &&
          ZoneMapped(old(t).pages, t.pages, first, v - 1, phy0, flags)
        invariant RegionsMapped(old(t).flags, t.flags, first, v - 1, flags)
        decreases end + PAGE - virt
      {
        VirtPage(virt, v);
        FrameAligned(phy);
        ghost var m1, before := mem, t;
        var mapped := MapPage(virt, phy % WORD, flags);
        if !mapped {
          return false;
        }
        KernelSameThrough(m, m1, mem, dir, kernelEntries);
        ZoneGrows(old(t).pages, before.pages, t.pages, first, v, phy0, flags);
        RegionsGrow(old(t).flags, before.flags, t.flags, first, v - 1, flags);
        NextAligned(phy);
        virt, phy := virt + PAGE, phy + PAGE;
        v := v + 1;
      }
      ok := true;
    }

    /** unmap_zone. */
    method UnmapZone(virtStart: int, virtEnd: int)
      requires Valid() && 0x1000_0000 <= virtStart < WORD && 0x1000_0000 <= virtEnd < WORD
      modifies this`mem, this`t
      ensures Valid() && ZoneUnmapped(old(t).pages, t.pages, virtStart / PAGE, virtEnd / PAGE)
      ensures t.flags == old(t).flags && t.tables == old(t).tables
      ensures forall va {:trigger Translate(mem, dir, va)} ::
        0 <= va < 0x1000_0000 ==> Translate(mem, dir, va) == Translate(old(mem), dir, va)
    {
      AlignIs(virtStart);
      AlignIs(virtEnd);
      KernelSameSelf();
      var virt, end := Align(virtStart), AlignUp(virtEnd);
      ghost var m, first, last, v := mem, virtStart / PAGE, virtEnd / PAGE, virtStart / PAGE;
      while virt <= end
        invariant Valid() && virt == PAGE * v && first <= v && (v <= last + 1 || v == first)
        invariant ZoneUnmapped(old(t).pages, t.pages, first, v - 1) && t.flags == old(t).flags &&
          t.tables == old(t).tables
        invariant KernelSame(m, mem, dir, kernelEntries)
        decreases end + PAGE - virt
      {
        VirtPage(virt, v);
        IndexIs(virt);
        WalkFinds(mem, t, v);
        if Present(Word(mem, dir + 4 * (virt / SUPERPAGE))) {
          ghost var m1 := mem;
          SetEntry(virt / PAGE, 0);
          KernelSameThrough(m, m1, mem, dir, kernelEntries);
        }
        virt := virt + PAGE;
        v := v + 1;
      }
      KernelUntouched(m);
    }

    /** is_user_addr: the user bit of the page table entry, for an address that has one. It agrees with the
        processor exactly when the page is not mapped, or was mapped without the user flag, or its 4 MB region was
        first mapped with that flag. */
    method IsUserAddr(virt: int) returns (r: bool)
      requires Valid() && UserPage(virt / PAGE)
      ensures r <==> virt / PAGE in t.pages && User(t.pages[virt / PAGE])
      ensures (r <==> UserMay(mem, dir, virt)) <==>
        virt / PAGE !in t.pages || !User(t.pages[virt / PAGE]) || User(t.flags[virt / PAGE / ENTRIES])
    {
      IndexIs(virt);
      WalkFinds(mem, t, virt / PAGE);
      UserBitIff(mem, t, virt);
      var pdIndex := virt / SUPERPAGE;
      var ptIndex := virt / PAGE % ENTRIES;
      if !Present(Word(mem, dir + 4 * pdIndex)) {
        return false;
      }
      var pageTable := Frame(Word(mem, dir + 4 * pdIndex));
      r := User(Word(mem, pageTable + 4 * ptIndex));
    }

    /** page_directory_destroy: what it frees, in order. That is every page taken, once. */
    method Destroy() returns (freed: seq<int>)
      requires Valid()
      ensures NoRepeats(freed) && forall p :: p in freed <==> p in pool && p !in frames
    {
      freed := [];
      var i := KERNEL_ENTRIES;
      while i < ENTRIES
        invariant KERNEL_ENTRIES <= i <= ENTRIES && NoRepeats(freed) && dir !in freed
        invariant forall p :: p in freed <==> exists j :: j in t.tables && j < i && t.tables[j] == p
      {
        assert Pointed(mem, t, i);
        assert i in t.tables <==> i in t.flags.Keys;
        if i in t.tables {
          EntryFields(t.tables[i], t.flags[i]);
        }
        if Present(Word(mem, dir + 4 * i)) {
          assert t.tables[i] !in freed && t.tables[i] != dir;
          NoRepeatsSnoc(freed, t.tables[i]);
          freed := freed + [Frame(Word(mem, dir + 4 * i))];
        }
        i := i + 1;
      }
      NoRepeatsSnoc(freed, dir);
      freed := freed + [dir];
      TakenAreFreed(freed);
    }

    lemma TakenAreFreed(freed: seq<int>)
      requires Valid()
      requires forall p :: p in freed <==> p == dir || exists j :: j in t.tables && t.tables[j] == p
      ensures forall p :: p in freed <==> p in pool && p !in frames
    {
      forall p ensures p in freed <==> p in pool && p !in frames {
        assert p in pool <==> p == dir || p in taken || p in frames;
        assert p in taken <==> IsTable(t.tables, p);
        if p == dir || p in taken {
          PoolOnce(p);
        }
      }
    }

    lemma PoolOnce(p: int)
      requires Valid() && (p == dir || p in taken)
      ensures p !in frames
    {
      forall k | 0 <= k < |frames| ensures frames[k] != p {
        assert Spare(frames[k]);
      }
    }
  }

  // ---- runs

  /** A call of map_zone or unmap_zone. */
  datatype Op = Map(virtStart: int, virtEnd: int, phyStart: int, phyEnd: int, flags: int)
    | Unmap(virtStart: int, virtEnd: int)

  predicate Legal(op: Op) {
    0x1000_0000 <= op.virtStart < WORD && 0x1000_0000 <= op.virtEnd < WORD && (op.Map? ==> 0 <= op.flags < 0x80)
  }

  predicate Covers(op: Op, v: int) {
    op.virtStart / PAGE <= v <= op.virtEnd / PAGE
  }

  /** Whether a call maps something in the 4 MB region i. */
  predicate Touches(op: Op, i: int) {
    op.Map? && op.virtStart / PAGE <= op.virtEnd / PAGE &&
      op.virtStart / PAGE / ENTRIES <= i <= op.virtEnd / PAGE / ENTRIES
  }

  /** The flags of the first call that mapped something in region i. */
  function FirstFlags(ops: seq<Op>, i: int): Option<int> {
    if ops == [] then None
    else if Touches(ops[0], i) then Some(ops[0].flags)
    else FirstFlags(ops[1..], i)
  }

  /** The entry of page v after some calls: that of the last call that covers it. */
  function EntryAfter(ops: seq<Op>, v: int): Option<int> {
    if ops == [] then None
    else
      var op := ops[|ops| - 1];
      if !Covers(op, v) then EntryAfter(ops[..|ops| - 1], v)
      else if op.Unmap? then None
      else Some(ZoneEntry(op.virtStart / PAGE, Align(op.phyStart), op.flags, v))
  }

  lemma {:induction false} FirstFlagsSnoc(ops: seq<Op>, op: Op, i: int)
    ensures FirstFlags(ops + [op], i) ==
      if FirstFlags(ops, i).Some? then FirstFlags(ops, i) else if Touches(op, i) then Some(op.flags) else None
  {
    if ops == [] {
      assert ([] + [op])[1..] == [];
    } else {
      assert (ops + [op])[1..] == ops[1..] + [op];
      FirstFlagsSnoc(ops[1..], op, i);
    }
  }

  lemma EntryAfterSnoc(ops: seq<Op>, op: Op, v: int)
    ensures EntryAfter(ops + [op], v) ==
            if !Covers(op, v) then EntryAfter(ops, v)
            else if op.Unmap? then None
            else Some(ZoneEntry(op.virtStart / PAGE, Align(op.phyStart), op.flags, v))
  {
    assert (ops + [op])[..|ops|] == ops;
  }

  predicate PageIs(t: Tables, ops: seq<Op>, v: int) {
    if EntryAfter(ops, v).Some? then v in t.pages && t.pages[v] == EntryAfter(ops, v).value else v !in t.pages
  }

  predicate RegionIs(t: Tables, ops: seq<Op>, i: int) {
    if FirstFlags(ops, i).Some? then i in t.flags && t.flags[i] == FirstFlags(ops, i).value else i !in t.flags
  }

  /** The tables are what some calls made of empty ones. */
  ghost predicate MadeBy(t: Tables, ops: seq<Op>) {
    (forall v {:trigger PageIs(t, ops, v)} :: PageIs(t, ops, v)) &&
      (forall i {:trigger RegionIs(t, ops, i)} :: RegionIs(t, ops, i))
  }

  /** One more call. */
  lemma MadeByOneMore(t: Tables, t': Tables, ops: seq<Op>, op: Op)
    requires MadeBy(t, ops)
    requires if op.Map?
             then ZoneMapped(t.pages, t'.pages, op.virtStart / PAGE, op.virtEnd / PAGE, Align(op.phyStart), op.flags) &&
                  RegionsMapped(t.flags, t'.flags, op.virtStart / PAGE, op.virtEnd / PAGE, op.flags)
             else ZoneUnmapped(t.pages, t'.pages, op.virtStart / PAGE, op.virtEnd / PAGE) && t'.flags == t.flags
    ensures MadeBy(t', ops + [op])
  {
    hide ZoneEntry;
    forall v ensures PageIs(t', ops + [op], v) {
      assert PageIs(t, ops, v);
      EntryAfterSnoc(ops, op, v);
      hide EntryAfter;
    }
    forall i ensures RegionIs(t', ops + [op], i) {
      assert RegionIs(t, ops, i);
      FirstFlagsSnoc(ops, op, i);
      hide FirstFlags;
    }
  }

  /** A run of map_zone and unmap_zone on a new address space, up to the first panic. */
  method Run(space: AddressSpace, ops: seq<Op>) returns (ok: bool)
    requires space.Valid() && space.t == Tables(space.dir, map[], map[], map[]) &&
      forall k :: 0 <= k < |ops| ==> Legal(ops[k])
    modifies space
    ensures space.Valid() && (ok ==> MadeBy(space.t, ops))
  {
    assert MadeBy(space.t, []);
    hide MadeBy, Good, ZoneMapped, ZoneUnmapped, RegionsMapped, OutsideKernel;
    var done := 0;
    while done < |ops|
      invariant 0 <= done <= |ops| && space.Valid() && MadeBy(space.t, ops[..done])
    {
      ghost var t := space.t;
      assert Legal(ops[done]) && ops[..done + 1] == ops[..done] + [ops[done]];
      match ops[done] {
        case Map(vs, ve, ps, pe, flags) =>
          var mapped := space.MapZone(vs, ve, ps, pe, flags);
          if !mapped {
            return false;
          }
        case Unmap(vs, ve) =>
          space.UnmapZone(vs, ve);
      }
      MadeByOneMore(t, space.t, ops[..done], ops[done]);
      done := done + 1;
    }
    assert ops[..done] == ops;
    ok := true;
  }

  /** After any run, is_user_addr agrees with the processor exactly when the last call that covers the page unmapped
      it, or did not give the user flag, or the first call that mapped something in its 4 MB region gave it. */
  lemma UserAddrAfter(m: Mem, t: Tables, ops: seq<Op>, virt: int)
    requires Good(m, t) && MadeBy(t, ops) && UserPage(virt / PAGE)
    ensures (User(EntryOf(m, t.dir, virt / PAGE)) <==> UserMay(m, t.dir, virt)) <==>
      EntryAfter(ops, virt / PAGE).None? || !User(EntryAfter(ops, virt / PAGE).value) ||
      (FirstFlags(ops, virt / PAGE / ENTRIES).Some? && User(FirstFlags(ops, virt / PAGE / ENTRIES).value))
  {
    UserBitIff(m, t, virt);
    assert PageIs(t, ops, virt / PAGE) && RegionIs(t, ops, virt / PAGE / ENTRIES);
    hide EntryAfter, FirstFlags, User, UserMay, EntryOf;
  }

  /** After any run a page may be written, or is for the user, exactly when the last call that covers it mapped it with
      that flag and the first call that mapped something in its 4 MB region gave it too. */
  lemma AccessAfter(m: Mem, t: Tables, ops: seq<Op>, virt: int)
    requires Good(m, t) && MadeBy(t, ops) && UserPage(virt / PAGE)
    requires forall k :: 0 <= k < |ops| ==> Legal(ops[k])
    ensures WriteMay(m, t.dir, virt) <==>
      FlagsAfter(ops, virt / PAGE).Some? && Writable(FlagsAfter(ops, virt / PAGE).value) &&
      FirstFlags(ops, virt / PAGE / ENTRIES).Some? && Writable(FirstFlags(ops, virt / PAGE / ENTRIES).value)
    ensures UserMay(m, t.dir, virt) <==>
      FlagsAfter(ops, virt / PAGE).Some? && User(FlagsAfter(ops, virt / PAGE).value) &&
      FirstFlags(ops, virt / PAGE / ENTRIES).Some? && User(FirstFlags(ops, virt / PAGE / ENTRIES).value)
  {
    AccessIff(m, t, virt);
    assert PageIs(t, ops, virt / PAGE) && RegionIs(t, ops, virt / PAGE / ENTRIES);
    assert virt / PAGE in t.pages ==> virt / PAGE / ENTRIES in t.flags.Keys;
    hide FirstFlags, User, Writable, UserMay, WriteMay;
    FlagsOfEntry(ops, virt / PAGE);
  }

  /** The flags of the last call that covers page v, if it mapped it. */
  function FlagsAfter(ops: seq<Op>, v: int): Option<int> {
    if ops == [] then None
    else
      var op := ops[|ops| - 1];
      if !Covers(op, v) then FlagsAfter(ops[..|ops| - 1], v) else if op.Unmap? then None else Some(op.flags)
  }

  lemma {:induction false} FlagsOfEntry(ops: seq<Op>, v: int)
    requires forall k :: 0 <= k < |ops| ==> Legal(ops[k])
    ensures EntryAfter(ops, v).Some? <==> FlagsAfter(ops, v).Some?
    ensures EntryAfter(ops, v).Some? ==>
      (User(EntryAfter(ops, v).value) <==> User(FlagsAfter(ops, v).value)) &&
      (Writable(EntryAfter(ops, v).value) <==> Writable(FlagsAfter(ops, v).value))
  {
    hide Entry, User, Writable;
    if ops != [] {
      var op := ops[|ops| - 1];
      if !Covers(op, v) {
        FlagsOfEntry(ops[..|ops| - 1], v);
      } else if op.Map? {
        AlignIs(op.phyStart);
        var f := Align(op.phyStart) + PAGE * (v - op.virtStart / PAGE);
        ModUnique(f, PAGE, Align(op.phyStart) / PAGE + (v - op.virtStart / PAGE), 0);
        FrameAligned(f);
        EntryFields(f % WORD, op.flags);
      }
    }
  }

  const RW: int := 2
  const US: int := 4

  /** A page for the kernel and then one for the user in the same 4 MB: is_user_addr accepts the second, which the
      processor does not let the user touch. */
  method KernelPageFirst(space: AddressSpace) returns (r: bool)
    requires space.Valid() && space.t == Tables(space.dir, map[], map[], map[]) && space.frames != []
    modifies space
    ensures r && !UserMay(space.mem, space.dir, 0x4000_1000)
  {
    var first := space.MapPage(0x4000_0000, 0x10_0000, RW);
    var second := space.MapPage(0x4000_1000, 0x20_0000, RW + US);
    EntryFields(0x20_0000, RW + US);
    r := space.IsUserAddr(0x4000_1000);
  }

  lemma ZoneGrows(pages: map<int, int>, before: map<int, int>, after: map<int, int>, first: int, v: int,
      phys: int, flags: int)
    requires first <= v && ZoneMapped(pages, before, first, v - 1, phys, flags)
    requires after == before[v := Entry((phys + PAGE * (v - first)) % WORD, flags)]
    ensures ZoneMapped(pages, after, first, v, phys, flags)
  {
    hide Entry;
  }

  lemma TableValues(tables: map<int, int>, i: int, p: int)
    requires i !in tables
    ensures forall f :: IsTable(tables[i := p], f) <==> f == p || IsTable(tables, f)
  {
    var more := tables[i := p];
    assert more[i] == p;
    forall f | IsTable(tables, f) ensures IsTable(more, f) {
      var j :| j in tables && tables[j] == f;
      assert more[j] == f;
    }
  }

  /** A write to one page leaves every other page as it was. */
  lemma OtherPagesSame(m0: Mem, m: Mem, p: int, k: int, e: int, m': Mem)
    requires p % PAGE == 0 && 0 <= k < ENTRIES && m' == m[p + 4 * k := e]
    requires forall q {:trigger PageSame(m0, m, q)} :: q % PAGE == 0 && q != p ==> PageSame(m0, m, q)
    ensures forall q {:trigger PageSame(m0, m', q)} :: q % PAGE == 0 && q != p ==> PageSame(m0, m', q)
  {
    forall q | q % PAGE == 0 && q != p ensures PageSame(m0, m', q) {
      assert PageSame(m0, m, q);
      forall j | 0 <= j < ENTRIES ensures WordSame(m0, m', q, j) {
        assert WordSame(m0, m, q, j);
        if q + 4 * j == p + 4 * k {
          WordOfPage(q, p, j, k);
        }
      }
    }
  }
}
