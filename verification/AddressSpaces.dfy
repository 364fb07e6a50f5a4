/** Address spaces: page tables built in frames of the buddy allocator. */
module AddressSpaces {
  import opened Basics
  import opened Blocks
  import opened Buddy
  import opened PageTables
  import opened Translation
  import opened AccessRights
  import opened TableWalks
  import opened MapRanges

  lemma GrewPages(p0: set<nat>, p1: set<nat>, p2: set<nat>, f0: set<nat>, f1: set<nat>, f2: set<nat>)
    requires f2 <= f1 <= f0 && p1 == p0 + (f0 - f1) && p2 == p1 + (f1 - f2)
    ensures p2 == p0 + (f0 - f2)
  {
  }

  /** Frame numbers fit the 40 bits an entry has for them. */
  ghost predicate Physical(frames: set<nat>) {
    forall f :: f in frames ==> f < 0x100_0000_0000
  }

  /** The free frame `f` became an empty table and hangs from entry `i` of table `t`. */
  ghost predicate Hung(m: Mem, free: set<nat>, m': Mem, free': set<nat>, t: nat, i: nat, f: nat) {
    && f in free && f !in m && free' == free - {f} && IsTable(m, t) && i < ENTRIES
    && m' == SetEntry(m[f := ZeroTable()], t, i, TablePte(f))
  }

  function ZeroPage(): Frame {
    Page(seq(PAGE_SIZE, _ => 0))
  }

  class Vmm {
    const pmm: BuddyAllocator
    /** Contents of the frames in use, by frame number. */
    var mem: Mem

    constructor (allocator: BuddyAllocator, initial: Mem)
      requires allocator.Valid() && initial.Keys !! FreeFrames(allocator.tags)
      requires Physical(FreeFrames(allocator.tags) + PageFrames(allocator.tags))
      ensures Valid() && pmm == allocator && mem == initial
    {
      pmm := allocator;
      mem := initial;
    }

    ghost predicate Valid()
      reads this, pmm
    {
      && pmm.Valid() && mem.Keys !! FreeFrames(pmm.tags)
      && Physical(FreeFrames(pmm.tags) + PageFrames(pmm.tags))
    }

    /** The frames that can still be allocated. */
    ghost function Free(): set<nat>
      reads this, pmm
    {
      FreeFrames(pmm.tags)
    }

    /** `alloc_zeroed_frame`, used as a table or as a page of bytes. */
    method AllocZeroed(asTable: bool) returns (r: Option<nat>)
      requires Valid()
      modifies `mem, pmm
      ensures Valid()
      ensures r.None? <==> old(Free()) == {}
      ensures r.None? ==> mem == old(mem) && Free() == old(Free()) && PageFrames(pmm.tags) == old(PageFrames(pmm.tags))
      ensures r.Some? ==>
        && r.value in old(Free()) && r.value !in old(mem)
        && Free() == old(Free()) - {r.value} && PageFrames(pmm.tags) == old(PageFrames(pmm.tags)) + {r.value}
        && mem == old(mem)[r.value := if asTable then ZeroTable() else ZeroPage()]
    {
      hide BuddyAllocator.Valid, FreeFrames;
      var phys := pmm.AllocFrame();
      if phys.None? {
        return None;
      }
      var f := phys.value / PAGE_SIZE;
      mem := mem[f := if asTable then ZeroTable() else ZeroPage()];
      r := Some(f);
    }

    /** Follows entry `i` of table `t`, first hanging an empty table there if the entry is absent, by an entry
        that takes no right away. */
    method GetOrAllocTable(t: nat, i: nat) returns (r: Option<nat>)
      requires Valid() && IsTable(mem, t) && i < ENTRIES
      modifies `mem, pmm
      ensures Valid()
      ensures r.None? <==> !Entry(old(mem), t, i).present && old(Free()) == {}
      ensures Entry(old(mem), t, i).present || r.None? ==> mem == old(mem) && Free() == old(Free())
      ensures Entry(old(mem), t, i).present ==> r == Some(Entry(old(mem), t, i).pfn)
      ensures PageFrames(pmm.tags) == old(PageFrames(pmm.tags)) + (old(Free()) - Free())
      ensures !Entry(old(mem), t, i).present && r.Some? ==>
        && Hung(old(mem), old(Free()), mem, Free(), t, i, r.value)
        && Entry(mem, t, i).present && EntryRights(Entry(mem, t, i)) == OPEN && !Entry(mem, t, i).large
    {
      hide BuddyAllocator.Valid, FreeFrames, PageFrames;
      if Entry(mem, t, i).present {
        return Some(Entry(mem, t, i).pfn);
      }
      r := AllocZeroed(true);
      if r.Some? {
        mem := SetEntry(mem, t, i, TablePte(r.value));
      }
    }

    /** One step down the path of `vp`: from the table `t` of level `low` to the one below it. */
    method StepDown(t: nat, low: nat, ghost end: nat, ghost root: nat, ghost lim: nat, vp: nat)
      returns (r: Option<nat>)
      requires Valid() && TreeOk(mem, 4, root, lim) && vp < Limit(lim) && end < low && 2 <= low <= 4
      requires TableOn(mem, 4, root, vp, low) == Some(t) && (low == 2 ==> !IsLarge(View(mem, root, lim), vp))
      modifies `mem, pmm
      ensures Valid() && Stepped(old(mem), old(Free()), mem, Free(), root, lim, vp, low, end, t, r)
      ensures PageFrames(pmm.tags) == old(PageFrames(pmm.tags)) + (old(Free()) - Free())
    {
      hide BuddyAllocator.Valid, FreeFrames, PageFrames, TreeOk, Limit, Stepped, TableOn;
      StepPresent(mem, Free(), root, lim, vp, low, end, t);
      r := GetOrAllocTable(t, Idx(low, vp));
      if r.Some? && !Entry(old(mem), t, Idx(low, vp)).present {
        StepInstalled(old(mem), old(Free()), root, lim, vp, low, end, t, r.value);
      }
    }

    /** Walks from the root to the table of level `low` on the path of `vp`, allocating missing tables. */
    method Descend(root: nat, vp: nat, low: nat, ghost lim: nat) returns (r: Option<nat>)
      requires Valid() && TreeOk(mem, 4, root, lim) && vp < Limit(lim) && 1 <= low <= 4
      requires low == 1 ==> !IsLarge(View(mem, root, lim), vp)
      modifies `mem, pmm
      ensures Valid() && Descended(old(mem), old(Free()), mem, Free(), root, lim, vp, low, low, r)
      ensures PageFrames(pmm.tags) == old(PageFrames(pmm.tags)) + (old(Free()) - Free())
    {
      hide BuddyAllocator.Valid, FreeFrames, PageFrames, TreeOk, Limit, Stepped, TableOn, View, Missing, Frames, Grew,
        TablesGrew;
      var level, t := 4, root;
      DescendStart(mem, Free(), root, lim, vp, low);
      while level > low
        invariant low <= level <= 4
        invariant Valid() && Descended(old(mem), old(Free()), mem, Free(), root, lim, vp, level, low, Some(t))
        invariant PageFrames(pmm.tags) == old(PageFrames(pmm.tags)) + (old(Free()) - Free())
      {
        ghost var m, f, p := mem, Free(), PageFrames(pmm.tags);
        r := StepDown(t, level, low, root, lim, vp);
        DescendStep(old(mem), old(Free()), m, f, mem, Free(), root, lim, vp, level, low, t, r);
        StepShrinks(m, f, mem, Free(), root, lim, vp, level, low, t, r);
        DescendShrinks(old(mem), old(Free()), m, f, root, lim, vp, level, low, Some(t));
        GrewPages(old(PageFrames(pmm.tags)), p, PageFrames(pmm.tags), old(Free()), f, Free());
        if r.None? {
          DescendNone(old(mem), old(Free()), mem, Free(), root, lim, vp, level - 1, low, low);
          return;
        }
        t := r.value;
        level := level - 1;
      }
      r := Some(t);
    }

    /** Maps the page of `virt` to the frame of `phys`.  Succeeds exactly when the tables that the path
        lacks can all be allocated; a failure leaves every translation as it was and no frame free. */
    method Map(root: nat, virt: nat, phys: nat, fl: Flags, ghost lim: nat) returns (ok: bool)
      requires Valid() && TreeOk(mem, 4, root, lim) && PageOf(virt) < Limit(lim)
      requires !IsLarge(View(mem, root, lim), PageOf(virt))
      modifies `mem, pmm
      ensures Valid() && TreeGrew(old(mem), old(Free()), mem, Free(), root, lim)
      ensures ok <==> Missing(old(mem), 4, root, PageOf(virt)) <= |old(Free())|
      ensures ok ==> |old(Free())| - |Free()| == Missing(old(mem), 4, root, PageOf(virt))
      ensures ok ==> View(mem, root, lim) == old(View(mem, root, lim))[PageOf(virt) := MakeLeaf(PfnOf(phys), fl)]
      ensures ok ==>
        var l := View(mem, root, lim)[PageOf(virt)];
        LeafRights(l) == Rights(fl.writable, fl.user, fl.noExec) && l.rest == fl.rest && !l.large
      ensures !ok ==> View(mem, root, lim) == old(View(mem, root, lim)) && Free() == {}
      ensures ok ==> TablesGrew(old(mem), mem, root, lim, PageOf(virt), 1)
      ensures PageFrames(pmm.tags) == old(PageFrames(pmm.tags)) + (old(Free()) - Free())
    {
      hide BuddyAllocator.Valid, FreeFrames, PageFrames, TreeOk, Limit, TableOn, View, Frames, Grew, PageOf, PfnOf,
        TablesGrew;
      var vp := PageOf(virt);
      PageIndices(virt);
      var r := Descend(root, vp, 1, lim);
      if r.None? {
        return false;
      }
      ghost var m := mem;
      LeafWritten(old(mem), old(Free()), mem, Free(), root, lim, vp, r.value, MakePte(PfnOf(phys), fl, false));
      mem := SetEntry(mem, r.value, PtIdx(virt), MakePte(PfnOf(phys), fl, false));
      ok := true;
    }

    /** Clears the page-table entry of `virt` if the tables down to it exist. */
    method Unmap(root: nat, virt: nat, ghost lim: nat)
      requires Valid() && TreeOk(mem, 4, root, lim) && PageOf(virt) < Limit(lim)
      requires !IsLarge(View(mem, root, lim), PageOf(virt))
      modifies `mem
      ensures Valid() && TreeGrew(old(mem), Free(), mem, Free(), root, lim)
      ensures View(mem, root, lim) == old(View(mem, root, lim)) - {PageOf(virt)}
    {
      hide BuddyAllocator.Valid, FreeFrames, TreeOk, Limit, View, Frames, PageOf;
      PageIndices(virt);
      ghost var vp := PageOf(virt);
      PathOrNone(mem, root, lim, vp);
      DescendStart(mem, Free(), root, lim, vp, 1);
      var e4 := Entry(mem, root, Pml4Idx(virt));
      if e4.present {
        var e3 := Entry(mem, e4.pfn, PdptIdx(virt));
        if e3.present {
          var e2 := Entry(mem, e3.pfn, PdIdx(virt));
          if e2.present {
            LeafCleared(mem, Free(), root, lim, vp, e2.pfn);
            mem := SetEntry(mem, e2.pfn, PtIdx(virt), ABSENT);
          }
        }
      }
    }

    /** Maps the 2 MiB page of `virt`, whatever its page-directory slot held.  Succeeds exactly when the
        tables down to the page directory can be allocated. */
    method MapLarge(root: nat, virt: nat, phys: nat, fl: Flags, ghost lim: nat) returns (ok: bool)
      requires Valid() && TreeOk(mem, 4, root, lim) && PageOf(virt) < Limit(lim)
      requires virt % 0x20_0000 == 0 && phys % 0x20_0000 == 0
      modifies `mem, pmm
      ensures Valid() && TreeOk(mem, 4, root, lim) && SameUpper(old(mem), root, mem, root, lim)
      ensures WiderLinks(old(mem), mem, root, lim)
      ensures ok <==> Missing(old(mem), 4, root, PageOf(virt), 2) <= |old(Free())|
      ensures Free() <= old(Free())
      ensures ok ==> |old(Free())| - |Free()| == Missing(old(mem), 4, root, PageOf(virt), 2)
      ensures ok ==> LargeGrew(old(mem), mem, root, lim, PageOf(virt))
      ensures ok ==>
        View(mem, root, lim) == old(View(mem, root, lim)) + LargePages(PageOf(virt), MakePte(PfnOf(phys), fl, true))
      ensures !ok ==> View(mem, root, lim) == old(View(mem, root, lim)) && Free() == {}
      ensures Bounded(old(mem), old(Free()), mem, Free(), old(Frames(mem, 4, root, lim)), Frames(mem, 4, root, lim))
    {
      hide BuddyAllocator.Valid, FreeFrames, PageFrames, TreeOk, Limit, TableOn, View, Frames, PageOf, PfnOf,
        LargePages, TablesGrew, LargeGrew;
      var vp := PageOf(virt);
      PageIndices(virt);
      var r := Descend(root, vp, 2, lim);
      SameIsWider(old(mem), mem, root, lim);
      hide WiderLinks, SameLinks;
      if r.None? {
        return false;
      }
      LargeWritten(old(mem), old(Free()), mem, Free(), root, lim, vp, r.value, MakePte(PfnOf(phys), fl, true));
      mem := SetEntry(mem, r.value, PdIdx(virt), MakePte(PfnOf(phys), fl, true));
      ok := true;
    }

    /** A pass of the loop of `map_range` that maps a 2 MiB page. */
    method RangeLargeStep(root: nat, v: nat, p: nat, fl: Flags, ghost lim: nat, ghost m0: Mem, ghost f0: set<nat>,
                          ghost vp: nat, ghost pfn: nat, ghost size: nat, ghost k: nat, ghost n: nat)
      returns (ok: bool)
      requires Valid() && TreeOk(mem, 4, root, lim) && m0.Keys !! f0
      requires RangeSoFar(m0, f0, mem, Free(), root, lim, vp, pfn, size, fl, k)
      requires PageOf(v) == vp + k && PfnOf(p) == pfn + k && vp + n <= Limit(lim) && k + 512 <= n
      requires v % 0x20_0000 == 0 && p % 0x20_0000 == 0
      requires LargeStep(vp, pfn, size, vp + k) && (vp + k) % 512 == 0 && (pfn + k) % 512 == 0
      modifies `mem, pmm
      ensures Valid() && TreeOk(mem, 4, root, lim)
      ensures ok ==> RangeSoFar(m0, f0, mem, Free(), root, lim, vp, pfn, size, fl, k + 512)
      ensures !ok ==> RangeFailed(m0, f0, mem, Free(), root, lim, vp, pfn, size, fl, k, n)
    {
      hide BuddyAllocator.Valid, FreeFrames, PageFrames, TreeOk, Limit, View, Frames, PageOf, PfnOf, LargePages,
        Plain, MapEach, Missing, LargeGrew, SameUpper, LargeStep, RangeSoFar, Bounded, RangeTables, MakePte,
        WiderLinks, AccessKept;
      ghost var m, f := mem, Free();
      ok := MapLarge(root, v, p, fl, lim);
      if ok {
        LargeKept(m, mem, root, lim, vp + k, pfn + k, fl);
      } else {
        ViewKept(m, mem, root, lim);
      }
      RangeEnds(m0, f0, m, f, mem, Free(), root, lim, vp, pfn, size, fl, k, n, 2);
      if ok {
        LargeDone(m0, f0, m, f, mem, Free(), root, lim, vp, pfn, size, fl, k);
      }
    }

    /** A pass that maps a page. */
    method RangeSmallStep(root: nat, v: nat, p: nat, fl: Flags, ghost lim: nat, ghost m0: Mem, ghost f0: set<nat>,
                          ghost vp: nat, ghost pfn: nat, ghost size: nat, ghost k: nat, ghost n: nat)
      returns (ok: bool)
      requires Valid() && TreeOk(mem, 4, root, lim) && m0.Keys !! f0
      requires RangeSoFar(m0, f0, mem, Free(), root, lim, vp, pfn, size, fl, k)
      requires PageOf(v) == vp + k && PfnOf(p) == pfn + k && vp + n <= Limit(lim) && k < n
      requires !LargeStep(vp, pfn, size, vp + k) && !IsLarge(View(mem, root, lim), vp + k)
      modifies `mem, pmm
      ensures Valid() && TreeOk(mem, 4, root, lim)
      ensures ok ==> RangeSoFar(m0, f0, mem, Free(), root, lim, vp, pfn, size, fl, k + 1)
      ensures !ok ==> RangeFailed(m0, f0, mem, Free(), root, lim, vp, pfn, size, fl, k, n)
    {
      hide BuddyAllocator.Valid, FreeFrames, PageFrames, TreeOk, Limit, View, Frames, PageOf, PfnOf, Plain, MapEach,
        Missing, TablesGrew, SameUpper, LargeStep, RangeSoFar, Bounded, TreeGrew, RangeTables, MakeLeaf, AccessKept,
        WiderLinks;
      ghost var m, f := mem, Free();
      ok := Map(root, v, p, fl, lim);
      GrewIsBounded(m, f, mem, Free(), root, lim);
      if ok {
        SmallKept(m, mem, root, lim, vp + k, pfn + k, fl);
      } else {
        ViewKept(m, mem, root, lim);
      }
      RangeEnds(m0, f0, m, f, mem, Free(), root, lim, vp, pfn, size, fl, k, n, 1);
      if ok {
        SmallDone(m0, f0, m, f, mem, Free(), root, lim, vp, pfn, size, fl, k);
      }
    }

    /** Maps `size` bytes from `phys` at `virt`, with 2 MiB entries wherever both sides are aligned for
        one.  Succeeds exactly when the tables that the range lacks can be allocated.  On success the pages
        are mapped exactly as page-by-page mapping would; on failure, a proper prefix of them. */
    method MapRange(root: nat, virt: nat, phys: nat, size: nat, fl: Flags, ghost lim: nat)
      returns (ok: bool, ghost done: nat)
      requires Valid() && TreeOk(mem, 4, root, lim)
      requires virt % PAGE_SIZE == 0 && phys % PAGE_SIZE == 0
      requires PageOf(virt) + Pages(size) <= Limit(lim) && phys / PAGE_SIZE + Pages(size) <= 0x100_0000_0000
      requires forall w: nat :: PageOf(virt) <= w < PageOf(virt) + Pages(size) && IsLarge(View(mem, root, lim), w) ==>
        LargeStep(PageOf(virt), PfnOf(phys), size, w)
      modifies `mem, pmm
      ensures Valid() && TreeOk(mem, 4, root, lim) && SameUpper(old(mem), root, mem, root, lim)
      ensures AccessKept(old(mem), mem, root, lim)
      ensures ok <==> RangeTables(old(mem), root, PageOf(virt), PfnOf(phys), size, Pages(size)) <= |old(Free())|
      ensures if ok then done == Pages(size) else done < Pages(size) && Free() == {}
      ensures Plain(View(mem, root, lim)) ==
        MapEach(Plain(old(View(mem, root, lim))), PageOf(virt), PfnOf(phys), done, fl)
      ensures Bounded(old(mem), old(Free()), mem, Free(), old(Frames(mem, 4, root, lim)), Frames(mem, 4, root, lim))
    {
      hide BuddyAllocator.Valid, FreeFrames, PageFrames, TreeOk, Limit, View, Frames, PageOf, PfnOf, Plain, MapEach,
        SameUpper, LargeStep, RangeSoFar, Bounded, RangeTables, Pages, AccessKept;
      var offset := 0;
      done := 0;
      ok := true;
      ghost var n, vp, pfn := Pages(size), PageOf(virt), PfnOf(phys);
      ghost var m0, f0 := mem, Free();
      RangeStart(m0, f0, root, lim, vp, pfn, size, fl);
      while offset < size
        invariant offset == PAGE_SIZE * done && done <= n
        invariant Valid() && TreeOk(mem, 4, root, lim)
        invariant RangeSoFar(m0, f0, mem, Free(), root, lim, vp, pfn, size, fl, done)
      {
        var v := virt + offset;
        var p := phys + offset;
        PageCount(size, done);
        RangeAddresses(virt, phys, done, n, lim);
        RangeNext(m0, f0, mem, Free(), root, lim, vp, pfn, size, fl, done, n);
        if size - offset >= 0x20_0000 && v % 0x20_0000 == 0 && p % 0x20_0000 == 0 {
          ok := RangeLargeStep(root, v, p, fl, lim, m0, f0, vp, pfn, size, done, n);
          if !ok {
            return;
          }
          offset := offset + 0x20_0000;
          done := done + 512;
        } else {
          ok := RangeSmallStep(root, v, p, fl, lim, m0, f0, vp, pfn, size, done, n);
          if !ok {
            return;
          }
          offset := offset + PAGE_SIZE;
          done := done + 1;
        }
      }
      PageCount(size, done);
      RangeComplete(m0, f0, mem, Free(), root, lim, vp, pfn, size, fl, n);
    }
  }
}
