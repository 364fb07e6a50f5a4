/** Whole trees: tearing an address space down, cloning it for fork, and write-protecting it. */
module Fork {
  import opened Basics
  import opened Blocks
  import opened Buddy
  import opened PageTables
  import opened AccessRights
  import opened AddressSpaces

  // ----- counting the tables of a tree slot by slot

  lemma UnderNext(m: Mem, level: nat, f: nat, lim: nat, n: nat)
    ensures Under(m, level, f, lim, n + 1) == Under(m, level, f, lim, n) + Sub(m, level, f, lim, n)
  {
    var all := Under(m, level, f, lim, n) + Sub(m, level, f, lim, n);
    forall g | g in Under(m, level, f, lim, n + 1) ensures g in all {
      var j := SlotOf(m, level, f, lim, n + 1, g);
      if j < n { InUnder(m, level, f, lim, n, j); }
    }
    forall g | g in all ensures g in Under(m, level, f, lim, n + 1) {
      if g in Under(m, level, f, lim, n) {
        var j := SlotOf(m, level, f, lim, n, g);
        InUnder(m, level, f, lim, n + 1, j);
      } else {
        InUnder(m, level, f, lim, n + 1, n);
      }
    }
  }

  /** The tables below slot `n` are none of those below the earlier slots, nor the table itself. */
  lemma UnderApart(m: Mem, level: nat, f: nat, lim: nat, n: nat)
    requires TreeOk(m, level, f, lim) && n <= Slots(level, lim)
    ensures f !in Under(m, level, f, lim, n)
    ensures n < Slots(level, lim) ==> Sub(m, level, f, lim, n) !! Under(m, level, f, lim, n)
  {
    forall g | g in Under(m, level, f, lim, n)
      ensures g != f && (n < Slots(level, lim) ==> g !in Sub(m, level, f, lim, n))
    {
      var j := SlotOf(m, level, f, lim, n, g);
      assert SlotOk(m, level, f, lim, j);
      if n < Slots(level, lim) {
        assert PairOk(m, level, f, lim, j, n);
      }
    }
  }

  lemma UnderCount(m: Mem, level: nat, f: nat, lim: nat, n: nat)
    requires TreeOk(m, level, f, lim) && n < Slots(level, lim)
    ensures |Under(m, level, f, lim, n + 1)| == |Under(m, level, f, lim, n)| + |Sub(m, level, f, lim, n)|
  {
    UnderNext(m, level, f, lim, n);
    UnderApart(m, level, f, lim, n);
  }

  lemma UnderZero(m: Mem, level: nat, f: nat, lim: nat)
    ensures Under(m, level, f, lim, 0) == {}
  {
  }

  // ----- tear-down

  /** Memory and allocator sets after giving back the given frames. */
  ghost predicate Released(m: Mem, free: set<nat>, pages: set<nat>, m': Mem, free': set<nat>, pages': set<nat>,
                           gone: set<nat>) {
    m' == m - gone && free' == free + gone && pages' == pages - gone
  }

  /** The subtree at slot `n` is intact after the frames below the earlier slots are gone. */
  lemma SubtreeIntact(m: Mem, level: nat, f: nat, lim: nat, n: nat)
    requires TreeOk(m, level, f, lim) && n < Slots(level, lim)
    ensures var m' := m - Under(m, level, f, lim, n);
      && IsTable(m', f) && Entry(m', f, n) == Entry(m, f, n)
      && (Link(m, level, f, n) ==>
           && TreeOk(m', level - 1, Entry(m, f, n).pfn, lim)
           && Frames(m', level - 1, Entry(m, f, n).pfn, lim) == Sub(m, level, f, lim, n))
  {
    UnderApart(m, level, f, lim, n);
    assert SlotOk(m, level, f, lim, n);
    if Link(m, level, f, n) {
      SameTree(m, m - Under(m, level, f, lim, n), level - 1, Entry(m, f, n).pfn, lim);
    }
  }

  method Release(vm: Vmm, f: nat)
    requires vm.Valid() && f in vm.mem && f in PageFrames(vm.pmm.tags)
    modifies vm`mem, vm.pmm
    ensures vm.Valid()
    ensures Released(old(vm.mem), old(vm.Free()), old(PageFrames(vm.pmm.tags)), vm.mem, vm.Free(),
                     PageFrames(vm.pmm.tags), {f})
  {
    hide BuddyAllocator.Valid, FreeFrames, PageFrames;
    vm.pmm.FreeFrame(PAGE_SIZE * f);
    vm.mem := vm.mem - {f};
  }

  lemma FramesIsUnder(m: Mem, level: nat, f: nat, lim: nat)
    ensures Frames(m, level, f, lim) == {f} + Under(m, level, f, lim, Slots(level, lim))
    ensures level <= 1 ==> Under(m, level, f, lim, Slots(level, lim)) == {}
  {
  }

  /** `free_user_page_tables`: gives back every table of the tree once, children before parents, and
      nothing else. */
  method FreeTables(vm: Vmm, level: nat, f: nat, lim: nat)
    requires vm.Valid() && 1 <= level <= 4 && TreeOk(vm.mem, level, f, lim)
    requires Frames(vm.mem, level, f, lim) <= PageFrames(vm.pmm.tags)
    modifies vm`mem, vm.pmm
    ensures vm.Valid()
    ensures Released(old(vm.mem), old(vm.Free()), old(PageFrames(vm.pmm.tags)), vm.mem, vm.Free(),
                     PageFrames(vm.pmm.tags), old(Frames(vm.mem, level, f, lim)))
    decreases level
  {
    hide BuddyAllocator.Valid, FreeFrames, PageFrames, TreeOk, Frames;
    ghost var m0 := vm.mem;
    OwnTable(m0, level, f, lim);
    if level > 1 {
      var n := Slots(level, lim);
      UnderZero(m0, level, f, lim);
      for i := 0 to n
        invariant vm.Valid()
        invariant Released(m0, old(vm.Free()), old(PageFrames(vm.pmm.tags)), vm.mem, vm.Free(), PageFrames(vm.pmm.tags),
                           Under(m0, level, f, lim, i))
      {
        SubtreeIntact(m0, level, f, lim, i);
        UnderNext(m0, level, f, lim, i);
        UnderApart(m0, level, f, lim, i);
        if Link(vm.mem, level, f, i) {
          SubInFrames(m0, level, f, lim, i);
          FreeTables(vm, level - 1, Entry(vm.mem, f, i).pfn, lim);
        }
      }
    }
    FramesIsUnder(m0, level, f, lim);
    UnderApart(m0, level, f, lim, Slots(level, lim));
    Release(vm, f);
  }

  // ----- cloning

  ghost predicate SmallSlot(m: Mem, level: nat, f: nat, lim: nat, i: nat)
    decreases level, 0
  {
    && (level == 2 ==> !Entry(m, f, i).large)
    && (Link(m, level, f, i) ==> SmallOnly(m, level - 1, Entry(m, f, i).pfn, lim))
  }

  /** No page of the tree is mapped by a 2 MiB entry. */
  ghost predicate SmallOnly(m: Mem, level: nat, f: nat, lim: nat)
    decreases level, 1
  {
    forall i: nat :: i < Slots(level, lim) ==> SmallSlot(m, level, f, lim, i)
  }

  /** A leaf after fork: user pages lose the writable bit. */
  function CowLeaf(l: Option<Leaf>): Option<Leaf> {
    match l
    case None => None
    case Some(leaf) => Some(if leaf.user then leaf.(writable := false) else leaf)
  }

  function CowPte(e: Pte): Pte {
    if e.user then e.(writable := false) else e
  }

  ghost predicate ClonedAt(m: Mem, level: nat, p: nat, m': Mem, c: nat, w: nat) {
    && Lookup(m', level, c, w) == CowLeaf(Lookup(m, level, p, w))
    && PathRights(m', level, c, w) == PathRights(m, level, p, w)
  }

  /** In `m'` the tree at `c` maps what the tree at `p` maps in `m`, user pages write-protected, for page
      numbers whose slot is below `n`; its slots from `n` on are absent. */
  ghost predicate ClonedUpTo(m: Mem, level: nat, p: nat, m': Mem, c: nat, n: nat) {
    && (forall w: nat :: Idx(level, w) < n ==> ClonedAt(m, level, p, m', c, w))
    && (forall j: nat :: j >= n ==> Entry(m', c, j) == ABSENT)
  }

  /** Allocation only: what existed is unchanged and what is new came from the free frames. */
  ghost predicate Extended(m: Mem, free: set<nat>, pages: set<nat>, m': Mem, free': set<nat>, pages': set<nat>) {
    && free' <= free && Agree(m, m', m.Keys) && m'.Keys == m.Keys + (free - free') && pages' == pages + (free - free')
  }

  lemma ExtendedTrans(m0: Mem, f0: set<nat>, p0: set<nat>, m1: Mem, f1: set<nat>, p1: set<nat>, m2: Mem, f2: set<nat>,
                      p2: set<nat>)
    requires Extended(m0, f0, p0, m1, f1, p1) && Extended(m1, f1, p1, m2, f2, p2)
    ensures Extended(m0, f0, p0, m2, f2, p2)
  {
  }

  /** The copy `c` is being filled: slot `n` comes next, and its subtree `g` is ready. */
  ghost predicate SlotReady(m: Mem, level: nat, p: nat, lim: nat, n: nat, m1: Mem, c: nat, g: nat)
  {
    && 2 <= level <= 4 && n < Slots(level, lim) && Link(m, level, p, n) && !Entry(m, p, n).large
    && TreeOk(m1, level, c, lim) && Entry(m1, c, n) == ABSENT
    && TreeOk(m1, level - 1, g, lim) && Frames(m1, level - 1, g, lim) !! Frames(m1, level, c, lim)
  }

  lemma CloneSlotOk(m1: Mem, x: Pte, level: nat, c: nat, lim: nat, n: nat)
    requires 2 <= level <= 4 && n < Slots(level, lim) && TreeOk(m1, level, c, lim) && Entry(m1, c, n) == ABSENT
    requires x.present && !x.large
    requires TreeOk(m1, level - 1, x.pfn, lim) && Frames(m1, level - 1, x.pfn, lim) !! Frames(m1, level, c, lim)
    ensures var m2 := SetEntry(m1, c, n, x);
      && OneSlot(m1, m2, level, c, lim, n) && SlotOk(m2, level, c, lim, n)
      && Sub(m2, level, c, lim, n) == Frames(m1, level - 1, x.pfn, lim) && Sub(m1, level, c, lim, n) == {}
  {
    var m2 := SetEntry(m1, c, n, x);
    OwnTable(m1, level, c, lim);
    SameTree(m1, m2, level - 1, x.pfn, lim);
    assert Entry(m2, c, n) == x;
    hide TreeOk, Frames;
  }

  /** Hanging the subtree `g` into slot `n` of `c`. */
  lemma CloneSlotTree(m: Mem, level: nat, p: nat, lim: nat, n: nat, m1: Mem, c: nat, g: nat)
    requires SlotReady(m, level, p, lim, n, m1, c, g)
    ensures IsTable(m1, c)
    ensures var m2 := SetEntry(m1, c, n, Entry(m, p, n).(pfn := g));
      && TreeOk(m2, level, c, lim) && OneSlot(m1, m2, level, c, lim, n) && Agree(m1, m2, Frames(m1, level - 1, g, lim))
      && Link(m2, level, c, n) && Entry(m2, c, n) == Entry(m, p, n).(pfn := g)
      && (forall j: nat :: j != n ==> Entry(m2, c, j) == Entry(m1, c, j))
      && Frames(m2, level, c, lim) == Frames(m1, level, c, lim) + Frames(m1, level - 1, g, lim)
  {
    var x := Entry(m, p, n).(pfn := g);
    CloneSlotOk(m1, x, level, c, lim, n);
    OwnTable(m1, level, c, lim);
    Rewire(m1, SetEntry(m1, c, n, x), level, c, lim, n);
  }

  lemma ClonePoint(m: Mem, level: nat, p: nat, lim: nat, n: nat, m1: Mem, m2: Mem, c: nat, g: nat, w: nat)
    requires 2 <= level <= 4 && n < Slots(level, lim) && Link(m, level, p, n) && Idx(level, w) <= n
    requires TreeOk(m1, level, c, lim) && OneSlot(m1, m2, level, c, lim, n) && Link(m2, level, c, n)
    requires Entry(m2, c, n) == Entry(m, p, n).(pfn := g)
    requires Idx(level, w) < n ==> ClonedAt(m, level, p, m1, c, w)
    requires ClonedAt(m, level - 1, Entry(m, p, n).pfn, m1, g, w)
    requires TreeOk(m1, level - 1, g, lim) && Agree(m1, m2, Frames(m1, level - 1, g, lim))
    ensures ClonedAt(m, level, p, m2, c, w)
  {
    hide TreeOk, Frames, OneSlot;
    if Idx(level, w) < n {
      RewireLookup(m1, m2, level, c, lim, n, w);
      RewireRights(m1, m2, level, c, lim, n, w);
    } else {
      SameLookup(m1, m2, level - 1, g, lim, w);
      RightsLocal(m1, m2, level - 1, g, lim, w);
    }
  }

  /** One more slot of the copy means what the original slot means. */
  lemma CloneSlot(m: Mem, level: nat, p: nat, lim: nat, n: nat, m1: Mem, c: nat, g: nat)
    requires SlotReady(m, level, p, lim, n, m1, c, g)
    requires ClonedUpTo(m, level, p, m1, c, n) && ClonedUpTo(m, level - 1, Entry(m, p, n).pfn, m1, g, ENTRIES)
    ensures IsTable(m1, c)
    ensures ClonedUpTo(m, level, p, SetEntry(m1, c, n, Entry(m, p, n).(pfn := g)), c, n + 1)
  {
    hide TreeOk, Frames, OneSlot, Lookup, PathRights, Idx, ClonedAt;
    CloneSlotTree(m, level, p, lim, n, m1, c, g);
    var m2 := SetEntry(m1, c, n, Entry(m, p, n).(pfn := g));
    forall w: nat | Idx(level, w) < n + 1 ensures ClonedAt(m, level, p, m2, c, w) {
      ClonePoint(m, level, p, lim, n, m1, m2, c, g, w);
    }
  }

  lemma LinkNotLarge(m: Mem, level: nat, f: nat, lim: nat, i: nat)
    requires TreeOk(m, level, f, lim) && i < Slots(level, lim) && SmallSlot(m, level, f, lim, i) && level >= 2
    ensures !Entry(m, f, i).large
  {
    assert SlotOk(m, level, f, lim, i);
  }

  /** The outcome of cloning the tree at `p`: a fresh tree made of all the frames taken, as many as the
      original has; or no free frame left because the original has more tables than there were. */
  ghost predicate Cloned(m: Mem, free: set<nat>, pages: set<nat>, m': Mem, free': set<nat>, pages': set<nat>,
                         level: nat, p: nat, lim: nat, r: Option<nat>)
  {
    && Extended(m, free, pages, m', free', pages')
    && match r
       case Some(c) =>
         && TreeOk(m', level, c, lim) && Frames(m', level, c, lim) == free - free'
         && ClonedUpTo(m, level, p, m', c, Slots(level, lim))
         && |free| - |free'| == |Frames(m, level, p, lim)|
       case None => free' == {} && |free| < |Frames(m, level, p, lim)|
  }

  /** The copy `c` of the table `p` is filled up to slot `n`. */
  ghost predicate Filling(m: Mem, free: set<nat>, pages: set<nat>, m': Mem, free': set<nat>, pages': set<nat>,
                          level: nat, p: nat, lim: nat, c: nat, n: nat)
  {
    && Extended(m, free, pages, m', free', pages')
    && TreeOk(m', level, c, lim) && Frames(m', level, c, lim) == free - free'
    && ClonedUpTo(m, level, p, m', c, n)
    && |free| - |free'| == 1 + |Under(m, level, p, lim, n)|
  }

  lemma SizeMonotone(a: set<nat>, b: set<nat>)
    requires a <= b
    ensures |a| <= |b|
  {
    assert b == a + (b - a);
  }

  lemma ExtendedOne(m: Mem, free: set<nat>, pages: set<nat>, c: nat)
    requires c in free && c !in m
    ensures Extended(m, free, pages, m[c := ZeroTable()], free - {c}, pages + {c})
  {
    hide ZeroTable;
    assert free - (free - {c}) == {c};
  }

  lemma FillStart(m: Mem, free: set<nat>, pages: set<nat>, level: nat, p: nat, lim: nat, c: nat)
    requires c in free && c !in m
    ensures Filling(m, free, pages, m[c := ZeroTable()], free - {c}, pages + {c}, level, p, lim, c, 0)
  {
    hide TreeOk, Frames, Under, Lookup, Idx, Extended;
    var m' := m[c := ZeroTable()];
    EmptyTree(m', level, c, lim);
    UnderZero(m, level, p, lim);
    assert free - (free - {c}) == {c};
    assert forall j: nat :: Entry(m', c, j) == ABSENT;
    ExtendedOne(m, free, pages, c);
  }

  lemma FillSkip(m: Mem, free: set<nat>, pages: set<nat>, m': Mem, free': set<nat>, pages': set<nat>,
                 level: nat, p: nat, lim: nat, c: nat, n: nat)
    requires Filling(m, free, pages, m', free', pages', level, p, lim, c, n) && level >= 2
    requires TreeOk(m, level, p, lim) && n < Slots(level, lim) && !Entry(m, p, n).present
    ensures Filling(m, free, pages, m', free', pages', level, p, lim, c, n + 1)
  {
    hide TreeOk, Frames, Extended;
    UnderNext(m, level, p, lim, n);
    assert Under(m, level, p, lim, n + 1) == Under(m, level, p, lim, n);
    forall w: nat | Idx(level, w) < n + 1 ensures ClonedAt(m, level, p, m', c, w) {
      assert Idx(level, w) == n ==> Entry(m', c, n) == ABSENT;
    }
  }

  lemma FillFail(m: Mem, free: set<nat>, level: nat, p: nat, lim: nat, n: nat, used: nat, left: nat)
    requires TreeOk(m, level, p, lim) && n < Slots(level, lim)
    requires used == 1 + |Under(m, level, p, lim, n)| && left < |Sub(m, level, p, lim, n)|
    ensures used + left < |Frames(m, level, p, lim)|
  {
    UnderCount(m, level, p, lim, n);
    UnderApart(m, level, p, lim, Slots(level, lim));
    FramesIsUnder(m, level, p, lim);
    forall g | g in Under(m, level, p, lim, n + 1) ensures g in Under(m, level, p, lim, Slots(level, lim)) {
      var j := SlotOf(m, level, p, lim, n + 1, g);
      InUnder(m, level, p, lim, Slots(level, lim), j);
    }
    SizeMonotone(Under(m, level, p, lim, n + 1), Under(m, level, p, lim, Slots(level, lim)));
  }

  lemma FillDone(m: Mem, free: set<nat>, pages: set<nat>, m': Mem, free': set<nat>, pages': set<nat>,
                 level: nat, p: nat, lim: nat, c: nat)
    requires Filling(m, free, pages, m', free', pages', level, p, lim, c, Slots(level, lim)) && TreeOk(m, level, p, lim)
    ensures Cloned(m, free, pages, m', free', pages', level, p, lim, Some(c))
  {
    hide TreeOk, Extended, ClonedUpTo;
    UnderApart(m, level, p, lim, Slots(level, lim));
    FramesIsUnder(m, level, p, lim);
  }

  lemma {:induction false} SameSmall(m: Mem, m': Mem, level: nat, f: nat, lim: nat)
    requires TreeOk(m, level, f, lim) && Agree(m, m', Frames(m, level, f, lim)) && SmallOnly(m, level, f, lim)
    ensures SmallOnly(m', level, f, lim)
    decreases level
  {
    OwnTable(m, level, f, lim);
    forall i: nat | i < Slots(level, lim) ensures SmallSlot(m', level, f, lim, i) {
      assert SmallSlot(m, level, f, lim, i) && SlotOk(m, level, f, lim, i);
      SubInFrames(m, level, f, lim, i);
      if Link(m, level, f, i) {
        SameSmall(m, m', level - 1, Entry(m, f, i).pfn, lim);
      }
    }
  }

  ghost predicate SameMeaning(m: Mem, m': Mem, level: nat, f: nat) {
    forall w: nat ::
      Lookup(m', level, f, w) == Lookup(m, level, f, w) && PathRights(m', level, f, w) == PathRights(m, level, f, w)
  }

  lemma SameMeaningHere(m: Mem, m': Mem, level: nat, f: nat, lim: nat)
    requires TreeOk(m, level, f, lim) && Agree(m, m', Frames(m, level, f, lim)) && level <= 3
    ensures SameMeaning(m, m', level, f)
  {
    forall w: nat
      ensures Lookup(m', level, f, w) == Lookup(m, level, f, w)
      ensures PathRights(m', level, f, w) == PathRights(m, level, f, w)
    {
      SameLookup(m, m', level, f, lim, w);
      RightsLocal(m, m', level, f, lim, w);
    }
  }

  /** The subtree at slot `n` of the original is still there, unchanged, in the extended memory. */
  lemma KidReady(m: Mem, free: set<nat>, pages: set<nat>, m': Mem, free': set<nat>, pages': set<nat>,
                 level: nat, p: nat, lim: nat, n: nat)
    requires Extended(m, free, pages, m', free', pages') && 2 <= level <= 4
    requires TreeOk(m, level, p, lim) && SmallOnly(m, level, p, lim) && n < Slots(level, lim)
    ensures Entry(m', p, n) == Entry(m, p, n) && !Entry(m, p, n).large
    ensures Link(m, level, p, n) <==> Entry(m, p, n).present
    ensures Link(m, level, p, n) ==>
      var k := Entry(m, p, n).pfn;
      && TreeOk(m', level - 1, k, lim) && SmallOnly(m', level - 1, k, lim)
      && Frames(m', level - 1, k, lim) == Sub(m, level, p, lim, n)
      && SameMeaning(m, m', level - 1, k)
  {
    assert SmallSlot(m, level, p, lim, n) && SlotOk(m, level, p, lim, n);
    LinkNotLarge(m, level, p, lim, n);
    OwnTable(m, level, p, lim);
    if Link(m, level, p, n) {
      var k := Entry(m, p, n).pfn;
      FramesInMem(m, level - 1, k, lim);
      SameTree(m, m', level - 1, k, lim);
      SameSmall(m, m', level - 1, k, lim);
      SameMeaningHere(m, m', level - 1, k, lim);
    }
  }

  /** The half-filled copy is not disturbed by further allocation. */
  lemma FillKeeps(m: Mem, level: nat, p: nat, lim: nat, n: nat, m1: Mem, m2: Mem, c: nat)
    requires TreeOk(m1, level, c, lim) && ClonedUpTo(m, level, p, m1, c, n) && level <= 4 && n <= Slots(level, lim)
    requires Agree(m1, m2, m1.Keys)
    ensures TreeOk(m2, level, c, lim) && ClonedUpTo(m, level, p, m2, c, n)
    ensures Frames(m2, level, c, lim) == Frames(m1, level, c, lim)
  {
    FramesInMem(m1, level, c, lim);
    OwnTable(m1, level, c, lim);
    SameTree(m1, m2, level, c, lim);
    hide TreeOk, Frames;
    forall w: nat | Idx(level, w) < n ensures ClonedAt(m, level, p, m2, c, w) {
      assert ClonedAt(m, level, p, m1, c, w);
      SameLookup(m1, m2, level, c, lim, w);
      RightsLocal(m1, m2, level, c, lim, w);
    }
    assert forall j: nat :: Entry(m2, c, j) == Entry(m1, c, j);
  }

  lemma ClonedFrom(m: Mem, m1: Mem, level: nat, p: nat, m2: Mem, c: nat, n: nat)
    requires SameMeaning(m, m1, level, p) && ClonedUpTo(m1, level, p, m2, c, n)
    ensures ClonedUpTo(m, level, p, m2, c, n)
  {
    hide Lookup, PathRights;
    forall w: nat | Idx(level, w) < n ensures ClonedAt(m, level, p, m2, c, w) {
      assert ClonedAt(m1, level, p, m2, c, w);
      assert Lookup(m1, level, p, w) == Lookup(m, level, p, w);
    }
  }

  lemma ClonedAbsent(m: Mem, level: nat, p: nat, m': Mem, c: nat, n: nat)
    requires ClonedUpTo(m, level, p, m', c, n)
    ensures Entry(m', c, n) == ABSENT
  {
  }

  lemma ExtendedAgree(m: Mem, free: set<nat>, pages: set<nat>, m': Mem, free': set<nat>, pages': set<nat>)
    requires Extended(m, free, pages, m', free', pages')
    ensures Agree(m, m', m.Keys) && free' <= free
  {
  }

  lemma FillFrames(m: Mem, free: set<nat>, pages: set<nat>, m2: Mem, f2: set<nat>, p2: set<nat>, c: nat, n: nat, x: Pte)
    requires Extended(m, free, pages, m2, f2, p2) && c in free && m.Keys !! free && IsTable(m2, c) && n < ENTRIES
    ensures Extended(m, free, pages, SetEntry(m2, c, n, x), f2, p2)
  {
  }

  /** Filling slot `n` with the clone `g` of its subtree. */
  lemma FillStep(m: Mem, free: set<nat>, pages: set<nat>, m1: Mem, f1: set<nat>, p1: set<nat>, m2: Mem, f2: set<nat>,
                 p2: set<nat>, level: nat, p: nat, lim: nat, c: nat, n: nat, g: nat)
    requires Filling(m, free, pages, m1, f1, p1, level, p, lim, c, n) && m.Keys !! free
    requires TreeOk(m, level, p, lim) && SmallOnly(m, level, p, lim) && 2 <= level <= 4 && n < Slots(level, lim)
    requires Link(m, level, p, n)
    requires Cloned(m1, f1, p1, m2, f2, p2, level - 1, Entry(m, p, n).pfn, lim, Some(g))
    ensures IsTable(m2, c)
    ensures Filling(m, free, pages, SetEntry(m2, c, n, Entry(m, p, n).(pfn := g)), f2, p2, level, p, lim, c, n + 1)
  {
    hide TreeOk, Frames, SmallOnly, Lookup, PathRights, Under, Extended, ClonedUpTo;
    var k := Entry(m, p, n).pfn;
    KidReady(m, free, pages, m1, f1, p1, level, p, lim, n);
    OwnTable(m1, level, c, lim);
    ExtendedAgree(m1, f1, p1, m2, f2, p2);
    ExtendedAgree(m, free, pages, m1, f1, p1);
    FillKeeps(m, level, p, lim, n, m1, m2, c);
    ClonedFrom(m, m1, level - 1, k, m2, g, ENTRIES);
    ClonedAbsent(m, level, p, m2, c, n);
    assert SlotReady(m, level, p, lim, n, m2, c, g);
    CloneSlot(m, level, p, lim, n, m2, c, g);
    CloneSlotTree(m, level, p, lim, n, m2, c, g);
    UnderCount(m, level, p, lim, n);
    ExtendedTrans(m, free, pages, m1, f1, p1, m2, f2, p2);
    FillFrames(m, free, pages, m2, f2, p2, c, n, Entry(m, p, n).(pfn := g));
  }

  /** The entries of a cloned page table, up to slot `n`. */
  function CowEntries(es: seq<Pte>, n: nat): seq<Pte>
    requires n <= |es|
  {
    seq(|es|, i requires 0 <= i < |es| => if i < n && es[i].present then CowPte(es[i]) else ABSENT)
  }

  lemma CowStart(es: seq<Pte>)
    requires |es| == ENTRIES
    ensures Table(CowEntries(es, 0)) == ZeroTable()
  {
  }

  lemma CowNext(es: seq<Pte>, n: nat)
    requires n < |es|
    ensures |CowEntries(es, n)| == |CowEntries(es, n + 1)| == |es|
    ensures CowEntries(es, n + 1) == if es[n].present then CowEntries(es, n)[n := CowPte(es[n])] else CowEntries(es, n)
  {
  }

  lemma PtTree(m: Mem, t: nat, lim: nat)
    requires IsTable(m, t)
    ensures TreeOk(m, 1, t, lim) && Frames(m, 1, t, lim) == {t}
  {
    assert forall j: nat :: Sub(m, 1, t, lim, j) == {};
    assert forall j: nat :: SlotOk(m, 1, t, lim, j);
    assert forall j: nat, k: nat :: PairOk(m, 1, t, lim, j, k);
  }

  lemma PtDone(m: Mem, free: set<nat>, pages: set<nat>, p: nat, lim: nat, c: nat)
    requires TreeOk(m, 1, p, lim) && c in free && c !in m
    ensures Cloned(m, free, pages, m[c := Table(CowEntries(m[p].e, ENTRIES))], free - {c}, pages + {c}, 1, p, lim,
                   Some(c))
  {
    var m' := m[c := Table(CowEntries(m[p].e, ENTRIES))];
    PtTree(m, p, lim);
    assert IsTable(m', c);
    PtTree(m', c, lim);
    assert free - (free - {c}) == {c};
    assert |free - {c}| == |free| - 1;
    forall w: nat ensures ClonedAt(m, 1, p, m', c, w) {
      assert Entry(m, p, Idx(1, w)) == m[p].e[Idx(1, w)];
      assert Entry(m', c, Idx(1, w)) == CowEntries(m[p].e, ENTRIES)[Idx(1, w)];
    }
  }

  lemma ExtendedNone(m: Mem, free: set<nat>, pages: set<nat>)
    ensures Extended(m, free, pages, m, free, pages)
  {
    assert free - free == {};
  }

  lemma NoneFree(m: Mem, free: set<nat>, pages: set<nat>, level: nat, p: nat, lim: nat)
    requires TreeOk(m, level, p, lim)
    ensures free == {} ==> Cloned(m, free, pages, m, free, pages, level, p, lim, None)
  {
    hide TreeOk, Frames, Extended, ClonedUpTo;
    OwnTable(m, level, p, lim);
    ExtendedNone(m, free, pages);
    SizeMonotone({p}, Frames(m, level, p, lim));
  }

  /** `clone_pt`: copies the present entries of a page table, user entries write-protected. */
  method ClonePt(vm: Vmm, p: nat, ghost lim: nat) returns (r: Option<nat>)
    requires vm.Valid() && TreeOk(vm.mem, 1, p, lim)
    modifies vm`mem, vm.pmm
    ensures vm.Valid()
    ensures Cloned(old(vm.mem), old(vm.Free()), old(PageFrames(vm.pmm.tags)), vm.mem, vm.Free(),
                   PageFrames(vm.pmm.tags), 1, p, lim, r)
  {
    hide BuddyAllocator.Valid, FreeFrames, PageFrames, Cloned, CowEntries;
    ghost var m0 := vm.mem;
    NoneFree(m0, vm.Free(), PageFrames(vm.pmm.tags), 1, p, lim);
    r := vm.AllocZeroed(true);
    if r.None? {
      return;
    }
    var c := r.value;
    CowStart(m0[p].e);
    for i := 0 to ENTRIES
      invariant vm.Valid() && vm.Free() == old(vm.Free()) - {c}
      invariant PageFrames(vm.pmm.tags) == old(PageFrames(vm.pmm.tags)) + {c}
      invariant vm.mem == m0[c := Table(CowEntries(m0[p].e, i))]
    {
      var e := vm.mem[p].e[i];
      CowNext(m0[p].e, i);
      if e.present {
        vm.mem := SetEntry(vm.mem, c, i, CowPte(e));
      }
    }
    PtDone(m0, old(vm.Free()), old(PageFrames(vm.pmm.tags)), p, lim, c);
  }

  lemma FillReady(m: Mem, free: set<nat>, pages: set<nat>, m1: Mem, f1: set<nat>, p1: set<nat>,
                  level: nat, p: nat, lim: nat, c: nat, n: nat)
    requires Filling(m, free, pages, m1, f1, p1, level, p, lim, c, n) && 2 <= level <= 4
    requires TreeOk(m, level, p, lim) && SmallOnly(m, level, p, lim) && n < Slots(level, lim)
    ensures Entry(m1, p, n) == Entry(m, p, n) && (Link(m, level, p, n) <==> Entry(m, p, n).present)
    ensures Entry(m, p, n).present ==>
      TreeOk(m1, level - 1, Entry(m, p, n).pfn, lim) && SmallOnly(m1, level - 1, Entry(m, p, n).pfn, lim)
  {
    hide TreeOk, SmallOnly, Frames, Under;
    KidReady(m, free, pages, m1, f1, p1, level, p, lim, n);
  }

  lemma FillAbort(m: Mem, free: set<nat>, pages: set<nat>, m1: Mem, f1: set<nat>, p1: set<nat>, m2: Mem, f2: set<nat>,
                  p2: set<nat>, level: nat, p: nat, lim: nat, c: nat, n: nat)
    requires Filling(m, free, pages, m1, f1, p1, level, p, lim, c, n) && 2 <= level <= 4
    requires TreeOk(m, level, p, lim) && SmallOnly(m, level, p, lim) && n < Slots(level, lim) && Link(m, level, p, n)
    requires Cloned(m1, f1, p1, m2, f2, p2, level - 1, Entry(m, p, n).pfn, lim, None)
    ensures Cloned(m, free, pages, m2, f2, p2, level, p, lim, None)
  {
    hide TreeOk, SmallOnly, Frames, Under, Extended;
    KidReady(m, free, pages, m1, f1, p1, level, p, lim, n);
    FillFail(m, free, level, p, lim, n, |free| - |f1|, |f1|);
    ExtendedTrans(m, free, pages, m1, f1, p1, m2, f2, p2);
  }

  /** `clone_pdpt`, `clone_pd` and `clone_pt`, by level: a fresh tree that maps what the original maps,
      user pages write-protected.  Succeeds exactly when the original has no more tables than there are
      free frames; a failure has taken every free frame and changed nothing else. */
  method CloneTable(vm: Vmm, level: nat, p: nat, lim: nat) returns (r: Option<nat>)
    requires vm.Valid() && 1 <= level <= 4 && TreeOk(vm.mem, level, p, lim) && SmallOnly(vm.mem, level, p, lim)
    modifies vm`mem, vm.pmm
    ensures vm.Valid()
    ensures Cloned(old(vm.mem), old(vm.Free()), old(PageFrames(vm.pmm.tags)), vm.mem, vm.Free(),
                   PageFrames(vm.pmm.tags), level, p, lim, r)
    decreases level
  {
    hide BuddyAllocator.Valid, FreeFrames, PageFrames, Cloned, Filling, TreeOk, SmallOnly, SmallSlot, Frames, Under,
      Sub;
    if level == 1 {
      r := ClonePt(vm, p, lim);
      return;
    }
    ghost var m0, f0, p0 := vm.mem, vm.Free(), PageFrames(vm.pmm.tags);
    NoneFree(m0, f0, p0, level, p, lim);
    r := vm.AllocZeroed(true);
    if r.None? {
      return;
    }
    var c := r.value;
    FillStart(m0, f0, p0, level, p, lim, c);
    var n := Slots(level, lim);
    for i := 0 to n
      invariant vm.Valid()
      invariant Filling(m0, f0, p0, vm.mem, vm.Free(), PageFrames(vm.pmm.tags), level, p, lim, c, i)
    {
      ghost var m1, f1, p1 := vm.mem, vm.Free(), PageFrames(vm.pmm.tags);
      FillReady(m0, f0, p0, m1, f1, p1, level, p, lim, c, i);
      var e := Entry(vm.mem, p, i);
      if e.present {
        r := CloneTable(vm, level - 1, e.pfn, lim);
        if r.None? {
          FillAbort(m0, f0, p0, m1, f1, p1, vm.mem, vm.Free(), PageFrames(vm.pmm.tags), level, p, lim, c, i);
          return;
        }
        FillStep(m0, f0, p0, m1, f1, p1, vm.mem, vm.Free(), PageFrames(vm.pmm.tags), level, p, lim, c, i, r.value);
        vm.mem := SetEntry(vm.mem, c, i, e.(pfn := r.value));
      } else {
        FillSkip(m0, f0, p0, m1, f1, p1, level, p, lim, c, i);
      }
    }
    FillDone(m0, f0, p0, vm.mem, vm.Free(), PageFrames(vm.pmm.tags), level, p, lim, c);
    r := Some(c);
  }

  // ----- write-protecting the original

  /** The tree at `f` in `m'` is the one in `m` with user pages write-protected: same tables, nothing
      else changed. */
  ghost predicate Protected(m: Mem, m': Mem, level: nat, f: nat, lim: nat) {
    && TreeOk(m', level, f, lim) && Frames(m', level, f, lim) == Frames(m, level, f, lim)
    && m'.Keys == m.Keys && Agree(m, m', m.Keys - Frames(m, level, f, lim))
    && (level >= 2 ==> Agree(m, m', {f}))
    && (forall w: nat :: Idx(level, w) < Slots(level, lim) ==> ClonedAt(m, level, f, m', f, w))
  }

  ghost predicate Protecting(m: Mem, m': Mem, level: nat, f: nat, lim: nat, n: nat) {
    && TreeOk(m', level, f, lim) && Frames(m', level, f, lim) == Frames(m, level, f, lim)
    && m'.Keys == m.Keys && Agree(m, m', m.Keys - Under(m, level, f, lim, n))
    && (forall w: nat :: Idx(level, w) < n ==> ClonedAt(m, level, f, m', f, w))
  }

  lemma ProtectStart(m: Mem, level: nat, f: nat, lim: nat)
    requires TreeOk(m, level, f, lim)
    ensures Protecting(m, m, level, f, lim, 0)
  {
  }

  lemma ProtectReady(m: Mem, m1: Mem, level: nat, f: nat, lim: nat, n: nat)
    requires Protecting(m, m1, level, f, lim, n) && 2 <= level <= 4 && n < Slots(level, lim)
    requires TreeOk(m, level, f, lim) && SmallOnly(m, level, f, lim)
    ensures Entry(m1, f, n) == Entry(m, f, n) && (Link(m, level, f, n) <==> Entry(m, f, n).present)
    ensures Link(m, level, f, n) ==>
      var k := Entry(m, f, n).pfn;
      && TreeOk(m1, level - 1, k, lim) && SmallOnly(m1, level - 1, k, lim)
      && Frames(m1, level - 1, k, lim) == Sub(m, level, f, lim, n) && SameMeaning(m, m1, level - 1, k)
  {
    assert SmallSlot(m, level, f, lim, n) && SlotOk(m, level, f, lim, n);
    LinkNotLarge(m, level, f, lim, n);
    UnderApart(m, level, f, lim, n);
    OwnTable(m, level, f, lim);
    if Link(m, level, f, n) {
      var k := Entry(m, f, n).pfn;
      hide TreeOk, SmallOnly, Frames, Under;
      FramesInMem(m, level - 1, k, lim);
      assert Sub(m, level, f, lim, n) == Frames(m, level - 1, k, lim);
      assert Agree(m, m1, Frames(m, level - 1, k, lim));
      SameTree(m, m1, level - 1, k, lim);
      SameSmall(m, m1, level - 1, k, lim);
      SameMeaningHere(m, m1, level - 1, k, lim);
    }
  }

  lemma ProtectSkip(m: Mem, m1: Mem, level: nat, f: nat, lim: nat, n: nat)
    requires Protecting(m, m1, level, f, lim, n) && 2 <= level <= 4 && n < Slots(level, lim)
    requires TreeOk(m, level, f, lim) && !Entry(m, f, n).present && Entry(m1, f, n) == Entry(m, f, n)
    ensures Protecting(m, m1, level, f, lim, n + 1)
  {
    UnderNext(m, level, f, lim, n);
    hide TreeOk, Frames, Under;
    assert Sub(m, level, f, lim, n) == {};
    forall w: nat | Idx(level, w) < n + 1 ensures ClonedAt(m, level, f, m1, f, w) {
    }
  }

  lemma ProtectSlot(m: Mem, m1: Mem, m2: Mem, level: nat, f: nat, lim: nat, n: nat)
    requires TreeOk(m1, level, f, lim) && 2 <= level <= 4 && n < Slots(level, lim) && Link(m, level, f, n)
    requires Entry(m1, f, n) == Entry(m, f, n) && Protected(m1, m2, level - 1, Entry(m, f, n).pfn, lim)
    ensures OneSlot(m1, m2, level, f, lim, n) && SlotOk(m2, level, f, lim, n) && m2[f] == m1[f]
    ensures Sub(m2, level, f, lim, n) == Sub(m1, level, f, lim, n)
  {
    assert SlotOk(m1, level, f, lim, n);
    FramesInMem(m1, level, f, lim);
    OwnTable(m1, level, f, lim);
    assert Agree(m1, m2, {f});
  }

  lemma ProtectPoint(m: Mem, m1: Mem, m2: Mem, level: nat, f: nat, lim: nat, n: nat, w: nat)
    requires Protecting(m, m1, level, f, lim, n) && 2 <= level <= 4 && n < Slots(level, lim) && Idx(level, w) <= n
    requires Link(m, level, f, n) && Entry(m1, f, n) == Entry(m, f, n)
    requires OneSlot(m1, m2, level, f, lim, n) && Entry(m2, f, n) == Entry(m1, f, n)
    requires Protected(m1, m2, level - 1, Entry(m, f, n).pfn, lim) && SameMeaning(m, m1, level - 1, Entry(m, f, n).pfn)
    ensures ClonedAt(m, level, f, m2, f, w)
  {
    hide TreeOk, Frames, Under, OneSlot;
    if Idx(level, w) < n {
      assert ClonedAt(m, level, f, m1, f, w);
      RewireLookup(m1, m2, level, f, lim, n, w);
      RewireRights(m1, m2, level, f, lim, n, w);
    } else {
      var k := Entry(m, f, n).pfn;
      assert ClonedAt(m1, level - 1, k, m2, k, w);
      assert Lookup(m1, level - 1, k, w) == Lookup(m, level - 1, k, w);
    }
  }

  lemma ProtectStep(m: Mem, m1: Mem, m2: Mem, level: nat, f: nat, lim: nat, n: nat)
    requires Protecting(m, m1, level, f, lim, n) && 2 <= level <= 4 && n < Slots(level, lim)
    requires TreeOk(m, level, f, lim) && SmallOnly(m, level, f, lim) && Link(m, level, f, n)
    requires Protected(m1, m2, level - 1, Entry(m, f, n).pfn, lim)
    ensures Protecting(m, m2, level, f, lim, n + 1)
  {
    hide TreeOk, Frames, SmallOnly, Under, OneSlot, SlotOk, Lookup, ClonedAt, Sub;
    ProtectReady(m, m1, level, f, lim, n);
    ProtectSlot(m, m1, m2, level, f, lim, n);
    Rewire(m1, m2, level, f, lim, n);
    SubInFrames(m1, level, f, lim, n);
    UnderNext(m, level, f, lim, n);
    forall w: nat | Idx(level, w) < n + 1 ensures ClonedAt(m, level, f, m2, f, w) {
      ProtectPoint(m, m1, m2, level, f, lim, n, w);
    }
  }

  lemma ProtectDone(m: Mem, m': Mem, level: nat, f: nat, lim: nat)
    requires Protecting(m, m', level, f, lim, Slots(level, lim)) && TreeOk(m, level, f, lim)
    ensures Protected(m, m', level, f, lim)
  {
    FramesIsUnder(m, level, f, lim);
    UnderApart(m, level, f, lim, Slots(level, lim));
  }

  lemma PtProtected(m: Mem, m': Mem, t: nat, lim: nat)
    requires IsTable(m, t) && IsTable(m', t) && m' == m[t := m'[t]]
    requires forall j: nat :: j < ENTRIES ==> m'[t].e[j] == if m[t].e[j].present then CowPte(m[t].e[j]) else m[t].e[j]
    ensures Protected(m, m', 1, t, lim)
  {
    PtTree(m, t, lim);
    PtTree(m', t, lim);
    assert m'.Keys == m.Keys;
    forall w: nat ensures ClonedAt(m, 1, t, m', t, w) {
      assert Entry(m, t, Idx(1, w)) == m[t].e[Idx(1, w)] && Entry(m', t, Idx(1, w)) == m'[t].e[Idx(1, w)];
    }
  }

  /** `make_cow_pt`: clears the writable bit of the present user entries of a page table. */
  method ProtectPt(vm: Vmm, t: nat, ghost lim: nat)
    requires vm.Valid() && TreeOk(vm.mem, 1, t, lim)
    modifies vm`mem
    ensures vm.Valid() && Protected(old(vm.mem), vm.mem, 1, t, lim)
  {
    hide BuddyAllocator.Valid, FreeFrames, Protected;
    ghost var m0 := vm.mem;
    for i := 0 to ENTRIES
      invariant vm.Valid() && vm.mem.Keys == m0.Keys && IsTable(vm.mem, t)
      invariant vm.mem == m0[t := vm.mem[t]]
      invariant forall j: nat :: j < ENTRIES ==>
        vm.mem[t].e[j] == if j < i && m0[t].e[j].present then CowPte(m0[t].e[j]) else m0[t].e[j]
    {
      var e := vm.mem[t].e[i];
      if e.present {
        if e.user {
          vm.mem := SetEntry(vm.mem, t, i, e.(writable := false));
        }
      }
    }
    PtProtected(m0, vm.mem, t, lim);
  }

  /** `make_cow_pml4` and the functions below it, by level. */
  method Protect(vm: Vmm, level: nat, f: nat, lim: nat)
    requires vm.Valid() && 1 <= level <= 4 && TreeOk(vm.mem, level, f, lim) && SmallOnly(vm.mem, level, f, lim)
    modifies vm`mem
    ensures vm.Valid() && Protected(old(vm.mem), vm.mem, level, f, lim)
    decreases level
  {
    hide BuddyAllocator.Valid, FreeFrames, Protected, Protecting, TreeOk, SmallOnly, SmallSlot, Frames, Under, Sub;
    if level == 1 {
      ProtectPt(vm, f, lim);
      return;
    }
    ghost var m0 := vm.mem;
    ProtectStart(m0, level, f, lim);
    var n := Slots(level, lim);
    for i := 0 to n
      invariant vm.Valid() && Protecting(m0, vm.mem, level, f, lim, i)
    {
      ghost var m1 := vm.mem;
      ProtectReady(m0, m1, level, f, lim, i);
      var e := Entry(vm.mem, f, i);
      if e.present {
        Protect(vm, level - 1, e.pfn, lim);
        ProtectStep(m0, m1, vm.mem, level, f, lim, i);
      } else {
        ProtectSkip(m0, m1, level, f, lim, i);
      }
    }
    ProtectDone(m0, vm.mem, level, f, lim);
  }
}
