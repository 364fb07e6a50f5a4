/** Walking down a tree of tables and adding the missing ones: what every step keeps of the tree, of the
    frames it takes, and of the map it stands for. */
module TableWalks {
  import opened Basics
  import opened PageTables
  import opened Translation
  import opened AccessRights

  /** From (m, free) to (m', free') the tree's frames grew by the frames taken from the free set, and
      nothing outside the tree changed. */
  ghost predicate Grew(m: Mem, free: set<nat>, m': Mem, free': set<nat>, own: set<nat>, own': set<nat>) {
    && free' <= free && own' == own + (free - free') && m'.Keys == m.Keys + (free - free')
    && Agree(m, m', m.Keys - own)
  }

  lemma GrewTrans(m0: Mem, f0: set<nat>, m1: Mem, f1: set<nat>, m2: Mem, f2: set<nat>,
                  o0: set<nat>, o1: set<nat>, o2: set<nat>)
    requires Grew(m0, f0, m1, f1, o0, o1) && Grew(m1, f1, m2, f2, o1, o2) && m0.Keys !! f0
    ensures Grew(m0, f0, m2, f2, o0, o2)
  {
    assert f0 - f2 == (f0 - f1) + (f1 - f2);
  }

  /** The tables that the path of `vp` still lacks, down to level `low`. */
  function Missing(m: Mem, level: nat, f: nat, vp: nat, low: nat := 1): nat {
    if level <= low then 0
    else if Link(m, level, f, Idx(level, vp)) then Missing(m, level - 1, Entry(m, f, Idx(level, vp)).pfn, vp, low)
    else level - low
  }

  /** The page is mapped by a 2 MiB entry. */
  predicate IsLarge(view: map<nat, Leaf>, vp: nat) {
    vp in view && view[vp].large
  }

  /** The tree at `root` is still a tree and grew by the frames taken; the root's other slots and what the links
      of every path allow are as before. */
  ghost predicate TreeGrew(m: Mem, free: set<nat>, m': Mem, free': set<nat>, root: nat, lim: nat) {
    && TreeOk(m', 4, root, lim)
    && Grew(m, free, m', free', Frames(m, 4, root, lim), Frames(m', 4, root, lim))
    && SameUpper(m, root, m', root, lim) && SameLinks(m, root, m', root, lim)
  }

  lemma SameTreeGrew(m: Mem, free: set<nat>, root: nat, lim: nat)
    requires TreeOk(m, 4, root, lim)
    ensures TreeGrew(m, free, m, free, root, lim)
  {
    hide TreeOk, Frames, PathRights;
    assert free - free == {};
  }

  ghost predicate GrewAt(m: Mem, m': Mem, root: nat, vp: nat, low: nat, w: nat, l: nat) {
    HasTable(m', root, w, l) <==> HasTable(m, root, w, l) || (l >= low && SamePath(4, l, vp, w))
  }

  /** The tables that came to exist are those on the path of `vp`, down to level `low`. */
  ghost predicate TablesGrew(m: Mem, m': Mem, root: nat, lim: nat, vp: nat, low: nat) {
    forall w: nat, l: nat :: w < Limit(lim) && 1 <= l <= 3 ==> GrewAt(m, m', root, vp, low, w, l)
  }

  /** The outcome of one step down the path of `vp`, on the way to level `end`, from table `t` of level
      `low`: either a table, or no free frame. */
  ghost predicate Stepped(m: Mem, free: set<nat>, m': Mem, free': set<nat>, root: nat, lim: nat, vp: nat,
                          low: nat, end: nat, t: nat, r: Option<nat>)
    requires low >= 1
  {
    && TreeGrew(m, free, m', free', root, lim) && View(m', root, lim) == View(m, root, lim)
    && match r
       case Some(c) =>
         && TableOn(m', 4, root, vp, low - 1) == Some(c) && TablesGrew(m, m', root, lim, vp, low - 1)
         && |free| - |free'| + Missing(m', low - 1, c, vp, end) == Missing(m, low, t, vp, end)
       case None => free' == {} && |free| - |free'| < Missing(m, low, t, vp, end)
  }

  lemma {:induction false} AboveOnPath(m: Mem, level: nat, f: nat, vp: nat, low: nat, l: nat)
    requires low <= l && TableOn(m, level, f, vp, low).Some?
    ensures TableOn(m, level, f, vp, l).Some?
    decreases level
  {
    if level > l {
      AboveOnPath(m, level - 1, Entry(m, f, Idx(level, vp)).pfn, vp, low, l);
    }
  }

  lemma OnPathHas(m: Mem, root: nat, vp: nat, low: nat, t: nat, w: nat, l: nat)
    requires low <= 4 && TableOn(m, 4, root, vp, low) == Some(t)
    ensures l >= low && SamePath(4, l, vp, w) ==> HasTable(m, root, w, l)
  {
    if low <= l <= 4 && SamePath(4, l, vp, w) {
      AboveOnPath(m, 4, root, vp, low, l);
      PathTables(m, 4, root, 0, vp, l, TableOn(m, 4, root, vp, l).value, w, l);
    }
  }

  lemma InstalledGrew(m: Mem, root: nat, lim: nat, vp: nat, low: nat, t: nat, z: nat)
    requires TreeOk(m, 4, root, lim) && vp < Limit(lim) && 2 <= low <= 4 && TableOn(m, 4, root, vp, low) == Some(t)
    requires !Entry(m, t, Idx(low, vp)).present && z !in Frames(m, 4, root, lim)
    ensures IsTable(m[z := ZeroTable()], t)
    ensures TablesGrew(m, SetEntry(m[z := ZeroTable()], t, Idx(low, vp), TablePte(z)), root, lim, vp, low - 1)
  {
    hide TreeOk, Frames, Limit, Idx, HasTable;
    InstallTables(m, root, lim, vp, low, t, TablePte(z), vp, 1);
    var m', below := SetEntry(m[z := ZeroTable()], t, Idx(low, vp), TablePte(z)), low - 1;
    forall w: nat, l: nat | w < Limit(lim) && 1 <= l <= 3 ensures GrewAt(m, m', root, vp, below, w, l) {
      InstallTables(m, root, lim, vp, low, t, TablePte(z), w, l);
      OnPathHas(m, root, vp, low, t, w, l);
    }
  }

  lemma EmptyLacks(m: Mem, level: nat, z: nat, vp: nat, end: nat)
    requires z in m && m[z] == ZeroTable() && end <= level
    ensures Missing(m, level, z, vp, end) == level - end
  {
    assert forall i: nat :: Entry(m, z, i) == ABSENT;
  }

  lemma EntryAbsent(m: Mem, level: nat, t: nat, vp: nat, end: nat)
    requires end < level && !Entry(m, t, Idx(level, vp)).present
    ensures Missing(m, level, t, vp, end) == level - end
  {
  }

  lemma StepInstalled(m: Mem, free: set<nat>, root: nat, lim: nat, vp: nat, low: nat, end: nat, t: nat, z: nat)
    requires TreeOk(m, 4, root, lim) && vp < Limit(lim) && end < low && 2 <= low <= 4
    requires TableOn(m, 4, root, vp, low) == Some(t)
    requires !Entry(m, t, Idx(low, vp)).present && z !in m && z in free && m.Keys !! free
    ensures IsTable(m[z := ZeroTable()], t)
    ensures var m' := SetEntry(m[z := ZeroTable()], t, Idx(low, vp), TablePte(z));
      Stepped(m, free, m', free - {z}, root, lim, vp, low, end, t, Some(z))
  {
    hide TreeOk, Frames, View, Limit;
    FramesInMem(m, 4, root, lim);
    InLimit(vp, lim);
    OnPath(m, 4, root, lim, vp, low);
    OwnTable(m, low, t, lim);
    InstallOnPath(m, root, lim, vp, low, t, TablePte(z));
    WriteBelow(m, root, lim, vp, low, t, TablePte(z));
    var m' := SetEntry(m[z := ZeroTable()], t, Idx(low, vp), TablePte(z));
    assert m'[z] == ZeroTable();
    EmptyLacks(m', low - 1, z, vp, end);
    EntryAbsent(m, low, t, vp, end);
    InstalledGrew(m, root, lim, vp, low, t, z);
    InstallLinks(m, root, lim, vp, low, t, TablePte(z));
    hide SameLinks, SameUpper, Missing, Idx, SetEntry, TablesGrew;
    assert |free - {z}| == |free| - 1;
    assert m'.Keys == m.Keys + {z};
    assert free - (free - {z}) == {z};
  }

  /** Going on to a table that exists changes nothing. */
  lemma PresentGrew(m: Mem, root: nat, lim: nat, vp: nat, low: nat)
    requires low <= 4 && TableOn(m, 4, root, vp, low).Some?
    ensures TablesGrew(m, m, root, lim, vp, low)
  {
    hide HasTable, SamePath, TableOn, Limit;
    forall w: nat, l: nat | w < Limit(lim) && 1 <= l <= 3 ensures GrewAt(m, m, root, vp, low, w, l) {
      OnPathHas(m, root, vp, low, TableOn(m, 4, root, vp, low).value, w, l);
    }
  }

  lemma TablesGrewTrans(m0: Mem, m1: Mem, m2: Mem, root: nat, lim: nat, vp: nat, low: nat, end: nat)
    requires TablesGrew(m0, m1, root, lim, vp, low) && TablesGrew(m1, m2, root, lim, vp, end) && end <= low
    ensures TablesGrew(m0, m2, root, lim, vp, end)
  {
    hide HasTable, SamePath, Limit;
    forall w: nat, l: nat | w < Limit(lim) && 1 <= l <= 3 ensures GrewAt(m0, m2, root, vp, end, w, l) {
      assert GrewAt(m0, m1, root, vp, low, w, l) && GrewAt(m1, m2, root, vp, end, w, l);
    }
  }

  lemma StepPresent(m: Mem, free: set<nat>, root: nat, lim: nat, vp: nat, low: nat, end: nat, t: nat)
    requires TreeOk(m, 4, root, lim) && vp < Limit(lim) && end < low && 2 <= low <= 4
    requires TableOn(m, 4, root, vp, low) == Some(t)
    requires low == 2 ==> !IsLarge(View(m, root, lim), vp)
    ensures IsTable(m, t)
    ensures Entry(m, t, Idx(low, vp)).present ==>
      Stepped(m, free, m, free, root, lim, vp, low, end, t, Some(Entry(m, t, Idx(low, vp)).pfn))
    ensures !Entry(m, t, Idx(low, vp)).present && free == {} ==>
      Stepped(m, free, m, free, root, lim, vp, low, end, t, None)
  {
    hide TreeOk, Frames, View, Limit;
    InLimit(vp, lim);
    OnPath(m, 4, root, lim, vp, low);
    OwnTable(m, low, t, lim);
    NextOnPath(m, 4, root, vp, low, t);
    LargeIsLeaf(m, root, lim, vp, low, t);
    if Link(m, low, t, Idx(low, vp)) { PresentGrew(m, root, lim, vp, low - 1); }
    SameTreeGrew(m, free, root, lim);
    hide TablesGrew, TreeGrew;
  }

  /** The outcome of walking from the root down to level `low`, on the way to level `end`, allocating
      tables: the table there, or no free frame left because the path down to `end` lacks more tables than
      there were frames. */
  ghost predicate Descended(m: Mem, free: set<nat>, m': Mem, free': set<nat>, root: nat, lim: nat, vp: nat,
                            low: nat, end: nat, r: Option<nat>)
  {
    && TreeGrew(m, free, m', free', root, lim) && View(m', root, lim) == View(m, root, lim)
    && match r
       case Some(t) =>
         && TableOn(m', 4, root, vp, low) == Some(t) && TablesGrew(m, m', root, lim, vp, low)
         && |free| - |free'| + Missing(m', low, t, vp, end) == Missing(m, 4, root, vp, end)
       case None => free' == {} && |free| < Missing(m, 4, root, vp, end)
  }

  lemma DescendStart(m: Mem, free: set<nat>, root: nat, lim: nat, vp: nat, end: nat)
    requires TreeOk(m, 4, root, lim)
    ensures Descended(m, free, m, free, root, lim, vp, 4, end, Some(root))
  {
    hide TreeOk, Frames, View;
    PresentGrew(m, root, lim, vp, 4);
    SameTreeGrew(m, free, root, lim);
  }

  lemma DescendStep(m0: Mem, f0: set<nat>, m1: Mem, f1: set<nat>, m2: Mem, f2: set<nat>, root: nat, lim: nat, vp: nat,
                    low: nat, end: nat, t: nat, r: Option<nat>)
    requires 2 <= low <= 4 && m0.Keys !! f0
    requires Descended(m0, f0, m1, f1, root, lim, vp, low, end, Some(t))
    requires Stepped(m1, f1, m2, f2, root, lim, vp, low, end, t, r)
    ensures Descended(m0, f0, m2, f2, root, lim, vp, low - 1, end, r)
  {
    hide TreeOk, Frames, View, Grew, Missing, TableOn, TablesGrew, SameLinks;
    SameLinksTrans(m0, root, m1, root, m2, root, lim);
    if r.Some? { TablesGrewTrans(m0, m1, m2, root, lim, vp, low, low - 1); }
    GrewTrans(m0, f0, m1, f1, m2, f2, Frames(m0, 4, root, lim), Frames(m1, 4, root, lim), Frames(m2, 4, root, lim));
  }

  /** Mapping or unmapping one page changes `translate` for the addresses with the same bits 12 to 47
      only.  For addresses outside the tree's slots this holds as long as the tables that their walk
      visits are no tables of the tree. */
  lemma OnePageTranslates(m: Mem, free: set<nat>, m': Mem, free': set<nat>, root: nat, lim: nat,
                          vp: nat, leaf: Leaf, virt: nat)
    requires TreeOk(m, 4, root, lim) && TreeGrew(m, free, m', free', root, lim) && vp < Limit(lim)
    requires Limit(lim) <= PageOf(virt) ==> WalkOutside(m, root, PageOf(virt), Frames(m, 4, root, lim))
    ensures View(m', root, lim) == View(m, root, lim)[vp := leaf] ==>
      Translate(m', root, virt) ==
        if PageOf(virt) == vp then Some(leaf.pfn * PAGE_SIZE + virt % PAGE_SIZE) else Translate(m, root, virt)
    ensures View(m', root, lim) == View(m, root, lim) - {vp} ==>
      Translate(m', root, virt) == if PageOf(virt) == vp then None else Translate(m, root, virt)
  {
    hide Translate, View, TreeOk, PageOf, Limit, Frames, TableOn;
    if PageOf(virt) < Limit(lim) {
      TranslateIsView(m, root, lim, virt);
      TranslateIsView(m', root, lim, virt);
    } else {
      UpperTranslates(m, root, m', root, lim, virt);
    }
  }

  /** The same for the processor's rights: at a page just mapped they are those asked for, as far as the links
      that were there allow; everywhere else they are as before. */
  lemma OnePageAccess(m: Mem, free: set<nat>, m': Mem, free': set<nat>, root: nat, lim: nat,
                      vp: nat, leaf: Leaf, virt: nat)
    requires TreeOk(m, 4, root, lim) && TreeGrew(m, free, m', free', root, lim) && vp < Limit(lim) && !leaf.large
    requires PageOf(virt) < Limit(lim) ==> FrameAligned(View(m, root, lim), PageOf(virt))
    requires Limit(lim) <= PageOf(virt) ==> WalkWithin(m, root, virt, m.Keys - Frames(m, 4, root, lim))
    ensures View(m', root, lim) == View(m, root, lim)[vp := leaf] ==>
      Access(m', root, virt) == if PageOf(virt) == vp then Some(Meet(PathRights(m, 4, root, vp), LeafRights(leaf)))
                                else Access(m, root, virt)
    ensures View(m', root, lim) == View(m, root, lim) - {vp} ==>
      Access(m', root, virt) == if PageOf(virt) == vp then None else Access(m, root, virt)
  {
    hide Access, View, TreeOk, PageOf, Limit, Frames, PathRights, WalkWithin, Meet;
    var w := PageOf(virt);
    if w < Limit(lim) {
      assert SameRights(m, root, m', root, w);
      AccessIsPath(m, root, lim, virt);
      if View(m', root, lim) == View(m, root, lim)[vp := leaf] || View(m', root, lim) == View(m, root, lim) - {vp} {
        AccessIsPath(m', root, lim, virt);
      }
    } else {
      UpperAccess(m, root, m', root, lim, virt, m.Keys - Frames(m, 4, root, lim));
    }
  }

  /** Like `Grew`, except that tables may also have dropped out of the tree. */
  ghost predicate Bounded(m: Mem, free: set<nat>, m': Mem, free': set<nat>, own: set<nat>, own': set<nat>) {
    && free' <= free && own' <= own + (free - free') && m'.Keys == m.Keys + (free - free')
    && Agree(m, m', m.Keys - own)
  }

  lemma BoundedTrans(m0: Mem, f0: set<nat>, m1: Mem, f1: set<nat>, m2: Mem, f2: set<nat>,
                     o0: set<nat>, o1: set<nat>, o2: set<nat>)
    requires Bounded(m0, f0, m1, f1, o0, o1) && m0.Keys !! f0
    requires Bounded(m1, f1, m2, f2, o1, o2)
    ensures Bounded(m0, f0, m2, f2, o0, o2)
  {
    assert f2 <= f1 ==> f0 - f2 == (f0 - f1) + (f1 - f2);
  }

  /** Like `TablesGrew` down to the page directory, except that the page table of the slot of `vp` is gone. */
  ghost predicate LargeGrew(m: Mem, m': Mem, root: nat, lim: nat, vp: nat) {
    forall w: nat, l: nat :: w < Limit(lim) && 1 <= l <= 3 && !(l == 1 && SameLarge(vp, w)) ==>
      GrewAt(m, m', root, vp, 2, w, l)
  }

  lemma LargeEntryGrew(m: Mem, m1: Mem, root: nat, lim: nat, vp: nat, t: nat, x: Pte)
    requires TreeOk(m1, 4, root, lim) && vp < Limit(lim) && TableOn(m1, 4, root, vp, 2) == Some(t)
    requires TablesGrew(m, m1, root, lim, vp, 2) && x.present && x.large
    ensures IsTable(m1, t) && LargeGrew(m, SetEntry(m1, t, Idx(2, vp), x), root, lim, vp)
  {
    hide TreeOk, HasTable, SamePath, TableOn, Limit, SameLarge;
    LargeTables(m1, root, lim, vp, t, x, vp, 1);
    var m' := SetEntry(m1, t, Idx(2, vp), x);
    forall w: nat, l: nat | w < Limit(lim) && 1 <= l <= 3 && !(l == 1 && SameLarge(vp, w))
      ensures GrewAt(m, m', root, vp, 2, w, l)
    {
      assert GrewAt(m, m1, root, vp, 2, w, l);
      LargeTables(m1, root, lim, vp, t, x, w, l);
    }
  }

  lemma LargeWritten(m: Mem, free: set<nat>, m1: Mem, free': set<nat>, root: nat, lim: nat, vp: nat, t: nat, x: Pte)
    requires vp < Limit(lim) && Descended(m, free, m1, free', root, lim, vp, 2, 2, Some(t)) && m.Keys !! free
    requires x.present && x.large
    ensures IsTable(m1, t)
    ensures var m2 := SetEntry(m1, t, Idx(2, vp), x);
      && TreeOk(m2, 4, root, lim) && m2.Keys == m1.Keys && SameUpper(m, root, m2, root, lim)
      && WiderLinks(m, m2, root, lim) && LargeGrew(m, m2, root, lim, vp)
      && Bounded(m, free, m2, free', Frames(m, 4, root, lim), Frames(m2, 4, root, lim))
      && View(m2, root, lim) == View(m, root, lim) + LargePages(vp, x)
  {
    hide TreeOk, Frames, View, Limit, Missing, LargePages;
    LargeOnPath(m1, root, lim, vp, t, x);
    WriteBelow(m1, root, lim, vp, 2, t, x);
    LargeEntryGrew(m, m1, root, lim, vp, t, x);
    LargeLinks(m1, root, lim, vp, t, x);
    SameIsWider(m, m1, root, lim);
    WiderTrans(m, m1, SetEntry(m1, t, Idx(2, vp), x), root, lim);
    hide TablesGrew, LargeGrew, SameLinks, WiderLinks;
    assert SetEntry(m1, t, Idx(2, vp), x).Keys == m1.Keys;
  }

  /** If some table on the path of `vp` is missing, the page is not mapped. */
  lemma PathOrNone(m: Mem, root: nat, lim: nat, vp: nat)
    requires TreeOk(m, 4, root, lim) && vp < Limit(lim) && !IsLarge(View(m, root, lim), vp)
    ensures var e4 := Entry(m, root, Idx(4, vp));
      var e3 := Entry(m, e4.pfn, Idx(3, vp));
      var e2 := Entry(m, e3.pfn, Idx(2, vp));
      if e4.present && e3.present && e2.present then TableOn(m, 4, root, vp, 1) == Some(e2.pfn)
      else vp !in View(m, root, lim)
  {
    var e4 := Entry(m, root, Idx(4, vp));
    var e3 := Entry(m, e4.pfn, Idx(3, vp));
    var e2 := Entry(m, e3.pfn, Idx(2, vp));
    NextOnPath(m, 4, root, vp, 4, root);
    hide TreeOk, Idx;
    assert Lookup(m, 4, root, vp) == if e4.present then Lookup(m, 3, e4.pfn, vp) else None;
    if e4.present {
      NextOnPath(m, 4, root, vp, 3, e4.pfn);
      assert Lookup(m, 3, e4.pfn, vp) == if e3.present then Lookup(m, 2, e3.pfn, vp) else None;
      if e3.present {
        NextOnPath(m, 4, root, vp, 2, e3.pfn);
        LargeIsLeaf(m, root, lim, vp, 2, e3.pfn);
      }
    }
  }

  lemma LeafCleared(m: Mem, free: set<nat>, root: nat, lim: nat, vp: nat, t: nat)
    requires TreeOk(m, 4, root, lim) && vp < Limit(lim) && TableOn(m, 4, root, vp, 1) == Some(t)
    ensures IsTable(m, t)
    ensures var m' := SetEntry(m, t, Idx(1, vp), ABSENT);
      && TreeGrew(m, free, m', free, root, lim) && m'.Keys == m.Keys
      && View(m', root, lim) == View(m, root, lim) - {vp}
  {
    hide TreeOk, Frames, View, Limit;
    LeafOnPath(m, root, lim, vp, t, ABSENT);
    LeafLinks(m, root, lim, vp, t, ABSENT);
    WriteBelow(m, root, lim, vp, 1, t, ABSENT);
    assert SetEntry(m, t, Idx(1, vp), ABSENT).Keys == m.Keys;
    assert free - free == {};
  }

  lemma StepShrinks(m: Mem, free: set<nat>, m': Mem, free': set<nat>, root: nat, lim: nat, vp: nat,
                    low: nat, end: nat, t: nat, r: Option<nat>)
    requires low >= 1 && Stepped(m, free, m', free', root, lim, vp, low, end, t, r)
    ensures free' <= free && TreeOk(m', 4, root, lim) && View(m', root, lim) == View(m, root, lim)
  {
  }

  lemma DescendShrinks(m: Mem, free: set<nat>, m': Mem, free': set<nat>, root: nat, lim: nat, vp: nat,
                       low: nat, end: nat, r: Option<nat>)
    requires Descended(m, free, m', free', root, lim, vp, low, end, r)
    ensures free' <= free
  {
  }

  lemma DescendNone(m: Mem, free: set<nat>, m': Mem, free': set<nat>, root: nat, lim: nat, vp: nat,
                    k: nat, low: nat, end: nat)
    requires Descended(m, free, m', free', root, lim, vp, k, end, None)
    ensures Descended(m, free, m', free', root, lim, vp, low, end, None)
  {
  }

  lemma LeafGrew(m: Mem, root: nat, lim: nat, vp: nat, t: nat, x: Pte)
    requires TreeOk(m, 4, root, lim) && vp < Limit(lim) && TableOn(m, 4, root, vp, 1) == Some(t)
    ensures IsTable(m, t) && TablesGrew(m, SetEntry(m, t, Idx(1, vp), x), root, lim, vp, 1)
  {
    hide TreeOk, HasTable, SamePath, TableOn, Limit;
    LeafTables(m, root, lim, vp, t, x, vp, 1);
    var m' := SetEntry(m, t, Idx(1, vp), x);
    forall w: nat, l: nat | w < Limit(lim) && 1 <= l <= 3 ensures GrewAt(m, m', root, vp, 1, w, l) {
      LeafTables(m, root, lim, vp, t, x, w, l);
      OnPathHas(m, root, vp, 1, t, w, l);
    }
  }

  /** Writing the leaf after a full descent. */
  lemma LeafWritten(m: Mem, free: set<nat>, m1: Mem, free': set<nat>, root: nat, lim: nat, vp: nat, t: nat, x: Pte)
    requires vp < Limit(lim) && Descended(m, free, m1, free', root, lim, vp, 1, 1, Some(t)) && m.Keys !! free
    ensures IsTable(m1, t)
    ensures var m2 := SetEntry(m1, t, Idx(1, vp), x);
      && TreeGrew(m, free, m2, free', root, lim) && TablesGrew(m, m2, root, lim, vp, 1)
      && View(m2, root, lim) == Written(View(m, root, lim), vp, x)
      && m2.Keys == m1.Keys
  {
    hide TreeOk, Frames, View, Limit, Missing;
    LeafOnPath(m1, root, lim, vp, t, x);
    WriteBelow(m1, root, lim, vp, 1, t, x);
    LeafGrew(m1, root, lim, vp, t, x);
    var m2 := SetEntry(m1, t, Idx(1, vp), x);
    TablesGrewTrans(m, m1, m2, root, lim, vp, 1, 1);
    LeafLinks(m1, root, lim, vp, t, x);
    SameLinksTrans(m, root, m1, root, m2, root, lim);
    hide TablesGrew, SameLinks;
    assert m2.Keys == m1.Keys;
  }
}
