/** What the processor lets a program do at an address (Intel SDM volume 3A, section 4.6): every entry on the
    way there has a say. */
module AccessRights {
  import opened Basics
  import opened PageTables
  import opened Translation

  datatype Rights = Rights(writable: bool, user: bool, noExec: bool)

  const OPEN := Rights(true, true, false)

  function Meet(a: Rights, b: Rights): Rights {
    Rights(a.writable && b.writable, a.user && b.user, a.noExec || b.noExec)
  }

  /** `b` allows at least what `a` allows. */
  predicate Wider(a: Rights, b: Rights) {
    (a.writable ==> b.writable) && (a.user ==> b.user) && (b.noExec ==> a.noExec)
  }

  function EntryRights(e: Pte): Rights {
    Rights(e.writable, e.user, e.noExec)
  }

  function LeafRights(l: Leaf): Rights {
    Rights(l.writable, l.user, l.noExec)
  }

  function FlagRights(fl: Flags): Rights {
    Rights(fl.writable, fl.user, fl.noExec)
  }

  /** The rights at an address: write and user access need the bit in every entry of the walk, and no-execute
      in any of them forbids execution; nothing at an address that the walk does not map. */
  function Access(m: Mem, root: nat, virt: nat): Option<Rights> {
    if Walk(m, root, virt).None? then None else
    var e4 := Entry(m, root, Pml4Idx(virt));
    var e3 := Entry(m, e4.pfn, PdptIdx(virt));
    var e2 := Entry(m, e3.pfn, PdIdx(virt));
    var e1 := Entry(m, e2.pfn, PtIdx(virt));
    if e3.large then Some(Rights(e4.writable && e3.writable, e4.user && e3.user, e4.noExec || e3.noExec))
    else if e2.large then
      Some(Rights(e4.writable && e3.writable && e2.writable, e4.user && e3.user && e2.user,
                  e4.noExec || e3.noExec || e2.noExec))
    else
      Some(Rights(e4.writable && e3.writable && e2.writable && e1.writable, e4.user && e3.user && e2.user && e1.user,
                  e4.noExec || e3.noExec || e2.noExec || e1.noExec))
  }

  // ----- the links of a path

  /** What the links on the path of `vp` allow, as far as they go. */
  function PathRights(m: Mem, level: nat, f: nat, vp: nat): Rights {
    if Link(m, level, f, Idx(level, vp)) then
      var e := Entry(m, f, Idx(level, vp));
      Meet(EntryRights(e), PathRights(m, level - 1, e.pfn, vp))
    else OPEN
  }

  /** Pages mapped by 2 MiB entries have frames that are aligned like them. */
  predicate FrameAligned(view: map<nat, Leaf>, vp: nat) {
    vp in view && view[vp].large ==> view[vp].pfn % 512 == vp % 512
  }

  /** On a tree of tables the rights at an address are those of its leaf, as far as the links allow them. */
  lemma AccessIsPath(m: Mem, root: nat, lim: nat, virt: nat)
    requires TreeOk(m, 4, root, lim) && PageOf(virt) < Limit(lim) && FrameAligned(View(m, root, lim), PageOf(virt))
    ensures Access(m, root, virt) ==
      var view, vp := View(m, root, lim), PageOf(virt);
      if vp in view then Some(Meet(PathRights(m, 4, root, vp), LeafRights(view[vp]))) else None
  {
    WalkIsView(m, root, lim, virt);
    TranslateIsView(m, root, lim, virt);
    PageIndices(virt);
    var vp := PageOf(virt);
    InLimit(vp, lim);
    hide Idx, PageOf, Pml4Idx, PdptIdx, PdIdx, PtIdx, Translate, Walk;
    assert SlotOk(m, 4, root, lim, Idx(4, vp));
    var e4 := Entry(m, root, Idx(4, vp));
    if e4.present {
      assert SlotOk(m, 3, e4.pfn, lim, Idx(3, vp));
      var e3 := Entry(m, e4.pfn, Idx(3, vp));
      assert Lookup(m, 4, root, vp) == Lookup(m, 3, e4.pfn, vp);
      assert PathRights(m, 4, root, vp) == Meet(EntryRights(e4), PathRights(m, 3, e4.pfn, vp));
      if e3.present {
        assert SlotOk(m, 2, e3.pfn, lim, Idx(2, vp));
        assert Lookup(m, 3, e4.pfn, vp) == Lookup(m, 2, e3.pfn, vp);
        assert PathRights(m, 3, e4.pfn, vp) == Meet(EntryRights(e3), PathRights(m, 2, e3.pfn, vp));
        var e2 := Entry(m, e3.pfn, Idx(2, vp));
        if e2.present && !e2.large {
          assert Lookup(m, 2, e3.pfn, vp) == Lookup(m, 1, e2.pfn, vp);
          assert PathRights(m, 1, e2.pfn, vp) == OPEN;
          assert PathRights(m, 2, e3.pfn, vp) == Meet(EntryRights(e2), PathRights(m, 1, e2.pfn, vp));
        }
      }
    }
  }

  // ----- locality

  lemma {:induction false} RightsLocal(m: Mem, m': Mem, level: nat, f: nat, lim: nat, vp: nat)
    requires TreeOk(m, level, f, lim) && Agree(m, m', Frames(m, level, f, lim))
    requires level <= 4 && Idx(level, vp) < Slots(level, lim)
    ensures PathRights(m', level, f, vp) == PathRights(m, level, f, vp)
    decreases level
  {
    var i := Idx(level, vp);
    OwnTable(m, level, f, lim);
    SubInFrames(m, level, f, lim, i);
    assert SlotOk(m, level, f, lim, i);
    assert Entry(m', f, i) == Entry(m, f, i);
    if Link(m, level, f, i) {
      hide TreeOk, Frames, Idx;
      RightsLocal(m, m', level - 1, Entry(m, f, i).pfn, lim, vp);
    }
  }

  lemma RewireRights(m: Mem, m': Mem, level: nat, f: nat, lim: nat, i: nat, vp: nat)
    requires TreeOk(m, level, f, lim) && OneSlot(m, m', level, f, lim, i) && i < Slots(level, lim)
    requires level <= 4 && Idx(level, vp) < Slots(level, lim) && Idx(level, vp) != i
    ensures PathRights(m', level, f, vp) == PathRights(m, level, f, vp)
  {
    var j := Idx(level, vp);
    assert SlotOk(m, level, f, lim, j);
    OtherSlot(m, m', level, f, lim, i, j);
    if Link(m, level, f, j) {
      RightsLocal(m, m', level - 1, Entry(m, f, j).pfn, lim, vp);
    }
  }

  /** A change below the table `t` changes the rights of a path only through what lies below `t`. */
  lemma {:induction false} LiftRights(m: Mem, m': Mem, level: nat, f: nat, lim: nat, vp: nat, low: nat, t: nat, w: nat)
    requires TreeOk(m, level, f, lim) && low <= level <= 4 && Idx(level, vp) < Slots(level, lim)
    requires TableOn(m, level, f, vp, low) == Some(t) && OneSubtree(m, m', level, f, lim, low, t)
    requires Idx(level, w) < Slots(level, lim)
    ensures (SamePath(level, low, vp, w) ==> PathRights(m', low, t, w) == PathRights(m, low, t, w)) ==>
      PathRights(m', level, f, w) == PathRights(m, level, f, w)
    ensures (SamePath(level, low, vp, w) ==> Wider(PathRights(m, low, t, w), PathRights(m', low, t, w))) ==>
      Wider(PathRights(m, level, f, w), PathRights(m', level, f, w))
    decreases level
  {
    hide TreeOk, OneSubtree, OneSlot, SlotOk, Frames, Sub;
    if low < level {
      var i := Idx(level, vp);
      var c := Below(m, m', level, f, lim, vp, low, t);
      Lift(m, m', level - 1, c, lim, vp, low, t);
      LiftSlot(m, m', level, f, lim, vp, low, t);
      if Idx(level, w) == i {
        LiftRights(m, m', level - 1, c, lim, vp, low, t, w);
      } else {
        RewireRights(m, m', level, f, lim, i, w);
      }
    }
  }

  // ----- whole spaces

  ghost predicate SameRights(m: Mem, f: nat, m': Mem, g: nat, w: nat) {
    PathRights(m', 4, g, w) == PathRights(m, 4, f, w)
  }

  /** The links under `g` in `m'` allow for every page what those under `f` in `m` allow. */
  ghost predicate SameLinks(m: Mem, f: nat, m': Mem, g: nat, lim: nat) {
    forall w: nat :: w < Limit(lim) ==> SameRights(m, f, m', g, w)
  }

  ghost predicate WiderRights(m: Mem, f: nat, m': Mem, g: nat, w: nat) {
    Wider(PathRights(m, 4, f, w), PathRights(m', 4, g, w))
  }

  /** The links allow for every page at least what they allowed. */
  ghost predicate WiderLinks(m: Mem, m': Mem, f: nat, lim: nat) {
    forall w: nat :: w < Limit(lim) ==> WiderRights(m, f, m', f, w)
  }

  ghost predicate OpenAt(m: Mem, f: nat, w: nat) {
    PathRights(m, 4, f, w) == OPEN
  }

  /** No link takes a right away, so leaves alone decide. */
  ghost predicate OpenLinks(m: Mem, f: nat, lim: nat) {
    forall w: nat :: w < Limit(lim) ==> OpenAt(m, f, w)
  }

  lemma SameLinksTrans(m0: Mem, f: nat, m1: Mem, g: nat, m2: Mem, h: nat, lim: nat)
    requires SameLinks(m0, f, m1, g, lim) && SameLinks(m1, g, m2, h, lim)
    ensures SameLinks(m0, f, m2, h, lim)
  {
    hide PathRights, Limit;
    forall w: nat | w < Limit(lim) ensures SameRights(m0, f, m2, h, w) {
      assert SameRights(m0, f, m1, g, w) && SameRights(m1, g, m2, h, w);
    }
  }

  lemma SameIsWider(m: Mem, m': Mem, f: nat, lim: nat)
    requires SameLinks(m, f, m', f, lim)
    ensures WiderLinks(m, m', f, lim)
  {
    hide PathRights, Limit;
    forall w: nat | w < Limit(lim) ensures WiderRights(m, f, m', f, w) {
      assert SameRights(m, f, m', f, w);
    }
  }

  lemma WiderTrans(m0: Mem, m1: Mem, m2: Mem, f: nat, lim: nat)
    requires WiderLinks(m0, m1, f, lim) && WiderLinks(m1, m2, f, lim)
    ensures WiderLinks(m0, m2, f, lim)
  {
    hide PathRights, Limit;
    forall w: nat | w < Limit(lim) ensures WiderRights(m0, f, m2, f, w) {
      assert WiderRights(m0, f, m1, f, w) && WiderRights(m1, f, m2, f, w);
    }
  }

  lemma WiderSelf(m: Mem, f: nat, lim: nat)
    ensures WiderLinks(m, m, f, lim)
  {
    hide PathRights, Limit;
  }

  lemma OpenStays(m: Mem, m': Mem, f: nat, lim: nat)
    requires OpenLinks(m, f, lim) && WiderLinks(m, m', f, lim)
    ensures OpenLinks(m', f, lim)
  {
    hide PathRights, Limit;
    forall w: nat | w < Limit(lim) ensures OpenAt(m', f, w) {
      assert OpenAt(m, f, w) && WiderRights(m, f, m', f, w);
    }
  }

  lemma OpenSame(m: Mem, f: nat, m': Mem, g: nat, lim: nat)
    requires OpenLinks(m, f, lim) && SameLinks(m, f, m', g, lim)
    ensures OpenLinks(m', g, lim)
  {
    hide PathRights, Limit;
    forall w: nat | w < Limit(lim) ensures OpenAt(m', g, w) {
      assert OpenAt(m, f, w) && SameRights(m, f, m', g, w);
    }
  }

  lemma LinksLocal(m: Mem, m': Mem, f: nat, lim: nat)
    requires TreeOk(m, 4, f, lim) && Agree(m, m', Frames(m, 4, f, lim))
    ensures SameLinks(m, f, m', f, lim)
  {
    hide TreeOk, Frames, PathRights, Limit;
    forall w: nat | w < Limit(lim) ensures SameRights(m, f, m', f, w) {
      InLimit(w, lim);
      RightsLocal(m, m', 4, f, lim, w);
    }
  }

  lemma EmptyOpen(m: Mem, z: nat, lim: nat)
    requires z in m && m[z] == ZeroTable()
    ensures OpenLinks(m, z, lim)
  {
    assert forall i: nat :: Entry(m, z, i) == ABSENT;
  }

  /** Where no link takes a right away, the leaf has the rights. */
  lemma OpenAccess(m: Mem, root: nat, lim: nat, virt: nat)
    requires TreeOk(m, 4, root, lim) && PageOf(virt) < Limit(lim) && FrameAligned(View(m, root, lim), PageOf(virt))
    requires OpenLinks(m, root, lim)
    ensures Access(m, root, virt) ==
      var view, vp := View(m, root, lim), PageOf(virt);
      if vp in view then Some(LeafRights(view[vp])) else None
  {
    AccessIsPath(m, root, lim, virt);
    assert OpenAt(m, root, PageOf(virt));
    hide Access, PathRights, View, TreeOk, PageOf, Limit;
  }

  /** Addresses under the slots from `lim` up have the same rights from two roots that share those slots and the
      tables under them. */
  lemma UpperAccess(m: Mem, root: nat, m': Mem, g: nat, lim: nat, virt: nat, tables: set<nat>)
    requires SameUpper(m, root, m', g, lim) && Limit(lim) <= PageOf(virt)
    requires WalkWithin(m, root, virt, tables) && tables <= m.Keys && Agree(m, m', tables)
    ensures Access(m', g, virt) == Access(m, root, virt)
  {
    UpperWalks(m, root, m', g, lim, virt, tables);
    PageIndices(virt);
    AboveLimit(PageOf(virt), lim);
    hide Idx, PageOf, PdptIdx, PdIdx, PtIdx, Limit, Pml4Idx, LargeAddress;
    assert Entry(m', g, Pml4Idx(virt)) == Entry(m, root, Pml4Idx(virt));
  }

  // ----- the kernel's changes

  /** A new table hung from an entry that allows everything changes the rights of no path. */
  lemma InstallLinks(m: Mem, root: nat, lim: nat, vp: nat, low: nat, t: nat, x: Pte)
    requires TreeOk(m, 4, root, lim) && vp < Limit(lim) && 2 <= low <= 4 && TableOn(m, 4, root, vp, low) == Some(t)
    requires !Entry(m, t, Idx(low, vp)).present && x.present && !x.large && x.pfn !in Frames(m, 4, root, lim)
    requires EntryRights(x) == OPEN
    ensures IsTable(m[x.pfn := ZeroTable()], t)
    ensures SameLinks(m, root, SetEntry(m[x.pfn := ZeroTable()], t, Idx(low, vp), x), root, lim)
  {
    hide TreeOk, Frames, Sub, OneSlot, Limit, Idx;
    InLimit(vp, lim);
    OnPath(m, 4, root, lim, vp, low);
    OwnTable(m, low, t, lim);
    var i := Idx(low, vp);
    InstallInTable(m, low, t, lim, i, x);
    var m' := SetEntry(m[x.pfn := ZeroTable()], t, i, x);
    assert OneSubtree(m, m', 4, root, lim, low, t);
    assert Entry(m', t, i) == x;
    assert forall j: nat :: Entry(m', x.pfn, j) == ABSENT;
    forall w: nat | w < Limit(lim) ensures SameRights(m, root, m', root, w) {
      InLimit(w, lim);
      if SamePath(4, low, vp, w) {
        PathTables(m, 4, root, lim, vp, low, t, w, low);
        if Idx(low, w) == i {
          assert PathRights(m', low, t, w) == Meet(EntryRights(x), PathRights(m', low - 1, x.pfn, w));
        } else {
          RewireRights(m, m', low, t, lim, i, w);
        }
      }
      LiftRights(m, m', 4, root, lim, vp, low, t, w);
    }
  }

  /** Writing an entry of a page table changes no link. */
  lemma LeafLinks(m: Mem, root: nat, lim: nat, vp: nat, t: nat, x: Pte)
    requires TreeOk(m, 4, root, lim) && vp < Limit(lim) && TableOn(m, 4, root, vp, 1) == Some(t)
    ensures IsTable(m, t) && SameLinks(m, root, SetEntry(m, t, Idx(1, vp), x), root, lim)
  {
    hide TreeOk, Frames, Sub, OneSlot, Limit, Idx, Lookup;
    InLimit(vp, lim);
    OnPath(m, 4, root, lim, vp, 1);
    OwnTable(m, 1, t, lim);
    LeafInTable(m, t, lim, Idx(1, vp), x);
    var m' := SetEntry(m, t, Idx(1, vp), x);
    assert OneSubtree(m, m', 4, root, lim, 1, t);
    forall w: nat | w < Limit(lim) ensures SameRights(m, root, m', root, w) {
      InLimit(w, lim);
      assert PathRights(m, 1, t, w) == PathRights(m', 1, t, w) == OPEN;
      LiftRights(m, m', 4, root, lim, vp, 1, t, w);
    }
  }

  /** A large entry over a page-directory slot can only take a link away. */
  lemma LargeLinks(m: Mem, root: nat, lim: nat, vp: nat, t: nat, x: Pte)
    requires TreeOk(m, 4, root, lim) && vp < Limit(lim) && TableOn(m, 4, root, vp, 2) == Some(t)
    requires x.present && x.large
    ensures IsTable(m, t) && WiderLinks(m, SetEntry(m, t, Idx(2, vp), x), root, lim)
  {
    hide TreeOk, Frames, Sub, OneSlot, Limit, Idx, Lookup;
    InLimit(vp, lim);
    OnPath(m, 4, root, lim, vp, 2);
    OwnTable(m, 2, t, lim);
    var i := Idx(2, vp);
    LargeInTable(m, t, lim, i, x);
    var m' := SetEntry(m, t, i, x);
    assert OneSubtree(m, m', 4, root, lim, 2, t);
    assert Entry(m', t, i) == x;
    forall w: nat | w < Limit(lim) ensures WiderRights(m, root, m', root, w) {
      InLimit(w, lim);
      if SamePath(4, 2, vp, w) {
        PathTables(m, 4, root, lim, vp, 2, t, w, 2);
        if Idx(2, w) == i {
          assert PathRights(m', 2, t, w) == OPEN;
        } else {
          RewireRights(m, m', 2, t, lim, i, w);
        }
      }
      LiftRights(m, m', 4, root, lim, vp, 2, t, w);
    }
  }
}
