/** Four-level page tables as trees of table frames in physical memory (Intel SDM volume 3A, section
    4.5, 4-level paging), and the map from page numbers to leaves that they stand for. */
module PageTables {
  import opened Basics

  const ENTRIES: nat := 512

  /** A page-table entry.  The 64-bit word is split into its frame number (bits 12 to 51), the bits the
      kernel looks at (0 present, 1 writable, 2 user, 7 large, 63 no-execute) and the remaining bits. */
  datatype Pte = Pte(pfn: nat, present: bool, writable: bool, user: bool, large: bool, noExec: bool, rest: nat)

  const ABSENT := Pte(0, false, false, false, false, false, 0)

  /** A physical frame: a table of entries or a page of bytes. */
  datatype Frame = Table(e: seq<Pte>) | Page(b: seq<byte>)

  type Mem = map<nat, Frame>

  predicate IsTable(m: Mem, f: nat) {
    f in m && m[f].Table? && |m[f].e| == ENTRIES
  }

  /** The entry a walk reads; reading outside a table yields an absent entry. */
  function Entry(m: Mem, f: nat, i: nat): Pte {
    if IsTable(m, f) && i < ENTRIES then m[f].e[i] else ABSENT
  }

  // ----- indices

  /** Pages covered by one entry of a table at the given level (PML4 is level 4, PT is level 1). */
  function Span(level: nat): (r: nat)
    ensures r > 0
  {
    if level <= 1 then 1 else if level == 2 then 512 else if level == 3 then 0x40000 else 0x800_0000
  }

  function Idx(level: nat, vp: nat): (i: nat)
    ensures i < ENTRIES
  {
    vp / Span(level) % 512
  }

  /** The slots of a table that belong to the tree: all of them, or the first `lim` of a PML4. */
  function Slots(level: nat, lim: nat): nat {
    if level == 4 && lim < ENTRIES then lim else ENTRIES
  }

  /** The two page numbers take the same slots from `level` down to, and not including, `low`. */
  predicate SamePath(level: nat, low: nat, v: nat, w: nat) {
    level <= low || (Idx(level, v) == Idx(level, w) && SamePath(level - 1, low, v, w))
  }

  lemma Digits(v: nat)
    requires v < 0x10_0000_0000
    ensures v / 512 == Idx(4, v) * 0x40000 + Idx(3, v) * 512 + Idx(2, v)
    ensures v == v / 512 * 512 + Idx(1, v)
  {
    var a := v / 512;
    var b := a / 512;
    assert v / 0x40000 == b && v / 0x800_0000 == b / 512;
  }

  /** Page numbers of 36 bits are told apart by their four indices. */
  lemma PathIsPage(v: nat, w: nat)
    requires v < 0x10_0000_0000 && w < 0x10_0000_0000
    ensures SamePath(4, 0, v, w) <==> v == w
    ensures SamePath(4, 1, v, w) <==> v / 512 == w / 512
  {
    Digits(v);
    Digits(w);
    assert SamePath(4, 0, v, w) <==> Idx(4, v) == Idx(4, w) && SamePath(3, 0, v, w);
    assert SamePath(3, 0, v, w) <==> Idx(3, v) == Idx(3, w) && SamePath(2, 0, v, w);
    assert SamePath(2, 0, v, w) <==> Idx(2, v) == Idx(2, w) && SamePath(1, 0, v, w);
    assert SamePath(1, 0, v, w) <==> Idx(1, v) == Idx(1, w);
    assert SamePath(4, 1, v, w) <==> Idx(4, v) == Idx(4, w) && SamePath(3, 1, v, w);
    assert SamePath(3, 1, v, w) <==> Idx(3, v) == Idx(3, w) && SamePath(2, 1, v, w);
    assert SamePath(2, 1, v, w) <==> Idx(2, v) == Idx(2, w);
  }

  // ----- trees

  /** Entry `i` of the table `f` at this level points to a table of the next level. */
  predicate Link(m: Mem, level: nat, f: nat, i: nat) {
    level > 1 && Entry(m, f, i).present && !(level == 2 && Entry(m, f, i).large)
  }

  /** The table frames below slot `i`. */
  ghost function Sub(m: Mem, level: nat, f: nat, lim: nat, i: nat): set<nat>
    decreases level, 0
  {
    if Link(m, level, f, i) then Frames(m, level - 1, Entry(m, f, i).pfn, lim) else {}
  }

  /** The table frames below the first `n` slots. */
  ghost function Under(m: Mem, level: nat, f: nat, lim: nat, n: nat): set<nat>
    decreases level, 1
  {
    set i, g | 0 <= i < n && g in Sub(m, level, f, lim, i) :: g
  }

  /** All table frames of the tree rooted at `f`. */
  ghost function Frames(m: Mem, level: nat, f: nat, lim: nat): set<nat>
    decreases level, 2
  {
    {f} + Under(m, level, f, lim, Slots(level, lim))
  }

  ghost predicate PairOk(m: Mem, level: nat, f: nat, lim: nat, i: nat, j: nat) {
    i != j ==> Sub(m, level, f, lim, i) !! Sub(m, level, f, lim, j)
  }

  /** The tables reachable from `f` form a tree: each is pointed to by exactly one entry. */
  ghost predicate TreeOk(m: Mem, level: nat, f: nat, lim: nat)
    decreases level, 2
  {
    && IsTable(m, f)
    && (forall i: nat :: i < Slots(level, lim) ==> SlotOk(m, level, f, lim, i))
    && (forall i: nat, j: nat :: i < Slots(level, lim) && j < Slots(level, lim) ==> PairOk(m, level, f, lim, i, j))
  }

  ghost predicate SlotOk(m: Mem, level: nat, f: nat, lim: nat, i: nat)
    decreases level, 0
  {
    && (level > 2 ==> !Entry(m, f, i).large)
    && (level == 2 && Entry(m, f, i).large ==> Entry(m, f, i).present)
    && (Link(m, level, f, i) ==> TreeOk(m, level - 1, Entry(m, f, i).pfn, lim))
    && f !in Sub(m, level, f, lim, i)
  }

  // ----- what a tree means

  /** What a page number is mapped to: the frame, its access bits, and whether by a 2 MiB entry. */
  datatype Leaf = Leaf(pfn: nat, writable: bool, user: bool, noExec: bool, rest: nat, large: bool)

  function SmallLeaf(e: Pte): Leaf {
    Leaf(e.pfn, e.writable, e.user, e.noExec, e.rest, false)
  }

  function LargeLeaf(e: Pte, offset: nat): Leaf {
    Leaf(e.pfn + offset, e.writable, e.user, e.noExec, e.rest, true)
  }

  /** The leaf for page number `vp` in the tree rooted at `f`. */
  function Lookup(m: Mem, level: nat, f: nat, vp: nat): Option<Leaf> {
    var e := Entry(m, f, Idx(level, vp));
    if !e.present then None
    else if level <= 1 then Some(SmallLeaf(e))
    else if level == 2 && e.large then Some(LargeLeaf(e, vp % 512))
    else Lookup(m, level - 1, e.pfn, vp)
  }

  // ----- locality: a tree depends only on its own frames

  ghost predicate Agree(m: Mem, m': Mem, s: set<nat>) {
    forall g :: g in s && g in m ==> g in m' && m'[g] == m[g]
  }

  lemma SubInFrames(m: Mem, level: nat, f: nat, lim: nat, i: nat)
    requires i < Slots(level, lim)
    ensures Sub(m, level, f, lim, i) <= Frames(m, level, f, lim)
  {
  }

  lemma InUnder(m: Mem, level: nat, f: nat, lim: nat, n: nat, i: nat)
    requires i < n
    ensures Sub(m, level, f, lim, i) <= Under(m, level, f, lim, n)
  {
  }

  lemma SlotOf(m: Mem, level: nat, f: nat, lim: nat, n: nat, g: nat) returns (j: nat)
    requires g in Under(m, level, f, lim, n)
    ensures j < n && g in Sub(m, level, f, lim, j)
  {
    j :| j < n && g in Sub(m, level, f, lim, j);
  }

  lemma SameUnder(m: Mem, m': Mem, level: nat, f: nat, lim: nat, n: nat)
    requires forall i: nat :: i < n ==> Sub(m', level, f, lim, i) == Sub(m, level, f, lim, i)
    ensures Under(m', level, f, lim, n) == Under(m, level, f, lim, n)
  {
    assert forall g :: g in Under(m', level, f, lim, n) <==> g in Under(m, level, f, lim, n);
  }

  /** Every frame of a tree is a table in memory. */
  lemma {:induction false} FramesInMem(m: Mem, level: nat, f: nat, lim: nat)
    requires TreeOk(m, level, f, lim)
    ensures Frames(m, level, f, lim) <= m.Keys
    decreases level
  {
    forall g | g in Under(m, level, f, lim, Slots(level, lim)) ensures g in m {
      var i := SlotOf(m, level, f, lim, Slots(level, lim), g);
      assert SlotOk(m, level, f, lim, i);
      FramesInMem(m, level - 1, Entry(m, f, i).pfn, lim);
    }
  }

  lemma {:induction false} FramesAreTables(m: Mem, level: nat, f: nat, lim: nat)
    requires TreeOk(m, level, f, lim)
    ensures forall g :: g in Frames(m, level, f, lim) ==> IsTable(m, g)
    decreases level
  {
    forall g | g in Under(m, level, f, lim, Slots(level, lim)) ensures IsTable(m, g) {
      var i := SlotOf(m, level, f, lim, Slots(level, lim), g);
      assert SlotOk(m, level, f, lim, i);
      FramesAreTables(m, level - 1, Entry(m, f, i).pfn, lim);
    }
  }

  lemma {:induction false} SameSlot(m: Mem, m': Mem, level: nat, f: nat, lim: nat, i: nat)
    requires TreeOk(m, level, f, lim) && i < Slots(level, lim) && Entry(m', f, i) == Entry(m, f, i)
    requires Agree(m, m', Sub(m, level, f, lim, i))
    ensures SlotOk(m', level, f, lim, i) && Sub(m', level, f, lim, i) == Sub(m, level, f, lim, i)
    decreases level, 0
  {
    assert SlotOk(m, level, f, lim, i);
    SubInFrames(m, level, f, lim, i);
    if Link(m, level, f, i) {
      SameTree(m, m', level - 1, Entry(m, f, i).pfn, lim);
    }
  }

  lemma {:induction false} SameTree(m: Mem, m': Mem, level: nat, f: nat, lim: nat)
    requires TreeOk(m, level, f, lim) && Agree(m, m', Frames(m, level, f, lim))
    ensures TreeOk(m', level, f, lim) && Frames(m', level, f, lim) == Frames(m, level, f, lim)
    decreases level
  {
    assert f in Frames(m, level, f, lim);
    forall i: nat | i < Slots(level, lim)
      ensures SlotOk(m', level, f, lim, i) && Sub(m', level, f, lim, i) == Sub(m, level, f, lim, i)
    {
      SubInFrames(m, level, f, lim, i);
      SameSlot(m, m', level, f, lim, i);
    }
    SameUnder(m, m', level, f, lim, Slots(level, lim));
    forall i: nat, j: nat | i < Slots(level, lim) && j < Slots(level, lim) ensures PairOk(m', level, f, lim, i, j) {
      assert PairOk(m, level, f, lim, i, j);
    }
  }

  lemma {:induction false} SameLookup(m: Mem, m': Mem, level: nat, f: nat, lim: nat, vp: nat)
    requires TreeOk(m, level, f, lim) && Agree(m, m', Frames(m, level, f, lim))
    requires level <= 4 && Idx(level, vp) < Slots(level, lim)
    ensures Lookup(m', level, f, vp) == Lookup(m, level, f, vp)
    decreases level
  {
    var i := Idx(level, vp);
    assert f in Frames(m, level, f, lim);
    assert SlotOk(m, level, f, lim, i);
    SubInFrames(m, level, f, lim, i);
    if Link(m, level, f, i) {
      SameLookup(m, m', level - 1, Entry(m, f, i).pfn, lim, vp);
    }
  }

  // ----- changing one slot of one table

  /** `m'` differs from `m`, within the tree at `f`, only in slot `i` of `f` and below that slot. */
  ghost predicate OneSlot(m: Mem, m': Mem, level: nat, f: nat, lim: nat, i: nat) {
    && IsTable(m', f)
    && (forall j: nat :: j != i ==> Entry(m', f, j) == Entry(m, f, j))
    && Agree(m, m', Frames(m, level, f, lim) - {f} - Sub(m, level, f, lim, i))
    && Sub(m', level, f, lim, i) !! Frames(m, level, f, lim) - Sub(m, level, f, lim, i)
  }

  lemma OtherSlot(m: Mem, m': Mem, level: nat, f: nat, lim: nat, i: nat, j: nat)
    requires TreeOk(m, level, f, lim) && OneSlot(m, m', level, f, lim, i)
    requires i < Slots(level, lim) && j < Slots(level, lim) && i != j
    ensures Agree(m, m', Sub(m, level, f, lim, j))
    ensures SlotOk(m', level, f, lim, j) && Sub(m', level, f, lim, j) == Sub(m, level, f, lim, j)
    ensures Sub(m', level, f, lim, i) !! Sub(m, level, f, lim, j)
  {
    assert PairOk(m, level, f, lim, i, j) && SlotOk(m, level, f, lim, j);
    SubInFrames(m, level, f, lim, j);
    SameSlot(m, m', level, f, lim, j);
  }

  lemma IsOneSlotTable(m: Mem, m': Mem, level: nat, f: nat, lim: nat, i: nat)
    requires OneSlot(m, m', level, f, lim, i)
    ensures IsTable(m', f)
  {
  }

  lemma RewireFrames(m: Mem, m': Mem, level: nat, f: nat, lim: nat, i: nat)
    requires TreeOk(m, level, f, lim) && OneSlot(m, m', level, f, lim, i) && i < Slots(level, lim)
    ensures Frames(m', level, f, lim) == Frames(m, level, f, lim) - Sub(m, level, f, lim, i) + Sub(m', level, f, lim, i)
  {
    hide OneSlot, Sub;
    var n := Slots(level, lim);
    assert SlotOk(m, level, f, lim, i);
    forall g ensures g in Under(m', level, f, lim, n) ==>
      g in Under(m, level, f, lim, n) - Sub(m, level, f, lim, i) + Sub(m', level, f, lim, i)
    {
      if g in Under(m', level, f, lim, n) {
        var j := SlotOf(m', level, f, lim, n, g);
        if j != i {
          OtherSlot(m, m', level, f, lim, i, j);
          assert PairOk(m, level, f, lim, i, j);
        }
      }
    }
    forall g | g in Under(m, level, f, lim, n) && g !in Sub(m, level, f, lim, i)
      ensures g in Under(m', level, f, lim, n)
    {
      var j := SlotOf(m, level, f, lim, n, g);
      OtherSlot(m, m', level, f, lim, i, j);
      InUnder(m', level, f, lim, n, j);
    }
    InUnder(m', level, f, lim, n, i);
  }

  /** Changing one slot keeps the tree shape if the new subtree is a tree of its own. */
  lemma Rewire(m: Mem, m': Mem, level: nat, f: nat, lim: nat, i: nat)
    requires TreeOk(m, level, f, lim) && OneSlot(m, m', level, f, lim, i) && i < Slots(level, lim)
    requires SlotOk(m', level, f, lim, i)
    ensures TreeOk(m', level, f, lim)
    ensures Frames(m', level, f, lim) == Frames(m, level, f, lim) - Sub(m, level, f, lim, i) + Sub(m', level, f, lim, i)
  {
    hide SlotOk, OneSlot, Sub;
    forall j: nat | j < Slots(level, lim) ensures SlotOk(m', level, f, lim, j) {
      if j != i { OtherSlot(m, m', level, f, lim, i, j); }
    }
    forall j: nat, k: nat | j < Slots(level, lim) && k < Slots(level, lim) ensures PairOk(m', level, f, lim, j, k) {
      assert PairOk(m, level, f, lim, j, k);
      if j != i { OtherSlot(m, m', level, f, lim, i, j); }
      if k != i { OtherSlot(m, m', level, f, lim, i, k); }
    }
    IsOneSlotTable(m, m', level, f, lim, i);
    RewireFrames(m, m', level, f, lim, i);
  }

  lemma RewireLookup(m: Mem, m': Mem, level: nat, f: nat, lim: nat, i: nat, vp: nat)
    requires TreeOk(m, level, f, lim) && OneSlot(m, m', level, f, lim, i) && i < Slots(level, lim)
    requires level <= 4 && Idx(level, vp) < Slots(level, lim) && Idx(level, vp) != i
    ensures Lookup(m', level, f, vp) == Lookup(m, level, f, vp)
  {
    var j := Idx(level, vp);
    assert SlotOk(m, level, f, lim, j);
    OtherSlot(m, m', level, f, lim, i, j);
    if Link(m, level, f, j) {
      SameLookup(m, m', level - 1, Entry(m, f, j).pfn, lim, vp);
    }
  }

  // ----- changing the subtree at the end of a path

  /** The table of level `low` on the path of `vp`, if every link down to it is there. */
  function TableOn(m: Mem, level: nat, f: nat, vp: nat, low: nat): Option<nat> {
    if level <= low then Some(f)
    else if Link(m, level, f, Idx(level, vp)) then TableOn(m, level - 1, Entry(m, f, Idx(level, vp)).pfn, vp, low)
    else None
  }

  /** `m'` differs from `m`, within the tree at `f`, only in the subtree at `t`, which is a tree again
      and takes in no other frame of the tree. */
  ghost predicate OneSubtree(m: Mem, m': Mem, level: nat, f: nat, lim: nat, low: nat, t: nat) {
    && Agree(m, m', Frames(m, level, f, lim) - Frames(m, low, t, lim))
    && TreeOk(m', low, t, lim)
    && Frames(m', low, t, lim) !! Frames(m, level, f, lim) - Frames(m, low, t, lim)
  }

  /** The table reached on a path is a tree of its own, inside the whole one. */
  lemma {:induction false} OnPath(m: Mem, level: nat, f: nat, lim: nat, vp: nat, low: nat)
    requires TreeOk(m, level, f, lim) && TableOn(m, level, f, vp, low).Some? && low <= level
    requires level <= 4 && Idx(level, vp) < Slots(level, lim)
    ensures var t := TableOn(m, level, f, vp, low).value;
      TreeOk(m, low, t, lim) && Frames(m, low, t, lim) <= Frames(m, level, f, lim)
    decreases level
  {
    if low < level {
      var i := Idx(level, vp);
      assert SlotOk(m, level, f, lim, i);
      SubInFrames(m, level, f, lim, i);
      OnPath(m, level - 1, Entry(m, f, i).pfn, lim, vp, low);
    }
  }

  /** Slots `lim` and above of the table `g` in `m'` hold what those of `f` in `m` hold. */
  ghost predicate SameUpper(m: Mem, f: nat, m': Mem, g: nat, lim: nat) {
    forall i: nat :: lim <= i < ENTRIES ==> Entry(m', g, i) == Entry(m, f, i)
  }

  /** Page numbers covered by the first `lim` slots of a PML4. */
  function Limit(lim: nat): nat {
    0x800_0000 * (if lim < ENTRIES then lim else ENTRIES)
  }

  lemma InLimit(w: nat, lim: nat)
    requires w < Limit(lim)
    ensures w < 0x10_0000_0000 && Idx(4, w) < Slots(4, lim) <= lim
  {
  }

  /** A path in the first `lim` slots comes back to the root nowhere. */
  lemma PathBelow(m: Mem, root: nat, lim: nat, vp: nat, low: nat, t: nat)
    requires TreeOk(m, 4, root, lim) && vp < Limit(lim) && 1 <= low <= 4 && TableOn(m, 4, root, vp, low) == Some(t)
    ensures IsTable(m, t) && IsTable(m, root)
    ensures t == root ==> Idx(low, vp) < lim
  {
    InLimit(vp, lim);
    OnPath(m, 4, root, lim, vp, low);
    if low < 4 {
      var i := Idx(4, vp);
      assert SlotOk(m, 4, root, lim, i);
      OnPath(m, 3, Entry(m, root, i).pfn, lim, vp, low);
    }
  }

  function ZeroTable(): Frame {
    Table(seq(ENTRIES, _ => ABSENT))
  }

  /** Memory with entry `i` of table `t` replaced. */
  function SetEntry(m: Mem, t: nat, i: nat, x: Pte): Mem
    requires IsTable(m, t) && i < ENTRIES
  {
    m[t := Table(m[t].e[i := x])]
  }

  /** So writing the path's slot in a table on it leaves the upper slots of the root alone, also when the
      frame of a new table `z` is put in order first. */
  lemma WriteBelow(m: Mem, root: nat, lim: nat, vp: nat, low: nat, t: nat, x: Pte)
    requires TreeOk(m, 4, root, lim) && vp < Limit(lim) && 1 <= low <= 4 && TableOn(m, 4, root, vp, low) == Some(t)
    ensures IsTable(m, t) && SameUpper(m, root, SetEntry(m, t, Idx(low, vp), x), root, lim)
    ensures forall z: nat :: z !in m ==>
      SameUpper(m, root, SetEntry(m[z := ZeroTable()], t, Idx(low, vp), x), root, lim)
  {
    PathBelow(m, root, lim, vp, low, t);
  }

  lemma SwapPart(all: set<nat>, part: set<nat>, inner: set<nat>, inner': set<nat>)
    requires inner <= part <= all
    ensures all - part + (part - inner + inner') == all - inner + inner'
  {
  }

  /** The conditions of `Lift` hold again one level down. */
  lemma Below(m: Mem, m': Mem, level: nat, f: nat, lim: nat, vp: nat, low: nat, t: nat) returns (c: nat)
    requires TreeOk(m, level, f, lim) && low < level <= 4 && Idx(level, vp) < Slots(level, lim)
    requires TableOn(m, level, f, vp, low) == Some(t) && OneSubtree(m, m', level, f, lim, low, t)
    ensures c == Entry(m, f, Idx(level, vp)).pfn && Link(m, level, f, Idx(level, vp))
    ensures TreeOk(m, level - 1, c, lim) && TableOn(m, level - 1, c, vp, low) == Some(t)
    ensures OneSubtree(m, m', level - 1, c, lim, low, t)
    ensures Frames(m, low, t, lim) <= Frames(m, level - 1, c, lim) <= Frames(m, level, f, lim)
    ensures Sub(m, level, f, lim, Idx(level, vp)) == Frames(m, level - 1, c, lim)
  {
    var i := Idx(level, vp);
    c := Entry(m, f, i).pfn;
    assert SlotOk(m, level, f, lim, i);
    SubInFrames(m, level, f, lim, i);
    OnPath(m, level - 1, c, lim, vp, low);
  }

  lemma LiftSlot(m: Mem, m': Mem, level: nat, f: nat, lim: nat, vp: nat, low: nat, t: nat)
    requires TreeOk(m, level, f, lim) && low < level <= 4 && Idx(level, vp) < Slots(level, lim)
    requires TableOn(m, level, f, vp, low) == Some(t) && OneSubtree(m, m', level, f, lim, low, t)
    requires var c := Entry(m, f, Idx(level, vp)).pfn;
      && TreeOk(m', level - 1, c, lim) && Frames(m, low, t, lim) <= Frames(m, level - 1, c, lim)
      && Frames(m', level - 1, c, lim)
         == Frames(m, level - 1, c, lim) - Frames(m, low, t, lim) + Frames(m', low, t, lim)
    ensures IsTable(m', f) && m'[f] == m[f]
    ensures OneSlot(m, m', level, f, lim, Idx(level, vp)) && SlotOk(m', level, f, lim, Idx(level, vp))
    ensures Sub(m', level, f, lim, Idx(level, vp)) == Frames(m', level - 1, Entry(m, f, Idx(level, vp)).pfn, lim)
  {
    var i := Idx(level, vp);
    assert SlotOk(m, level, f, lim, i);
    SubInFrames(m, level, f, lim, i);
    assert f in Frames(m, level, f, lim) && f !in Sub(m, level, f, lim, i);
  }

  /** A change confined to the subtree at the end of a path keeps the tree, swaps that subtree's frames,
      and keeps the path. */
  lemma {:induction false} Lift(m: Mem, m': Mem, level: nat, f: nat, lim: nat, vp: nat, low: nat, t: nat)
    requires TreeOk(m, level, f, lim) && low <= level <= 4 && Idx(level, vp) < Slots(level, lim)
    requires TableOn(m, level, f, vp, low) == Some(t) && OneSubtree(m, m', level, f, lim, low, t)
    ensures TreeOk(m', level, f, lim) && TableOn(m', level, f, vp, low) == Some(t)
    ensures Frames(m', level, f, lim) == Frames(m, level, f, lim) - Frames(m, low, t, lim) + Frames(m', low, t, lim)
    decreases level
  {
    hide TreeOk, OneSlot, SlotOk, Frames, Sub;
    if low < level {
      var c := Below(m, m', level, f, lim, vp, low, t);
      Lift(m, m', level - 1, c, lim, vp, low, t);
      LiftSlot(m, m', level, f, lim, vp, low, t);
      Rewire(m, m', level, f, lim, Idx(level, vp));
      SwapPart(Frames(m, level, f, lim), Frames(m, level - 1, c, lim), Frames(m, low, t, lim), Frames(m', low, t, lim));
    }
  }

  /** Outside the path the meaning is unchanged; on it, the subtree decides. */
  lemma {:induction false} LiftLookup(m: Mem, m': Mem, level: nat, f: nat, lim: nat, vp: nat, low: nat, t: nat, w: nat)
    requires TreeOk(m, level, f, lim) && low <= level <= 4 && Idx(level, vp) < Slots(level, lim)
    requires TableOn(m, level, f, vp, low) == Some(t) && OneSubtree(m, m', level, f, lim, low, t)
    requires Idx(level, w) < Slots(level, lim)
    ensures Lookup(m', level, f, w) ==
      if SamePath(level, low, vp, w) then Lookup(m', low, t, w) else Lookup(m, level, f, w)
    decreases level
  {
    hide TreeOk, OneSubtree, OneSlot, SlotOk, Frames, Sub;
    if low < level {
      var i := Idx(level, vp);
      var c := Below(m, m', level, f, lim, vp, low, t);
      Lift(m, m', level - 1, c, lim, vp, low, t);
      LiftSlot(m, m', level, f, lim, vp, low, t);
      if Idx(level, w) == i {
        LiftLookup(m, m', level - 1, c, lim, vp, low, t, w);
      } else {
        RewireLookup(m, m', level, f, lim, i, w);
      }
    }
  }

  // ----- the map a tree stands for

  ghost function View(m: Mem, root: nat, lim: nat): map<nat, Leaf> {
    map w: nat | w < Limit(lim) && Lookup(m, 4, root, w).Some? :: Lookup(m, 4, root, w).value
  }

  lemma SameView(m: Mem, m': Mem, root: nat, lim: nat)
    requires TreeOk(m, 4, root, lim) && Agree(m, m', Frames(m, 4, root, lim))
    ensures View(m', root, lim) == View(m, root, lim)
  {
    forall w: nat | w < Limit(lim) ensures Lookup(m', 4, root, w) == Lookup(m, 4, root, w) {
      InLimit(w, lim);
      SameLookup(m, m', 4, root, lim, w);
    }
  }

  lemma EmptyTree(m: Mem, level: nat, z: nat, lim: nat)
    requires z in m && m[z] == ZeroTable()
    ensures TreeOk(m, level, z, lim) && Frames(m, level, z, lim) == {z}
    ensures forall w: nat :: Lookup(m, level, z, w) == None
  {
    assert forall i: nat :: Entry(m, z, i) == ABSENT;
    assert forall i: nat :: Sub(m, level, z, lim, i) == {};
    assert Under(m, level, z, lim, Slots(level, lim)) == {};
    assert forall i: nat :: SlotOk(m, level, z, lim, i);
    assert forall i: nat, j: nat :: PairOk(m, level, z, lim, i, j);
  }

  /** Hanging an empty table into an absent slot adds one table frame and maps nothing. */
  lemma InstallInTable(m: Mem, low: nat, t: nat, lim: nat, i: nat, x: Pte)
    requires TreeOk(m, low, t, lim) && 2 <= low <= 4 && i < Slots(low, lim) && !Link(m, low, t, i)
    requires x.present && !x.large && x.pfn !in Frames(m, low, t, lim)
    requires !Entry(m, t, i).present
    ensures var m' := SetEntry(m[x.pfn := ZeroTable()], t, i, x);
      && TreeOk(m', low, t, lim) && Frames(m', low, t, lim) == Frames(m, low, t, lim) + {x.pfn}
      && Link(m', low, t, i) && OneSlot(m, m', low, t, lim, i)
      && (forall w: nat :: Idx(low, w) < Slots(low, lim) ==> Lookup(m', low, t, w) == Lookup(m, low, t, w))
  {
    var z := x.pfn;
    assert t in Frames(m, low, t, lim);
    var m' := SetEntry(m[z := ZeroTable()], t, i, x);
    assert Entry(m', t, i) == x;
    EmptyTree(m', low - 1, z, lim);
    assert Sub(m, low, t, lim, i) == {};
    assert Sub(m', low, t, lim, i) == {z};
    assert OneSlot(m, m', low, t, lim, i);
    assert SlotOk(m', low, t, lim, i);
    Rewire(m, m', low, t, lim, i);
    forall w: nat | Idx(low, w) < Slots(low, lim) ensures Lookup(m', low, t, w) == Lookup(m, low, t, w) {
      if Idx(low, w) != i {
        RewireLookup(m, m', low, t, lim, i, w);
      }
    }
  }

  /** Writing one entry of a page table changes the meaning of that entry's page only. */
  lemma LeafInTable(m: Mem, t: nat, lim: nat, i: nat, x: Pte)
    requires TreeOk(m, 1, t, lim) && i < ENTRIES
    ensures var m' := SetEntry(m, t, i, x);
      && TreeOk(m', 1, t, lim) && Frames(m', 1, t, lim) == Frames(m, 1, t, lim) == {t}
      && (forall w: nat :: Lookup(m', 1, t, w) ==
            if Idx(1, w) != i then Lookup(m, 1, t, w) else if x.present then Some(SmallLeaf(x)) else None)
  {
    var m' := SetEntry(m, t, i, x);
    assert forall j: nat :: Sub(m, 1, t, lim, j) == {} && Sub(m', 1, t, lim, j) == {};
    assert forall j: nat :: SlotOk(m', 1, t, lim, j);
    assert forall j: nat, k: nat :: PairOk(m', 1, t, lim, j, k);
  }

  /** Writing a large entry over a page-directory slot maps its 512 pages and drops the table below. */
  lemma LargeInTable(m: Mem, t: nat, lim: nat, i: nat, x: Pte)
    requires TreeOk(m, 2, t, lim) && i < ENTRIES && x.present && x.large
    ensures var m' := SetEntry(m, t, i, x);
      && TreeOk(m', 2, t, lim) && Frames(m', 2, t, lim) == Frames(m, 2, t, lim) - Sub(m, 2, t, lim, i)
      && OneSlot(m, m', 2, t, lim, i)
      && (forall w: nat :: Lookup(m', 2, t, w) ==
            if Idx(2, w) != i then Lookup(m, 2, t, w) else Some(LargeLeaf(x, w % 512)))
  {
    var m' := SetEntry(m, t, i, x);
    assert Entry(m', t, i) == x;
    assert Sub(m', 2, t, lim, i) == {};
    assert OneSlot(m, m', 2, t, lim, i);
    assert SlotOk(m', 2, t, lim, i);
    Rewire(m, m', 2, t, lim, i);
    forall w: nat
      ensures Lookup(m', 2, t, w) == if Idx(2, w) != i then Lookup(m, 2, t, w) else Some(LargeLeaf(x, w % 512))
    {
      if Idx(2, w) != i {
        RewireLookup(m, m', 2, t, lim, i, w);
      }
    }
  }

  // ----- the same changes, seen from the root

  /** Extending a known path by one level. */
  lemma {:induction false} NextOnPath(m: Mem, level: nat, f: nat, vp: nat, low: nat, t: nat)
    requires 0 < low <= level && TableOn(m, level, f, vp, low) == Some(t)
    ensures TableOn(m, level, f, vp, low - 1) ==
      if Link(m, low, t, Idx(low, vp)) then Some(Entry(m, t, Idx(low, vp)).pfn) else None
    decreases level
  {
    if low < level {
      NextOnPath(m, level - 1, Entry(m, f, Idx(level, vp)).pfn, vp, low, t);
    } else {
      assert TableOn(m, level, f, vp, low) == Some(f);
      if Link(m, low, t, Idx(low, vp)) {
        assert TableOn(m, low - 1, Entry(m, t, Idx(low, vp)).pfn, vp, low - 1) == Some(Entry(m, t, Idx(low, vp)).pfn);
      }
    }
  }

  lemma OwnTable(m: Mem, level: nat, f: nat, lim: nat)
    requires TreeOk(m, level, f, lim)
    ensures IsTable(m, f) && f in Frames(m, level, f, lim)
  {
  }

  lemma {:induction false} PathLookup(m: Mem, level: nat, f: nat, lim: nat, vp: nat, low: nat, t: nat, w: nat)
    requires low <= level && TableOn(m, level, f, vp, low) == Some(t) && SamePath(level, low, vp, w)
    ensures Lookup(m, level, f, w) == Lookup(m, low, t, w)
    ensures level <= 4 && Idx(level, w) < Slots(level, lim) ==> Idx(low, w) < Slots(low, lim)
    decreases level
  {
    if low < level {
      PathLookup(m, level - 1, Entry(m, f, Idx(level, vp)).pfn, lim, vp, low, t, w);
    }
  }

  lemma InstallOnPath(m: Mem, root: nat, lim: nat, vp: nat, low: nat, t: nat, x: Pte)
    requires TreeOk(m, 4, root, lim) && vp < Limit(lim) && 2 <= low <= 4 && TableOn(m, 4, root, vp, low) == Some(t)
    requires !Entry(m, t, Idx(low, vp)).present && x.present && !x.large && x.pfn !in Frames(m, 4, root, lim)
    ensures IsTable(m[x.pfn := ZeroTable()], t)
    ensures var m' := SetEntry(m[x.pfn := ZeroTable()], t, Idx(low, vp), x);
      && TreeOk(m', 4, root, lim) && Frames(m', 4, root, lim) == Frames(m, 4, root, lim) + {x.pfn}
      && TableOn(m', 4, root, vp, low - 1) == Some(x.pfn)
      && View(m', root, lim) == View(m, root, lim)
  {
    hide TreeOk, Frames, Sub, OneSlot;
    InLimit(vp, lim);
    OnPath(m, 4, root, lim, vp, low);
    OwnTable(m, low, t, lim);
    var i := Idx(low, vp);
    InstallInTable(m, low, t, lim, i, x);
    var m' := SetEntry(m[x.pfn := ZeroTable()], t, i, x);
    assert OneSubtree(m, m', 4, root, lim, low, t);
    Lift(m, m', 4, root, lim, vp, low, t);
    NextOnPath(m', 4, root, vp, low, t);
    forall w: nat | w < Limit(lim) ensures Lookup(m', 4, root, w) == Lookup(m, 4, root, w) {
      InLimit(w, lim);
      LiftLookup(m, m', 4, root, lim, vp, low, t, w);
      if SamePath(4, low, vp, w) {
        PathLookup(m, 4, root, lim, vp, low, t, w);
      }
    }
  }

  /** A page number on the path of `vp` is looked up through the table the path leads to. */
  lemma {:induction false} SelfPath(level: nat, low: nat, vp: nat)
    ensures SamePath(level, low, vp, vp)
  {
    if level > low { SelfPath(level - 1, low, vp); }
  }

  /** A page-directory entry on the path is large exactly when the page is mapped by a 2 MiB entry. */
  lemma LargeIsLeaf(m: Mem, root: nat, lim: nat, vp: nat, low: nat, t: nat)
    requires TreeOk(m, 4, root, lim) && vp < Limit(lim) && 2 <= low <= 4 && TableOn(m, 4, root, vp, low) == Some(t)
    ensures Entry(m, t, Idx(low, vp)).large ==> vp in View(m, root, lim) && View(m, root, lim)[vp].large
  {
    InLimit(vp, lim);
    OnPath(m, 4, root, lim, vp, low);
    SelfPath(4, low, vp);
    PathLookup(m, 4, root, lim, vp, low, t, vp);
    assert SlotOk(m, low, t, lim, Idx(low, vp));
  }

  /** The effect of writing entry `x` at the page-table slot of `vp`. */
  function Written(view: map<nat, Leaf>, vp: nat, x: Pte): map<nat, Leaf> {
    if x.present then view[vp := SmallLeaf(x)] else view - {vp}
  }

  lemma SamePage(v: nat, w: nat)
    requires v < 0x10_0000_0000 && w < 0x10_0000_0000
    ensures v == w <==> SamePath(4, 1, v, w) && Idx(1, v) == Idx(1, w)
  {
    PathIsPage(v, w);
    Digits(v);
    Digits(w);
  }

  lemma LeafOnPath(m: Mem, root: nat, lim: nat, vp: nat, t: nat, x: Pte)
    requires TreeOk(m, 4, root, lim) && vp < Limit(lim) && TableOn(m, 4, root, vp, 1) == Some(t)
    ensures IsTable(m, t)
    ensures var m' := SetEntry(m, t, Idx(1, vp), x);
      && TreeOk(m', 4, root, lim) && Frames(m', 4, root, lim) == Frames(m, 4, root, lim)
      && t in Frames(m, 4, root, lim) && TableOn(m', 4, root, vp, 1) == Some(t)
      && View(m', root, lim) == Written(View(m, root, lim), vp, x)
  {
    hide TreeOk, Frames, Sub, OneSlot, Lookup, Idx, Limit;
    InLimit(vp, lim);
    OnPath(m, 4, root, lim, vp, 1);
    OwnTable(m, 1, t, lim);
    LeafInTable(m, t, lim, Idx(1, vp), x);
    var m' := SetEntry(m, t, Idx(1, vp), x);
    assert OneSubtree(m, m', 4, root, lim, 1, t);
    Lift(m, m', 4, root, lim, vp, 1, t);
    forall w: nat | w < Limit(lim)
      ensures Lookup(m', 4, root, w) ==
        if w != vp then Lookup(m, 4, root, w) else if x.present then Some(SmallLeaf(x)) else None
    {
      InLimit(w, lim);
      LiftLookup(m, m', 4, root, lim, vp, 1, t, w);
      SamePage(vp, w);
      if SamePath(4, 1, vp, w) {
        PathLookup(m, 4, root, lim, vp, 1, t, w);
      }
    }
  }

  predicate SameLarge(vp: nat, w: nat) {
    vp / 512 == w / 512
  }

  function LargeDomain(vp: nat): set<nat> {
    set w: nat | vp - vp % 512 <= w < vp - vp % 512 + 512 && SameLarge(vp, w)
  }

  /** The 512 pages of the page-directory slot of `vp`, each mapped into the large frame of `x`. */
  function LargePages(vp: nat, x: Pte): map<nat, Leaf> {
    map w: nat | w in LargeDomain(vp) :: LargeLeaf(x, w % 512)
  }

  lemma LargeInLimit(vp: nat, x: Pte, lim: nat)
    requires vp < Limit(lim)
    ensures forall w: nat :: w in LargePages(vp, x) <==> SameLarge(vp, w)
    ensures forall w: nat :: w in LargePages(vp, x) ==> w < Limit(lim) && LargePages(vp, x)[w] == LargeLeaf(x, w % 512)
  {
    assert Limit(lim) % 512 == 0;
    assert forall w: nat :: w in LargeDomain(vp) <==> SameLarge(vp, w);
  }

  lemma PathSplit(v: nat, w: nat)
    requires v < 0x10_0000_0000 && w < 0x10_0000_0000
    ensures SameLarge(v, w) <==> SamePath(4, 2, v, w) && Idx(2, v) == Idx(2, w)
  {
    PathIsPage(v, w);
    assert SamePath(4, 1, v, w) <==> Idx(4, v) == Idx(4, w) && SamePath(3, 1, v, w);
    assert SamePath(3, 1, v, w) <==> Idx(3, v) == Idx(3, w) && SamePath(2, 1, v, w);
    assert SamePath(2, 1, v, w) <==> Idx(2, v) == Idx(2, w);
    assert SamePath(4, 2, v, w) <==> Idx(4, v) == Idx(4, w) && SamePath(3, 2, v, w);
    assert SamePath(3, 2, v, w) <==> Idx(3, v) == Idx(3, w);
  }

  lemma LargeOnPath(m: Mem, root: nat, lim: nat, vp: nat, t: nat, x: Pte)
    requires TreeOk(m, 4, root, lim) && vp < Limit(lim) && TableOn(m, 4, root, vp, 2) == Some(t)
    requires x.present && x.large
    ensures IsTable(m, t)
    ensures var m' := SetEntry(m, t, Idx(2, vp), x);
      && TreeOk(m', 4, root, lim) && Frames(m', 4, root, lim) <= Frames(m, 4, root, lim)
      && t in Frames(m, 4, root, lim)
      && View(m', root, lim) == View(m, root, lim) + LargePages(vp, x)
  {
    hide TreeOk, Frames, Sub, OneSlot, Lookup, Idx, Limit, SameLarge, LargePages;
    InLimit(vp, lim);
    OnPath(m, 4, root, lim, vp, 2);
    OwnTable(m, 2, t, lim);
    LargeInTable(m, t, lim, Idx(2, vp), x);
    var m' := SetEntry(m, t, Idx(2, vp), x);
    assert OneSubtree(m, m', 4, root, lim, 2, t);
    Lift(m, m', 4, root, lim, vp, 2, t);
    forall w: nat | w < Limit(lim)
      ensures Lookup(m', 4, root, w) == if SameLarge(vp, w) then Some(LargeLeaf(x, w % 512)) else Lookup(m, 4, root, w)
    {
      InLimit(w, lim);
      LiftLookup(m, m', 4, root, lim, vp, 2, t, w);
      PathSplit(vp, w);
      if SamePath(4, 2, vp, w) {
        PathLookup(m, 4, root, lim, vp, 2, t, w);
      }
    }
    LargeInLimit(vp, x, lim);
  }

  // ----- which tables exist

  /** The walk of page `w` reaches a table of level `l`. */
  predicate HasTable(m: Mem, root: nat, w: nat, l: nat) {
    TableOn(m, 4, root, w, l).Some?
  }

  lemma {:induction false} SameTableOn(m: Mem, m': Mem, level: nat, f: nat, lim: nat, w: nat, l: nat)
    requires TreeOk(m, level, f, lim) && Agree(m, m', Frames(m, level, f, lim))
    requires level <= 4 && Idx(level, w) < Slots(level, lim)
    ensures TableOn(m', level, f, w, l) == TableOn(m, level, f, w, l)
    decreases level
  {
    var i := Idx(level, w);
    assert f in Frames(m, level, f, lim);
    assert SlotOk(m, level, f, lim, i);
    SubInFrames(m, level, f, lim, i);
    if level > l && Link(m, level, f, i) {
      SameTableOn(m, m', level - 1, Entry(m, f, i).pfn, lim, w, l);
    }
  }

  /** A change of one slot leaves the walks through the other slots alone. */
  lemma RewireTableOn(m: Mem, m': Mem, level: nat, f: nat, lim: nat, i: nat, w: nat, l: nat)
    requires TreeOk(m, level, f, lim) && OneSlot(m, m', level, f, lim, i) && i < Slots(level, lim)
    requires level <= 4 && Idx(level, w) < Slots(level, lim) && Idx(level, w) != i
    ensures TableOn(m', level, f, w, l) == TableOn(m, level, f, w, l)
  {
    var j := Idx(level, w);
    assert SlotOk(m, level, f, lim, j);
    OtherSlot(m, m', level, f, lim, i, j);
    if level > l && Link(m, level, f, j) {
      SameTableOn(m, m', level - 1, Entry(m, f, j).pfn, lim, w, l);
    }
  }

  /** After a change below the table `t` of level `low`, only walks through `t` to tables below it differ. */
  lemma {:induction false} LiftTableOn(m: Mem, m': Mem, level: nat, f: nat, lim: nat, vp: nat, low: nat, t: nat,
                                       w: nat, l: nat)
    requires TreeOk(m, level, f, lim) && low <= level <= 4 && Idx(level, vp) < Slots(level, lim)
    requires TableOn(m, level, f, vp, low) == Some(t) && OneSubtree(m, m', level, f, lim, low, t)
    requires Idx(level, w) < Slots(level, lim)
    ensures TableOn(m', level, f, w, l) ==
      if SamePath(level, low, vp, w) && l < low then TableOn(m', low, t, w, l) else TableOn(m, level, f, w, l)
    decreases level
  {
    hide TreeOk, OneSubtree, OneSlot, SlotOk, Frames, Sub;
    if low < level {
      var i := Idx(level, vp);
      var c := Below(m, m', level, f, lim, vp, low, t);
      Lift(m, m', level - 1, c, lim, vp, low, t);
      LiftSlot(m, m', level, f, lim, vp, low, t);
      if Idx(level, w) == i {
        if l < level { LiftTableOn(m, m', level - 1, c, lim, vp, low, t, w, l); }
      } else {
        RewireTableOn(m, m', level, f, lim, i, w, l);
      }
    }
  }

  /** Pages on one path go through the same table there, and on from it. */
  lemma {:induction false} PathTables(m: Mem, level: nat, f: nat, lim: nat, vp: nat, low: nat, t: nat, w: nat, l: nat)
    requires low <= level && TableOn(m, level, f, vp, low) == Some(t) && SamePath(level, low, vp, w)
    ensures l < low ==> TableOn(m, level, f, w, l) == TableOn(m, low, t, w, l)
    ensures l >= low ==> TableOn(m, level, f, w, l).Some?
    ensures level <= 4 && Idx(level, w) < Slots(level, lim) ==> Idx(low, w) < Slots(low, lim)
    decreases level
  {
    if low < level {
      PathTables(m, level - 1, Entry(m, f, Idx(level, vp)).pfn, lim, vp, low, t, w, l);
    }
  }

  /** A path shared down to one level is shared down to every level above. */
  lemma {:induction false} PathLower(level: nat, l: nat, low: nat, v: nat, w: nat)
    requires l <= low && SamePath(level, l, v, w)
    ensures SamePath(level, low, v, w)
    ensures l < low <= level ==> Idx(low, v) == Idx(low, w)
  {
    if level > low {
      PathLower(level - 1, l, low, v, w);
    } else if l < low == level {
      assert Idx(level, v) == Idx(level, w);
    }
  }

  /** Extending a shared path by one level. */
  lemma {:induction false} PathLonger(level: nat, low: nat, v: nat, w: nat)
    requires 0 < low <= level && SamePath(level, low, v, w) && Idx(low, v) == Idx(low, w)
    ensures SamePath(level, low - 1, v, w)
  {
    if level > low {
      PathLonger(level - 1, low, v, w);
    } else {
      assert SamePath(low - 1, low - 1, v, w);
    }
  }

  lemma TopDigit(v: nat)
    requires v < 0x10_0000_0000
    ensures Idx(4, v) == v / 0x800_0000
  {
  }

  lemma UpperDigits(v: nat)
    requires v < 0x10_0000_0000
    ensures v / 0x40000 == Idx(4, v) * 512 + Idx(3, v)
  {
    var b := v / 0x40000;
    assert v / 0x800_0000 == b / 512;
  }

  /** Page numbers share the path to a table of level `l` when they lie in the same block that it covers. */
  lemma PathBlock(l: nat, v: nat, w: nat)
    requires v < 0x10_0000_0000 && w < 0x10_0000_0000 && 1 <= l <= 3
    ensures SamePath(4, l, v, w) <==> v / Span(l + 1) == w / Span(l + 1)
  {
    TopDigit(v);
    TopDigit(w);
    if l == 1 {
      PathIsPage(v, w);
    } else if l == 2 {
      UpperDigits(v);
      UpperDigits(w);
      hide Idx;
      assert SamePath(4, 2, v, w) <==> Idx(4, v) == Idx(4, w) && SamePath(3, 2, v, w);
      assert SamePath(3, 2, v, w) <==> Idx(3, v) == Idx(3, w);
    } else {
      hide Idx;
      assert SamePath(4, 3, v, w) <==> Idx(4, v) == Idx(4, w);
    }
  }

  lemma EmptyWalk(m: Mem, low: nat, t: nat, i: nat, z: nat, w: nat, l: nat)
    requires 1 <= l < low && Idx(low, w) == i && Link(m, low, t, i) && Entry(m, t, i).pfn == z
    requires z in m && m[z] == ZeroTable()
    ensures TableOn(m, low, t, w, l).Some? <==> l == low - 1
  {
    assert forall j: nat :: Entry(m, z, j) == ABSENT;
  }

  /** Hanging an empty table into the path of `vp` adds that table to the walks that share the path. */
  lemma InstallTables(m: Mem, root: nat, lim: nat, vp: nat, low: nat, t: nat, x: Pte, w: nat, l: nat)
    requires TreeOk(m, 4, root, lim) && vp < Limit(lim) && 2 <= low <= 4 && TableOn(m, 4, root, vp, low) == Some(t)
    requires !Entry(m, t, Idx(low, vp)).present && x.present && !x.large && x.pfn !in Frames(m, 4, root, lim)
    requires w < Limit(lim) && 1 <= l <= 3
    ensures IsTable(m[x.pfn := ZeroTable()], t)
    ensures var m' := SetEntry(m[x.pfn := ZeroTable()], t, Idx(low, vp), x);
      HasTable(m', root, w, l) <==> HasTable(m, root, w, l) || (l == low - 1 && SamePath(4, l, vp, w))
  {
    hide TreeOk, Frames, Sub, OneSlot, Limit, Idx;
    InLimit(vp, lim);
    InLimit(w, lim);
    OnPath(m, 4, root, lim, vp, low);
    OwnTable(m, low, t, lim);
    var i := Idx(low, vp);
    InstallInTable(m, low, t, lim, i, x);
    var m' := SetEntry(m[x.pfn := ZeroTable()], t, i, x);
    assert OneSubtree(m, m', 4, root, lim, low, t);
    LiftTableOn(m, m', 4, root, lim, vp, low, t, w, l);
    if SamePath(4, l, vp, w) && l < low { PathLower(4, l, low, vp, w); }
    if SamePath(4, low, vp, w) && l < low {
      PathTables(m, 4, root, lim, vp, low, t, w, l);
      if Idx(low, w) == i {
        PathLonger(4, low, vp, w);
        EmptyWalk(m', low, t, i, x.pfn, w, l);
      } else {
        RewireTableOn(m, m', low, t, lim, i, w, l);
      }
    }
  }

  /** Writing a page-table entry adds and removes no table. */
  lemma LeafTables(m: Mem, root: nat, lim: nat, vp: nat, t: nat, x: Pte, w: nat, l: nat)
    requires TreeOk(m, 4, root, lim) && vp < Limit(lim) && TableOn(m, 4, root, vp, 1) == Some(t)
    requires w < Limit(lim) && 1 <= l <= 3
    ensures IsTable(m, t)
    ensures HasTable(SetEntry(m, t, Idx(1, vp), x), root, w, l) <==> HasTable(m, root, w, l)
  {
    hide TreeOk, Frames, Sub, OneSlot, Limit, Idx;
    InLimit(vp, lim);
    InLimit(w, lim);
    OnPath(m, 4, root, lim, vp, 1);
    OwnTable(m, 1, t, lim);
    LeafInTable(m, t, lim, Idx(1, vp), x);
    var m' := SetEntry(m, t, Idx(1, vp), x);
    assert OneSubtree(m, m', 4, root, lim, 1, t);
    LiftTableOn(m, m', 4, root, lim, vp, 1, t, w, l);
  }

  /** Writing a 2 MiB entry removes the page table below it and no other. */
  lemma LargeTables(m: Mem, root: nat, lim: nat, vp: nat, t: nat, x: Pte, w: nat, l: nat)
    requires TreeOk(m, 4, root, lim) && vp < Limit(lim) && TableOn(m, 4, root, vp, 2) == Some(t)
    requires x.present && x.large && w < Limit(lim) && 1 <= l <= 3
    ensures IsTable(m, t)
    ensures HasTable(SetEntry(m, t, Idx(2, vp), x), root, w, l) <==>
      HasTable(m, root, w, l) && !(l == 1 && SameLarge(vp, w))
  {
    hide TreeOk, Frames, Sub, OneSlot, Limit, Idx, SameLarge;
    InLimit(vp, lim);
    InLimit(w, lim);
    OnPath(m, 4, root, lim, vp, 2);
    OwnTable(m, 2, t, lim);
    var i := Idx(2, vp);
    LargeInTable(m, t, lim, i, x);
    var m' := SetEntry(m, t, i, x);
    assert OneSubtree(m, m', 4, root, lim, 2, t);
    LiftTableOn(m, m', 4, root, lim, vp, 2, t, w, l);
    PathSplit(vp, w);
    if SamePath(4, 2, vp, w) && l == 1 {
      PathTables(m, 4, root, lim, vp, 2, t, w, 1);
      if Idx(2, w) == i {
        assert Entry(m', t, i) == x && !Link(m', 2, t, i);
      } else {
        RewireTableOn(m, m', 2, t, lim, i, w, 1);
      }
    }
  }
}
