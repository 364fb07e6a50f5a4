/** Mapping a range with 2 MiB entries where they fit: the tables it takes and the map it makes. */
module MapRanges {
  import opened Basics
  import opened Blocks
  import opened PageTables
  import opened Translation
  import opened AccessRights
  import opened TableWalks

  /** The number of pages that `size` bytes take. */
  function Pages(size: nat): nat {
    (size + PAGE_SIZE - 1) / PAGE_SIZE
  }

  lemma PageCount(size: nat, k: nat)
    ensures PAGE_SIZE * k < size <==> k < Pages(size)
  {
  }

  /** Page `w` of a range of `size` bytes that maps page `vp` to frame `pfn` goes in with a 2 MiB entry: its
      2 MiB slot starts within the range, on a frame aligned alike, and is filled. */
  predicate LargeStep(vp: nat, pfn: nat, size: nat, w: nat) {
    var b := w - w % 512;
    vp <= b && (pfn + (b - vp)) % 512 == 0 && (b - vp + 512) * PAGE_SIZE <= size
  }

  /** Page `w` is the first of a range from `vp` in the block that a table of level `l` covers, and the
      table is not there yet. */
  function NewTable(m: Mem, root: nat, vp: nat, w: nat, l: nat): nat {
    if !HasTable(m, root, w, l) && (w == vp || w % Span(l + 1) == 0) then 1 else 0
  }

  function NewTables(m: Mem, root: nat, vp: nat, w: nat, low: nat): nat {
    NewTable(m, root, vp, w, 3) + NewTable(m, root, vp, w, 2) + (if low <= 1 then NewTable(m, root, vp, w, 1) else 0)
  }

  /** The tables that mapping the first `k` pages of the range takes: every one that is missing, once. */
  function RangeTables(m: Mem, root: nat, vp: nat, pfn: nat, size: nat, k: nat): nat {
    if k == 0 then 0
    else
      var w := vp + k - 1;
      RangeTables(m, root, vp, pfn, size, k - 1)
      + NewTables(m, root, vp, w, if LargeStep(vp, pfn, size, w) then 2 else 1)
  }

  ghost predicate AheadAt(m0: Mem, m: Mem, root: nat, vp: nat, k: nat, w: nat, l: nat) {
    HasTable(m, root, w, l) <==> HasTable(m0, root, w, l) || (k > 0 && w / Span(l + 1) == (vp + k - 1) / Span(l + 1))
  }

  /** With `k` pages of a range mapped, the tables ahead are those that were there and those on the path of
      the last page mapped. */
  ghost predicate Ahead(m0: Mem, m: Mem, root: nat, lim: nat, vp: nat, k: nat) {
    forall w: nat, l: nat :: vp + k <= w < Limit(lim) && 1 <= l <= 3 ==> AheadAt(m0, m, root, vp, k, w, l)
  }

  lemma MissingTables(m: Mem, root: nat, w: nat, low: nat)
    requires 1 <= low <= 2
    ensures Missing(m, 4, root, w, low) ==
      (if HasTable(m, root, w, 3) then 0 else 1) + (if HasTable(m, root, w, 2) then 0 else 1)
      + (if low == 1 && !HasTable(m, root, w, 1) then 1 else 0)
  {
    hide Idx;
    if HasTable(m, root, w, 1) { AboveOnPath(m, 4, root, w, 1, 2); }
    if HasTable(m, root, w, 2) { AboveOnPath(m, 4, root, w, 2, 3); }
    NextOnPath(m, 4, root, w, 4, root);
    if Link(m, 4, root, Idx(4, w)) {
      var f3 := Entry(m, root, Idx(4, w)).pfn;
      NextOnPath(m, 4, root, w, 3, f3);
      assert Missing(m, 4, root, w, low) == Missing(m, 3, f3, w, low);
      if Link(m, 3, f3, Idx(3, w)) {
        var f2 := Entry(m, f3, Idx(3, w)).pfn;
        assert Missing(m, 3, f3, w, low) == Missing(m, 2, f2, w, low);
        assert Missing(m, 2, f2, w, low) == if low == 2 || Link(m, 2, f2, Idx(2, w)) then 0 else 1;
        NextOnPath(m, 4, root, w, 2, f2);
      }
    }
  }

  lemma BlockStart(w: nat, s: nat)
    requires w > 0 && s > 0
    ensures w / s == (w - 1) / s <==> w % s != 0
  {
    var q, r := w / s, w % s;
    if r == 0 {
      QuotientUnique(w - 1, s, q - 1, s - 1);
    } else {
      QuotientUnique(w - 1, s, q, r - 1);
    }
  }

  lemma QuotientMonotone(a: nat, b: nat, s: nat)
    requires a <= b && s > 0
    ensures a / s <= b / s
  {
    if a / s > b / s {
      assert (a / s) * s >= (b / s + 1) * s by { Product(a / s - b / s - 1, s); }
    }
  }

  lemma BlocksInOrder(a: nat, b: nat, c: nat, s: nat)
    requires a <= b <= c && s > 0
    ensures a / s <= b / s <= c / s
  {
    QuotientMonotone(a, b, s);
    QuotientMonotone(b, c, s);
  }

  /** The tables the next step lacks are the new ones of its page. */
  lemma StepNeeds(m0: Mem, m: Mem, root: nat, lim: nat, vp: nat, k: nat, low: nat)
    requires Ahead(m0, m, root, lim, vp, k) && vp + k < Limit(lim) && 1 <= low <= 2
    ensures Missing(m, 4, root, vp + k, low) == NewTables(m0, root, vp, vp + k, low)
  {
    hide Missing, Limit, HasTable, Span;
    var w := vp + k;
    MissingTables(m, root, w, low);
    forall l: nat | 1 <= l <= 3 ensures (if HasTable(m, root, w, l) then 0 else 1) == NewTable(m0, root, vp, w, l) {
      assert AheadAt(m0, m, root, vp, k, w, l);
      if k > 0 { BlockStart(w, Span(l + 1)); }
    }
    assert forall l: nat :: 1 <= l <= 3 ==> (if HasTable(m, root, w, l) then 0 else 1) == NewTable(m0, root, vp, w, l);
  }

  lemma LimitBound(lim: nat)
    ensures Limit(lim) <= 0x10_0000_0000
  {
  }

  lemma AheadSmall(m0: Mem, m: Mem, m': Mem, root: nat, lim: nat, vp: nat, k: nat)
    requires Ahead(m0, m, root, lim, vp, k) && TablesGrew(m, m', root, lim, vp + k, 1) && vp + k < Limit(lim)
    ensures Ahead(m0, m', root, lim, vp, k + 1)
  {
    LimitBound(lim);
    hide Limit, HasTable, Span, SamePath;
    var n := k + 1;
    forall w: nat, l: nat | vp + n <= w < Limit(lim) && 1 <= l <= 3 ensures AheadAt(m0, m', root, vp, n, w, l) {
      assert AheadAt(m0, m, root, vp, k, w, l) && GrewAt(m, m', root, vp + k, 1, w, l);
      PathBlock(l, vp + k, w);
      if k > 0 { BlocksInOrder(vp + k - 1, vp + k, w, Span(l + 1)); }
    }
  }

  lemma NextSlotApart(v: nat, w: nat)
    requires v % 512 == 0 && v + 512 <= w
    ensures !SameLarge(v, w) && w / Span(2) != v / Span(2)
  {
  }

  lemma Scaled(k: nat, q: nat, r: nat)
    ensures 512 * (k * q + r) == q * (512 * k) + 512 * r
  {
  }

  lemma SlotInBlock(a: nat, k: nat, j: nat)
    requires k > 0 && j < 512
    ensures (512 * a + j) / (512 * k) == a / k
  {
    var q, r := a / k, a % k;
    assert a == k * q + r;
    Scaled(k, q, r);
    QuotientUnique(512 * a + j, 512 * k, q, 512 * r + j);
  }

  lemma SlotBlock(v: nat, l: nat)
    requires v % 512 == 0 && 1 <= l <= 3
    ensures (v + 511) / Span(l + 1) == v / Span(l + 1)
  {
    var a := v / 512;
    if l == 1 {
      SlotInBlock(a, 1, 0);
      SlotInBlock(a, 1, 511);
    } else if l == 2 {
      SlotInBlock(a, 512, 0);
      SlotInBlock(a, 512, 511);
    } else {
      SlotInBlock(a, 0x40000, 0);
      SlotInBlock(a, 0x40000, 511);
    }
  }

  lemma AheadLarge(m0: Mem, m: Mem, m': Mem, root: nat, lim: nat, vp: nat, k: nat)
    requires Ahead(m0, m, root, lim, vp, k) && LargeGrew(m, m', root, lim, vp + k)
    requires vp + k < Limit(lim) && (vp + k) % 512 == 0
    ensures Ahead(m0, m', root, lim, vp, k + 512)
  {
    LimitBound(lim);
    hide Limit, HasTable, SamePath, Span, SameLarge;
    var n, v := k + 512, vp + k;
    forall w: nat, l: nat | vp + n <= w < Limit(lim) && 1 <= l <= 3 ensures AheadAt(m0, m', root, vp, n, w, l) {
      assert AheadAt(m0, m, root, vp, k, w, l);
      NextSlotApart(v, w);
      assert GrewAt(m, m', root, v, 2, w, l);
      PathBlock(l, v, w);
      SlotBlock(v, l);
      if k > 0 { BlocksInOrder(vp + k - 1, v, w, Span(l + 1)); }
    }
  }

  lemma NoMultiple(x: nat)
    requires x % 512 != 0
    ensures x % 0x40000 != 0 && x % 0x800_0000 != 0
  {
    if x % 0x40000 == 0 { QuotientUnique(x, 512, x / 0x40000 * 512, 0); }
    if x % 0x800_0000 == 0 { QuotientUnique(x, 512, x / 0x800_0000 * 0x40000, 0); }
  }

  lemma InsideSlot(v: nat, i: nat)
    requires v % 512 == 0 && 0 < i < 512
    ensures (v + i) % 512 == i && (v + i) % 0x40000 != 0 && (v + i) % 0x800_0000 != 0
  {
    QuotientUnique(v + i, 512, v / 512, i);
    NoMultiple(v + i);
  }

  /** Within a 2 MiB step, only its first page can need tables. */
  lemma {:induction false} LargeStepTables(m: Mem, root: nat, vp: nat, pfn: nat, size: nat, k: nat, j: nat)
    requires (vp + k) % 512 == 0 && LargeStep(vp, pfn, size, vp + k) && 1 <= j <= 512
    ensures RangeTables(m, root, vp, pfn, size, k + j) ==
      RangeTables(m, root, vp, pfn, size, k) + NewTables(m, root, vp, vp + k, 2)
    decreases j
  {
    hide HasTable;
    if j > 1 {
      LargeStepTables(m, root, vp, pfn, size, k, j - 1);
      InsideSlot(vp + k, j - 1);
      assert LargeStep(vp, pfn, size, vp + k + (j - 1));
      assert NewTables(m, root, vp, vp + k + (j - 1), 2) == 0;
    }
  }

  lemma {:induction false} RangeTablesMonotone(m: Mem, root: nat, vp: nat, pfn: nat, size: nat, k: nat, n: nat)
    requires k <= n
    ensures RangeTables(m, root, vp, pfn, size, k) <= RangeTables(m, root, vp, pfn, size, n)
    decreases n - k
  {
    if k < n { RangeTablesMonotone(m, root, vp, pfn, size, k, n - 1); }
  }

  /** Inside a slot that goes in with a 2 MiB entry, no page is mapped on its own. */
  predicate AtStep(vp: nat, pfn: nat, size: nat, w: nat) {
    w % 512 != 0 ==> !LargeStep(vp, pfn, size, w)
  }

  lemma AtSlotStart(vp: nat, pfn: nat, size: nat, w: nat)
    requires w % 512 == 0
    ensures AtStep(vp, pfn, size, w + 512)
  {
  }

  /** What the loop tests for a 2 MiB entry. */
  lemma StepIsLarge(vp: nat, pfn: nat, size: nat, k: nat)
    requires AtStep(vp, pfn, size, vp + k)
    ensures LargeStep(vp, pfn, size, vp + k) <==>
      (k + 512) * PAGE_SIZE <= size && (vp + k) % 512 == 0 && (pfn + k) % 512 == 0
  {
  }

  lemma SmallStepTables(m: Mem, root: nat, vp: nat, pfn: nat, size: nat, k: nat)
    requires !LargeStep(vp, pfn, size, vp + k)
    ensures RangeTables(m, root, vp, pfn, size, k + 1) ==
      RangeTables(m, root, vp, pfn, size, k) + NewTables(m, root, vp, vp + k, 1)
  {
    hide NewTables, LargeStep;
  }

  ghost predicate LeavesAligned(view: map<nat, Leaf>) {
    forall w: nat :: FrameAligned(view, w)
  }

  /** No link lost a right, and 2 MiB pages are aligned if they were. */
  ghost predicate AccessKept(m: Mem, m': Mem, root: nat, lim: nat) {
    WiderLinks(m, m', root, lim) && (LeavesAligned(View(m, root, lim)) ==> LeavesAligned(View(m', root, lim)))
  }

  lemma ViewKept(m: Mem, m': Mem, root: nat, lim: nat)
    requires WiderLinks(m, m', root, lim) && View(m', root, lim) == View(m, root, lim)
    ensures AccessKept(m, m', root, lim)
  {
  }

  lemma SmallKept(m: Mem, m': Mem, root: nat, lim: nat, w: nat, f: nat, fl: Flags)
    requires WiderLinks(m, m', root, lim) && View(m', root, lim) == View(m, root, lim)[w := MakeLeaf(f, fl)]
    ensures AccessKept(m, m', root, lim)
  {
    hide View, WiderLinks;
    if LeavesAligned(View(m, root, lim)) {
      forall v: nat ensures FrameAligned(View(m', root, lim), v) {
        assert FrameAligned(View(m, root, lim), v);
      }
    }
  }

  lemma AlignedLarge(vp: nat, x: Pte)
    requires vp % 512 == 0
    ensures forall w: nat :: w in LargePages(vp, x) <==> vp <= w < vp + 512
    ensures forall w: nat :: w in LargePages(vp, x) ==> LargePages(vp, x)[w] == LargeLeaf(x, w - vp)
  {
    assert forall w: nat :: w in LargeDomain(vp) <==> vp <= w < vp + 512;
  }

  lemma LargeKept(m: Mem, m': Mem, root: nat, lim: nat, w: nat, f: nat, fl: Flags)
    requires WiderLinks(m, m', root, lim) && w % 512 == 0 && f % 512 == 0
    requires View(m', root, lim) == View(m, root, lim) + LargePages(w, MakePte(f, fl, true))
    ensures AccessKept(m, m', root, lim)
  {
    hide View, WiderLinks;
    AlignedLarge(w, MakePte(f, fl, true));
    hide LargePages;
    if LeavesAligned(View(m, root, lim)) {
      forall v: nat ensures FrameAligned(View(m', root, lim), v) {
        assert FrameAligned(View(m, root, lim), v);
      }
    }
  }

  /** One step of the loop keeps what lies outside the tree. */
  lemma RangeStep(m0: Mem, f0: set<nat>, m1: Mem, f1: set<nat>, m2: Mem, f2: set<nat>, root: nat, lim: nat)
    requires m0.Keys !! f0 && SameUpper(m0, root, m1, root, lim) && SameUpper(m1, root, m2, root, lim)
    requires AccessKept(m0, m1, root, lim) && AccessKept(m1, m2, root, lim)
    requires Bounded(m0, f0, m1, f1, Frames(m0, 4, root, lim), Frames(m1, 4, root, lim))
    requires Bounded(m1, f1, m2, f2, Frames(m1, 4, root, lim), Frames(m2, 4, root, lim))
    ensures SameUpper(m0, root, m2, root, lim) && AccessKept(m0, m2, root, lim)
    ensures Bounded(m0, f0, m2, f2, Frames(m0, 4, root, lim), Frames(m2, 4, root, lim))
  {
    hide Frames, WiderLinks, View, LeavesAligned;
    WiderTrans(m0, m1, m2, root, lim);
    BoundedTrans(m0, f0, m1, f1, m2, f2, Frames(m0, 4, root, lim), Frames(m1, 4, root, lim), Frames(m2, 4, root, lim));
    forall i: nat | lim <= i < ENTRIES ensures Entry(m2, root, i) == Entry(m0, root, i) {
      assert Entry(m2, root, i) == Entry(m1, root, i);
    }
  }

  lemma AtStepNext(vp: nat, pfn: nat, size: nat, w: nat)
    requires AtStep(vp, pfn, size, w) && !LargeStep(vp, pfn, size, w)
    ensures AtStep(vp, pfn, size, w + 1)
  {
    var q, r := w / 512, w % 512;
    if r < 511 {
      QuotientUnique(w + 1, 512, q, r + 1);
    } else {
      QuotientUnique(w + 1, 512, q + 1, 0);
    }
  }

  /** A view without the distinction between 4 KiB and 2 MiB entries: what translation sees. */
  function Plain(view: map<nat, Leaf>): map<nat, Leaf> {
    map w | w in view :: view[w].(large := false)
  }

  /** Mapping `n` pages one after the other. */
  function MapEach(view: map<nat, Leaf>, vp: nat, pfn: nat, n: nat, fl: Flags): map<nat, Leaf> {
    if n == 0 then view else MapEach(view, vp, pfn, n - 1, fl)[vp + n - 1 := MakeLeaf(pfn + n - 1, fl)]
  }

  /** What page-by-page mapping yields, page by page. */
  lemma {:induction false} MapEachAt(view: map<nat, Leaf>, vp: nat, pfn: nat, n: nat, fl: Flags)
    ensures forall w: nat :: w in MapEach(view, vp, pfn, n, fl) <==> w in view || vp <= w < vp + n
    ensures forall w: nat :: w in MapEach(view, vp, pfn, n, fl) ==>
      MapEach(view, vp, pfn, n, fl)[w] == if vp <= w < vp + n then MakeLeaf(pfn + (w - vp), fl) else view[w]
  {
    if n > 0 { MapEachAt(view, vp, pfn, n - 1, fl); }
  }

  ghost predicate PointDone(view0: map<nat, Leaf>, view: map<nat, Leaf>, vp: nat, pfn: nat, n: nat, fl: Flags, w: nat) {
    if vp <= w < vp + n then w in view && view[w].(large := false) == MakeLeaf(pfn + (w - vp), fl)
    else (w in view <==> w in view0) && (w in view0 ==> view[w] == view0[w])
  }

  /** The first `n` pages of a range have been mapped and every other page is as before. */
  ghost predicate RangeDone(view0: map<nat, Leaf>, view: map<nat, Leaf>, vp: nat, pfn: nat, n: nat, fl: Flags) {
    forall w: nat :: PointDone(view0, view, vp, pfn, n, fl, w)
  }

  lemma RangeIsMapEach(view0: map<nat, Leaf>, view: map<nat, Leaf>, vp: nat, pfn: nat, n: nat, fl: Flags)
    requires RangeDone(view0, view, vp, pfn, n, fl)
    ensures Plain(view) == MapEach(Plain(view0), vp, pfn, n, fl)
  {
    MapEachAt(Plain(view0), vp, pfn, n, fl);
    hide MapEach;
    forall w: nat
      ensures w in Plain(view) <==> w in MapEach(Plain(view0), vp, pfn, n, fl)
      ensures w in Plain(view) ==> Plain(view)[w] == MapEach(Plain(view0), vp, pfn, n, fl)[w]
    {
      assert PointDone(view0, view, vp, pfn, n, fl, w);
    }
  }

  /** The loop of `map_range` after `k` pages. */
  ghost predicate RangeSoFar(m0: Mem, f0: set<nat>, m: Mem, f: set<nat>, root: nat, lim: nat, vp: nat, pfn: nat,
                             size: nat, fl: Flags, k: nat)
  {
    && RangeDone(View(m0, root, lim), View(m, root, lim), vp, pfn, k, fl)
    && Ahead(m0, m, root, lim, vp, k) && AtStep(vp, pfn, size, vp + k)
    && |f0| == |f| + RangeTables(m0, root, vp, pfn, size, k)
    && SameUpper(m0, root, m, root, lim) && AccessKept(m0, m, root, lim)
    && Bounded(m0, f0, m, f, Frames(m0, 4, root, lim), Frames(m, 4, root, lim))
  }

  lemma RangeStart(m: Mem, free: set<nat>, root: nat, lim: nat, vp: nat, pfn: nat, size: nat, fl: Flags)
    ensures RangeSoFar(m, free, m, free, root, lim, vp, pfn, size, fl, 0)
  {
    hide View, Frames, HasTable;
    assert free - free == {};
    var view := View(m, root, lim);
    forall w: nat ensures PointDone(view, view, vp, pfn, 0, fl, w) {}
    WiderSelf(m, root, lim);
  }

  lemma NotLargeAhead(view0: map<nat, Leaf>, view: map<nat, Leaf>, vp: nat, pfn: nat, n: nat, fl: Flags)
    requires RangeDone(view0, view, vp, pfn, n, fl)
    ensures IsLarge(view, vp + n) <==> IsLarge(view0, vp + n)
  {
    assert PointDone(view0, view, vp, pfn, n, fl, vp + n);
  }

  /** What the next step takes, and that it may be taken. */
  lemma RangeNext(m0: Mem, f0: set<nat>, m: Mem, f: set<nat>, root: nat, lim: nat, vp: nat, pfn: nat, size: nat,
                  fl: Flags, k: nat, n: nat)
    requires RangeSoFar(m0, f0, m, f, root, lim, vp, pfn, size, fl, k) && k < n == Pages(size) && vp + n <= Limit(lim)
    requires forall w: nat :: vp <= w < vp + n && IsLarge(View(m0, root, lim), w) ==> LargeStep(vp, pfn, size, w)
    ensures LargeStep(vp, pfn, size, vp + k) <==>
      (k + 512) * PAGE_SIZE <= size && (vp + k) % 512 == 0 && (pfn + k) % 512 == 0
    ensures LargeStep(vp, pfn, size, vp + k) ==> k + 512 <= n
    ensures !LargeStep(vp, pfn, size, vp + k) ==> !IsLarge(View(m, root, lim), vp + k)
  {
    StepIsLarge(vp, pfn, size, k);
    PageCount(size, k + 511);
    hide LargeStep, View, Limit, Pages;
    NotLargeAhead(View(m0, root, lim), View(m, root, lim), vp, pfn, k, fl);
  }

  /** A step fails exactly when the range lacks more tables than there were frames. */
  lemma RangeEnds(m0: Mem, f0: set<nat>, m: Mem, f: set<nat>, m': Mem, f': set<nat>, root: nat, lim: nat, vp: nat,
                  pfn: nat, size: nat, fl: Flags, k: nat, n: nat, low: nat)
    requires RangeSoFar(m0, f0, m, f, root, lim, vp, pfn, size, fl, k) && m0.Keys !! f0 && vp + n <= Limit(lim)
    requires 1 <= low <= 2 && k < n && (low == 2 <==> LargeStep(vp, pfn, size, vp + k))
    requires low == 2 ==> (vp + k) % 512 == 0 && k + 512 <= n
    requires SameUpper(m, root, m', root, lim) && AccessKept(m, m', root, lim)
    requires Bounded(m, f, m', f', Frames(m, 4, root, lim), Frames(m', 4, root, lim))
    ensures SameUpper(m0, root, m', root, lim) && AccessKept(m0, m', root, lim)
    ensures Bounded(m0, f0, m', f', Frames(m0, 4, root, lim), Frames(m', 4, root, lim))
    ensures |f| < Missing(m, 4, root, vp + k, low) ==> |f0| < RangeTables(m0, root, vp, pfn, size, n)
    ensures View(m', root, lim) == View(m, root, lim) ==>
      Plain(View(m', root, lim)) == MapEach(Plain(View(m0, root, lim)), vp, pfn, k, fl)
    ensures |f| - |f'| == Missing(m, 4, root, vp + k, low) ==>
      |f0| == |f'| + RangeTables(m0, root, vp, pfn, size, if low == 2 then k + 512 else k + 1)
  {
    hide View, Frames, Limit, Missing, NewTables, LargeStep, RangeDone, Ahead, AtStep, Bounded, SameUpper, Plain,
      MapEach, RangeTables, AccessKept;
    StepNeeds(m0, m, root, lim, vp, k, low);
    RangeStep(m0, f0, m, f, m', f', root, lim);
    RangeIsMapEach(View(m0, root, lim), View(m, root, lim), vp, pfn, k, fl);
    if low == 2 {
      LargeStepTables(m0, root, vp, pfn, size, k, 512);
      RangeTablesMonotone(m0, root, vp, pfn, size, k + 512, n);
    } else {
      SmallStepTables(m0, root, vp, pfn, size, k);
      RangeTablesMonotone(m0, root, vp, pfn, size, k + 1, n);
    }
  }

  lemma RangeSmall(view0: map<nat, Leaf>, view: map<nat, Leaf>, view': map<nat, Leaf>, vp: nat, pfn: nat, n: nat,
                   fl: Flags)
    requires RangeDone(view0, view, vp, pfn, n, fl) && view' == view[vp + n := MakeLeaf(pfn + n, fl)]
    ensures RangeDone(view0, view', vp, pfn, n + 1, fl)
  {
    var k := n + 1;
    forall w: nat ensures PointDone(view0, view', vp, pfn, k, fl, w) {
      assert PointDone(view0, view, vp, pfn, n, fl, w);
    }
  }

  /** The loop gave up after `k` pages: the range lacks more tables than there were frames. */
  ghost predicate RangeFailed(m0: Mem, f0: set<nat>, m: Mem, f: set<nat>, root: nat, lim: nat, vp: nat, pfn: nat,
                              size: nat, fl: Flags, k: nat, n: nat)
  {
    && |f0| < RangeTables(m0, root, vp, pfn, size, n) && f == {}
    && Plain(View(m, root, lim)) == MapEach(Plain(View(m0, root, lim)), vp, pfn, k, fl)
    && SameUpper(m0, root, m, root, lim) && AccessKept(m0, m, root, lim)
    && Bounded(m0, f0, m, f, Frames(m0, 4, root, lim), Frames(m, 4, root, lim))
  }

  lemma SmallDone(m0: Mem, f0: set<nat>, m: Mem, f: set<nat>, m': Mem, f': set<nat>, root: nat, lim: nat, vp: nat,
                  pfn: nat, size: nat, fl: Flags, k: nat)
    requires RangeSoFar(m0, f0, m, f, root, lim, vp, pfn, size, fl, k) && vp + k < Limit(lim)
    requires !LargeStep(vp, pfn, size, vp + k) && TablesGrew(m, m', root, lim, vp + k, 1)
    requires View(m', root, lim) == View(m, root, lim)[vp + k := MakeLeaf(pfn + k, fl)]
    requires |f0| == |f'| + RangeTables(m0, root, vp, pfn, size, k + 1) && SameUpper(m0, root, m', root, lim)
    requires AccessKept(m0, m', root, lim)
    requires Bounded(m0, f0, m', f', Frames(m0, 4, root, lim), Frames(m', 4, root, lim))
    ensures RangeSoFar(m0, f0, m', f', root, lim, vp, pfn, size, fl, k + 1)
  {
    hide View, Frames, Limit, LargeStep, RangeDone, Ahead, AtStep, Bounded, SameUpper, RangeTables, TablesGrew,
      AccessKept;
    RangeSmall(View(m0, root, lim), View(m, root, lim), View(m', root, lim), vp, pfn, k, fl);
    AheadSmall(m0, m, m', root, lim, vp, k);
    AtStepNext(vp, pfn, size, vp + k);
  }

  lemma RangeLarge(view0: map<nat, Leaf>, view: map<nat, Leaf>, view': map<nat, Leaf>, vp: nat, pfn: nat, n: nat,
                   fl: Flags)
    requires RangeDone(view0, view, vp, pfn, n, fl) && (vp + n) % 512 == 0
    requires view' == view + LargePages(vp + n, MakePte(pfn + n, fl, true))
    ensures RangeDone(view0, view', vp, pfn, n + 512, fl)
  {
    var x := MakePte(pfn + n, fl, true);
    AlignedLarge(vp + n, x);
    hide LargePages;
    var k := n + 512;
    forall w: nat ensures PointDone(view0, view', vp, pfn, k, fl, w) {
      assert PointDone(view0, view, vp, pfn, n, fl, w);
    }
  }

  lemma LargeDone(m0: Mem, f0: set<nat>, m: Mem, f: set<nat>, m': Mem, f': set<nat>, root: nat, lim: nat, vp: nat,
                  pfn: nat, size: nat, fl: Flags, k: nat)
    requires RangeSoFar(m0, f0, m, f, root, lim, vp, pfn, size, fl, k) && vp + k < Limit(lim) && (vp + k) % 512 == 0
    requires LargeGrew(m, m', root, lim, vp + k)
    requires View(m', root, lim) == View(m, root, lim) + LargePages(vp + k, MakePte(pfn + k, fl, true))
    requires |f0| == |f'| + RangeTables(m0, root, vp, pfn, size, k + 512) && SameUpper(m0, root, m', root, lim)
    requires AccessKept(m0, m', root, lim)
    requires Bounded(m0, f0, m', f', Frames(m0, 4, root, lim), Frames(m', 4, root, lim))
    ensures RangeSoFar(m0, f0, m', f', root, lim, vp, pfn, size, fl, k + 512)
  {
    hide View, Frames, Limit, RangeDone, Ahead, AtStep, Bounded, SameUpper, RangeTables, LargeGrew, LargePages,
      AccessKept;
    RangeLarge(View(m0, root, lim), View(m, root, lim), View(m', root, lim), vp, pfn, k, fl);
    AheadLarge(m0, m, m', root, lim, vp, k);
    AtSlotStart(vp, pfn, size, vp + k);
  }

  lemma RangeComplete(m0: Mem, f0: set<nat>, m: Mem, f: set<nat>, root: nat, lim: nat, vp: nat, pfn: nat, size: nat,
                      fl: Flags, n: nat)
    requires RangeSoFar(m0, f0, m, f, root, lim, vp, pfn, size, fl, n)
    ensures RangeTables(m0, root, vp, pfn, size, n) <= |f0| && SameUpper(m0, root, m, root, lim)
    ensures AccessKept(m0, m, root, lim)
    ensures Bounded(m0, f0, m, f, Frames(m0, 4, root, lim), Frames(m, 4, root, lim))
    ensures Plain(View(m, root, lim)) == MapEach(Plain(View(m0, root, lim)), vp, pfn, n, fl)
  {
    hide View, Frames, RangeDone, Ahead, AtStep, Bounded, SameUpper, Plain, MapEach, RangeTables, AccessKept;
    RangeIsMapEach(View(m0, root, lim), View(m, root, lim), vp, pfn, n, fl);
  }

  lemma GrewIsBounded(m: Mem, free: set<nat>, m': Mem, free': set<nat>, root: nat, lim: nat)
    requires TreeGrew(m, free, m', free', root, lim)
    ensures SameUpper(m, root, m', root, lim) && TreeOk(m', 4, root, lim) && WiderLinks(m, m', root, lim)
    ensures Bounded(m, free, m', free', Frames(m, 4, root, lim), Frames(m', 4, root, lim))
  {
    hide TreeOk, Frames, PathRights;
    SameIsWider(m, m', root, lim);
  }

  lemma PageSteps(x: nat, k: nat)
    requires x % PAGE_SIZE == 0
    ensures (x + PAGE_SIZE * k) / PAGE_SIZE == x / PAGE_SIZE + k && (x + PAGE_SIZE * k) % PAGE_SIZE == 0
  {
  }

  lemma WithinPage(virt: nat, k: nat, r: nat)
    requires virt % PAGE_SIZE == 0 && r < PAGE_SIZE
    ensures PageOf(virt + (PAGE_SIZE * k + r)) == PageOf(virt + PAGE_SIZE * k)
    ensures (virt + (PAGE_SIZE * k + r)) % PAGE_SIZE == r
  {
    PageSteps(virt, k);
    QuotientUnique(virt + (PAGE_SIZE * k + r), PAGE_SIZE, (virt + PAGE_SIZE * k) / PAGE_SIZE, r);
  }

  lemma PageBytes(phys: nat, k: nat)
    requires phys % PAGE_SIZE == 0 && phys / PAGE_SIZE + k < 0x100_0000_0000
    ensures (PfnOf(phys) + k) * PAGE_SIZE == phys + PAGE_SIZE * k
  {
  }

  lemma LargeAligned(x: nat)
    requires x % PAGE_SIZE == 0 && x / PAGE_SIZE < 0x100_0000_0000
    ensures x % 0x20_0000 == 0 <==> PfnOf(x) % 512 == 0
  {
    Shifts(x);
  }

  lemma Wrap36(p: nat, k: nat)
    requires p % 0x10_0000_0000 + k < 0x10_0000_0000
    ensures (p + k) % 0x10_0000_0000 == p % 0x10_0000_0000 + k
  {
  }

  lemma Wrap40(p: nat, k: nat)
    requires p + k < 0x100_0000_0000
    ensures (p + k) % 0x100_0000_0000 == p % 0x100_0000_0000 + k
  {
  }

  lemma RangeAddresses(virt: nat, phys: nat, k: nat, n: nat, lim: nat)
    requires virt % PAGE_SIZE == 0 && phys % PAGE_SIZE == 0 && k < n
    requires PageOf(virt) + n <= Limit(lim) && phys / PAGE_SIZE + n <= 0x100_0000_0000
    ensures PageOf(virt + PAGE_SIZE * k) == PageOf(virt) + k < Limit(lim)
    ensures PfnOf(phys + PAGE_SIZE * k) == PfnOf(phys) + k
    ensures (virt + PAGE_SIZE * k) % 0x20_0000 == 0 <==> (PageOf(virt) + k) % 512 == 0
    ensures (phys + PAGE_SIZE * k) % 0x20_0000 == 0 <==> (PfnOf(phys) + k) % 512 == 0
  {
    PageSteps(virt, k);
    PageSteps(phys, k);
    hide Limit;
    LargeAligned(phys + PAGE_SIZE * k);
    PageIndices(virt + PAGE_SIZE * k);
    LimitBound(lim);
    Wrap36(virt / PAGE_SIZE, k);
    Wrap40(phys / PAGE_SIZE, k);
  }

  /** After mapping `n` pages of a range, the address `i` bytes into it translates to `i` bytes into the
      physical range. */
  lemma RangeTranslates(m: Mem, m': Mem, root: nat, lim: nat, virt: nat, phys: nat, n: nat, fl: Flags, i: nat)
    requires TreeOk(m', 4, root, lim) && virt % PAGE_SIZE == 0 && phys % PAGE_SIZE == 0
    requires PageOf(virt) + n <= Limit(lim) && phys / PAGE_SIZE + n <= 0x100_0000_0000
    requires Plain(View(m', root, lim)) == MapEach(Plain(View(m, root, lim)), PageOf(virt), PfnOf(phys), n, fl)
    requires i < PAGE_SIZE * n
    ensures Translate(m', root, virt + i) == Some(phys + i)
  {
    hide TreeOk, View, Translate, Limit, MapEach;
    var k, r := i / PAGE_SIZE, i % PAGE_SIZE;
    RangeAddresses(virt, phys, k, n, lim);
    WithinPage(virt, k, r);
    MapEachAt(Plain(View(m, root, lim)), PageOf(virt), PfnOf(phys), n, fl);
    assert PageOf(virt) + k in Plain(View(m', root, lim));
    TranslateIsView(m', root, lim, virt + i);
    PageBytes(phys, k);
  }

  /** In a space without restricting links and with aligned 2 MiB pages, the processor gives the pages of the
      range the rights asked for. */
  lemma RangeAccess(m: Mem, m': Mem, root: nat, lim: nat, virt: nat, pfn: nat, n: nat, fl: Flags, i: nat)
    requires TreeOk(m', 4, root, lim) && virt % PAGE_SIZE == 0 && PageOf(virt) + n <= Limit(lim)
    requires OpenLinks(m, root, lim) && LeavesAligned(View(m, root, lim)) && AccessKept(m, m', root, lim)
    requires Plain(View(m', root, lim)) == MapEach(Plain(View(m, root, lim)), PageOf(virt), pfn, n, fl)
    requires i < PAGE_SIZE * n
    ensures Access(m', root, virt + i) == Some(FlagRights(fl))
  {
    hide TreeOk, View, Access, Limit, MapEach, WiderLinks, OpenLinks;
    var k, r := i / PAGE_SIZE, i % PAGE_SIZE;
    LimitBound(lim);
    RangeAddresses(virt, 0, k, n, lim);
    WithinPage(virt, k, r);
    MapEachAt(Plain(View(m, root, lim)), PageOf(virt), pfn, n, fl);
    assert PageOf(virt) + k in Plain(View(m', root, lim));
    OpenStays(m, m', root, lim);
    assert FrameAligned(View(m', root, lim), PageOf(virt) + k);
    OpenAccess(m', root, lim, virt + i);
  }

  /** Every other address translates as before; outside the tree's slots, as long as the tables that its
      walk visits are no tables of the tree. */
  lemma RangeOthers(m: Mem, m': Mem, free: set<nat>, free': set<nat>, root: nat, lim: nat, vp: nat, pfn: nat, n: nat,
                    fl: Flags, virt: nat)
    requires TreeOk(m, 4, root, lim) && TreeOk(m', 4, root, lim) && SameUpper(m, root, m', root, lim)
    requires Bounded(m, free, m', free', Frames(m, 4, root, lim), Frames(m', 4, root, lim))
    requires Plain(View(m', root, lim)) == MapEach(Plain(View(m, root, lim)), vp, pfn, n, fl) && vp + n <= Limit(lim)
    requires Limit(lim) <= PageOf(virt) ==> WalkOutside(m, root, PageOf(virt), Frames(m, 4, root, lim))
    requires !(vp <= PageOf(virt) < vp + n)
    ensures Translate(m', root, virt) == Translate(m, root, virt)
  {
    hide TreeOk, View, Translate, Limit, MapEach, PageOf, Frames, TableOn;
    if PageOf(virt) < Limit(lim) {
      var view, view', w := View(m, root, lim), View(m', root, lim), PageOf(virt);
      MapEachAt(Plain(view), vp, pfn, n, fl);
      assert w in Plain(view') <==> w in Plain(view);
      assert w in view' ==> Plain(view')[w] == Plain(view)[w];
      TranslateIsView(m, root, lim, virt);
      TranslateIsView(m', root, lim, virt);
    } else {
      UpperTranslates(m, root, m', root, lim, virt);
    }
  }
}
