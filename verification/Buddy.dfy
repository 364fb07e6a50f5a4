/** The buddy allocator of page frames: free lists threaded through the free frames themselves,
    splitting on allocation and merging on free. */
module Buddy {
  import opened Basics
  import opened Blocks
  import opened LinkedLists
  import opened Regions

  /** `x ^ m` for a power of two `m`: the bit of weight `m` is toggled. */
  function FlipBit(x: nat, m: nat): int
    requires m > 0
  {
    if x / m % 2 == 0 then x + m else x - m
  }

  /** Kernel pointer to frame `f` in the direct map of physical memory. */
  function Ptr(hhdm: nat, f: nat): nat {
    hhdm + PAGE_SIZE * f
  }

  predicate IsPtr(hhdm: nat, p: nat) {
    p >= hhdm && (p - hhdm) % PAGE_SIZE == 0
  }

  lemma ScaledQuotient(f: nat, p: nat, q: nat, r: nat)
    requires p > 0 && r < p && f == q * p + r
    ensures PAGE_SIZE * f / (PAGE_SIZE * p) == q && PAGE_SIZE * f % (PAGE_SIZE * p) == PAGE_SIZE * r
  {
    assert q * (PAGE_SIZE * p) == PAGE_SIZE * (q * p);
    QuotientUnique(PAGE_SIZE * f, PAGE_SIZE * p, q, PAGE_SIZE * r);
  }

  /** Alignment and buddies computed on byte addresses are those of the frame numbers. */
  lemma ScaledBlock(f: nat, o: nat, phys: nat)
    requires phys == PAGE_SIZE * f
    ensures phys % (PAGE_SIZE * Pow2(o)) == 0 <==> Aligned(o, f)
    ensures FlipBit(phys, PAGE_SIZE * Pow2(o)) == PAGE_SIZE * BuddyOf(o, f)
  {
    var q := BlockNo(o, f);
    var r := f - q * Pow2(o);
    BlockBounds(o, f);
    ScaledQuotient(f, Pow2(o), q, r);
  }

  lemma ScaledBuddy(f: nat, o: nat, phys: nat)
    requires phys == PAGE_SIZE * f
    ensures FlipBit(phys, PAGE_SIZE * Pow2(o)) == PAGE_SIZE * BuddyOf(o, f)
  {
    hide FlipBit, BuddyOf, Aligned;
    ScaledBlock(f, o, phys);
  }

  // ----- free lists hold exactly the free blocks

  ghost predicate AgreeAt(hhdm: nat, lists: seq<seq<nat>>, t: Tags, o: nat, f: nat) {
    InFamily(lists, o, Ptr(hhdm, f)) <==> FreeBlock(t, o, f)
  }

  ghost predicate PtrAt(hhdm: nat, lists: seq<seq<nat>>, o: nat, p: nat) {
    InFamily(lists, o, p) ==> IsPtr(hhdm, p)
  }

  /** List `o` holds exactly the first frames of the free blocks of order `o`. */
  ghost predicate Agrees(hhdm: nat, lists: seq<seq<nat>>, t: Tags) {
    && |lists| == MAX_ORDER + 1
    && (forall o: nat, f: nat :: AgreeAt(hhdm, lists, t, o, f))
    && (forall o: nat, p: nat :: PtrAt(hhdm, lists, o, p))
  }

  ghost predicate AddsAt(t: Tags, t': Tags, o: nat, f: nat, k: nat, g: nat) {
    FreeBlock(t', k, g) <==> FreeBlock(t, k, g) || (k == o && g == f)
  }

  /** Between `t` and `t'` exactly one free block appeared: the one of order `o` at `f`. */
  ghost predicate Adds(t: Tags, t': Tags, o: nat, f: nat) {
    forall k: nat, g: nat :: AddsAt(t, t', o, f, k, g)
  }

  ghost predicate RemovesAt(t: Tags, t': Tags, o: nat, f: nat, k: nat, g: nat) {
    FreeBlock(t', k, g) <==> FreeBlock(t, k, g) && !(k == o && g == f)
  }

  /** Between `t` and `t'` exactly one free block disappeared: the one of order `o` at `f`. */
  ghost predicate Removes(t: Tags, t': Tags, o: nat, f: nat) {
    forall k: nat, g: nat :: RemovesAt(t, t', o, f, k, g)
  }

  lemma AgreesPush(hhdm: nat, lists: seq<seq<nat>>, t: Tags, t': Tags, o: nat, f: nat)
    requires Agrees(hhdm, lists, t) && Adds(t, t', o, f) && o <= MAX_ORDER
    ensures Agrees(hhdm, lists[o := [Ptr(hhdm, f)] + lists[o]], t')
  {
    hide FreeBlock;
    var p := Ptr(hhdm, f);
    var lists' := lists[o := [p] + lists[o]];
    forall k: nat, g: nat ensures AgreeAt(hhdm, lists', t', k, g) {
      assert AgreeAt(hhdm, lists, t, k, g) && AddsAt(t, t', o, f, k, g);
    }
    forall k: nat, q: nat ensures PtrAt(hhdm, lists', k, q) {
      assert PtrAt(hhdm, lists, k, q);
    }
  }

  lemma AgreesCut(hhdm: nat, lists: seq<seq<nat>>, t: Tags, t': Tags, o: nat, f: nat, i: nat)
    requires Agrees(hhdm, lists, t) && Removes(t, t', o, f) && o <= MAX_ORDER
    requires i < |lists[o]| && lists[o][i] == Ptr(hhdm, f) && Distinct(lists[o])
    ensures Agrees(hhdm, lists[o := Cut(lists[o], i)], t')
  {
    hide FreeBlock, Distinct, Cut;
    var lists' := lists[o := Cut(lists[o], i)];
    forall k: nat, g: nat ensures AgreeAt(hhdm, lists', t', k, g) {
      assert AgreeAt(hhdm, lists, t, k, g) && RemovesAt(t, t', o, f, k, g);
      CutMembers(lists[o], i, Ptr(hhdm, g));
    }
    forall k: nat, q: nat ensures PtrAt(hhdm, lists', k, q) {
      assert PtrAt(hhdm, lists, k, q);
      CutMembers(lists[o], i, q);
    }
  }

  lemma TakeRemoves(t: Tags, o: nat, f: nat)
    requires Tiled(t) && FreeBlock(t, o, f)
    ensures Removes(t, Label(t, o, f, Tag(o, false)), o, f)
  {
    var t' := Label(t, o, f, Tag(o, false));
    forall k: nat, g: nat ensures RemovesAt(t, t', o, f, k, g) {
      assert Uniform(t, f, g);
      if k == o && Aligned(o, g) { NewBlockBase(t, f, o, g); InBlock(o, f, g); }
    }
  }

  lemma SetFreeAdds(t: Tags, o: nat, f: nat)
    requires Tiled(t) && LiveBlock(t, o, f)
    ensures Adds(t, Label(t, o, f, Tag(o, true)), o, f)
  {
    var t' := Label(t, o, f, Tag(o, true));
    forall k: nat, g: nat ensures AddsAt(t, t', o, f, k, g) {
      assert Uniform(t, f, g);
      if k == o && Aligned(o, g) { NewBlockBase(t, f, o, g); InBlock(o, f, g); }
    }
  }

  lemma SplitAdds(t: Tags, o: nat, f: nat)
    requires Tiled(t) && LiveBlock(t, o + 1, f)
    ensures Adds(t, Split(t, f, o), o, f + Pow2(o))
    ensures f + Pow2(o) in t && !t[f + Pow2(o)].free
  {
    var t' := Split(t, f, o);
    var u := f + Pow2(o);
    Shift(o, f);
    assert Uniform(t, f, u);
    forall k: nat, g: nat ensures AddsAt(t, t', o, u, k, g) {
      assert Uniform(t, f, g);
      assert SameBlock(o, f, g) ==> SameBlock(o + 1, f, g);
      if k == o && Aligned(o, g) { NewBlockBase(t, u, o, g); InBlock(o, u, g); }
    }
  }

  lemma MergeRemoves(t: Tags, o: nat, f: nat)
    requires Tiled(t) && o < MAX_ORDER && LiveBlock(t, o, f) && FreeBlock(t, o, BuddyOf(o, f))
    ensures Removes(t, Label(t, o + 1, f, Tag(o + 1, false)), o, BuddyOf(o, f))
  {
    var b := BuddyOf(o, f);
    var t' := Label(t, o + 1, f, Tag(o + 1, false));
    BuddyFacts(o, f);
    forall k: nat, g: nat ensures RemovesAt(t, t', o, b, k, g) {
      assert Uniform(t, f, g) && Uniform(t, b, g);
      if k == o && Aligned(o, g) { NewBlockBase(t, b, o, g); InBlock(o, b, g); }
    }
  }

  lemma AddBlockAdds(t: Tags, o: nat, f: nat)
    requires Tiled(t) && o <= MAX_ORDER && Aligned(o, f) && Unmanaged(t, f, f + Pow2(o))
    ensures Adds(t, AddBlock(t, f, o), o, f)
  {
    var t' := AddBlock(t, f, o);
    forall k: nat, g: nat ensures AddsAt(t, t', o, f, k, g) {
      if k == o && Aligned(o, g) { NewBlockBase(t, f, o, g); }
    }
  }

  // ----- page counts

  /** The number of frames on the first `n` lists. */
  function Weight(lists: seq<seq<nat>>, n: nat): nat
    requires n <= |lists|
  {
    if n == 0 then 0 else Weight(lists, n - 1) + |lists[n - 1]| * Pow2(n - 1)
  }

  lemma Successor(n: nat, p: nat)
    ensures (n + 1) * p == n * p + p
  {
  }

  lemma {:induction false} WeightUpdate(lists: seq<seq<nat>>, o: nat, s: seq<nat>, n: nat)
    requires o < |lists| && n <= |lists| && |s| == |lists[o]| + 1
    ensures Weight(lists[o := s], n) == Weight(lists, n) + (if o < n then Pow2(o) else 0)
  {
    if n > 0 {
      WeightUpdate(lists, o, s, n - 1);
      if o == n - 1 {
        Successor(|lists[o]|, Pow2(o));
      }
    }
  }

  lemma {:induction false} IntervalSize(f: nat, n: nat)
    ensures |Interval(f, f + n)| == n
    decreases n
  {
    if n == 0 {
      assert Interval(f, f + n) == {};
    } else {
      IntervalSize(f, n - 1);
      assert Interval(f, f + n) == Interval(f, f + n - 1) + {f + n - 1};
    }
  }

  /** A block of order `o` has 2^o frames. */
  lemma BlockSize(t: Tags, o: nat, f: nat)
    requires Tiled(t) && f in t && t[f].order == o && Aligned(o, f)
    ensures BlockFrames(t, o, f) == Interval(f, f + Pow2(o)) && |BlockFrames(t, o, f)| == Pow2(o)
  {
    IntervalSize(f, Pow2(o));
    forall g: nat ensures g in BlockFrames(t, o, f) <==> g in Interval(f, f + Pow2(o)) {
      InBlock(o, f, g);
      assert Uniform(t, f, g);
    }
  }

  // ----- the allocator

  /** A link slot of a list: its head, or the link word of a node. */
  datatype Slot = Head | Next(node: nat)

  /** Address `p` lies in one of the given frames. */
  predicate Inside(hhdm: nat, p: nat, frames: set<nat>) {
    p >= hhdm && (p - hhdm) / PAGE_SIZE in frames
  }

  lemma UnmanagedStart(t: Tags, f: nat, end: nat)
    requires Unmanaged(t, f, end) && f < end
    ensures f !in t
  {
    assert f in Interval(f, end);
  }

  lemma NewBlock(t: Tags, f: nat, o: nat, end: nat)
    requires Tiled(t) && o <= MAX_ORDER && Aligned(o, f) && Unmanaged(t, f, end) && f + Pow2(o) <= end
    ensures f !in t
    ensures Tiled(AddBlock(t, f, o)) && Adds(t, AddBlock(t, f, o), o, f)
  {
    hide *;
    UnmanagedPrefix(t, f, f + Pow2(o), end);
    UnmanagedStart(t, f, f + Pow2(o));
    AddBlockAdds(t, o, f);
    AddBlockTiled(t, f, o);
  }

  lemma SumSizes(a: set<nat>, b: set<nat>)
    requires a !! b
    ensures |a + b| == |a| + |b|
  {
  }

  lemma ExtendsCounts(t: Tags, s: Tags, f: nat, n: nat)
    requires Extends(t, s, f, f + n) && Unmanaged(t, f, f + n)
    ensures |s| == |t| + n && |FreeFrames(s)| == |FreeFrames(t)| + n
  {
    IntervalSize(f, n);
    var added := Interval(f, f + n);
    assert FreeFrames(s) == FreeFrames(t) + added;
    SumSizes(t.Keys, added);
    SumSizes(FreeFrames(t), added);
    assert |s| == |s.Keys| && |t| == |t.Keys|;
  }

  lemma NewBlockCounts(t: Tags, f: nat, o: nat, end: nat)
    requires Unmanaged(t, f, end) && f + Pow2(o) <= end
    ensures Unmanaged(AddBlock(t, f, o), f + Pow2(o), end)
    ensures |AddBlock(t, f, o)| == |t| + Pow2(o)
    ensures |FreeFrames(AddBlock(t, f, o))| == |FreeFrames(t)| + Pow2(o)
  {
    hide *;
    UnmanagedPrefix(t, f, f + Pow2(o), end);
    AddBlockExtends(t, f, o);
    ExtendsUnmanaged(t, AddBlock(t, f, o), f, f + Pow2(o), end);
    ExtendsCounts(t, AddBlock(t, f, o), f, Pow2(o));
  }

  /** The frames handed out one by one. */
  ghost function PageFrames(t: Tags): set<nat> {
    set f | f in t && t[f] == Tag(0, false)
  }

  ghost predicate OneTaken(t: Tags, t': Tags, f: nat) {
    && f in FreeFrames(t) && FreeFrames(t') == FreeFrames(t) - {f} && PageFrames(t') == PageFrames(t) + {f}
    && (forall g :: g in t && !t[g].free ==> g in t' && t'[g] == t[g])
  }

  ghost predicate OneGiven(t: Tags, t': Tags, f: nat) {
    && f !in FreeFrames(t) && FreeFrames(t') == FreeFrames(t) + {f} && PageFrames(t') == PageFrames(t) - {f}
    && (forall g :: g in t && !t[g].free && g != f ==> g in t' && t'[g] == t[g])
  }

  lemma FitsFree(t: Tags)
    ensures (forall g: nat :: !Fits(t, 0, g)) <==> FreeFrames(t) == {}
  {
    assert forall g: nat :: Fits(t, 0, g) <==> g in FreeFrames(t);
  }

  lemma TakeOne(t: Tags, f: nat)
    requires Tiled(t) && f in t && FreeBlock(t, t[f].order, f)
    ensures OneTaken(t, AllocTags(t, f, 0), f)
  {
    AllocKeeps(t, f, 0);
    assert BlockFrames(t, 0, f) == {f};
    var r := AllocTags(t, f, 0);
    hide AllocTags;
    forall g ensures g in PageFrames(r) <==> g in PageFrames(t) + {f} {
      assert g in t && g != f ==> (t[g].free <==> g in FreeFrames(t)) && (r[g].free <==> g in FreeFrames(r));
    }
  }

  lemma GiveOne(t: Tags, f: nat)
    requires Tiled(t) && f in PageFrames(t)
    ensures LiveBlock(t, 0, f) && OneGiven(t, FreeTags(t, f, 0), f)
  {
    FreeKeeps(t, f, 0);
    assert BlockFrames(t, 0, f) == {f};
    var r := FreeTags(t, f, 0);
    hide FreeTags;
    forall g ensures g in PageFrames(r) <==> g in PageFrames(t) - {f} {
      assert g in t && g != f ==> (t[g].free <==> g in FreeFrames(t)) && (r[g].free <==> g in FreeFrames(r));
    }
  }

  /** The first whole page of a region, and the one after its last. */
  function FirstPage(base: nat): nat {
    AlignUp(base, PAGE_SIZE) / PAGE_SIZE
  }

  function EndPage(base: nat, size: nat): nat {
    AlignDown(base + size, PAGE_SIZE) / PAGE_SIZE
  }

  lemma PageCeiling(x: nat, f: nat)
    ensures AlignUp(x, PAGE_SIZE) / PAGE_SIZE <= f <==> x <= PAGE_SIZE * f
  {
    assert AlignUp(x, PAGE_SIZE) / PAGE_SIZE == (x + PAGE_SIZE - 1) / PAGE_SIZE;
  }

  lemma PageFloor(x: nat, f: nat)
    ensures f < AlignDown(x, PAGE_SIZE) / PAGE_SIZE <==> PAGE_SIZE * (f + 1) <= x
  {
    assert AlignDown(x, PAGE_SIZE) / PAGE_SIZE == x / PAGE_SIZE;
  }

  /** They bound exactly the pages that lie whole within the region. */
  lemma WholeInRegion(base: nat, size: nat, f: nat)
    ensures FirstPage(base) <= f < EndPage(base, size) <==> base <= PAGE_SIZE * f && PAGE_SIZE * (f + 1) <= base + size
  {
    hide AlignUp, AlignDown;
    PageCeiling(base, f);
    PageFloor(base + size, f);
  }

  lemma RegionPages(base: nat, size: nat)
    ensures AlignUp(base, PAGE_SIZE) == PAGE_SIZE * FirstPage(base)
    ensures AlignDown(base + size, PAGE_SIZE) == PAGE_SIZE * EndPage(base, size)
  {
  }

  lemma StartInside(base: nat, size: nat, f: nat)
    requires FirstPage(base) <= f < EndPage(base, size)
    ensures f in Interval(FirstPage(base), EndPage(base, size))
  {
  }

  lemma SeedDone(t: Tags, f: nat, end: nat, top: nat)
    requires f >= end
    ensures SeedTags(t, f, end, top) == t
  {
  }

  lemma ListMeansFree(hhdm: nat, lists: seq<seq<nat>>, t: Tags, o: nat, f: nat)
    requires Agrees(hhdm, lists, t) && o <= MAX_ORDER
    ensures Ptr(hhdm, f) in lists[o] <==> FreeBlock(t, o, f)
  {
    assert AgreeAt(hhdm, lists, t, o, f);
  }

  lemma FrameOnList(hhdm: nat, lists: seq<seq<nat>>, t: Tags, o: nat, i: nat) returns (f: nat)
    requires Agrees(hhdm, lists, t) && o <= MAX_ORDER && i < |lists[o]|
    ensures lists[o][i] == Ptr(hhdm, f) && FreeBlock(t, o, f)
  {
    var p := lists[o][i];
    assert InFamily(lists, o, p);
    assert PtrAt(hhdm, lists, o, p);
    f := (p - hhdm) / PAGE_SIZE;
    assert AgreeAt(hhdm, lists, t, o, f);
  }

  lemma ListInside(hhdm: nat, lists: seq<seq<nat>>, t: Tags, o: nat)
    requires Agrees(hhdm, lists, t) && o <= MAX_ORDER
    ensures forall p :: p in lists[o] ==> Inside(hhdm, p, FreeFrames(t))
  {
    forall p | p in lists[o] ensures Inside(hhdm, p, FreeFrames(t)) {
      var i :| 0 <= i < |lists[o]| && lists[o][i] == p;
      var f := FrameOnList(hhdm, lists, t, o, i);
    }
  }

  lemma OwnFrame(t: Tags, o: nat, f: nat)
    requires f in t
    ensures f in BlockFrames(t, o, f)
  {
  }

  lemma FreeStep(t: Tags, f: nat, o: nat)
    requires Tiled(t) && LiveBlock(t, o, f) && o <= MAX_ORDER
    ensures o < MAX_ORDER && FreeBlock(t, o, BuddyOf(o, f)) ==>
      FreeTags(t, f, o) ==
        FreeTags(Label(t, o + 1, f, Tag(o + 1, false)), if f < BuddyOf(o, f) then f else BuddyOf(o, f), o + 1)
    ensures o == MAX_ORDER || !FreeBlock(t, o, BuddyOf(o, f)) ==> FreeTags(t, f, o) == Label(t, o, f, Tag(o, true))
  {
    BuddyFacts(o, f);
  }

  /** Every word outside the given frames has its old value. */
  ghost predicate Untouched(hhdm: nat, mem: map<nat, nat>, mem': map<nat, nat>, frames: set<nat>) {
    forall p :: p in mem && !Inside(hhdm, p, frames) ==> p in mem' && mem'[p] == mem[p]
  }

  lemma UntouchedTrans(hhdm: nat, m0: map<nat, nat>, m1: map<nat, nat>, m2: map<nat, nat>, all: set<nat>,
                       part: set<nat>)
    requires Untouched(hhdm, m0, m1, all) && Untouched(hhdm, m1, m2, part) && part <= all
    ensures Untouched(hhdm, m0, m2, all)
  {
  }

  lemma FreeCounts(t: Tags, f: nat, o: nat)
    requires Tiled(t) && o <= MAX_ORDER && LiveBlock(t, o, f)
    ensures |FreeTags(t, f, o)| == |t|
    ensures |FreeFrames(FreeTags(t, f, o))| == |FreeFrames(t)| + Pow2(o)
  {
    FreeKeeps(t, f, o);
    BlockSize(t, o, f);
    assert |FreeTags(t, f, o).Keys| == |t.Keys|;
    forall g | g in BlockFrames(t, o, f) ensures g !in FreeFrames(t) {
      assert Uniform(t, f, g);
    }
  }

  lemma AgreesSize(hhdm: nat, lists: seq<seq<nat>>, t: Tags)
    requires Agrees(hhdm, lists, t)
    ensures |lists| == MAX_ORDER + 1
  {
  }

  /** Whatever owners write into frames that are not free, every free list stays intact. */
  lemma OwnerWritesKeepLists(hhdm: nat, mem: map<nat, nat>, mem': map<nat, nat>, heads: seq<nat>,
                             lists: seq<seq<nat>>, t: Tags, owned: set<nat>)
    requires Family(mem, heads, lists) && Agrees(hhdm, lists, t)
    requires Untouched(hhdm, mem, mem', owned) && owned !! FreeFrames(t)
    ensures Family(mem', heads, lists)
  {
    hide Family, Agrees;
    AgreesSize(hhdm, lists, t);
    forall o: nat, p: nat | InFamily(lists, o, p) && p in mem ensures p in mem' && mem'[p] == mem[p] {
      ListInside(hhdm, lists, t, o);
    }
    FamilyFrame(mem, mem', heads, lists);
  }

  /** `phys` is the low end of a smallest sufficient free block of `t`, and `t'` is `t` with 2^order
      frames from there handed out. */
  ghost predicate Granted(t: Tags, order: nat, phys: nat, t': Tags) {
    var f := phys / PAGE_SIZE;
    && phys == PAGE_SIZE * f && f in t
    && FreeBlock(t, t[f].order, f) && order <= t[f].order
    && (forall g: nat :: Fits(t, order, g) ==> t[f].order <= t[g].order)
    && t' == AllocTags(t, f, order)
  }

  lemma FirstFit(hhdm: nat, lists: seq<seq<nat>>, t: Tags, order: nat, found: nat)
    requires Agrees(hhdm, lists, t) && Tiled(t) && order <= found
    requires found <= MAX_ORDER ==> lists[found] != []
    requires forall o :: order <= o < found && o <= MAX_ORDER ==> lists[o] == []
    ensures forall g: nat :: Fits(t, order, g) ==> found <= t[g].order <= MAX_ORDER
    ensures found <= MAX_ORDER ==> exists g: nat :: Fits(t, order, g)
  {
    forall g: nat | Fits(t, order, g) ensures found <= t[g].order <= MAX_ORDER {
      var f := FirstFrame(t[g].order, g);
      assert Uniform(t, g, f);
      assert AgreeAt(hhdm, lists, t, t[g].order, f);
    }
    if found <= MAX_ORDER {
      var f := FrameOnList(hhdm, lists, t, found, 0);
      assert Fits(t, order, f);
    }
  }

  lemma AllocComplete(t: Tags, order: nat)
    requires Tiled(t)
    ensures Coalesced(t) && order <= MAX_ORDER ==>
      ((forall g: nat :: !Fits(t, order, g)) <==> (forall i: nat :: !WhollyFree(t, order, i)))
  {
    if Coalesced(t) && order <= MAX_ORDER {
      FitsIffFreeRun(t, order);
    }
  }

  lemma TakenWhole(t: Tags, o: nat, f: nat)
    requires Tiled(t) && FreeBlock(t, o, f)
    ensures f in Label(t, o, f, Tag(o, false)) && LiveBlock(Label(t, o, f, Tag(o, false)), o, f)
  {
  }

  lemma UpperHalfFree(t: Tags, k: nat, o: nat, f: nat, hhdm: nat)
    requires Tiled(t) && FreeBlock(t, k, f) && o < k
    ensures Inside(hhdm, Ptr(hhdm, f + Pow2(o)), FreeFrames(t))
  {
    AlignedDown(k, o + 1, f);
    Shift(o, f);
    SameUp(o + 1, k, f, f + Pow2(o));
    assert Uniform(t, f, f + Pow2(o));
  }

  lemma UpperHalvesFree(t: Tags, k: nat, order: nat, f: nat, hhdm: nat)
    requires Tiled(t) && FreeBlock(t, k, f)
    ensures forall o: nat :: order <= o < k ==> Inside(hhdm, Ptr(hhdm, f + Pow2(o)), FreeFrames(t))
  {
    hide Inside, Tiled;
    forall o: nat | order <= o < k ensures Inside(hhdm, Ptr(hhdm, f + Pow2(o)), FreeFrames(t)) {
      UpperHalfFree(t, k, o, f, hhdm);
    }
  }

  lemma TwoHalves(o: nat)
    ensures Pow2(o + 1) == Pow2(o) + Pow2(o)
  {
  }

  lemma UntouchedOne(hhdm: nat, m0: map<nat, nat>, m1: map<nat, nat>, m2: map<nat, nat>, frames: set<nat>, q: nat)
    requires Untouched(hhdm, m0, m1, frames) && Inside(hhdm, q, frames)
    requires forall p :: p in m1 && p != q ==> p in m2 && m2[p] == m1[p]
    ensures Untouched(hhdm, m0, m2, frames)
  {
  }

  lemma UntouchedSame(hhdm: nat, mem: map<nat, nat>, frames: set<nat>)
    ensures Untouched(hhdm, mem, mem, frames)
  {
  }

  /** Handing out a block takes 2^order frames off the free set. */
  lemma AllocCounts(t: Tags, f: nat, o: nat)
    requires Tiled(t) && f in t && t[f].free && o <= t[f].order && Aligned(t[f].order, f)
    ensures Tiled(AllocTags(t, f, o)) && |AllocTags(t, f, o)| == |t|
    ensures |FreeFrames(AllocTags(t, f, o))| + Pow2(o) == |FreeFrames(t)|
  {
    AllocKeeps(t, f, o);
    var r := AllocTags(t, f, o);
    BlockSize(r, o, f);
    assert BlockFrames(r, o, f) == BlockFrames(t, o, f);
    assert |r.Keys| == |t.Keys|;
  }

  lemma AllPtrs(hhdm: nat, lists: seq<seq<nat>>, t: Tags, o: nat)
    requires Agrees(hhdm, lists, t) && o <= MAX_ORDER
    ensures forall p :: p in lists[o] ==> p >= hhdm
  {
    forall p | p in lists[o] ensures p >= hhdm {
      assert InFamily(lists, o, p) && PtrAt(hhdm, lists, o, p);
    }
  }

  lemma FamilyDistinct(mem: map<nat, nat>, heads: seq<nat>, lists: seq<seq<nat>>, o: nat)
    requires Family(mem, heads, lists) && o < |lists|
    ensures Distinct(lists[o])
  {
  }

  /** A frame that no free block starts at is on no list. */
  lemma NotListed(hhdm: nat, lists: seq<seq<nat>>, t: Tags, f: nat)
    requires Agrees(hhdm, lists, t) && (f in t ==> !t[f].free)
    ensures OnNoList(lists, Ptr(hhdm, f))
  {
    forall k: nat ensures !InFamily(lists, k, Ptr(hhdm, f)) {
      assert AgreeAt(hhdm, lists, t, k, f);
    }
  }

  lemma CutWeight(lists: seq<seq<nat>>, o: nat, k: nat)
    requires o < |lists| && k < |lists[o]|
    ensures Weight(lists[o := Cut(lists[o], k)], |lists|) + Pow2(o) == Weight(lists, |lists|)
  {
    var lists' := lists[o := Cut(lists[o], k)];
    assert lists'[o := lists[o]] == lists;
    WeightUpdate(lists', o, lists[o], |lists|);
  }

  lemma PushWeight(lists: seq<seq<nat>>, o: nat, p: nat)
    requires o < |lists|
    ensures Weight(lists[o := [p] + lists[o]], |lists|) == Weight(lists, |lists|) + Pow2(o)
  {
    WeightUpdate(lists, o, [p] + lists[o], |lists|);
  }

  lemma FamilyLinks(mem: map<nat, nat>, heads: seq<nat>, lists: seq<seq<nat>>, o: nat)
    requires Family(mem, heads, lists) && o < |lists|
    ensures |heads| == |lists| && heads[o] == LinkTo(lists[o], 0)
    ensures forall i :: 0 <= i < |lists[o]| ==>
      lists[o][i] != 0 && lists[o][i] in mem && mem[lists[o][i]] == LinkTo(lists[o], i + 1)
  {
    assert Chain(mem, heads[o], lists[o]);
  }

  lemma PushFamily(mem: map<nat, nat>, heads: seq<nat>, lists: seq<seq<nat>>, o: nat, p: nat)
    requires Family(mem, heads, lists) && o < |lists| && OnNoList(lists, p) && p != 0
    ensures |heads| == |lists|
    ensures Family(mem[p := heads[o]], heads[o := p], lists[o := [p] + lists[o]])
  {
    hide Chain, Distinct;
    var s := [p] + lists[o];
    assert !InFamily(lists, o, p);
    ChainPush(mem, heads[o], lists[o], p);
    forall q: nat, k: nat | q in s && k != o ensures !InFamily(lists, k, q) {
      assert q != p ==> InFamily(lists, o, q);
    }
    FamilyUpdate(mem, heads, lists, o, mem[p := heads[o]], p, s);
  }

  lemma PopFamily(mem: map<nat, nat>, heads: seq<nat>, lists: seq<seq<nat>>, o: nat)
    requires Family(mem, heads, lists) && o < |lists| && lists[o] != []
    ensures heads[o] == lists[o][0] && heads[o] in mem
    ensures Family(mem, heads[o := mem[heads[o]]], lists[o := Cut(lists[o], 0)])
  {
    var s := lists[o];
    assert Chain(mem, heads[o], s);
    assert Cut(s, 0) == s[1..];
    ChainPop(mem, heads[o], s);
    hide Chain, Distinct;
    forall p: nat, k: nat | p in s[1..] && k != o ensures !InFamily(lists, k, p) {
      assert InFamily(lists, o, p);
    }
    FamilyUpdate(mem, heads, lists, o, mem, mem[heads[o]], s[1..]);
  }

  lemma CutFamily(mem: map<nat, nat>, heads: seq<nat>, lists: seq<seq<nat>>, o: nat, k: nat)
    requires Family(mem, heads, lists) && o < |lists| && k < |lists[o]|
    ensures lists[o][k] in mem
    ensures k == 0 ==> heads[o] == lists[o][0] && Family(mem, heads[o := mem[heads[o]]], lists[o := Cut(lists[o], 0)])
    ensures k > 0 ==> Family(mem[lists[o][k - 1] := mem[lists[o][k]]], heads, lists[o := Cut(lists[o], k)])
  {
    var s := lists[o];
    assert Chain(mem, heads[o], s);
    if k == 0 {
      PopFamily(mem, heads, lists, o);
    } else {
      ChainCut(mem, heads[o], s, k);
      hide Chain, Distinct, Cut;
      forall p: nat, j: nat | p in Cut(s, k) && j != o ensures !InFamily(lists, j, p) {
        CutMembers(s, k, p);
        assert InFamily(lists, o, p);
      }
      FamilyUpdate(mem, heads, lists, o, mem[s[k - 1] := mem[s[k]]], heads[o], Cut(s, k));
      assert heads[o := heads[o]] == heads;
    }
  }

  lemma {:induction false} EmptyWeight(lists: seq<seq<nat>>, n: nat)
    requires n <= |lists| && forall o :: 0 <= o < |lists| ==> lists[o] == []
    ensures Weight(lists, n) == 0
  {
    if n > 0 { EmptyWeight(lists, n - 1); }
  }

  class BuddyAllocator {
    /** Offset of the direct map of physical memory. */
    const hhdm: nat
    /** The words of memory, by kernel address.  Free frames hold link words; the rest belongs to owners. */
    var mem: map<nat, nat>
    var heads: seq<nat>
    var counts: seq<nat>
    var freePages: nat
    var totalPages: nat
    ghost var lists: seq<seq<nat>>
    ghost var tags: Tags

    ghost predicate ListsOk()
      reads this
    {
      && hhdm > 0 && |lists| == MAX_ORDER + 1 && |heads| == |counts| == |lists|
      && Family(mem, heads, lists)
      && (forall o :: 0 <= o < |lists| ==> counts[o] == |lists[o]|)
    }

    ghost predicate Consistent()
      reads this
    {
      ListsOk() && Tiled(tags) && Agrees(hhdm, lists, tags)
    }

    ghost predicate Valid()
      reads this
    {
      && Consistent()
      && freePages == Weight(lists, |lists|) == |FreeFrames(tags)|
      && totalPages == |tags|
    }

    constructor (offset: nat, initial: map<nat, nat>)
      requires offset > 0
      ensures Valid() && Coalesced(tags) && tags == map[] && hhdm == offset && mem == initial
    {
      hhdm := offset;
      mem := initial;
      heads := seq(MAX_ORDER + 1, _ => 0);
      counts := seq(MAX_ORDER + 1, _ => 0);
      freePages, totalPages := 0, 0;
      lists := seq(MAX_ORDER + 1, _ => []);
      tags := map[];
      new;
      EmptyWeight(lists, |lists|);
      assert FreeFrames(tags) == {};
    }

    /** Links the block at `phys` in front of list `o`. */
    method Push(o: nat, phys: nat)
      requires ListsOk() && o <= MAX_ORDER && OnNoList(lists, hhdm + phys)
      modifies `mem, `heads, `counts, `lists
      ensures ListsOk()
      ensures lists == old(lists)[o := [hhdm + phys] + old(lists)[o]]
      ensures mem == old(mem)[hhdm + phys := old(heads)[o]]
    {
      hide Family;
      var virt := hhdm + phys;
      PushFamily(mem, heads, lists, o, virt);
      mem := mem[virt := heads[o]];
      heads := heads[o := virt];
      counts := counts[o := counts[o] + 1];
      lists := lists[o := [virt] + lists[o]];
    }

    /** Unlinks the first block of list `o`. */
    method Pop(o: nat) returns (r: Option<nat>)
      requires ListsOk() && o <= MAX_ORDER
      requires forall p :: p in lists[o] ==> p >= hhdm
      modifies `heads, `counts, `lists
      ensures ListsOk()
      ensures r.None? <==> old(lists)[o] == []
      ensures r.None? ==> lists == old(lists)
      ensures r.Some? ==> hhdm + r.value == old(lists)[o][0] && lists == old(lists)[o := Cut(old(lists)[o], 0)]
    {
      assert Chain(mem, heads[o], lists[o]);
      if heads[o] == 0 {
        return None;
      }
      assert heads[o] in lists[o];
      var block := heads[o];
      r := Some(block - hhdm);
      PopFamily(mem, heads, lists, o);
      heads := heads[o := mem[block]];
      counts := counts[o := counts[o] - 1];
      lists := lists[o := Cut(lists[o], 0)];
    }

    function Load(o: nat, slot: Slot): nat
      requires o < |heads| && (slot.Next? ==> slot.node in mem)
      reads this
    {
      match slot
      case Head => heads[o]
      case Next(node) => mem[node]
    }

    /** Unlinks the block at `phys` from list `o` if it is there, walking the link slots from the head. */
    method Remove(o: nat, phys: nat) returns (found: bool, ghost k: nat)
      requires ListsOk() && o <= MAX_ORDER
      modifies `mem, `heads, `counts, `lists
      ensures ListsOk()
      ensures found <==> hhdm + phys in old(lists)[o]
      ensures !found ==> lists == old(lists) && mem == old(mem)
      ensures found ==>
        k < |old(lists)[o]| && old(lists)[o][k] == hhdm + phys && lists == old(lists)[o := Cut(old(lists)[o], k)]
      ensures forall p :: p in old(mem) && p !in old(lists)[o] ==> p in mem && mem[p] == old(mem)[p]
    {
      hide Family;
      FamilyLinks(mem, heads, lists, o);
      var target := hhdm + phys;
      var cur := Head;
      found, k := false, 0;
      while Load(o, cur) != 0
        invariant lists == old(lists) && mem == old(mem) && heads == old(heads) && counts == old(counts)
        invariant k <= |lists[o]| && target !in lists[o][..k]
        invariant cur == (if k == 0 then Head else Next(lists[o][k - 1]))
        invariant k > 0 ==> lists[o][k - 1] in mem
        invariant Load(o, cur) == LinkTo(lists[o], k)
        decreases |lists[o]| - k
      {
        var node := Load(o, cur);
        if node == target {
          CutFamily(mem, heads, lists, o, k);
          if cur.Head? {
            heads := heads[o := mem[node]];
          } else {
            mem := mem[cur.node := mem[node]];
          }
          counts := counts[o := counts[o] - 1];
          lists := lists[o := Cut(lists[o], k)];
          found := true;
          return;
        }
        cur := Next(node);
        k := k + 1;
      }
    }

    /** The smallest order at or above `order` with a nonempty list, or one above MAX_ORDER. */
    method FindOrder(order: nat) returns (found: nat)
      requires ListsOk()
      ensures order <= found
      ensures found <= MAX_ORDER ==> lists[found] != []
      ensures forall o :: order <= o < found && o <= MAX_ORDER ==> lists[o] == []
    {
      hide Family;
      found := order;
      while found <= MAX_ORDER && heads[found] == 0
        invariant order <= found
        invariant forall o :: order <= o < found && o <= MAX_ORDER ==> lists[o] == []
        decreases MAX_ORDER + 1 - found
      {
        FamilyLinks(mem, heads, lists, found);
        found := found + 1;
      }
      if found <= MAX_ORDER {
        FamilyLinks(mem, heads, lists, found);
      }
    }

    /** Takes the first block off list `o` whole. */
    method TakeFirst(o: nat) returns (phys: nat, ghost f: nat)
      requires Consistent() && o <= MAX_ORDER && lists[o] != []
      modifies `heads, `counts, `lists, `tags
      ensures Consistent() && phys == PAGE_SIZE * f
      ensures FreeBlock(old(tags), o, f) && tags == Label(old(tags), o, f, Tag(o, false))
      ensures Weight(lists, |lists|) + Pow2(o) == Weight(old(lists), |old(lists)|)
    {
      hide Family, Weight, Cut, Label, Tiled;
      f := FrameOnList(hhdm, lists, tags, o, 0);
      AllPtrs(hhdm, lists, tags, o);
      var r := Pop(o);
      phys := r.value;
      TakeRemoves(tags, o, f);
      LabelTiled(tags, o, f, Tag(o, false));
      FamilyDistinct(mem, old(heads), old(lists), o);
      AgreesCut(hhdm, old(lists), tags, Label(tags, o, f, Tag(o, false)), o, f, 0);
      CutWeight(old(lists), o, 0);
      tags := Label(tags, o, f, Tag(o, false));
    }

    /** Returns the upper half of the block of order o + 1 at `phys` to list `o`. */
    method SplitOff(phys: nat, o: nat, ghost f: nat)
      requires Consistent() && o < MAX_ORDER && phys == PAGE_SIZE * f && LiveBlock(tags, o + 1, f)
      modifies `mem, `heads, `counts, `lists, `tags
      ensures Consistent() && tags == Split(old(tags), f, o) && LiveBlock(tags, o, f)
      ensures Weight(lists, |lists|) == Weight(old(lists), |old(lists)|) + Pow2(o)
      ensures forall p :: p in old(mem) && p != Ptr(hhdm, f + Pow2(o)) ==> p in mem && mem[p] == old(mem)[p]
    {
      hide Family, Weight, Split, Tiled;
      var buddy := phys + PAGE_SIZE * Pow2(o);
      SplitAdds(tags, o, f);
      SplitKeeps(tags, f, o);
      NotListed(hhdm, lists, tags, f + Pow2(o));
      Push(o, buddy);
      AgreesPush(hhdm, old(lists), tags, Split(tags, f, o), o, f + Pow2(o));
      PushWeight(old(lists), o, hhdm + buddy);
      tags := Split(tags, f, o);
    }

    /** Splits the block of order `found` at `phys` down to `order`, returning the upper halves. */
    method SplitDown(phys: nat, found: nat, order: nat, ghost f: nat, ghost frames: set<nat>)
      requires Consistent() && order <= found <= MAX_ORDER && phys == PAGE_SIZE * f && LiveBlock(tags, found, f)
      requires forall o: nat :: order <= o < found ==> Inside(hhdm, Ptr(hhdm, f + Pow2(o)), frames)
      modifies `mem, `heads, `counts, `lists, `tags
      ensures Consistent() && tags == SplitTo(old(tags), f, found, order)
      ensures Weight(lists, |lists|) + Pow2(order) == old(Weight(lists, |lists|)) + Pow2(found)
      ensures Untouched(hhdm, old(mem), mem, frames)
    {
      hide Family, Weight, Split, Tiled, Agrees, Inside, Aligned, LiveBlock, Untouched, Pow2;
      UntouchedSame(hhdm, mem, frames);
      var current := found;
      while current > order
        invariant order <= current <= found
        invariant Consistent() && tags == SplitTo(old(tags), f, found, current) && LiveBlock(tags, current, f)
        invariant Weight(lists, |lists|) + Pow2(current) == old(Weight(lists, |lists|)) + Pow2(found)
        invariant Untouched(hhdm, old(mem), mem, frames)
      {
        ghost var m := mem;
        current := current - 1;
        TwoHalves(current);
        SplitOff(phys, current, f);
        UntouchedOne(hhdm, old(mem), m, mem, frames, Ptr(hhdm, f + Pow2(current)));
      }
    }

    /** Hands out 2^order frames from the smallest sufficient free block.  Fails exactly when no free
        block is large enough; writes only into frames that were free. */
    method Alloc(order: nat) returns (r: Option<nat>)
      requires Valid()
      modifies this
      ensures Valid() && totalPages == old(totalPages)
      ensures r.None? <==> forall g: nat :: !Fits(old(tags), order, g)
      ensures r.None? ==> tags == old(tags) && mem == old(mem)
      ensures r.Some? ==> Granted(old(tags), order, r.value, tags) && freePages + Pow2(order) == old(freePages)
      ensures Coalesced(old(tags)) ==> Coalesced(tags)
      ensures Coalesced(old(tags)) && order <= MAX_ORDER ==>
        (r.None? <==> forall i: nat :: !WhollyFree(old(tags), order, i))
      ensures Untouched(hhdm, old(mem), mem, FreeFrames(old(tags)))
    {
      hide Family, Weight, Split, SplitTo, Tiled, Agrees, Label, FreeFrames, BlockFrames, Coalesced, WhollyFree,
        Untouched, Aligned, Inside;
      AllocComplete(tags, order);
      var found := FindOrder(order);
      FirstFit(hhdm, lists, tags, order, found);
      UntouchedSame(hhdm, mem, FreeFrames(tags));
      if found > MAX_ORDER {
        return None;
      }
      var phys, f := TakeFirst(found);
      TakenWhole(old(tags), found, f);
      UpperHalvesFree(old(tags), found, order, f, hhdm);
      SplitDown(phys, found, order, f, FreeFrames(old(tags)));
      AllocCounts(old(tags), f, order);
      AllocKeeps(old(tags), f, order);
      freePages := freePages - Pow2(order);
      r := Some(phys);
    }

    /** Takes the buddy of the block of order `o` at `phys` off its list if it is free, and joins the two. */
    method JoinBuddy(o: nat, phys: nat, ghost f: nat) returns (joined: bool)
      requires Consistent() && o < MAX_ORDER && phys == PAGE_SIZE * f && LiveBlock(tags, o, f)
      modifies `mem, `heads, `counts, `lists, `tags
      ensures Consistent()
      ensures joined <==> FreeBlock(old(tags), o, BuddyOf(o, f))
      ensures joined ==> tags == Label(old(tags), o + 1, f, Tag(o + 1, false))
      ensures joined ==> Weight(lists, |lists|) + Pow2(o) == Weight(old(lists), |old(lists)|)
      ensures !joined ==> tags == old(tags) && lists == old(lists)
      ensures Untouched(hhdm, old(mem), mem, FreeFrames(old(tags)))
    {
      hide Family, Weight, Cut, Tiled, Label, FreeFrames, Agrees, FlipBit;
      ScaledBuddy(f, o, phys);
      var buddy := FlipBit(phys, PAGE_SIZE * Pow2(o));
      ghost var b := BuddyOf(o, f);
      ghost var k;
      ListMeansFree(hhdm, lists, tags, o, b);
      ListInside(hhdm, lists, tags, o);
      joined, k := Remove(o, buddy);
      if joined {
        MergeRemoves(tags, o, f);
        MergeKeeps(tags, f, o);
        FamilyDistinct(old(mem), old(heads), old(lists), o);
        AgreesCut(hhdm, old(lists), tags, Label(tags, o + 1, f, Tag(o + 1, false)), o, b, k);
        CutWeight(old(lists), o, k);
        tags := Label(tags, o + 1, f, Tag(o + 1, false));
      }
    }

    /** Links a whole block in as free. */
    method LinkFree(o: nat, phys: nat, ghost f: nat)
      requires Consistent() && o <= MAX_ORDER && phys == PAGE_SIZE * f && LiveBlock(tags, o, f)
      modifies `mem, `heads, `counts, `lists, `tags
      ensures Consistent() && tags == Label(old(tags), o, f, Tag(o, true))
      ensures Weight(lists, |lists|) == Weight(old(lists), |old(lists)|) + Pow2(o)
      ensures Untouched(hhdm, old(mem), mem, {f})
    {
      hide Family, Weight, Tiled, Label, Agrees;
      NotListed(hhdm, lists, tags, f);
      Push(o, phys);
      SetFreeAdds(tags, o, f);
      LabelTiled(tags, o, f, Tag(o, true));
      AgreesPush(hhdm, old(lists), tags, Label(tags, o, f, Tag(o, true)), o, f);
      PushWeight(old(lists), o, hhdm + phys);
      tags := Label(tags, o, f, Tag(o, true));
    }

    /** Joins the block at `phys` with free buddies as long as there are any. */
    method MergeUp(phys: nat, order: nat, ghost f0: nat, ghost all: set<nat>) returns (at: nat, top: nat, ghost f: nat)
      requires Consistent() && order <= MAX_ORDER && phys == PAGE_SIZE * f0 && LiveBlock(tags, order, f0)
      requires FreeFrames(tags) + BlockFrames(tags, order, f0) == all
      modifies `mem, `heads, `counts, `lists, `tags
      ensures Consistent() && top <= MAX_ORDER && at == PAGE_SIZE * f && LiveBlock(tags, top, f) && f in all
      ensures FreeTags(old(tags), f0, order) == Label(tags, top, f, Tag(top, true))
      ensures Weight(lists, |lists|) + Pow2(top) == old(Weight(lists, |lists|)) + Pow2(order)
      ensures Untouched(hhdm, old(mem), mem, all)
    {
      hide Family, Weight, Tiled, Label, Agrees, FreeFrames, BlockFrames, FreeTags, Untouched, Aligned, SameBlock,
        FlipBit;
      UntouchedSame(hhdm, mem, all);
      at, top, f := phys, order, f0;
      OwnFrame(tags, order, f);
      while top < MAX_ORDER
        invariant order <= top <= MAX_ORDER && at == PAGE_SIZE * f
        invariant Consistent() && LiveBlock(tags, top, f)
        invariant FreeTags(tags, f, top) == FreeTags(old(tags), f0, order)
        invariant Weight(lists, |lists|) + Pow2(top) == old(Weight(lists, |lists|)) + Pow2(order)
        invariant Untouched(hhdm, old(mem), mem, all)
        invariant FreeFrames(tags) + BlockFrames(tags, top, f) == all && f in all
      {
        ghost var t, m := tags, mem;
        ScaledBuddy(f, top, at);
        FreeStep(t, f, top);
        var buddy := FlipBit(at, PAGE_SIZE * Pow2(top));
        var joined := JoinBuddy(top, at, f);
        UntouchedTrans(hhdm, old(mem), m, mem, all, FreeFrames(t));
        if !joined {
          return;
        }
        MergeKeeps(t, f, top);
        at := if at < buddy then at else buddy;
        f := if f < BuddyOf(top, f) then f else BuddyOf(top, f);
        top := top + 1;
        OwnFrame(tags, top, f);
      }
      FreeStep(tags, f, top);
    }

    /** Gives a block back, merging it with free buddies as far as possible; writes only into frames
        that are free afterwards. */
    method Free(phys: nat, order: nat)
      requires Valid() && order <= MAX_ORDER && phys % PAGE_SIZE == 0
      requires LiveBlock(tags, order, phys / PAGE_SIZE)
      modifies this
      ensures Valid() && totalPages == old(totalPages)
      ensures tags == FreeTags(old(tags), phys / PAGE_SIZE, order)
      ensures Coalesced(old(tags)) ==> Coalesced(tags)
      ensures freePages == old(freePages) + Pow2(order)
      ensures Untouched(hhdm, old(mem), mem, FreeFrames(tags))
    {
      hide Family, Weight, Tiled, Label, Agrees, FreeFrames, BlockFrames, FreeTags, Coalesced, Untouched, Aligned,
        SameBlock;
      ghost var f0: nat := phys / PAGE_SIZE;
      ghost var all := FreeFrames(tags) + BlockFrames(tags, order, f0);
      FreeKeeps(tags, f0, order);
      FreeCounts(tags, f0, order);
      var at, top, f := MergeUp(phys, order, f0, all);
      ghost var m := mem;
      LinkFree(top, at, f);
      UntouchedTrans(hhdm, old(mem), m, mem, all, {f});
      freePages := freePages + Pow2(order);
    }

    /** Hands a region of physical memory to the allocator: the whole pages inside it are covered by
        free blocks, largest possible first at each address. */
    method AddRegion(base: nat, size: nat)
      requires Valid()
      requires Unmanaged(tags, FirstPage(base), EndPage(base, size))
      modifies this
      ensures Valid()
      ensures tags == SeedTags(old(tags), FirstPage(base), EndPage(base, size), MAX_ORDER)
      ensures Untouched(hhdm, old(mem), mem, Interval(FirstPage(base), EndPage(base, size)))
      ensures FirstPage(base) <= EndPage(base, size) ==>
        freePages - old(freePages) == totalPages - old(totalPages) == EndPage(base, size) - FirstPage(base)
    {
      hide Valid, SeedTags, SeedOrder, AddBlock, Unmanaged, Interval, Pow2, Aligned, FirstPage, EndPage, AlignUp,
        AlignDown, Untouched;
      RegionPages(base, size);
      UntouchedSame(hhdm, mem, Interval(FirstPage(base), EndPage(base, size)));
      var addr := AlignUp(base, PAGE_SIZE);
      var end := AlignDown(base + size, PAGE_SIZE);
      ghost var f: nat, e: nat := FirstPage(base), EndPage(base, size);
      ghost var pages := Interval(f, e);
      while addr < end
        invariant addr == PAGE_SIZE * f && end == PAGE_SIZE * e && FirstPage(base) <= f
        invariant f <= e || f == FirstPage(base)
        invariant Valid() && Unmanaged(tags, f, e)
        invariant SeedTags(tags, f, e, MAX_ORDER) == SeedTags(old(tags), FirstPage(base), e, MAX_ORDER)
        invariant Untouched(hhdm, old(mem), mem, pages)
        invariant freePages - old(freePages) == totalPages - old(totalPages) == f - FirstPage(base)
        decreases e - f
      {
        var order := PickOrder(addr, end, f, e);
        SeedUnfold(tags, f, e, MAX_ORDER, order);
        ghost var m := mem;
        StartInside(base, size, f);
        AddFree(order, addr, f, e);
        UntouchedTrans(hhdm, old(mem), m, mem, pages, {f});
        addr := addr + PAGE_SIZE * Pow2(order);
        f := f + Pow2(order);
      }
      SeedDone(tags, f, e, MAX_ORDER);
    }

    /** The largest order of a block that is aligned at `addr` and ends at or before `end`. */
    method PickOrder(addr: nat, end: nat, ghost f: nat, ghost e: nat) returns (order: nat)
      requires addr == PAGE_SIZE * f && end == PAGE_SIZE * e && f < e
      ensures order == SeedOrder(f, e, MAX_ORDER)
    {
      hide Aligned, Pow2;
      order := MAX_ORDER;
      while !(order == 0 || (addr % (PAGE_SIZE * Pow2(order)) == 0 && addr + PAGE_SIZE * Pow2(order) <= end))
        invariant order <= MAX_ORDER
        invariant SeedOrder(f, e, order) == SeedOrder(f, e, MAX_ORDER)
      {
        ScaledBlock(f, order, addr);
        order := order - 1;
      }
      ScaledBlock(f, order, addr);
    }

    /** Links a block of fresh memory in as free and counts its pages. */
    method AddFree(o: nat, phys: nat, ghost f: nat, ghost end: nat)
      requires Valid() && o <= MAX_ORDER && phys == PAGE_SIZE * f && Aligned(o, f)
      requires Unmanaged(tags, f, end) && f + Pow2(o) <= end
      modifies this
      ensures Valid() && tags == AddBlock(old(tags), f, o) && Unmanaged(tags, f + Pow2(o), end)
      ensures freePages == old(freePages) + Pow2(o) && totalPages == old(totalPages) + Pow2(o)
      ensures Untouched(hhdm, old(mem), mem, {f})
    {
      hide Family, Weight, Tiled, Agrees, FreeFrames, AddBlock, Unmanaged, Adds, Pow2, Aligned;
      NewBlock(tags, f, o, end);
      NewBlockCounts(tags, f, o, end);
      NotListed(hhdm, lists, tags, f);
      Push(o, phys);
      AgreesPush(hhdm, old(lists), tags, AddBlock(tags, f, o), o, f);
      PushWeight(old(lists), o, hhdm + phys);
      freePages := freePages + Pow2(o);
      totalPages := totalPages + Pow2(o);
      tags := AddBlock(tags, f, o);
    }

    /** `alloc_frame`: one frame, failing only when none is free. */
    method AllocFrame() returns (r: Option<nat>)
      requires Valid()
      modifies this
      ensures Valid()
      ensures r.None? <==> FreeFrames(old(tags)) == {}
      ensures r.None? ==> tags == old(tags)
      ensures r.Some? ==> r.value % PAGE_SIZE == 0 && OneTaken(old(tags), tags, r.value / PAGE_SIZE)
    {
      hide AllocTags, FreeFrames, Tiled, Agrees, Family, Weight;
      r := Alloc(0);
      FitsFree(old(tags));
      if r.Some? {
        TakeOne(old(tags), r.value / PAGE_SIZE);
      }
    }

    /** `free_frame`: gives back one frame that was handed out on its own. */
    method FreeFrame(phys: nat)
      requires Valid() && phys % PAGE_SIZE == 0 && phys / PAGE_SIZE in PageFrames(tags)
      modifies this
      ensures Valid() && OneGiven(old(tags), tags, phys / PAGE_SIZE)
    {
      hide FreeTags, FreeFrames;
      GiveOne(tags, phys / PAGE_SIZE);
      Free(phys, 0);
    }
  }
}
