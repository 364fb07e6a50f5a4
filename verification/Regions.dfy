/** Seeding regions of physical memory into the buddy allocator, and what holds in every state that
    seeding, allocation and freeing can reach. */
module Regions {
  import opened Blocks

  /** The largest order up to `o` of an aligned block at `f` that ends at or before `end`. */
  function SeedOrder(f: nat, end: nat, o: nat): (r: nat)
    requires f < end
    ensures r <= o && Aligned(r, f) && f + Pow2(r) <= end
    ensures r < o ==> !Aligned(r + 1, f) || f + Pow2(r + 1) > end
  {
    if o == 0 || (Aligned(o, f) && f + Pow2(o) <= end) then o else SeedOrder(f, end, o - 1)
  }

  /** `o` is the order the greedy cover picks at `f`. */
  ghost predicate Greedy(f: nat, end: nat, o: nat) {
    && o <= MAX_ORDER && Aligned(o, f) && f + Pow2(o) <= end
    && (o < MAX_ORDER && BlockNo(o, f) % 2 == 0 ==> f + Pow2(o) + Pow2(o) > end)
  }

  /** `top` is high enough for the cover to pick the largest possible block everywhere. */
  ghost predicate Covers(top: nat) {
    forall f: nat, end: nat :: f < end ==> Greedy(f, end, SeedOrder(f, end, top))
  }

  lemma MaxOrderGreedy(f: nat, end: nat, top: nat)
    requires f < end && top == MAX_ORDER
    ensures Greedy(f, end, SeedOrder(f, end, top))
  {
    var o := SeedOrder(f, end, top);
    assert o < top ==> !Aligned(o + 1, f) || f + Pow2(o + 1) > end;
  }

  lemma MaxOrderCovers()
    ensures Covers(MAX_ORDER)
  {
    forall f: nat, end: nat | f < end ensures Greedy(f, end, SeedOrder(f, end, MAX_ORDER)) {
      MaxOrderGreedy(f, end, MAX_ORDER);
    }
  }

  predicate Between(f: nat, g: nat, end: nat) {
    f <= g < end
  }

  function Interval(f: nat, end: nat): set<nat> {
    set g | f <= g < end && Between(f, g, end)
  }

  function Constant(frames: set<nat>, tag: Tag): (r: Tags) {
    map g | g in frames :: tag
  }

  /** Adding one free block. */
  function AddBlock(t: Tags, f: nat, o: nat): (r: Tags) {
    t + Constant(Interval(f, f + Pow2(o)), Tag(o, true))
  }

  /** Covering the unmanaged frames [f, end) greedily with free blocks of order up to `top`, from low
      to high addresses. */
  function SeedTags(t: Tags, f: nat, end: nat, top: nat): (r: Tags)
    decreases end - f
  {
    if f >= end then t
    else
      var o := SeedOrder(f, end, top);
      SeedTags(AddBlock(t, f, o), f + Pow2(o), end, top)
  }

  ghost predicate Unmanaged(t: Tags, f: nat, end: nat) {
    forall g :: g in Interval(f, end) ==> g !in t
  }

  /** A free block that ends at `f` and is a lower buddy has no room for its upper buddy before `end`. */
  ghost predicate NoPairAt(t: Tags, f: nat, end: nat, o: nat, x: nat) {
    FreeBlock(t, o, x) && o < MAX_ORDER && x + Pow2(o) == f && BlockNo(o, x) % 2 == 0 ==> f + Pow2(o) > end
  }

  ghost predicate NoPair(t: Tags, f: nat, end: nat) {
    forall o: nat, x: nat :: NoPairAt(t, f, end, o, x)
  }

  /** A free block that starts at `end` and is an upper buddy has no room for its lower buddy after `f`. */
  ghost predicate NoPairEndAt(t: Tags, f: nat, end: nat, o: nat) {
    FreeBlock(t, o, end) && o < MAX_ORDER && BlockNo(o, end) % 2 == 1 ==> end < f + Pow2(o)
  }

  ghost predicate NoPairEnd(t: Tags, f: nat, end: nat) {
    forall o: nat :: NoPairEndAt(t, f, end, o)
  }

  lemma AddBlockTiled(t: Tags, f: nat, o: nat)
    requires Tiled(t) && o <= MAX_ORDER && Aligned(o, f) && Unmanaged(t, f, f + Pow2(o))
    ensures Tiled(AddBlock(t, f, o)) && FreeBlock(AddBlock(t, f, o), o, f)
  {
    var r := AddBlock(t, f, o);
    forall x: nat, g: nat ensures Uniform(r, x, g) {
      assert Uniform(t, x, g);
      InBlock(o, f, x);
      InBlock(o, f, g);
    }
  }

  lemma NewBlockBase(t: Tags, f: nat, o: nat, g: nat)
    requires Aligned(o, f) && Aligned(o, g)
    ensures f <= g < f + Pow2(o) ==> g == f
  {
    InBlock(o, f, g);
    if SameBlock(o, f, g) { AlignedUnique(o, f, g); }
  }

  lemma AddBlockCoalesced(t: Tags, f: nat, o: nat, end: nat)
    requires Tiled(t) && Coalesced(t) && Unmanaged(t, f, end) && NoPair(t, f, end) && NoPairEnd(t, f, end)
    requires f < end && Greedy(f, end, o)
    ensures Coalesced(AddBlock(t, f, o))
  {
    var r := AddBlock(t, f, o);
    var b := BuddyOf(o, f);
    BuddyFacts(o, f);
    assert NoPairAt(t, f, end, o, b) && NoPairEndAt(t, f, end, o);
    Shift(o, f);
    assert o < MAX_ORDER ==> !FreeBlock(r, o, b);
    forall k: nat, g: nat ensures NoFreeBuddy(r, k, g) {
      assert NoFreeBuddy(t, k, g);
      BuddyFacts(k, g);
      if k == o && Aligned(o, g) {
        NewBlockBase(t, f, o, g);
        NewBlockBase(t, f, o, BuddyOf(o, g));
      }
    }
  }

  /** A block that ends just after a frame of a block of order `o` has that order. */
  lemma LastBlock(r: Tags, k: nat, x: nat, o: nat, next: nat)
    requires Tiled(r) && FreeBlock(r, k, x) && x + Pow2(k) == next && next - 1 in r && r[next - 1].order == o
    ensures k == o
  {
    InBlock(k, x, next - 1);
    assert Uniform(r, x, next - 1);
  }

  lemma NoPairAfter(r: Tags, f: nat, o: nat, end: nat, next: nat)
    requires Tiled(r) && next == f + Pow2(o) && next - 1 in r && r[next - 1].order == o
    requires Greedy(f, end, o)
    ensures NoPair(r, next, end)
  {
    forall k: nat, x: nat ensures NoPairAt(r, next, end, k, x) {
      if FreeBlock(r, k, x) && x + Pow2(k) == next {
        LastBlock(r, k, x, o, next);
      }
    }
  }

  /** `s` manages the frames of `t`, with the same tags, and [f, end), all free. */
  ghost predicate Extends(t: Tags, s: Tags, f: nat, end: nat) {
    && s.Keys == t.Keys + Interval(f, end)
    && (forall g :: g in t ==> s[g] == t[g])
    && (forall g :: g in Interval(f, end) ==> s[g].free)
  }

  lemma AddBlockExtends(t: Tags, f: nat, o: nat)
    requires Unmanaged(t, f, f + Pow2(o))
    ensures Extends(t, AddBlock(t, f, o), f, f + Pow2(o))
    ensures f + Pow2(o) - 1 in AddBlock(t, f, o) && AddBlock(t, f, o)[f + Pow2(o) - 1].order == o
  {
  }

  lemma ExtendsTrans(t: Tags, s: Tags, r: Tags, f: nat, m: nat, end: nat)
    requires f <= m <= end && Extends(t, s, f, m) && Extends(s, r, m, end)
    ensures Extends(t, r, f, end)
  {
  }

  lemma ExtendsUnmanaged(t: Tags, s: Tags, f: nat, m: nat, end: nat)
    requires f <= m <= end && Extends(t, s, f, m) && Unmanaged(t, f, end)
    ensures Unmanaged(s, m, end)
    ensures end in t <==> end in s
    ensures end in t ==> s[end] == t[end]
  {
  }

  lemma SeedUnfold(t: Tags, f: nat, end: nat, top: nat, o: nat)
    requires f < end && o == SeedOrder(f, end, top)
    ensures SeedTags(t, f, end, top) == SeedTags(AddBlock(t, f, o), f + Pow2(o), end, top)
  {
    hide AddBlock, SeedOrder, Aligned;
  }

  lemma UnmanagedPrefix(t: Tags, f: nat, m: nat, end: nat)
    requires m <= end && Unmanaged(t, f, end)
    ensures Unmanaged(t, f, m)
  {
  }

  lemma SeedNone(t: Tags, f: nat, top: nat)
    ensures SeedTags(t, f, f, top) == t && Extends(t, t, f, f)
  {
    hide AddBlock, SeedOrder, Pow2;
    assert Interval(f, f) == {};
  }

  lemma GreedyOrder(f: nat, end: nat, top: nat)
    requires Covers(top) && f < end
    ensures Greedy(f, end, SeedOrder(f, end, top))
  {
    hide Greedy, SeedOrder;
  }

  /** One block of a seed. */
  lemma SeedOne(t: Tags, f: nat, end: nat, o: nat)
    requires Tiled(t) && Unmanaged(t, f, end) && f < end && Greedy(f, end, o)
    ensures var s, m := AddBlock(t, f, o), f + Pow2(o);
      f < m <= end && Tiled(s) && Unmanaged(s, m, end) && Extends(t, s, f, m)
  {
    hide AddBlock, Tiled, Extends, Unmanaged, Aligned, FreeBlock, Pow2;
    var s, m := AddBlock(t, f, o), f + Pow2(o);
    UnmanagedPrefix(t, f, m, end);
    AddBlockTiled(t, f, o);
    AddBlockExtends(t, f, o);
    ExtendsUnmanaged(t, s, f, m, end);
  }

  /** Seeding manages exactly the region's frames, all of them free. */
  lemma {:induction false} SeedKeeps(t: Tags, f: nat, end: nat, top: nat)
    requires Covers(top) && Tiled(t) && Unmanaged(t, f, end) && f <= end
    ensures Tiled(SeedTags(t, f, end, top)) && Extends(t, SeedTags(t, f, end, top), f, end)
    decreases end - f
  {
    hide AddBlock, Tiled, Extends, Unmanaged, SeedTags, SeedOrder, Pow2, Covers, Greedy;
    if f == end {
      SeedNone(t, f, top);
    } else {
      var o := SeedOrder(f, end, top);
      var s, m := AddBlock(t, f, o), f + Pow2(o);
      GreedyOrder(f, end, top);
      SeedOne(t, f, end, o);
      SeedKeeps(s, m, end, top);
      ExtendsTrans(t, s, SeedTags(s, m, end, top), f, m, end);
      SeedUnfold(t, f, end, top, o);
    }
  }

  lemma NoPairEndAfter(t: Tags, s: Tags, f: nat, m: nat, end: nat)
    requires NoPairEnd(t, f, end) && f <= m && (end in t <==> end in s) && (end in t ==> s[end] == t[end])
    ensures NoPairEnd(s, m, end)
  {
    forall o: nat ensures NoPairEndAt(s, m, end, o) {
      assert NoPairEndAt(t, f, end, o);
    }
  }

  lemma SeedStep(t: Tags, f: nat, o: nat, end: nat)
    requires Tiled(t) && Unmanaged(t, f, end) && Coalesced(t) && NoPair(t, f, end) && NoPairEnd(t, f, end)
    requires f < end && Greedy(f, end, o)
    ensures var s, m := AddBlock(t, f, o), f + Pow2(o);
      Tiled(s) && Unmanaged(s, m, end) && Coalesced(s) && NoPair(s, m, end) && NoPairEnd(s, m, end)
  {
    hide AddBlock, Tiled, Coalesced, NoPair, NoPairEnd, Unmanaged, Extends, Aligned, FreeBlock;
    UnmanagedPrefix(t, f, f + Pow2(o), end);
    AddBlockTiled(t, f, o);
    AddBlockExtends(t, f, o);
    ExtendsUnmanaged(t, AddBlock(t, f, o), f, f + Pow2(o), end);
    AddBlockCoalesced(t, f, o, end);
    NoPairAfter(AddBlock(t, f, o), f, o, end, f + Pow2(o));
    NoPairEndAfter(t, AddBlock(t, f, o), f, f + Pow2(o), end);
  }

  /** Seeding creates no free buddies when none can straddle the region's two ends. */
  lemma {:induction false} SeedCoalesced(t: Tags, f: nat, end: nat, top: nat, r: Tags)
    requires Covers(top) && r == SeedTags(t, f, end, top)
    requires Tiled(t) && Unmanaged(t, f, end) && Coalesced(t) && NoPair(t, f, end) && NoPairEnd(t, f, end)
    ensures Coalesced(r)
    decreases end - f
  {
    hide AddBlock;
    if f < end {
      var o := SeedOrder(f, end, top);
      SeedStep(t, f, o, end);
      SeedUnfold(t, f, end, top, o);
      SeedCoalesced(AddBlock(t, f, o), f + Pow2(o), end, top, r);
    }
  }

  lemma {:induction false} PowMonotone(k: nat, o: nat)
    requires k <= o
    ensures Pow2(k) <= Pow2(o)
    decreases o
  {
    if k < o { PowMonotone(k, o - 1); }
  }

  /** At an odd multiple of 2^o the cover picks order `o` if that fits. */
  lemma OddOrder(f: nat, end: nat, o: nat, k: nat)
    requires Aligned(o, f) && BlockNo(o, f) % 2 == 1 && f + Pow2(o) <= end && o < MAX_ORDER && Greedy(f, end, k)
    ensures k == o
  {
    if k > o {
      AlignedDown(k, o + 1, f);
    } else if k < o {
      AlignedDown(o, k + 1, f);
      PowMonotone(k + 1, o);
    }
  }

  lemma BlockStays(s: Tags, r: Tags, m: nat, end: nat, o: nat, f: nat)
    requires Extends(s, r, m, end) && FreeBlock(s, o, f)
    ensures FreeBlock(r, o, f)
  {
  }

  lemma FirstBlock(t: Tags, f: nat, end: nat, top: nat, r: Tags, o: nat)
    requires Covers(top) && Tiled(t) && Unmanaged(t, f, end) && f < end && r == SeedTags(t, f, end, top)
    requires o == SeedOrder(f, end, top)
    ensures FreeBlock(r, o, f)
  {
    hide AddBlock, Unmanaged, Tiled, Extends, FreeBlock, SeedTags, Aligned;
    assert Greedy(f, end, SeedOrder(f, end, top));
    var s := AddBlock(t, f, o);
    UnmanagedPrefix(t, f, f + Pow2(o), end);
    AddBlockTiled(t, f, o);
    AddBlockExtends(t, f, o);
    ExtendsUnmanaged(t, s, f, f + Pow2(o), end);
    SeedUnfold(t, f, end, top, o);
    SeedKeeps(s, f + Pow2(o), end, top);
    BlockStays(s, r, f + Pow2(o), end, o, f);
  }

  /** A free lower buddy just below the region meets the first block placed. */
  lemma PairAtStart(t: Tags, f: nat, end: nat, top: nat, r: Tags, o: nat, x: nat)
    requires Covers(top) && Tiled(t) && Unmanaged(t, f, end) && f < end && r == SeedTags(t, f, end, top)
    requires Coalesced(r)
    ensures NoPairAt(t, f, end, o, x)
  {
    hide SeedTags, Tiled, Unmanaged;
    SeedKeeps(t, f, end, top);
    assert NoFreeBuddy(r, o, x);
    if FreeBlock(t, o, x) && o < MAX_ORDER && x + Pow2(o) == f && BlockNo(o, x) % 2 == 0 && f + Pow2(o) <= end {
      Shift(o, x);
      OddOrder(f, end, o, SeedOrder(f, end, top));
      FirstBlock(t, f, end, top, r, o);
    }
  }

  /** A free upper buddy just above the region would meet its lower buddy inside it. */
  lemma PairAtEnd(t: Tags, f: nat, end: nat, r: Tags, o: nat)
    requires Tiled(r) && Coalesced(r) && Extends(t, r, f, end)
    ensures NoPairEndAt(t, f, end, o)
  {
    if FreeBlock(t, o, end) && o < MAX_ORDER && BlockNo(o, end) % 2 == 1 && end >= f + Pow2(o) {
      var y := BuddyOf(o, end);
      BuddyFacts(o, end);
      forall g: nat | BlockNo(o, g) == BlockNo(o, y) ensures g in r && r[g].free {
        InBlock(o, y, g);
      }
      assert WhollyFree(r, o, BlockNo(o, y));
      assert Uniform(r, y, end) && NoFreeBuddy(r, o, end);
      SameUp(o + 1, if r[y].order > o then r[y].order else o + 1, y, end);
      FreeRunIsOneBlock(r, o, BlockNo(o, y));
    }
  }

  /** Seeding leaves merging complete exactly when no free block next to the region has its buddy
      inside the region. */
  lemma SeedCoalescedIff(t: Tags, f: nat, end: nat, top: nat)
    requires Covers(top) && Tiled(t) && Coalesced(t) && Unmanaged(t, f, end) && f < end
    ensures Coalesced(SeedTags(t, f, end, top)) <==> NoPair(t, f, end) && NoPairEnd(t, f, end)
  {
    var r := SeedTags(t, f, end, top);
    SeedKeeps(t, f, end, top);
    if NoPair(t, f, end) && NoPairEnd(t, f, end) {
      SeedCoalesced(t, f, end, top, r);
    }
    if Coalesced(r) {
      forall o: nat, x: nat ensures NoPairAt(t, f, end, o, x) {
        PairAtStart(t, f, end, top, r, o, x);
      }
      forall o: nat ensures NoPairEndAt(t, f, end, o) {
        PairAtEnd(t, f, end, r, o);
      }
    }
  }

  /** A region with no managed frame just below and just above it leaves merging complete. */
  lemma NotTouching(t: Tags, f: nat, end: nat)
    requires Tiled(t) && (f == 0 || f - 1 !in t) && end !in t
    ensures NoPair(t, f, end) && NoPairEnd(t, f, end)
  {
    forall o: nat, x: nat ensures NoPairAt(t, f, end, o, x) {
      if Aligned(o, x) && x + Pow2(o) == f {
        InBlock(o, x, f - 1);
        assert Uniform(t, x, f - 1);
      }
    }
    assert forall o: nat :: NoPairEndAt(t, f, end, o);
  }

  lemma EmptyTiled()
    ensures Tiled(map[])
  {
  }

  lemma OnePage(t: Tags, f: nat, top: nat)
    requires Covers(top) && Tiled(t) && f !in t
    ensures var r := SeedTags(t, f, f + 1, top);
      Tiled(r) && Extends(t, r, f, f + 1) && FreeBlock(r, 0, f)
  {
    hide SeedTags, Tiled;
    var o := SeedOrder(f, f + 1, top);
    assert Unmanaged(t, f, f + 1);
    assert Pow2(o) <= 1;
    SeedKeeps(t, f, f + 1, top);
    FirstBlock(t, f, f + 1, top, SeedTags(t, f, f + 1, top), o);
  }

  /** Two one-page regions that touch, at 2 MiB where the managed memory begins, leave two free buddies
      apart: the two-page run they form is wholly free, yet no block of order 1 exists. */
  lemma TouchingRegions(top: nat)
    requires Covers(top)
    ensures var t := SeedTags(SeedTags(map[], 512, 513, top), 513, 514, top);
      && !Coalesced(t) && WhollyFree(t, 1, 256) && (forall f :: f in t ==> t[f].order == 0)
  {
    hide SeedTags, Tiled, Uniform;
    assert Tiled(map[]) by { EmptyTiled(); }
    OnePage(map[], 512, top);
    var s := SeedTags(map[], 512, 513, top);
    OnePage(s, 513, top);
    var t := SeedTags(s, 513, 514, top);
    assert t.Keys == {512, 513} by {
      assert Interval(512, 513) == {512} && Interval(513, 514) == {513};
    }
    assert FreeBlock(t, 0, 512) && FreeBlock(t, 0, 513) && BuddyOf(0, 512) == 513;
    assert !NoFreeBuddy(t, 0, 512);
    forall g: nat | BlockNo(1, g) == 256 ensures g in t && t[g].free {
      assert g == 512 || g == 513 by { assert BlockNo(1, g) == BlockNo(0, g) / 2; }
    }
  }

  // ----- every run

  datatype Op = Seed(start: nat, end: nat) | Take(f: nat, o: nat) | Give(f: nat, o: nat)

  /** A region may be seeded when its frames are not managed yet and no free neighbour block has its
      buddy inside it. */
  ghost predicate Seedable(t: Tags, start: nat, end: nat) {
    start <= end && Unmanaged(t, start, end) && NoPair(t, start, end) && NoPairEnd(t, start, end)
  }

  ghost predicate Step(t: Tags, op: Op, t': Tags) {
    match op
    case Seed(start, end) => Seedable(t, start, end) && t' == SeedTags(t, start, end, MAX_ORDER)
    case Take(f, o) => f in t && FreeBlock(t, t[f].order, f) && o <= t[f].order && t' == AllocTags(t, f, o)
    case Give(f, o) => o <= MAX_ORDER && LiveBlock(t, o, f) && t' == FreeTags(t, f, o)
  }

  ghost predicate Run(ts: seq<Tags>, ops: seq<Op>) {
    |ts| == |ops| + 1 && ts[0] == map[] && forall i :: 0 <= i < |ops| ==> Step(ts[i], ops[i], ts[i + 1])
  }

  lemma StepKeeps(t: Tags, op: Op, t': Tags)
    requires Tiled(t) && Coalesced(t) && Step(t, op, t')
    ensures Tiled(t') && Coalesced(t')
    ensures !op.Seed? ==> t'.Keys == t.Keys
  {
    match op
    case Seed(start, end) =>
      MaxOrderCovers();
      SeedKeeps(t, start, end, MAX_ORDER);
      SeedCoalesced(t, start, end, MAX_ORDER, t');
    case Take(f, o) => AllocKeeps(t, f, o);
    case Give(f, o) => FreeKeeps(t, f, o);
  }

  /** In every state reached from an empty allocator by seeding regions that do not touch and by valid
      allocations and frees, the blocks tile the managed frames and merging is complete. */
  lemma {:induction false} RunKeeps(ts: seq<Tags>, ops: seq<Op>, n: nat)
    requires Run(ts, ops) && n <= |ops|
    ensures Tiled(ts[n]) && Coalesced(ts[n])
    decreases n
  {
    if n > 0 {
      RunKeeps(ts, ops, n - 1);
      StepKeeps(ts[n - 1], ops[n - 1], ts[n]);
    }
  }

  /** In every reachable state there is a free block of order `o` or more exactly when some naturally
      aligned run of 2^o managed frames is wholly free: fragmentation never hides such a run. */
  lemma RunComplete(ts: seq<Tags>, ops: seq<Op>, n: nat, o: nat)
    requires Run(ts, ops) && n <= |ops| && o <= MAX_ORDER
    ensures (exists f: nat :: Fits(ts[n], o, f)) <==> exists i: nat :: WhollyFree(ts[n], o, i)
  {
    RunKeeps(ts, ops, n);
    FitsIffFreeRun(ts[n], o);
  }
}
