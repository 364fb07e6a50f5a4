/** The kernel heap: nine slab caches over the buddy allocator, and whole blocks for large layouts. */
module Heap {
  import opened Basics
  import opened Blocks
  import opened LinkedLists
  import opened Buddy
  import opened Slabs

  const CACHES: nat := 9
  /** Size of a link. */
  const WORD: nat := 8
  const SLAB_SIZES: seq<nat> := [8, 16, 32, 64, 128, 256, 512, 1024, 2048]

  /** Number of the cache whose objects have the given size. */
  function CacheOf(size: nat): nat {
    if size <= 8 then 0 else if size <= 16 then 1 else if size <= 32 then 2 else if size <= 64 then 3
    else if size <= 128 then 4 else if size <= 256 then 5 else if size <= 512 then 6 else if size <= 1024 then 7
    else 8
  }

  function SizeOf(c: nat): (r: nat)
    requires c < CACHES
    ensures r > 0
  {
    SLAB_SIZES[c]
  }

  lemma CacheSizes(c: nat)
    requires c < CACHES
    ensures IsSize(SizeOf(c)) && CacheOf(SizeOf(c)) == c && (SizeOf(c) == 2048 <==> c == 8)
  {
  }

  lemma SizeOfCache(size: nat)
    requires IsSize(size)
    ensures CacheOf(size) < CACHES && SizeOf(CacheOf(size)) == size
  {
  }

  /** The lists of cache `c`: 2c holds its partial slabs, 2c + 1 its full ones. */
  function Shelf(size: nat, full: bool): nat {
    2 * CacheOf(size) + (if full then 1 else 0)
  }

  // ----- which list a slab is on

  ghost predicate PlacedAt(lists: seq<seq<nat>>, place: map<nat, nat>, o: nat, s: nat) {
    InFamily(lists, o, s) <==> s in place && place[s] == o
  }

  ghost predicate ListsOk(next: map<nat, nat>, heads: seq<nat>, lists: seq<seq<nat>>, place: map<nat, nat>) {
    && |heads| == |lists| == 2 * CACHES && Family(next, heads, lists)
    && (forall o: nat, s: nat :: PlacedAt(lists, place, o, s))
  }

  lemma ListsLink(next: map<nat, nat>, heads: seq<nat>, lists: seq<seq<nat>>, place: map<nat, nat>, o: nat, s: nat)
    requires ListsOk(next, heads, lists, place) && o < |lists| && s !in place && s != 0
    ensures |heads| == |lists|
    ensures ListsOk(next[s := heads[o]], heads[o := s], lists[o := [s] + lists[o]], place[s := o])
  {
    hide Family;
    forall k: nat ensures !InFamily(lists, k, s) { assert PlacedAt(lists, place, k, s); }
    PushFamily(next, heads, lists, o, s);
    var lists', place' := lists[o := [s] + lists[o]], place[s := o];
    forall k: nat, t: nat ensures PlacedAt(lists', place', k, t) {
      assert PlacedAt(lists, place, k, t);
      if k == o { assert lists'[k] == [s] + lists[o]; }
    }
  }

  lemma ListsUnlink(next: map<nat, nat>, heads: seq<nat>, lists: seq<seq<nat>>, place: map<nat, nat>, o: nat, k: nat)
    requires ListsOk(next, heads, lists, place) && o < |lists| && k < |lists[o]|
    ensures lists[o][k] in next && |heads| == |lists|
    ensures k == 0 ==> heads[o] == lists[o][0]
    ensures k == 0 ==> ListsOk(next, heads[o := next[heads[o]]], lists[o := Cut(lists[o], 0)], place - {lists[o][0]})
    ensures k > 0 ==>
      ListsOk(next[lists[o][k - 1] := next[lists[o][k]]], heads, lists[o := Cut(lists[o], k)], place - {lists[o][k]})
  {
    FamilyDistinct(next, heads, lists, o);
    FamilyLinks(next, heads, lists, o);
    hide Family, Distinct;
    CutFamily(next, heads, lists, o, k);
    var s := lists[o][k];
    var lists', place' := lists[o := Cut(lists[o], k)], place - {s};
    assert InFamily(lists, o, s) && PlacedAt(lists, place, o, s);
    hide Cut;
    forall j: nat, t: nat ensures PlacedAt(lists', place', j, t) {
      assert PlacedAt(lists, place, j, t);
      if j == o { CutMembers(lists[o], k, t); }
    }
  }

  /** Stale words of slabs that are on no list do not matter. */
  lemma OnList(next: map<nat, nat>, heads: seq<nat>, lists: seq<seq<nat>>, place: map<nat, nat>, o: nat)
    requires ListsOk(next, heads, lists, place) && o < 2 * CACHES
    ensures |heads| == |lists| == 2 * CACHES && (heads[o] == 0 <==> lists[o] == [])
    ensures heads[o] != 0 ==> heads[o] == lists[o][0] && heads[o] in next && heads[o] in place && place[heads[o]] == o
  {
    FamilyLinks(next, heads, lists, o);
    if lists[o] != [] {
      assert InFamily(lists, o, lists[o][0]) && PlacedAt(lists, place, o, lists[o][0]);
    }
  }

  lemma OnWhich(next: map<nat, nat>, heads: seq<nat>, lists: seq<seq<nat>>, place: map<nat, nat>, s: nat)
    returns (k: nat)
    requires ListsOk(next, heads, lists, place) && s in place
    ensures place[s] < |lists| && k < |lists[place[s]]| && lists[place[s]][k] == s
  {
    assert PlacedAt(lists, place, place[s], s);
    k :| k < |lists[place[s]]| && lists[place[s]][k] == s;
  }

  // ----- slabs and large blocks own their frames

  /** The direct map starts at a multiple of the largest block. */
  ghost predicate DirectMap(hhdm: nat) {
    hhdm > 0 && hhdm % (PAGE_SIZE * Pow2(MAX_ORDER)) == 0
  }

  function FrameOf(hhdm: nat, p: nat): int {
    (p - hhdm) / PAGE_SIZE
  }

  ghost predicate OwnedAt(hhdm: nat, t: Tags, s: nat) {
    IsPtr(hhdm, s) && FrameOf(hhdm, s) in PageFrames(t)
  }

  ghost predicate Owned(hhdm: nat, t: Tags, slabs: set<nat>) {
    forall s :: s in slabs ==> OwnedAt(hhdm, t, s)
  }

  ghost predicate LargeAt(hhdm: nat, t: Tags, slabs: set<nat>, p: nat, o: nat) {
    IsPtr(hhdm, p) && LiveBlock(t, o, FrameOf(hhdm, p)) && p !in slabs
  }

  ghost predicate LargeOk(hhdm: nat, t: Tags, slabs: set<nat>, large: map<nat, nat>) {
    forall p :: p in large ==> LargeAt(hhdm, t, slabs, p, large[p])
  }

  lemma TookPage(hhdm: nat, t: Tags, t': Tags, f: nat, slabs: set<nat>, large: map<nat, nat>)
    requires Owned(hhdm, t, slabs) && LargeOk(hhdm, t, slabs, large) && OneTaken(t, t', f)
    ensures Ptr(hhdm, f) !in slabs && Owned(hhdm, t', slabs + {Ptr(hhdm, f)})
    ensures LargeOk(hhdm, t', slabs + {Ptr(hhdm, f)}, large)
  {
    hide Aligned;
    var s := Ptr(hhdm, f);
    assert FrameOf(hhdm, s) == f;
    assert !OwnedAt(hhdm, t, s);
    forall p | p in large ensures LargeAt(hhdm, t', slabs + {s}, p, large[p]) {
      assert LargeAt(hhdm, t, slabs, p, large[p]);
    }
    forall p | p in slabs + {s} ensures OwnedAt(hhdm, t', p) {
      if p != s { assert OwnedAt(hhdm, t, p); }
    }
  }

  lemma GavePage(hhdm: nat, t: Tags, t': Tags, s: nat, slabs: set<nat>, large: map<nat, nat>)
    requires s in slabs && IsPtr(hhdm, s) && Owned(hhdm, t, slabs) && LargeOk(hhdm, t, slabs, large)
    requires OneGiven(t, t', FrameOf(hhdm, s))
    ensures Owned(hhdm, t', slabs - {s}) && LargeOk(hhdm, t', slabs - {s}, large)
  {
    hide Aligned;
    assert OwnedAt(hhdm, t, s);
    forall p | p in large ensures LargeAt(hhdm, t', slabs - {s}, p, large[p]) {
      assert LargeAt(hhdm, t, slabs, p, large[p]);
    }
    forall p | p in slabs - {s} ensures OwnedAt(hhdm, t', p) {
      assert OwnedAt(hhdm, t, p);
    }
  }

  // ----- frames that move

  /** The frames of slab pages. */
  function SlabFrames(hhdm: nat, slabs: set<nat>): set<nat> {
    set s | s in slabs && s >= hhdm :: (s - hhdm) / PAGE_SIZE
  }

  /** Frames moved between the free ones and the slabs only: together they are the same frames, and every
      frame that others hold keeps its tag. */
  ghost predicate PagesMoved(hhdm: nat, t: Tags, slabs: set<nat>, t': Tags, slabs': set<nat>) {
    && FreeFrames(t') + SlabFrames(hhdm, slabs') == FreeFrames(t) + SlabFrames(hhdm, slabs)
    && (forall g :: g in t && !t[g].free && g !in SlabFrames(hhdm, slabs) ==> g in t' && t'[g] == t[g])
  }

  lemma PagesSame(hhdm: nat, t: Tags, slabs: set<nat>)
    ensures PagesMoved(hhdm, t, slabs, t, slabs)
  {
  }

  lemma PagesTrans(hhdm: nat, t0: Tags, s0: set<nat>, t1: Tags, s1: set<nat>, t2: Tags, s2: set<nat>)
    requires PagesMoved(hhdm, t0, s0, t1, s1) && PagesMoved(hhdm, t1, s1, t2, s2)
    ensures PagesMoved(hhdm, t0, s0, t2, s2)
  {
    hide SlabFrames;
    forall g | g in t0 && !t0[g].free && g !in SlabFrames(hhdm, s0) ensures g in t2 && t2[g] == t0[g] {
      assert g !in FreeFrames(t0) + SlabFrames(hhdm, s0);
      assert g !in SlabFrames(hhdm, s1);
    }
  }

  lemma PageTaken(hhdm: nat, t: Tags, t': Tags, phys: nat, slabs: set<nat>)
    requires OneTaken(t, t', phys / PAGE_SIZE) && phys % PAGE_SIZE == 0
    ensures PagesMoved(hhdm, t, slabs, t', slabs + {hhdm + phys})
  {
    hide FreeFrames, PageFrames;
    assert SlabFrames(hhdm, slabs + {hhdm + phys}) == SlabFrames(hhdm, slabs) + {phys / PAGE_SIZE};
  }

  lemma PageReturned(hhdm: nat, t: Tags, t': Tags, s: nat, slabs: set<nat>)
    requires s in slabs && s >= hhdm && OneGiven(t, t', (s - hhdm) / PAGE_SIZE)
    ensures PagesMoved(hhdm, t, slabs, t', slabs - {s})
  {
    hide FreeFrames, PageFrames;
    var f := (s - hhdm) / PAGE_SIZE;
    assert f in SlabFrames(hhdm, slabs);
    forall g | g in SlabFrames(hhdm, slabs) && g != f ensures g in SlabFrames(hhdm, slabs - {s}) {
      var q :| q in slabs && q >= hhdm && (q - hhdm) / PAGE_SIZE == g;
      assert q in slabs - {s};
    }
    assert SlabFrames(hhdm, slabs) == SlabFrames(hhdm, slabs - {s}) + {f};
  }

  /** The block of order `o` at `f` was free and is taken; every frame that others hold keeps its tag. */
  ghost predicate BlockTook(t: Tags, t': Tags, o: nat, f: nat) {
    && BlockFrames(t, o, f) <= FreeFrames(t) && FreeFrames(t') == FreeFrames(t) - BlockFrames(t, o, f)
    && (forall g :: g in t && !t[g].free ==> g in t' && t'[g] == t[g])
  }

  /** The block is free again; every frame that others hold keeps its tag. */
  ghost predicate BlockGave(t: Tags, t': Tags, o: nat, f: nat) {
    && BlockFrames(t, o, f) !! FreeFrames(t) && FreeFrames(t') == FreeFrames(t) + BlockFrames(t, o, f)
    && (forall g :: g in t && !t[g].free && g !in BlockFrames(t, o, f) ==> g in t' && t'[g] == t[g])
  }

  lemma TookBlock(t: Tags, order: nat, phys: nat, t': Tags)
    requires Tiled(t) && Granted(t, order, phys, t')
    ensures BlockTook(t, t', order, phys / PAGE_SIZE)
  {
    AllocKeeps(t, phys / PAGE_SIZE, order);
    hide AllocTags, Tiled, FreeFrames, BlockFrames, Coalesced;
  }

  /** Every frame of a live block is live. */
  lemma LiveFrame(t: Tags, o: nat, f: nat, g: nat)
    requires Tiled(t) && LiveBlock(t, o, f) && g in BlockFrames(t, o, f)
    ensures g !in FreeFrames(t)
  {
    assert Uniform(t, f, g);
  }

  lemma GaveBlock(t: Tags, o: nat, f: nat)
    requires Tiled(t) && o <= MAX_ORDER && LiveBlock(t, o, f)
    ensures BlockGave(t, FreeTags(t, f, o), o, f)
  {
    FreeKeeps(t, f, o);
    hide FreeTags, Coalesced;
    forall g | g in BlockFrames(t, o, f) ensures g !in FreeFrames(t) {
      LiveFrame(t, o, f, g);
    }
  }

  // ----- invariants of the caches

  ghost predicate ShelvedAt(size: map<nat, nat>, fr: map<nat, seq<nat>>, place: map<nat, nat>, s: nat) {
    s in fr && s in place && s in size && place[s] == Shelf(size[s], fr[s] == [])
  }

  /** A slab with a free object is on its cache's partial list, one without on the full list. */
  ghost predicate Shelved(size: map<nat, nat>, fr: map<nat, seq<nat>>, place: map<nat, nat>) {
    forall s :: s in size ==> ShelvedAt(size, fr, place, s)
  }

  /** Every slab of objects up to 1024 bytes, except possibly `x`, has an object in use. */
  ghost predicate Busy(size: map<nat, nat>, used: map<nat, nat>, x: nat) {
    forall s :: s in size && s != x && size[s] != 2048 ==> s in used && used[s] > 0
  }

  /** The objects of 2048 bytes in use. */
  ghost function Big(objs: map<nat, nat>): set<nat> {
    set p | p in objs && objs[p] == 2048
  }

  function Max(a: nat, b: nat): nat {
    if a < b then b else a
  }

  ghost function Elems(l: seq<nat>): set<nat> {
    set x | x in l
  }

  lemma {:induction false} ListSet(l: seq<nat>)
    requires Distinct(l)
    ensures |Elems(l)| == |l|
  {
    if l == [] {
      assert Elems(l) == {};
    } else {
      ListSet(l[1..]);
      assert Elems(l) == Elems(l[1..]) + {l[0]};
    }
  }

  /** Two different live blocks share no frame. */
  lemma OtherBlock(t: Tags, f: nat, o: nat, g: nat)
    requires Tiled(t) && LiveBlock(t, o, f) && g in t && LiveBlock(t, t[g].order, g) && f != g
    ensures !SameBlock(o, f, g) && (forall h :: SameBlock(o, f, h) ==> !SameBlock(t[g].order, g, h))
  {
    assert Uniform(t, f, g);
    if SameBlock(o, f, g) { AlignedUnique(o, f, g); }
    forall h | SameBlock(o, f, h) ensures !SameBlock(t[g].order, g, h) {
      assert Uniform(t, f, h) && Uniform(t, g, h);
    }
  }

  /** Different live blocks occupy disjoint runs of frames. */
  lemma FramesApart(t: Tags, f: nat, o: nat, g: nat, k: nat)
    requires Tiled(t) && LiveBlock(t, o, f) && LiveBlock(t, k, g) && f != g
    ensures f + Pow2(o) <= g || g + Pow2(k) <= f
  {
    OtherBlock(t, f, o, g);
    OtherBlock(t, g, k, f);
    InBlock(o, f, g);
    InBlock(k, g, f);
  }

  // ----- large blocks

  lemma BlockAt(hhdm: nat, t: Tags, slabs: set<nat>, large: map<nat, nat>, p: nat)
    requires Tiled(t) && LargeOk(hhdm, t, slabs, large) && p in large
    ensures p >= hhdm && (p - hhdm) % PAGE_SIZE == 0 && LiveBlock(t, large[p], (p - hhdm) / PAGE_SIZE)
    ensures large[p] <= MAX_ORDER
  {
    assert LargeAt(hhdm, t, slabs, p, large[p]);
  }

  /** While live frames keep their tags, what is owned stays owned. */
  lemma StillOwned(hhdm: nat, t: Tags, t': Tags, slabs: set<nat>, large: map<nat, nat>)
    requires Owned(hhdm, t, slabs) && LargeOk(hhdm, t, slabs, large)
    requires forall g :: g in t && !t[g].free ==> g in t' && t'[g] == t[g]
    ensures Owned(hhdm, t', slabs) && LargeOk(hhdm, t', slabs, large)
  {
    hide Aligned;
    forall q | q in large ensures LargeAt(hhdm, t', slabs, q, large[q]) {
      assert LargeAt(hhdm, t, slabs, q, large[q]);
    }
    forall s | s in slabs ensures OwnedAt(hhdm, t', s) {
      assert OwnedAt(hhdm, t, s);
    }
  }

  /** A free frame belongs to no slab and no large block. */
  lemma FreeUnowned(hhdm: nat, t: Tags, slabs: set<nat>, large: map<nat, nat>, f: nat)
    requires Owned(hhdm, t, slabs) && LargeOk(hhdm, t, slabs, large) && f in t && t[f].free
    ensures Ptr(hhdm, f) !in slabs && Ptr(hhdm, f) !in large
  {
    hide Aligned;
    var p := Ptr(hhdm, f);
    assert FrameOf(hhdm, p) == f;
    assert !OwnedAt(hhdm, t, p);
    assert forall o: nat :: !LargeAt(hhdm, t, slabs, p, o);
  }

  /** What handing out a block means for the frames. */
  lemma GrantedFacts(t: Tags, order: nat, phys: nat, t': Tags)
    requires Tiled(t) && Granted(t, order, phys, t')
    ensures phys % PAGE_SIZE == 0 && phys / PAGE_SIZE in t && t[phys / PAGE_SIZE].free && order <= MAX_ORDER
    ensures LiveBlock(t', order, phys / PAGE_SIZE)
    ensures forall g :: g in t && !t[g].free ==> g in t' && t'[g] == t[g]
  {
    hide AllocTags, Aligned, FreeFrames, BlockFrames, Coalesced, Fits;
    AllocKeeps(t, phys / PAGE_SIZE, order);
  }

  lemma AddLarge(hhdm: nat, t: Tags, slabs: set<nat>, large: map<nat, nat>, p: nat, order: nat)
    requires LargeOk(hhdm, t, slabs, large) && LargeAt(hhdm, t, slabs, p, order)
    ensures LargeOk(hhdm, t, slabs, large[p := order])
  {
    hide LargeAt;
    var large' := large[p := order];
    forall q | q in large' ensures LargeAt(hhdm, t, slabs, q, large'[q]) {
      if q != p { assert LargeAt(hhdm, t, slabs, q, large[q]); }
    }
  }

  lemma DirectPositive(hhdm: nat)
    requires DirectMap(hhdm)
    ensures hhdm > 0
  {
  }

  lemma BlockTaken(hhdm: nat, t: Tags, t': Tags, order: nat, phys: nat, slabs: set<nat>, large: map<nat, nat>)
    requires Tiled(t) && Granted(t, order, phys, t') && Owned(hhdm, t, slabs) && LargeOk(hhdm, t, slabs, large)
    requires DirectMap(hhdm)
    ensures hhdm + phys > 0 && hhdm + phys !in large && phys % PAGE_SIZE == 0 && Aligned(order, phys / PAGE_SIZE)
    ensures order <= MAX_ORDER
    ensures Owned(hhdm, t', slabs) && LargeOk(hhdm, t', slabs, large[hhdm + phys := order])
  {
    hide Aligned, Owned, LargeOk, DirectMap, Granted, Tiled;
    var f := phys / PAGE_SIZE;
    GrantedFacts(t, order, phys, t');
    StillOwned(hhdm, t, t', slabs, large);
    FreeUnowned(hhdm, t, slabs, large, f);
    assert Ptr(hhdm, f) == hhdm + phys && FrameOf(hhdm, hhdm + phys) == f;
    AddLarge(hhdm, t', slabs, large, hhdm + phys, order);
    DirectPositive(hhdm);
  }

  lemma SlabsKept(hhdm: nat, t: Tags, t': Tags, p: nat, o: nat, slabs: set<nat>)
    requires Tiled(t) && Owned(hhdm, t, slabs) && LargeAt(hhdm, t, slabs, p, o)
    requires forall g :: g in t && !t[g].free && !SameBlock(o, FrameOf(hhdm, p), g) ==> g in t' && t'[g] == t[g]
    ensures Owned(hhdm, t', slabs)
  {
    hide Tiled, SameBlock;
    forall s | s in slabs ensures OwnedAt(hhdm, t', s) {
      assert OwnedAt(hhdm, t, s);
      OtherBlock(t, FrameOf(hhdm, p), o, FrameOf(hhdm, s));
    }
  }

  lemma BlockGiven(hhdm: nat, t: Tags, p: nat, slabs: set<nat>, large: map<nat, nat>)
    requires Tiled(t) && Owned(hhdm, t, slabs) && LargeOk(hhdm, t, slabs, large) && p in large && large[p] <= MAX_ORDER
    requires p >= hhdm
    ensures Owned(hhdm, FreeTags(t, (p - hhdm) / PAGE_SIZE, large[p]), slabs)
    ensures LargeOk(hhdm, FreeTags(t, (p - hhdm) / PAGE_SIZE, large[p]), slabs, large - {p})
  {
    assert LargeAt(hhdm, t, slabs, p, large[p]);
    var f, o := FrameOf(hhdm, p), large[p];
    FreeKeeps(t, f, o);
    var t', large' := FreeTags(t, f, o), large - {p};
    hide FreeTags, Aligned, Tiled, FreeFrames, Coalesced, SameBlock, BlockFrames;
    forall q | q in large' ensures LargeAt(hhdm, t', slabs, q, large'[q]) {
      assert LargeAt(hhdm, t, slabs, q, large[q]);
      OtherBlock(t, f, o, FrameOf(hhdm, q));
    }
    SlabsKept(hhdm, t, t', p, o, slabs);
  }

  // ----- alignment

  lemma {:induction false} PowSum(a: nat, b: nat)
    ensures Pow2(a + b) == Pow2(a) * Pow2(b)
  {
    if a > 0 { PowSum(a - 1, b); }
  }

  lemma {:induction false} PowOrder(a: nat, b: nat)
    requires Pow2(a) <= Pow2(b)
    ensures a <= b
    decreases a
  {
    if a > 0 && b > 0 { PowOrder(a - 1, b - 1); }
  }

  /** A multiple of a power of two is a multiple of every smaller one. */
  lemma MultipleDown(x: nat, k: nat, a: nat)
    requires a <= k && x % Pow2(k) == 0
    ensures x % Pow2(a) == 0
  {
    BlockIsQuotient(k, x);
    AlignedDown(k, a, x);
    BlockIsQuotient(a, x);
  }

  lemma CachePower(c: nat)
    requires c < CACHES
    ensures SizeOf(c) == Pow2(3 + c)
  {
    assert Pow2(3) == 8 && Pow2(4) == 16 && Pow2(5) == 32 && Pow2(6) == 64 && Pow2(7) == 128;
    assert Pow2(8) == 256 && Pow2(9) == 512 && Pow2(10) == 1024 && Pow2(11) == 2048;
  }

  lemma SmallAligned(p: nat, c: nat, a: nat)
    requires c < CACHES && p % SizeOf(c) == 0 && Pow2(a) <= SizeOf(c)
    ensures p % Pow2(a) == 0
  {
    CachePower(c);
    PowOrder(a, 3 + c);
    MultipleDown(p, 3 + c, a);
  }

  lemma PagePower(o: nat)
    ensures PAGE_SIZE * Pow2(o) == Pow2(12 + o)
  {
    PowSum(12, o);
    CachePower(8);
    assert Pow2(12) == 4096;
  }

  lemma SumMultiple(x: nat, y: nat, d: nat)
    requires d > 0 && x % d == 0 && y % d == 0
    ensures (x + y) % d == 0
  {
    assert x + y == (x / d + y / d) * d;
    QuotientUnique(x + y, d, x / d + y / d, 0);
  }

  /** A block is aligned to every power of two up to its size. */
  lemma BlockAligned(hhdm: nat, order: nat, phys: nat, a: nat)
    requires DirectMap(hhdm) && order <= MAX_ORDER && phys % PAGE_SIZE == 0 && Aligned(order, phys / PAGE_SIZE)
    requires Pow2(a) <= PAGE_SIZE * Pow2(order)
    ensures (hhdm + phys) % Pow2(a) == 0
  {
    PagePower(order);
    PagePower(MAX_ORDER);
    hide Pow2, Aligned;
    var k := 12 + order;
    MultipleDown(hhdm, 12 + MAX_ORDER, k);
    ScaledBlock(phys / PAGE_SIZE, order, phys);
    SumMultiple(hhdm, phys, Pow2(k));
    PowOrder(a, k);
    MultipleDown(hhdm + phys, k, a);
  }

  // ----- layouts

  /** Whether a layout is served from a slab. */
  predicate Small(bytes: nat, align: nat) {
    bytes <= 2048 && align <= 2048
  }

  /** The object size that serves a small layout. */
  function ObjectSize(bytes: nat, align: nat): (r: nat)
    requires Small(bytes, align)
    ensures bytes <= r && align <= r && IsSize(r)
    ensures forall z :: IsSize(z) && bytes <= z && align <= z ==> r <= z
  {
    SizeOf(CacheOf(Max(bytes, align)))
  }

  /** The order of the smallest block of at least the given number of pages. */
  function OrderFor(pages: nat): (o: nat)
    requires pages > 0
    ensures pages <= Pow2(o) && (o > 0 ==> Pow2(o - 1) < pages)
  {
    if pages == 1 then 0 else 1 + OrderFor((pages + 1) / 2)
  }

  lemma WholePages(bytes: nat)
    requires bytes > 0
    ensures var p := AlignUp(bytes, PAGE_SIZE) / PAGE_SIZE; p > 0 && PAGE_SIZE * (p - 1) < bytes <= PAGE_SIZE * p
  {
  }

  /** The order of the block that serves a large layout: the smallest that holds it. */
  function BlockOrder(bytes: nat): (o: nat)
    requires bytes > 0
    ensures bytes <= PAGE_SIZE * Pow2(o) && (o > 0 ==> PAGE_SIZE * Pow2(o - 1) < bytes)
  {
    WholePages(bytes);
    OrderFor(AlignUp(bytes, PAGE_SIZE) / PAGE_SIZE)
  }

  /** List `a` lost one slab and list `b` gained one. */
  ghost predicate Moved(lists: seq<seq<nat>>, lists': seq<seq<nat>>, a: nat, b: nat) {
    && |lists| == |lists'| == 2 * CACHES
    && forall o :: 0 <= o < 2 * CACHES ==> |lists'[o]| == |lists[o]| + (if o == a then -1 else if o == b then 1 else 0)
  }

  lemma MovedBig(lists: seq<seq<nat>>, lists': seq<seq<nat>>, c: nat)
    requires |lists| == 2 * CACHES && (lists' == lists || Moved(lists, lists', 2 * c, 2 * c + 1))
    requires (c == 8 ==> Moved(lists, lists', 16, 17))
    ensures |lists'| == 18 && |lists'[17]| == |lists[17]| + (if c == 8 then 1 else 0)
    ensures |lists'[16]| + |lists'[17]| == |lists[16]| + |lists[17]|
  {
  }

  lemma MovedSize(lists: seq<seq<nat>>, lists': seq<seq<nat>>, c: nat)
    requires Moved(lists, lists', 2 * c + 1, 2 * c) && |lists| == 2 * CACHES
    ensures |lists'| == 2 * CACHES
  {
  }

  lemma ReopenedBig(lists: seq<seq<nat>>, lists': seq<seq<nat>>, c: nat)
    requires |lists| == 2 * CACHES && Moved(lists, lists', 2 * c + 1, 2 * c)
    ensures |lists'| == 18 && |lists'[17]| == |lists[17]| - (if c == 8 then 1 else 0)
    ensures |lists'[16]| + |lists'[17]| == |lists[16]| + |lists[17]|
  {
  }

  lemma BigMore(objs: map<nat, nat>, p: nat, z: nat)
    requires p !in objs
    ensures |Big(objs[p := z])| == |Big(objs)| + (if z == 2048 then 1 else 0)
  {
    assert Big(objs[p := z]) == if z == 2048 then Big(objs) + {p} else Big(objs);
  }

  lemma BigLess(objs: map<nat, nat>, p: nat)
    requires p in objs
    ensures |Big(objs - {p})| == |Big(objs)| - (if objs[p] == 2048 then 1 else 0)
  {
    assert Big(objs - {p}) == if objs[p] == 2048 then Big(objs) - {p} else Big(objs);
  }

  lemma BusyLess(size: map<nat, nat>, used: map<nat, nat>, s: nat)
    requires s in used && s in size && used[s] > 0 && Busy(size, used, 0) && (used[s] > 1 || size[s] == 2048)
    ensures Busy(size, used[s := used[s] - 1], 0)
  {
  }

  lemma BusyDrop(size: map<nat, nat>, used: map<nat, nat>, s: nat)
    requires s in used && used[s] > 0 && Busy(size, used, 0)
    ensures Busy(size - {s}, used[s := used[s] - 1] - {s}, 0)
  {
  }

  lemma SlabPositive(size: map<nat, nat>, free: map<nat, nat>, used: map<nat, nat>, link: map<nat, nat>,
                     fr: map<nat, seq<nat>>, objs: map<nat, nat>, s: nat)
    requires SlabAt(size, free, used, link, fr, objs, s)
    ensures s > 0
  {
  }

  /** The slab an object in use comes from. */
  lemma GiveSlab(size: map<nat, nat>, free: map<nat, nat>, used: map<nat, nat>, link: map<nat, nat>,
                 fr: map<nat, seq<nat>>, objs: map<nat, nat>, place: map<nat, nat>, s: nat, p: nat, c: nat)
    requires SlabsOk(size, free, used, link, fr, objs) && p in objs && s == PageBase(p) && c < CACHES
    requires objs[p] == SizeOf(c)
    requires Shelved(size, fr, place) && place.Keys == size.Keys
    ensures s in size && s in used && s in fr && size[s] == SizeOf(c) && IsSize(size[s]) && s > 0 && used[s] > 0
    ensures CacheOf(size[s]) == c
    ensures used[s] <= Capacity(size[s]) && (used[s] == Capacity(size[s]) <==> fr[s] == [])
    ensures place[s] == 2 * c + (if fr[s] == [] then 1 else 0)
    ensures size[s] == 2048 <==> c == 8
    ensures Capacity(size[s]) == 1 <==> c == 8
  {
    hide SlabAt, IsSize, Capacity, SizeOf, CacheOf;
    SlabsGive(size, free, used, link, fr, objs, s, p);
    assert SlabAt(size, free, used, link, fr, objs, s);
    SlabPositive(size, free, used, link, fr, objs, s);
    assert ShelvedAt(size, fr, place, s);
    CacheSizes(c);
    SizeFacts(size[s]);
  }

  lemma ShelvedLess(size: map<nat, nat>, fr: map<nat, seq<nat>>, place: map<nat, nat>, fr': map<nat, seq<nat>>, s: nat)
    requires Shelved(size, fr, place) && fr'.Keys == fr.Keys - {s}
    requires forall t :: t in fr' ==> fr'[t] == fr[t]
    ensures Shelved(size - {s}, fr', place - {s})
  {
    forall t | t in size - {s} ensures ShelvedAt(size - {s}, fr', place - {s}, t) {
      assert ShelvedAt(size, fr, place, t);
    }
  }

  lemma PageGive(hhdm: nat, t: Tags, s: nat, slabs: set<nat>)
    requires s in slabs && Owned(hhdm, t, slabs)
    ensures IsPtr(hhdm, s) && s >= hhdm && (s - hhdm) % PAGE_SIZE == 0 && (s - hhdm) / PAGE_SIZE == FrameOf(hhdm, s)
    ensures FrameOf(hhdm, s) in PageFrames(t)
  {
    assert OwnedAt(hhdm, t, s);
  }

  lemma BusyMore(size: map<nat, nat>, used: map<nat, nat>, s: nat, retry: bool)
    requires s in used && 0 !in size && Busy(size, used, if retry then s else 0)
    ensures Busy(size, used[s := used[s] + 1], 0)
  {
  }

  lemma OneLess(t: Tags, t': Tags, f: nat)
    requires OneTaken(t, t', f)
    ensures |FreeFrames(t')| + 1 == |FreeFrames(t)|
  {
    hide FreeFrames, PageFrames;
  }

  lemma OneKey(size: map<nat, nat>, s: nat, z: nat)
    requires s !in size
    ensures size[s := z].Keys == size.Keys + {s} && |size[s := z]| == |size| + 1
  {
    assert size[s := z].Keys == size.Keys + {s};
    assert |size[s := z]| == |size[s := z].Keys|;
  }

  lemma OneMore(t: Tags, t': Tags, f: nat, size: map<nat, nat>, s: nat)
    requires OneGiven(t, t', f) && s in size
    ensures (size - {s}).Keys == size.Keys - {s}
    ensures |FreeFrames(t')| + |size - {s}| == |FreeFrames(t)| + |size|
  {
    hide FreeFrames, PageFrames;
    assert (size - {s}).Keys == size.Keys - {s};
    assert |size - {s}| == |(size - {s}).Keys|;
  }

  lemma Reassociate(k: nat, p: nat)
    ensures k * (PAGE_SIZE * p) == (k * p) * PAGE_SIZE
  {
  }

  lemma HhdmAligned(hhdm: nat)
    requires DirectMap(hhdm)
    ensures hhdm % PAGE_SIZE == 0
  {
    var k := hhdm / (PAGE_SIZE * Pow2(MAX_ORDER));
    assert hhdm == k * (PAGE_SIZE * Pow2(MAX_ORDER));
    Reassociate(k, Pow2(MAX_ORDER));
    QuotientUnique(hhdm, PAGE_SIZE, k * Pow2(MAX_ORDER), 0);
  }

  lemma PageBack(hhdm: nat, t: Tags, t': Tags, phys: nat, slabs: set<nat>, large: map<nat, nat>)
    requires DirectMap(hhdm) && phys % PAGE_SIZE == 0 && OneTaken(t, t', phys / PAGE_SIZE)
    requires Owned(hhdm, t, slabs) && LargeOk(hhdm, t, slabs, large)
    ensures hhdm > 0 && hhdm + phys !in slabs && (hhdm + phys) % PAGE_SIZE == 0
    ensures Owned(hhdm, t', slabs + {hhdm + phys}) && LargeOk(hhdm, t', slabs + {hhdm + phys}, large)
  {
    hide OneTaken, Owned, LargeOk;
    HhdmAligned(hhdm);
    var f := phys / PAGE_SIZE;
    assert Ptr(hhdm, f) == hhdm + phys;
    TookPage(hhdm, t, t', f, slabs, large);
  }

  lemma BusyBut(size: map<nat, nat>, used: map<nat, nat>, s: nat, z: nat)
    requires Busy(size, used, 0) && 0 !in size
    ensures Busy(size[s := z], used[s := 0], s)
  {
  }

  lemma ShelvedNew(size: map<nat, nat>, fr: map<nat, seq<nat>>, place: map<nat, nat>, s: nat, z: nat, list: seq<nat>,
                   o: nat)
    requires Shelved(size, fr, place) && s !in size && list != [] && o == Shelf(z, false)
    ensures Shelved(size[s := z], fr[s := list], place[s := o])
  {
    var size', fr', place' := size[s := z], fr[s := list], place[s := o];
    forall t | t in size' ensures ShelvedAt(size', fr', place', t) {
      if t != s { assert ShelvedAt(size, fr, place, t); }
    }
  }

  lemma SumTimes(i: nat, j: nat, z: nat)
    ensures (i + j) * z == i * z + j * z
  {
  }

  lemma ThreadOne(start: nat, z: nat, n: nat, i: nat)
    requires i < n
    ensures start + (i + 1) * z == start + i * z + z && start + i * z + z <= start + n * z
  {
    SumTimes(i, 1, z);
    SumTimes(i, n - i, z);
    Product(n - i, z);
  }

  lemma {:induction false} ObjsAbove(start: nat, z: nat, n: nat)
    ensures forall p :: p in Objs(start, z, n) ==> p >= start
    decreases n
  {
    if n > 0 { ObjsAbove(start + z, z, n - 1); }
  }

  lemma ThreadChain(link: map<nat, nat>, head: nat, obj: nat, z: nat, n: nat)
    requires z > 0 && obj > 0 && Chain(link, head, Objs(obj + z, z, n))
    ensures Chain(link[obj := head], obj, Objs(obj, z, n + 1))
  {
    var t := Objs(obj + z, z, n);
    ObjsAbove(obj + z, z, n);
    assert Objs(obj, z, n + 1) == [obj] + t;
    forall i | 0 <= i < |t| ensures t[i] != obj { assert t[i] in t; }
  }

  lemma MovedLengths(lists: seq<seq<nat>>, a: nat, b: nat, s: nat)
    requires |lists| == 18 && a < 18 && b < 18 && a != b && lists[a] != []
    ensures Moved(lists, lists[a := Cut(lists[a], 0)][b := [s] + lists[b]], a, b)
  {
  }

  /** The head of a partial list is a slab of that cache with a free object. */
  lemma HeadSlab(size: map<nat, nat>, free: map<nat, nat>, used: map<nat, nat>, link: map<nat, nat>,
                 fr: map<nat, seq<nat>>, objs: map<nat, nat>, place: map<nat, nat>, s: nat, c: nat)
    requires SlabsOk(size, free, used, link, fr, objs) && s in size && Shelved(size, fr, place)
    requires place.Keys == size.Keys
    requires place[s] == 2 * c && c < CACHES
    ensures SlabAt(size, free, used, link, fr, objs, s) && free[s] != 0 && size[s] == SizeOf(c) && s > 0
    ensures CacheOf(size[s]) == c
    ensures IsSize(size[s]) && (Capacity(size[s]) == 1 <==> c == 8) && used[s] < Capacity(size[s])
  {
    assert SlabAt(size, free, used, link, fr, objs, s);
    assert ShelvedAt(size, fr, place, s);
    hide SlabOk, IsSize, Capacity, SizeOf, CacheOf;
    SlabCount(s, size[s], free[s], used[s], link, fr[s], objs);
    SizeOfCache(size[s]);
    CacheSizes(c);
    SizeFacts(size[s]);
  }

  lemma ShelvedAfter(size: map<nat, nat>, fr: map<nat, seq<nat>>, place: map<nat, nat>, fr': map<nat, seq<nat>>,
                     place': map<nat, nat>, s: nat)
    requires Shelved(size, fr, place) && ShelvedAt(size, fr', place', s)
    requires forall t :: t in size && t != s ==>
      t in fr' && t in fr && fr'[t] == fr[t] && t in place' && t in place && place'[t] == place[t]
    ensures Shelved(size, fr', place')
  {
    forall t | t in size ensures ShelvedAt(size, fr', place', t) {
      if t != s { assert ShelvedAt(size, fr, place, t); }
    }
  }

  // ----- the heap

  class KernelHeap {
    const pmm: BuddyAllocator
    /** Heads of the partial and full lists of the caches. */
    var heads: seq<nat>
    /** The fields of the slab headers, by the address of the slab. */
    var next: map<nat, nat>
    var free: map<nat, nat>
    var used: map<nat, nat>
    var size: map<nat, nat>
    /** The first word of each free object, by its address. */
    var link: map<nat, nat>
    ghost var lists: seq<seq<nat>>
    ghost var place: map<nat, nat>
    ghost var fr: map<nat, seq<nat>>
    /** Objects in use with their sizes, and large blocks in use with their orders. */
    ghost var objs: map<nat, nat>
    ghost var large: map<nat, nat>
    /** The most 2048-byte objects ever in use at once. */
    ghost var peak: nat

    ghost predicate Shaped()
      reads this
    {
      && ListsOk(next, heads, lists, place) && SlabsOk(size, free, used, link, fr, objs)
      && place.Keys == size.Keys && Shelved(size, fr, place)
    }

    ghost predicate Backed()
      reads `size, `large, pmm
    {
      && pmm.Valid() && DirectMap(pmm.hhdm)
      && Owned(pmm.hhdm, pmm.tags, size.Keys) && LargeOk(pmm.hhdm, pmm.tags, size.Keys, large)
    }

    ghost predicate Accounted()
      reads this
    {
      && Busy(size, used, 0)
      && |lists| == 18 && |Big(objs)| == |lists[17]| && |lists[16]| + |lists[17]| == peak
    }

    ghost predicate Valid()
      reads this, pmm
    {
      Shaped() && Backed() && Accounted()
    }

    /** Cache `c` has no free object, and there is no free frame for another slab. */
    ghost predicate Exhausted(c: nat)
      reads this, pmm
    {
      |lists| == 18 && c < CACHES && lists[2 * c] == [] && FreeFrames(pmm.tags) == {}
    }

    /** Free frames and slab pages together. */
    ghost function Held(): nat
      reads `size, pmm
    {
      |FreeFrames(pmm.tags)| + |size|
    }

    lemma ShapedParts()
      requires Shaped()
      ensures size.Keys == free.Keys == used.Keys == fr.Keys == place.Keys && 0 !in size
    {
      hide SlabOk;
      if 0 in size {
        assert SlabAt(size, free, used, link, fr, objs, 0);
        SlabCount(0, size[0], free[0], used[0], link, fr[0], objs);
      }
    }

    /** Between adding a slab to cache `c` and taking its first object. */
    ghost predicate Pending(c: nat)
      reads this
    {
      && c < CACHES && |heads| == |lists| == 18 && heads[2 * c] != 0 && Busy(size, used, heads[2 * c])
      && |Big(objs)| == |lists[17]| && |lists[16]| + |lists[17]| == (if c == 8 then peak + 1 else peak)
      && (c == 8 ==> |Big(objs)| == peak)
    }

    constructor (p: BuddyAllocator)
      requires p.Valid() && DirectMap(p.hhdm)
      ensures Valid() && pmm == p && objs == map[] && large == map[] && size == map[] && peak == 0
    {
      pmm := p;
      heads := seq(2 * CACHES, _ => 0);
      next, free, used, size, link := map[], map[], map[], map[], map[];
      lists := seq(2 * CACHES, _ => []);
      place, fr, objs, large, peak := map[], map[], map[], map[], 0;
      new;
      assert Big(objs) == {};
      forall o: nat, s: nat ensures PlacedAt(lists, place, o, s) {}
    }

    /** Pops the first free object of slab `s`. */
    method PopObject(s: nat) returns (p: nat)
      requires SlabsOk(size, free, used, link, fr, objs) && s in size && free[s] != 0
      modifies `free, `used, `fr, `objs
      ensures SlabsOk(size, free, used, link, fr, objs) && IsSize(size[s])
      ensures s in old(used) && used == old(used)[s := old(used)[s] + 1]
      ensures s in old(fr) && old(fr)[s] != [] && fr == old(fr)[s := old(fr)[s][1..]]
      ensures used[s] == Capacity(size[s]) <==> fr[s] == []
      ensures p !in old(objs) && objs == old(objs)[p := size[s]] && IsObj(size[s], s, p)
    {
      hide SlabAt, SlabOk, Capacity, IsSize, IsObj;
      SlabsTake(size, free, used, link, fr, objs, s);
      hide SlabsOk;
      p := free[s];
      free, used, fr, objs := free[s := link[p]], used[s := used[s] + 1], fr[s := fr[s][1..]], objs[p := size[s]];
    }

    /** Moves the first slab of list `a` to the front of list `b`. */
    method MoveHead(a: nat, b: nat)
      requires ListsOk(next, heads, lists, place) && a < 2 * CACHES && b < 2 * CACHES && a != b && heads[a] != 0
      modifies `heads, `next, `lists, `place
      ensures ListsOk(next, heads, lists, place)
      ensures old(heads[a]) in old(place) && place == old(place)[old(heads[a]) := b]
      ensures Moved(old(lists), lists, a, b)
    {
      hide Family, PlacedAt, Cut;
      OnList(next, heads, lists, place, a);
      var s := heads[a];
      ghost var lists0 := lists;
      ListsUnlink(next, heads, lists, place, a, 0);
      hide ListsOk;
      heads, lists, place := heads[a := next[s]], lists[a := Cut(lists[a], 0)], place - {s};
      ListsLink(next, heads, lists, place, b, s);
      next := next[s := heads[b]];
      heads, lists, place := heads[b := s], lists[b := [s] + lists[b]], place[s := b];
      MovedLengths(lists0, a, b, s);
    }

    /** Pops the first free object of the first partial slab; a slab that becomes full moves to the full list. */
    method TakeObject(c: nat) returns (p: nat, ghost s: nat)
      requires Shaped() && c < CACHES && heads[2 * c] != 0
      modifies `heads, `next, `free, `used, `lists, `place, `fr, `objs
      ensures Shaped()
      ensures p !in old(objs) && objs == old(objs)[p := SizeOf(c)] && IsObj(SizeOf(c), s, p)
      ensures s == old(heads[2 * c]) && s in old(used) && used == old(used)[s := old(used)[s] + 1]
      ensures lists == old(lists) || Moved(old(lists), lists, 2 * c, 2 * c + 1)
      ensures c == 8 ==> Moved(old(lists), lists, 16, 17)
    {
      hide Family, PlacedAt, Capacity, IsSize, CacheOf, SizeOf, IsObj, Shelved, SlabsOk, Moved, ListsOk;
      ShapedParts();
      OnList(next, heads, lists, place, 2 * c);
      var slab := heads[2 * c];
      s := slab;
      HeadSlab(size, free, used, link, fr, objs, place, s, c);
      p := PopObject(slab);
      if used[slab] == Capacity(size[slab]) {
        MoveHead(2 * c, 2 * c + 1);
      }
      ShelvedAfter(size, old(fr), old(place), fr, place, s);
    }

    /** Threads the object places of a fresh page into a free list, last to first. */
    method ThreadObjects(start: nat, z: nat, n: nat) returns (head: nat)
      requires start > 0 && z > 0
      modifies `link
      ensures Chain(link, head, Objs(start, z, n))
      ensures forall p :: p in old(link) && !(start <= p < start + n * z) ==> p in link && link[p] == old(link)[p]
    {
      head := 0;
      var i := n;
      while i > 0
        invariant 0 <= i <= n && Chain(link, head, Objs(start + i * z, z, n - i))
        invariant forall p :: p in old(link) && !(start + i * z <= p < start + n * z) ==>
          p in link && link[p] == old(link)[p]
      {
        i := i - 1;
        ThreadOne(start, z, n, i);
        var obj := start + i * z;
        ThreadChain(link, head, obj, z, n - i - 1);
        link := link[obj := head];
        head := obj;
      }
    }

    method LinkSlab(o: nat, s: nat)
      requires ListsOk(next, heads, lists, place) && o < 2 * CACHES && s !in place && s != 0
      modifies `heads, `next, `lists, `place
      ensures ListsOk(next, heads, lists, place) && place == old(place)[s := o] && |old(lists)| == 2 * CACHES
      ensures lists == old(lists)[o := [s] + old(lists)[o]] && heads[o] == s
    {
      hide Family, PlacedAt;
      ListsLink(next, heads, lists, place, o, s);
      next := next[s := heads[o]];
      heads, lists, place := heads[o := s], lists[o := [s] + lists[o]], place[s := o];
    }

    function LoadLink(o: nat, slot: Slot): nat
      requires o < |heads| && (slot.Next? ==> slot.node in next)
      reads this
    {
      match slot
      case Head => heads[o]
      case Next(node) => next[node]
    }

    /** Walks the link slots of list `o` from the head to the target and takes it out. */
    method UnlinkSlab(o: nat, target: nat)
      requires ListsOk(next, heads, lists, place) && o < 2 * CACHES && target in place && place[target] == o
      modifies `heads, `next, `lists, `place
      ensures ListsOk(next, heads, lists, place) && place == old(place) - {target}
      ensures |lists| == |old(lists)| == 2 * CACHES && |lists[o]| == |old(lists)[o]| - 1
      ensures forall k :: 0 <= k < 2 * CACHES && k != o ==> lists[k] == old(lists)[k]
    {
      hide Family, PlacedAt;
      ghost var at := OnWhich(next, heads, lists, place, target);
      FamilyLinks(next, heads, lists, o);
      var cur := Head;
      ghost var k := 0;
      while LoadLink(o, cur) != 0
        invariant lists == old(lists) && next == old(next) && heads == old(heads) && place == old(place)
        invariant k <= at && cur == (if k == 0 then Head else Next(lists[o][k - 1]))
        invariant (k > 0 ==> lists[o][k - 1] in next)
        invariant LoadLink(o, cur) == LinkTo(lists[o], k)
        decreases |lists[o]| - k
      {
        var node := LoadLink(o, cur);
        if node == target {
          ListsUnlink(next, heads, lists, place, o, k);
          if cur.Head? {
            heads := heads[o := next[node]];
          } else {
            next := next[cur.node := next[node]];
          }
          lists, place := lists[o := Cut(lists[o], k)], place - {target};
          return;
        }
        cur := Next(node);
        k := k + 1;
      }
      assert false;
    }

    /** A page for a new slab. */
    method TakePage() returns (page: Option<nat>)
      requires Backed()
      modifies pmm
      ensures page.None? <==> FreeFrames(old(pmm.tags)) == {}
      ensures page.None? ==> Backed() && pmm.tags == old(pmm.tags)
      ensures page.Some? ==>
        && pmm.Valid() && DirectMap(pmm.hhdm) && page.value % PAGE_SIZE == 0 && page.value > 0 && page.value !in size
        && Owned(pmm.hhdm, pmm.tags, size.Keys + {page.value})
        && LargeOk(pmm.hhdm, pmm.tags, size.Keys + {page.value}, large)
        && |FreeFrames(pmm.tags)| + 1 == |FreeFrames(old(pmm.tags))|
        && PagesMoved(pmm.hhdm, old(pmm.tags), size.Keys, pmm.tags, size.Keys + {page.value})
    {
      hide Owned, LargeOk, FreeFrames, PageFrames, OneTaken, BuddyAllocator.Valid, DirectMap, PagesMoved;
      var phys := pmm.AllocFrame();
      if phys.None? {
        return None;
      }
      PageBack(pmm.hhdm, old(pmm.tags), pmm.tags, phys.value, size.Keys, large);
      OneLess(old(pmm.tags), pmm.tags, phys.value / PAGE_SIZE);
      PageTaken(pmm.hhdm, old(pmm.tags), pmm.tags, phys.value, size.Keys);
      page := Some(pmm.hhdm + phys.value);
    }

    /** Writes the header and the free list of a slab of objects of size `z` into the page at `base`. */
    method FillSlab(base: nat, z: nat)
      requires SlabsOk(size, free, used, link, fr, objs) && IsSize(z) && z > 0 && base !in size && base > 0
      requires base % PAGE_SIZE == 0
      modifies `size, `free, `used, `fr, `link
      ensures SlabsOk(size, free, used, link, fr, objs) && size == old(size)[base := z] && used == old(used)[base := 0]
      ensures base in fr && fr[base] != [] && fr == old(fr)[base := fr[base]]
    {
      hide Capacity, IsSize, SlabsOk, HeaderSize, Chain, Objs;
      SizeFits(z);
      SizeFacts(z);
      ghost var link0 := link;
      ghost var list := Objs(base + HeaderSize(z), z, Capacity(z));
      var head := ThreadObjects(base + HeaderSize(z), z, Capacity(z));
      SlabsAdd(size, free, used, link0, fr, objs, base, z, head, list, link);
      size, free, used, fr := size[base := z], free[base := head], used[base := 0], fr[base := list];
    }

    /** `Slab::new`. */
    method MakeSlab(c: nat) returns (slab: Option<nat>)
      requires SlabsOk(size, free, used, link, fr, objs) && Backed() && c < CACHES
      modifies `size, `free, `used, `fr, `link, pmm
      ensures slab.None? <==> FreeFrames(old(pmm.tags)) == {}
      ensures slab.None? ==>
        size == old(size) && free == old(free) && used == old(used) && fr == old(fr) && link == old(link)
      ensures SlabsOk(size, free, used, link, fr, objs) && Backed()
      ensures slab.Some? ==>
        && slab.value !in old(size) && slab.value > 0 && size == old(size)[slab.value := SizeOf(c)]
        && used == old(used)[slab.value := 0]
        && slab.value in fr && fr[slab.value] != [] && fr == old(fr)[slab.value := fr[slab.value]]
      ensures Held() == old(Held())
      ensures PagesMoved(pmm.hhdm, old(pmm.tags), old(size).Keys, pmm.tags, size.Keys)
    {
      hide IsSize, CacheOf, SizeOf, SlabsOk, Owned, LargeOk, FreeFrames, BuddyAllocator.Valid, DirectMap, PagesMoved;
      PagesSame(pmm.hhdm, pmm.tags, size.Keys);
      var page := TakePage();
      if page.None? {
        return None;
      }
      CacheSizes(c);
      OneKey(size, page.value, SizeOf(c));
      FillSlab(page.value, SizeOf(c));
      slab := page;
    }

    /** A fresh slab in front of the partial list of cache `c`. */
    method NewSlab(c: nat) returns (ok: bool)
      requires Valid() && c < CACHES && heads[2 * c] == 0
      modifies this, pmm
      ensures ok <==> FreeFrames(old(pmm.tags)) != {}
      ensures !ok ==> Valid()
      ensures ok ==> Shaped() && Backed() && Pending(c)
      ensures objs == old(objs) && large == old(large) && peak == old(peak)
      ensures (!ok ==> lists == old(lists) && size == old(size))
      ensures Held() == old(Held())
      ensures PagesMoved(pmm.hhdm, old(pmm.tags), old(size).Keys, pmm.tags, size.Keys)
    {
      hide Family, PlacedAt, Capacity, IsSize, CacheOf, SizeOf, Shelved, SlabsOk, ListsOk, Owned, LargeOk, FreeFrames,
        PageFrames, OneTaken, BuddyAllocator.Valid, Busy, Big, DirectMap, PagesMoved, KernelHeap.Backed,
        KernelHeap.Held;
      ShapedParts();
      CacheSizes(c);
      OnList(next, heads, lists, place, 2 * c);
      var slab := MakeSlab(c);
      if slab.None? {
        return false;
      }
      LinkSlab(2 * c, slab.value);
      OnList(next, heads, lists, place, 2 * c);
      assert c != 8 ==> lists[16] == old(lists)[16];
      assert lists[17] == old(lists)[17];
      BusyBut(old(size), old(used), slab.value, SizeOf(c));
      ShelvedNew(old(size), old(fr), old(place), slab.value, SizeOf(c), fr[slab.value], 2 * c);
      ok := true;
    }

    /** `SlabCache::alloc`.  The call after adding a slab takes an object of that slab. */
    method CacheAlloc(c: nat, ghost retry: bool) returns (r: Option<nat>)
      requires c < CACHES && (if retry then Shaped() && Backed() && Pending(c) else Valid())
      modifies this, pmm
      ensures Valid() && large == old(large)
      ensures r.None? <==> !retry && old(Exhausted(c))
      ensures r.None? ==> objs == old(objs) && peak == old(peak)
      ensures r.Some? ==>
        r.value !in old(objs) && objs == old(objs)[r.value := SizeOf(c)] && peak == Max(old(peak), |Big(objs)|)
      ensures r.Some? ==> r.value % SizeOf(c) == 0 && r.value > 0
      ensures Held() == old(Held())
      ensures PagesMoved(pmm.hhdm, old(pmm.tags), old(size).Keys, pmm.tags, size.Keys)
      decreases !retry
    {
      hide Family, PlacedAt, IsSize, CacheOf, SizeOf, Shelved, SlabsOk, ListsOk, Owned, LargeOk, FreeFrames,
        PageFrames, BuddyAllocator.Valid, Busy, Big, DirectMap, Moved, PagesMoved, KernelHeap.Backed, KernelHeap.Held;
      PagesSame(pmm.hhdm, pmm.tags, size.Keys);
      ShapedParts();
      OnList(next, heads, lists, place, 2 * c);
      if heads[2 * c] != 0 {
        ghost var objs0, used0, lists0 := objs, used, lists;
        var p, s := TakeObject(c);
        CacheSizes(c);
        BigMore(objs0, p, SizeOf(c));
        MovedBig(lists0, lists, c);
        BusyMore(size, used0, s, retry);
        peak := Max(peak, |Big(objs)|);
        OnList(next, heads, lists, place, 2 * c);
        return Some(p);
      }
      var ok := NewSlab(c);
      if !ok {
        return None;
      }
      ghost var t, slabs := pmm.tags, size.Keys;
      r := CacheAlloc(c, true);
      PagesTrans(pmm.hhdm, old(pmm.tags), old(size).Keys, t, slabs, pmm.tags, size.Keys);
    }

    /** `Slab::dealloc`. */
    method PushObject(s: nat, p: nat)
      requires SlabsOk(size, free, used, link, fr, objs) && p in objs && s == PageBase(p)
      modifies `free, `used, `link, `fr, `objs
      ensures SlabsOk(size, free, used, link, fr, objs) && objs == old(objs) - {p}
      ensures s in size && s in old(used) && old(used)[s] > 0 && used == old(used)[s := old(used)[s] - 1]
      ensures s in old(fr) && fr == old(fr)[s := [p] + old(fr)[s]]
    {
      hide SlabAt, SlabOk, Capacity, IsSize, IsObj, SlabsOk, PageBase;
      SlabsGive(size, free, used, link, fr, objs, s, p);
      link := link[p := free[s]];
      free, used, fr, objs := free[s := p], used[s := used[s] - 1], fr[s := [p] + fr[s]], objs - {p};
    }

    /** Gives the page of an empty slab back. */
    method DropSlab(s: nat)
      requires SlabsOk(size, free, used, link, fr, objs) && Backed() && s in size && used[s] == 0
      modifies `free, `used, `size, `fr, pmm
      ensures SlabsOk(size, free, used, link, fr, objs) && Backed() && Held() == old(Held())
      ensures PagesMoved(pmm.hhdm, old(pmm.tags), old(size).Keys, pmm.tags, size.Keys)
      ensures size == old(size) - {s} && used == old(used) - {s} && fr == old(fr) - {s}
    {
      hide SlabAt, SlabOk, Owned, LargeOk, FreeFrames, PageFrames, OneGiven, BuddyAllocator.Valid, DirectMap, SlabsOk,
        IsPtr, FrameOf, PagesMoved;
      SlabsDrop(size, free, used, link, fr, objs, s);
      PageGive(pmm.hhdm, pmm.tags, s, size.Keys);
      pmm.FreeFrame(s - pmm.hhdm);
      GavePage(pmm.hhdm, old(pmm.tags), pmm.tags, s, size.Keys, large);
      OneMore(old(pmm.tags), pmm.tags, FrameOf(pmm.hhdm, s), size, s);
      PageReturned(pmm.hhdm, old(pmm.tags), pmm.tags, s, size.Keys);
      free, used, size, fr := free - {s}, used - {s}, size - {s}, fr - {s};
    }

    /** A full slab that got an object back moves to the partial list. */
    method Reopen(c: nat, s: nat)
      requires ListsOk(next, heads, lists, place) && c < CACHES && s in place && place[s] == 2 * c + 1 && s != 0
      modifies `heads, `next, `lists, `place
      ensures ListsOk(next, heads, lists, place) && place == old(place)[s := 2 * c]
      ensures Moved(old(lists), lists, 2 * c + 1, 2 * c)
    {
      hide ListsOk;
      UnlinkSlab(2 * c + 1, s);
      LinkSlab(2 * c, s);
    }

    /** An empty slab leaves the partial list, and its page goes back. */
    method Retire(c: nat, s: nat)
      requires Shaped() && Backed() && c < CACHES && s in size && place[s] == 2 * c && used[s] == 0
      modifies `heads, `next, `lists, `place, `free, `used, `size, `fr, pmm
      ensures Shaped() && Backed() && Held() == old(Held())
      ensures PagesMoved(pmm.hhdm, old(pmm.tags), old(size).Keys, pmm.tags, size.Keys)
      ensures size == old(size) - {s} && used == old(used) - {s}
      ensures |lists| == |old(lists)| == 2 * CACHES && forall k :: 0 <= k < 2 * CACHES && k != 2 * c ==>
        lists[k] == old(lists)[k]
    {
      hide ListsOk, SlabsOk, Shelved, Owned, LargeOk, FreeFrames, BuddyAllocator.Valid, DirectMap, PagesMoved,
        KernelHeap.Held, KernelHeap.Backed;
      ShapedParts();
      UnlinkSlab(2 * c, s);
      DropSlab(s);
      ShelvedLess(old(size), old(fr), old(place), fr, s);
      assert (old(size) - {s}).Keys == old(size).Keys - {s};
      assert (old(place) - {s}).Keys == old(place).Keys - {s};
    }

    /** The object goes onto its slab's list, and the slab onto the partial list if it was full. */
    method Restock(c: nat, s: nat, p: nat, full: bool)
      requires Shaped() && c < CACHES && p in objs && objs[p] == SizeOf(c) && s == PageBase(p) && s in fr
      requires full <==> fr[s] == []
      modifies `free, `used, `link, `fr, `objs, `heads, `next, `lists, `place
      ensures Shaped() && objs == old(objs) - {p} && s in size && place[s] == 2 * c
      ensures s in old(used) && old(used)[s] > 0 && used == old(used)[s := old(used)[s] - 1]
      ensures |lists| == |old(lists)| == 2 * CACHES
      ensures size[s] == SizeOf(c) && (full ==> old(used)[s] > 1 || c == 8) && (!full ==> c != 8)
      ensures if full then Moved(old(lists), lists, 2 * c + 1, 2 * c) else lists == old(lists)
    {
      hide Family, PlacedAt, IsSize, Capacity, CacheOf, SizeOf, Shelved, SlabsOk, ListsOk, Moved;
      ShapedParts();
      OnList(next, heads, lists, place, 2 * c);
      GiveSlab(size, free, used, link, fr, objs, place, s, p, c);
      PushObject(s, p);
      if full {
        Reopen(c, s);
        MovedSize(old(lists), lists, c);
      }
      ShelvedAfter(size, old(fr), old(place), fr, place, s);
    }

    /** `SlabCache::dealloc` for an object of a full slab. */
    method GiveToFull(c: nat, s: nat, p: nat)
      requires Valid() && c < CACHES && p in objs && objs[p] == SizeOf(c) && s == PageBase(p) && s in fr && fr[s] == []
      modifies this, pmm
      ensures Valid() && objs == old(objs) - {p} && large == old(large) && peak == old(peak) && Held() == old(Held())
      ensures PagesMoved(pmm.hhdm, old(pmm.tags), old(size).Keys, pmm.tags, size.Keys)
    {
      hide IsSize, Capacity, CacheOf, SizeOf, KernelHeap.Shaped, Busy, Big, Moved, PagesMoved, KernelHeap.Backed,
        KernelHeap.Held, PageBase;
      PagesSame(pmm.hhdm, pmm.tags, size.Keys);
      BigLess(objs, p);
      Restock(c, s, p, true);
      CacheSizes(c);
      ReopenedBig(old(lists), lists, c);
      BusyLess(size, old(used), s);
    }

    /** `SlabCache::dealloc` for an object of a partial slab. */
    method GiveToPartial(c: nat, s: nat, p: nat)
      requires Valid() && c < CACHES && p in objs && objs[p] == SizeOf(c) && s == PageBase(p) && s in fr && fr[s] != []
      modifies this, pmm
      ensures Valid() && objs == old(objs) - {p} && large == old(large) && peak == old(peak) && Held() == old(Held())
      ensures PagesMoved(pmm.hhdm, old(pmm.tags), old(size).Keys, pmm.tags, size.Keys)
    {
      hide IsSize, Capacity, CacheOf, SizeOf, KernelHeap.Shaped, Busy, Big, Moved, PagesMoved, KernelHeap.Backed,
        KernelHeap.Held, PageBase;
      PagesSame(pmm.hhdm, pmm.tags, size.Keys);
      BigLess(objs, p);
      Restock(c, s, p, false);
      CacheSizes(c);
      if used[s] == 0 {
        Retire(c, s);
        BusyDrop(old(size), old(used), s);
      } else {
        BusyLess(size, old(used), s);
      }
    }

    /** `SlabCache::dealloc`: the slab is found from the page of the pointer. */
    method CacheDealloc(c: nat, p: nat)
      requires Valid() && c < CACHES && p in objs && objs[p] == SizeOf(c)
      modifies this, pmm
      ensures Valid() && objs == old(objs) - {p} && large == old(large) && peak == old(peak) && Held() == old(Held())
      ensures PagesMoved(pmm.hhdm, old(pmm.tags), old(size).Keys, pmm.tags, size.Keys)
    {
      hide SizeOf, CacheOf, Capacity, IsSize, SlabsOk, Shelved, PagesMoved, KernelHeap.Backed, KernelHeap.Held,
        KernelHeap.Accounted;
      ShapedParts();
      var s := p - p % PAGE_SIZE;
      GiveSlab(size, free, used, link, fr, objs, place, s, p, c);
      if used[s] == Capacity(size[s]) {
        GiveToFull(c, s, p);
      } else {
        GiveToPartial(c, s, p);
      }
    }

    /** `find_cache`: the first cache with objects of at least the needed size. */
    method FindCache(need: nat) returns (c: nat)
      ensures c <= CACHES && (c == CACHES <==> need > 2048)
      ensures c < CACHES ==> c == CacheOf(need) && need <= SizeOf(c)
      ensures forall d :: 0 <= d < c && d < CACHES ==> SizeOf(d) < need
    {
      c := 0;
      while c < CACHES
        invariant c <= CACHES && forall d :: 0 <= d < c ==> SizeOf(d) < need
      {
        if SizeOf(c) >= need {
          assert c > 0 ==> SizeOf(c - 1) < need;
          return;
        }
        c := c + 1;
      }
      assert SizeOf(CACHES - 1) < need;
    }

    /** `alloc`; null is 0. */
    method Alloc(bytes: nat, align: nat, ghost a: nat) returns (r: nat)
      requires Valid() && align == Pow2(a)
      modifies this, pmm
      ensures Valid() && peak == Max(old(peak), |Big(objs)|)
      ensures bytes == 0 || Small(bytes, align) ==> Held() == old(Held())
      ensures bytes == 0 || Small(bytes, align) ==>
        PagesMoved(pmm.hhdm, old(pmm.tags), old(size).Keys, pmm.tags, size.Keys)
      ensures bytes == 0 ==> r == align && objs == old(objs) && large == old(large)
      ensures bytes > 0 && Small(bytes, align) ==>
        && large == old(large)
        && (r == 0 <==> old(Exhausted(CacheOf(Max(bytes, align)))))
        && (r == 0 ==> objs == old(objs))
        && (r != 0 ==> r !in old(objs) && objs == old(objs)[r := ObjectSize(bytes, align)] && r % align == 0)
      ensures bytes > 0 && !Small(bytes, align) ==>
        && objs == old(objs)
        && (r == 0 <==> forall g: nat :: !Fits(old(pmm.tags), BlockOrder(bytes), g))
        && (r == 0 ==> large == old(large) && pmm.tags == old(pmm.tags))
        && (r != 0 ==> r !in old(large) && large == old(large)[r := BlockOrder(bytes)])
        && (r != 0 ==> |FreeFrames(pmm.tags)| + Pow2(BlockOrder(bytes)) == |FreeFrames(old(pmm.tags))|)
        && (r != 0 ==>
            r >= pmm.hhdm && BlockTook(old(pmm.tags), pmm.tags, BlockOrder(bytes), (r - pmm.hhdm) / PAGE_SIZE))
        && (r != 0 && align <= PAGE_SIZE * Pow2(BlockOrder(bytes)) ==> r % align == 0)
    {
      hide Family, PlacedAt, IsSize, Shelved, SlabsOk, ListsOk, Owned, LargeOk, FreeFrames, PageFrames,
        BuddyAllocator.Valid, Busy, Big, DirectMap, KernelHeap.Held, Fits, Granted, PagesMoved, BlockTook;
      PagesSame(pmm.hhdm, pmm.tags, size.Keys);
      if bytes == 0 {
        return align;
      }
      if bytes <= 2048 && align <= 2048 {
        var c := FindCache(if bytes < align then align else bytes);
        assert c == CacheOf(Max(bytes, align));
        var p := CacheAlloc(c, false);
        if p.None? {
          return 0;
        }
        SmallAligned(p.value, c, a);
        return p.value;
      }
      assert !Small(bytes, align);
      r := AllocBlock(BlockOrder(bytes), align, a);
    }

    /** The large path of `alloc`. */
    method AllocBlock(order: nat, align: nat, ghost a: nat) returns (r: nat)
      requires Valid() && align == Pow2(a)
      modifies this, pmm
      ensures Valid() && objs == old(objs) && peak == old(peak)
      ensures r == 0 <==> forall g: nat :: !Fits(old(pmm.tags), order, g)
      ensures r == 0 ==> large == old(large) && pmm.tags == old(pmm.tags)
      ensures r != 0 ==> r !in old(large) && large == old(large)[r := order]
      ensures r != 0 ==> |FreeFrames(pmm.tags)| + Pow2(order) == |FreeFrames(old(pmm.tags))|
      ensures r != 0 ==> r >= pmm.hhdm && BlockTook(old(pmm.tags), pmm.tags, order, (r - pmm.hhdm) / PAGE_SIZE)
      ensures r != 0 && align <= PAGE_SIZE * Pow2(order) ==> r % align == 0
    {
      hide ListsOk, SlabsOk, Shelved, Busy, Big, Owned, LargeOk, DirectMap, Fits, Granted, FreeFrames, Tiled, Pow2,
        Aligned, Coalesced, WhollyFree, Untouched, BlockTook;
      PmmTiled();
      hide BuddyAllocator.Valid;
      var phys := pmm.Alloc(order);
      PmmTiled();
      if phys.None? {
        return 0;
      }
      BlockTaken(pmm.hhdm, old(pmm.tags), pmm.tags, order, phys.value, size.Keys, large);
      TookBlock(old(pmm.tags), order, phys.value, pmm.tags);
      r := pmm.hhdm + phys.value;
      if align <= PAGE_SIZE * Pow2(order) {
        BlockAligned(pmm.hhdm, order, phys.value, a);
      }
      large := large[r := order];
    }

    lemma PmmTiled()
      requires pmm.Valid()
      ensures Tiled(pmm.tags) && pmm.freePages == |FreeFrames(pmm.tags)|
    {
    }

    /** `dealloc`, of a pointer that `alloc` returned for the same layout. */
    method Dealloc(ptr: nat, bytes: nat, align: nat)
      requires Valid()
      requires ptr != 0 && bytes > 0 && Small(bytes, align) ==> ptr in objs && objs[ptr] == ObjectSize(bytes, align)
      requires ptr != 0 && bytes > 0 && !Small(bytes, align) ==> ptr in large && large[ptr] == BlockOrder(bytes)
      modifies this, pmm
      ensures Valid() && peak == old(peak)
      ensures ptr == 0 || bytes == 0 ==> objs == old(objs) && large == old(large) && pmm.tags == old(pmm.tags)
      ensures ptr != 0 && bytes > 0 && Small(bytes, align) ==>
        && objs == old(objs) - {ptr} && large == old(large) && Held() == old(Held())
        && PagesMoved(pmm.hhdm, old(pmm.tags), old(size).Keys, pmm.tags, size.Keys)
      ensures ptr != 0 && bytes > 0 && !Small(bytes, align) ==>
        && objs == old(objs) && large == old(large) - {ptr}
        && |FreeFrames(pmm.tags)| == |FreeFrames(old(pmm.tags))| + Pow2(BlockOrder(bytes))
        && ptr >= pmm.hhdm && BlockGave(old(pmm.tags), pmm.tags, BlockOrder(bytes), (ptr - pmm.hhdm) / PAGE_SIZE)
    {
      hide ListsOk, SlabsOk, Shelved, Busy, Big, Owned, LargeOk, DirectMap, FreeFrames, BuddyAllocator.Valid,
        KernelHeap.Held, IsSize, CacheOf, PagesMoved, BlockGave;
      if ptr == 0 || bytes == 0 {
        return;
      }
      if bytes <= 2048 && align <= 2048 {
        var c := FindCache(if bytes < align then align else bytes);
        CacheDealloc(c, ptr);
        return;
      }
      FreeBlockAt(ptr, BlockOrder(bytes));
    }

    /** The large path of `dealloc`. */
    method FreeBlockAt(ptr: nat, order: nat)
      requires Valid() && ptr in large && large[ptr] == order
      modifies `large, pmm
      ensures Valid() && large == old(large) - {ptr}
      ensures |FreeFrames(pmm.tags)| == |FreeFrames(old(pmm.tags))| + Pow2(order)
      ensures ptr >= pmm.hhdm && BlockGave(old(pmm.tags), pmm.tags, order, (ptr - pmm.hhdm) / PAGE_SIZE)
    {
      hide ListsOk, SlabsOk, Shelved, Busy, Big, Owned, LargeOk, DirectMap, FreeFrames, Tiled, FreeTags, BlockGave;
      PmmTiled();
      BlockAt(pmm.hhdm, pmm.tags, size.Keys, large, ptr);
      GaveBlock(pmm.tags, order, (ptr - pmm.hhdm) / PAGE_SIZE);
      pmm.Free(ptr - pmm.hhdm, order);
      BlockGiven(pmm.hhdm, old(pmm.tags), ptr, size.Keys, large);
      large := large - {ptr};
    }

    /** A region of memory in use: an object or a large block. */
    ghost predicate Region(p: nat, n: nat)
      reads this
    {
      (p in objs && n == objs[p]) || (p in large && n == PAGE_SIZE * Pow2(large[p]))
    }

    /** What an object in use is: a place of its slab, which is a page of the heap. */
    lemma ObjectPlace(p: nat)
      requires Valid() && p in objs
      ensures PageBase(p) in size && IsObj(objs[p], PageBase(p), p) && objs[p] == size[PageBase(p)]
    {
      hide ListsOk, Shelved, LargeOk, Busy, Big, BuddyAllocator.Valid;
      var s := PageBase(p);
      assert SlabAt(size, free, used, link, fr, objs, s);
      SlabCount(s, size[s], free[s], used[s], link, fr[s], objs);
    }

    /** Every slab is a live page of its own. */
    lemma SlabPage(s: nat)
      requires Valid() && s in size
      ensures s % PAGE_SIZE == 0 && IsPtr(pmm.hhdm, s) && LiveBlock(pmm.tags, 0, FrameOf(pmm.hhdm, s))
      ensures FrameOf(pmm.hhdm, s) >= 0
    {
      hide ListsOk, Shelved, LargeOk, Busy, Big, BuddyAllocator.Valid;
      assert SlabAt(size, free, used, link, fr, objs, s);
      SlabCount(s, size[s], free[s], used[s], link, fr[s], objs);
      assert OwnedAt(pmm.hhdm, pmm.tags, s);
    }

    /** Regions in use never overlap. */
    lemma Disjoint(p: nat, n: nat, q: nat, k: nat)
      requires Valid() && Region(p, n) && Region(q, k) && p != q
      ensures p + n <= q || q + k <= p
    {
      hide KernelHeap.Valid, Pow2;
      if p in objs && n == objs[p] {
        if q in objs && k == objs[q] {
          ObjectsApart(p, q);
        } else {
          PageApart(p, q);
        }
      } else if q in objs && k == objs[q] {
        PageApart(q, p);
      } else {
        BlocksApart(p, q);
      }
    }

    lemma ObjectsApart(p: nat, q: nat)
      requires Valid() && p in objs && q in objs && p != q
      ensures p + objs[p] <= q || q + objs[q] <= p
    {
      ObjectPlace(p);
      ObjectPlace(q);
      SlabPage(PageBase(p));
      SlabPage(PageBase(q));
      hide KernelHeap.Valid;
      if PageBase(p) == PageBase(q) {
        if p < q { ObjsApart(objs[p], p, q); } else { ObjsApart(objs[p], q, p); }
      } else {
        Slabs.PagesApart(PageBase(p), PageBase(q));
      }
    }

    /** A large block in use is a live block and no slab. */
    lemma BlockOf(q: nat)
      requires Valid() && q in large
      ensures Tiled(pmm.tags) && IsPtr(pmm.hhdm, q) && FrameOf(pmm.hhdm, q) >= 0 && q !in size
      ensures LiveBlock(pmm.tags, large[q], FrameOf(pmm.hhdm, q))
    {
      hide ListsOk, SlabsOk, Shelved, Owned, Busy, Big, Tiled;
      PmmTiled();
      hide BuddyAllocator.Valid;
      assert LargeAt(pmm.hhdm, pmm.tags, size.Keys, q, large[q]);
    }

    /** A slab page and a large block share no byte. */
    lemma PageFromBlock(s: nat, q: nat)
      requires Valid() && s in size && q in large
      ensures s + PAGE_SIZE <= q || q + PAGE_SIZE * Pow2(large[q]) <= s
    {
      hide KernelHeap.Valid, Aligned, Tiled;
      SlabPage(s);
      BlockOf(q);
      FramesApart(pmm.tags, FrameOf(pmm.hhdm, q), large[q], FrameOf(pmm.hhdm, s), 0);
      assert Pow2(0) == 1;
      hide Pow2;
    }

    lemma PageApart(p: nat, q: nat)
      requires Valid() && p in objs && q in large
      ensures p + objs[p] <= q || q + PAGE_SIZE * Pow2(large[q]) <= p
    {
      hide KernelHeap.Valid, Pow2;
      ObjectPlace(p);
      PageFromBlock(PageBase(p), q);
    }

    lemma BlocksApart(p: nat, q: nat)
      requires Valid() && p in large && q in large && p != q
      ensures p + PAGE_SIZE * Pow2(large[p]) <= q || q + PAGE_SIZE * Pow2(large[q]) <= p
    {
      hide KernelHeap.Valid, Pow2, Aligned, Tiled;
      BlockOf(p);
      BlockOf(q);
      FramesApart(pmm.tags, FrameOf(pmm.hhdm, p), large[p], FrameOf(pmm.hhdm, q), large[q]);
    }

    /** No region in use overlaps a slab header. */
    lemma PastHeaders(p: nat, n: nat, s: nat)
      requires Valid() && Region(p, n) && s in size
      ensures p + n <= s || s + SLAB_HEADER <= p
    {
      hide KernelHeap.Valid, Pow2;
      if p in objs && n == objs[p] {
        ObjectPlace(p);
        SlabPage(s);
        SlabPage(PageBase(p));
        if PageBase(p) != s { Slabs.PagesApart(PageBase(p), s); }
      } else {
        PageFromBlock(s, p);
      }
    }

    /** A free object is a place of its slab that is not in use. */
    lemma FreeObjectPlace(s: nat, q: nat)
      requires Valid() && s in size && s in fr && q in fr[s]
      ensures IsObj(size[s], s, q) && q !in objs && WORD <= size[s]
    {
      hide ListsOk, Shelved, LargeOk, Busy, Big, BuddyAllocator.Valid, KernelHeap.Backed, Chain, In;
      assert SlabAt(size, free, used, link, fr, objs, s);
    }

    /** No region in use overlaps a free object. */
    lemma FreeObjectApart(p: nat, n: nat, s: nat, q: nat)
      requires Valid() && Region(p, n) && s in size && s in fr && q in fr[s]
      ensures p + n <= q || q + size[s] <= p
    {
      hide KernelHeap.Valid, Pow2;
      FreeObjectPlace(s, q);
      SlabPage(s);
      if p in objs && n == objs[p] {
        ObjectPlace(p);
        SlabPage(PageBase(p));
        if PageBase(p) == s {
          if p < q { ObjsApart(n, p, q); } else { ObjsApart(n, q, p); }
        } else {
          Slabs.PagesApart(PageBase(p), s);
        }
      } else {
        PageFromBlock(s, p);
      }
    }

    /** The word at `a` overlaps a region in use. */
    ghost predicate WordInUse(a: nat)
      reads this
    {
      exists p: nat, n: nat :: Region(p, n) && a < p + n && p < a + WORD
    }

    lemma FreeWord(s: nat, q: nat)
      requires Valid() && s in size && s in fr && q in fr[s]
      ensures !WordInUse(q)
    {
      hide KernelHeap.Valid, KernelHeap.Region;
      FreeObjectPlace(s, q);
      forall p: nat, n: nat | Region(p, n) ensures !(q < p + n && p < q + WORD) {
        FreeObjectApart(p, n, s, q);
      }
    }

    /** Whatever owners write into their objects and blocks, every slab's list of free objects stays intact. */
    lemma OwnerWritesKeepSlabs(link': map<nat, nat>)
      requires Valid() && forall a: nat :: a in link && !WordInUse(a) ==> a in link' && link'[a] == link[a]
      ensures SlabsOk(size, free, used, link', fr, objs)
    {
      hide KernelHeap.Backed, KernelHeap.Accounted, ListsOk, Shelved, SlabOk, KernelHeap.WordInUse;
      forall s | s in size ensures SlabAt(size, free, used, link', fr, objs, s) {
        assert SlabAt(size, free, used, link, fr, objs, s);
        forall q | q in fr[s] && q in link ensures q in link' && link'[q] == link[q] {
          FreeWord(s, q);
        }
        SlabLinks(s, size[s], free[s], used[s], link, link', fr[s], objs);
      }
    }

    /** Once every object is freed, the pages the caches still hold are as many as there were 2048-byte
        objects at the busiest moment; every other page is back with the buddy allocator. */
    lemma AllFreed()
      requires Valid() && objs == map[]
      ensures |size| == peak && forall s :: s in size ==> size[s] == 2048
    {
      hide BuddyAllocator.Valid, Owned, LargeOk, Family;
      assert Big(objs) == {};
      forall s | s in size ensures size[s] == 2048 && s in lists[16] {
        assert SlabAt(size, free, used, link, fr, objs, s);
        assert In(objs, s) == {};
        assert ShelvedAt(size, fr, place, s);
        assert PlacedAt(lists, place, place[s], s);
      }
      forall s | s in lists[16] ensures s in size {
        assert InFamily(lists, 16, s);
        assert PlacedAt(lists, place, 16, s);
      }
      FamilyDistinct(next, heads, lists, 16);
      ListSet(lists[16]);
      assert size.Keys == Elems(lists[16]);
    }
  }
}
