/** Naturally aligned power-of-two blocks of page frames, and the effect of splitting and
    merging them.  Frames are numbered: frame f is the page at physical address 4096 * f. */
module Blocks {
  const MAX_ORDER: nat := 12

  function Pow2(n: nat): (r: nat)
    ensures r > 0
  {
    if n == 0 then 1 else 2 * Pow2(n - 1)
  }

  /** The number of the aligned run of 2^order frames that frame `f` lies in: `f >> order`. */
  function BlockNo(order: nat, f: nat): nat {
    if order == 0 then f else BlockNo(order - 1, f) / 2
  }

  predicate SameBlock(order: nat, f: nat, g: nat) {
    BlockNo(order, f) == BlockNo(order, g)
  }

  /** The low `order` bits of `f` are zero. */
  predicate Aligned(order: nat, f: nat) {
    order == 0 || (Aligned(order - 1, f) && BlockNo(order - 1, f) % 2 == 0)
  }

  lemma HalfBounds(f: nat, q: nat, p: nat)
    requires q * p <= f < q * p + p
    ensures q / 2 * (2 * p) <= f < q / 2 * (2 * p) + 2 * p
    ensures f == q / 2 * (2 * p) <==> f == q * p && q % 2 == 0
  {
    var h := q / 2;
    if q % 2 == 0 {
      assert q * p == h * (2 * p) by { assert q == 2 * h; }
    } else {
      assert q * p == h * (2 * p) + p by { assert q == 2 * h + 1; }
    }
  }

  lemma {:induction false} BlockBounds(o: nat, f: nat)
    ensures BlockNo(o, f) * Pow2(o) <= f < BlockNo(o, f) * Pow2(o) + Pow2(o)
    ensures Aligned(o, f) <==> f == BlockNo(o, f) * Pow2(o)
  {
    if o > 0 {
      BlockBounds(o - 1, f);
      HalfBounds(f, BlockNo(o - 1, f), Pow2(o - 1));
    }
  }

  lemma Product(x: int, d: nat)
    ensures x >= 1 ==> x * d >= d
    ensures x <= -1 ==> x * d + d <= 0
  {
    if x >= 1 {
      assert (x - 1) * d >= 0;
    } else if x <= -1 {
      assert (-x - 1) * d >= 0;
    }
  }

  /** `f ^ (1 << order)`: toggling one bit adds or subtracts its weight. */
  function BuddyOf(order: nat, f: nat): (b: nat)
    ensures BlockNo(order, f) % 2 == 0 ==> b == f + Pow2(order)
    ensures BlockNo(order, f) % 2 == 1 ==> b + Pow2(order) == f
  {
    if BlockNo(order, f) % 2 == 0 then f + Pow2(order)
    else
      assert f >= Pow2(order) by { BlockBounds(order, f); Product(BlockNo(order, f), Pow2(order)); }
      f - Pow2(order)
  }

  // ----- arithmetic of blocks

  lemma QuotientUnique(f: nat, d: nat, q: nat, r: nat)
    requires r < d && f == q * d + r
    ensures f / d == q && f % d == r
  {
    assert (f / d - q) * d == r - f % d;
    Product(f / d - q, d);
  }

  /** `BlockNo` and `Aligned` are the quotient and the zero remainder by the block size. */
  lemma BlockIsQuotient(o: nat, f: nat)
    ensures BlockNo(o, f) == f / Pow2(o)
    ensures Aligned(o, f) <==> f % Pow2(o) == 0
  {
    BlockBounds(o, f);
    QuotientUnique(f, Pow2(o), BlockNo(o, f), f - BlockNo(o, f) * Pow2(o));
  }

  lemma {:induction false} Shift(o: nat, f: nat)
    ensures BlockNo(o, f + Pow2(o)) == BlockNo(o, f) + 1
    ensures Aligned(o, f + Pow2(o)) == Aligned(o, f)
  {
    if o > 0 {
      Shift(o - 1, f);
      Shift(o - 1, f + Pow2(o - 1));
    }
  }

  lemma {:induction false} SameUp(o: nat, k: nat, f: nat, g: nat)
    requires o <= k && SameBlock(o, f, g)
    ensures SameBlock(k, f, g)
    decreases k
  {
    if o < k {
      SameUp(o, k - 1, f, g);
    }
  }

  lemma {:induction false} InBlock(o: nat, f: nat, g: nat)
    requires Aligned(o, f)
    ensures SameBlock(o, f, g) <==> f <= g < f + Pow2(o)
  {
    if o > 0 {
      Shift(o - 1, f);
      InBlock(o - 1, f, g);
      InBlock(o - 1, f + Pow2(o - 1), g);
    }
  }

  lemma BuddyFacts(o: nat, f: nat)
    ensures BuddyOf(o, BuddyOf(o, f)) == f
    ensures Aligned(o, BuddyOf(o, f)) == Aligned(o, f)
    ensures !SameBlock(o, f, BuddyOf(o, f)) && SameBlock(o + 1, f, BuddyOf(o, f))
    ensures forall g :: SameBlock(o + 1, f, g) ==> SameBlock(o, f, g) || SameBlock(o, BuddyOf(o, f), g)
    ensures Aligned(o, f) ==> Aligned(o + 1, if f < BuddyOf(o, f) then f else BuddyOf(o, f))
  {
    var b := BuddyOf(o, f);
    if BlockNo(o, f) % 2 == 0 {
      Shift(o, f);
    } else {
      Shift(o, b);
    }
  }

  // ----- tags: which block each managed frame belongs to

  /** A managed frame's block has the given order and is either free or handed out. */
  datatype Tag = Tag(order: nat, free: bool)

  type Tags = map<nat, Tag>

  /** The block that `f` is tagged with carries one tag throughout. */
  ghost predicate Uniform(t: Tags, f: nat, g: nat) {
    f in t && SameBlock(t[f].order, f, g) ==> g in t && t[g] == t[f]
  }

  /** Every frame's block is an aligned run of managed frames that all carry the same tag.
      Because a frame carries one tag, blocks are pairwise disjoint and cover the managed frames. */
  ghost predicate Tiled(t: Tags) {
    && (forall f :: f in t ==> t[f].order <= MAX_ORDER)
    && (forall f: nat, g: nat :: Uniform(t, f, g))
  }

  /** `f` is the first frame of a free block of the given order. */
  ghost predicate FreeBlock(t: Tags, o: nat, f: nat) {
    f in t && t[f] == Tag(o, true) && Aligned(o, f)
  }

  /** `f` is the first frame of a block of the given order that has been handed out. */
  ghost predicate LiveBlock(t: Tags, o: nat, f: nat) {
    f in t && t[f] == Tag(o, false) && Aligned(o, f)
  }

  ghost predicate NoFreeBuddy(t: Tags, o: nat, f: nat) {
    o < MAX_ORDER && FreeBlock(t, o, f) ==> !FreeBlock(t, o, BuddyOf(o, f))
  }

  /** No two free buddies of equal order below MAX_ORDER coexist. */
  ghost predicate Coalesced(t: Tags) {
    forall o: nat, f: nat :: NoFreeBuddy(t, o, f)
  }

  ghost function FreeFrames(t: Tags): set<nat> {
    set f | f in t && t[f].free
  }

  /** The frames of the block of order `o` that holds `f`. */
  ghost function BlockFrames(t: Tags, o: nat, f: nat): set<nat> {
    set g | g in t && SameBlock(o, f, g)
  }

  function Label(t: Tags, o: nat, f: nat, tag: Tag): (r: Tags)
  {
    map g | g in t :: if SameBlock(o, f, g) then tag else t[g]
  }

  /** The handed-out block of order o + 1 at `f` becomes a handed-out lower half and a free upper half. */
  function Split(t: Tags, f: nat, o: nat): (r: Tags) {
    map g | g in t ::
      if SameBlock(o, f, g) then Tag(o, false) else if SameBlock(o + 1, f, g) then Tag(o, true) else t[g]
  }

  /** Splitting the handed-out block at `f` from order `k` down to order `o`. */
  function SplitTo(t: Tags, f: nat, k: nat, o: nat): (r: Tags)
    requires o <= k
    decreases k - o
  {
    if k == o then t else Split(SplitTo(t, f, k, o + 1), f, o)
  }

  /** Handing out the low end of the free block at `f`. */
  function AllocTags(t: Tags, f: nat, o: nat): (r: Tags)
    requires f in t && o <= t[f].order
  {
    SplitTo(Label(t, t[f].order, f, Tag(t[f].order, false)), f, t[f].order, o)
  }

  /** Giving back the block of order `o` at `f`, merging with free buddies as far as possible. */
  function FreeTags(t: Tags, f: nat, o: nat): (r: Tags)
    requires o <= MAX_ORDER
    decreases MAX_ORDER - o
  {
    var b := BuddyOf(o, f);
    if o < MAX_ORDER && b in t && t[b] == Tag(o, true) then
      FreeTags(Label(t, o + 1, f, Tag(o + 1, false)), if f < b then f else b, o + 1)
    else
      Label(t, o, f, Tag(o, true))
  }

  // ----- the effect of one relabelling

  lemma LabelTiled(t: Tags, o: nat, f: nat, tag: Tag)
    requires Tiled(t) && f in t && t[f].order == o == tag.order
    ensures Tiled(Label(t, o, f, tag))
  {
    var r := Label(t, o, f, tag);
    forall x: nat, g: nat ensures Uniform(r, x, g) {
      assert Uniform(t, f, x) && Uniform(t, f, g) && Uniform(t, x, g);
    }
  }

  lemma SplitTiled(t: Tags, f: nat, o: nat)
    requires Tiled(t) && f in t && t[f].order == o + 1
    ensures Tiled(Split(t, f, o))
  {
    var r := Split(t, f, o);
    forall x: nat, g: nat ensures Uniform(r, x, g) {
      assert Uniform(t, f, x) && Uniform(t, f, g) && Uniform(t, x, g);
    }
  }

  lemma MergeTiled(t: Tags, f: nat, o: nat)
    requires Tiled(t) && o < MAX_ORDER && f in t && t[f].order == o
    requires BuddyOf(o, f) in t && t[BuddyOf(o, f)].order == o
    ensures Tiled(Label(t, o + 1, f, Tag(o + 1, false)))
    ensures forall g :: SameBlock(o + 1, f, g) ==> g in t && t[g].order == o
  {
    var b := BuddyOf(o, f);
    var r := Label(t, o + 1, f, Tag(o + 1, false));
    BuddyFacts(o, f);
    forall g | SameBlock(o + 1, f, g) ensures g in t && t[g].order == o {
      assert Uniform(t, f, g) && Uniform(t, b, g);
    }
    forall x: nat, g: nat ensures Uniform(r, x, g) {
      assert Uniform(t, x, g);
      assert SameBlock(o, x, g) ==> SameBlock(o + 1, x, g);
    }
  }

  // ----- handing out a block

  /** Splitting keeps the tiling and the absence of free buddies. */
  lemma SplitKeeps(t: Tags, f: nat, o: nat)
    requires Tiled(t) && f in t && t[f] == Tag(o + 1, false)
    ensures var r := Split(t, f, o);
      Tiled(r) && f in r && r[f] == Tag(o, false) && (Coalesced(t) ==> Coalesced(r))
  {
    var r := Split(t, f, o);
    SplitTiled(t, f, o);
    if Coalesced(t) {
      forall k: nat, g: nat ensures NoFreeBuddy(r, k, g) {
        BuddyFacts(k, g);
        assert NoFreeBuddy(t, k, g);
        assert SameBlock(o, f, g) ==> SameBlock(o + 1, f, g);
        assert SameBlock(o, f, BuddyOf(k, g)) ==> SameBlock(o + 1, f, BuddyOf(k, g));
      }
    }
  }

  lemma {:induction false} SplitToKeeps(t: Tags, f: nat, k: nat, o: nat)
    requires o <= k && Tiled(t) && f in t && t[f] == Tag(k, false)
    ensures var r := SplitTo(t, f, k, o);
      && Tiled(r) && r.Keys == t.Keys && r[f] == Tag(o, false)
      && (Coalesced(t) ==> Coalesced(r))
    decreases k - o
  {
    if o < k {
      SplitToKeeps(t, f, k, o + 1);
      SplitKeeps(SplitTo(t, f, k, o + 1), f, o);
    }
  }

  lemma {:induction false} SplitToInside(t: Tags, f: nat, k: nat, o: nat, g: nat)
    requires o <= k && g in t && SameBlock(k, f, g) && !t[g].free
    ensures g in SplitTo(t, f, k, o) && (SplitTo(t, f, k, o)[g].free <==> !SameBlock(o, f, g))
    decreases k - o
  {
    if o < k {
      SplitToInside(t, f, k, o + 1, g);
      assert SameBlock(o, f, g) ==> SameBlock(o + 1, f, g);
    }
  }

  lemma {:induction false} SplitToOutside(t: Tags, f: nat, k: nat, o: nat, g: nat)
    requires o <= k && g in t && !SameBlock(k, f, g)
    ensures g in SplitTo(t, f, k, o) && SplitTo(t, f, k, o)[g] == t[g]
    decreases k - o
  {
    if o < k {
      SplitToOutside(t, f, k, o + 1, g);
      if SameBlock(o + 1, f, g) { SameUp(o + 1, k, f, g); }
    }
  }

  lemma {:induction false} AlignedDown(k: nat, o: nat, f: nat)
    requires o <= k && Aligned(k, f)
    ensures Aligned(o, f)
    decreases k
  {
    if o < k { AlignedDown(k - 1, o, f); }
  }

  /** Handing out 2^o frames from a larger free block takes away exactly those frames and touches no
      block that is already handed out. */
  lemma AllocKeeps(t: Tags, f: nat, o: nat)
    requires Tiled(t) && f in t && t[f].free && o <= t[f].order && Aligned(t[f].order, f)
    ensures var r := AllocTags(t, f, o);
      && Tiled(r) && r.Keys == t.Keys && LiveBlock(r, o, f)
      && (Coalesced(t) ==> Coalesced(r))
      && BlockFrames(t, o, f) <= FreeFrames(t)
      && FreeFrames(r) == FreeFrames(t) - BlockFrames(t, o, f)
      && (forall g :: g in t && !t[g].free ==> r[g] == t[g])
  {
    var k := t[f].order;
    var s := Label(t, k, f, Tag(k, false));
    LabelTiled(t, k, f, Tag(k, false));
    if Coalesced(t) {
      forall j: nat, g: nat ensures NoFreeBuddy(s, j, g) {
        assert NoFreeBuddy(t, j, g);
      }
    }
    SplitToKeeps(s, f, k, o);
    AlignedDown(k, o, f);
    assert s.Keys == t.Keys;
    forall g | g in t
      ensures AllocTags(t, f, o)[g].free <==> t[g].free && !SameBlock(o, f, g)
      ensures !t[g].free ==> AllocTags(t, f, o)[g] == t[g]
      ensures SameBlock(o, f, g) ==> t[g].free
    {
      assert Uniform(t, f, g);
      if SameBlock(k, f, g) {
        SplitToInside(s, f, k, o, g);
      } else {
        SplitToOutside(s, f, k, o, g);
        if SameBlock(o, f, g) { SameUp(o, k, f, g); }
      }
    }
  }

  // ----- giving a block back

  lemma AlignedUnique(o: nat, f: nat, g: nat)
    requires Aligned(o, f) && Aligned(o, g) && SameBlock(o, f, g)
    ensures f == g
  {
    InBlock(o, f, g);
    InBlock(o, g, f);
  }

  /** Marking a block free when its buddy is not a free block of the same order. */
  lemma SetFreeKeeps(t: Tags, f: nat, o: nat)
    requires Tiled(t) && LiveBlock(t, o, f)
    requires o < MAX_ORDER ==> !FreeBlock(t, o, BuddyOf(o, f))
    ensures var r := Label(t, o, f, Tag(o, true));
      && Tiled(r) && (Coalesced(t) ==> Coalesced(r))
      && FreeFrames(r) == FreeFrames(t) + BlockFrames(t, o, f)
  {
    var r := Label(t, o, f, Tag(o, true));
    LabelTiled(t, o, f, Tag(o, true));
    if Coalesced(t) {
      forall k: nat, g: nat ensures NoFreeBuddy(r, k, g) {
        assert NoFreeBuddy(t, k, g);
        BuddyFacts(k, g);
        if k == o && Aligned(o, g) && SameBlock(o, f, g) {
          AlignedUnique(o, f, g);
        } else if k == o && Aligned(o, g) && SameBlock(o, f, BuddyOf(o, g)) {
          AlignedUnique(o, f, BuddyOf(o, g));
        }
      }
    }
  }

  /** Merging a block with its free buddy into one block of the next order. */
  lemma MergeKeeps(t: Tags, f: nat, o: nat)
    requires Tiled(t) && o < MAX_ORDER && LiveBlock(t, o, f) && FreeBlock(t, o, BuddyOf(o, f))
    ensures var r := Label(t, o + 1, f, Tag(o + 1, false));
      var low := if f < BuddyOf(o, f) then f else BuddyOf(o, f);
      && Tiled(r) && LiveBlock(r, o + 1, low) && SameBlock(o + 1, f, low)
      && (Coalesced(t) ==> Coalesced(r))
      && FreeFrames(r) + BlockFrames(r, o + 1, low) == FreeFrames(t) + BlockFrames(t, o, f)
      && (forall g :: g in t && !t[g].free && !SameBlock(o, f, g) ==> !SameBlock(o + 1, low, g))
  {
    var b := BuddyOf(o, f);
    var r := Label(t, o + 1, f, Tag(o + 1, false));
    MergeTiled(t, f, o);
    BuddyFacts(o, f);
    if Coalesced(t) {
      forall k: nat, g: nat ensures NoFreeBuddy(r, k, g) {
        assert NoFreeBuddy(t, k, g);
      }
    }
    forall g | g in t ensures SameBlock(o + 1, f, g) ==> SameBlock(o, f, g) || t[g].free {
      assert Uniform(t, b, g);
    }
    forall g | SameBlock(o, f, g) ensures SameBlock(o + 1, f, g) {}
  }

  /** Giving a block back frees exactly its frames, restores completeness of merging, and touches no
      other block that is handed out. */
  lemma {:induction false} FreeKeeps(t: Tags, f: nat, o: nat)
    requires Tiled(t) && o <= MAX_ORDER && LiveBlock(t, o, f)
    ensures var r := FreeTags(t, f, o);
      && Tiled(r) && r.Keys == t.Keys
      && (Coalesced(t) ==> Coalesced(r))
      && FreeFrames(r) == FreeFrames(t) + BlockFrames(t, o, f)
      && (forall g :: g in t && !t[g].free && !SameBlock(o, f, g) ==> r[g] == t[g])
    decreases MAX_ORDER - o
  {
    var b := BuddyOf(o, f);
    BuddyFacts(o, f);
    if o < MAX_ORDER && b in t && t[b] == Tag(o, true) {
      MergeKeeps(t, f, o);
      FreeKeeps(Label(t, o + 1, f, Tag(o + 1, false)), if f < b then f else b, o + 1);
    } else {
      SetFreeKeeps(t, f, o);
    }
  }

  // ----- completeness of merging

  /** Every frame of the aligned run of 2^o frames number `i` is managed and free. */
  ghost predicate WhollyFree(t: Tags, o: nat, i: nat) {
    forall g: nat :: BlockNo(o, g) == i ==> g in t && t[g].free
  }

  lemma FirstFrame(o: nat, g: nat) returns (f: nat)
    ensures SameBlock(o, f, g) && Aligned(o, f) && f <= g
  {
    f := BlockNo(o, g) * Pow2(o);
    BlockBounds(o, g);
    BlockIsQuotient(o, f);
    QuotientUnique(f, Pow2(o), BlockNo(o, g), 0);
  }

  /** In a coalesced tiling the buddy of a free block is not wholly free. */
  lemma HalfAlone(t: Tags, o: nat, g: nat) returns (h: nat)
    requires Tiled(t) && Coalesced(t) && o < MAX_ORDER && g in t && t[g] == Tag(o, true)
    requires forall h: nat :: SameBlock(o + 1, g, h) ==> h in t && t[h].order >= o
    ensures SameBlock(o + 1, g, h) && !t[h].free
  {
    var f := FirstFrame(o, g);
    h := BuddyOf(o, f);
    BuddyFacts(o, f);
    assert Uniform(t, g, f);
    assert NoFreeBuddy(t, o, f);
    assert SameBlock(o + 1, g, h);
    SameUp(o + 1, if t[h].order > o then t[h].order else o + 1, h, g);
    assert Uniform(t, h, g);
  }

  /** When no two free buddies coexist, a wholly free run lies inside one free block. */
  lemma {:induction false} FreeRunIsOneBlock(t: Tags, o: nat, i: nat)
    requires Tiled(t) && Coalesced(t) && o <= MAX_ORDER && WhollyFree(t, o, i)
    ensures forall g: nat :: BlockNo(o, g) == i ==> t[g].order >= o
    decreases o
  {
    if o > 0 {
      FreeRunIsOneBlock(t, o - 1, 2 * i);
      FreeRunIsOneBlock(t, o - 1, 2 * i + 1);
      forall g: nat | BlockNo(o, g) == i ensures t[g].order >= o {
        assert BlockNo(o - 1, g) == 2 * i || BlockNo(o - 1, g) == 2 * i + 1;
        if t[g].order == o - 1 {
          var h := HalfAlone(t, o - 1, g);
        }
      }
    }
  }

  /** `f` lies in a free block of at least the given order. */
  ghost predicate Fits(t: Tags, order: nat, f: nat) {
    f in t && t[f].free && t[f].order >= order
  }

  /** A free block of order `o` or more exists exactly when some aligned run of 2^o frames is wholly free. */
  lemma FitsIffFreeRun(t: Tags, o: nat)
    requires Tiled(t) && Coalesced(t) && o <= MAX_ORDER
    ensures (exists f: nat :: Fits(t, o, f)) <==> exists i: nat :: WhollyFree(t, o, i)
  {
    forall f: nat | Fits(t, o, f) ensures WhollyFree(t, o, BlockNo(o, f)) {
      forall g: nat | BlockNo(o, g) == BlockNo(o, f) ensures g in t && t[g].free {
        SameUp(o, t[f].order, f, g);
        assert Uniform(t, f, g);
      }
    }
    forall i: nat | WhollyFree(t, o, i) ensures exists f: nat :: Fits(t, o, f) {
      FreeRunIsOneBlock(t, o, i);
      BlockIsQuotient(o, i * Pow2(o));
      QuotientUnique(i * Pow2(o), Pow2(o), i, 0);
      assert Fits(t, o, i * Pow2(o));
    }
  }

  // ----- one state per set of free frames

  /** When merging is complete, a free frame's block is at least as large as in any other tiling with the
      same free frames. */
  lemma LargestBlock(t: Tags, s: Tags, g: nat)
    requires Tiled(t) && Tiled(s) && Coalesced(s) && s.Keys == t.Keys && FreeFrames(s) == FreeFrames(t)
    requires g in t && t[g].free
    ensures s[g].free && t[g].order <= s[g].order
  {
    var o := t[g].order;
    forall h: nat | BlockNo(o, h) == BlockNo(o, g) ensures h in s && s[h].free {
      assert Uniform(t, g, h);
      assert h in FreeFrames(t);
    }
    assert g in FreeFrames(s);
    FreeRunIsOneBlock(s, o, BlockNo(o, g));
  }

  /** The free frames and the live blocks determine the whole state: two complete tilings that agree on
      them are the same. */
  lemma Canonical(t: Tags, s: Tags)
    requires Tiled(t) && Coalesced(t) && Tiled(s) && Coalesced(s)
    requires s.Keys == t.Keys && FreeFrames(s) == FreeFrames(t)
    requires forall g :: g in t && !t[g].free ==> s[g] == t[g]
    ensures s == t
  {
    forall g | g in t ensures s[g] == t[g] {
      if t[g].free {
        LargestBlock(t, s, g);
        LargestBlock(s, t, g);
      }
    }
  }

  /** Freeing what was just allocated restores every block of a complete tiling, and the free frames of
      any tiling. */
  lemma FreeUndoesAlloc(t: Tags, f: nat, o: nat)
    requires Tiled(t) && f in t && t[f].free && o <= t[f].order && Aligned(t[f].order, f)
    ensures FreeFrames(FreeTags(AllocTags(t, f, o), f, o)) == FreeFrames(t)
    ensures Coalesced(t) ==> FreeTags(AllocTags(t, f, o), f, o) == t
  {
    AllocKeeps(t, f, o);
    var s := AllocTags(t, f, o);
    FreeKeeps(s, f, o);
    var r := FreeTags(s, f, o);
    hide AllocTags, FreeTags, Tiled, Coalesced, Aligned, SameBlock;
    assert BlockFrames(s, o, f) == BlockFrames(t, o, f);
    if Coalesced(t) {
      forall g | g in t && !t[g].free ensures r[g] == t[g] {
        assert g !in FreeFrames(t) && s[g] == t[g];
        assert g in BlockFrames(t, o, f) <==> SameBlock(o, f, g);
      }
      Canonical(t, r);
    }
  }
}
