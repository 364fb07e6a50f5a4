/** Loading an ELF image into an address space. */
module ElfLoader {
  import opened Basics
  import opened Blocks
  import opened Buddy
  import opened PageTables
  import opened Translation
  import opened TableWalks
  import opened TableNodes
  import opened AddressSpaces
  import opened UserSpaces
  import opened UserMemory
  import opened Exec
  import opened ElfFiles

  const U64_MAX: nat := 0xFFFF_FFFF_FFFF_FFFF

  datatype LoadedElf = LoadedElf(entry: nat, brk: nat, phdrVaddr: nat, phnum: nat, phent: nat, loadBase: nat,
                                 interp: Option<seq<byte>>)

  // ----- one segment

  /** Whether the loader maps pages for this header. */
  predicate Loads(ph: Phdr) {
    ph.kind == PT_LOAD && ph.memsz != 0
  }

  function SegmentStart(ph: Phdr, slide: nat): nat {
    AlignDown(ph.vaddr + slide, PAGE_SIZE) / PAGE_SIZE
  }

  /** The page after the segment's last. */
  function SegmentEnd(ph: Phdr, slide: nat): nat {
    AlignUp(ph.vaddr + slide + ph.memsz, PAGE_SIZE) / PAGE_SIZE
  }

  predicate InPages(ph: Phdr, slide: nat, w: nat) {
    SegmentStart(ph, slide) <= w < SegmentEnd(ph, slide)
  }

  predicate InFileBytes(ph: Phdr, slide: nat, v: nat) {
    ph.vaddr + slide <= v < ph.vaddr + slide + ph.filesz
  }

  predicate FileOk(data: seq<byte>, ph: Phdr) {
    ph.filesz > 0 ==> ph.offset + ph.filesz <= |data|
  }

  function SegFlags(ph: Phdr): Flags {
    Flags(ph.flags / 2 % 2 == 1, true, ph.flags % 2 == 0, 0)
  }

  lemma SegmentPages(ph: Phdr, slide: nat)
    requires ph.memsz != 0
    ensures SegmentStart(ph, slide) * PAGE_SIZE <= ph.vaddr + slide
    ensures ph.vaddr + slide + ph.memsz <= SegmentEnd(ph, slide) * PAGE_SIZE < ph.vaddr + slide + ph.memsz + PAGE_SIZE
    ensures SegmentStart(ph, slide) < SegmentEnd(ph, slide)
    ensures AlignDown(ph.vaddr + slide, PAGE_SIZE) == SegmentStart(ph, slide) * PAGE_SIZE
    ensures AlignUp(ph.vaddr + slide + ph.memsz, PAGE_SIZE) == SegmentEnd(ph, slide) * PAGE_SIZE
  {
  }

  // ----- mapping fresh pages

  /** Every page of the view is a private page of bytes. */
  ghost predicate AllPrivate(m: Mem, view: map<nat, Leaf>) {
    LeafPages(m, view) && forall w: nat :: w in view ==> Private(m, view, w)
  }

  /** Page `w` before and after mapping fresh pages at the `n` pages from `p`. */
  ghost predicate MappedAt(m: Mem, view: map<nat, Leaf>, m': Mem, view': map<nat, Leaf>, p: nat, n: nat, fl: Flags,
                           w: nat) {
    if p <= w < p + n then FreshPage(m', view', w) && view'[w] == MakeLeaf(view'[w].pfn, fl)
    else (w in view' <==> w in view) && (w in view ==> view'[w] == view[w] && SameFrame(m, m', view[w].pfn))
  }

  ghost predicate MappedPages(m: Mem, view: map<nat, Leaf>, m': Mem, view': map<nat, Leaf>, p: nat, n: nat, fl: Flags) {
    AllPrivate(m', view') && forall w: nat :: MappedAt(m, view, m', view', p, n, fl, w)
  }

  lemma MappedNone(m: Mem, view: map<nat, Leaf>, p: nat, fl: Flags)
    requires AllPrivate(m, view)
    ensures MappedPages(m, view, m, view, p, 0, fl)
  {
    forall w: nat ensures MappedAt(m, view, m, view, p, 0, fl, w) {}
  }

  lemma MappedMore(m: Mem, view: map<nat, Leaf>, m1: Mem, view1: map<nat, Leaf>, m2: Mem, view2: map<nat, Leaf>, p: nat,
                   n: nat, fl: Flags)
    requires MappedPages(m, view, m1, view1, p, n, fl) && FreshPageAdded(m1, view1, m2, view2, p + n)
    requires view2[p + n] == MakeLeaf(view2[p + n].pfn, fl)
    ensures MappedPages(m, view, m2, view2, p, n + 1, fl)
  {
    forall w: nat | w in view2 ensures Private(m2, view2, w) {
      if w != p + n { assert Private(m1, view1, w); }
    }
    var k := n + 1;
    forall w: nat ensures MappedAt(m, view, m2, view2, p, k, fl, w) {
      assert MappedAt(m, view, m1, view1, p, n, fl, w);
      if p <= w < p + n { assert FreshPage(m1, view1, w); }
    }
  }

  lemma FreshFails(m: Mem, free: set<nat>, pages: set<nat>, m': Mem, free': set<nat>, pages': set<nat>,
                   root: nat, vp: nat, fl: Flags, ok: bool, page: Option<nat>)
    requires FreshMapped(m, free, pages, m', free', pages', root, vp, fl, ok, page)
    ensures UserTree(m', root) && (page.None? ==> !ok) && (!ok ==> free' == {})
  {
  }

  /** Mapping pages took `n` frames for them and one for each table at `nodes`, which the tree gained. */
  ghost predicate Took(m: Mem, free: set<nat>, m': Mem, free': set<nat>, root: nat, n: nat, nodes: set<Node>) {
    |free| - |free'| == n + |nodes| && Gained(m, m', root, USER_SLOTS, nodes)
  }

  /** The mapping loop of a segment after `i` pages. */
  ghost predicate SegSoFar(m0: Mem, f0: set<nat>, g0: set<nat>, m: Mem, f: set<nat>, g: set<nat>, root: nat, p: nat,
                           i: nat, fl: Flags)
  {
    && Took(m0, f0, m, f, root, i, RangeNodes(m0, root, p, i))
    && Confined(m0, f0, g0, m, f, g, root)
    && MappedPages(m0, UserView(m0, root), m, UserView(m, root), p, i, fl)
  }

  lemma TookNone(m: Mem, free: set<nat>, root: nat)
    ensures Took(m, free, m, free, root, 0, {})
  {
    GainedNone(m, root, USER_SLOTS);
  }

  lemma SegStart(m: Mem, f: set<nat>, g: set<nat>, root: nat, p: nat, fl: Flags)
    requires AllPrivate(m, UserView(m, root))
    ensures SegSoFar(m, f, g, m, f, g, root, p, 0, fl)
  {
    hide AllPrivate, UserView, MappedPages, Confined, Took;
    MappedNone(m, UserView(m, root), p, fl);
    TookNone(m, f, root);
    ConfinedNone(m, f, g, root);
  }

  lemma MapReady(m0: Mem, view0: map<nat, Leaf>, m: Mem, view: map<nat, Leaf>, p: nat, i: nat, n: nat, fl: Flags)
    requires MappedPages(m0, view0, m, view, p, i, fl) && i < n && (p + n) * PAGE_SIZE <= USER_LIMIT
    ensures LeafPages(m, view) && PageOf((p + i) * PAGE_SIZE) == p + i < Limit(USER_SLOTS) && !IsLarge(view, p + i)
    ensures p + n <= Limit(USER_SLOTS)
  {
    UserPage((p + i) * PAGE_SIZE);
  }

  lemma SegReady(m0: Mem, f0: set<nat>, g0: set<nat>, m: Mem, f: set<nat>, g: set<nat>, root: nat, p: nat, i: nat,
                 n: nat, fl: Flags)
    requires SegSoFar(m0, f0, g0, m, f, g, root, p, i, fl) && i < n && (p + n) * PAGE_SIZE <= USER_LIMIT
    ensures PageOf((p + i) * PAGE_SIZE) == p + i < Limit(USER_SLOTS) && !IsLarge(UserView(m, root), p + i)
  {
    hide UserView, MappedPages, Confined, Took;
    MapReady(m0, UserView(m0, root), m, UserView(m, root), p, i, n, fl);
  }

  lemma TookMore(m0: Mem, f0: set<nat>, m: Mem, f: set<nat>, pages: set<nat>, m': Mem, f': set<nat>, pages': set<nat>,
                 root: nat, p: nat, i: nat, n: nat, fl: Flags, ok: bool, page: Option<nat>)
    requires Took(m0, f0, m, f, root, i, RangeNodes(m0, root, p, i)) && i < n && p + n <= Limit(USER_SLOTS)
    requires FreshMapped(m, f, pages, m', f', pages', root, p + i, fl, ok, page)
    ensures ok ==> Took(m0, f0, m', f', root, i + 1, RangeNodes(m0, root, p, i + 1))
    ensures !ok ==> |f0| < n + |RangeNodes(m0, root, p, n)|
  {
    hide FreshMapped, Gained, TablesGrew, RangeNodes, Missing, Limit, UserTree, UserView;
    FreshCases(m, f, pages, m', f', pages', root, p + i, fl, ok, page);
    if ok {
      RangeGained(m0, m, m', root, USER_SLOTS, p, i);
    } else {
      RangeLacks(m0, m, root, USER_SLOTS, p, i, n);
    }
  }

  lemma SegStep(m0: Mem, f0: set<nat>, g0: set<nat>, m: Mem, f: set<nat>, g: set<nat>, m': Mem, f': set<nat>,
                g': set<nat>, root: nat, p: nat, i: nat, n: nat, fl: Flags, ok: bool, page: Option<nat>)
    requires SegSoFar(m0, f0, g0, m, f, g, root, p, i, fl) && i < n && (p + n) * PAGE_SIZE <= USER_LIMIT
    requires UserTree(m, root) && m0.Keys !! f0 && m.Keys !! f
    requires FreshMapped(m, f, g, m', f', g', root, p + i, fl, ok, page)
    ensures Confined(m0, f0, g0, m', f', g', root)
    ensures ok ==> page.Some? && SegSoFar(m0, f0, g0, m', f', g', root, p, i + 1, fl)
    ensures !ok ==> |f0| < n + |RangeNodes(m0, root, p, n)|
  {
    hide UserTree, UserView, MappedPages, Confined, Took, RangeNodes, FreshMapped, TablesGrew, Limit, LeafPages;
    MapReady(m0, UserView(m0, root), m, UserView(m, root), p, i, n, fl);
    FreshConfined(m, f, g, m', f', g', root, p + i, fl, ok, page);
    ConfinedTrans(m0, f0, g0, m, f, g, m', f', g', root);
    TookMore(m0, f0, m, f, g, m', f', g', root, p, i, n, fl, ok, page);
    FreshCases(m, f, g, m', f', g', root, p + i, fl, ok, page);
    if ok {
      FreshAdded(m, f, g, m', f', g', root, p + i, fl, page.value);
      MappedMore(m0, UserView(m0, root), m, UserView(m, root), m', UserView(m', root), p, i, fl);
    }
  }

  lemma SegEnd(m0: Mem, f0: set<nat>, g0: set<nat>, m: Mem, f: set<nat>, g: set<nat>, root: nat, p: nat, n: nat,
               fl: Flags)
    requires SegSoFar(m0, f0, g0, m, f, g, root, p, n, fl)
    ensures n + |RangeNodes(m0, root, p, n)| <= |f0| && Took(m0, f0, m, f, root, n, RangeNodes(m0, root, p, n))
    ensures Confined(m0, f0, g0, m, f, g, root)
    ensures MappedPages(m0, UserView(m0, root), m, UserView(m, root), p, n, fl)
  {
    hide UserView, MappedPages, Confined, RangeNodes, Gained;
  }

  /** The mapping loop of one segment. */
  method MapSegment(vm: Vmm, root: nat, p: nat, n: nat, fl: Flags) returns (err: Option<ElfError>)
    requires vm.Valid() && UserTree(vm.mem, root) && AllPrivate(vm.mem, UserView(vm.mem, root))
    requires (p + n) * PAGE_SIZE <= USER_LIMIT
    modifies vm`mem, vm.pmm
    ensures vm.Valid() && UserTree(vm.mem, root)
    ensures err.None? ==>
      MappedPages(old(vm.mem), old(UserView(vm.mem, root)), vm.mem, UserView(vm.mem, root), p, n, fl)
    ensures err.Some? ==> (err.value == AllocFailed || err.value == MappingFailed) && vm.Free() == {}
    ensures err.None? <==> n + |RangeNodes(old(vm.mem), root, p, n)| <= |old(vm.Free())|
    ensures err.None? ==>
      Took(old(vm.mem), old(vm.Free()), vm.mem, vm.Free(), root, n, RangeNodes(old(vm.mem), root, p, n))
    ensures Confined(old(vm.mem), old(vm.Free()), old(PageFrames(vm.pmm.tags)), vm.mem, vm.Free(),
                     PageFrames(vm.pmm.tags), root)
  {
    hide BuddyAllocator.Valid, FreeFrames, PageFrames, UserTree, UserView, PageOf, Limit, FreshMapped, MappedPages,
      AllPrivate, Confined, Took, RangeNodes, SegSoFar, IsLarge;
    ghost var m0, f0, g0 := vm.mem, vm.Free(), PageFrames(vm.pmm.tags);
    var i := 0;
    SegStart(m0, f0, g0, root, p, fl);
    while i < n
      invariant i <= n && vm.Valid() && UserTree(vm.mem, root)
      invariant SegSoFar(m0, f0, g0, vm.mem, vm.Free(), PageFrames(vm.pmm.tags), root, p, i, fl)
    {
      ghost var m, f, g := vm.mem, vm.Free(), PageFrames(vm.pmm.tags);
      SegReady(m0, f0, g0, m, f, g, root, p, i, n, fl);
      var ok, page := MapFresh(vm, root, (p + i) * PAGE_SIZE, fl);
      FreshFails(m, f, g, vm.mem, vm.Free(), PageFrames(vm.pmm.tags), root, p + i, fl, ok, page);
      SegStep(m0, f0, g0, m, f, g, vm.mem, vm.Free(), PageFrames(vm.pmm.tags), root, p, i, n, fl, ok, page);
      if page.None? {
        return Some(AllocFailed);
      }
      if !ok {
        return Some(MappingFailed);
      }
      i := i + 1;
    }
    SegEnd(m0, f0, g0, vm.mem, vm.Free(), PageFrames(vm.pmm.tags), root, p, n, fl);
    err := None;
  }

  // ----- the bytes of one segment

  /** What a byte is after loading one segment: the file's, zero in the rest of the segment's pages, and
      otherwise what it was. */
  function SegByte(data: seq<byte>, ph: Phdr, slide: nat, v: nat, before: byte): byte {
    if InFileBytes(ph, slide, v) && FileOk(data, ph) then data[ph.offset + (v - ph.vaddr - slide)]
    else if InPages(ph, slide, v / PAGE_SIZE) then 0
    else before
  }

  ghost predicate SegAt(data: seq<byte>, ph: Phdr, slide: nat, m: Mem, view: map<nat, Leaf>, m': Mem,
                        view': map<nat, Leaf>, v: nat) {
    && (v / PAGE_SIZE in view' <==> v / PAGE_SIZE in view || InPages(ph, slide, v / PAGE_SIZE))
    && (v / PAGE_SIZE in view' ==> ByteAt(m', view', v) == SegByte(data, ph, slide, v, ByteAt(m, view, v)))
  }

  ghost predicate PermAt(ph: Phdr, slide: nat, view: map<nat, Leaf>, view': map<nat, Leaf>, w: nat) {
    w in view' ==>
      if InPages(ph, slide, w) then view'[w] == MakeLeaf(view'[w].pfn, SegFlags(ph))
      else w in view && view'[w] == view[w]
  }

  /** The segment is loaded: pages, permissions and bytes. */
  ghost predicate SegLoaded(data: seq<byte>, ph: Phdr, slide: nat, m: Mem, view: map<nat, Leaf>, m': Mem,
                            view': map<nat, Leaf>) {
    && AllPrivate(m', view')
    && (forall v: nat :: SegAt(data, ph, slide, m, view, m', view', v))
    && (forall w: nat :: PermAt(ph, slide, view, view', w))
  }

  lemma MappedByte(m: Mem, view: map<nat, Leaf>, m': Mem, view': map<nat, Leaf>, p: nat, n: nat, fl: Flags, v: nat)
    requires MappedAt(m, view, m', view', p, n, fl, v / PAGE_SIZE) && v / PAGE_SIZE in view'
    ensures ByteAt(m', view', v) == if p <= v / PAGE_SIZE < p + n then 0 else ByteAt(m, view, v)
  {
    FrameByte(view'[v / PAGE_SIZE].pfn, v);
  }

  lemma PrivateKept(m: Mem, m': Mem, view: map<nat, Leaf>)
    requires AllPrivate(m, view) && SameLayout(m, m', view)
    ensures AllPrivate(m', view)
  {
    forall w: nat | w in view ensures Private(m', view, w) {
      LayoutPrivate(m, m', view, w);
    }
  }

  lemma SegDone(data: seq<byte>, ph: Phdr, slide: nat, m: Mem, view: map<nat, Leaf>, m1: Mem, m2: Mem,
                view': map<nat, Leaf>)
    requires MappedPages(m, view, m1, view', SegmentStart(ph, slide), SegmentEnd(ph, slide) - SegmentStart(ph, slide),
                         SegFlags(ph))
    requires ph.memsz != 0 && SegmentStart(ph, slide) < SegmentEnd(ph, slide) && FileOk(data, ph)
    requires ph.filesz == 0 ==> m2 == m1
    requires ph.filesz > 0 ==> Wrote(m1, m2, view', ph.vaddr + slide, data[ph.offset..ph.offset + ph.filesz])
    ensures SegLoaded(data, ph, slide, m, view, m2, view')
  {
    hide SegmentStart, SegmentEnd, SegFlags;
    var p := SegmentStart(ph, slide);
    var n := SegmentEnd(ph, slide) - p;
    var fl := SegFlags(ph);
    if ph.filesz > 0 { PrivateKept(m1, m2, view'); }
    forall v: nat ensures SegAt(data, ph, slide, m, view, m2, view', v) {
      var w := v / PAGE_SIZE;
      assert MappedAt(m, view, m1, view', p, n, fl, w);
      if w in view' { MappedByte(m, view, m1, view', p, n, fl, v); }
      if ph.filesz > 0 { assert WroteAt(m1, m2, view', ph.vaddr + slide, data[ph.offset..ph.offset + ph.filesz], v); }
    }
    forall w: nat ensures PermAt(ph, slide, view, view', w) {
      assert MappedAt(m, view, m1, view', p, n, fl, w);
    }
  }

  /** The errors that loading segments can end in. */
  predicate LoadError(e: ElfError) {
    e == OutOfBounds || e == AllocFailed || e == MappingFailed
  }

  function SegPages(ph: Phdr, slide: nat): nat {
    if SegmentStart(ph, slide) <= SegmentEnd(ph, slide) then SegmentEnd(ph, slide) - SegmentStart(ph, slide) else 0
  }

  /** The tables that the pages of a segment lack. */
  function SegNodes(m: Mem, root: nat, ph: Phdr, slide: nat): set<Node> {
    RangeNodes(m, root, SegmentStart(ph, slide), SegPages(ph, slide))
  }

  /** Every file byte of the segment goes to a page that is mapped, already or by the segment. */
  ghost predicate FileMapped(view: map<nat, Leaf>, ph: Phdr, slide: nat) {
    forall v: nat :: InFileBytes(ph, slide, v) ==> v / PAGE_SIZE in view || InPages(ph, slide, v / PAGE_SIZE)
  }

  predicate InUserHalf(ph: Phdr, slide: nat) {
    ph.vaddr + slide + ph.memsz <= USER_LIMIT && ph.vaddr + slide + ph.filesz <= USER_LIMIT
  }

  lemma LayoutNodes(m: Mem, m': Mem, root: nat)
    requires UserTree(m, root) && SameLayout(m, m', UserView(m, root))
    ensures Gained(m, m', root, USER_SLOTS, {})
  {
    FramesAreTables(m, 4, root, USER_SLOTS);
    hide TreeOk, Frames, View, Gained;
    assert Agree(m, m', UserFrames(m, root));
    SameNodes(m, m', root, USER_SLOTS);
  }

  /** The copying loop of one segment. */
  method CopySegment(vm: Vmm, root: nat, virt: nat, src: seq<byte>) returns (ok: bool)
    requires vm.Valid() && UserTree(vm.mem, root) && AllPrivate(vm.mem, UserView(vm.mem, root))
    requires virt + |src| <= USER_LIMIT
    modifies vm`mem
    ensures vm.Valid() && UserTree(vm.mem, root) && UserView(vm.mem, root) == old(UserView(vm.mem, root))
    ensures ok <==> forall v: nat :: virt <= v < virt + |src| ==> v / PAGE_SIZE in UserView(vm.mem, root)
    ensures ok ==> Wrote(old(vm.mem), vm.mem, UserView(vm.mem, root), virt, src)
    ensures Gained(old(vm.mem), vm.mem, root, USER_SLOTS, {})
    ensures Confined(old(vm.mem), old(vm.Free()), old(PageFrames(vm.pmm.tags)), vm.mem, vm.Free(),
                     PageFrames(vm.pmm.tags), root)
  {
    hide BuddyAllocator.Valid, FreeFrames, PageFrames, TreeOk, Frames, View, Wrote, SameLayout, Poked, Confined,
      Gained;
    ghost var m, view := vm.mem, UserView(vm.mem, root);
    var stored, done := WriteAt(vm, root, virt, src);
    ok := stored;
    LayoutTables(m, vm.mem, root);
    LayoutConfined(m, vm.mem, root, vm.Free(), PageFrames(vm.pmm.tags));
    LayoutNodes(m, vm.mem, root);
    if ok {
      assert src[..done] == src;
      PokedPrivate(m, view, virt, src);
    }
  }

  lemma TookCopied(m0: Mem, f0: set<nat>, m1: Mem, m2: Mem, f: set<nat>, root: nat, n: nat, nodes: set<Node>)
    requires Took(m0, f0, m1, f, root, n, nodes) && Gained(m1, m2, root, USER_SLOTS, {})
    ensures Took(m0, f0, m2, f, root, n, nodes)
  {
    hide Gained;
    GainedTrans(m0, m1, m2, root, USER_SLOTS, nodes, {});
    assert nodes + {} == nodes;
  }

  /** With the pages mapped, the copy succeeds exactly when every file byte has a page. */
  lemma SegMapped(m: Mem, m': Mem, root: nat, ph: Phdr, slide: nat)
    requires MappedPages(m, UserView(m, root), m', UserView(m', root), SegmentStart(ph, slide), SegPages(ph, slide),
                         SegFlags(ph))
    requires ph.memsz != 0
    ensures AllPrivate(m', UserView(m', root))
    ensures FileMapped(UserView(m, root), ph, slide) <==>
      forall v: nat :: ph.vaddr + slide <= v < ph.vaddr + slide + ph.filesz ==> v / PAGE_SIZE in UserView(m', root)
    ensures ph.filesz <= ph.memsz ==> FileMapped(UserView(m, root), ph, slide)
  {
    SegmentPages(ph, slide);
    hide SegmentStart, SegmentEnd, View, AllPrivate;
    var view, view' := UserView(m, root), UserView(m', root);
    forall v: nat ensures v / PAGE_SIZE in view' <==> v / PAGE_SIZE in view || InPages(ph, slide, v / PAGE_SIZE) {
      assert MappedAt(m, view, m', view', SegmentStart(ph, slide), SegPages(ph, slide), SegFlags(ph), v / PAGE_SIZE);
    }
    if ph.filesz <= ph.memsz {
      forall v: nat | InFileBytes(ph, slide, v) ensures InPages(ph, slide, v / PAGE_SIZE) {}
    }
  }

  /** One pass of the loader's second loop, for a header that loads. */
  method LoadSegment(vm: Vmm, root: nat, data: seq<byte>, ph: Phdr, slide: nat) returns (err: Option<ElfError>)
    requires vm.Valid() && UserTree(vm.mem, root) && AllPrivate(vm.mem, UserView(vm.mem, root)) && Loads(ph)
    requires InUserHalf(ph, slide)
    modifies vm`mem, vm.pmm
    ensures vm.Valid() && UserTree(vm.mem, root)
    ensures err.Some? ==> LoadError(err.value)
    ensures err.None? <==>
      && FileOk(data, ph) && FileMapped(old(UserView(vm.mem, root)), ph, slide)
      && SegPages(ph, slide) + |SegNodes(old(vm.mem), root, ph, slide)| <= |old(vm.Free())|
    ensures err.None? ==> Took(old(vm.mem), old(vm.Free()), vm.mem, vm.Free(), root, SegPages(ph, slide),
                               SegNodes(old(vm.mem), root, ph, slide))
    ensures err.None? ==>
      SegLoaded(data, ph, slide, old(vm.mem), old(UserView(vm.mem, root)), vm.mem, UserView(vm.mem, root))
    ensures err == Some(OutOfBounds) ==> !FileOk(data, ph)
    ensures err == Some(AllocFailed) ==> vm.Free() == {}
    ensures err == Some(MappingFailed) ==> vm.Free() == {} || ph.filesz > ph.memsz
    ensures Confined(old(vm.mem), old(vm.Free()), old(PageFrames(vm.pmm.tags)), vm.mem, vm.Free(),
                     PageFrames(vm.pmm.tags), root)
  {
    hide BuddyAllocator.Valid, FreeFrames, PageFrames, UserTree, UserView, MappedPages, AllPrivate, SegLoaded, Wrote,
      SegmentStart, SegmentEnd, AlignDown, AlignUp, SegFlags, Confined, Took, Gained, RangeNodes, FileMapped;
    ghost var m0, f0, g0 := vm.mem, vm.Free(), PageFrames(vm.pmm.tags);
    SegmentPages(ph, slide);
    var segVaddr := ph.vaddr + slide;
    var pageVaddr := AlignDown(segVaddr, PAGE_SIZE);
    var pageEnd := AlignUp(segVaddr + ph.memsz, PAGE_SIZE);
    err := MapSegment(vm, root, pageVaddr / PAGE_SIZE, (pageEnd - pageVaddr) / PAGE_SIZE, SegFlags(ph));
    if err.Some? {
      return;
    }
    ghost var m1 := vm.mem;
    SegMapped(m0, m1, root, ph, slide);
    if ph.filesz > 0 {
      if ph.offset + ph.filesz > |data| {
        return Some(OutOfBounds);
      }
      var src := data[ph.offset..ph.offset + ph.filesz];
      var ok := CopySegment(vm, root, segVaddr, src);
      ghost var g := PageFrames(vm.pmm.tags);
      ConfinedTrans(m0, f0, g0, m1, vm.Free(), g, vm.mem, vm.Free(), g, root);
      TookCopied(m0, f0, m1, vm.mem, vm.Free(), root, SegPages(ph, slide), SegNodes(m0, root, ph, slide));
      if !ok {
        return Some(MappingFailed);
      }
    }
    SegDone(data, ph, slide, m0, UserView(m0, root), m1, vm.mem, UserView(vm.mem, root));
  }

  // ----- the first pass over the headers

  predicate IsMaxEnd(phs: seq<Phdr>, x: nat) {
    && (forall i :: 0 <= i < |phs| && phs[i].kind == PT_LOAD ==> phs[i].vaddr + phs[i].memsz <= x)
    && (x == 0 || exists i :: 0 <= i < |phs| && phs[i].kind == PT_LOAD && phs[i].vaddr + phs[i].memsz == x)
  }

  predicate IsMinStart(phs: seq<Phdr>, x: nat) {
    && (forall i :: 0 <= i < |phs| && phs[i].kind == PT_LOAD ==> x <= phs[i].vaddr)
    && (x == U64_MAX || exists i :: 0 <= i < |phs| && phs[i].kind == PT_LOAD && phs[i].vaddr == x)
  }

  /** The last header of the kind, or -1. */
  function LastOf(phs: seq<Phdr>, kind: nat): (r: int)
    ensures -1 <= r < |phs| && (r >= 0 ==> phs[r].kind == kind)
    ensures forall j :: r < j < |phs| ==> phs[j].kind != kind
  {
    if phs == [] then -1
    else if phs[|phs| - 1].kind == kind then |phs| - 1
    else LastOf(phs[..|phs| - 1], kind)
  }

  /** The first loadable header at file offset 0, or -1. */
  function HeaderSegment(phs: seq<Phdr>, from: nat): (r: int)
    requires from <= |phs|
    ensures -1 <= r < |phs| && (r >= 0 ==> from <= r && phs[r].kind == PT_LOAD && phs[r].offset == 0)
    ensures forall j :: from <= j < (if r < 0 then |phs| else r) ==> !(phs[j].kind == PT_LOAD && phs[j].offset == 0)
    decreases |phs| - from
  {
    if from == |phs| then -1
    else if phs[from].kind == PT_LOAD && phs[from].offset == 0 then from
    else HeaderSegment(phs, from + 1)
  }

  predicate InterpOk(data: seq<byte>, ph: Phdr) {
    ph.kind == PT_INTERP ==> ph.offset + ph.filesz <= |data|
  }

  predicate InterpsOk(data: seq<byte>, phs: seq<Phdr>) {
    forall i :: 0 <= i < |phs| ==> InterpOk(data, phs[i])
  }

  function InterpOf(data: seq<byte>, phs: seq<Phdr>): Option<seq<byte>>
    requires InterpsOk(data, phs)
  {
    var i := LastOf(phs, PT_INTERP);
    if i < 0 then None else assert InterpOk(data, phs[i]); Some(data[phs[i].offset..phs[i].offset + phs[i].filesz])
  }

  function PhdrOf(phs: seq<Phdr>, slide: nat): nat {
    var i := LastOf(phs, PT_PHDR);
    if i < 0 then 0 else phs[i].vaddr + slide
  }

  lemma ScanNone(data: seq<byte>, phs: seq<Phdr>, slide: nat)
    ensures InterpsOk(data, phs[..0]) && IsMinStart(phs[..0], U64_MAX) && IsMaxEnd(phs[..0], 0)
    ensures PhdrOf(phs[..0], slide) == 0 && InterpOf(data, phs[..0]) == None
  {
  }

  lemma LastOne(phs: seq<Phdr>, i: nat, kind: nat)
    requires i < |phs|
    ensures LastOf(phs[..i + 1], kind) == if phs[i].kind == kind then i else LastOf(phs[..i], kind)
  {
    var t' := phs[..i + 1];
    assert t'[..|t'| - 1] == phs[..i] && t'[|t'| - 1] == phs[i];
  }

  /** The last header of a kind among one more. */
  lemma ScanLast(data: seq<byte>, phs: seq<Phdr>, i: nat, slide: nat)
    requires i < |phs| && InterpsOk(data, phs[..i])
    ensures PhdrOf(phs[..i + 1], slide) ==
      if phs[i].kind == PT_PHDR then phs[i].vaddr + slide else PhdrOf(phs[..i], slide)
    ensures InterpOk(data, phs[i]) ==>
      && InterpsOk(data, phs[..i + 1])
      && InterpOf(data, phs[..i + 1]) ==
         if phs[i].kind == PT_INTERP then Some(data[phs[i].offset..phs[i].offset + phs[i].filesz])
         else InterpOf(data, phs[..i])
    ensures !InterpOk(data, phs[i]) ==> !InterpsOk(data, phs)
  {
    var t, t' := phs[..i], phs[..i + 1];
    assert t'[..i] == t && t'[i] == phs[i];
    LastOne(phs, i, PT_PHDR);
    LastOne(phs, i, PT_INTERP);
    hide LastOf;
  }

  lemma ScanOne(data: seq<byte>, phs: seq<Phdr>, i: nat, lo: nat, hi: nat)
    requires i < |phs| && IsMinStart(phs[..i], lo) && IsMaxEnd(phs[..i], hi) && phs[i].vaddr <= U64_MAX
    ensures phs[..i + 1][..i] == phs[..i] && phs[..i + 1][i] == phs[i]
    ensures InterpsOk(data, phs[..i]) && InterpOk(data, phs[i]) ==> InterpsOk(data, phs[..i + 1])
    ensures phs[i].kind != PT_LOAD ==> IsMinStart(phs[..i + 1], lo) && IsMaxEnd(phs[..i + 1], hi)
    ensures phs[i].kind == PT_LOAD ==> IsMinStart(phs[..i + 1], if phs[i].vaddr < lo then phs[i].vaddr else lo)
    ensures phs[i].kind == PT_LOAD ==>
      IsMaxEnd(phs[..i + 1], if phs[i].vaddr + phs[i].memsz > hi then phs[i].vaddr + phs[i].memsz else hi)
  {
    var t, t' := phs[..i], phs[..i + 1];
    assert t'[..i] == t && t'[i] == phs[i];
    if lo != U64_MAX {
      var a :| 0 <= a < |t| && t[a].kind == PT_LOAD && t[a].vaddr == lo;
      assert t'[a] == t[a];
    }
    if hi != 0 {
      var b :| 0 <= b < |t| && t[b].kind == PT_LOAD && t[b].vaddr + t[b].memsz == hi;
      assert t'[b] == t[b];
    }
  }

  /** The first loop of the loader. */
  method ScanHeaders(data: seq<byte>, phs: seq<Phdr>, slide: nat)
    returns (ok: bool, loadMin: nat, loadMax: nat, phdrVaddr: nat, interp: Option<seq<byte>>)
    requires forall i :: 0 <= i < |phs| ==> phs[i].vaddr <= U64_MAX
    ensures ok <==> InterpsOk(data, phs)
    ensures ok ==> IsMinStart(phs, loadMin) && IsMaxEnd(phs, loadMax)
    ensures ok ==> phdrVaddr == PhdrOf(phs, slide) && interp == InterpOf(data, phs)
  {
    hide LastOf, IsMinStart, IsMaxEnd, InterpsOk, PhdrOf, InterpOf;
    loadMin, loadMax, phdrVaddr, interp := U64_MAX, 0, 0, None;
    var i := 0;
    ScanNone(data, phs, slide);
    while i < |phs|
      invariant i <= |phs| && InterpsOk(data, phs[..i])
      invariant IsMinStart(phs[..i], loadMin) && IsMaxEnd(phs[..i], loadMax)
      invariant phdrVaddr == PhdrOf(phs[..i], slide) && interp == InterpOf(data, phs[..i])
    {
      var ph := phs[i];
      ScanOne(data, phs, i, loadMin, loadMax);
      ScanLast(data, phs, i, slide);
      if ph.kind == PT_LOAD {
        if ph.vaddr < loadMin { loadMin := ph.vaddr; }
        var end := ph.vaddr + ph.memsz;
        if end > loadMax { loadMax := end; }
      } else if ph.kind == PT_PHDR {
        phdrVaddr := ph.vaddr + slide;
      } else if ph.kind == PT_INTERP {
        if ph.offset + ph.filesz > |data| {
          return false, loadMin, loadMax, phdrVaddr, interp;
        }
        interp := Some(data[ph.offset..ph.offset + ph.filesz]);
      }
      i := i + 1;
    }
    assert phs[..i] == phs;
    ok := true;
  }

  // ----- the whole image

  /** The last of the first `i` headers that maps page `w`, or -1. */
  function LastMapper(phs: seq<Phdr>, slide: nat, i: nat, w: nat): (r: int)
    requires i <= |phs|
    ensures -1 <= r < i && (r >= 0 ==> Loads(phs[r]) && InPages(phs[r], slide, w))
    ensures forall j :: r < j < i ==> !(Loads(phs[j]) && InPages(phs[j], slide, w))
  {
    if i == 0 then -1
    else if Loads(phs[i - 1]) && InPages(phs[i - 1], slide, w) then i - 1
    else LastMapper(phs, slide, i - 1, w)
  }

  /** The byte at `v` after the first `i` headers, by loading one after the other. */
  function LoadedByte(data: seq<byte>, phs: seq<Phdr>, slide: nat, i: nat, v: nat, before: byte): byte
    requires i <= |phs|
  {
    if i == 0 then before
    else
      var b := LoadedByte(data, phs, slide, i - 1, v, before);
      if Loads(phs[i - 1]) then SegByte(data, phs[i - 1], slide, v, b) else b
  }

  ghost predicate LoadedAt(data: seq<byte>, phs: seq<Phdr>, slide: nat, i: nat, m: Mem, view: map<nat, Leaf>, m': Mem,
                           view': map<nat, Leaf>, v: nat)
    requires i <= |phs|
  {
    && (v / PAGE_SIZE in view' <==> v / PAGE_SIZE in view || LastMapper(phs, slide, i, v / PAGE_SIZE) >= 0)
    && (v / PAGE_SIZE in view' ==> ByteAt(m', view', v) == LoadedByte(data, phs, slide, i, v, ByteAt(m, view, v)))
  }

  ghost predicate PermsAt(phs: seq<Phdr>, slide: nat, i: nat, view: map<nat, Leaf>, view': map<nat, Leaf>, w: nat)
    requires i <= |phs|
  {
    w in view' ==>
      var j := LastMapper(phs, slide, i, w);
      if j >= 0 then view'[w] == MakeLeaf(view'[w].pfn, SegFlags(phs[j])) else w in view && view'[w] == view[w]
  }

  /** Memory holds the first `i` segments: each mapped page has the rights of the last segment that
      mapped it, and each byte is as loading the segments in turn leaves it. */
  ghost predicate ImageLoaded(data: seq<byte>, phs: seq<Phdr>, slide: nat, i: nat, m: Mem, view: map<nat, Leaf>,
                              m': Mem, view': map<nat, Leaf>)
    requires i <= |phs|
  {
    && AllPrivate(m', view')
    && (forall v: nat :: LoadedAt(data, phs, slide, i, m, view, m', view', v))
    && (forall w: nat :: PermsAt(phs, slide, i, view, view', w))
  }

  lemma ImageNone(data: seq<byte>, phs: seq<Phdr>, slide: nat, m: Mem, view: map<nat, Leaf>)
    requires AllPrivate(m, view)
    ensures ImageLoaded(data, phs, slide, 0, m, view, m, view)
  {
    hide AllPrivate;
    forall v: nat ensures LoadedAt(data, phs, slide, 0, m, view, m, view, v) {}
    forall w: nat ensures PermsAt(phs, slide, 0, view, view, w) {}
  }

  lemma ImageMore(data: seq<byte>, phs: seq<Phdr>, slide: nat, i: nat, m: Mem, view: map<nat, Leaf>, m1: Mem,
                  view1: map<nat, Leaf>, m2: Mem, view2: map<nat, Leaf>)
    requires i < |phs| && ImageLoaded(data, phs, slide, i, m, view, m1, view1)
    requires Loads(phs[i]) ==> SegLoaded(data, phs[i], slide, m1, view1, m2, view2)
    requires !Loads(phs[i]) ==> m2 == m1 && view2 == view1
    ensures ImageLoaded(data, phs, slide, i + 1, m, view, m2, view2)
  {
    hide AllPrivate, ByteAt, InPages, SegFlags;
    var k := i + 1;
    forall v: nat ensures LoadedAt(data, phs, slide, k, m, view, m2, view2, v) {
      assert LoadedAt(data, phs, slide, i, m, view, m1, view1, v);
      if Loads(phs[i]) { assert SegAt(data, phs[i], slide, m1, view1, m2, view2, v); }
    }
    forall w: nat ensures PermsAt(phs, slide, k, view, view2, w) {
      assert PermsAt(phs, slide, i, view, view1, w);
      if Loads(phs[i]) { assert PermAt(phs[i], slide, view1, view2, w); }
    }
  }

  /** No loaded segment has more file bytes than memory. */
  predicate SizesOk(phs: seq<Phdr>) {
    forall i :: 0 <= i < |phs| && Loads(phs[i]) ==> phs[i].filesz <= phs[i].memsz
  }

  predicate FilesTo(data: seq<byte>, phs: seq<Phdr>, i: nat)
    requires i <= |phs|
  {
    forall j :: 0 <= j < i && Loads(phs[j]) ==> FileOk(data, phs[j])
  }

  predicate FilesOk(data: seq<byte>, phs: seq<Phdr>) {
    FilesTo(data, phs, |phs|)
  }

  /** Every file byte of segment `j` goes to a page that was mapped or that a segment up to it maps. */
  ghost predicate BytesMapped(view: map<nat, Leaf>, phs: seq<Phdr>, slide: nat, j: nat)
    requires j < |phs|
  {
    forall v: nat :: InFileBytes(phs[j], slide, v) ==>
      v / PAGE_SIZE in view || LastMapper(phs, slide, j + 1, v / PAGE_SIZE) >= 0
  }

  ghost predicate MappedTo(view: map<nat, Leaf>, phs: seq<Phdr>, slide: nat, i: nat)
    requires i <= |phs|
  {
    forall j :: 0 <= j < i && Loads(phs[j]) ==> BytesMapped(view, phs, slide, j)
  }

  predicate InSegment(ph: Phdr, slide: nat, v: nat) {
    ph.vaddr + slide <= v < ph.vaddr + slide + ph.memsz
  }

  lemma SegmentInPages(ph: Phdr, slide: nat, v: nat)
    requires ph.memsz != 0 && (InSegment(ph, slide, v) || (ph.filesz <= ph.memsz && InFileBytes(ph, slide, v)))
    ensures InPages(ph, slide, v / PAGE_SIZE)
  {
    SegmentPages(ph, slide);
    hide SegmentStart, SegmentEnd;
  }

  lemma SizesMapped(view: map<nat, Leaf>, phs: seq<Phdr>, slide: nat)
    requires SizesOk(phs)
    ensures MappedTo(view, phs, slide, |phs|)
  {
    forall j | 0 <= j < |phs| && Loads(phs[j]) ensures BytesMapped(view, phs, slide, j) {
      forall v: nat | InFileBytes(phs[j], slide, v) ensures LastMapper(phs, slide, j + 1, v / PAGE_SIZE) >= 0 {
        SegmentInPages(phs[j], slide, v);
      }
    }
  }

  /** The pages of the first `i` headers, a page counted for every segment that maps it. */
  function ElfPages(phs: seq<Phdr>, slide: nat, i: nat): nat
    requires i <= |phs|
  {
    if i == 0 then 0
    else ElfPages(phs, slide, i - 1) + (if Loads(phs[i - 1]) then SegPages(phs[i - 1], slide) else 0)
  }

  /** The tables that the pages of the first `i` headers lack. */
  function ElfNodes(m: Mem, root: nat, phs: seq<Phdr>, slide: nat, i: nat): set<Node>
    requires i <= |phs|
  {
    if i == 0 then {}
    else ElfNodes(m, root, phs, slide, i - 1) + (if Loads(phs[i - 1]) then SegNodes(m, root, phs[i - 1], slide) else {})
  }

  /** The frames that loading takes: one for every page and one for every missing table. */
  function ElfFrames(m: Mem, root: nat, phs: seq<Phdr>, slide: nat, i: nat): nat
    requires i <= |phs|
  {
    ElfPages(phs, slide, i) + |ElfNodes(m, root, phs, slide, i)|
  }

  lemma {:induction false} ElfFramesMonotone(m: Mem, root: nat, phs: seq<Phdr>, slide: nat, i: nat, n: nat)
    requires i <= n <= |phs|
    ensures ElfFrames(m, root, phs, slide, i) <= ElfFrames(m, root, phs, slide, n)
    decreases n - i
  {
    if i < n {
      ElfFramesMonotone(m, root, phs, slide, i, n - 1);
      hide SegNodes, SegPages;
      UnionSize(ElfNodes(m, root, phs, slide, n - 1),
                if Loads(phs[n - 1]) then SegNodes(m, root, phs[n - 1], slide) else {});
    }
  }

  /** The second loop of the loader after `i` headers. */
  ghost predicate ElfSoFar(data: seq<byte>, phs: seq<Phdr>, slide: nat, i: nat, m0: Mem, f0: set<nat>, g0: set<nat>,
                           m: Mem, f: set<nat>, g: set<nat>, root: nat)
    requires i <= |phs|
  {
    && ImageLoaded(data, phs, slide, i, m0, UserView(m0, root), m, UserView(m, root))
    && Took(m0, f0, m, f, root, ElfPages(phs, slide, i), ElfNodes(m0, root, phs, slide, i))
    && Confined(m0, f0, g0, m, f, g, root)
    && FilesTo(data, phs, i) && MappedTo(UserView(m0, root), phs, slide, i)
  }

  lemma ElfStart(data: seq<byte>, phs: seq<Phdr>, slide: nat, m: Mem, f: set<nat>, g: set<nat>, root: nat)
    requires AllPrivate(m, UserView(m, root))
    ensures ElfSoFar(data, phs, slide, 0, m, f, g, m, f, g, root)
  {
    hide AllPrivate, UserView, ImageLoaded, Confined, Took;
    ImageNone(data, phs, slide, m, UserView(m, root));
    TookNone(m, f, root);
    ConfinedNone(m, f, g, root);
  }

  lemma ElfPrivate(data: seq<byte>, phs: seq<Phdr>, slide: nat, i: nat, m0: Mem, f0: set<nat>, g0: set<nat>,
                   m: Mem, f: set<nat>, g: set<nat>, root: nat)
    requires i <= |phs| && ElfSoFar(data, phs, slide, i, m0, f0, g0, m, f, g, root)
    ensures AllPrivate(m, UserView(m, root)) && Confined(m0, f0, g0, m, f, g, root)
  {
  }

  lemma SegmentLimit(ph: Phdr, slide: nat)
    requires ph.memsz != 0 && InUserHalf(ph, slide)
    ensures SegmentStart(ph, slide) + SegPages(ph, slide) <= Limit(USER_SLOTS)
  {
    SegmentPages(ph, slide);
  }

  /** The tables that the next segment lacks are those not lacked before. */
  lemma NextNodes(m0: Mem, m: Mem, root: nat, phs: seq<Phdr>, slide: nat, i: nat)
    requires i < |phs| && Loads(phs[i]) && InUserHalf(phs[i], slide)
    requires Gained(m0, m, root, USER_SLOTS, ElfNodes(m0, root, phs, slide, i))
    ensures var nodes := ElfNodes(m0, root, phs, slide, i);
      && ElfNodes(m0, root, phs, slide, i + 1) == nodes + SegNodes(m, root, phs[i], slide)
      && |ElfNodes(m0, root, phs, slide, i + 1)| == |nodes| + |SegNodes(m, root, phs[i], slide)|
  {
    SegmentLimit(phs[i], slide);
    hide Gained, RangeNodes, SegmentStart, SegmentEnd, Limit;
    var nodes := ElfNodes(m0, root, phs, slide, i);
    RangeLeft(m0, m, root, USER_SLOTS, nodes, SegmentStart(phs[i], slide), SegPages(phs[i], slide));
    assert nodes + SegNodes(m0, root, phs[i], slide) == nodes + (SegNodes(m0, root, phs[i], slide) - nodes);
  }

  /** The next segment's file bytes have pages in the space as it is exactly when they have by the headers. */
  lemma NextMapped(data: seq<byte>, phs: seq<Phdr>, slide: nat, i: nat, m0: Mem, view0: map<nat, Leaf>, m: Mem,
                   view: map<nat, Leaf>)
    requires i < |phs| && Loads(phs[i]) && ImageLoaded(data, phs, slide, i, m0, view0, m, view)
    ensures FileMapped(view, phs[i], slide) <==> BytesMapped(view0, phs, slide, i)
  {
    hide AllPrivate, InPages, ByteAt, LoadedByte;
    forall v: nat
      ensures v / PAGE_SIZE in view || InPages(phs[i], slide, v / PAGE_SIZE) <==>
        v / PAGE_SIZE in view0 || LastMapper(phs, slide, i + 1, v / PAGE_SIZE) >= 0
    {
      assert LoadedAt(data, phs, slide, i, m0, view0, m, view, v);
    }
  }

  lemma ElfStep(data: seq<byte>, phs: seq<Phdr>, slide: nat, i: nat, m0: Mem, f0: set<nat>, g0: set<nat>,
                m: Mem, f: set<nat>, g: set<nat>, m': Mem, f': set<nat>, g': set<nat>, root: nat)
    requires i < |phs| && ElfSoFar(data, phs, slide, i, m0, f0, g0, m, f, g, root) && m0.Keys !! f0
    requires Loads(phs[i]) && InUserHalf(phs[i], slide)
    requires FileOk(data, phs[i]) && FileMapped(UserView(m, root), phs[i], slide)
    requires Took(m, f, m', f', root, SegPages(phs[i], slide), SegNodes(m, root, phs[i], slide))
    requires SegLoaded(data, phs[i], slide, m, UserView(m, root), m', UserView(m', root))
    requires Confined(m, f, g, m', f', g', root)
    ensures ElfSoFar(data, phs, slide, i + 1, m0, f0, g0, m', f', g', root)
  {
    hide UserView, ImageLoaded, Confined, SegLoaded, Gained, FileMapped, BytesMapped, SegNodes, SegPages, FileOk,
      InUserHalf, Loads;
    ImageMore(data, phs, slide, i, m0, UserView(m0, root), m, UserView(m, root), m', UserView(m', root));
    ConfinedTrans(m0, f0, g0, m, f, g, m', f', g', root);
    NextMapped(data, phs, slide, i, m0, UserView(m0, root), m, UserView(m, root));
    NextNodes(m0, m, root, phs, slide, i);
    GainedTrans(m0, m, m', root, USER_SLOTS, ElfNodes(m0, root, phs, slide, i), SegNodes(m, root, phs[i], slide));
  }

  lemma ElfSkip(data: seq<byte>, phs: seq<Phdr>, slide: nat, i: nat, m0: Mem, f0: set<nat>, g0: set<nat>,
                m: Mem, f: set<nat>, g: set<nat>, root: nat)
    requires i < |phs| && ElfSoFar(data, phs, slide, i, m0, f0, g0, m, f, g, root) && !Loads(phs[i])
    ensures ElfSoFar(data, phs, slide, i + 1, m0, f0, g0, m, f, g, root)
  {
    hide UserView, ImageLoaded, Confined, Gained, BytesMapped, SegNodes, SegPages, FileOk, Loads;
    ImageMore(data, phs, slide, i, m0, UserView(m0, root), m, UserView(m, root), m, UserView(m, root));
    assert ElfNodes(m0, root, phs, slide, i) + {} == ElfNodes(m0, root, phs, slide, i);
  }

  /** When a segment does not load, the file does not. */
  lemma ElfStop(data: seq<byte>, phs: seq<Phdr>, slide: nat, i: nat, m0: Mem, f0: set<nat>, g0: set<nat>,
                m: Mem, f: set<nat>, g: set<nat>, root: nat)
    requires i < |phs| && ElfSoFar(data, phs, slide, i, m0, f0, g0, m, f, g, root)
    requires Loads(phs[i]) && InUserHalf(phs[i], slide)
    requires !(FileOk(data, phs[i]) && FileMapped(UserView(m, root), phs[i], slide)
               && SegPages(phs[i], slide) + |SegNodes(m, root, phs[i], slide)| <= |f|)
    ensures !(FilesOk(data, phs) && MappedTo(UserView(m0, root), phs, slide, |phs|)
              && ElfFrames(m0, root, phs, slide, |phs|) <= |f0|)
  {
    hide UserView, ImageLoaded, Confined, Gained, FileMapped, BytesMapped, SegNodes, SegPages, FileOk, InUserHalf,
      Loads, ElfNodes;
    NextMapped(data, phs, slide, i, m0, UserView(m0, root), m, UserView(m, root));
    NextNodes(m0, m, root, phs, slide, i);
    ElfFramesMonotone(m0, root, phs, slide, i + 1, |phs|);
  }

  lemma ElfDone(data: seq<byte>, phs: seq<Phdr>, slide: nat, m0: Mem, f0: set<nat>, g0: set<nat>,
                m: Mem, f: set<nat>, g: set<nat>, root: nat)
    requires ElfSoFar(data, phs, slide, |phs|, m0, f0, g0, m, f, g, root)
    ensures FilesOk(data, phs) && MappedTo(UserView(m0, root), phs, slide, |phs|)
    ensures ElfFrames(m0, root, phs, slide, |phs|) <= |f0| && Confined(m0, f0, g0, m, f, g, root)
    ensures ImageLoaded(data, phs, slide, |phs|, m0, UserView(m0, root), m, UserView(m, root))
  {
    hide UserView, ImageLoaded, Confined, Gained, BytesMapped, FileOk, ElfNodes;
  }

  /** The second loop of the loader. */
  method LoadSegments(vm: Vmm, root: nat, data: seq<byte>, phs: seq<Phdr>, slide: nat) returns (err: Option<ElfError>)
    requires vm.Valid() && UserTree(vm.mem, root) && AllPrivate(vm.mem, UserView(vm.mem, root))
    requires forall i :: 0 <= i < |phs| && Loads(phs[i]) ==> InUserHalf(phs[i], slide)
    modifies vm`mem, vm.pmm
    ensures vm.Valid() && UserTree(vm.mem, root)
    ensures err.None? ==> ElfSoFar(data, phs, slide, |phs|, old(vm.mem), old(vm.Free()), old(PageFrames(vm.pmm.tags)),
                                   vm.mem, vm.Free(), PageFrames(vm.pmm.tags), root)
    ensures err.None? <==>
      && FilesOk(data, phs) && MappedTo(old(UserView(vm.mem, root)), phs, slide, |phs|)
      && ElfFrames(old(vm.mem), root, phs, slide, |phs|) <= |old(vm.Free())|
    ensures err.Some? ==> LoadError(err.value)
    ensures err == Some(OutOfBounds) ==> !FilesOk(data, phs)
    ensures err == Some(AllocFailed) ==> vm.Free() == {}
    ensures err == Some(MappingFailed) ==> vm.Free() == {} || !SizesOk(phs)
    ensures Confined(old(vm.mem), old(vm.Free()), old(PageFrames(vm.pmm.tags)), vm.mem, vm.Free(),
                     PageFrames(vm.pmm.tags), root)
  {
    hide BuddyAllocator.Valid, FreeFrames, PageFrames, UserTree, UserView, AllPrivate, SegLoaded, FileOk, InUserHalf,
      ElfSoFar, Confined, Took, FileMapped, SegPages, SegNodes, ElfFrames, MappedTo;
    ghost var m0, f0, g0 := vm.mem, vm.Free(), PageFrames(vm.pmm.tags);
    var i := 0;
    ElfStart(data, phs, slide, m0, f0, g0, root);
    while i < |phs|
      invariant i <= |phs| && vm.Valid() && UserTree(vm.mem, root)
      invariant ElfSoFar(data, phs, slide, i, m0, f0, g0, vm.mem, vm.Free(), PageFrames(vm.pmm.tags), root)
    {
      ghost var m, f, g := vm.mem, vm.Free(), PageFrames(vm.pmm.tags);
      if phs[i].kind == PT_LOAD && phs[i].memsz != 0 {
        ElfPrivate(data, phs, slide, i, m0, f0, g0, m, f, g, root);
        err := LoadSegment(vm, root, data, phs[i], slide);
        ConfinedTrans(m0, f0, g0, m, f, g, vm.mem, vm.Free(), PageFrames(vm.pmm.tags), root);
        if err.Some? {
          ElfStop(data, phs, slide, i, m0, f0, g0, m, f, g, root);
          return;
        }
        ElfStep(data, phs, slide, i, m0, f0, g0, m, f, g, vm.mem, vm.Free(), PageFrames(vm.pmm.tags), root);
      } else {
        ElfSkip(data, phs, slide, i, m0, f0, g0, m, f, g, root);
      }
      i := i + 1;
    }
    ElfDone(data, phs, slide, m0, f0, g0, vm.mem, vm.Free(), PageFrames(vm.pmm.tags), root);
    err := None;
  }

  // ----- the loader

  function SlideOf(data: seq<byte>, pieBase: nat): nat
    requires EHDR_SIZE <= |data|
  {
    if Field(data, 16, 2) == ET_DYN then pieBase else 0
  }

  /** What the loader takes for granted: the program header table it reads lies in the file, sums of
      header fields do not wrap, and segments lie in the user half. */
  predicate Usable(data: seq<byte>, pieBase: nat) {
    EHDR_SIZE <= |data| && CheckHeader(data).None? ==>
      var slide := SlideOf(data, pieBase);
      && PhOff(data) + PhNum(data) * PHDR_SIZE <= |data|
      && forall i :: 0 <= i < PhNum(data) ==>
           var ph := Phdrs(data, PhOff(data), PhNum(data))[i];
           ph.vaddr <= U64_MAX && (ph.kind == PT_LOAD ==> InUserHalf(ph, slide))
  }

  /** Where the auxiliary vector says the program headers are. */
  function PhdrVaddr(phs: seq<Phdr>, slide: nat, phoff: nat): nat {
    if PhdrOf(phs, slide) == 0 && phoff != 0 && HeaderSegment(phs, 0) >= 0
    then phs[HeaderSegment(phs, 0)].vaddr + slide + phoff
    else PhdrOf(phs, slide)
  }

  /** The program break: the first page boundary at or after the end of every segment. */
  ghost predicate IsBreak(phs: seq<Phdr>, slide: nat, brk: nat) {
    && brk % PAGE_SIZE == 0
    && (forall i :: 0 <= i < |phs| && phs[i].kind == PT_LOAD ==> phs[i].vaddr + slide + phs[i].memsz <= brk)
    && (brk < slide + PAGE_SIZE
        || exists i ::
             0 <= i < |phs| && phs[i].kind == PT_LOAD && brk < phs[i].vaddr + slide + phs[i].memsz + PAGE_SIZE)
  }

  lemma BreakFrom(phs: seq<Phdr>, slide: nat, loadMax: nat)
    requires IsMaxEnd(phs, loadMax)
    ensures IsBreak(phs, slide, AlignUp(loadMax + slide, PAGE_SIZE))
  {
    var brk := AlignUp(loadMax + slide, PAGE_SIZE);
    assert loadMax + slide <= brk < loadMax + slide + PAGE_SIZE;
    if loadMax != 0 {
      var i :| 0 <= i < |phs| && phs[i].kind == PT_LOAD && phs[i].vaddr + phs[i].memsz == loadMax;
      assert brk < phs[i].vaddr + slide + phs[i].memsz + PAGE_SIZE;
    }
  }

  /** What the loader reports: break, entry, interpreter, and where the headers are. */
  ghost predicate LoadedAs(data: seq<byte>, phs: seq<Phdr>, slide: nat, pieBase: nat, e: LoadedElf)
    requires EHDR_SIZE <= |data| && InterpsOk(data, phs)
  {
    && slide == (if Field(data, 16, 2) == 3 then pieBase else 0)
    && IsBreak(phs, slide, e.brk) && e.entry == Field(data, 24, 8) + slide && e.interp == InterpOf(data, phs)
    && e.phnum == |phs| && e.phent == PhEntSize(data) && e.phdrVaddr == PhdrVaddr(phs, slide, PhOff(data))
    && (if Field(data, 16, 2) == ET_DYN then e.loadBase == pieBase else IsMinStart(phs, e.loadBase))
  }

  lemma SegmentsFit(phs: seq<Phdr>, slide: nat)
    requires forall i :: 0 <= i < |phs| ==>
      phs[i].vaddr <= U64_MAX && (phs[i].kind == PT_LOAD ==> InUserHalf(phs[i], slide))
    ensures forall i :: 0 <= i < |phs| && Loads(phs[i]) ==> InUserHalf(phs[i], slide)
  {
  }

  method FindHeaderSegment(phs: seq<Phdr>) returns (i: nat)
    ensures i <= |phs| && HeaderSegment(phs, 0) == if i < |phs| then i else -1
  {
    i := 0;
    while i < |phs|
      invariant i <= |phs| && HeaderSegment(phs, 0) == HeaderSegment(phs, i)
    {
      if phs[i].kind == PT_LOAD && phs[i].offset == 0 {
        break;
      }
      i := i + 1;
    }
  }

  /** `load_elf`.  After a good header it succeeds exactly when every file range lies in the file, every file
      byte goes to a mapped page, and there are as many free frames as pages and missing tables. */
  method LoadElf(vm: Vmm, root: nat, data: seq<byte>, pieBase: nat) returns (r: Result<LoadedElf, ElfError>)
    requires vm.Valid() && UserTree(vm.mem, root) && AllPrivate(vm.mem, UserView(vm.mem, root)) && Usable(data, pieBase)
    modifies vm`mem, vm.pmm
    ensures vm.Valid() && UserTree(vm.mem, root)
    ensures CheckHeader(data).Some? ==> r == Err(CheckHeader(data).value) && vm.mem == old(vm.mem)
    ensures CheckHeader(data).None? ==>
      var phs, slide := HeadersOf(data), SlideOf(data, pieBase);
      && (r.Ok? <==>
          && InterpsOk(data, phs) && FilesOk(data, phs) && MappedTo(old(UserView(vm.mem, root)), phs, slide, |phs|)
          && ElfFrames(old(vm.mem), root, phs, slide, |phs|) <= |old(vm.Free())|)
      && (r.Err? ==> LoadError(r.error))
      && (r == Err(OutOfBounds) ==> !InterpsOk(data, phs) || !FilesOk(data, phs))
      && (r == Err(AllocFailed) ==> vm.Free() == {})
      && (r == Err(MappingFailed) ==> vm.Free() == {} || !SizesOk(phs))
      && (InterpsOk(data, phs) && FilesOk(data, phs) && SizesOk(phs) && vm.Free() != {} ==> r.Ok?)
    ensures r.Ok? ==>
      && CheckHeader(data).None?
      && var phs, slide, e := HeadersOf(data), SlideOf(data, pieBase), r.value;
      && InterpsOk(data, phs)
      && ElfSoFar(data, phs, slide, |phs|, old(vm.mem), old(vm.Free()), old(PageFrames(vm.pmm.tags)),
                  vm.mem, vm.Free(), PageFrames(vm.pmm.tags), root)
      && LoadedAs(data, phs, slide, pieBase, e)
    ensures Confined(old(vm.mem), old(vm.Free()), old(PageFrames(vm.pmm.tags)), vm.mem, vm.Free(),
                     PageFrames(vm.pmm.tags), root)
  {
    hide BuddyAllocator.Valid, FreeFrames, PageFrames, UserTree, UserView, AllPrivate, IsMinStart, IsMaxEnd, IsBreak,
      Phdrs, FilesOk, InterpsOk, Loads, InUserHalf, Field, ElfSoFar, Confined, ElfFrames, MappedTo, SizesOk;
    ConfinedNone(vm.mem, vm.Free(), PageFrames(vm.pmm.tags), root);
    var bad := CheckHeader(data);
    if bad.Some? {
      return Err(bad.value);
    }
    var isPie := Field(data, 16, 2) == ET_DYN;
    var slide := if isPie then pieBase else 0;
    var phoff := PhOff(data);
    var phs := Phdrs(data, phoff, PhNum(data));
    var ok, loadMin, loadMax, phdrVaddr, interp := ScanHeaders(data, phs, slide);
    if !ok {
      return Err(OutOfBounds);
    }
    var loadBase := if isPie then pieBase else loadMin;
    SegmentsFit(phs, slide);
    var err := LoadSegments(vm, root, data, phs, slide);
    if err.Some? {
      return Err(err.value);
    }
    var brk := AlignUp(loadMax + slide, PAGE_SIZE);
    BreakFrom(phs, slide, loadMax);
    if phdrVaddr == 0 && phoff != 0 {
      var i := FindHeaderSegment(phs);
      if i < |phs| {
        phdrVaddr := phs[i].vaddr + slide + phoff;
      }
    }
    return Ok(LoadedElf(Field(data, 24, 8) + slide, brk, phdrVaddr, PhNum(data), PhEntSize(data), loadBase, interp));
  }

  // ----- what the image holds

  /** The segment sets the byte at `v`. */
  predicate Touches(data: seq<byte>, ph: Phdr, slide: nat, v: nat) {
    Loads(ph) && (InPages(ph, slide, v / PAGE_SIZE) || (InFileBytes(ph, slide, v) && FileOk(data, ph)))
  }

  /** The byte the file promises at `v`: the segment's file bytes, then zero. */
  function Promised(data: seq<byte>, ph: Phdr, slide: nat, v: nat): byte {
    if InFileBytes(ph, slide, v) && FileOk(data, ph) then data[ph.offset + (v - ph.vaddr - slide)] else 0
  }

  /** The last segment that touches a byte decides it. */
  lemma {:induction false} LastTouchDecides(data: seq<byte>, phs: seq<Phdr>, slide: nat, i: nat, k: nat, v: nat,
                                            before: byte)
    requires k < i <= |phs| && Touches(data, phs[k], slide, v)
    requires forall j :: k < j < i ==> !Touches(data, phs[j], slide, v)
    ensures LoadedByte(data, phs, slide, i, v, before) == Promised(data, phs[k], slide, v)
  {
    hide InPages, InFileBytes, FileOk;
    if i > k + 1 {
      LastTouchDecides(data, phs, slide, i - 1, k, v, before);
      assert !Touches(data, phs[i - 1], slide, v);
    }
  }

  predicate NoCommonPage(a: Phdr, b: Phdr, slide: nat) {
    SegmentEnd(a, slide) <= SegmentStart(b, slide) || SegmentEnd(b, slide) <= SegmentStart(a, slide)
  }

  /** No two loaded segments share a page, and none has more file bytes than memory. */
  predicate WellFormed(phs: seq<Phdr>, slide: nat) {
    && SizesOk(phs)
    && (forall i, j :: 0 <= i < j < |phs| && Loads(phs[i]) && Loads(phs[j]) ==> NoCommonPage(phs[i], phs[j], slide))
  }

  /** For a well-formed file every byte of every segment is the file's below the file size and zero from
      there to the memory size. */
  lemma ImageFaithful(data: seq<byte>, phs: seq<Phdr>, slide: nat, k: nat, v: nat, before: byte)
    requires WellFormed(phs, slide) && k < |phs| && Loads(phs[k]) && FileOk(data, phs[k]) && InSegment(phs[k], slide, v)
    ensures LoadedByte(data, phs, slide, |phs|, v, before) ==
      if v < phs[k].vaddr + slide + phs[k].filesz then data[phs[k].offset + (v - phs[k].vaddr - slide)] else 0
  {
    SegmentInPages(phs[k], slide, v);
    forall j | k < j < |phs| ensures !Touches(data, phs[j], slide, v) {
      if Loads(phs[j]) {
        assert NoCommonPage(phs[k], phs[j], slide);
        if InFileBytes(phs[j], slide, v) {
          SegmentInPages(phs[j], slide, v);
        }
      }
    }
    LastTouchDecides(data, phs, slide, |phs|, k, v, before);
  }

  /** The last of the first `i` headers that sets the byte at `v`, or -1. */
  function LastToucher(data: seq<byte>, phs: seq<Phdr>, slide: nat, i: nat, v: nat): (r: int)
    requires i <= |phs|
    ensures -1 <= r < i && (r >= 0 ==> Touches(data, phs[r], slide, v))
    ensures forall j :: r < j < i ==> !Touches(data, phs[j], slide, v)
  {
    if i == 0 then -1
    else if Touches(data, phs[i - 1], slide, v) then i - 1
    else LastToucher(data, phs, slide, i - 1, v)
  }

  /** Whatever the headers, a byte of a segment is loaded as the segment promises it exactly when the last
      header that maps its page, or brings file bytes there, promises the same byte. */
  lemma SegmentByteExact(data: seq<byte>, phs: seq<Phdr>, slide: nat, k: nat, v: nat, before: byte)
    requires k < |phs| && Loads(phs[k]) && InSegment(phs[k], slide, v)
    ensures k <= LastToucher(data, phs, slide, |phs|, v)
    ensures LoadedByte(data, phs, slide, |phs|, v, before) == Promised(data, phs[k], slide, v) <==>
            Promised(data, phs[LastToucher(data, phs, slide, |phs|, v)], slide, v) == Promised(data, phs[k], slide, v)
  {
    hide Promised, LoadedByte;
    SegmentInPages(phs[k], slide, v);
    assert Touches(data, phs[k], slide, v);
    LastTouchDecides(data, phs, slide, |phs|, LastToucher(data, phs, slide, |phs|, v), v, before);
  }

  /** If no segment has more file bytes than memory, that header is the last one to map the page. */
  lemma LastToucherMaps(data: seq<byte>, phs: seq<Phdr>, slide: nat, v: nat)
    requires SizesOk(phs)
    ensures LastToucher(data, phs, slide, |phs|, v) == LastMapper(phs, slide, |phs|, v / PAGE_SIZE)
  {
    hide InPages, InFileBytes, FileOk;
    forall j | 0 <= j < |phs| && Touches(data, phs[j], slide, v) ensures InPages(phs[j], slide, v / PAGE_SIZE) {
      if InFileBytes(phs[j], slide, v) {
        SegmentInPages(phs[j], slide, v);
      }
    }
  }

  /** Two one-byte segments on one page. */
  function TwoOnOnePage(): (r: seq<Phdr>)
    ensures |r| == 2
  {
    [Phdr(PT_LOAD, 4, 176, 0x1000, 1, 1), Phdr(PT_LOAD, 4, 177, 0x1800, 1, 1)]
  }

  lemma TwoOnOneLost(data: seq<byte>, before: byte)
    requires |data| == 178
    ensures var phs := TwoOnOnePage();
      && InterpsOk(data, phs) && FilesOk(data, phs) && SizesOk(phs) && Loads(phs[0]) && InSegment(phs[0], 0, 0x1000)
      && Promised(data, phs[0], 0, 0x1000) == data[176]
      && LoadedByte(data, phs, 0, 2, 0x1000, before) == 0
  {
    var phs := TwoOnOnePage();
    assert SegmentStart(phs[1], 0) == 1 && SegmentEnd(phs[1], 0) == 2;
    LastTouchDecides(data, phs, 0, 2, 1, 0x1000, before);
  }

  /** A file that passes every check and whose first segment's byte, 7 in the file, is loaded as 0, because
      mapping the second segment replaced the page. */
  lemma SharedPageLoses(entry: nat, body: seq<byte>, before: byte)
    requires entry < Radix(8) && body == [7, 9]
    ensures var data, phs := ElfFile(entry, TwoOnOnePage(), body), TwoOnOnePage();
      && CheckHeader(data) == None && PhOff(data) + PhNum(data) * PHDR_SIZE <= |data| && HeadersOf(data) == phs
      && InterpsOk(data, phs) && FilesOk(data, phs) && SizesOk(phs) && Loads(phs[0]) && InSegment(phs[0], 0, 0x1000)
      && Promised(data, phs[0], 0, 0x1000) == 7
      && LoadedByte(data, phs, 0, |phs|, 0x1000, before) == 0
  {
    SmallFits();
    assert forall i :: 0 <= i < 2 ==> FieldsFit(TwoOnOnePage()[i]);
    FileReadBack(entry, TwoOnOnePage(), body);
    BodyByte(entry, TwoOnOnePage(), body, 0);
    hide *;
    TwoOnOneLost(ElfFile(entry, TwoOnOnePage(), body), before);
  }

  /** The address given to the program for its headers, when it is taken from the segment at file offset 0
      and that segment covers the table, holds the table's bytes. */
  lemma HeadersInMemory(data: seq<byte>, phs: seq<Phdr>, slide: nat, phoff: nat, t: nat, before: byte)
    requires WellFormed(phs, slide) && PhdrOf(phs, slide) == 0 && phoff != 0 && HeaderSegment(phs, 0) >= 0
    requires var ph := phs[HeaderSegment(phs, 0)];
      FileOk(data, ph) && Loads(ph) && phoff + |phs| * PHDR_SIZE <= ph.filesz
    requires t < |phs| * PHDR_SIZE
    ensures phoff + t < |data|
    ensures LoadedByte(data, phs, slide, |phs|, PhdrVaddr(phs, slide, phoff) + t, before) == data[phoff + t]
  {
    var k := HeaderSegment(phs, 0);
    ImageFaithful(data, phs, slide, k, PhdrVaddr(phs, slide, phoff) + t, before);
  }

  lemma OnlyMapper(phs: seq<Phdr>, slide: nat, k: nat, w: nat)
    requires WellFormed(phs, slide) && k < |phs| && Loads(phs[k]) && InPages(phs[k], slide, w)
    ensures LastMapper(phs, slide, |phs|, w) == k
  {
  }

  /** After a successful load of a well-formed file every address of every segment is mapped, with the
      rights its header asks for, and reads the byte the file promises. */
  lemma SegmentInMemory(data: seq<byte>, phs: seq<Phdr>, slide: nat, m: Mem, view: map<nat, Leaf>, m': Mem,
                        view': map<nat, Leaf>, k: nat, v: nat)
    requires ImageLoaded(data, phs, slide, |phs|, m, view, m', view') && WellFormed(phs, slide) && FilesOk(data, phs)
    requires k < |phs| && Loads(phs[k]) && InSegment(phs[k], slide, v)
    ensures v / PAGE_SIZE in view'
    ensures ByteAt(m', view', v) ==
      if v < phs[k].vaddr + slide + phs[k].filesz then data[phs[k].offset + (v - phs[k].vaddr - slide)] else 0
    ensures var leaf := view'[v / PAGE_SIZE];
      leaf.user && (leaf.writable <==> phs[k].flags / 2 % 2 == 1) && (leaf.noExec <==> phs[k].flags % 2 == 0)
  {
    hide AllPrivate, ByteAt, LoadedByte;
    SegmentInPages(phs[k], slide, v);
    var w := v / PAGE_SIZE;
    OnlyMapper(phs, slide, k, w);
    assert LoadedAt(data, phs, slide, |phs|, m, view, m', view', v);
    assert PermsAt(phs, slide, |phs|, view, view', w);
    ImageFaithful(data, phs, slide, k, v, ByteAt(m, view, v));
  }
}
