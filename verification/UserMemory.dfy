/** Reading and writing user memory through `translate`, page by page. */
module UserMemory {
  import opened Basics
  import opened Blocks
  import opened Buddy
  import opened PageTables
  import opened Translation
  import opened AccessRights
  import opened TableWalks
  import opened AddressSpaces
  import opened UserSpaces

  /** End of the user half of the address space. */
  const USER_LIMIT: nat := 0x8000_0000_0000

  lemma UserPage(v: nat)
    requires v < USER_LIMIT
    ensures PageOf(v) == v / PAGE_SIZE < Limit(USER_SLOTS)
  {
  }

  /** The byte at a physical address; memory that is not a page of bytes reads as zero. */
  function PhysByte(m: Mem, p: nat): byte {
    if IsPage(m, p / PAGE_SIZE) then m[p / PAGE_SIZE].b[p % PAGE_SIZE] else 0
  }

  /** The byte a user address reads under the given view. */
  function ByteAt(m: Mem, view: map<nat, Leaf>, v: nat): byte {
    if v / PAGE_SIZE in view then PhysByte(m, view[v / PAGE_SIZE].pfn * PAGE_SIZE + v % PAGE_SIZE) else 0
  }

  /** `translate` leads to the byte. */
  lemma TranslateByte(m: Mem, root: nat, v: nat)
    requires UserTree(m, root) && v < USER_LIMIT
    ensures Translate(m, root, v).Some? <==> v / PAGE_SIZE in UserView(m, root)
    ensures v / PAGE_SIZE in UserView(m, root) ==>
      && Translate(m, root, v).value == UserView(m, root)[v / PAGE_SIZE].pfn * PAGE_SIZE + v % PAGE_SIZE
      && PhysByte(m, Translate(m, root, v).value) == ByteAt(m, UserView(m, root), v)
  {
    hide TreeOk, View, Translate, Limit;
    UserPage(v);
    TranslateIsView(m, root, USER_SLOTS, v);
  }

  /** The page is mapped to a page of bytes that no other page of the view shares. */
  ghost predicate Private(m: Mem, view: map<nat, Leaf>, w: nat) {
    && w in view && IsPage(m, view[w].pfn)
    && (forall v: nat :: v in view && v != w ==> view[v].pfn != view[w].pfn)
  }

  ghost predicate LeafPages(m: Mem, view: map<nat, Leaf>) {
    forall w: nat :: w in view ==> IsPage(m, view[w].pfn) && !view[w].large
  }

  /** Page `w` is a private page of zero bytes. */
  ghost predicate FreshPage(m: Mem, view: map<nat, Leaf>, w: nat) {
    Private(m, view, w) && m[view[w].pfn] == ZeroPage()
  }

  ghost predicate SameFrame(m: Mem, m': Mem, f: nat) {
    f in m && f in m' && m'[f] == m[f]
  }

  /** Page `vp` became a fresh page; every other page is mapped and filled as before. */
  ghost predicate FreshPageAdded(m: Mem, view: map<nat, Leaf>, m': Mem, view': map<nat, Leaf>, vp: nat) {
    && LeafPages(m', view') && view'.Keys == view.Keys + {vp} && FreshPage(m', view', vp)
    && (forall w: nat :: w in view && w != vp ==> view'[w] == view[w] && SameFrame(m, m', view[w].pfn))
    && (forall w: nat :: FreshPage(m, view, w) && w != vp ==> FreshPage(m', view', w))
    && (forall w: nat :: Private(m, view, w) && w != vp ==> Private(m', view', w))
  }

  lemma ZeroIsPage()
    ensures ZeroPage().Page? && |ZeroPage().b| == PAGE_SIZE
  {
  }

  lemma FreshView(m: Mem, view: map<nat, Leaf>, m': Mem, vp: nat, f: nat, fl: Flags)
    requires LeafPages(m, view) && f in m' && m'[f] == ZeroPage()
    requires forall w: nat :: w in view ==> SameFrame(m, m', view[w].pfn) && view[w].pfn != f
    ensures FreshPageAdded(m, view, m', view[vp := MakeLeaf(f, fl)], vp)
  {
    hide ZeroPage;
    var view' := view[vp := MakeLeaf(f, fl)];
    assert IsPage(m', f) by { ZeroIsPage(); }
    forall w: nat | w in view' ensures IsPage(m', view'[w].pfn) && !view'[w].large {
      if w != vp { assert SameFrame(m, m', view[w].pfn); }
    }
    forall w: nat | Private(m, view, w) && w != vp ensures Private(m', view', w) && view'[w] == view[w] {
    }
  }

  /** Mapping a fresh page adds a private page of zero bytes. */
  lemma FreshAdded(m: Mem, free: set<nat>, pages: set<nat>, m': Mem, free': set<nat>, pages': set<nat>,
                   root: nat, vp: nat, fl: Flags, f: nat)
    requires UserTree(m, root) && m.Keys !! free && LeafPages(m, UserView(m, root))
    requires FreshMapped(m, free, pages, m', free', pages', root, vp, fl, true, Some(f))
    ensures FreshPageAdded(m, UserView(m, root), m', UserView(m', root), vp)
  {
    FramesAreTables(m, 4, root, USER_SLOTS);
    hide TreeOk, Frames, View, Missing, ZeroPage;
    var view, frames := UserView(m, root), UserFrames(m, root);
    forall w: nat | w in view ensures SameFrame(m, m', view[w].pfn) && view[w].pfn != f {
      assert IsPage(m, view[w].pfn);
    }
    FreshView(m, view, m', vp, f, fl);
  }

  // ----- what an operation on one space leaves alone

  function PagesOf(view: map<nat, Leaf>): set<nat> {
    set w | w in view :: view[w].pfn
  }

  /** The frames a space holds: its tables and the pages it maps. */
  ghost function Holdings(m: Mem, root: nat): set<nat> {
    UserFrames(m, root) + PagesOf(UserView(m, root))
  }

  /** Every frame taken is a table of the space or a page; the tables stay in the space, and pages stay pages. */
  ghost predicate KindsKept(m: Mem, free: set<nat>, m': Mem, free': set<nat>, root: nat) {
    && UserFrames(m, root) <= UserFrames(m', root)
    && (forall f :: f in free - free' ==> f in UserFrames(m', root) || IsPage(m', f))
    && (forall f :: f in m && IsPage(m, f) ==> IsPage(m', f))
  }

  lemma KindsTrans(m0: Mem, f0: set<nat>, m1: Mem, f1: set<nat>, m2: Mem, f2: set<nat>, root: nat)
    requires KindsKept(m0, f0, m1, f1, root) && KindsKept(m1, f1, m2, f2, root)
    ensures KindsKept(m0, f0, m2, f2, root)
  {
    hide UserFrames;
    forall f | f in f0 - f2 ensures f in UserFrames(m2, root) || IsPage(m2, f) {
      assert f in f0 - f1 || f in f1 - f2;
    }
  }

  lemma FreshKinds(m: Mem, free: set<nat>, m': Mem, free': set<nat>, root: nat, f: nat)
    requires UserTree(m, root) && Agree(m, m', m.Keys - UserFrames(m, root)) && f in m' && m'[f] == ZeroPage()
    requires UserFrames(m', root) == UserFrames(m, root) + (free - free' - {f})
    ensures KindsKept(m, free, m', free', root)
  {
    ZeroIsPage();
    FramesAreTables(m, 4, root, USER_SLOTS);
    hide TreeOk, Frames;
    forall g | g in m && IsPage(m, g) ensures IsPage(m', g) {
      assert g in m.Keys - UserFrames(m, root);
    }
  }

  /** An operation on the space at `root` took frames for it, kept its kernel half and what its links allow, and
      touched no frame that it does not hold. */
  ghost predicate Confined(m: Mem, free: set<nat>, pages: set<nat>, m': Mem, free': set<nat>, pages': set<nat>,
                           root: nat)
  {
    && free' <= free && m'.Keys == m.Keys + (free - free') && pages' == pages + (free - free')
    && SameKernelHalf(m, root, m', root) && SameUserLinks(m, root, m', root)
    && UserFrames(m', root) <= UserFrames(m, root) + (free - free')
    && Holdings(m', root) <= Holdings(m, root) + (free - free')
    && Agree(m, m', m.Keys - Holdings(m, root)) && KindsKept(m, free, m', free', root)
  }

  lemma ConfinedNone(m: Mem, free: set<nat>, pages: set<nat>, root: nat)
    ensures Confined(m, free, pages, m, free, pages, root)
  {
    hide Frames, View;
    assert free - free == {};
  }

  lemma ConfinedAgree(m0: Mem, f0: set<nat>, m1: Mem, f1: set<nat>, m2: Mem, h0: set<nat>, h1: set<nat>)
    requires m0.Keys !! f0 && m1.Keys == m0.Keys + (f0 - f1) && h1 <= h0 + (f0 - f1)
    requires Agree(m0, m1, m0.Keys - h0) && Agree(m1, m2, m1.Keys - h1)
    ensures Agree(m0, m2, m0.Keys - h0)
  {
    forall g | g in m0.Keys - h0 ensures g in m1.Keys - h1 {}
  }

  lemma SameHalfTrans(m0: Mem, m1: Mem, m2: Mem, root: nat)
    requires SameKernelHalf(m0, root, m1, root) && SameKernelHalf(m1, root, m2, root)
    ensures SameKernelHalf(m0, root, m2, root)
  {
    forall i: nat | USER_SLOTS <= i < ENTRIES ensures Entry(m2, root, i) == Entry(m0, root, i) {
      assert Entry(m2, root, i) == Entry(m1, root, i);
    }
  }

  lemma ConfinedTrans(m0: Mem, f0: set<nat>, p0: set<nat>, m1: Mem, f1: set<nat>, p1: set<nat>, m2: Mem, f2: set<nat>,
                      p2: set<nat>, root: nat)
    requires Confined(m0, f0, p0, m1, f1, p1, root) && Confined(m1, f1, p1, m2, f2, p2, root) && m0.Keys !! f0
    ensures Confined(m0, f0, p0, m2, f2, p2, root)
  {
    hide UserFrames, Holdings;
    KindsTrans(m0, f0, m1, f1, m2, f2, root);
    hide KindsKept;
    assert f0 - f2 == (f0 - f1) + (f1 - f2);
    ConfinedAgree(m0, f0, m1, f1, m2, Holdings(m0, root), Holdings(m1, root));
    SameHalfTrans(m0, m1, m2, root);
    SameLinksTrans(m0, root, m1, root, m2, root, USER_SLOTS);
    hide Agree, SameKernelHalf, SameLinks;
  }

  lemma FreshHoldings(own: set<nat>, own': set<nat>, held: set<nat>, held': set<nat>, free: set<nat>, free': set<nat>,
                      f: nat)
    requires f in free && f !in free' && own' == own + (free - free' - {f}) && held' <= held + {f}
    ensures own' <= own + (free - free') && own' + held' <= own + held + (free - free')
  {
  }

  lemma AgreeLess(m: Mem, m': Mem, a: set<nat>, b: set<nat>)
    requires a <= b
    ensures Agree(m, m', m.Keys - a) ==> Agree(m, m', m.Keys - b)
  {
  }

  lemma PagesMore(view: map<nat, Leaf>, vp: nat, leaf: Leaf)
    ensures PagesOf(view[vp := leaf]) <= PagesOf(view) + {leaf.pfn}
  {
  }

  lemma FreshConfined(m: Mem, free: set<nat>, pages: set<nat>, m': Mem, free': set<nat>, pages': set<nat>,
                      root: nat, vp: nat, fl: Flags, ok: bool, page: Option<nat>)
    requires FreshMapped(m, free, pages, m', free', pages', root, vp, fl, ok, page) && UserTree(m, root)
    ensures Confined(m, free, pages, m', free', pages', root)
  {
    hide TreeOk, Frames, View, Missing, ZeroPage, TablesGrew, SameKernelHalf, PagesOf, Agree;
    var view, view', own, own' := UserView(m, root), UserView(m', root), UserFrames(m, root), UserFrames(m', root);
    AgreeLess(m, m', own, Holdings(m, root));
    if page.None? {
      ConfinedNone(m, free, pages, root);
    } else {
      FreshKinds(m, free, m', free', root, page.value);
      hide UserFrames, UserView, UserTree, KindsKept;
      PagesMore(view, vp, MakeLeaf(page.value, fl));
      assert view' == view || view' == view[vp := MakeLeaf(page.value, fl)];
      FreshHoldings(own, own', PagesOf(view), PagesOf(view'), free, free', page.value);
    }
  }

  // ----- writing

  function Splice(b: seq<byte>, at: nat, chunk: seq<byte>): (r: seq<byte>)
    requires at + |chunk| <= |b|
    ensures |r| == |b|
    ensures forall i :: 0 <= i < |b| ==> r[i] == if at <= i < at + |chunk| then chunk[i - at] else b[i]
  {
    b[..at] + chunk + b[at + |chunk|..]
  }

  ghost predicate WroteAt(m: Mem, m': Mem, view: map<nat, Leaf>, virt: nat, data: seq<byte>, v: nat) {
    v / PAGE_SIZE in view ==>
      ByteAt(m', view, v) == if virt <= v < virt + |data| then data[v - virt] else ByteAt(m, view, v)
  }

  /** Nothing but the contents of pages changed, and no page outside the view. */
  ghost predicate SameLayout(m: Mem, m': Mem, view: map<nat, Leaf>) {
    && m'.Keys == m.Keys
    && (forall f :: f in m ==> (IsPage(m, f) && IsPage(m', f)) || m'[f] == m[f])
    && (forall f :: f in m && m'[f] != m[f] ==> exists w: nat :: w in view && view[w].pfn == f)
  }

  /** The bytes of `data` stand at `virt`; every other mapped byte is as before. */
  ghost predicate Wrote(m: Mem, m': Mem, view: map<nat, Leaf>, virt: nat, data: seq<byte>) {
    SameLayout(m, m', view) && forall v: nat :: WroteAt(m, m', view, virt, data, v)
  }

  lemma LayoutTrans(m0: Mem, m1: Mem, m2: Mem, view: map<nat, Leaf>)
    requires SameLayout(m0, m1, view) && SameLayout(m1, m2, view)
    ensures SameLayout(m0, m2, view)
  {
    forall f | f in m0 && m2[f] != m0[f] ensures exists w: nat :: w in view && view[w].pfn == f {
      if m1[f] != m0[f] {} else { assert m2[f] != m1[f]; }
    }
  }

  lemma LayoutPrivate(m: Mem, m': Mem, view: map<nat, Leaf>, w: nat)
    requires SameLayout(m, m', view) && Private(m, view, w)
    ensures Private(m', view, w)
  {
  }

  /** Table frames are not pages, so writing to pages leaves the address space's tables alone. */
  lemma LayoutTables(m: Mem, m': Mem, root: nat)
    requires UserTree(m, root) && SameLayout(m, m', UserView(m, root))
    ensures UserTree(m', root) && UserFrames(m', root) == UserFrames(m, root) && UserView(m', root) == UserView(m, root)
    ensures SameUserLinks(m, root, m', root)
  {
    FramesAreTables(m, 4, root, USER_SLOTS);
    SameTree(m, m', 4, root, USER_SLOTS);
    SameView(m, m', root, USER_SLOTS);
    LinksLocal(m, m', root, USER_SLOTS);
  }

  /** Writing to pages of a space touches nothing else. */
  lemma LayoutKinds(m: Mem, m': Mem, root: nat, free: set<nat>, view: map<nat, Leaf>)
    requires SameLayout(m, m', view) && UserFrames(m', root) == UserFrames(m, root)
    ensures KindsKept(m, free, m', free, root)
  {
    hide UserFrames;
  }

  lemma LayoutConfined(m: Mem, m': Mem, root: nat, free: set<nat>, pages: set<nat>)
    requires UserTree(m, root) && SameLayout(m, m', UserView(m, root))
    ensures Confined(m, free, pages, m', free, pages, root)
  {
    LayoutTables(m, m', root);
    OwnTable(m, 4, root, USER_SLOTS);
    hide TreeOk, Frames, View;
    LayoutKinds(m, m', root, free, UserView(m, root));
    hide KindsKept, SameLinks;
    assert free - free == {};
    assert m'[root] == m[root];
    forall g | g in m.Keys - Holdings(m, root) ensures m'[g] == m[g] {}
  }

  lemma FrameByte(f: nat, v: nat)
    ensures (f * PAGE_SIZE + v % PAGE_SIZE) / PAGE_SIZE == f
    ensures (f * PAGE_SIZE + v % PAGE_SIZE) % PAGE_SIZE == v % PAGE_SIZE
  {
  }

  /** Copying a chunk into one private page. */
  lemma ChunkWrote(m: Mem, view: map<nat, Leaf>, virt: nat, chunk: seq<byte>)
    requires Private(m, view, virt / PAGE_SIZE) && virt % PAGE_SIZE + |chunk| <= PAGE_SIZE
    ensures var f := view[virt / PAGE_SIZE].pfn;
      Wrote(m, m[f := Page(Splice(m[f].b, virt % PAGE_SIZE, chunk))], view, virt, chunk)
  {
    var w := virt / PAGE_SIZE;
    var f := view[w].pfn;
    var m' := m[f := Page(Splice(m[f].b, virt % PAGE_SIZE, chunk))];
    hide Splice;
    forall v: nat ensures WroteAt(m, m', view, virt, chunk, v) {
      if v / PAGE_SIZE in view {
        FrameByte(view[v / PAGE_SIZE].pfn, v);
      }
    }
  }

  /** Two writes side by side are one. */
  lemma WroteMore(m0: Mem, m1: Mem, m2: Mem, view: map<nat, Leaf>, virt: nat, a: seq<byte>, b: seq<byte>)
    requires Wrote(m0, m1, view, virt, a) && Wrote(m1, m2, view, virt + |a|, b)
    ensures Wrote(m0, m2, view, virt, a + b)
  {
    hide ByteAt, SameLayout;
    LayoutTrans(m0, m1, m2, view);
    forall v: nat ensures WroteAt(m0, m2, view, virt, a + b, v) {
      assert WroteAt(m0, m1, view, virt, a, v) && WroteAt(m1, m2, view, virt + |a|, b, v);
    }
  }

  /** One byte stored at a physical address. */
  function Poke(m: Mem, p: nat, x: byte): Mem {
    if IsPage(m, p / PAGE_SIZE) then m[p / PAGE_SIZE := Page(m[p / PAGE_SIZE].b[p % PAGE_SIZE := x])] else m
  }

  /** The bytes of `data` stored one after the other at the frames that `view` gives for `virt` onwards.
      Where two pages share a frame, the later byte stays. */
  function Poked(m: Mem, view: map<nat, Leaf>, virt: nat, data: seq<byte>): Mem
    decreases |data|
  {
    if data == [] then m
    else
      var n := |data| - 1;
      var v, m1 := virt + n, Poked(m, view, virt, data[..n]);
      if v / PAGE_SIZE in view then Poke(m1, view[v / PAGE_SIZE].pfn * PAGE_SIZE + v % PAGE_SIZE, data[n]) else m1
  }

  lemma {:induction false} PokedLayout(m: Mem, view: map<nat, Leaf>, virt: nat, data: seq<byte>)
    ensures SameLayout(m, Poked(m, view, virt, data), view)
    decreases |data|
  {
    if data != [] {
      var n := |data| - 1;
      var v, m1, m2 := virt + n, Poked(m, view, virt, data[..n]), Poked(m, view, virt, data);
      PokedLayout(m, view, virt, data[..n]);
      if v / PAGE_SIZE in view { FrameByte(view[v / PAGE_SIZE].pfn, v); }
      hide Poked;
      assert SameLayout(m1, m2, view);
      LayoutTrans(m, m1, m2, view);
    }
  }

  lemma {:induction false} PokedTwice(m: Mem, view: map<nat, Leaf>, virt: nat, a: seq<byte>, b: seq<byte>)
    ensures Poked(m, view, virt, a + b) == Poked(Poked(m, view, virt, a), view, virt + |a|, b)
    decreases |b|
  {
    if b == [] {
      assert a + b == a;
    } else {
      var n := |b| - 1;
      PokedTwice(m, view, virt, a, b[..n]);
      assert (a + b)[..|a| + n] == a + b[..n];
    }
  }

  lemma SameOffset(v: nat, n: nat)
    requires v % PAGE_SIZE + n < PAGE_SIZE
    ensures (v + n) / PAGE_SIZE == v / PAGE_SIZE && (v + n) % PAGE_SIZE == v % PAGE_SIZE + n
  {
  }

  lemma SamePageRange(v: nat, n: nat)
    requires n <= PAGE_SIZE - v % PAGE_SIZE
    ensures forall u: nat :: v <= u < v + n ==> u / PAGE_SIZE == v / PAGE_SIZE
  {
  }

  /** Copying a chunk within one page stores its bytes one after the other. */
  lemma {:induction false} PokedChunk(m: Mem, view: map<nat, Leaf>, virt: nat, chunk: seq<byte>)
    requires virt / PAGE_SIZE in view && IsPage(m, view[virt / PAGE_SIZE].pfn)
    requires virt % PAGE_SIZE + |chunk| <= PAGE_SIZE
    ensures var f := view[virt / PAGE_SIZE].pfn;
      Poked(m, view, virt, chunk) == m[f := Page(Splice(m[f].b, virt % PAGE_SIZE, chunk))]
    decreases |chunk|
  {
    var f, at := view[virt / PAGE_SIZE].pfn, virt % PAGE_SIZE;
    var b := m[f].b;
    if chunk == [] {
      assert Splice(b, at, chunk) == b;
    } else {
      var n := |chunk| - 1;
      PokedChunk(m, view, virt, chunk[..n]);
      SamePageRange(virt, |chunk|);
      FrameByte(f, virt + n);
      SameOffset(virt, n);
      assert Splice(b, at, chunk[..n])[at + n := chunk[n]] == Splice(b, at, chunk);
      hide Splice;
      var page := Page(Splice(b, at, chunk));
      assert m[f := Page(Splice(b, at, chunk[..n]))][f := page] == m[f := page];
    }
  }

  lemma PokedOne(m: Mem, view: map<nat, Leaf>, v: nat, x: byte)
    requires Private(m, view, v / PAGE_SIZE)
    ensures Wrote(m, Poked(m, view, v, [x]), view, v, [x])
  {
    hide Wrote, Poked;
    PokedChunk(m, view, v, [x]);
    ChunkWrote(m, view, v, [x]);
  }

  lemma NothingWritten(m: Mem, view: map<nat, Leaf>, virt: nat)
    ensures Wrote(m, m, view, virt, [])
  {
    forall v: nat ensures WroteAt(m, m, view, virt, [], v) {}
  }

  /** On private pages the bytes of `data` stand at `virt` afterwards and no other byte is touched. */
  lemma {:induction false} PokedPrivate(m: Mem, view: map<nat, Leaf>, virt: nat, data: seq<byte>)
    requires forall v: nat :: virt <= v < virt + |data| ==> Private(m, view, v / PAGE_SIZE)
    ensures Wrote(m, Poked(m, view, virt, data), view, virt, data)
    decreases |data|
  {
    if data == [] {
      NothingWritten(m, view, virt);
    } else {
      var n := |data| - 1;
      var v, m1 := virt + n, Poked(m, view, virt, data[..n]);
      hide Wrote, Private, Poked;
      PokedPrivate(m, view, virt, data[..n]);
      assert Private(m, view, v / PAGE_SIZE);
      PokedLayout(m, view, virt, data[..n]);
      LayoutPrivate(m, m1, view, v / PAGE_SIZE);
      PokedOne(m1, view, v, data[n]);
      PokedTwice(m, view, virt, data[..n], [data[n]]);
      assert data[..n] + [data[n]] == data;
      WroteMore(m, m1, Poked(m1, view, v, [data[n]]), view, virt, data[..n], [data[n]]);
    }
  }

  lemma PokedNone(m: Mem, view: map<nat, Leaf>, virt: nat)
    ensures Poked(m, view, virt, []) == m
  {
  }

  lemma LayoutPage(m: Mem, m': Mem, view: map<nat, Leaf>, f: nat)
    requires SameLayout(m, m', view) && IsPage(m, f)
    ensures IsPage(m', f)
  {
  }

  lemma KeysKept(m: Mem, m': Mem, view: map<nat, Leaf>)
    requires SameLayout(m, m', view)
    ensures m'.Keys == m.Keys
  {
  }

  /** The write loop shared by the program loader and the stack builder: translate, copy to the end of
      the page, go on.  Stores the bytes before the first address that is not mapped, and succeeds if
      there is none. */
  method WriteAt(vm: Vmm, root: nat, virt: nat, data: seq<byte>) returns (ok: bool, ghost done: nat)
    requires vm.Valid() && UserTree(vm.mem, root) && virt + |data| <= USER_LIMIT
    requires forall v: nat :: virt <= v < virt + |data| && v / PAGE_SIZE in UserView(vm.mem, root) ==>
      IsPage(vm.mem, UserView(vm.mem, root)[v / PAGE_SIZE].pfn)
    modifies vm`mem
    ensures vm.Valid() && SameLayout(old(vm.mem), vm.mem, old(UserView(vm.mem, root)))
    ensures done <= |data| && forall v: nat :: virt <= v < virt + done ==> v / PAGE_SIZE in old(UserView(vm.mem, root))
    ensures ok <==> done == |data|
    ensures !ok ==> (virt + done) / PAGE_SIZE !in old(UserView(vm.mem, root))
    ensures vm.mem == Poked(old(vm.mem), old(UserView(vm.mem, root)), virt, data[..done])
  {
    hide BuddyAllocator.Valid, FreeFrames, PageFrames, TreeOk, Frames, View, Translate, ByteAt, PhysByte, Poked,
      SameLayout;
    ghost var m0, view := vm.mem, UserView(vm.mem, root);
    var offset := 0;
    done := 0;
    PokedNone(m0, view, virt);
    PokedLayout(m0, view, virt, []);
    assert data[..0] == [];
    while offset < |data|
      invariant offset == done <= |data| && vm.Valid()
      invariant vm.mem == Poked(m0, view, virt, data[..offset]) && SameLayout(m0, vm.mem, view)
      invariant forall v: nat :: virt <= v < virt + offset ==> v / PAGE_SIZE in view
    {
      ghost var m1 := vm.mem;
      LayoutTables(m0, m1, root);
      var v := virt + offset;
      TranslateByte(m1, root, v);
      var phys := Translate(vm.mem, root, v);
      if phys.None? {
        return false, offset;
      }
      var avail := PAGE_SIZE - v % PAGE_SIZE;
      var toCopy := if avail < |data| - offset then avail else |data| - offset;
      var f := phys.value / PAGE_SIZE;
      FrameByte(view[v / PAGE_SIZE].pfn, v);
      LayoutPage(m0, m1, view, f);
      PokedChunk(m1, view, v, data[offset..offset + toCopy]);
      PokedTwice(m0, view, virt, data[..offset], data[offset..offset + toCopy]);
      assert data[..offset] + data[offset..offset + toCopy] == data[..offset + toCopy];
      PokedLayout(m0, view, virt, data[..offset + toCopy]);
      vm.mem := vm.mem[f := Page(Splice(vm.mem[f].b, phys.value % PAGE_SIZE, data[offset..offset + toCopy]))];
      KeysKept(m0, vm.mem, view);
      SamePageRange(v, toCopy);
      offset := offset + toCopy;
      done := offset;
    }
    ok := true;
  }
}
