/** Every run of the kernel's operations on user address spaces: copy-on-write isolation, and one kernel
    half shared by all. */
module Isolation {
  import opened Basics
  import opened PageTables
  import opened Translation
  import opened AccessRights
  import opened TableWalks
  import opened Fork
  import opened UserSpaces

  type Views = map<nat, map<nat, Leaf>>

  /** Page `w` of space `r` is mapped. */
  predicate Mapped(vs: Views, r: nat, w: nat) {
    r in vs && w in vs[r]
  }

  function LeafAt(vs: Views, r: nat, w: nat): Leaf
    requires Mapped(vs, r, w)
  {
    vs[r][w]
  }

  /** A user process may store through this leaf. */
  predicate Storable(l: Leaf) {
    l.user && l.writable
  }

  ghost predicate ApartAt(vs: Views, r: nat, w: nat, q: nat, v: nat) {
    Mapped(vs, r, w) && Mapped(vs, q, v) && (r != q || w != v) && Storable(LeafAt(vs, r, w)) ==>
      LeafAt(vs, r, w).pfn != LeafAt(vs, q, v).pfn
  }

  /** A frame mapped by a writable user leaf is mapped by no other leaf, in any space. */
  ghost predicate Isolated(vs: Views) {
    forall r: nat, w: nat, q: nat, v: nat :: ApartAt(vs, r, w, q, v)
  }

  // ----- how each operation changes the views

  lemma CowIsolated(vs: Views, p: nat, c: nat)
    requires Isolated(vs) && p in vs && c !in vs
    ensures Isolated(vs[p := CowView(vs[p])][c := CowView(vs[p])])
  {
    var us := vs[p := CowView(vs[p])][c := CowView(vs[p])];
    forall r: nat, w: nat, q: nat, v: nat ensures ApartAt(us, r, w, q, v) {
      assert ApartAt(vs, if r == c then p else r, w, if q == c then p else q, v);
    }
  }

  function Remap(vs: Views, p: nat, vp: nat, leaf: Leaf): Views
    requires p in vs
  {
    var view: map<nat, Leaf> := vs[p][vp := leaf];
    vs[p := view]
  }

  ghost predicate UnusedAt(vs: Views, f: nat, r: nat, w: nat) {
    Mapped(vs, r, w) ==> LeafAt(vs, r, w).pfn != f
  }

  ghost predicate Unused(vs: Views, f: nat) {
    forall r: nat, w: nat :: UnusedAt(vs, f, r, w)
  }

  lemma FreshIsolated(vs: Views, p: nat, vp: nat, leaf: Leaf)
    requires Isolated(vs) && p in vs && Unused(vs, leaf.pfn)
    ensures Isolated(Remap(vs, p, vp, leaf))
  {
    var us := Remap(vs, p, vp, leaf);
    forall r: nat, w: nat, q: nat, v: nat ensures ApartAt(us, r, w, q, v) {
      assert ApartAt(vs, r, w, q, v) && UnusedAt(vs, leaf.pfn, r, w) && UnusedAt(vs, leaf.pfn, q, v);
    }
  }

  ghost predicate FewerAt(vs: Views, us: Views, r: nat, w: nat) {
    Mapped(us, r, w) ==> Mapped(vs, r, w) && LeafAt(us, r, w) == LeafAt(vs, r, w)
  }

  lemma FewerIsolated(vs: Views, us: Views)
    requires Isolated(vs) && forall r: nat, w: nat :: FewerAt(vs, us, r, w)
    ensures Isolated(us)
  {
    forall r: nat, w: nat, q: nat, v: nat ensures ApartAt(us, r, w, q, v) {
      assert ApartAt(vs, r, w, q, v) && FewerAt(vs, us, r, w) && FewerAt(vs, us, q, v);
    }
  }

  // ----- states and steps

  /** Memory and allocator, the PML4 of the kernel, the tables under its upper half, and the PML4s of the
      user spaces. */
  datatype State = State(mem: Mem, free: set<nat>, pages: set<nat>, kernel: nat, tables: set<nat>, roots: set<nat>)

  ghost function AllViews(k: State): Views {
    map r | r in k.roots :: UserView(k.mem, r)
  }

  ghost predicate SpaceOk(k: State, r: nat) {
    r in k.roots ==>
      && UserTree(k.mem, r) && UserFrames(k.mem, r) <= k.pages && NoLarge(UserView(k.mem, r))
      && (forall w: nat :: w in UserView(k.mem, r) ==> IsPage(k.mem, UserView(k.mem, r)[w].pfn))
  }

  ghost predicate DisjointAt(k: State, r: nat, q: nat) {
    r in k.roots && q in k.roots && r != q ==> UserFrames(k.mem, r) !! UserFrames(k.mem, q)
  }

  /** Every user space is a tree of tables of its own, mapping pages of bytes; no frame in use is free;
      and the views are isolated. */
  ghost predicate UserInv(k: State) {
    && k.mem.Keys !! k.free
    && (forall r: nat :: SpaceOk(k, r))
    && (forall r: nat, q: nat :: DisjointAt(k, r, q))
    && Isolated(AllViews(k))
  }

  ghost predicate HalfAt(k: State, r: nat) {
    r in k.roots ==> SameKernelHalf(k.mem, k.kernel, k.mem, r) && k.tables !! UserFrames(k.mem, r)
  }

  ghost predicate KernelTables(k: State) {
    k.kernel in k.tables && forall f :: f in k.tables ==> IsTable(k.mem, f)
  }

  /** Every user space has the kernel's upper half, and no kernel table among its own. */
  ghost predicate KernelShared(k: State) {
    KernelTables(k) && forall r: nat :: HalfAt(k, r)
  }

  ghost predicate LinksAt(k: State, r: nat) {
    r in k.roots ==> UserOpen(k.mem, r)
  }

  /** In no user space does a link take a right away. */
  ghost predicate LinksOpen(k: State) {
    forall r: nat :: LinksAt(k, r)
  }

  ghost predicate Inv(k: State) {
    UserInv(k) && KernelShared(k) && LinksOpen(k)
  }

  datatype Op =
    | NewSpace(result: Option<nat>)
    | ForkSpace(root: nat, child: Option<nat>)
    | DemandPage(root: nat, vp: nat, fl: Flags, ok: bool, page: Option<nat>)
    | ResolveCow(root: nat, vp: nat, ok: bool, copy: nat)
    | UnmapAt(root: nat, vp: nat)
    | Drop(root: nat)
    | Store(root: nat, vp: nat, offset: nat, value: byte)
    | KernelStore(root: nat, vp: nat, offset: nat, value: byte)

  /** One byte of a page is stored. */
  ghost predicate Stored(m: Mem, m': Mem, f: nat, offset: nat, value: byte) {
    offset < PAGE_SIZE && IsPage(m, f) && m' == m[f := Page(m[f].b[offset := value])]
  }

  /** One operation, as the methods of the kernel specify it. */
  ghost predicate Step(k: State, op: Op, k': State) {
    && k'.kernel == k.kernel && k'.tables == k.tables
    && match op
    case NewSpace(r) =>
      && Created(k.mem, k.free, k.pages, k'.mem, k'.free, k'.pages, k.kernel, r)
      && k'.roots == (if r.Some? then k.roots + {r.value} else k.roots)
    case ForkSpace(root, r) =>
      && root in k.roots && Forked(k.mem, k.free, k.pages, k'.mem, k'.free, k'.pages, root, r)
      && k'.roots == (if r.Some? then k.roots + {r.value} else k.roots)
    case DemandPage(root, vp, fl, ok, page) =>
      && root in k.roots && k'.roots == k.roots && vp < Limit(USER_SLOTS)
      && FreshMapped(k.mem, k.free, k.pages, k'.mem, k'.free, k'.pages, root, vp, fl, ok, page)
    case ResolveCow(root, vp, ok, copy) =>
      && root in k.roots && k'.roots == k.roots && vp < Limit(USER_SLOTS)
      && CowResolved(k.mem, k.free, k.pages, k'.mem, k'.free, k'.pages, root, vp, ok, copy)
    case UnmapAt(root, vp) =>
      && root in k.roots && Unmapped(k.mem, k'.mem, root, vp)
      && k'.free == k.free && k'.pages == k.pages && k'.roots == k.roots
    case Drop(root) =>
      && root in k.roots && k'.roots == k.roots - {root}
      && Released(k.mem, k.free, k.pages, k'.mem, k'.free, k'.pages, UserFrames(k.mem, root))
    case Store(root, vp, offset, value) =>
      // a user process; the processor allows it only through a writable user leaf
      && root in k.roots && vp in UserView(k.mem, root) && Storable(UserView(k.mem, root)[vp])
      && Stored(k.mem, k'.mem, UserView(k.mem, root)[vp].pfn, offset, value)
      && k'.free == k.free && k'.pages == k.pages && k'.roots == k.roots
    case KernelStore(root, vp, offset, value) =>
      // a system call, through `translate` and the direct map, whatever the leaf allows
      && root in k.roots && vp in UserView(k.mem, root)
      && Stored(k.mem, k'.mem, UserView(k.mem, root)[vp].pfn, offset, value)
      && k'.free == k.free && k'.pages == k.pages && k'.roots == k.roots
  }

  // ----- an untouched space stays as it was

  lemma Untouched(k: State, k': State, r: nat)
    requires r in k.roots && SpaceOk(k, r) && Agree(k.mem, k'.mem, UserFrames(k.mem, r))
    ensures UserTree(k'.mem, r) && UserFrames(k'.mem, r) == UserFrames(k.mem, r)
    ensures UserView(k'.mem, r) == UserView(k.mem, r)
  {
    SameTree(k.mem, k'.mem, 4, r, USER_SLOTS);
    SameView(k.mem, k'.mem, r, USER_SLOTS);
  }

  lemma SpaceInMem(k: State, r: nat)
    requires r in k.roots && SpaceOk(k, r)
    ensures UserFrames(k.mem, r) <= k.mem.Keys && r in UserFrames(k.mem, r)
    ensures forall f :: f in UserFrames(k.mem, r) ==> !IsPage(k.mem, f)
  {
    FramesInMem(k.mem, 4, r, USER_SLOTS);
    OwnTable(k.mem, 4, r, USER_SLOTS);
    FramesAreTables(k.mem, 4, r, USER_SLOTS);
  }

  /** A space none of whose tables is among `own` survives any change confined to `own`. */
  lemma OtherKept(k: State, k': State, own: set<nat>, r: nat)
    requires r in k.roots && SpaceOk(k, r) && UserFrames(k.mem, r) !! own && UserFrames(k.mem, r) <= k'.pages
    requires Agree(k.mem, k'.mem, k.mem.Keys - own) && forall f :: f in own ==> !IsPage(k.mem, f)
    ensures SpaceOk(k', r)
    ensures UserFrames(k'.mem, r) == UserFrames(k.mem, r) && UserView(k'.mem, r) == UserView(k.mem, r)
  {
    hide TreeOk, Frames, View;
    SpaceInMem(k, r);
    Untouched(k, k', r);
    forall w: nat | w in UserView(k.mem, r) ensures IsPage(k'.mem, UserView(k.mem, r)[w].pfn) {
      assert IsPage(k.mem, UserView(k.mem, r)[w].pfn);
    }
  }

  /** What a change of the space `p` must leave of it. */
  ghost predicate SelfKept(k: State, k': State, p: nat, added: set<nat>) {
    && SpaceOk(k', p) && UserFrames(k'.mem, p) <= UserFrames(k.mem, p) + added
    && added <= k.free && k'.mem.Keys !! k'.free && k.pages <= k'.pages
    && Agree(k.mem, k'.mem, k.mem.Keys - UserFrames(k.mem, p))
  }

  /** An operation on one space keeps all spaces in order. */
  lemma OneSpace(k: State, k': State, p: nat, added: set<nat>)
    requires UserInv(k) && p in k.roots && k'.roots == k.roots && SelfKept(k, k', p, added)
    requires Isolated(AllViews(k'))
    ensures UserInv(k') && forall r :: r in k.roots && r != p ==> UserView(k'.mem, r) == UserView(k.mem, r)
  {
    hide TreeOk, Frames, View, Isolated;
    assert SpaceOk(k, p);
    SpaceInMem(k, p);
    forall r: nat | r in k.roots && r != p
      ensures SpaceOk(k', r) && UserFrames(k'.mem, r) == UserFrames(k.mem, r)
      ensures UserView(k'.mem, r) == UserView(k.mem, r)
      ensures UserFrames(k.mem, r) <= k.mem.Keys
    {
      assert SpaceOk(k, r) && DisjointAt(k, r, p);
      SpaceInMem(k, r);
      OtherKept(k, k', UserFrames(k.mem, p), r);
    }
    forall r: nat ensures SpaceOk(k', r) {}
    forall r: nat, q: nat ensures DisjointAt(k', r, q) {
      assert DisjointAt(k, r, q);
    }
  }

  /** The views before and after an operation on one space. */
  lemma OneView(k: State, k': State, p: nat)
    requires UserInv(k) && p in k.roots && k'.roots == k.roots
    requires Agree(k.mem, k'.mem, k.mem.Keys - UserFrames(k.mem, p)) && k.pages <= k'.pages
    ensures AllViews(k') == AllViews(k)[p := UserView(k'.mem, p)]
  {
    hide TreeOk, Frames, View, Isolated;
    assert SpaceOk(k, p);
    SpaceInMem(k, p);
    forall r: nat | r in k.roots && r != p ensures UserView(k'.mem, r) == UserView(k.mem, r) {
      assert SpaceOk(k, r) && DisjointAt(k, r, p);
      SpaceInMem(k, r);
      OtherKept(k, k', UserFrames(k.mem, p), r);
    }
  }

  /** A frame that is not in use is mapped nowhere. */
  lemma FreeUnused(k: State, f: nat)
    requires UserInv(k) && f !in k.mem
    ensures Unused(AllViews(k), f)
  {
    forall r: nat, w: nat ensures UnusedAt(AllViews(k), f, r, w) {
      assert SpaceOk(k, r);
    }
  }

  // ----- each operation keeps the invariant

  lemma DemandSelf(k: State, k': State, root: nat, vp: nat, fl: Flags, ok: bool, f: nat)
    requires UserInv(k) && Step(k, DemandPage(root, vp, fl, ok, Some(f)), k')
    ensures SelfKept(k, k', root, k.free - k'.free - {f})
  {
    hide TreeOk, Frames, View, Isolated, Missing;
    assert SpaceOk(k, root);
    SpaceInMem(k, root);
    forall w: nat | w in UserView(k'.mem, root) ensures IsPage(k'.mem, UserView(k'.mem, root)[w].pfn) {
      assert w in UserView(k.mem, root) ==> IsPage(k.mem, UserView(k.mem, root)[w].pfn);
    }
    forall w: nat ensures !IsLarge(UserView(k'.mem, root), w) {
      assert !IsLarge(UserView(k.mem, root), w);
    }
  }

  lemma DemandKeeps(k: State, k': State, root: nat, vp: nat, fl: Flags, ok: bool, page: Option<nat>)
    requires UserInv(k) && Step(k, DemandPage(root, vp, fl, ok, page), k')
    ensures UserInv(k')
  {
    hide TreeOk, Frames, View, Isolated, Missing, SelfKept, SpaceOk;
    OneView(k, k', root);
    if page.Some? {
      var f := page.value;
      FreeUnused(k, f);
      if ok {
        FreshIsolated(AllViews(k), root, vp, MakeLeaf(f, fl));
        assert AllViews(k') == Remap(AllViews(k), root, vp, MakeLeaf(f, fl));
      } else {
        assert AllViews(k') == AllViews(k);
      }
      DemandSelf(k, k', root, vp, fl, ok, f);
      OneSpace(k, k', root, k.free - k'.free - {f});
    } else {
      assert k'.pages == k.pages && k'.free == {};
      assert k' == k;
    }
  }

  lemma ResolveKeeps(k: State, k': State, root: nat, vp: nat, ok: bool, copy: nat)
    requires UserInv(k) && Step(k, ResolveCow(root, vp, ok, copy), k')
    ensures UserInv(k')
  {
    hide TreeOk, Frames, View, Isolated;
    assert SpaceOk(k, root);
    SpaceInMem(k, root);
    if ok {
      OneView(k, k', root);
      FreeUnused(k, copy);
      var leaf := Leaf(copy, true, true, false, 0, false);
      FreshIsolated(AllViews(k), root, vp, leaf);
      forall w: nat | w in UserView(k'.mem, root) ensures IsPage(k'.mem, UserView(k'.mem, root)[w].pfn) {
        assert w in UserView(k.mem, root) && IsPage(k.mem, UserView(k.mem, root)[w].pfn);
      }
      forall w: nat ensures !IsLarge(UserView(k'.mem, root), w) {
        assert !IsLarge(UserView(k.mem, root), w);
      }
      assert AllViews(k') == Remap(AllViews(k), root, vp, leaf);
      assert SelfKept(k, k', root, {});
      OneSpace(k, k', root, {});
    } else {
      assert k' == k;
    }
  }

  lemma UnmapKeeps(k: State, k': State, root: nat, vp: nat)
    requires UserInv(k) && Step(k, UnmapAt(root, vp), k')
    ensures UserInv(k')
  {
    hide TreeOk, Frames, View, Isolated;
    assert SpaceOk(k, root);
    SpaceInMem(k, root);
    OneView(k, k', root);
    forall r: nat, w: nat ensures FewerAt(AllViews(k), AllViews(k'), r, w) {}
    FewerIsolated(AllViews(k), AllViews(k'));
    forall w: nat ensures !IsLarge(UserView(k'.mem, root), w) {
      assert !IsLarge(UserView(k.mem, root), w);
    }
    forall w: nat | w in UserView(k'.mem, root) ensures IsPage(k'.mem, UserView(k'.mem, root)[w].pfn) {
      assert IsPage(k.mem, UserView(k.mem, root)[w].pfn);
    }
    assert SelfKept(k, k', root, {});
    OneSpace(k, k', root, {});
  }

  /** Allocation for a new space `c` leaves the existing ones alone. */
  lemma AddSpace(k: State, k': State, c: nat)
    requires UserInv(k) && k'.roots == k.roots + {c} && c !in k.mem
    requires Extended(k.mem, k.free, k.pages, k'.mem, k'.free, k'.pages)
    requires SpaceOk(k', c) && UserFrames(k'.mem, c) <= k.free - k'.free
    ensures k'.mem.Keys !! k'.free && c !in k.roots
    ensures (forall r: nat :: SpaceOk(k', r)) && (forall r: nat, q: nat :: DisjointAt(k', r, q))
    ensures AllViews(k') == AllViews(k)[c := UserView(k'.mem, c)]
  {
    hide TreeOk, Frames, View, Isolated;
    if c in k.roots { assert SpaceOk(k, c); SpaceInMem(k, c); }
    forall r: nat | r in k.roots
      ensures SpaceOk(k', r) && UserFrames(k'.mem, r) == UserFrames(k.mem, r)
      ensures UserView(k'.mem, r) == UserView(k.mem, r)
      ensures UserFrames(k.mem, r) <= k.mem.Keys
    {
      assert SpaceOk(k, r);
      SpaceInMem(k, r);
      OtherKept(k, k', {}, r);
    }
    forall r: nat ensures SpaceOk(k', r) {}
    forall r: nat, q: nat ensures DisjointAt(k', r, q) {
      assert DisjointAt(k, r, q);
    }
  }

  lemma NewKeeps(k: State, k': State, r: Option<nat>)
    requires UserInv(k) && Step(k, NewSpace(r), k')
    ensures UserInv(k')
  {
    hide TreeOk, Frames, View, Isolated;
    if r.None? {
      assert k' == k;
    } else {
      AddSpace(k, k', r.value);
      forall q: nat, w: nat ensures FewerAt(AllViews(k), AllViews(k'), q, w) {}
      FewerIsolated(AllViews(k), AllViews(k'));
    }
  }

  lemma DropKeeps(k: State, k': State, root: nat)
    requires UserInv(k) && Step(k, Drop(root), k')
    ensures UserInv(k')
  {
    hide TreeOk, Frames, View, Isolated;
    assert SpaceOk(k, root);
    SpaceInMem(k, root);
    forall r: nat | r in k'.roots
      ensures SpaceOk(k', r) && UserFrames(k'.mem, r) == UserFrames(k.mem, r)
      ensures UserView(k'.mem, r) == UserView(k.mem, r)
    {
      assert SpaceOk(k, r) && DisjointAt(k, r, root);
      OtherKept(k, k', UserFrames(k.mem, root), r);
    }
    forall r: nat ensures SpaceOk(k', r) {}
    forall r: nat, q: nat ensures DisjointAt(k', r, q) {
      assert DisjointAt(k, r, q);
    }
    forall q: nat, w: nat ensures FewerAt(AllViews(k), AllViews(k'), q, w) {}
    FewerIsolated(AllViews(k), AllViews(k'));
  }

  lemma StoreKeeps(k: State, k': State, root: nat, vp: nat, offset: nat, value: byte)
    requires UserInv(k)
    requires Step(k, Store(root, vp, offset, value), k') || Step(k, KernelStore(root, vp, offset, value), k')
    ensures UserInv(k') && AllViews(k') == AllViews(k)
  {
    hide TreeOk, Frames, View, Isolated;
    var f := UserView(k.mem, root)[vp].pfn;
    assert k'.mem.Keys == k.mem.Keys;
    forall r: nat | r in k.roots
      ensures SpaceOk(k', r) && UserFrames(k'.mem, r) == UserFrames(k.mem, r)
      ensures UserView(k'.mem, r) == UserView(k.mem, r)
    {
      assert SpaceOk(k, r);
      SpaceInMem(k, r);
      assert Agree(k.mem, k'.mem, UserFrames(k.mem, r));
      Untouched(k, k', r);
      forall w: nat | w in UserView(k.mem, r) ensures IsPage(k'.mem, UserView(k.mem, r)[w].pfn) {
        assert IsPage(k.mem, UserView(k.mem, r)[w].pfn);
      }
    }
    forall r: nat ensures SpaceOk(k', r) {}
    forall r: nat, q: nat ensures DisjointAt(k', r, q) {
      assert DisjointAt(k, r, q);
    }
    assert AllViews(k') == AllViews(k);
  }

  /** Parent and child after fork map the parent's pages, write-protected. */
  lemma ForkSpaceOk(k: State, k': State, root: nat, x: nat)
    requires root in k.roots && SpaceOk(k, root) && Agree(k.mem, k'.mem, k.mem.Keys - UserFrames(k.mem, root))
    requires UserTree(k'.mem, x) && UserFrames(k'.mem, x) <= k'.pages
    requires UserView(k'.mem, x) == CowView(UserView(k.mem, root))
    ensures SpaceOk(k', x)
  {
    hide TreeOk, Frames, View;
    SpaceInMem(k, root);
    forall w: nat ensures !IsLarge(UserView(k'.mem, x), w) {
      assert !IsLarge(UserView(k.mem, root), w);
    }
    forall w: nat | w in UserView(k'.mem, x) ensures IsPage(k'.mem, UserView(k'.mem, x)[w].pfn) {
      assert IsPage(k.mem, UserView(k.mem, root)[w].pfn);
    }
  }

  lemma ForkOthers(k: State, k': State, root: nat, c: nat)
    requires UserInv(k) && Step(k, ForkSpace(root, Some(c)), k')
    ensures forall r: nat :: SpaceOk(k', r)
    ensures forall r: nat :: r in k.roots ==> UserFrames(k'.mem, r) == UserFrames(k.mem, r) <= k.mem.Keys
    ensures AllViews(k') == AllViews(k)[root := CowView(UserView(k.mem, root))][c := CowView(UserView(k.mem, root))]
    ensures c !in k.roots && UserFrames(k'.mem, c) <= k.free
  {
    hide TreeOk, Frames, View, Isolated;
    assert SpaceOk(k, root);
    SpaceInMem(k, root);
    ForkSpaceOk(k, k', root, root);
    ForkSpaceOk(k, k', root, c);
    SpaceInMem(k', c);
    forall r: nat | r in k.roots ensures UserFrames(k.mem, r) <= k.mem.Keys && r != c {
      assert SpaceOk(k, r);
      SpaceInMem(k, r);
    }
    forall r: nat | r in k.roots && r != root
      ensures SpaceOk(k', r) && UserFrames(k'.mem, r) == UserFrames(k.mem, r)
      ensures UserView(k'.mem, r) == UserView(k.mem, r)
    {
      assert SpaceOk(k, r) && DisjointAt(k, r, root);
      OtherKept(k, k', UserFrames(k.mem, root), r);
    }
    forall r: nat ensures SpaceOk(k', r) {}
  }

  /** Frames taken and lost change no space. */
  lemma LeakKeeps(k: State, k': State)
    requires UserInv(k) && k'.roots == k.roots && Extended(k.mem, k.free, k.pages, k'.mem, k'.free, k'.pages)
    ensures UserInv(k')
  {
    hide TreeOk, Frames, View, Isolated;
    forall r: nat | r in k.roots
      ensures SpaceOk(k', r) && UserFrames(k'.mem, r) == UserFrames(k.mem, r)
      ensures UserView(k'.mem, r) == UserView(k.mem, r)
    {
      assert SpaceOk(k, r);
      SpaceInMem(k, r);
      OtherKept(k, k', {}, r);
    }
    forall r: nat ensures SpaceOk(k', r) {}
    forall r: nat, q: nat ensures DisjointAt(k', r, q) {
      assert DisjointAt(k, r, q);
    }
    assert AllViews(k') == AllViews(k);
  }

  lemma ForkKeeps(k: State, k': State, root: nat, r: Option<nat>)
    requires UserInv(k) && Step(k, ForkSpace(root, r), k')
    ensures UserInv(k')
  {
    hide TreeOk, Frames, View, Isolated, SpaceOk;
    if r.None? {
      LeakKeeps(k, k');
    } else {
      ForkOthers(k, k', root, r.value);
      forall p: nat, q: nat ensures DisjointAt(k', p, q) {
        assert DisjointAt(k, p, q);
      }
      assert AllViews(k)[root] == UserView(k.mem, root);
      CowIsolated(AllViews(k), root, r.value);
    }
  }

  lemma SpacesKept(k: State, op: Op, k': State)
    requires UserInv(k) && Step(k, op, k')
    ensures UserInv(k')
  {
    hide UserInv, Step;
    match op
    case NewSpace(r) => NewKeeps(k, k', r);
    case ForkSpace(root, r) => ForkKeeps(k, k', root, r);
    case DemandPage(root, vp, fl, ok, page) => DemandKeeps(k, k', root, vp, fl, ok, page);
    case ResolveCow(root, vp, ok, copy) => ResolveKeeps(k, k', root, vp, ok, copy);
    case UnmapAt(root, vp) => UnmapKeeps(k, k', root, vp);
    case Drop(root) => DropKeeps(k, k', root);
    case Store(root, vp, offset, value) => StoreKeeps(k, k', root, vp, offset, value);
    case KernelStore(root, vp, offset, value) => StoreKeeps(k, k', root, vp, offset, value);
  }

  // ----- the kernel half

  /** A change that spares the kernel's tables. */
  ghost predicate KernelSpared(k: State, k': State) {
    k'.kernel == k.kernel && k'.tables == k.tables && Agree(k.mem, k'.mem, k.tables)
  }

  lemma KernelKept(k: State, k': State)
    requires KernelTables(k) && KernelSpared(k, k')
    ensures KernelTables(k') && k.tables <= k.mem.Keys
    ensures k.kernel in k.mem && k.kernel in k'.mem && k'.mem[k.kernel] == k.mem[k.kernel]
  {
  }

  lemma HalfTrans(m: Mem, a: nat, m1: Mem, b: nat, m2: Mem, c: nat)
    requires (a == b && m == m1) || SameKernelHalf(m, a, m1, b)
    requires SameKernelHalf(m1, b, m2, c)
    ensures SameKernelHalf(m, a, m2, c)
  {
    forall i: nat | USER_SLOTS <= i < ENTRIES ensures Entry(m2, c, i) == Entry(m, a, i) {
      assert Entry(m2, c, i) == Entry(m1, b, i);
    }
  }

  /** The kernel's PML4 is the same in both memories. */
  lemma HalfMoved(m: Mem, m': Mem, a: nat, c: nat)
    requires SameKernelHalf(m, a, m', c) && a in m && a in m' && m'[a] == m[a]
    ensures SameKernelHalf(m', a, m', c)
  {
    forall i: nat | USER_SLOTS <= i < ENTRIES ensures Entry(m', c, i) == Entry(m', a, i) {
      assert Entry(m', c, i) == Entry(m, a, i);
    }
  }

  /** A space keeps the kernel half if its upper slots do and its new tables come from the free frames. */
  lemma HalfKept(k: State, k': State, r: nat)
    requires KernelShared(k) && KernelSpared(k, k') && k.mem.Keys !! k.free && r in k.roots
    requires SameKernelHalf(k.mem, r, k'.mem, r) && UserFrames(k'.mem, r) <= UserFrames(k.mem, r) + k.free
    ensures HalfAt(k', r)
  {
    hide TreeOk, Frames;
    KernelKept(k, k');
    assert HalfAt(k, r);
    HalfTrans(k.mem, k.kernel, k.mem, r, k'.mem, r);
    HalfMoved(k.mem, k'.mem, k.kernel, r);
  }

  /** So does a new space built from free frames with the kernel half of the kernel or of another space. */
  lemma HalfGiven(k: State, k': State, from: nat, c: nat)
    requires KernelShared(k) && KernelSpared(k, k') && k.mem.Keys !! k.free
    requires from == k.kernel || from in k.roots
    requires SameKernelHalf(k.mem, from, k'.mem, c) && UserFrames(k'.mem, c) <= k.free
    ensures HalfAt(k', c)
  {
    hide TreeOk, Frames;
    KernelKept(k, k');
    assert HalfAt(k, from);
    HalfTrans(k.mem, k.kernel, k.mem, from, k'.mem, c);
    HalfMoved(k.mem, k'.mem, k.kernel, c);
  }

  /** A space outside the changed tables keeps its kernel half. */
  lemma OtherHalf(k: State, k': State, own: set<nat>, r: nat)
    requires KernelShared(k) && KernelSpared(k, k') && k.mem.Keys !! k.free
    requires r in k.roots && SpaceOk(k, r) && UserFrames(k.mem, r) !! own
    requires Agree(k.mem, k'.mem, k.mem.Keys - own)
    ensures HalfAt(k', r)
  {
    hide TreeOk, Frames, View;
    SpaceInMem(k, r);
    Untouched(k, k', r);
    assert r in k'.mem && k'.mem[r] == k.mem[r];
    HalfKept(k, k', r);
  }

  /** An operation on the space `p` keeps every kernel half if it keeps that of `p`. */
  lemma HalvesKept(k: State, k': State, p: nat)
    requires Inv(k) && p in k.roots && k'.kernel == k.kernel && k'.tables == k.tables
    requires Agree(k.mem, k'.mem, k.mem.Keys - UserFrames(k.mem, p))
    ensures KernelSpared(k, k') && KernelTables(k')
    ensures forall r: nat :: r in k.roots && r != p ==> HalfAt(k', r)
    ensures SameKernelHalf(k.mem, p, k'.mem, p) && UserFrames(k'.mem, p) <= UserFrames(k.mem, p) + k.free ==>
      HalfAt(k', p)
  {
    hide TreeOk, Frames, View, Isolated, SameKernelHalf;
    assert HalfAt(k, p);
    KernelKept(k, k');
    forall r: nat | r in k.roots && r != p ensures HalfAt(k', r) {
      assert SpaceOk(k, r) && DisjointAt(k, r, p);
      OtherHalf(k, k', UserFrames(k.mem, p), r);
    }
    if SameKernelHalf(k.mem, p, k'.mem, p) && UserFrames(k'.mem, p) <= UserFrames(k.mem, p) + k.free {
      HalfKept(k, k', p);
    }
  }

  /** Memory that only grows, or in which only pages of bytes change, keeps every kernel half. */
  lemma HalvesSpared(k: State, k': State, own: set<nat>)
    requires Inv(k) && k'.kernel == k.kernel && k'.tables == k.tables && Agree(k.mem, k'.mem, k.mem.Keys - own)
    requires forall f :: f in own ==> IsPage(k.mem, f)
    ensures KernelSpared(k, k') && KernelTables(k')
    ensures forall r: nat :: r in k.roots ==> HalfAt(k', r)
  {
    hide TreeOk, Frames, View, Isolated, SameKernelHalf;
    KernelKept(k, k');
    forall r: nat | r in k.roots ensures HalfAt(k', r) {
      assert SpaceOk(k, r);
      SpaceInMem(k, r);
      OtherHalf(k, k', own, r);
    }
  }

  lemma StepHalf(k: State, op: Op, k': State, r: nat)
    requires Inv(k) && Step(k, op, k')
    ensures KernelTables(k') && KernelSpared(k, k') && HalfAt(k', r)
  {
    hide TreeOk, Frames, View, Isolated, SameKernelHalf, Missing, SpaceOk, KernelShared;
    match op
    case NewSpace(c) =>
      HalvesSpared(k, k', {});
      if c.Some? { HalfGiven(k, k', k.kernel, c.value); }
    case ForkSpace(root, c) =>
      if c.Some? {
        HalvesKept(k, k', root);
        HalfGiven(k, k', root, c.value);
      } else {
        HalvesSpared(k, k', {});
      }
    case DemandPage(root, vp, fl, ok, page) => HalvesKept(k, k', root);
    case ResolveCow(root, vp, ok, copy) =>
      if ok { HalvesKept(k, k', root); } else { HalvesSpared(k, k', {}); }
    case UnmapAt(root, vp) => HalvesKept(k, k', root);
    case Drop(root) => HalvesKept(k, k', root);
    case Store(root, vp, offset, value) => HalvesSpared(k, k', {UserView(k.mem, root)[vp].pfn});
    case KernelStore(root, vp, offset, value) => HalvesSpared(k, k', {UserView(k.mem, root)[vp].pfn});
  }

  lemma KernelStays(k: State, op: Op, k': State)
    requires Inv(k) && Step(k, op, k')
    ensures KernelShared(k') && KernelSpared(k, k')
  {
    hide TreeOk, Frames, View, Isolated, SameKernelHalf, Missing, SpaceOk, HalfAt, UserInv, KernelSpared;
    forall r: nat ensures HalfAt(k', r) {
      StepHalf(k, op, k', r);
    }
    StepHalf(k, op, k', 0);
  }

  // ----- the links of the user halves

  /** A space outside the changed frames keeps its links. */
  lemma OtherOpen(k: State, k': State, own: set<nat>, r: nat)
    requires r in k.roots && SpaceOk(k, r) && LinksAt(k, r) && UserFrames(k.mem, r) !! own
    requires Agree(k.mem, k'.mem, k.mem.Keys - own)
    ensures LinksAt(k', r)
  {
    hide TreeOk, Frames, View, SameLinks, OpenLinks;
    SpaceInMem(k, r);
    LinksLocal(k.mem, k'.mem, r, USER_SLOTS);
    OpenSame(k.mem, r, k'.mem, r, USER_SLOTS);
  }

  /** So does every space after an operation on the space `p` that keeps those of `p`. */
  lemma OneOpen(k: State, k': State, p: nat, r: nat)
    requires Inv(k) && p in k.roots && r in k.roots && Agree(k.mem, k'.mem, k.mem.Keys - UserFrames(k.mem, p))
    requires r == p ==> SameUserLinks(k.mem, p, k'.mem, p)
    ensures LinksAt(k', r)
  {
    hide TreeOk, Frames, View, SameLinks, OpenLinks, Isolated, KernelShared;
    assert SpaceOk(k, r) && LinksAt(k, r);
    if r == p {
      OpenSame(k.mem, p, k'.mem, p, USER_SLOTS);
    } else {
      assert DisjointAt(k, r, p);
      OtherOpen(k, k', UserFrames(k.mem, p), r);
    }
  }

  lemma ChildOpen(k: State, k': State, root: nat, c: nat)
    requires Inv(k) && root in k.roots && SameUserLinks(k.mem, root, k'.mem, c)
    ensures LinksAt(k', c)
  {
    hide SameLinks, OpenLinks, UserInv, KernelShared;
    assert LinksAt(k, root);
    OpenSame(k.mem, root, k'.mem, c, USER_SLOTS);
  }

  /** And so does every space if only pages of bytes change. */
  lemma SparedOpen(k: State, k': State, own: set<nat>, r: nat)
    requires Inv(k) && r in k.roots && Agree(k.mem, k'.mem, k.mem.Keys - own)
    requires forall f :: f in own ==> IsPage(k.mem, f)
    ensures LinksAt(k', r)
  {
    hide TreeOk, Frames, View, SameLinks, OpenLinks, Isolated, KernelShared;
    assert SpaceOk(k, r) && LinksAt(k, r);
    SpaceInMem(k, r);
    OtherOpen(k, k', own, r);
  }

  lemma StepOpen(k: State, op: Op, k': State, r: nat)
    requires Inv(k) && Step(k, op, k')
    ensures LinksAt(k', r)
  {
    hide TreeOk, Frames, View, Isolated, SameKernelHalf, SameLinks, OpenLinks, Missing, SpaceOk, Inv;
    if r in k'.roots {
      match op
      case NewSpace(c) => if r in k.roots { SparedOpen(k, k', {}, r); }
      case ForkSpace(root, c) =>
        if c.None? {
          SparedOpen(k, k', {}, r);
        } else if r in k.roots {
          OneOpen(k, k', root, r);
        } else {
          ChildOpen(k, k', root, r);
        }
      case DemandPage(root, vp, fl, ok, page) => OneOpen(k, k', root, r);
      case ResolveCow(root, vp, ok, copy) =>
        if ok { OneOpen(k, k', root, r); } else { SparedOpen(k, k', {}, r); }
      case UnmapAt(root, vp) => OneOpen(k, k', root, r);
      case Drop(root) => OneOpen(k, k', root, r);
      case Store(root, vp, offset, value) => SparedOpen(k, k', {UserView(k.mem, root)[vp].pfn}, r);
      case KernelStore(root, vp, offset, value) => SparedOpen(k, k', {UserView(k.mem, root)[vp].pfn}, r);
    }
  }

  lemma StepKeeps(k: State, op: Op, k': State)
    requires Inv(k) && Step(k, op, k')
    ensures Inv(k')
  {
    hide UserInv, KernelShared, Step, LinksAt;
    SpacesKept(k, op, k');
    KernelStays(k, op, k');
    forall r: nat ensures LinksAt(k', r) {
      StepOpen(k, op, k', r);
    }
  }

  // ----- every run

  ghost predicate Run(ks: seq<State>, ops: seq<Op>) {
    && |ks| == |ops| + 1 && ks[0].roots == {} && ks[0].mem.Keys !! ks[0].free
    && KernelTables(ks[0])
    && forall i :: 0 <= i < |ops| ==> Step(ks[i], ops[i], ks[i + 1])
  }

  /** In every run a frame mapped by a writable user leaf is mapped by no other leaf of any space. */
  lemma {:induction false} RunIsolated(ks: seq<State>, ops: seq<Op>, n: nat)
    requires Run(ks, ops) && n <= |ops|
    ensures Inv(ks[n])
    decreases n
  {
    if n == 0 {
      assert forall r: nat :: HalfAt(ks[0], r) && LinksAt(ks[0], r);
      assert AllViews(ks[0]) == map[];
      assert forall r: nat, w: nat, q: nat, v: nat :: ApartAt(AllViews(ks[0]), r, w, q, v);
      assert forall r: nat :: SpaceOk(ks[0], r);
      assert forall r: nat, q: nat :: DisjointAt(ks[0], r, q);
    } else {
      RunIsolated(ks, ops, n - 1);
      StepKeeps(ks[n - 1], ops[n - 1], ks[n]);
    }
  }

  lemma {:induction false} RunSparesKernel(ks: seq<State>, ops: seq<Op>, n: nat)
    requires Run(ks, ops) && n <= |ops|
    ensures KernelSpared(ks[0], ks[n])
    decreases n
  {
    hide TreeOk, Frames, Step;
    if n > 0 {
      RunSparesKernel(ks, ops, n - 1);
      RunIsolated(ks, ops, 0);
      RunIsolated(ks, ops, n - 1);
      KernelStays(ks[n - 1], ops[n - 1], ks[n]);
      KernelKept(ks[0], ks[n - 1]);
    }
  }

  /** In every run the processor walks every kernel address from every user space to where it led from the
      kernel's own PML4 at the start, with the same rights, 1 GiB and 2 MiB pages included; and so does
      `translate`, where no large entry lies above the page directory. */
  lemma KernelEverywhere(ks: seq<State>, ops: seq<Op>, n: nat, r: nat, virt: nat)
    requires Run(ks, ops) && n <= |ops| && r in ks[n].roots && Limit(USER_SLOTS) <= PageOf(virt)
    requires WalkWithin(ks[0].mem, ks[0].kernel, virt, ks[0].tables)
    ensures Walk(ks[n].mem, r, virt) == Walk(ks[0].mem, ks[0].kernel, virt)
    ensures Access(ks[n].mem, r, virt) == Access(ks[0].mem, ks[0].kernel, virt)
    ensures !LargeAbove(ks[0].mem, ks[0].kernel, virt) ==>
      Translate(ks[n].mem, r, virt) == Translate(ks[0].mem, ks[0].kernel, virt)
  {
    hide TreeOk, Frames, Translate, Limit, PageOf, UserInv, Walk, WalkWithin, LargeAbove, Access;
    RunIsolated(ks, ops, 0);
    RunIsolated(ks, ops, n);
    RunSparesKernel(ks, ops, n);
    KernelKept(ks[0], ks[n]);
    var m, m', g := ks[0].mem, ks[n].mem, ks[0].kernel;
    assert HalfAt(ks[n], r);
    HalfTrans(m, g, m', g, m', r);
    UpperWalks(m, g, m', r, USER_SLOTS, virt, ks[0].tables);
    UpperAccess(m, g, m', r, USER_SLOTS, virt, ks[0].tables);
  }

  /** In every run the processor gives every user address of every space the rights of its leaf, and no other
      address any. */
  lemma RunAccess(ks: seq<State>, ops: seq<Op>, n: nat, r: nat, virt: nat)
    requires Run(ks, ops) && n <= |ops| && r in ks[n].roots && PageOf(virt) < Limit(USER_SLOTS)
    ensures var view, vp := UserView(ks[n].mem, r), PageOf(virt);
      && Walk(ks[n].mem, r, virt) ==
         (if vp in view then Some(view[vp].pfn * PAGE_SIZE + virt % PAGE_SIZE) else None)
      && Access(ks[n].mem, r, virt) == if vp in view then Some(LeafRights(view[vp])) else None
  {
    RunIsolated(ks, ops, n);
    hide TreeOk, Frames, View, Walk, Translate, Access, OpenLinks, KernelShared, Isolated, PageOf, Limit;
    assert SpaceOk(ks[n], r) && LinksAt(ks[n], r);
    assert !IsLarge(UserView(ks[n].mem, r), PageOf(virt));
    OpenAccess(ks[n].mem, r, USER_SLOTS, virt);
    WalkIsView(ks[n].mem, r, USER_SLOTS, virt);
    TranslateIsView(ks[n].mem, r, USER_SLOTS, virt);
  }

  lemma StoreApart(k: State, root: nat, vp: nat, r: nat, w: nat)
    requires UserInv(k) && root in k.roots && vp in UserView(k.mem, root) && Storable(UserView(k.mem, root)[vp])
    requires r in k.roots && w in UserView(k.mem, r) && (r != root || w != vp)
    ensures UserView(k.mem, root)[vp].pfn != UserView(k.mem, r)[w].pfn
  {
    assert ApartAt(AllViews(k), root, vp, r, w);
  }

  lemma FrameOfAddress(f: nat, virt: nat)
    ensures (f * PAGE_SIZE + virt % PAGE_SIZE) / PAGE_SIZE == f
  {
  }

  /** User code may write at the address. */
  predicate UserWrites(m: Mem, root: nat, virt: nat) {
    Access(m, root, virt).Some? && Access(m, root, virt).value.user && Access(m, root, virt).value.writable
  }

  /** So in every run a frame that user code of one space may write through one page is reached from no other
      page and no other space. */
  lemma WritablePrivate(ks: seq<State>, ops: seq<Op>, n: nat, r: nat, a: nat, q: nat, b: nat)
    requires Run(ks, ops) && n <= |ops| && r in ks[n].roots && q in ks[n].roots
    requires PageOf(a) < Limit(USER_SLOTS) && PageOf(b) < Limit(USER_SLOTS)
    requires UserWrites(ks[n].mem, r, a) && Walk(ks[n].mem, q, b).Some?
    requires Walk(ks[n].mem, q, b).value / PAGE_SIZE == Walk(ks[n].mem, r, a).value / PAGE_SIZE
    ensures q == r && PageOf(b) == PageOf(a)
  {
    assert n < |ks|;
    hide Run, UserView, Walk, Access, KernelShared, LinksOpen, PageOf, Limit, UserInv;
    RunAccess(ks, ops, n, r, a);
    RunAccess(ks, ops, n, q, b);
    RunIsolated(ks, ops, n);
    var f, g := UserView(ks[n].mem, r)[PageOf(a)].pfn, UserView(ks[n].mem, q)[PageOf(b)].pfn;
    FrameOfAddress(f, a);
    FrameOfAddress(g, b);
    if q != r || PageOf(b) != PageOf(a) {
      StoreApart(ks[n], r, PageOf(a), q, PageOf(b));
    }
  }

  /** What a process of space `r` reads at page `w`, byte `offset`. */
  ghost function ReadByte(k: State, r: nat, w: nat, offset: nat): byte
    requires r in k.roots && w in UserView(k.mem, r) && IsPage(k.mem, UserView(k.mem, r)[w].pfn) && offset < PAGE_SIZE
  {
    k.mem[UserView(k.mem, r)[w].pfn].b[offset]
  }

  /** In every run, a store by one process at one page changes exactly the byte it names there, and
      nothing any process reads at any other page of any space. */
  lemma StoreIsPrivate(ks: seq<State>, ops: seq<Op>, n: nat, r: nat, w: nat, offset: nat)
    requires Run(ks, ops) && n < |ops| && ops[n].Store?
    requires r in ks[n].roots && w in UserView(ks[n].mem, r) && offset < PAGE_SIZE
    ensures r in ks[n + 1].roots && w in UserView(ks[n + 1].mem, r)
    ensures IsPage(ks[n].mem, UserView(ks[n].mem, r)[w].pfn) && IsPage(ks[n + 1].mem, UserView(ks[n + 1].mem, r)[w].pfn)
    ensures ReadByte(ks[n + 1], r, w, offset) ==
      if r == ops[n].root && w == ops[n].vp && offset == ops[n].offset then ops[n].value
      else ReadByte(ks[n], r, w, offset)
  {
    var k, k', op := ks[n], ks[n + 1], ops[n];
    RunIsolated(ks, ops, n);
    assert Step(k, op, k');
    StoreKeeps(k, k', op.root, op.vp, op.offset, op.value);
    hide TreeOk, Frames, View, Isolated;
    assert SpaceOk(k, r) && SpaceOk(k', r) && SpaceOk(k, op.root);
    assert AllViews(k)[r] == AllViews(k')[r];
    if r != op.root || w != op.vp {
      StoreApart(k, op.root, op.vp, r, w);
    }
  }

  // ----- stores of the kernel

  function PageByte(m: Mem, f: nat, offset: nat): byte {
    if IsPage(m, f) && offset < PAGE_SIZE then m[f].b[offset] else 0
  }

  /** Space `r` reads at page `w` what it read before. */
  ghost predicate SameRead(k: State, k': State, r: nat, w: nat, offset: nat) {
    r in k.roots && w in UserView(k.mem, r) ==>
      && r in k'.roots && w in UserView(k'.mem, r)
      && PageByte(k'.mem, UserView(k'.mem, r)[w].pfn, offset) == PageByte(k.mem, UserView(k.mem, r)[w].pfn, offset)
  }

  /** Nothing any space reads changes, but for the one byte. */
  ghost predicate OneByteChanged(k: State, k': State, root: nat, vp: nat, offset: nat) {
    forall r: nat, w: nat, i: nat :: r != root || w != vp || i != offset ==> SameRead(k, k', r, w, i)
  }

  ghost predicate ApartFrom(k: State, f: nat, root: nat, vp: nat, r: nat, w: nat) {
    (r != root || w != vp) && r in k.roots && w in UserView(k.mem, r) ==> UserView(k.mem, r)[w].pfn != f
  }

  /** A store of the kernel changes no view, and one byte of one frame. */
  lemma StoreViews(k: State, k': State, root: nat, vp: nat, offset: nat, value: byte)
    requires Inv(k) && Step(k, KernelStore(root, vp, offset, value), k')
    ensures k'.roots == k.roots && root in k.roots && vp in UserView(k.mem, root)
    ensures forall r: nat :: r in k.roots ==> UserView(k'.mem, r) == UserView(k.mem, r)
    ensures var f := UserView(k.mem, root)[vp].pfn;
      forall g: nat, i: nat ::
        PageByte(k'.mem, g, i) == if g == f && i == offset then value else PageByte(k.mem, g, i)
  {
    StoreKeeps(k, k', root, vp, offset, value);
    hide TreeOk, Frames, View, Isolated, UserInv, KernelShared;
    forall r: nat | r in k.roots ensures UserView(k'.mem, r) == UserView(k.mem, r) {
      assert AllViews(k)[r] == AllViews(k')[r];
    }
  }

  /** A store of the kernel is private exactly when it changes nothing or no other leaf maps the frame. */
  lemma KernelStorePrivateIff(k: State, k': State, root: nat, vp: nat, offset: nat, value: byte)
    requires Inv(k) && Step(k, KernelStore(root, vp, offset, value), k')
    ensures var f := UserView(k.mem, root)[vp].pfn;
      OneByteChanged(k, k', root, vp, offset) <==>
      PageByte(k.mem, f, offset) == value || forall r: nat, w: nat :: ApartFrom(k, f, root, vp, r, w)
  {
    StoreViews(k, k', root, vp, offset, value);
    hide View, Inv, Step, PageByte;
    var f := UserView(k.mem, root)[vp].pfn;
    if OneByteChanged(k, k', root, vp, offset) && PageByte(k.mem, f, offset) != value {
      forall r: nat, w: nat ensures ApartFrom(k, f, root, vp, r, w) {
        if r != root || w != vp { assert SameRead(k, k', r, w, offset); }
      }
    }
    if PageByte(k.mem, f, offset) == value || forall r: nat, w: nat :: ApartFrom(k, f, root, vp, r, w) {
      forall r: nat, w: nat, i: nat | r != root || w != vp || i != offset ensures SameRead(k, k', r, w, i) {
        assert PageByte(k.mem, f, offset) == value || ApartFrom(k, f, root, vp, r, w);
      }
    }
  }

  /** After a fork a store of the kernel into the parent is read by the child too. */
  lemma KernelStoreAfterFork(k: State, k1: State, k2: State, root: nat, c: nat, vp: nat, offset: nat, value: byte)
    requires Inv(k) && Step(k, ForkSpace(root, Some(c)), k1) && Step(k1, KernelStore(root, vp, offset, value), k2)
    ensures c != root && c in k2.roots && vp in UserView(k1.mem, c) && vp in UserView(k2.mem, c)
    ensures PageByte(k2.mem, UserView(k2.mem, c)[vp].pfn, offset) == value
    ensures PageByte(k1.mem, UserView(k1.mem, root)[vp].pfn, offset) != value ==> !SameRead(k1, k2, c, vp, offset)
  {
    hide TreeOk, Frames, View, Isolated, KernelShared, SpaceOk;
    ForkOthers(k, k1, root, c);
    StepKeeps(k, ForkSpace(root, Some(c)), k1);
    StoreKeeps(k1, k2, root, vp, offset, value);
    assert AllViews(k1)[c] == UserView(k1.mem, c) && AllViews(k2)[c] == UserView(k2.mem, c);
    assert AllViews(k1)[root] == UserView(k1.mem, root);
  }
}
