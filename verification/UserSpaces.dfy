/** User address spaces: creating them, forking them, faulting pages in, resolving copy-on-write, and
    dropping them. */
module UserSpaces {
  import opened Basics
  import opened Blocks
  import opened Buddy
  import opened PageTables
  import opened Translation
  import opened AccessRights
  import opened TableWalks
  import opened AddressSpaces
  import opened Fork

  /** Slots of a PML4 that belong to user space; the rest is the kernel's, shared by all spaces. */
  const USER_SLOTS: nat := 256

  ghost function UserView(m: Mem, root: nat): map<nat, Leaf> {
    View(m, root, USER_SLOTS)
  }

  ghost function UserFrames(m: Mem, root: nat): set<nat> {
    Frames(m, 4, root, USER_SLOTS)
  }

  ghost predicate UserTree(m: Mem, root: nat) {
    TreeOk(m, 4, root, USER_SLOTS)
  }

  /** A user half with every user page write-protected. */
  function CowView(view: map<nat, Leaf>): map<nat, Leaf> {
    map w | w in view :: if view[w].user then view[w].(writable := false) else view[w]
  }

  ghost predicate NoLarge(view: map<nat, Leaf>) {
    forall w: nat :: !IsLarge(view, w)
  }

  /** The kernel half of `c` is that of `root`. */
  ghost predicate SameKernelHalf(m: Mem, root: nat, m': Mem, c: nat) {
    SameUpper(m, root, m', c, USER_SLOTS)
  }

  /** The links in the user half of `c` allow what those of `root` allow. */
  ghost predicate SameUserLinks(m: Mem, root: nat, m': Mem, c: nat) {
    SameLinks(m, root, m', c, USER_SLOTS)
  }

  /** No link of the user half takes a right away. */
  ghost predicate UserOpen(m: Mem, root: nat) {
    OpenLinks(m, root, USER_SLOTS)
  }

  /** Rewriting the kernel half of a PML4 leaves the user half alone. */
  lemma KernelHalf(m: Mem, m': Mem, c: nat)
    requires UserTree(m, c) && IsTable(m', c) && Agree(m, m', m.Keys - {c})
    requires forall i: nat :: i < USER_SLOTS ==> Entry(m', c, i) == Entry(m, c, i)
    ensures UserTree(m', c) && UserFrames(m', c) == UserFrames(m, c) && UserView(m', c) == UserView(m, c)
    ensures SameUserLinks(m, c, m', c)
  {
    FramesInMem(m, 4, c, USER_SLOTS);
    forall i: nat | i < USER_SLOTS
      ensures Agree(m, m', Sub(m, 4, c, USER_SLOTS, i)) && SlotOk(m', 4, c, USER_SLOTS, i)
      ensures Sub(m', 4, c, USER_SLOTS, i) == Sub(m, 4, c, USER_SLOTS, i)
    {
      assert SlotOk(m, 4, c, USER_SLOTS, i);
      SubInFrames(m, 4, c, USER_SLOTS, i);
      SameSlot(m, m', 4, c, USER_SLOTS, i);
    }
    SameUnder(m, m', 4, c, USER_SLOTS, USER_SLOTS);
    forall i: nat, j: nat | i < USER_SLOTS && j < USER_SLOTS ensures PairOk(m', 4, c, USER_SLOTS, i, j) {
      assert PairOk(m, 4, c, USER_SLOTS, i, j);
    }
    forall w: nat | w < Limit(USER_SLOTS)
      ensures Lookup(m', 4, c, w) == Lookup(m, 4, c, w) && SameRights(m, c, m', c, w)
    {
      InLimit(w, USER_SLOTS);
      var i := Idx(4, w);
      assert SlotOk(m, 4, c, USER_SLOTS, i);
      if Link(m, 4, c, i) {
        SameLookup(m, m', 3, Entry(m, c, i).pfn, USER_SLOTS, w);
        RightsLocal(m, m', 3, Entry(m, c, i).pfn, USER_SLOTS, w);
      }
    }
  }

  /** Copies entries 256 to 511 of the PML4 `root` into the PML4 `c`. */
  method CopyKernelHalf(vm: Vmm, root: nat, c: nat)
    requires vm.Valid() && IsTable(vm.mem, root) && UserTree(vm.mem, c) && root != c
    modifies vm`mem
    ensures vm.Valid() && vm.mem.Keys == old(vm.mem.Keys) && Agree(old(vm.mem), vm.mem, old(vm.mem.Keys) - {c})
    ensures UserTree(vm.mem, c) && UserFrames(vm.mem, c) == old(UserFrames(vm.mem, c))
    ensures UserView(vm.mem, c) == old(UserView(vm.mem, c)) && SameUserLinks(old(vm.mem), c, vm.mem, c)
    ensures SameKernelHalf(old(vm.mem), root, vm.mem, c)
  {
    hide BuddyAllocator.Valid, FreeFrames, TreeOk, Frames, View;
    ghost var m := vm.mem;
    assert IsTable(m, c) by { OwnTable(m, 4, c, USER_SLOTS); }
    for i := USER_SLOTS to ENTRIES
      invariant vm.Valid() && vm.mem.Keys == m.Keys && IsTable(vm.mem, c) && Agree(m, vm.mem, m.Keys - {c})
      invariant forall j: nat :: j < USER_SLOTS ==> Entry(vm.mem, c, j) == Entry(m, c, j)
      invariant forall j: nat :: USER_SLOTS <= j < i ==> Entry(vm.mem, c, j) == Entry(m, root, j)
    {
      vm.mem := SetEntry(vm.mem, c, i, Entry(vm.mem, root, i));
    }
    KernelHalf(m, vm.mem, c);
  }

  /** The outcome of creating a space. */
  ghost predicate Created(m: Mem, free: set<nat>, pages: set<nat>, m': Mem, free': set<nat>, pages': set<nat>,
                          kernel: nat, r: Option<nat>)
  {
    match r
    case None => free == {} && m' == m && free' == free && pages' == pages
    case Some(c) =>
      && c in free && free' == free - {c} && Extended(m, free, pages, m', free', pages')
      && UserTree(m', c) && UserFrames(m', c) == {c} && UserView(m', c) == map[]
      && UserOpen(m', c) && SameKernelHalf(m, kernel, m', c)
  }

  lemma KernelHalfCopied(m: Mem, m1: Mem, kernel: nat, m2: Mem, c: nat)
    requires SameKernelHalf(m1, kernel, m2, c) && kernel in m && Agree(m, m1, m.Keys)
    ensures SameKernelHalf(m, kernel, m2, c)
  {
    assert m1[kernel] == m[kernel];
  }

  /** `new_user`: an empty user half under the kernel's own upper half. */
  method NewUser(vm: Vmm, kernel: nat) returns (r: Option<nat>)
    requires vm.Valid() && IsTable(vm.mem, kernel)
    modifies vm`mem, vm.pmm
    ensures vm.Valid()
    ensures Created(old(vm.mem), old(vm.Free()), old(PageFrames(vm.pmm.tags)), vm.mem, vm.Free(),
                    PageFrames(vm.pmm.tags), kernel, r)
  {
    hide BuddyAllocator.Valid, FreeFrames, PageFrames, TreeOk, Frames, Lookup, SameLinks, OpenLinks;
    r := vm.AllocZeroed(true);
    if r.None? {
      return;
    }
    ghost var m := vm.mem;
    EmptyTree(m, 4, r.value, USER_SLOTS);
    EmptyOpen(m, r.value, USER_SLOTS);
    CopyKernelHalf(vm, kernel, r.value);
    OpenSame(m, r.value, vm.mem, r.value, USER_SLOTS);
    KernelHalfCopied(old(vm.mem), m, kernel, vm.mem, r.value);
  }

  /** The outcome of forking the space at `root`. */
  ghost predicate Forked(m: Mem, free: set<nat>, pages: set<nat>, m': Mem, free': set<nat>, pages': set<nat>,
                         root: nat, r: Option<nat>)
  {
    && free' <= free && m'.Keys == m.Keys + (free - free') && pages' == pages + (free - free')
    && match r
       case Some(c) =>
         && UserTree(m', root) && UserFrames(m', root) == UserFrames(m, root)
         && UserView(m', root) == CowView(UserView(m, root))
         && UserTree(m', c) && UserFrames(m', c) == free - free' && UserView(m', c) == CowView(UserView(m, root))
         && SameKernelHalf(m, root, m', c) && SameKernelHalf(m, root, m', root)
         && SameUserLinks(m, root, m', c) && SameUserLinks(m, root, m', root)
         && Agree(m, m', m.Keys - UserFrames(m, root))
         && |free| - |free'| == |UserFrames(m, root)|
       case None => free' == {} && Agree(m, m', m.Keys) && |free| < |UserFrames(m, root)|
  }

  lemma ForkFails(m: Mem, free: set<nat>, pages: set<nat>, m1: Mem, f1: set<nat>, p1: set<nat>, root: nat)
    requires Cloned(m, free, pages, m1, f1, p1, 4, root, USER_SLOTS, None)
    ensures Forked(m, free, pages, m1, f1, p1, root, None)
  {
  }

  lemma CowViewAt(m: Mem, root: nat, m': Mem, c: nat)
    requires forall w: nat :: Idx(4, w) < USER_SLOTS ==> ClonedAt(m, 4, root, m', c, w)
    ensures UserView(m', c) == CowView(UserView(m, root)) && SameUserLinks(m, root, m', c)
  {
    hide Lookup, PathRights, Idx, Limit;
    forall w: nat | w < Limit(USER_SLOTS)
      ensures Lookup(m', 4, c, w) == CowLeaf(Lookup(m, 4, root, w)) && SameRights(m, root, m', c, w)
    {
      InLimit(w, USER_SLOTS);
      assert ClonedAt(m, 4, root, m', c, w);
    }
  }

  /** After the copying step: the child tree and the untouched parent. */
  lemma ForkCopied(m: Mem, free: set<nat>, pages: set<nat>, m1: Mem, f1: set<nat>, p1: set<nat>, root: nat, c: nat)
    requires Cloned(m, free, pages, m1, f1, p1, 4, root, USER_SLOTS, Some(c)) && UserTree(m, root) && m.Keys !! free
    ensures UserTree(m1, c) && UserFrames(m1, c) == free - f1 && UserView(m1, c) == CowView(UserView(m, root))
    ensures SameUserLinks(m, root, m1, c)
    ensures IsTable(m1, root) && IsTable(m, root) && root != c && c in free
    ensures Extended(m, free, pages, m1, f1, p1) && |free| - |f1| == |UserFrames(m, root)|
  {
    FramesInMem(m, 4, root, USER_SLOTS);
    OwnTable(m, 4, root, USER_SLOTS);
    OwnTable(m1, 4, c, USER_SLOTS);
    hide TreeOk, Frames;
    CowViewAt(m, root, m1, c);
  }

  /** The page is mapped, and the links to it allow, what they did. */
  ghost predicate SameAt(m: Mem, m': Mem, root: nat, w: nat) {
    Lookup(m', 4, root, w) == Lookup(m, 4, root, w) && SameRights(m, root, m', root, w)
  }

  lemma ForkKernel(m: Mem, free: set<nat>, pages: set<nat>, m1: Mem, f1: set<nat>, p1: set<nat>, root: nat, c: nat,
                   m2: Mem)
    requires Cloned(m, free, pages, m1, f1, p1, 4, root, USER_SLOTS, Some(c)) && UserTree(m, root) && m.Keys !! free
    requires SmallOnly(m, 4, root, USER_SLOTS)
    requires m2.Keys == m1.Keys && Agree(m1, m2, m1.Keys - {c}) && c in free
    ensures Agree(m, m2, m.Keys) && UserTree(m2, root) && UserFrames(m2, root) == UserFrames(m, root)
    ensures SmallOnly(m2, 4, root, USER_SLOTS)
    ensures forall w: nat :: Idx(4, w) < USER_SLOTS ==> SameAt(m, m2, root, w)
  {
    FramesInMem(m, 4, root, USER_SLOTS);
    hide TreeOk, Frames, SmallOnly;
    SameTree(m, m2, 4, root, USER_SLOTS);
    SameSmall(m, m2, 4, root, USER_SLOTS);
    forall w: nat | Idx(4, w) < USER_SLOTS ensures SameAt(m, m2, root, w) {
      SameLookup(m, m2, 4, root, USER_SLOTS, w);
      RightsLocal(m, m2, 4, root, USER_SLOTS, w);
    }
  }

  lemma ForkChild(m: Mem, free: set<nat>, f1: set<nat>, root: nat, c: nat, m2: Mem, m3: Mem)
    requires UserFrames(m, root) <= m.Keys && m.Keys !! free && UserTree(m2, c) && UserFrames(m2, c) == free - f1
    requires UserFrames(m2, root) == UserFrames(m, root) && Protected(m2, m3, 4, root, USER_SLOTS)
    ensures UserTree(m3, c) && UserFrames(m3, c) == free - f1 && UserView(m3, c) == UserView(m2, c)
    ensures SameUserLinks(m2, c, m3, c)
    ensures c in m2 && Agree(m2, m3, {root, c})
  {
    hide TreeOk, Frames, View;
    FramesInMem(m2, 4, c, USER_SLOTS);
    OwnTable(m2, 4, c, USER_SLOTS);
    assert Agree(m2, m3, UserFrames(m2, c));
    SameTree(m2, m3, 4, c, USER_SLOTS);
    SameView(m2, m3, c, USER_SLOTS);
    LinksLocal(m2, m3, c, USER_SLOTS);
  }

  lemma ForkParent(m: Mem, root: nat, m2: Mem, m3: Mem)
    requires Protected(m2, m3, 4, root, USER_SLOTS) && Agree(m, m2, m.Keys)
    requires UserFrames(m2, root) == UserFrames(m, root)
    requires forall w: nat :: Idx(4, w) < USER_SLOTS ==> SameAt(m, m2, root, w)
    ensures UserView(m3, root) == CowView(UserView(m, root)) && SameUserLinks(m, root, m3, root)
    ensures Agree(m, m3, m.Keys - UserFrames(m, root))
  {
    hide TreeOk, Frames, View, Lookup, PathRights, Idx;
    forall w: nat | Idx(4, w) < USER_SLOTS ensures ClonedAt(m, 4, root, m3, root, w) {
      assert ClonedAt(m2, 4, root, m3, root, w) && SameAt(m, m2, root, w);
    }
    CowViewAt(m, root, m3, root);
  }

  lemma KernelHalves(m: Mem, m1: Mem, m2: Mem, m3: Mem, root: nat, c: nat)
    requires root in m && Agree(m, m1, m.Keys) && Agree(m, m2, m.Keys) && SameKernelHalf(m1, root, m2, c)
    requires c in m2 && Agree(m2, m3, {root, c})
    ensures SameKernelHalf(m, root, m3, c) && SameKernelHalf(m, root, m3, root)
  {
    assert m1[root] == m[root] && m2[root] == m[root] && m3[root] == m[root] && m3[c] == m2[c];
    forall i: nat | USER_SLOTS <= i < ENTRIES ensures Entry(m3, c, i) == Entry(m, root, i) {
      assert Entry(m2, c, i) == Entry(m1, root, i) && Entry(m3, c, i) == Entry(m2, c, i);
    }
  }

  lemma ForkDone(m: Mem, free: set<nat>, pages: set<nat>, m1: Mem, f1: set<nat>, p1: set<nat>, root: nat, c: nat,
                 m2: Mem, m3: Mem)
    requires Extended(m, free, pages, m1, f1, p1) && |free| - |f1| == |UserFrames(m, root)|
    requires UserTree(m, root) && m.Keys !! free && m2.Keys == m1.Keys
    requires UserTree(m2, c) && UserFrames(m2, c) == free - f1 && UserView(m2, c) == CowView(UserView(m, root))
    requires SameKernelHalf(m1, root, m2, c) && SameUserLinks(m, root, m2, c)
    requires Agree(m, m2, m.Keys) && UserFrames(m2, root) == UserFrames(m, root)
    requires forall w: nat :: Idx(4, w) < USER_SLOTS ==> SameAt(m, m2, root, w)
    requires Protected(m2, m3, 4, root, USER_SLOTS)
    ensures Forked(m, free, pages, m3, f1, p1, root, Some(c))
  {
    hide TreeOk, Frames, View, Lookup, Idx, SameLinks, SameAt;
    FramesInMem(m, 4, root, USER_SLOTS);
    OwnTable(m, 4, root, USER_SLOTS);
    OwnTable(m2, 4, c, USER_SLOTS);
    ForkChild(m, free, f1, root, c, m2, m3);
    SameLinksTrans(m, root, m2, c, m3, c, USER_SLOTS);
    ForkParent(m, root, m2, m3);
    KernelHalves(m, m1, m2, m3, root, c);
  }

  ghost predicate NotLargeAt(m: Mem, level: nat, f: nat, w: nat) {
    Lookup(m, level, f, w).Some? ==> !Lookup(m, level, f, w).value.large
  }

  /** Pages covered by a whole table of the given level. */
  function Block(level: nat): nat {
    if level <= 1 then 512 else if level == 2 then 0x40000 else if level == 3 then 0x800_0000 else 0x10_0000_0000
  }

  lemma SlotDigits(q: nat, i: nat, s: nat, r: nat)
    requires i < 512 && r < s
    ensures ((q * 512 + i) * s + r) / s % 512 == i && ((q * 512 + i) * s) % s == 0
  {
    QuotientUnique((q * 512 + i) * s + r, s, q * 512 + i, r);
    QuotientUnique((q * 512 + i) * s, s, q * 512 + i, 0);
    QuotientUnique(q * 512 + i, 512, q, i);
  }

  lemma SlotPages4(b: nat, i: nat, w: nat)
    requires b % 0x10_0000_0000 == 0 && i < 512 && b + i * 0x800_0000 <= w < b + i * 0x800_0000 + 0x800_0000
    ensures w / 0x800_0000 % 512 == i && (b + i * 0x800_0000) % 0x800_0000 == 0 && w < b + 0x10_0000_0000
  {
    SlotDigits(b / 0x10_0000_0000, i, 0x800_0000, w - b - i * 0x800_0000);
  }

  lemma SlotPages3(b: nat, i: nat, w: nat)
    requires b % 0x800_0000 == 0 && i < 512 && b + i * 0x40000 <= w < b + i * 0x40000 + 0x40000
    ensures w / 0x40000 % 512 == i && (b + i * 0x40000) % 0x40000 == 0 && w < b + 0x800_0000
  {
    SlotDigits(b / 0x800_0000, i, 0x40000, w - b - i * 0x40000);
  }

  lemma SlotPages2(b: nat, i: nat, w: nat)
    requires b % 0x40000 == 0 && i < 512 && b + i * 512 <= w < b + i * 512 + 512
    ensures w / 512 % 512 == i && (b + i * 512) % 512 == 0 && w < b + 0x40000
  {
    SlotDigits(b / 0x40000, i, 512, w - b - i * 512);
  }

  lemma SlotPages(level: nat, b: nat, i: nat, w: nat)
    requires 2 <= level <= 4 && b % Block(level) == 0 && i < ENTRIES
    requires b + i * Span(level) <= w < b + i * Span(level) + Span(level)
    ensures Idx(level, w) == i && (b + i * Span(level)) % Block(level - 1) == 0 && Span(level) == Block(level - 1)
    ensures b <= w < b + Block(level)
  {
    if level == 4 {
      SlotPages4(b, i, w);
    } else if level == 3 {
      SlotPages3(b, i, w);
    } else {
      SlotPages2(b, i, w);
    }
  }

  lemma {:induction false} SmallFromSlot(m: Mem, level: nat, f: nat, lim: nat, b: nat, i: nat)
    requires TreeOk(m, level, f, lim) && 2 <= level <= 4 && b % Block(level) == 0 && i < Slots(level, lim)
    requires forall w: nat :: b <= w < b + Block(level) && Idx(level, w) < Slots(level, lim) ==>
      NotLargeAt(m, level, f, w)
    ensures SmallSlot(m, level, f, lim, i)
    decreases level, 0
  {
    hide Block, Span, Idx;
    assert SlotOk(m, level, f, lim, i);
    var b' := b + i * Span(level);
    SlotPages(level, b, i, b');
    assert NotLargeAt(m, level, f, b');
    if Link(m, level, f, i) {
      var k, below := Entry(m, f, i).pfn, level - 1;
      forall w: nat | b' <= w < b' + Block(below) ensures NotLargeAt(m, below, k, w) {
        SlotPages(level, b, i, w);
        assert NotLargeAt(m, level, f, w);
      }
      SmallFromLookup(m, below, k, lim, b');
    }
  }

  /** If no page of the tree is mapped by a 2 MiB entry, no page directory of it holds one. */
  lemma {:induction false} SmallFromLookup(m: Mem, level: nat, f: nat, lim: nat, b: nat)
    requires TreeOk(m, level, f, lim) && level <= 4 && b % Block(level) == 0
    requires forall w: nat :: b <= w < b + Block(level) && Idx(level, w) < Slots(level, lim) ==>
      NotLargeAt(m, level, f, w)
    ensures SmallOnly(m, level, f, lim)
    decreases level
  {
    forall i: nat | i < Slots(level, lim) ensures SmallSlot(m, level, f, lim, i) {
      if level >= 2 {
        SmallFromSlot(m, level, f, lim, b, i);
      }
    }
  }

  lemma SmallFromView(m: Mem, root: nat)
    requires UserTree(m, root) && NoLarge(UserView(m, root))
    ensures SmallOnly(m, 4, root, USER_SLOTS)
  {
    forall w: nat | w < 0x10_0000_0000 && Idx(4, w) < USER_SLOTS ensures NotLargeAt(m, 4, root, w) {
      assert w < Limit(USER_SLOTS);
      assert !IsLarge(UserView(m, root), w);
    }
    SmallFromLookup(m, 4, root, USER_SLOTS, 0);
  }

  /** `clone_address_space`: the child maps what the parent maps, in tables of its own; user pages lose
      the writable bit on both sides.  It fails exactly when the parent has more user-half tables than
      there are free frames, and then the parent is unchanged. */
  method CloneAddressSpace(vm: Vmm, root: nat) returns (r: Option<nat>)
    requires vm.Valid() && UserTree(vm.mem, root) && NoLarge(UserView(vm.mem, root))
    modifies vm`mem, vm.pmm
    ensures vm.Valid()
    ensures Forked(old(vm.mem), old(vm.Free()), old(PageFrames(vm.pmm.tags)), vm.mem, vm.Free(),
                   PageFrames(vm.pmm.tags), root, r)
  {
    hide BuddyAllocator.Valid, FreeFrames, PageFrames, TreeOk, Frames, View, SmallOnly, NoLarge, Forked, Cloned,
      Protected, SameLinks, SameAt;
    ghost var m0, f0, p0 := vm.mem, vm.Free(), PageFrames(vm.pmm.tags);
    SmallFromView(m0, root);
    r := CloneTable(vm, 4, root, USER_SLOTS);
    ghost var m1, f1, p1 := vm.mem, vm.Free(), PageFrames(vm.pmm.tags);
    if r.None? {
      ForkFails(m0, f0, p0, m1, f1, p1, root);
      return;
    }
    ForkCopied(m0, f0, p0, m1, f1, p1, root, r.value);
    CopyKernelHalf(vm, root, r.value);
    ghost var m2 := vm.mem;
    SameLinksTrans(m0, root, m1, r.value, m2, r.value, USER_SLOTS);
    ForkKernel(m0, f0, p0, m1, f1, p1, root, r.value, m2);
    Protect(vm, 4, root, USER_SLOTS);
    ForkDone(m0, f0, p0, m1, f1, p1, root, r.value, m2, vm.mem);
  }

  /** What a fork makes of a page: the same frame with the same rights, but for write access of user pages. */
  predicate CowOf(l: Leaf, l': Leaf) {
    && l'.pfn == l.pfn && l'.user == l.user && l'.noExec == l.noExec && l'.rest == l.rest && l'.large == l.large
    && (l'.writable <==> l.writable && !l.user)
  }

  ghost predicate CowOfAll(view: map<nat, Leaf>, view': map<nat, Leaf>) {
    view'.Keys == view.Keys && forall w: nat :: w in view ==> CowOf(view[w], view'[w])
  }

  /** After a fork parent and child map the pages that the parent mapped, to the same frames with the same
      rights, but for write access of user pages; so they translate every user address as the parent did. */
  lemma ForkTranslates(m: Mem, free: set<nat>, pages: set<nat>, m': Mem, free': set<nat>, pages': set<nat>, root: nat,
                       c: nat, virt: nat)
    requires UserTree(m, root) && Forked(m, free, pages, m', free', pages', root, Some(c))
    requires PageOf(virt) < Limit(USER_SLOTS)
    ensures Translate(m', root, virt) == Translate(m, root, virt) && Translate(m', c, virt) == Translate(m, root, virt)
    ensures CowOfAll(UserView(m, root), UserView(m', c)) && CowOfAll(UserView(m, root), UserView(m', root))
  {
    hide Translate, View, TreeOk, PageOf, Limit, Frames;
    TranslateIsView(m, root, USER_SLOTS, virt);
    TranslateIsView(m', root, USER_SLOTS, virt);
    TranslateIsView(m', c, USER_SLOTS, virt);
  }

  /** The processor's rights after a fork, in parent and child: those of before, without write access where
      user code had access. */
  lemma ForkAccess(m: Mem, free: set<nat>, pages: set<nat>, m': Mem, free': set<nat>, pages': set<nat>, root: nat,
                   c: nat, virt: nat)
    requires UserTree(m, root) && NoLarge(UserView(m, root))
    requires Forked(m, free, pages, m', free', pages', root, Some(c)) && PageOf(virt) < Limit(USER_SLOTS)
    ensures Access(m', c, virt) == Access(m', root, virt)
    ensures Access(m', c, virt).Some? <==> Access(m, root, virt).Some?
    ensures Access(m, root, virt).Some? ==>
      var a, b := Access(m, root, virt).value, Access(m', c, virt).value;
      && b.user == a.user && b.noExec == a.noExec && (a.user ==> !b.writable) && (b.writable ==> a.writable)
    ensures UserOpen(m, root) && Access(m, root, virt).Some? ==>
      var a, b := Access(m, root, virt).value, Access(m', c, virt).value;
      b.writable <==> a.writable && !a.user
  {
    var w := PageOf(virt);
    ForkTranslates(m, free, pages, m', free', pages', root, c, virt);
    assert !IsLarge(UserView(m, root), w);
    assert SameRights(m, root, m', c, w) && SameRights(m, root, m', root, w);
    assert UserOpen(m, root) ==> OpenAt(m, root, w);
    hide Access, View, TreeOk, PageOf, Limit, Frames, PathRights, Translate, OpenLinks;
    AccessIsPath(m, root, USER_SLOTS, virt);
    AccessIsPath(m', root, USER_SLOTS, virt);
    AccessIsPath(m', c, USER_SLOTS, virt);
  }

  // ----- fresh pages

  predicate IsPage(m: Mem, f: nat) {
    f in m && m[f].Page? && |m[f].b| == PAGE_SIZE
  }

  /** The outcome of mapping a fresh zeroed page at `vp`: no free frame at all; or a page, mapped unless
      the tables for it could not all be allocated. */
  ghost predicate FreshMapped(m: Mem, free: set<nat>, pages: set<nat>, m': Mem, free': set<nat>, pages': set<nat>,
                              root: nat, vp: nat, fl: Flags, ok: bool, page: Option<nat>)
  {
    && free' <= free && m'.Keys == m.Keys + (free - free') && pages' == pages + (free - free')
    && UserTree(m', root) && Agree(m, m', m.Keys - UserFrames(m, root)) && SameKernelHalf(m, root, m', root)
    && SameUserLinks(m, root, m', root)
    && (ok <==> 1 + Missing(m, 4, root, vp) <= |free|)
    && match page
       case None => free == {} && m' == m && !ok
       case Some(f) =>
         && f in free && f !in free' && m'[f] == ZeroPage()
         && UserFrames(m', root) == UserFrames(m, root) + (free - free' - {f})
         && (ok ==> UserView(m', root) == UserView(m, root)[vp := MakeLeaf(f, fl)]
                    && |free| - |free'| == 1 + Missing(m, 4, root, vp)
                    && TablesGrew(m, m', root, USER_SLOTS, vp, 1))
         && (!ok ==> UserView(m', root) == UserView(m, root) && free' == {})
  }

  lemma FreshCases(m: Mem, free: set<nat>, pages: set<nat>, m': Mem, free': set<nat>, pages': set<nat>,
                   root: nat, vp: nat, fl: Flags, ok: bool, page: Option<nat>)
    requires FreshMapped(m, free, pages, m', free', pages', root, vp, fl, ok, page)
    ensures UserTree(m', root) && (ok <==> 1 + Missing(m, 4, root, vp) <= |free|) && (page.None? <==> free == {})
    ensures ok ==> page.Some? && |free| - |free'| == 1 + Missing(m, 4, root, vp) && vp in UserView(m', root)
    ensures ok ==> UserView(m', root)[vp] == MakeLeaf(page.value, fl) && TablesGrew(m, m', root, USER_SLOTS, vp, 1)
    ensures !ok ==> free' == {} && UserView(m', root) == UserView(m, root)
  {
  }

  lemma FramePfn(f: nat)
    requires f < 0x100_0000_0000
    ensures PfnOf(f * PAGE_SIZE) == f
  {
  }

  lemma FreshNone(m: Mem, free: set<nat>, pages: set<nat>, root: nat, vp: nat, fl: Flags)
    requires UserTree(m, root)
    ensures free == {} ==> FreshMapped(m, free, pages, m, free, pages, root, vp, fl, false, None)
  {
    hide TreeOk, Frames, View;
    assert free - free == {};
  }

  lemma {:induction false} SameMissing(m: Mem, m': Mem, level: nat, f: nat, vp: nat)
    requires forall t: nat, i: nat :: Entry(m', t, i) == Entry(m, t, i)
    ensures Missing(m', level, f, vp) == Missing(m, level, f, vp)
  {
    if level > 1 {
      assert Entry(m', f, Idx(level, vp)) == Entry(m, f, Idx(level, vp));
      SameMissing(m, m', level - 1, Entry(m, f, Idx(level, vp)).pfn, vp);
    }
  }

  /** Allocating a page does not disturb the tree. */
  lemma FreshAlloc(m: Mem, free: set<nat>, root: nat, vp: nat, f: nat)
    requires UserTree(m, root) && f in free && f !in m
    ensures var m1 := m[f := ZeroPage()];
      && UserTree(m1, root) && UserFrames(m1, root) == UserFrames(m, root) && UserView(m1, root) == UserView(m, root)
      && Missing(m1, 4, root, vp) == Missing(m, 4, root, vp) && UserFrames(m, root) <= m.Keys
      && SameUserLinks(m, root, m1, root)
  {
    var m1 := m[f := ZeroPage()];
    FramesInMem(m, 4, root, USER_SLOTS);
    SameTree(m, m1, 4, root, USER_SLOTS);
    SameView(m, m1, root, USER_SLOTS);
    LinksLocal(m, m1, root, USER_SLOTS);
    hide TreeOk, Frames, View, SameLinks;
    assert forall t: nat, i: nat :: Entry(m1, t, i) == Entry(m, t, i);
    SameMissing(m, m1, 4, root, vp);
  }

  lemma {:induction false} SameEntries(m: Mem, m': Mem, level: nat, f: nat, w: nat, l: nat)
    requires forall t: nat, i: nat :: Entry(m', t, i) == Entry(m, t, i)
    ensures TableOn(m', level, f, w, l) == TableOn(m, level, f, w, l)
    decreases level
  {
    if level > l {
      assert Entry(m', f, Idx(level, w)) == Entry(m, f, Idx(level, w));
      SameEntries(m, m', level - 1, Entry(m, f, Idx(level, w)).pfn, w, l);
    }
  }

  /** A page of bytes is no table, so allocating one adds none. */
  lemma FreshTables(m: Mem, f: nat, m2: Mem, root: nat, vp: nat)
    requires f !in m
    ensures TablesGrew(m[f := ZeroPage()], m2, root, USER_SLOTS, vp, 1) ==> TablesGrew(m, m2, root, USER_SLOTS, vp, 1)
  {
    var m1 := m[f := ZeroPage()];
    assert forall t: nat, i: nat :: Entry(m1, t, i) == Entry(m, t, i);
    hide Entry, Limit, SamePath, TableOn;
    if TablesGrew(m1, m2, root, USER_SLOTS, vp, 1) {
      forall w: nat, l: nat | w < Limit(USER_SLOTS) && 1 <= l <= 3 ensures GrewAt(m, m2, root, vp, 1, w, l) {
        assert GrewAt(m1, m2, root, vp, 1, w, l);
        SameEntries(m, m1, 4, root, w, l);
      }
    }
  }

  lemma AgreePastAlloc(m: Mem, f: nat, content: Frame, m2: Mem, own: set<nat>)
    requires f !in m && own <= m.Keys && Agree(m[f := content], m2, m[f := content].Keys - own)
    ensures Agree(m, m2, m.Keys - own) && f in m2 && m2[f] == content
  {
    var m1 := m[f := content];
    assert f in m1.Keys - own;
    assert forall g :: g in m ==> g != f && m1[g] == m[g];
  }

  lemma AddTwice(k: set<nat>, k1: set<nat>, k2: set<nat>, free: set<nat>, f: nat, f1: set<nat>, f2: set<nat>)
    requires f in free && f1 == free - {f} && f2 <= f1 && k1 == k + {f} && k2 == k1 + (f1 - f2)
    ensures k2 == k + (free - f2)
  {
  }

  lemma TakenTwice(free: set<nat>, f: nat, f1: set<nat>, f2: set<nat>)
    requires f in free && f1 == free - {f} && f2 <= f1
    ensures f1 - f2 == free - f2 - {f} && free - f2 == {f} + (f1 - f2)
  {
  }

  lemma FreshSets(m: Mem, free: set<nat>, pages: set<nat>, m1: Mem, f1: set<nat>, p1: set<nat>, m2: Mem, f2: set<nat>,
                  p2: set<nat>, f: nat, own: set<nat>, own2: set<nat>)
    requires f in free && f !in m && m.Keys !! free && own <= m.Keys
    requires m1 == m[f := ZeroPage()] && f1 == free - {f} && p1 == pages + {f} && p2 == p1 + (f1 - f2)
    requires Grew(m1, f1, m2, f2, own, own2)
    ensures |free| == |f1| + 1 && f2 <= free && f !in f2
    ensures m2.Keys == m.Keys + (free - f2) && p2 == pages + (free - f2) && own2 == own + (free - f2 - {f})
    ensures m2[f] == ZeroPage() && Agree(m, m2, m.Keys - own)
  {
    assert m1.Keys == m.Keys + {f} && m2[f] == ZeroPage();
    hide Agree;
    TakenTwice(free, f, f1, f2);
    AddTwice(m.Keys, m1.Keys, m2.Keys, free, f, f1, f2);
    AddTwice(pages, p1, p2, free, f, f1, f2);
    AgreePastAlloc(m, f, ZeroPage(), m2, own);
  }

  lemma FreshDone(m: Mem, free: set<nat>, pages: set<nat>, m1: Mem, f1: set<nat>, p1: set<nat>, m2: Mem, f2: set<nat>,
                  p2: set<nat>, root: nat, vp: nat, fl: Flags, ok: bool, f: nat)
    requires f in free && f !in m && m.Keys !! free && UserTree(m, root)
    requires m1 == m[f := ZeroPage()] && f1 == free - {f} && p1 == pages + {f} && p2 == p1 + (f1 - f2)
    requires TreeGrew(m1, f1, m2, f2, root, USER_SLOTS)
    requires ok <==> Missing(m, 4, root, vp) <= |f1|
    requires ok ==> UserView(m2, root) == UserView(m, root)[vp := MakeLeaf(f, fl)]
    requires ok ==> |f1| - |f2| == Missing(m, 4, root, vp) && TablesGrew(m1, m2, root, USER_SLOTS, vp, 1)
    requires !ok ==> UserView(m2, root) == UserView(m, root) && f2 == {}
    ensures FreshMapped(m, free, pages, m2, f2, p2, root, vp, fl, ok, Some(f))
  {
    FreshAlloc(m, free, root, vp, f);
    FreshTables(m, f, m2, root, vp);
    SameLinksTrans(m, root, m1, root, m2, root, USER_SLOTS);
    hide TreeOk, Frames, View, Missing, Agree, TablesGrew, SameLinks;
    FreshSets(m, free, pages, m1, f1, p1, m2, f2, p2, f, UserFrames(m, root), UserFrames(m2, root));
  }

  /** Allocates a zeroed page and maps it: the common part of demand paging, program loading and stack
      set-up. */
  method MapFresh(vm: Vmm, root: nat, addr: nat, fl: Flags) returns (ok: bool, page: Option<nat>)
    requires vm.Valid() && UserTree(vm.mem, root) && PageOf(addr) < Limit(USER_SLOTS)
    requires !IsLarge(UserView(vm.mem, root), PageOf(addr))
    modifies vm`mem, vm.pmm
    ensures vm.Valid()
    ensures FreshMapped(old(vm.mem), old(vm.Free()), old(PageFrames(vm.pmm.tags)), vm.mem, vm.Free(),
                        PageFrames(vm.pmm.tags), root, PageOf(addr), fl, ok, page)
  {
    hide BuddyAllocator.Valid, FreeFrames, PageFrames, TreeOk, Frames, View, PageOf, Limit, Missing, FreshMapped,
      PfnOf, SameLinks;
    ghost var m0, f0, p0 := vm.mem, vm.Free(), PageFrames(vm.pmm.tags);
    FreshNone(m0, f0, p0, root, PageOf(addr), fl);
    page := vm.AllocZeroed(false);
    if page.None? {
      return false, None;
    }
    ghost var m1, f1, p1 := vm.mem, vm.Free(), PageFrames(vm.pmm.tags);
    FreshAlloc(m0, f0, root, PageOf(addr), page.value);
    FramePfn(page.value);
    ok := vm.Map(root, addr, page.value * PAGE_SIZE, fl, USER_SLOTS);
    FreshDone(m0, f0, p0, m1, f1, p1, vm.mem, vm.Free(), PageFrames(vm.pmm.tags), root, PageOf(addr), fl, ok,
              page.value);
  }

  // ----- page faults

  lemma PageStart(addr: nat)
    ensures PageOf(AlignDown(addr, PAGE_SIZE)) == PageOf(addr) && AlignDown(addr, PAGE_SIZE) % PAGE_SIZE == 0
  {
    assert AlignDown(addr, PAGE_SIZE) / PAGE_SIZE == addr / PAGE_SIZE;
  }

  /** `handle_demand_page`. */
  method HandleDemandPage(vm: Vmm, root: nat, addr: nat, write: bool, exec: bool)
    returns (ok: bool, ghost page: Option<nat>)
    requires vm.Valid() && UserTree(vm.mem, root) && PageOf(addr) < Limit(USER_SLOTS)
    requires !IsLarge(UserView(vm.mem, root), PageOf(addr))
    modifies vm`mem, vm.pmm
    ensures vm.Valid()
    ensures FreshMapped(old(vm.mem), old(vm.Free()), old(PageFrames(vm.pmm.tags)), vm.mem, vm.Free(),
                        PageFrames(vm.pmm.tags), root, PageOf(addr), Flags(write, true, !exec, 0), ok, page)
  {
    hide BuddyAllocator.Valid, FreeFrames, PageFrames, TreeOk, Frames, View, PageOf, Limit, Missing, FreshMapped;
    PageStart(addr);
    ok, page := MapFresh(vm, root, AlignDown(addr, PAGE_SIZE), Flags(write, true, !exec, 0));
  }

  /** The outcome of resolving a copy-on-write fault at `vp`. */
  ghost predicate CowResolved(m: Mem, free: set<nat>, pages: set<nat>, m': Mem, free': set<nat>, pages': set<nat>,
                              root: nat, vp: nat, ok: bool, page: nat)
  {
    var view := UserView(m, root);
    && (ok <==> vp in view && free != {})
    && (!ok ==> m' == m && free' == free && pages' == pages)
    && (ok ==>
         && page in free && free' == free - {page} && pages' == pages + {page}
         && m'.Keys == m.Keys + {page} && Agree(m, m', m.Keys - UserFrames(m, root))
         && view[vp].pfn in m && m'[page] == m[view[vp].pfn]
         && UserTree(m', root) && UserFrames(m', root) == UserFrames(m, root) && SameKernelHalf(m, root, m', root)
         && SameUserLinks(m, root, m', root)
         && UserView(m', root) == view[vp := Leaf(page, true, true, false, 0, false)])
  }

  /** The copy has the rights of the page, writable again, exactly when the page was a user page, executable,
      with no further bits: the no-execute bit is lost. */
  lemma CowRights(m: Mem, free: set<nat>, pages: set<nat>, m': Mem, free': set<nat>, pages': set<nat>,
                  root: nat, vp: nat, page: nat)
    requires CowResolved(m, free, pages, m', free', pages', root, vp, true, page)
    requires vp in UserView(m, root) && !IsLarge(UserView(m, root), vp)
    ensures vp in UserView(m', root)
    ensures var l := UserView(m, root)[vp];
      UserView(m', root)[vp] == l.(pfn := page, writable := true) <==> l.user && !l.noExec && l.rest == 0
  {
    hide View;
  }

  lemma CowNone(m: Mem, free: set<nat>, pages: set<nat>, root: nat, vp: nat)
    ensures vp !in UserView(m, root) || free == {} ==> CowResolved(m, free, pages, m, free, pages, root, vp, false, 0)
  {
  }

  lemma {:induction false} MappedComplete(m: Mem, level: nat, f: nat, vp: nat)
    requires Lookup(m, level, f, vp).Some? && !Lookup(m, level, f, vp).value.large
    ensures Missing(m, level, f, vp) == 0
  {
    if level > 1 {
      MappedComplete(m, level - 1, Entry(m, f, Idx(level, vp)).pfn, vp);
    }
  }

  /** A mapped page lacks no table, whatever fresh page is added to memory. */
  lemma CowAlloc(m: Mem, free: set<nat>, root: nat, vp: nat, f: nat, content: Frame)
    requires UserTree(m, root) && f in free && f !in m && content.Page?
    requires vp in UserView(m, root) && !IsLarge(UserView(m, root), vp)
    ensures var m1 := m[f := content];
      && UserTree(m1, root) && UserFrames(m1, root) == UserFrames(m, root) && UserView(m1, root) == UserView(m, root)
      && Missing(m1, 4, root, vp) == 0 && UserFrames(m, root) <= m.Keys && SameUserLinks(m, root, m1, root)
  {
    var m1 := m[f := content];
    FramesInMem(m, 4, root, USER_SLOTS);
    SameTree(m, m1, 4, root, USER_SLOTS);
    SameView(m, m1, root, USER_SLOTS);
    LinksLocal(m, m1, root, USER_SLOTS);
    assert Lookup(m1, 4, root, vp) == Some(UserView(m1, root)[vp]);
    hide TreeOk, Frames, SameLinks;
    MappedComplete(m1, 4, root, vp);
  }

  lemma SameSize(a: set<nat>, b: set<nat>)
    requires a <= b && |a| == |b|
    ensures a == b
  {
    SizeMonotone(b - a, b - a);
    assert b == a + (b - a);
  }

  lemma CowSets(m: Mem, free: set<nat>, f: nat, content: Frame, m2: Mem, f2: set<nat>, own: set<nat>, own2: set<nat>)
    requires f in free && f !in m && own <= m.Keys
    requires Grew(m[f := content], free - {f}, m2, f2, own, own2) && |free - {f}| == |f2|
    ensures f2 == free - {f} && own2 == own && m2.Keys == m.Keys + {f}
    ensures Agree(m, m2, m.Keys - own) && m2[f] == content
  {
    SameSize(f2, free - {f});
    var m1 := m[f := content];
    assert free - {f} - f2 == {};
    assert m1.Keys == m.Keys + {f};
    AgreePastAlloc(m, f, content, m2, own);
    hide Agree;
  }

  lemma HalfPastAlloc(m: Mem, root: nat, f: nat, content: Frame, m2: Mem)
    requires IsTable(m, root) && f !in m
    ensures SameUpper(m[f := content], root, m2, root, USER_SLOTS) ==> SameKernelHalf(m, root, m2, root)
  {
    assert m[f := content][root] == m[root];
  }

  lemma CowDone(m: Mem, free: set<nat>, pages: set<nat>, m1: Mem, f1: set<nat>, p1: set<nat>, m2: Mem, f2: set<nat>,
                p2: set<nat>, root: nat, vp: nat, f: nat)
    requires f in free && f !in m && m.Keys !! free && UserTree(m, root) && UserFrames(m, root) <= m.Keys
    requires vp in UserView(m, root) && UserView(m, root)[vp].pfn in m
    requires m1 == m[f := m[UserView(m, root)[vp].pfn]] && f1 == free - {f} && p1 == pages + {f} && p2 == p1 + (f1 - f2)
    requires UserFrames(m1, root) == UserFrames(m, root) && SameUserLinks(m, root, m1, root)
    requires TreeGrew(m1, f1, m2, f2, root, USER_SLOTS) && |f1| == |f2|
    requires UserView(m2, root) == UserView(m, root)[vp := MakeLeaf(f, Flags(true, true, false, 0))]
    ensures CowResolved(m, free, pages, m2, f2, p2, root, vp, true, f)
  {
    hide TreeOk, Frames, View, SameUpper, Agree, Grew, IsTable, SameLinks;
    SameLinksTrans(m, root, m1, root, m2, root, USER_SLOTS);
    OwnTable(m, 4, root, USER_SLOTS);
    var content := m[UserView(m, root)[vp].pfn];
    HalfPastAlloc(m, root, f, content, m2);
    CowSets(m, free, f, content, m2, f2, UserFrames(m, root), UserFrames(m2, root));
    assert p2 == pages + {f};
  }

  /** `handle_cow`: gives the faulting page a private writable copy of its frame.  The result of the
      inner `map`, which the kernel ignores, is always true. */
  method HandleCow(vm: Vmm, root: nat, addr: nat) returns (ok: bool, ghost page: nat)
    requires vm.Valid() && UserTree(vm.mem, root) && PageOf(addr) < Limit(USER_SLOTS)
    requires !IsLarge(UserView(vm.mem, root), PageOf(addr))
    requires PageOf(addr) in UserView(vm.mem, root) ==> IsPage(vm.mem, UserView(vm.mem, root)[PageOf(addr)].pfn)
    modifies vm`mem, vm.pmm
    ensures vm.Valid()
    ensures CowResolved(old(vm.mem), old(vm.Free()), old(PageFrames(vm.pmm.tags)), vm.mem, vm.Free(),
                        PageFrames(vm.pmm.tags), root, PageOf(addr), ok, page)
  {
    hide BuddyAllocator.Valid, FreeFrames, PageFrames, TreeOk, Frames, View, PageOf, Limit, Missing, PfnOf, Translate,
      CowResolved, SameLinks;
    ghost var m0, f0, p0 := vm.mem, vm.Free(), PageFrames(vm.pmm.tags);
    ghost var vp := PageOf(addr);
    page := 0;
    var pageAddr := AlignDown(addr, PAGE_SIZE);
    PageStart(addr);
    TranslateIsView(m0, root, USER_SLOTS, pageAddr);
    CowNone(m0, f0, p0, root, vp);
    var oldPhys := Translate(vm.mem, root, pageAddr);
    if oldPhys.None? {
      return false, 0;
    }
    var newFrame := vm.AllocZeroed(false);
    if newFrame.None? {
      return false, 0;
    }
    page := newFrame.value;
    CowAlloc(m0, f0, root, vp, newFrame.value, m0[UserView(m0, root)[vp].pfn]);
    FramePfn(newFrame.value);
    vm.mem := vm.mem[newFrame.value := vm.mem[oldPhys.value / PAGE_SIZE]];
    ghost var m1, f1, p1 := vm.mem, vm.Free(), PageFrames(vm.pmm.tags);
    assert oldPhys.value / PAGE_SIZE == UserView(m0, root)[vp].pfn;
    assert m1 == m0[newFrame.value := m0[UserView(m0, root)[vp].pfn]];
    var mapped := vm.Map(root, pageAddr, newFrame.value * PAGE_SIZE, Flags(true, true, false, 0), USER_SLOTS);
    assert mapped;
    CowDone(m0, f0, p0, m1, f1, p1, vm.mem, vm.Free(), PageFrames(vm.pmm.tags), root, vp, newFrame.value);
    ok := true;
  }

  // ----- unmapping and dropping

  /** The outcome of unmapping one page. */
  ghost predicate Unmapped(m: Mem, m': Mem, root: nat, vp: nat) {
    && UserTree(m', root) && UserFrames(m', root) == UserFrames(m, root) && m'.Keys == m.Keys
    && Agree(m, m', m.Keys - UserFrames(m, root)) && SameKernelHalf(m, root, m', root)
    && SameUserLinks(m, root, m', root)
    && UserView(m', root) == UserView(m, root) - {vp}
  }

  /** `unmap` on a user space. */
  method UnmapPage(vm: Vmm, root: nat, virt: nat)
    requires vm.Valid() && UserTree(vm.mem, root) && PageOf(virt) < Limit(USER_SLOTS)
    requires !IsLarge(UserView(vm.mem, root), PageOf(virt))
    modifies vm`mem
    ensures vm.Valid() && Unmapped(old(vm.mem), vm.mem, root, PageOf(virt))
  {
    hide BuddyAllocator.Valid, FreeFrames, PageFrames, TreeOk, Frames, View, PageOf, Limit, SameLinks;
    vm.Unmap(root, virt, USER_SLOTS);
    assert vm.Free() - vm.Free() == {};
  }

  /** Dropping an address space: every user-half table and the PML4 go back to the allocator exactly
      once; no page and no kernel table does. */
  method DropSpace(vm: Vmm, root: nat)
    requires vm.Valid() && UserTree(vm.mem, root) && UserFrames(vm.mem, root) <= PageFrames(vm.pmm.tags)
    modifies vm`mem, vm.pmm
    ensures vm.Valid()
    ensures Released(old(vm.mem), old(vm.Free()), old(PageFrames(vm.pmm.tags)), vm.mem, vm.Free(),
                     PageFrames(vm.pmm.tags), old(UserFrames(vm.mem, root)))
  {
    hide BuddyAllocator.Valid, FreeFrames, PageFrames, TreeOk, Frames;
    FreeTables(vm, 4, root, USER_SLOTS);
  }
}
