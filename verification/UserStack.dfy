/** The initial stack of a program (System V ABI, AMD64 supplement, section 3.4.1): strings, auxiliary
    vector, environment and argument pointers. */
module UserStack {
  import opened Basics
  import opened Blocks
  import opened Buddy
  import opened PageTables
  import opened Translation
  import opened TableWalks
  import opened AddressSpaces
  import opened UserSpaces
  import opened UserMemory
  import opened Exec
  import opened ElfLoader

  const USER_STACK_TOP: nat := 0x7FFF_FFFF_0000
  const COMMITTED: nat := 0x1_0000
  const STACK_BASE: nat := USER_STACK_TOP - COMMITTED

  const STACK_FLAGS: Flags := Flags(true, true, true, 0)

  /** First committed page of the stack, and the page after the last. */
  const BASE_PAGE: nat := 0x7_FFFF_FFE0
  const TOP_PAGE: nat := 0x7_FFFF_FFF0

  // ----- committing the stack

  /** The page is for user data: writable and not executable. */
  ghost predicate StackRights(view: map<nat, Leaf>, w: nat) {
    w in view && view[w] == MakeLeaf(view[w].pfn, STACK_FLAGS)
  }

  /** The first `n` stack pages are committed; the other pages are mapped and filled as they were. */
  ghost predicate Committed(m0: Mem, view0: map<nat, Leaf>, m: Mem, view: map<nat, Leaf>, n: nat) {
    && LeafPages(m, view)
    && (forall w: nat :: BASE_PAGE <= w < BASE_PAGE + n ==> FreshPage(m, view, w) && StackRights(view, w))
    && (forall w: nat :: w < BASE_PAGE || w >= BASE_PAGE + n ==>
          (w in view <==> w in view0) && (w in view ==> view[w] == view0[w] && SameFrame(m0, m, view[w].pfn)))
  }

  /** Mapping one more fresh page. */
  lemma CommitOne(m0: Mem, view0: map<nat, Leaf>, m: Mem, view: map<nat, Leaf>, m': Mem, view': map<nat, Leaf>, n: nat)
    requires Committed(m0, view0, m, view, n) && FreshPageAdded(m, view, m', view', BASE_PAGE + n)
    requires StackRights(view', BASE_PAGE + n)
    ensures Committed(m0, view0, m', view', n + 1)
  {
    hide FreshPage;
    forall w: nat | BASE_PAGE <= w < BASE_PAGE + n + 1 ensures FreshPage(m', view', w) && StackRights(view', w) {
      if w < BASE_PAGE + n {
        assert FreshPage(m, view, w) && StackRights(view, w);
      }
    }
  }

  /** The sixteen stack pages lie in one page table. */
  lemma OneTable(w: nat)
    requires BASE_PAGE <= w < TOP_PAGE
    ensures SamePath(4, 1, BASE_PAGE, w) && w < Limit(USER_SLOTS)
  {
    PathIsPage(BASE_PAGE, w);
  }

  lemma {:induction false} SameMissingOnPath(m: Mem, level: nat, f: nat, v: nat, w: nat)
    requires SamePath(level, 1, v, w)
    ensures Missing(m, level, f, w) == Missing(m, level, f, v)
  {
    if level > 1 {
      SameMissingOnPath(m, level - 1, Entry(m, f, Idx(level, v)).pfn, v, w);
    }
  }

  /** Once one stack page is mapped, no table is missing for the others. */
  lemma TablesThere(m: Mem, root: nat, w: nat)
    requires UserTree(m, root) && BASE_PAGE <= w < TOP_PAGE
    requires BASE_PAGE in UserView(m, root) && !UserView(m, root)[BASE_PAGE].large
    ensures Missing(m, 4, root, w) == 0
  {
    OneTable(w);
    hide Idx, Limit, TreeOk;
    SameMissingOnPath(m, 4, root, BASE_PAGE, w);
    MappedComplete(m, 4, root, BASE_PAGE);
  }

  lemma CommitFresh(m: Mem, view: map<nat, Leaf>, w: nat, f: nat)
    requires w in view && view[w] == MakeLeaf(f, STACK_FLAGS)
    ensures StackRights(view, w)
  {
  }

  lemma CommittedPages(m0: Mem, m: Mem, view0: map<nat, Leaf>, view: map<nat, Leaf>, n: nat)
    requires Committed(m0, view0, m, view, n)
    ensures LeafPages(m, view)
  {
  }

  lemma CommitStart(m: Mem, view: map<nat, Leaf>)
    requires LeafPages(m, view)
    ensures Committed(m, view, m, view, 0)
  {
  }

  lemma CommitReady(m0: Mem, m: Mem, root: nat, view0: map<nat, Leaf>, n: nat, vaddr: nat)
    requires UserTree(m, root) && Committed(m0, view0, m, UserView(m, root), n) && n < 16
    requires vaddr == STACK_BASE + PAGE_SIZE * n
    ensures PageOf(vaddr) == BASE_PAGE + n < Limit(USER_SLOTS) && !IsLarge(UserView(m, root), BASE_PAGE + n)
    ensures n > 0 ==> Missing(m, 4, root, BASE_PAGE + n) == 0
  {
    UserPage(vaddr);
    if n > 0 {
      assert FreshPage(m, UserView(m, root), BASE_PAGE);
      TablesThere(m, root, BASE_PAGE + n);
    }
  }

  lemma LostReady(m: Mem, view: map<nat, Leaf>, n: nat, vaddr: nat)
    requires LeafPages(m, view) && n < 16 && vaddr == STACK_BASE + PAGE_SIZE * n
    ensures PageOf(vaddr) < Limit(USER_SLOTS) && !IsLarge(view, PageOf(vaddr))
  {
    UserPage(vaddr);
  }

  /** `map_user_stack`: commits the top 64 KiB.  The result of `map` is ignored; the stack is complete
      exactly when the frames suffice, because a failed `map` leaves no frame for the next page. */
  method MapUserStack(vm: Vmm, root: nat) returns (ok: bool)
    requires vm.Valid() && UserTree(vm.mem, root) && LeafPages(vm.mem, UserView(vm.mem, root))
    modifies vm`mem, vm.pmm
    ensures vm.Valid() && UserTree(vm.mem, root)
    ensures ok <==> 16 + old(Missing(vm.mem, 4, root, BASE_PAGE)) <= old(|vm.Free()|)
    ensures ok ==> Committed(old(vm.mem), old(UserView(vm.mem, root)), vm.mem, UserView(vm.mem, root), 16)
    ensures Confined(old(vm.mem), old(vm.Free()), old(PageFrames(vm.pmm.tags)), vm.mem, vm.Free(),
                     PageFrames(vm.pmm.tags), root)
  {
    hide BuddyAllocator.Valid, FreeFrames, PageFrames, UserTree, UserView, PageOf, Limit, Missing, FreshMapped,
      Committed, Confined, LeafPages, TablesGrew, IsLarge;
    ghost var m0, f0, g0, view0 := vm.mem, vm.Free(), PageFrames(vm.pmm.tags), UserView(vm.mem, root);
    ghost var free0, missing := |vm.Free()|, Missing(vm.mem, 4, root, BASE_PAGE);
    var vaddr := STACK_BASE;
    ghost var n, lost := 0, false;
    CommitStart(vm.mem, view0);
    ConfinedNone(m0, f0, g0, root);
    while vaddr < USER_STACK_TOP
      invariant vaddr == STACK_BASE + PAGE_SIZE * n && n <= 16
      invariant vm.Valid() && UserTree(vm.mem, root)
      invariant n == 0 ==> Missing(vm.mem, 4, root, BASE_PAGE) == missing && UserView(vm.mem, root) == view0
      invariant lost ==> n == 1 && vm.Free() == {} && free0 < 1 + missing && UserView(vm.mem, root) == view0
      invariant !lost ==> Committed(m0, view0, vm.mem, UserView(vm.mem, root), n)
      invariant Confined(m0, f0, g0, vm.mem, vm.Free(), PageFrames(vm.pmm.tags), root)
      invariant !lost ==> |vm.Free()| + n + (if n == 0 then 0 else missing) == free0
    {
      ghost var m, f, p := vm.mem, vm.Free(), PageFrames(vm.pmm.tags);
      if !lost {
        CommitReady(m0, m, root, view0, n, vaddr);
      } else {
        LostReady(old(vm.mem), view0, n, vaddr);
      }
      var mapped, page := MapFresh(vm, root, vaddr, STACK_FLAGS);
      FreshCases(m, f, p, vm.mem, vm.Free(), PageFrames(vm.pmm.tags), root, PageOf(vaddr), STACK_FLAGS, mapped, page);
      FreshConfined(m, f, p, vm.mem, vm.Free(), PageFrames(vm.pmm.tags), root, PageOf(vaddr), STACK_FLAGS, mapped,
                    page);
      ConfinedTrans(m0, f0, g0, m, f, p, vm.mem, vm.Free(), PageFrames(vm.pmm.tags), root);
      if page.None? {
        return false;
      }
      if mapped {
        CommittedPages(m0, m, view0, UserView(m, root), n);
        FreshAdded(m, f, p, vm.mem, vm.Free(), PageFrames(vm.pmm.tags), root, BASE_PAGE + n, STACK_FLAGS, page.value);
        CommitFresh(vm.mem, UserView(vm.mem, root), BASE_PAGE + n, page.value);
        CommitOne(m0, view0, m, UserView(m, root), vm.mem, UserView(vm.mem, root), n);
      }
      lost := !mapped;
      vaddr := vaddr + PAGE_SIZE;
      n := n + 1;
    }
    ok := true;
  }

  // ----- writing below the cursor

  /** The stack pages are private. */
  ghost predicate Ready(m: Mem, root: nat, view: map<nat, Leaf>) {
    && UserTree(m, root) && UserView(m, root) == view && LeafPages(m, view)
    && (forall w: nat :: BASE_PAGE <= w < TOP_PAGE ==> Private(m, view, w))
  }

  /** The `n` addresses from `a` lie on the given pages. */
  ghost predicate RangeMapped(pages: set<nat>, a: nat, n: nat) {
    forall v: nat :: a <= v < a + n ==> v / PAGE_SIZE in pages
  }

  ghost predicate KeptAt(m: Mem, m': Mem, view: map<nat, Leaf>, lo: nat, hi: nat, v: nat) {
    (v < lo || hi <= v) && v / PAGE_SIZE in view ==> ByteAt(m', view, v) == ByteAt(m, view, v)
  }

  /** Every mapped byte below `lo`, and from `hi` up, is as before. */
  ghost predicate Kept(m: Mem, m': Mem, view: map<nat, Leaf>, lo: nat, hi: nat) {
    forall v: nat :: KeptAt(m, m', view, lo, hi, v)
  }

  ghost predicate ZeroAt(m: Mem, view: map<nat, Leaf>, cursor: nat, v: nat) {
    STACK_BASE <= v < cursor ==> v / PAGE_SIZE in view && ByteAt(m, view, v) == 0
  }

  /** The stack below the cursor is still zero. */
  ghost predicate ZeroBelow(m: Mem, view: map<nat, Leaf>, cursor: nat) {
    forall v: nat :: ZeroAt(m, view, cursor, v)
  }

  lemma KeptTrans(m0: Mem, m1: Mem, m2: Mem, view: map<nat, Leaf>, lo: nat, mid: nat, hi: nat)
    requires Kept(m0, m1, view, mid, hi) && Kept(m1, m2, view, lo, mid) && lo <= mid <= hi
    ensures Kept(m0, m2, view, lo, hi)
  {
    hide ByteAt;
    forall v: nat ensures KeptAt(m0, m2, view, lo, hi, v) {
      assert KeptAt(m0, m1, view, mid, hi, v) && KeptAt(m1, m2, view, lo, mid, v);
    }
  }

  lemma KeptWider(m: Mem, m': Mem, view: map<nat, Leaf>, lo: nat, hi: nat, lo': nat, hi': nat)
    requires Kept(m, m', view, lo, hi) && lo' <= lo && hi <= hi'
    ensures Kept(m, m', view, lo', hi')
  {
    hide ByteAt;
    forall v: nat ensures KeptAt(m, m', view, lo', hi', v) {
      assert KeptAt(m, m', view, lo, hi, v);
    }
  }

  lemma KeptBytes(m: Mem, m': Mem, view: map<nat, Leaf>, lo: nat, hi: nat, p: nat, s: seq<byte>)
    requires Kept(m, m', view, lo, hi) && hi <= p && BytesAt(m, view, p, s)
    ensures BytesAt(m', view, p, s)
  {
    hide ByteAt;
    forall v: nat ensures ReadsAt(m', view, p, s, v) {
      assert KeptAt(m, m', view, lo, hi, v) && ReadsAt(m, view, p, s, v);
    }
  }

  lemma KeptZero(m: Mem, m': Mem, view: map<nat, Leaf>, lo: nat, hi: nat, top: nat)
    requires Kept(m, m', view, lo, hi) && ZeroBelow(m, view, top) && lo <= top
    ensures ZeroBelow(m', view, lo)
  {
    hide ByteAt;
    forall v: nat ensures ZeroAt(m', view, lo, v) {
      assert KeptAt(m, m', view, lo, hi, v) && ZeroAt(m, view, top, v);
    }
  }

  /** A write changes nothing around it. */
  lemma WroteBelow(m: Mem, m': Mem, view: map<nat, Leaf>, virt: nat, data: seq<byte>, top: nat)
    requires Wrote(m, m', view, virt, data) && virt + |data| <= top
    ensures Kept(m, m', view, virt, top) && (ZeroBelow(m, view, top) ==> ZeroBelow(m', view, virt))
  {
    hide ByteAt, SameLayout;
    forall v: nat ensures KeptAt(m, m', view, virt, top, v) {
      assert WroteAt(m, m', view, virt, data, v);
    }
    if ZeroBelow(m, view, top) {
      KeptZero(m, m', view, virt, top, top);
    }
  }

  /** The bytes written are there. */
  lemma WroteBytes(m: Mem, m': Mem, root: nat, view: map<nat, Leaf>, virt: nat, data: seq<byte>)
    requires Ready(m, root, view) && Wrote(m, m', view, virt, data) && STACK_BASE <= virt
    requires virt + |data| <= USER_STACK_TOP
    ensures BytesAt(m', view, virt, data)
  {
    hide ByteAt, SameLayout, TreeOk, View;
    forall v: nat ensures ReadsAt(m', view, virt, data, v) {
      assert WroteAt(m, m', view, virt, data, v);
      if virt <= v < virt + |data| {
        assert BASE_PAGE <= v / PAGE_SIZE < TOP_PAGE;
        assert Private(m, view, v / PAGE_SIZE);
      }
    }
  }

  /** A string written just below the cursor is terminated by a byte that was already zero. */
  lemma WroteString(m: Mem, m': Mem, root: nat, view: map<nat, Leaf>, virt: nat, s: seq<byte>)
    requires Ready(m, root, view) && Wrote(m, m', view, virt, s) && STACK_BASE <= virt
    requires virt + |s| + 1 <= USER_STACK_TOP
    requires ZeroBelow(m, view, virt + |s| + 1)
    ensures StringAt(m', view, virt, s)
  {
    WroteBytes(m, m', root, view, virt, s);
    hide ByteAt, SameLayout, TreeOk, View;
    forall v: nat ensures ReadsAt(m', view, virt, s + [0], v) {
      assert ReadsAt(m', view, virt, s, v) && WroteAt(m, m', view, virt, s, v) && ZeroAt(m, view, virt + |s| + 1, v);
    }
  }

  lemma StackPrivate(m: Mem, root: nat, view: map<nat, Leaf>, virt: nat, n: nat)
    requires Ready(m, root, view) && STACK_BASE <= virt && virt + n <= USER_STACK_TOP
    ensures forall v: nat :: virt <= v < virt + n ==> Private(m, view, v / PAGE_SIZE)
    ensures RangeMapped(view.Keys, virt, n)
  {
    hide TreeOk, View;
    forall v: nat | virt <= v < virt + n ensures Private(m, view, v / PAGE_SIZE) && v / PAGE_SIZE in view.Keys {
      assert BASE_PAGE <= v / PAGE_SIZE < TOP_PAGE;
    }
  }

  lemma ReadyKept(m: Mem, m': Mem, root: nat, view: map<nat, Leaf>)
    requires Ready(m, root, view) && SameLayout(m, m', view)
    ensures Ready(m', root, view)
  {
    LayoutTables(m, m', root);
    hide TreeOk, View, Frames, SameLayout, Private;
    forall w: nat | BASE_PAGE <= w < TOP_PAGE ensures Private(m', view, w) {
      assert Private(m, view, w);
      LayoutPrivate(m, m', view, w);
    }
  }

  /** `write_at`, for an address the builder reaches. */
  method Put(vm: Vmm, root: nat, virt: nat, data: seq<byte>, ghost view: map<nat, Leaf>) returns (ok: bool)
    requires vm.Valid() && Ready(vm.mem, root, view) && virt + |data| <= USER_STACK_TOP
    modifies vm`mem
    ensures vm.Valid() && Ready(vm.mem, root, view)
    ensures ok <==> RangeMapped(view.Keys, virt, |data|)
    ensures SameLayout(old(vm.mem), vm.mem, view)
    ensures STACK_BASE <= virt ==> ok && Wrote(old(vm.mem), vm.mem, view, virt, data)
  {
    hide BuddyAllocator.Valid, FreeFrames, PageFrames, TreeOk, Frames, View, Wrote, Poked, Private;
    var written, done := WriteAt(vm, root, virt, data);
    ok := written;
    ReadyKept(old(vm.mem), vm.mem, root, view);
    if STACK_BASE <= virt {
      StackPrivate(old(vm.mem), root, view, virt, |data|);
      assert data[..|data|] == data;
      PokedPrivate(old(vm.mem), view, virt, data);
    }
  }

  // ----- strings

  function TotalSize(strings: seq<seq<byte>>): nat {
    if strings == [] then 0 else |strings[0]| + 1 + TotalSize(strings[1..])
  }

  /** Each pointer leads, at or above the cursor, to its string. */
  ghost predicate StringsAt(m: Mem, view: map<nat, Leaf>, cursor: nat, ptrs: seq<nat>, strings: seq<seq<byte>>) {
    && |ptrs| == |strings|
    && forall k :: 0 <= k < |ptrs| ==> cursor <= ptrs[k] < USER_STACK_TOP && StringAt(m, view, ptrs[k], strings[k])
  }

  lemma KeptStrings(m: Mem, m': Mem, view: map<nat, Leaf>, cursor: nat, below: nat, ptrs: seq<nat>,
                    strings: seq<seq<byte>>)
    requires StringsAt(m, view, cursor, ptrs, strings) && Kept(m, m', view, below, cursor) && below <= cursor
    ensures StringsAt(m', view, below, ptrs, strings)
  {
    hide BytesAt, Kept;
    forall k | 0 <= k < |ptrs| ensures below <= ptrs[k] < USER_STACK_TOP && StringAt(m', view, ptrs[k], strings[k]) {
      KeptBytes(m, m', view, below, cursor, ptrs[k], strings[k] + [0]);
    }
  }

  /** Writes one string and its terminator's place below the cursor. */
  method PushString(vm: Vmm, root: nat, top: nat, s: seq<byte>, ghost view: map<nat, Leaf>) returns (ok: bool, ptr: nat)
    requires vm.Valid() && Ready(vm.mem, root, view) && |s| + 1 <= top <= USER_STACK_TOP
    modifies vm`mem
    ensures vm.Valid() && Ready(vm.mem, root, view) && ptr == top - |s| - 1
    ensures ok <==> RangeMapped(view.Keys, ptr, |s|)
    ensures SameLayout(old(vm.mem), vm.mem, view)
    ensures STACK_BASE <= ptr ==> ok && Kept(old(vm.mem), vm.mem, view, ptr, top)
    ensures STACK_BASE <= ptr && old(ZeroBelow(vm.mem, view, top)) ==>
      ZeroBelow(vm.mem, view, ptr) && StringAt(vm.mem, view, ptr, s)
  {
    hide BuddyAllocator.Valid, FreeFrames, PageFrames, Ready, Wrote, ZeroBelow, Kept, StringAt, RangeMapped,
      SameLayout;
    ptr := top - |s| - 1;
    ok := Put(vm, root, ptr, s, view);
    if STACK_BASE <= ptr {
      WroteBelow(old(vm.mem), vm.mem, view, ptr, s, top);
      if ZeroBelow(old(vm.mem), view, top) {
        WroteString(old(vm.mem), vm.mem, root, view, ptr, s);
      }
    }
  }

  ghost predicate UserPointers(ptrs: seq<nat>) {
    forall k :: 0 <= k < |ptrs| ==> ptrs[k] < USER_STACK_TOP
  }

  /** Every string, the last just below `top` and the others below it in turn, lies on the given pages; the
      terminators, which are not written, need not. */
  ghost predicate StringsMapped(pages: set<nat>, top: int, strings: seq<seq<byte>>) {
    strings != [] ==>
      var n := |strings| - 1;
      var ptr := top - |strings[n]| - 1;
      ptr >= 0 && RangeMapped(pages, ptr, |strings[n]|) && StringsMapped(pages, ptr, strings[..n])
  }

  lemma StringsMore(m: Mem, view: map<nat, Leaf>, ptr: nat, ptrs: seq<nat>, strings: seq<seq<byte>>, i: nat)
    requires i < |strings| && StringsAt(m, view, ptr, ptrs, strings[i + 1..]) && StringAt(m, view, ptr, strings[i])
    requires ptr < USER_STACK_TOP
    ensures StringsAt(m, view, ptr, [ptr] + ptrs, strings[i..])
  {
    hide StringAt;
    forall k | 0 <= k < |ptrs| + 1
      ensures ptr <= ([ptr] + ptrs)[k] < USER_STACK_TOP && StringAt(m, view, ([ptr] + ptrs)[k], strings[i..][k])
    {
      if k > 0 { assert strings[i..][k] == strings[i + 1..][k - 1]; }
    }
  }

  /** One more string below those that are there. */
  lemma PushedMore(m0: Mem, m1: Mem, m2: Mem, view: map<nat, Leaf>, top: nat, cursor: nat, ptr: nat, ptrs: seq<nat>,
                   strings: seq<seq<byte>>, i: nat)
    requires i < |strings| && ptr <= cursor <= top && ptr < USER_STACK_TOP
    requires Kept(m0, m1, view, cursor, top) && Kept(m1, m2, view, ptr, cursor)
    requires StringsAt(m1, view, cursor, ptrs, strings[i + 1..]) && StringAt(m2, view, ptr, strings[i])
    ensures Kept(m0, m2, view, ptr, top) && StringsAt(m2, view, ptr, [ptr] + ptrs, strings[i..])
  {
    hide Kept, StringsAt, StringAt;
    KeptTrans(m0, m1, m2, view, ptr, cursor, top);
    KeptStrings(m1, m2, view, cursor, ptr, ptrs, strings[i + 1..]);
    StringsMore(m2, view, ptr, ptrs, strings, i);
  }

  lemma NoStrings(m: Mem, view: map<nat, Leaf>, cursor: nat, strings: seq<seq<byte>>)
    ensures TotalSize(strings[|strings|..]) == 0 && StringsAt(m, view, cursor, [], strings[|strings|..])
    ensures forall pages: set<nat>, top: int :: StringsMapped(pages, top, strings[..0])
    ensures TotalSize(strings[..0]) == 0
  {
  }

  lemma MappedLast(pages: set<nat>, top: nat, strings: seq<seq<byte>>, i: nat)
    requires i < |strings| && |strings[i]| + 1 <= top
    ensures StringsMapped(pages, top, strings[..i + 1]) <==>
      && RangeMapped(pages, top - |strings[i]| - 1, |strings[i]|)
      && StringsMapped(pages, top - |strings[i]| - 1, strings[..i])
  {
    assert strings[..i + 1][..i] == strings[..i];
  }

  lemma KeptNone(m: Mem, view: map<nat, Leaf>, a: nat)
    ensures Kept(m, m, view, a, a)
  {
    forall v: nat ensures KeptAt(m, m, view, a, a, v) {}
  }

  lemma LayoutNone(m: Mem, view: map<nat, Leaf>)
    ensures SameLayout(m, m, view)
  {
  }

  lemma {:induction false} SizeLast(s: seq<seq<byte>>)
    requires s != []
    ensures TotalSize(s) == TotalSize(s[..|s| - 1]) + |s[|s| - 1]| + 1
  {
    if |s| > 1 {
      SizeLast(s[1..]);
      assert s[1..][..|s| - 2] == s[..|s| - 1][1..];
    }
  }

  lemma SizeSplit(strings: seq<seq<byte>>, i: nat)
    requires i < |strings|
    ensures TotalSize(strings[i..]) == |strings[i]| + 1 + TotalSize(strings[i + 1..])
    ensures TotalSize(strings[..i + 1]) == TotalSize(strings[..i]) + |strings[i]| + 1
  {
    assert strings[i..][1..] == strings[i + 1..];
    SizeLast(strings[..i + 1]);
    assert strings[..i + 1][..i] == strings[..i];
  }

  /** The strings, last first; the pointers come out in the order of the strings. */
  method PushStrings(vm: Vmm, root: nat, top: nat, strings: seq<seq<byte>>, ghost view: map<nat, Leaf>)
    returns (ok: bool, cursor: nat, ptrs: seq<nat>)
    requires vm.Valid() && Ready(vm.mem, root, view) && TotalSize(strings) <= top <= USER_STACK_TOP
    requires STACK_BASE <= top - TotalSize(strings) ==> ZeroBelow(vm.mem, view, top)
    modifies vm`mem
    ensures vm.Valid() && Ready(vm.mem, root, view)
    ensures ok <==> StringsMapped(view.Keys, top, strings)
    ensures ok ==> cursor == top - TotalSize(strings) && |ptrs| == |strings| && UserPointers(ptrs)
    ensures SameLayout(old(vm.mem), vm.mem, view)
    ensures STACK_BASE <= top - TotalSize(strings) ==>
      ok && Kept(old(vm.mem), vm.mem, view, cursor, top) && ZeroBelow(vm.mem, view, cursor)
    ensures STACK_BASE <= top - TotalSize(strings) ==> StringsAt(vm.mem, view, cursor, ptrs, strings)
  {
    hide BuddyAllocator.Valid, FreeFrames, PageFrames, Ready, ZeroBelow, Kept, StringAt, RangeMapped, StringsAt,
      SameLayout, StringsMapped, TotalSize;
    ghost var m0 := vm.mem;
    ghost var fits := STACK_BASE <= top - TotalSize(strings);
    cursor, ptrs := top, [];
    var i := |strings|;
    NoStrings(m0, view, top, strings);
    assert strings[..i] == strings;
    KeptNone(m0, view, top);
    LayoutNone(m0, view);
    while i > 0
      invariant 0 <= i <= |strings| && |ptrs| == |strings| - i && cursor == top - TotalSize(strings[i..])
      invariant TotalSize(strings) == TotalSize(strings[..i]) + TotalSize(strings[i..])
      invariant cursor <= USER_STACK_TOP && UserPointers(ptrs)
      invariant vm.Valid() && Ready(vm.mem, root, view)
      invariant StringsMapped(view.Keys, top, strings) <==> StringsMapped(view.Keys, cursor, strings[..i])
      invariant SameLayout(m0, vm.mem, view)
      invariant fits ==> Kept(m0, vm.mem, view, cursor, top) && ZeroBelow(vm.mem, view, cursor)
      invariant fits ==> StringsAt(vm.mem, view, cursor, ptrs, strings[i..])
    {
      ghost var m1 := vm.mem;
      i := i - 1;
      SizeSplit(strings, i);
      MappedLast(view.Keys, cursor, strings, i);
      var ptr;
      ok, ptr := PushString(vm, root, cursor, strings[i], view);
      LayoutTrans(m0, m1, vm.mem, view);
      if !ok {
        return false, 0, [];
      }
      if fits {
        PushedMore(m0, m1, vm.mem, view, top, cursor, ptr, ptrs, strings, i);
      }
      cursor := ptr;
      ptrs := [ptr] + ptrs;
    }
    assert strings[0..] == strings;
    ok := true;
  }

  // ----- words

  /** The words stand one after the other from `a` on. */
  ghost predicate WordsAt(m: Mem, view: map<nat, Leaf>, a: nat, words: seq<nat>) {
    forall k :: 0 <= k < |words| ==> WordAt(m, view, a + 8 * k, words[k])
  }

  lemma KeptWords(m: Mem, m': Mem, view: map<nat, Leaf>, lo: nat, a: nat, words: seq<nat>)
    requires WordsAt(m, view, a, words) && Kept(m, m', view, lo, a)
    ensures WordsAt(m', view, a, words)
  {
    hide BytesAt, Kept, ToBytes;
    forall k | 0 <= k < |words| ensures WordAt(m', view, a + 8 * k, words[k]) {
      assert WordAt(m, view, a + 8 * k, words[k]);
      KeptBytes(m, m', view, lo, a, a + 8 * k, ToBytes(words[k], 8));
    }
  }

  lemma WordsMore(m: Mem, view: map<nat, Leaf>, a: nat, words: seq<nat>, i: nat)
    requires i < |words| && WordAt(m, view, a, words[i]) && WordsAt(m, view, a + 8, words[i + 1..])
    ensures WordsAt(m, view, a, words[i..])
  {
    hide WordAt;
    forall k | 0 <= k < |words| - i ensures WordAt(m, view, a + 8 * k, words[i..][k]) {
      if k > 0 {
        assert WordAt(m, view, a + 8 + 8 * (k - 1), words[i + 1..][k - 1]);
      }
    }
  }

  /** One `push!`. */
  method PushWord(vm: Vmm, root: nat, top: nat, x: nat, ghost view: map<nat, Leaf>) returns (ok: bool, rsp: nat)
    requires vm.Valid() && Ready(vm.mem, root, view) && 8 <= top <= USER_STACK_TOP && top % 8 == 0 && x < Radix(8)
    modifies vm`mem
    ensures vm.Valid() && Ready(vm.mem, root, view) && rsp == top - 8
    ensures ok <==> RangeMapped(view.Keys, rsp, 8)
    ensures SameLayout(old(vm.mem), vm.mem, view)
    ensures STACK_BASE <= rsp ==> ok && Kept(old(vm.mem), vm.mem, view, rsp, top) && WordAt(vm.mem, view, rsp, x)
  {
    hide BuddyAllocator.Valid, FreeFrames, PageFrames, Ready, Wrote, ZeroBelow, Kept, BytesAt, ToBytes, Radix,
      SameLayout, RangeMapped;
    rsp := top - 8;
    ok := Put(vm, root, rsp, ToBytes(x, 8), view);
    if STACK_BASE <= rsp {
      WroteBelow(old(vm.mem), vm.mem, view, rsp, ToBytes(x, 8), top);
      WroteBytes(old(vm.mem), vm.mem, root, view, rsp, ToBytes(x, 8));
    }
  }

  ghost predicate WordSized(words: seq<nat>) {
    forall k :: 0 <= k < |words| ==> words[k] < Radix(8)
  }

  lemma RangeNone(pages: set<nat>, a: nat)
    ensures RangeMapped(pages, a, 0)
  {
  }

  lemma RangeMore(pages: set<nat>, a: nat, n: nat, k: nat)
    ensures RangeMapped(pages, a, n) && RangeMapped(pages, a + n, k) ==> RangeMapped(pages, a, n + k)
  {
  }

  lemma RangePart(pages: set<nat>, a: nat, n: nat, b: nat, k: nat)
    requires a <= b && b + k <= a + n
    ensures RangeMapped(pages, a, n) ==> RangeMapped(pages, b, k)
  {
  }

  /** The pushes in turn, the last word first. */
  method PushWords(vm: Vmm, root: nat, top: nat, words: seq<nat>, ghost view: map<nat, Leaf>)
    returns (ok: bool, rsp: nat)
    requires vm.Valid() && Ready(vm.mem, root, view) && 8 * |words| <= top <= USER_STACK_TOP && top % 8 == 0
    requires WordSized(words)
    modifies vm`mem
    ensures vm.Valid() && Ready(vm.mem, root, view)
    ensures ok <==> RangeMapped(view.Keys, top - 8 * |words|, 8 * |words|)
    ensures ok ==> rsp == top - 8 * |words|
    ensures SameLayout(old(vm.mem), vm.mem, view)
    ensures STACK_BASE <= top - 8 * |words| ==>
      ok && Kept(old(vm.mem), vm.mem, view, rsp, top) && WordsAt(vm.mem, view, rsp, words)
  {
    hide BuddyAllocator.Valid, FreeFrames, PageFrames, Ready, Kept, WordAt, Radix, RangeMapped, SameLayout;
    ghost var m0 := vm.mem;
    ghost var fits := STACK_BASE <= top - 8 * |words|;
    rsp := top;
    var i := |words|;
    KeptNone(m0, view, top);
    LayoutNone(m0, view);
    RangeNone(view.Keys, top);
    while i > 0
      invariant 0 <= i <= |words| && rsp == top - 8 * (|words| - i)
      invariant vm.Valid() && Ready(vm.mem, root, view)
      invariant RangeMapped(view.Keys, rsp, top - rsp)
      invariant SameLayout(m0, vm.mem, view)
      invariant fits ==> Kept(m0, vm.mem, view, rsp, top) && WordsAt(vm.mem, view, rsp, words[i..])
    {
      ghost var m1 := vm.mem;
      i := i - 1;
      var top1 := rsp;
      ok, rsp := PushWord(vm, root, top1, words[i], view);
      LayoutTrans(m0, m1, vm.mem, view);
      RangeMore(view.Keys, rsp, 8, top - top1);
      if !ok {
        RangePart(view.Keys, top - 8 * |words|, 8 * |words|, rsp, 8);
        return;
      }
      if fits {
        KeptTrans(m0, m1, vm.mem, view, rsp, top1, top);
        KeptWords(m1, vm.mem, view, rsp, top1, words[i + 1..]);
        WordsMore(vm.mem, view, rsp, words, i);
      }
    }
    assert words[0..] == words;
    ok := true;
  }

  // ----- the whole stack

  const RANDOM_BYTES: seq<byte> := [0xDE, 0xAD, 0xBE, 0xEF, 0xCA, 0xFE, 0xBA, 0xBE, 0x13, 0x37, 0x42, 0x00, 0x11, 0x22,
                                    0x33, 0x44]

  const AT_NULL: nat := 0
  const AT_PHDR: nat := 3
  const AT_PHENT: nat := 4
  const AT_PHNUM: nat := 5
  const AT_PAGESZ: nat := 6
  const AT_BASE: nat := 7
  const AT_FLAGS: nat := 8
  const AT_ENTRY: nat := 9
  const AT_UID: nat := 11
  const AT_EUID: nat := 12
  const AT_GID: nat := 13
  const AT_EGID: nat := 14
  const AT_RANDOM: nat := 25
  const AT_EXECFN: nat := 31

  /** The auxiliary vector, lowest address first. */
  function Auxv(loaded: LoadedElf, randomPtr: nat, execfnPtr: nat): (r: seq<nat>)
    ensures |r| == 28
  {
    [AT_UID, 0, AT_EUID, 0, AT_GID, 0, AT_EGID, 0, AT_PHDR, loaded.phdrVaddr, AT_PHENT, loaded.phent, AT_PHNUM,
     loaded.phnum,
     AT_PAGESZ, PAGE_SIZE, AT_BASE, loaded.loadBase, AT_FLAGS, 0, AT_ENTRY, loaded.entry, AT_RANDOM, randomPtr,
     AT_EXECFN, execfnPtr, AT_NULL, 0]
  }

  /** Where the strings end, before alignment. */
  function StringsEnd(argv: seq<seq<byte>>, envp: seq<seq<byte>>, execfn: seq<byte>): int {
    USER_STACK_TOP - 16 - (|execfn| + 1) - TotalSize(argv) - TotalSize(envp)
  }

  /** The stack pointer the program starts with. */
  function InitialRsp(argv: seq<seq<byte>>, envp: seq<seq<byte>>, execfn: seq<byte>): int {
    StringsEnd(argv, envp, execfn) / 16 * 16 - 8 * (31 + |argv| + |envp|)
  }

  ghost predicate ArrayAt(m: Mem, view: map<nat, Leaf>, a: nat, strings: seq<seq<byte>>) {
    exists ptrs :: PointersAt(m, view, a, ptrs, strings)
  }

  ghost predicate AuxAt(m: Mem, view: map<nat, Leaf>, a: nat, loaded: LoadedElf, randomPtr: nat, execfnPtr: nat,
                        execfn: seq<byte>) {
    && WordsAt(m, view, a, Auxv(loaded, randomPtr, execfnPtr))
    && BytesAt(m, view, randomPtr, RANDOM_BYTES) && StringAt(m, view, execfnPtr, execfn)
  }

  ghost predicate AuxvAt(m: Mem, view: map<nat, Leaf>, a: nat, loaded: LoadedElf, execfn: seq<byte>) {
    exists randomPtr, execfnPtr :: AuxAt(m, view, a, loaded, randomPtr, execfnPtr, execfn)
  }

  /** What a program finds at its stack pointer: the argument count, the argument and environment
      pointers with their strings, and the auxiliary vector. */
  ghost predicate StackImage(m: Mem, view: map<nat, Leaf>, rsp: nat, loaded: LoadedElf, argv: seq<seq<byte>>,
                             envp: seq<seq<byte>>, execfn: seq<byte>)
  {
    && WordAt(m, view, rsp, |argv|)
    && ArrayAt(m, view, rsp + 8, argv)
    && ArrayAt(m, view, rsp + 16 + 8 * |argv|, envp)
    && AuxvAt(m, view, rsp + 24 + 8 * |argv| + 8 * |envp|, loaded, execfn)
  }

  function StackWords(argvPtrs: seq<nat>, envpPtrs: seq<nat>, aux: seq<nat>): (r: seq<nat>)
    ensures |r| == 3 + |argvPtrs| + |envpPtrs| + |aux|
  {
    [|argvPtrs|] + argvPtrs + [0] + envpPtrs + [0] + aux
  }

  lemma {:induction false} WordsPart(m: Mem, view: map<nat, Leaf>, a: nat, words: seq<nat>, i: nat, j: nat)
    requires WordsAt(m, view, a, words) && i <= j <= |words|
    ensures WordsAt(m, view, a + 8 * i, words[i..j])
  {
    hide WordAt;
    forall k | 0 <= k < j - i ensures WordAt(m, view, a + 8 * i + 8 * k, words[i..j][k]) {
      assert WordAt(m, view, a + 8 * (i + k), words[i + k]);
    }
  }

  lemma PointersFrom(m: Mem, view: map<nat, Leaf>, a: nat, cursor: nat, ptrs: seq<nat>, strings: seq<seq<byte>>)
    requires WordsAt(m, view, a, ptrs + [0]) && StringsAt(m, view, cursor, ptrs, strings) && cursor > 0
    ensures PointersAt(m, view, a, ptrs, strings)
  {
    hide WordAt, StringAt;
    forall i | 0 <= i < |ptrs| ensures WordAt(m, view, a + 8 * i, ptrs[i]) {
      assert (ptrs + [0])[i] == ptrs[i];
    }
    assert (ptrs + [0])[|ptrs|] == 0;
  }

  /** The strings and the random bytes stand at or above the cursor. */
  ghost predicate Placed(m: Mem, view: map<nat, Leaf>, cursor: nat, argv: seq<seq<byte>>, envp: seq<seq<byte>>,
                         execfn: seq<byte>, randomPtr: nat, execfnPtr: nat, argvPtrs: seq<nat>, envpPtrs: seq<nat>)
  {
    && StringsAt(m, view, cursor, argvPtrs, argv) && StringsAt(m, view, cursor, envpPtrs, envp)
    && cursor <= randomPtr < USER_STACK_TOP && BytesAt(m, view, randomPtr, RANDOM_BYTES)
    && cursor <= execfnPtr < USER_STACK_TOP && StringAt(m, view, execfnPtr, execfn)
  }

  lemma KeptPlaced(m: Mem, m': Mem, view: map<nat, Leaf>, cursor: nat, below: nat, argv: seq<seq<byte>>,
                   envp: seq<seq<byte>>,
                   execfn: seq<byte>, randomPtr: nat, execfnPtr: nat, argvPtrs: seq<nat>, envpPtrs: seq<nat>)
    requires Placed(m, view, cursor, argv, envp, execfn, randomPtr, execfnPtr, argvPtrs, envpPtrs)
    requires Kept(m, m', view, below, cursor) && below <= cursor
    ensures Placed(m', view, below, argv, envp, execfn, randomPtr, execfnPtr, argvPtrs, envpPtrs)
  {
    hide Kept, StringsAt, BytesAt;
    KeptStrings(m, m', view, cursor, below, argvPtrs, argv);
    KeptStrings(m, m', view, cursor, below, envpPtrs, envp);
    KeptBytes(m, m', view, below, cursor, randomPtr, RANDOM_BYTES);
    KeptBytes(m, m', view, below, cursor, execfnPtr, execfn + [0]);
  }

  lemma ImageFrom(m: Mem, view: map<nat, Leaf>, rsp: nat, cursor: nat, loaded: LoadedElf, argv: seq<seq<byte>>,
                  envp: seq<seq<byte>>, execfn: seq<byte>, randomPtr: nat, execfnPtr: nat, ap: seq<nat>, ep: seq<nat>)
    requires WordsAt(m, view, rsp, StackWords(ap, ep, Auxv(loaded, randomPtr, execfnPtr))) && cursor > 0
    requires Placed(m, view, cursor, argv, envp, execfn, randomPtr, execfnPtr, ap, ep)
    ensures StackImage(m, view, rsp, loaded, argv, envp, execfn)
  {
    hide WordAt, StringAt, BytesAt, Auxv;
    var aux := Auxv(loaded, randomPtr, execfnPtr);
    var words := StackWords(ap, ep, aux);
    var n, e := |argv|, |envp|;
    assert words[0] == n;
    assert WordAt(m, view, rsp + 8 * 0, words[0]);
    WordsPart(m, view, rsp, words, 1, n + 2);
    assert words[1..n + 2] == ap + [0];
    PointersFrom(m, view, rsp + 8, cursor, ap, argv);
    var b := rsp + 16 + 8 * n;
    WordsPart(m, view, rsp, words, n + 2, n + e + 3);
    assert words[n + 2..n + e + 3] == ep + [0];
    PointersFrom(m, view, b, cursor, ep, envp);
    var c := rsp + 24 + 8 * n + 8 * e;
    WordsPart(m, view, rsp, words, n + e + 3, |words|);
    assert words[n + e + 3..|words|] == aux;
    assert AuxAt(m, view, c, loaded, randomPtr, execfnPtr, execfn);
  }

  /** The strings lie on the given pages: first the program's name, below it the arguments, then the
      environment. */
  ghost predicate PlacesMapped(pages: set<nat>, argv: seq<seq<byte>>, envp: seq<seq<byte>>, execfn: seq<byte>)
    requires 0 <= StringsEnd(argv, envp, execfn)
  {
    var a := USER_STACK_TOP - 16 - (|execfn| + 1);
    RangeMapped(pages, a, |execfn|) && StringsMapped(pages, a, argv) && StringsMapped(pages, a - TotalSize(argv), envp)
  }

  /** Every byte that the builder writes lies on the given pages. */
  ghost predicate WritesMapped(pages: set<nat>, argv: seq<seq<byte>>, envp: seq<seq<byte>>, execfn: seq<byte>)
    requires 0 <= InitialRsp(argv, envp, execfn)
  {
    PlacesMapped(pages, argv, envp, execfn)
    && RangeMapped(pages, InitialRsp(argv, envp, execfn), 8 * (31 + |argv| + |envp|))
  }

  predicate OnStackPage(w: nat) {
    BASE_PAGE <= w < TOP_PAGE
  }

  function StackPages(): set<nat> {
    set w: nat | BASE_PAGE <= w < TOP_PAGE && OnStackPage(w)
  }

  lemma OnStack(pages: set<nat>, a: nat, n: nat)
    requires StackPages() <= pages && STACK_BASE <= a && a + n <= USER_STACK_TOP
    ensures RangeMapped(pages, a, n)
  {
    forall v: nat | a <= v < a + n ensures v / PAGE_SIZE in pages {
      assert v / PAGE_SIZE in StackPages();
    }
  }

  lemma {:induction false} StringsOnStack(pages: set<nat>, top: nat, strings: seq<seq<byte>>)
    requires StackPages() <= pages && STACK_BASE <= top - TotalSize(strings) && top <= USER_STACK_TOP
    ensures StringsMapped(pages, top, strings)
    decreases |strings|
  {
    if strings != [] {
      var n := |strings| - 1;
      SizeLast(strings);
      OnStack(pages, top - |strings[n]| - 1, |strings[n]|);
      StringsOnStack(pages, top - |strings[n]| - 1, strings[..n]);
    }
  }

  /** What fits into the committed pages is on mapped pages; what does not fit is not, unless other pages
      are mapped below them. */
  lemma StackFits(pages: set<nat>, argv: seq<seq<byte>>, envp: seq<seq<byte>>, execfn: seq<byte>)
    requires 0 <= InitialRsp(argv, envp, execfn) && StackPages() <= pages
    ensures STACK_BASE <= InitialRsp(argv, envp, execfn) ==> WritesMapped(pages, argv, envp, execfn)
    ensures (forall w: nat :: InitialRsp(argv, envp, execfn) / PAGE_SIZE <= w < BASE_PAGE ==> w !in pages) ==>
      (WritesMapped(pages, argv, envp, execfn) <==> STACK_BASE <= InitialRsp(argv, envp, execfn))
  {
    var rsp: nat := InitialRsp(argv, envp, execfn);
    if STACK_BASE <= rsp {
      var a := USER_STACK_TOP - 16 - (|execfn| + 1);
      OnStack(pages, rsp, 8 * (31 + |argv| + |envp|));
      OnStack(pages, a, |execfn|);
      StringsOnStack(pages, a, argv);
      StringsOnStack(pages, a - TotalSize(argv), envp);
    } else if WritesMapped(pages, argv, envp, execfn) {
      assert rsp / PAGE_SIZE in pages;
    }
  }

  lemma PlacedAll(m0: Mem, m1: Mem, m2: Mem, m3: Mem, m4: Mem, view: map<nat, Leaf>, cursor3: nat, cursor: nat,
                  argv: seq<seq<byte>>, envp: seq<seq<byte>>, execfn: seq<byte>, randomPtr: nat, execfnPtr: nat,
                  argvPtrs: seq<nat>, envpPtrs: seq<nat>)
    requires Kept(m0, m1, view, randomPtr, USER_STACK_TOP)
    requires BytesAt(m1, view, randomPtr, RANDOM_BYTES) && Kept(m1, m2, view, execfnPtr, randomPtr)
    requires StringAt(m2, view, execfnPtr, execfn) && Kept(m2, m3, view, cursor3, execfnPtr)
    requires StringsAt(m3, view, cursor3, argvPtrs, argv) && Kept(m3, m4, view, cursor, cursor3)
    requires StringsAt(m4, view, cursor, envpPtrs, envp)
    requires cursor <= cursor3 <= execfnPtr <= randomPtr < USER_STACK_TOP
    ensures Placed(m4, view, cursor, argv, envp, execfn, randomPtr, execfnPtr, argvPtrs, envpPtrs)
    ensures Kept(m0, m4, view, cursor, USER_STACK_TOP)
  {
    hide Kept, StringsAt, BytesAt;
    KeptTrans(m2, m3, m4, view, cursor, cursor3, execfnPtr);
    KeptBytes(m2, m4, view, cursor, execfnPtr, execfnPtr, execfn + [0]);
    KeptTrans(m1, m2, m4, view, cursor, execfnPtr, randomPtr);
    KeptBytes(m1, m4, view, cursor, randomPtr, randomPtr, RANDOM_BYTES);
    KeptTrans(m0, m1, m4, view, cursor, randomPtr, USER_STACK_TOP);
    KeptStrings(m3, m4, view, cursor3, cursor, argvPtrs, argv);
  }

  /** The random bytes and all the strings. */
  method PlaceStrings(vm: Vmm, root: nat, argv: seq<seq<byte>>, envp: seq<seq<byte>>, execfn: seq<byte>,
                      ghost view: map<nat, Leaf>)
    returns (ok: bool, cursor: nat, randomPtr: nat, execfnPtr: nat, argvPtrs: seq<nat>, envpPtrs: seq<nat>)
    requires vm.Valid() && Ready(vm.mem, root, view) && ZeroBelow(vm.mem, view, USER_STACK_TOP)
    requires 0 <= StringsEnd(argv, envp, execfn)
    modifies vm`mem
    ensures vm.Valid() && Ready(vm.mem, root, view)
    ensures ok <==> PlacesMapped(view.Keys, argv, envp, execfn)
    ensures ok ==> cursor == StringsEnd(argv, envp, execfn)
    ensures SameLayout(old(vm.mem), vm.mem, view)
    ensures STACK_BASE <= StringsEnd(argv, envp, execfn) ==>
      && ok && Placed(vm.mem, view, cursor, argv, envp, execfn, randomPtr, execfnPtr, argvPtrs, envpPtrs)
      && Kept(old(vm.mem), vm.mem, view, cursor, USER_STACK_TOP) && ZeroBelow(vm.mem, view, cursor)
    ensures ok ==> |argvPtrs| == |argv| && |envpPtrs| == |envp| && UserPointers(argvPtrs) && UserPointers(envpPtrs)
    ensures ok ==> randomPtr < USER_STACK_TOP && execfnPtr < USER_STACK_TOP
  {
    hide BuddyAllocator.Valid, FreeFrames, PageFrames, Ready, ZeroBelow, Kept, StringsAt, StringAt, BytesAt, Placed,
      Wrote, RangeMapped, StringsMapped, SameLayout, TotalSize;
    cursor := USER_STACK_TOP - 16;
    ghost var fits := STACK_BASE <= StringsEnd(argv, envp, execfn);
    randomPtr, execfnPtr, argvPtrs, envpPtrs := cursor, 0, [], [];
    ghost var m0 := vm.mem;
    ok := Put(vm, root, cursor, RANDOM_BYTES, view);
    ghost var m1 := vm.mem;
    WroteBelow(m0, m1, view, randomPtr, RANDOM_BYTES, USER_STACK_TOP);
    WroteBytes(m0, m1, root, view, randomPtr, RANDOM_BYTES);
    ok, execfnPtr := PushString(vm, root, cursor, execfn, view);
    LayoutTrans(m0, m1, vm.mem, view);
    if !ok {
      return;
    }
    ghost var m2 := vm.mem;
    ok, cursor, argvPtrs := PushStrings(vm, root, execfnPtr, argv, view);
    LayoutTrans(m0, m2, vm.mem, view);
    if !ok {
      return;
    }
    ghost var m3, cursor3 := vm.mem, cursor;
    ok, cursor, envpPtrs := PushStrings(vm, root, cursor, envp, view);
    LayoutTrans(m0, m3, vm.mem, view);
    if fits {
      PlacedAll(m0, m1, m2, m3, vm.mem, view, cursor3, cursor, argv, envp, execfn, randomPtr, execfnPtr, argvPtrs,
                envpPtrs);
    }
  }

  ghost predicate WordFields(loaded: LoadedElf) {
    && loaded.phdrVaddr < Radix(8) && loaded.phent < Radix(8) && loaded.phnum < Radix(8) && loaded.loadBase < Radix(8)
    && loaded.entry < Radix(8)
  }

  lemma Radix8()
    ensures Radix(8) == 0x1_0000_0000_0000_0000
  {
    assert Radix(4) == 0x1_0000_0000;
  }

  lemma WordSizedAux(loaded: LoadedElf, randomPtr: nat, execfnPtr: nat)
    requires WordFields(loaded) && randomPtr < USER_STACK_TOP && execfnPtr < USER_STACK_TOP
    ensures WordSized(Auxv(loaded, randomPtr, execfnPtr))
  {
    Radix8();
    hide Radix;
  }

  lemma StackWordsSized(loaded: LoadedElf, randomPtr: nat, execfnPtr: nat, argvPtrs: seq<nat>, envpPtrs: seq<nat>)
    requires WordFields(loaded) && randomPtr < USER_STACK_TOP && execfnPtr < USER_STACK_TOP
    requires UserPointers(argvPtrs) && UserPointers(envpPtrs) && |argvPtrs| < USER_STACK_TOP
    ensures WordSized(StackWords(argvPtrs, envpPtrs, Auxv(loaded, randomPtr, execfnPtr)))
  {
    WordSizedAux(loaded, randomPtr, execfnPtr);
    Radix8();
    hide Radix, Auxv;
  }

  /** The part of `build_user_stack` after the stack is committed. */
  method FillStack(vm: Vmm, root: nat, loaded: LoadedElf, argv: seq<seq<byte>>, envp: seq<seq<byte>>, execfn: seq<byte>,
                   ghost view: map<nat, Leaf>)
    returns (rsp: Option<nat>)
    requires vm.Valid() && Ready(vm.mem, root, view) && ZeroBelow(vm.mem, view, USER_STACK_TOP) && WordFields(loaded)
    requires 0 <= InitialRsp(argv, envp, execfn)
    modifies vm`mem
    ensures vm.Valid() && Ready(vm.mem, root, view) && SameLayout(old(vm.mem), vm.mem, view)
    ensures rsp.Some? <==> WritesMapped(view.Keys, argv, envp, execfn)
    ensures rsp.Some? ==> rsp.value == InitialRsp(argv, envp, execfn)
    ensures STACK_BASE <= InitialRsp(argv, envp, execfn) ==>
      && rsp.Some? && StackImage(vm.mem, view, rsp.value, loaded, argv, envp, execfn)
      && Kept(old(vm.mem), vm.mem, view, rsp.value, USER_STACK_TOP) && ZeroBelow(vm.mem, view, rsp.value)
  {
    hide BuddyAllocator.Valid, FreeFrames, PageFrames, Ready, ZeroBelow, Kept, WordsAt, Placed, Radix, StackImage,
      Auxv, StackWords, TotalSize, RangeMapped, PlacesMapped, SameLayout;
    var ok, cursor, randomPtr, execfnPtr, argvPtrs, envpPtrs := PlaceStrings(vm, root, argv, envp, execfn, view);
    if !ok {
      return None;
    }
    ghost var m0, m1 := old(vm.mem), vm.mem;
    var top := cursor / 16 * 16;
    var words := StackWords(argvPtrs, envpPtrs, Auxv(loaded, randomPtr, execfnPtr));
    StackWordsSized(loaded, randomPtr, execfnPtr, argvPtrs, envpPtrs);
    var sp;
    ok, sp := PushWords(vm, root, top, words, view);
    LayoutTrans(m0, m1, vm.mem, view);
    if !ok {
      return None;
    }
    if STACK_BASE <= InitialRsp(argv, envp, execfn) {
      KeptZero(m1, vm.mem, view, sp, top, cursor);
      KeptWider(m1, vm.mem, view, sp, top, sp, cursor);
      KeptTrans(m0, m1, vm.mem, view, sp, cursor, USER_STACK_TOP);
      KeptPlaced(m1, vm.mem, view, cursor, sp, argv, envp, execfn, randomPtr, execfnPtr, argvPtrs, envpPtrs);
      ImageFrom(vm.mem, view, sp, sp, loaded, argv, envp, execfn, randomPtr, execfnPtr, argvPtrs, envpPtrs);
    }
    return Some(sp);
  }

  ghost predicate SameByte(m0: Mem, view0: map<nat, Leaf>, m: Mem, view: map<nat, Leaf>, v: nat) {
    (v / PAGE_SIZE < BASE_PAGE || TOP_PAGE <= v / PAGE_SIZE) && v / PAGE_SIZE in view ==>
      v / PAGE_SIZE in view0 && ByteAt(m, view, v) == ByteAt(m0, view0, v)
  }

  /** Outside the stack pages every mapped byte is as before. */
  ghost predicate SameBytes(m0: Mem, view0: map<nat, Leaf>, m: Mem, view: map<nat, Leaf>) {
    forall v: nat :: SameByte(m0, view0, m, view, v)
  }

  ghost predicate SameOutside(view: map<nat, Leaf>, view': map<nat, Leaf>) {
    forall w: nat :: w < BASE_PAGE || w >= TOP_PAGE ==>
      (w in view' <==> w in view) && (w in view' ==> view'[w] == view[w])
  }

  lemma StackKept(m0: Mem, view0: map<nat, Leaf>, m1: Mem, m2: Mem, view: map<nat, Leaf>, rsp: nat)
    requires Committed(m0, view0, m1, view, 16) && Kept(m1, m2, view, rsp, USER_STACK_TOP) && STACK_BASE <= rsp
    ensures SameBytes(m0, view0, m2, view)
  {
    forall v: nat ensures SameByte(m0, view0, m2, view, v) {
      var w := v / PAGE_SIZE;
      if (w < BASE_PAGE || TOP_PAGE <= w) && w in view {
        assert KeptAt(m1, m2, view, rsp, USER_STACK_TOP, v);
        assert view[w] == view0[w] && SameFrame(m0, m1, view[w].pfn);
        FrameByte(view[w].pfn, v);
      }
    }
  }

  lemma CommittedReady(m0: Mem, m: Mem, root: nat, view0: map<nat, Leaf>, view: map<nat, Leaf>)
    requires UserTree(m, root) && view == UserView(m, root) && Committed(m0, view0, m, view, 16)
    ensures view.Keys == view0.Keys + StackPages()
    ensures Ready(m, root, view) && ZeroBelow(m, view, USER_STACK_TOP) && SameOutside(view0, view)
    ensures forall w: nat :: BASE_PAGE <= w < TOP_PAGE ==> StackRights(view, w)
  {
    hide TreeOk, View;
    forall w: nat | BASE_PAGE <= w < TOP_PAGE ensures Private(m, view, w) { assert FreshPage(m, view, w); }
    forall w: nat ensures w in view.Keys <==> w in view0.Keys || w in StackPages() {
      assert BASE_PAGE <= w < TOP_PAGE ==> Private(m, view, w) && OnStackPage(w);
    }
    forall v: nat ensures ZeroAt(m, view, USER_STACK_TOP, v) {
      if STACK_BASE <= v < USER_STACK_TOP {
        var w := v / PAGE_SIZE;
        assert FreshPage(m, view, w);
        FrameByte(view[w].pfn, v);
      }
    }
  }

  lemma ReadyIs(m: Mem, root: nat, view: map<nat, Leaf>)
    requires Ready(m, root, view)
    ensures UserTree(m, root) && UserView(m, root) == view
  {
  }

  /** `build_user_stack`.  It succeeds exactly when the stack can be committed and every byte it writes is
      mapped, and what fits into the committed pages makes the image and changes nothing else.  Should it
      overrun them and find other pages mapped below, it goes on writing there. */
  method BuildUserStack(vm: Vmm, root: nat, loaded: LoadedElf, argv: seq<seq<byte>>, envp: seq<seq<byte>>,
                        execfn: seq<byte>)
    returns (rsp: Option<nat>)
    requires vm.Valid() && UserTree(vm.mem, root) && LeafPages(vm.mem, UserView(vm.mem, root)) && WordFields(loaded)
    requires 0 <= InitialRsp(argv, envp, execfn)
    modifies vm`mem, vm.pmm
    ensures vm.Valid() && UserTree(vm.mem, root)
    ensures rsp.Some? <==>
      && 16 + old(Missing(vm.mem, 4, root, BASE_PAGE)) <= old(|vm.Free()|)
      && WritesMapped(old(UserView(vm.mem, root)).Keys + StackPages(), argv, envp, execfn)
    ensures rsp.Some? ==>
      && rsp.value == InitialRsp(argv, envp, execfn)
      && SameOutside(old(UserView(vm.mem, root)), UserView(vm.mem, root))
      && forall w: nat :: BASE_PAGE <= w < TOP_PAGE ==> StackRights(UserView(vm.mem, root), w)
    ensures rsp.Some? && STACK_BASE <= InitialRsp(argv, envp, execfn) ==>
      && StackImage(vm.mem, UserView(vm.mem, root), rsp.value, loaded, argv, envp, execfn)
      && ZeroBelow(vm.mem, UserView(vm.mem, root), rsp.value)
      && SameBytes(old(vm.mem), old(UserView(vm.mem, root)), vm.mem, UserView(vm.mem, root))
    ensures Confined(old(vm.mem), old(vm.Free()), old(PageFrames(vm.pmm.tags)), vm.mem, vm.Free(),
                     PageFrames(vm.pmm.tags), root)
  {
    hide BuddyAllocator.Valid, FreeFrames, PageFrames, UserTree, UserView, Missing, Committed, Ready, ZeroBelow, Kept,
      StackImage, SameOutside, LeafPages, TotalSize, StackRights, WritesMapped, Confined, SameBytes, SameLayout;
    ghost var m0, f0, g0, view0 := vm.mem, vm.Free(), PageFrames(vm.pmm.tags), UserView(vm.mem, root);
    var ok := MapUserStack(vm, root);
    if !ok {
      return None;
    }
    ghost var m1, view := vm.mem, UserView(vm.mem, root);
    CommittedReady(m0, vm.mem, root, view0, view);
    rsp := FillStack(vm, root, loaded, argv, envp, execfn, view);
    ReadyIs(vm.mem, root, view);
    LayoutConfined(m1, vm.mem, root, vm.Free(), PageFrames(vm.pmm.tags));
    ConfinedTrans(m0, f0, g0, m1, vm.Free(), PageFrames(vm.pmm.tags), vm.mem, vm.Free(), PageFrames(vm.pmm.tags), root);
    if rsp.Some? && STACK_BASE <= InitialRsp(argv, envp, execfn) {
      StackKept(m0, view0, m1, vm.mem, view, rsp.value);
    }
  }

  /** The array reader of `execve`, run on the stack just built, returns the arguments and the
      environment if there are fewer of each than it accepts and none is too long, and fails otherwise. */
  lemma StackReadBack(m: Mem, root: nat, rsp: nat, loaded: LoadedElf, argv: seq<seq<byte>>, envp: seq<seq<byte>>,
                      execfn: seq<byte>, max: nat)
    requires UserTree(m, root) && StackImage(m, UserView(m, root), rsp, loaded, argv, envp, execfn)
    ensures UserStrings(m, root, rsp + 8, max) ==
      if |argv| < max && NoneTooLong(argv) then Some(CStrings(argv)) else None
    ensures UserStrings(m, root, rsp + 8 * (|argv| + 2), max) ==
      if |envp| < max && NoneTooLong(envp) then Some(CStrings(envp)) else None
  {
    hide NoneTooLong, CStrings, TreeOk, View, PointersAt, StringsFrom, WordAt, AuxAt;
    var view := UserView(m, root);
    var ap :| PointersAt(m, view, rsp + 8, ap, argv);
    StringsBack(m, root, rsp + 8, ap, argv, max);
    var b := rsp + 16 + 8 * |argv|;
    var ep :| PointersAt(m, view, b, ep, envp);
    StringsBack(m, root, b, ep, envp, max);
  }

  /** The next program is given its own arguments and environment back, terminators added, exactly when the
      strings are plain and fewer than the reader accepts. */
  lemma ArgumentsBack(m: Mem, root: nat, rsp: nat, loaded: LoadedElf, argv: seq<seq<byte>>, envp: seq<seq<byte>>,
                      execfn: seq<byte>, max: nat)
    requires UserTree(m, root) && StackImage(m, UserView(m, root), rsp, loaded, argv, envp, execfn)
    ensures UserStrings(m, root, rsp + 8, max) == Some(Terminated(argv)) <==> |argv| < max && WholeStrings(argv)
    ensures UserStrings(m, root, rsp + 8 * (|argv| + 2), max) == Some(Terminated(envp)) <==>
      |envp| < max && WholeStrings(envp)
  {
    StackReadBack(m, root, rsp, loaded, argv, envp, execfn, max);
    WholeBack(argv);
    WholeBack(envp);
    hide *;
  }

  /** The ABI asks for a stack pointer that is a multiple of 16; the builder aligns the cursor before
      pushing the words, so that holds exactly for an odd number of strings. */
  lemma RspAligned(argv: seq<seq<byte>>, envp: seq<seq<byte>>, execfn: seq<byte>)
    ensures InitialRsp(argv, envp, execfn) % 16 == 0 <==> (|argv| + |envp|) % 2 == 1
  {
    hide StringsEnd;
    var q := StringsEnd(argv, envp, execfn) / 16;
    var n := |argv| + |envp|;
    assert InitialRsp(argv, envp, execfn) == 16 * (q - 16) + 8 - 8 * n;
    if n % 2 == 1 {
      assert n == 2 * (n / 2) + 1;
      assert InitialRsp(argv, envp, execfn) == 16 * (q - 16 - n / 2);
    } else {
      assert n == 2 * (n / 2);
      assert InitialRsp(argv, envp, execfn) == 16 * (q - 16 - n / 2) + 8;
    }
  }
}
