/** Starting a process: a new address space, the program loaded into it, and its first stack. */
module Processes {
  import opened Basics
  import opened Blocks
  import opened Buddy
  import opened PageTables
  import opened Translation
  import opened AccessRights
  import opened TableWalks
  import opened TableNodes
  import opened AddressSpaces
  import opened UserSpaces
  import opened UserMemory
  import opened Exec
  import opened ElfFiles
  import opened ElfLoader
  import opened UserStack
  import opened AuxVectors

  const PIE_BASE: nat := 0x5555_5555_0000

  /** `is_pie`, and the base it selects. */
  function BaseOf(data: seq<byte>): nat {
    if 18 <= |data| && FromBytes(data[16..18]) == ET_DYN then PIE_BASE else 0
  }

  /** A position-independent program is moved to the base, any other stays where it is linked. */
  lemma SlideIs(data: seq<byte>)
    requires CheckHeader(data).None?
    ensures EHDR_SIZE <= |data|
    ensures SlideOf(data, BaseOf(data)) == if Field(data, 16, 2) == 3 then 0x5555_5555_0000 else 0
  {
  }

  datatype Started = Started(root: nat, loaded: LoadedElf, rsp: nat)

  // ----- the pages and tables of a new space

  function SegPageSet(ph: Phdr, slide: nat): set<nat> {
    set w: nat | SegmentStart(ph, slide) <= w < SegmentEnd(ph, slide) && InPages(ph, slide, w)
  }

  /** The pages that the first `i` headers map. */
  function ElfPageSet(phs: seq<Phdr>, slide: nat, i: nat): set<nat>
    requires i <= |phs|
  {
    if i == 0 then {}
    else ElfPageSet(phs, slide, i - 1) + (if Loads(phs[i - 1]) then SegPageSet(phs[i - 1], slide) else {})
  }

  lemma {:induction false} ElfPageSetIs(phs: seq<Phdr>, slide: nat, i: nat, w: nat)
    requires i <= |phs|
    ensures w in ElfPageSet(phs, slide, i) <==> LastMapper(phs, slide, i, w) >= 0
  {
    if i > 0 { ElfPageSetIs(phs, slide, i - 1, w); }
  }

  /** The frames that a process takes: the PML4, the pages of its segments, sixteen stack pages, and every
      table that these pages need, once.  (In empty memory every table is missing.) */
  function StartFrames(phs: seq<Phdr>, slide: nat): nat {
    1 + ElfPages(phs, slide, |phs|) + 16
    + |ElfNodes(map[], 0, phs, slide, |phs|) + PageNodes(map[], 0, BASE_PAGE)|
  }

  /** No page of an empty space has a table below the PML4. */
  lemma EmptySpace(m: Mem, c: nat, w: nat, l: nat)
    requires UserTree(m, c) && UserFrames(m, c) == {c} && w < Limit(USER_SLOTS) && 1 <= l <= 3
    ensures !HasTable(m, c, w, l) && !HasTable(map[], 0, w, l)
  {
    InLimit(w, USER_SLOTS);
    var i := Idx(4, w);
    assert SlotOk(m, 4, c, USER_SLOTS, i);
    if Link(m, 4, c, i) {
      SubInFrames(m, 4, c, USER_SLOTS, i);
      assert false;
    }
  }

  lemma EmptyGained(m: Mem, c: nat)
    requires UserTree(m, c) && UserFrames(m, c) == {c}
    ensures forall w: nat :: w < Limit(USER_SLOTS) ==> PageNodes(m, c, w) == PageNodes(map[], 0, w)
  {
    hide TreeOk, Frames, Limit, HasTable;
    forall w: nat | w < Limit(USER_SLOTS) ensures PageNodes(m, c, w) == PageNodes(map[], 0, w) {
      EmptySpace(m, c, w, 1);
      EmptySpace(m, c, w, 2);
      EmptySpace(m, c, w, 3);
    }
  }

  lemma {:induction false} EmptyRange(m: Mem, c: nat, p: nat, n: nat)
    requires forall w: nat :: w < Limit(USER_SLOTS) ==> PageNodes(m, c, w) == PageNodes(map[], 0, w)
    requires p + n <= Limit(USER_SLOTS)
    ensures RangeNodes(m, c, p, n) == RangeNodes(map[], 0, p, n)
  {
    hide PageNodes, Limit;
    if n > 0 { EmptyRange(m, c, p, n - 1); }
  }

  lemma {:induction false} EmptyElf(m: Mem, c: nat, phs: seq<Phdr>, slide: nat, i: nat)
    requires forall w: nat :: w < Limit(USER_SLOTS) ==> PageNodes(m, c, w) == PageNodes(map[], 0, w)
    requires i <= |phs| && forall j :: 0 <= j < |phs| && Loads(phs[j]) ==> InUserHalf(phs[j], slide)
    ensures ElfNodes(m, c, phs, slide, i) == ElfNodes(map[], 0, phs, slide, i)
  {
    hide PageNodes, Limit, RangeNodes, InUserHalf, SegmentStart, SegPages;
    if i > 0 {
      EmptyElf(m, c, phs, slide, i - 1);
      if Loads(phs[i - 1]) {
        SegmentLimit(phs[i - 1], slide);
        EmptyRange(m, c, SegmentStart(phs[i - 1], slide), SegPages(phs[i - 1], slide));
      }
    }
  }

  // ----- what a started process finds

  ghost predicate ImageAt(data: seq<byte>, phs: seq<Phdr>, slide: nat, m: Mem, view: map<nat, Leaf>, v: nat) {
    var w := v / PAGE_SIZE;
    var j := LastMapper(phs, slide, |phs|, w);
    w < BASE_PAGE || TOP_PAGE <= w ==>
      && (w in view <==> j >= 0)
      && (w in view ==>
           && ByteAt(m, view, v) == LoadedByte(data, phs, slide, |phs|, v, 0)
           && view[w] == MakeLeaf(view[w].pfn, SegFlags(phs[j])))
  }

  /** The program's segments outside the stack pages, the stack in them, zeros below it, and nothing else. */
  ghost predicate ProcessReady(data: seq<byte>, phs: seq<Phdr>, slide: nat, m: Mem, view: map<nat, Leaf>, s: Started,
                        argv: seq<seq<byte>>, envp: seq<seq<byte>>, name: seq<byte>)
  {
    && (forall v: nat :: ImageAt(data, phs, slide, m, view, v))
    && (forall w: nat :: BASE_PAGE <= w < TOP_PAGE ==> StackRights(view, w))
    && StackImage(m, view, s.rsp, s.loaded, argv, envp, name) && ZeroBelow(m, view, s.rsp)
  }

  lemma ReadyFrom(data: seq<byte>, phs: seq<Phdr>, slide: nat, m1: Mem, m2: Mem, view2: map<nat, Leaf>,
                  m3: Mem, view3: map<nat, Leaf>, s: Started, argv: seq<seq<byte>>, envp: seq<seq<byte>>,
                  name: seq<byte>)
    requires ImageLoaded(data, phs, slide, |phs|, m1, map[], m2, view2)
    requires SameOutside(view2, view3) && SameBytes(m2, view2, m3, view3)
    requires forall w: nat :: BASE_PAGE <= w < TOP_PAGE ==> StackRights(view3, w)
    requires StackImage(m3, view3, s.rsp, s.loaded, argv, envp, name) && ZeroBelow(m3, view3, s.rsp)
    ensures ProcessReady(data, phs, slide, m3, view3, s, argv, envp, name)
  {
    hide AllPrivate, LoadedByte, StackImage, ZeroBelow, PhysByte;
    forall v: nat ensures ImageAt(data, phs, slide, m3, view3, v) {
      assert LoadedAt(data, phs, slide, |phs|, m1, map[], m2, view2, v);
      assert PermsAt(phs, slide, |phs|, map[], view2, v / PAGE_SIZE);
      assert SameByte(m2, view2, m3, view3, v);
      assert ByteAt(m1, map[], v) == 0;
    }
  }

  /** For a well-formed file whose segments keep off the stack pages: every address of every segment is
      mapped with the rights its header asks for and reads the byte the file promises. */
  lemma ProcessImage(data: seq<byte>, phs: seq<Phdr>, slide: nat, m: Mem, view: map<nat, Leaf>, s: Started,
                     argv: seq<seq<byte>>, envp: seq<seq<byte>>, name: seq<byte>, k: nat, v: nat)
    requires ProcessReady(data, phs, slide, m, view, s, argv, envp, name)
    requires WellFormed(phs, slide) && FilesOk(data, phs)
    requires k < |phs| && Loads(phs[k]) && InSegment(phs[k], slide, v)
    requires v / PAGE_SIZE < BASE_PAGE || TOP_PAGE <= v / PAGE_SIZE
    ensures v / PAGE_SIZE in view
    ensures ByteAt(m, view, v) ==
      if v < phs[k].vaddr + slide + phs[k].filesz then data[phs[k].offset + (v - phs[k].vaddr - slide)] else 0
    ensures view[v / PAGE_SIZE] == MakeLeaf(view[v / PAGE_SIZE].pfn, SegFlags(phs[k]))
  {
    hide ByteAt, LoadedByte, StackImage, ZeroBelow, SegFlags;
    assert ImageAt(data, phs, slide, m, view, v);
    SegmentInPages(phs[k], slide, v);
    OnlyMapper(phs, slide, k, v / PAGE_SIZE);
    ImageFaithful(data, phs, slide, k, v, 0);
  }

  /** What the processor makes of a user address whose page is mapped by a small leaf. */
  lemma LeafAccess(m: Mem, root: nat, v: nat, fl: Flags)
    requires UserTree(m, root) && UserOpen(m, root) && v < USER_LIMIT && v / PAGE_SIZE in UserView(m, root)
    requires UserView(m, root)[v / PAGE_SIZE] == MakeLeaf(UserView(m, root)[v / PAGE_SIZE].pfn, fl)
    ensures Walk(m, root, v).Some? && PhysByte(m, Walk(m, root, v).value) == ByteAt(m, UserView(m, root), v)
    ensures Access(m, root, v) == Some(FlagRights(fl))
  {
    hide TreeOk, View, Walk, Access, Limit, OpenLinks, Translate, PhysByte;
    UserPage(v);
    TranslateByte(m, root, v);
    WalkIsView(m, root, USER_SLOTS, v);
    OpenAccess(m, root, USER_SLOTS, v);
  }

  /** So for the program: the processor reads the promised byte at every address of a segment, and lets the
      program write exactly if the header's flag 2 is set and execute exactly if flag 1 is. */
  lemma ProcessAccess(data: seq<byte>, phs: seq<Phdr>, slide: nat, m: Mem, root: nat, s: Started,
                      argv: seq<seq<byte>>, envp: seq<seq<byte>>, name: seq<byte>, k: nat, v: nat,
                      x: nat, w: nat, rest: nat)
    requires UserTree(m, root) && UserOpen(m, root)
    requires ProcessReady(data, phs, slide, m, UserView(m, root), s, argv, envp, name)
    requires WellFormed(phs, slide) && FilesOk(data, phs) && v < USER_LIMIT
    requires k < |phs| && Loads(phs[k]) && InSegment(phs[k], slide, v)
    requires v / PAGE_SIZE < BASE_PAGE || TOP_PAGE <= v / PAGE_SIZE
    requires x < 2 && w < 2 && phs[k].flags == x + 2 * w + 4 * rest
    ensures Walk(m, root, v).Some?
    ensures PhysByte(m, Walk(m, root, v).value) ==
      if v < phs[k].vaddr + slide + phs[k].filesz then data[phs[k].offset + (v - phs[k].vaddr - slide)] else 0
    ensures Access(m, root, v) == Some(Rights(w == 1, true, x == 0))
  {
    assert phs[k].flags / 2 == w + 2 * rest;
    assert FlagRights(SegFlags(phs[k])) == Rights(w == 1, true, x == 0);
    hide SegFlags, ProcessReady, WellFormed, FilesOk, Walk, Access, UserView, UserTree, UserOpen, PhysByte, ByteAt;
    ProcessImage(data, phs, slide, m, UserView(m, root), s, argv, envp, name, k, v);
    LeafAccess(m, root, v, SegFlags(phs[k]));
  }

  /** And for the stack, which it may write and not execute. */
  lemma StackAccess(data: seq<byte>, phs: seq<Phdr>, slide: nat, m: Mem, root: nat, s: Started,
                    argv: seq<seq<byte>>, envp: seq<seq<byte>>, name: seq<byte>, v: nat)
    requires UserTree(m, root) && UserOpen(m, root)
    requires ProcessReady(data, phs, slide, m, UserView(m, root), s, argv, envp, name)
    requires STACK_BASE <= v < USER_STACK_TOP
    ensures Access(m, root, v) == Some(Rights(true, true, true))
  {
    hide Access, UserView, UserTree, UserOpen, StackImage, ZeroBelow, ImageAt;
    assert StackRights(UserView(m, root), v / PAGE_SIZE);
    LeafAccess(m, root, v, STACK_FLAGS);
  }

  lemma TableInSegment(data: seq<byte>, phs: seq<Phdr>, slide: nat, k: nat, t: nat)
    requires WellFormed(phs, slide) && FilesOk(data, phs) && EHDR_SIZE <= |data| && k < |phs| && Loads(phs[k])
    requires phs[k].offset <= PhOff(data) && PhOff(data) + |phs| * PHDR_SIZE <= phs[k].offset + phs[k].filesz
    requires t < |phs| * PHDR_SIZE
    ensures PhOff(data) + t < |data|
    ensures var v := phs[k].vaddr + slide + (PhOff(data) - phs[k].offset) + t;
      InSegment(phs[k], slide, v) && v < phs[k].vaddr + slide + phs[k].filesz <= phs[k].vaddr + slide + phs[k].memsz
  {
    hide PhOff;
    assert SizesOk(phs) && FileOk(data, phs[k]);
  }

  lemma TablePlaceTold(data: seq<byte>, phs: seq<Phdr>, slide: nat, m: Mem, root: nat, s: Started,
                       argv: seq<seq<byte>>, envp: seq<seq<byte>>, name: seq<byte>, room: nat)
    requires UserTree(m, root) && ProcessReady(data, phs, slide, m, UserView(m, root), s, argv, envp, name)
    requires |argv| < room && |envp| < room && 14 <= room
    ensures AuxValue(m, root, s.rsp, 3, room) == Some(s.loaded.phdrVaddr)
  {
    hide AuxValue, UserView, UserTree, StackImage, ImageAt, ZeroBelow, StackRights;
    var r, x := AuxBack(m, root, s.rsp, s.loaded, argv, envp, name, room);
    assert AuxValue(m, root, s.rsp, 3, room) == Told(s.loaded, r, x, 3);
  }

  /** The program finds its own program headers: the address it is told for type 3 reads the table, wherever that
      address is the table's place in a segment that holds it, be it named by a PT_PHDR header or found by the
      loader. */
  lemma HeadersRead(data: seq<byte>, phs: seq<Phdr>, slide: nat, m: Mem, root: nat, s: Started,
                    argv: seq<seq<byte>>, envp: seq<seq<byte>>, name: seq<byte>, k: nat, t: nat, room: nat)
    requires UserTree(m, root) && UserOpen(m, root) && EHDR_SIZE <= |data|
    requires ProcessReady(data, phs, slide, m, UserView(m, root), s, argv, envp, name)
    requires WellFormed(phs, slide) && FilesOk(data, phs) && k < |phs| && Loads(phs[k]) && InUserHalf(phs[k], slide)
    requires phs[k].offset <= PhOff(data) && PhOff(data) + |phs| * PHDR_SIZE <= phs[k].offset + phs[k].filesz
    requires s.loaded.phdrVaddr == phs[k].vaddr + slide + (PhOff(data) - phs[k].offset)
    requires t < |phs| * PHDR_SIZE && |argv| < room && |envp| < room && 14 <= room
    requires var w := (s.loaded.phdrVaddr + t) / PAGE_SIZE; w < BASE_PAGE || TOP_PAGE <= w
    ensures AuxValue(m, root, s.rsp, 3, room).Some? && PhOff(data) + t < |data|
    ensures var v := AuxValue(m, root, s.rsp, 3, room).value + t;
      Walk(m, root, v).Some? && PhysByte(m, Walk(m, root, v).value) == data[PhOff(data) + t]
  {
    hide ProcessReady, Walk, Access, UserView, UserTree, UserOpen, PhysByte, ByteAt, PhOff, AuxValue, SegFlags,
      WellFormed, FilesOk, Loads, InSegment;
    var v := s.loaded.phdrVaddr + t;
    TableInSegment(data, phs, slide, k, t);
    TablePlaceTold(data, phs, slide, m, root, s, argv, envp, name, room);
    ProcessImage(data, phs, slide, m, UserView(m, root), s, argv, envp, name, k, v);
    LeafAccess(m, root, v, SegFlags(phs[k]));
  }

  /** The loader's own choice is such an address: without a PT_PHDR header, that of the table in the first segment
      that starts at file offset 0. */
  lemma HeadersFound(phs: seq<Phdr>, slide: nat, phoff: nat, k: nat)
    requires (forall i :: 0 <= i < |phs| ==> phs[i].kind != PT_PHDR) && phoff != 0
    requires k < |phs| && phs[k].kind == PT_LOAD && phs[k].offset == 0
    requires forall i :: 0 <= i < k ==> phs[i].kind != PT_LOAD || phs[i].offset != 0
    ensures PhdrVaddr(phs, slide, phoff) == phs[k].vaddr + slide + (phoff - phs[k].offset)
  {
    assert HeaderSegment(phs, 0) == k;
  }

  /** With a PT_PHDR header, that of the last one; and the interpreter is the one the last PT_INTERP header names. */
  lemma HeadersNamed(data: seq<byte>, phs: seq<Phdr>, slide: nat, phoff: nat, k: nat)
    requires k < |phs|
    ensures phs[k].kind == 6 && (forall i :: k < i < |phs| ==> phs[i].kind != 6) && phs[k].vaddr + slide != 0 ==>
      PhdrVaddr(phs, slide, phoff) == phs[k].vaddr + slide
    ensures phs[k].kind == 3 && (forall i :: k < i < |phs| ==> phs[i].kind != 3) && InterpsOk(data, phs) ==>
      && phs[k].offset + phs[k].filesz <= |data|
      && InterpOf(data, phs) == Some(data[phs[k].offset..phs[k].offset + phs[k].filesz])
  {
  }

  // ----- starting

  /** Sums of header fields that the program is told fit a word. */
  predicate FitsWords(data: seq<byte>) {
    EHDR_SIZE <= |data| && CheckHeader(data).None? && Usable(data, BaseOf(data)) ==>
      var slide := SlideOf(data, BaseOf(data));
      && Field(data, 24, 8) + slide < Radix(8)
      && PhdrVaddr(HeadersOf(data), slide, PhOff(data)) < Radix(8)
  }

  lemma {:induction false} BytesBound(b: seq<byte>)
    ensures FromBytes(b) < Radix(|b|)
  {
    if b != [] { BytesBound(b[1..]); }
  }

  lemma LoadedWords(data: seq<byte>, e: LoadedElf)
    requires CheckHeader(data).None? && Usable(data, BaseOf(data)) && FitsWords(data)
    requires InterpsOk(data, HeadersOf(data))
    requires LoadedAs(data, HeadersOf(data), SlideOf(data, BaseOf(data)), BaseOf(data), e)
    ensures WordFields(e)
  {
    BytesBound(data[54..56]);
    BytesBound(data[56..58]);
    Radix8();
    assert Radix(2) == 65536;
    hide Radix, IsBreak, InterpOf, PhdrVaddr;
    if Field(data, 16, 2) != ET_DYN {
      var phs := HeadersOf(data);
      assert e.loadBase <= U64_MAX;
    }
  }

  /** A process can be started: the file is good, its file ranges lie in it, the program's and the stack's
      bytes have pages, and there are as many free frames as all this takes. */
  ghost predicate CanStart(data: seq<byte>, argv: seq<seq<byte>>, envp: seq<seq<byte>>, name: seq<byte>, frames: nat)
    requires Usable(data, BaseOf(data)) && 0 <= InitialRsp(argv, envp, name)
  {
    && CheckHeader(data).None?
    && var phs, slide := HeadersOf(data), SlideOf(data, BaseOf(data));
    && InterpsOk(data, phs) && FilesOk(data, phs) && MappedTo(map[], phs, slide, |phs|)
    && WritesMapped(ElfPageSet(phs, slide, |phs|) + StackPages(), argv, envp, name)
    && StartFrames(phs, slide) <= frames
  }

  /** A new space: only a PML4, with the kernel's upper half. */
  ghost predicate FreshSpace(m: Mem, free: set<nat>, pages: set<nat>, m': Mem, free': set<nat>, pages': set<nat>,
                             kernel: nat, c: nat)
  {
    && c in free && free' == free - {c} && m'.Keys == m.Keys + {c} && pages' == pages + {c} && m.Keys !! free
    && UserTree(m', c) && UserFrames(m', c) == {c} && UserView(m', c) == map[]
    && SameKernelHalf(m, kernel, m', c) && Agree(m, m', m.Keys) && UserOpen(m', c)
  }

  /** Between the two states frames were lost, all of them pages. */
  ghost predicate OnlyPagesLost(free: set<nat>, m': Mem, free': set<nat>) {
    free' <= free && forall f :: f in free - free' ==> IsPage(m', f)
  }

  lemma SpaceFresh(m: Mem, free: set<nat>, pages: set<nat>, m': Mem, free': set<nat>, pages': set<nat>,
                   kernel: nat, space: Option<nat>)
    requires Created(m, free, pages, m', free', pages', kernel, space) && m.Keys !! free
    ensures space.None? ==> free == {} && Agree(m, m', m.Keys) && OnlyPagesLost(free, m', free')
    ensures space.Some? ==>
      FreshSpace(m, free, pages, m', free', pages', kernel, space.value) && UserTree(m', space.value)
      && UserView(m', space.value) == map[] && AllPrivate(m', UserView(m', space.value))
  {
    hide TreeOk, Frames, View, SameKernelHalf, UserOpen;
    if space.Some? {
      assert free - free' == {space.value};
    }
  }

  lemma AgreeTwice(m0: Mem, m1: Mem, m: Mem, own: set<nat>)
    requires Agree(m0, m1, m0.Keys) && Agree(m1, m, m1.Keys - own) && own !! m0.Keys
    ensures Agree(m0, m, m0.Keys)
  {
  }

  lemma HalfTwice(m0: Mem, kernel: nat, m1: Mem, m: Mem, c: nat)
    requires SameKernelHalf(m0, kernel, m1, c) && SameKernelHalf(m1, c, m, c)
    ensures SameKernelHalf(m0, kernel, m, c)
  {
    forall i: nat | USER_SLOTS <= i < ENTRIES ensures Entry(m, c, i) == Entry(m0, kernel, i) {
      assert Entry(m, c, i) == Entry(m1, c, i);
    }
  }

  /** Whatever stays inside a new space touches nothing that existed. */
  lemma InNewSpace(m0: Mem, f0: set<nat>, g0: set<nat>, m1: Mem, f1: set<nat>, g1: set<nat>, m: Mem, f: set<nat>,
                   g: set<nat>, kernel: nat, c: nat)
    requires FreshSpace(m0, f0, g0, m1, f1, g1, kernel, c) && Confined(m1, f1, g1, m, f, g, c)
    ensures Agree(m0, m, m0.Keys) && SameKernelHalf(m0, kernel, m, c) && UserOpen(m, c)
    ensures UserFrames(m, c) <= g && UserFrames(m, c) <= f0 && Holdings(m, c) <= f0 - f && f <= f0
    ensures forall h :: h in f0 - f && h !in UserFrames(m, c) ==> IsPage(m, h)
  {
    hide TreeOk, Frames, View, UserTree;
    assert PagesOf(UserView(m1, c)) == {};
    assert Holdings(m1, c) == {c};
    AgreeTwice(m0, m1, m, {c});
    HalfTwice(m0, kernel, m1, m, c);
    OpenSame(m1, c, m, c, USER_SLOTS);
    hide OpenLinks, SameLinks, Agree, SameKernelHalf, PagesOf;
  }

  lemma Dropped(m0: Mem, f0: set<nat>, m: Mem, f: set<nat>, m': Mem, f': set<nat>, gone: set<nat>)
    requires Agree(m0, m, m0.Keys) && m' == m - gone && f' == f + gone && gone <= f0 && m0.Keys !! f0 && f <= f0
    requires forall h :: h in f0 - f && h !in gone ==> IsPage(m, h)
    ensures Agree(m0, m', m0.Keys) && OnlyPagesLost(f0, m', f')
  {
  }

  lemma NoFrame(data: seq<byte>, argv: seq<seq<byte>>, envp: seq<seq<byte>>, name: seq<byte>)
    requires Usable(data, BaseOf(data)) && 0 <= InitialRsp(argv, envp, name)
    ensures !CanStart(data, argv, envp, name, 0)
  {
    hide WritesMapped, MappedTo, FilesOk, InterpsOk, CheckHeader, Usable, InitialRsp;
  }

  lemma UsableSegments(data: seq<byte>, base: nat)
    requires CheckHeader(data).None? && Usable(data, base)
    ensures EHDR_SIZE <= |data| && PhOff(data) + PhNum(data) * PHDR_SIZE <= |data|
    ensures var phs, slide := HeadersOf(data), SlideOf(data, base);
      forall j :: 0 <= j < |phs| && Loads(phs[j]) ==> InUserHalf(phs[j], slide)
  {
    hide InUserHalf, Phdrs;
  }

  /** In a new space the frames for loading are those counted in empty memory. */
  lemma NewSpaceFrames(m: Mem, c: nat, phs: seq<Phdr>, slide: nat)
    requires UserTree(m, c) && UserFrames(m, c) == {c}
    requires forall j :: 0 <= j < |phs| && Loads(phs[j]) ==> InUserHalf(phs[j], slide)
    ensures ElfNodes(m, c, phs, slide, |phs|) == ElfNodes(map[], 0, phs, slide, |phs|)
    ensures PageNodes(m, c, BASE_PAGE) == PageNodes(map[], 0, BASE_PAGE) && BASE_PAGE < Limit(USER_SLOTS)
    ensures 17 + ElfFrames(m, c, phs, slide, |phs|) <= StartFrames(phs, slide)
  {
    OneTable(BASE_PAGE);
    hide TreeOk, Frames, Limit, PageNodes, InUserHalf, ElfNodes, Loads;
    EmptyGained(m, c);
    EmptyElf(m, c, phs, slide, |phs|);
    UnionSize(ElfNodes(map[], 0, phs, slide, |phs|), PageNodes(map[], 0, BASE_PAGE));
  }

  lemma NotLoaded(data: seq<byte>, argv: seq<seq<byte>>, envp: seq<seq<byte>>, name: seq<byte>, m0: Mem, f0: set<nat>,
                  g0: set<nat>, m1: Mem, f1: set<nat>, g1: set<nat>, kernel: nat, c: nat)
    requires Usable(data, BaseOf(data)) && 0 <= InitialRsp(argv, envp, name)
    requires FreshSpace(m0, f0, g0, m1, f1, g1, kernel, c)
    requires CheckHeader(data).None? ==>
      var phs, slide := HeadersOf(data), SlideOf(data, BaseOf(data));
      !(InterpsOk(data, phs) && FilesOk(data, phs) && MappedTo(UserView(m1, c), phs, slide, |phs|)
        && ElfFrames(m1, c, phs, slide, |phs|) <= |f1|)
    ensures !CanStart(data, argv, envp, name, |f0|)
  {
    hide TreeOk, Frames, View, WritesMapped, MappedTo, FilesOk, InterpsOk, CheckHeader, Agree, SameKernelHalf,
      ElfFrames, StartFrames, Loads, InUserHalf, ElfPageSet;
    if CheckHeader(data).None? {
      UsableSegments(data, BaseOf(data));
      NewSpaceFrames(m1, c, HeadersOf(data), SlideOf(data, BaseOf(data)));
      assert |f1| == |f0| - 1;
    }
  }

  lemma StackNodes(m1: Mem, m2: Mem, c: nat, nodes: set<Node>)
    requires Gained(m1, m2, c, USER_SLOTS, nodes) && BASE_PAGE < Limit(USER_SLOTS)
    ensures |nodes + PageNodes(m1, c, BASE_PAGE)| == |nodes| + Missing(m2, 4, c, BASE_PAGE)
  {
    hide Gained, PageNodes, Missing, Limit;
    NodesLeft(m1, m2, c, USER_SLOTS, nodes, BASE_PAGE);
    UnionSize(nodes, PageNodes(m1, c, BASE_PAGE));
    PageNodesSize(m2, c, BASE_PAGE);
  }

  lemma StartCount(m1: Mem, m2: Mem, c: nat, phs: seq<Phdr>, slide: nat)
    requires UserTree(m1, c) && UserFrames(m1, c) == {c}
    requires forall j :: 0 <= j < |phs| && Loads(phs[j]) ==> InUserHalf(phs[j], slide)
    requires Gained(m1, m2, c, USER_SLOTS, ElfNodes(m1, c, phs, slide, |phs|))
    ensures StartFrames(phs, slide) ==
      17 + ElfPages(phs, slide, |phs|) + |ElfNodes(m1, c, phs, slide, |phs|)| + Missing(m2, 4, c, BASE_PAGE)
  {
    hide TreeOk, Frames, Missing, PageNodes, ElfNodes, ElfPages, Gained, InUserHalf, Loads, Limit;
    NewSpaceFrames(m1, c, phs, slide);
    StackNodes(m1, m2, c, ElfNodes(m1, c, phs, slide, |phs|));
  }

  lemma LoadedPages(data: seq<byte>, phs: seq<Phdr>, slide: nat, m1: Mem, m2: Mem, view2: map<nat, Leaf>)
    requires ImageLoaded(data, phs, slide, |phs|, m1, map[], m2, view2)
    ensures LeafPages(m2, view2) && view2.Keys == ElfPageSet(phs, slide, |phs|)
  {
    hide LoadedByte, ByteAt, ElfPageSet, Private;
    forall w: nat ensures w in view2.Keys <==> w in ElfPageSet(phs, slide, |phs|) {
      assert LoadedAt(data, phs, slide, |phs|, m1, map[], m2, view2, w * PAGE_SIZE);
      assert w * PAGE_SIZE / PAGE_SIZE == w;
      ElfPageSetIs(phs, slide, |phs|, w);
    }
  }

  /** With the program loaded, the stack decides. */
  lemma AfterLoad(data: seq<byte>, argv: seq<seq<byte>>, envp: seq<seq<byte>>, name: seq<byte>, m0: Mem, f0: set<nat>,
                  g0: set<nat>, m1: Mem, f1: set<nat>, g1: set<nat>, m2: Mem, f2: set<nat>, g2: set<nat>, kernel: nat,
                  c: nat)
    requires Usable(data, BaseOf(data)) && 0 <= InitialRsp(argv, envp, name) && CheckHeader(data).None?
    requires FreshSpace(m0, f0, g0, m1, f1, g1, kernel, c)
    requires var phs, slide := HeadersOf(data), SlideOf(data, BaseOf(data));
      InterpsOk(data, phs) && ElfSoFar(data, phs, slide, |phs|, m1, f1, g1, m2, f2, g2, c)
    ensures LeafPages(m2, UserView(m2, c)) && Confined(m1, f1, g1, m2, f2, g2, c)
    ensures CanStart(data, argv, envp, name, |f0|) <==>
      && 16 + Missing(m2, 4, c, BASE_PAGE) <= |f2|
      && WritesMapped(UserView(m2, c).Keys + StackPages(), argv, envp, name)
  {
    hide UserTree, UserFrames, UserView, WritesMapped, InterpsOk, CheckHeader, Agree, SameKernelHalf, Loads,
      InUserHalf, Usable, ImageLoaded, Missing, ElfNodes, ElfPageSet, Confined, Gained, InitialRsp, HeadersOf,
      SlideOf, MappedTo, StartFrames, LeafPages, StackPages, FilesTo, ElfPages;
    UsableSegments(data, BaseOf(data));
    var phs, slide := HeadersOf(data), SlideOf(data, BaseOf(data));
    LoadedPages(data, phs, slide, m1, m2, UserView(m2, c));
    StartCount(m1, m2, c, phs, slide);
    assert |f1| == |f0| - 1;
  }

  lemma StartedReady(data: seq<byte>, phs: seq<Phdr>, slide: nat, m1: Mem, f1: set<nat>, g1: set<nat>, m2: Mem,
                     f2: set<nat>, g2: set<nat>, m3: Mem, c: nat, s: Started, argv: seq<seq<byte>>,
                     envp: seq<seq<byte>>, name: seq<byte>)
    requires ElfSoFar(data, phs, slide, |phs|, m1, f1, g1, m2, f2, g2, c) && UserView(m1, c) == map[]
    requires SameOutside(UserView(m2, c), UserView(m3, c)) && SameBytes(m2, UserView(m2, c), m3, UserView(m3, c))
    requires forall w: nat :: BASE_PAGE <= w < TOP_PAGE ==> StackRights(UserView(m3, c), w)
    requires StackImage(m3, UserView(m3, c), s.rsp, s.loaded, argv, envp, name)
    requires ZeroBelow(m3, UserView(m3, c), s.rsp)
    ensures ProcessReady(data, phs, slide, m3, UserView(m3, c), s, argv, envp, name)
  {
    hide View, ImageLoaded, Took, Confined, SameOutside, SameBytes, StackRights, StackImage, ZeroBelow, ProcessReady,
      FilesTo, MappedTo;
    ReadyFrom(data, phs, slide, m1, m2, UserView(m2, c), m3, UserView(m3, c), s, argv, envp, name);
  }

  /** The address-space part of `Process::new_user`.  A failure drops the space again, which returns its tables
      but not its pages. */
  method StartProcess(vm: Vmm, kernel: nat, data: seq<byte>, argv: seq<seq<byte>>, envp: seq<seq<byte>>,
                      name: seq<byte>)
    returns (r: Option<Started>)
    requires vm.Valid() && IsTable(vm.mem, kernel)
    requires Usable(data, BaseOf(data)) && FitsWords(data) && 0 <= InitialRsp(argv, envp, name)
    modifies vm`mem, vm.pmm
    ensures vm.Valid() && Agree(old(vm.mem), vm.mem, old(vm.mem.Keys))
    ensures r.Some? <==> CanStart(data, argv, envp, name, |old(vm.Free())|)
    ensures r.None? ==> OnlyPagesLost(old(vm.Free()), vm.mem, vm.Free())
    ensures r.Some? ==>
      && var phs, slide, root := HeadersOf(data), SlideOf(data, BaseOf(data)), r.value.root;
      && UserTree(vm.mem, root) && Holdings(vm.mem, root) <= old(vm.Free()) - vm.Free()
      && UserOpen(vm.mem, root) && SameKernelHalf(old(vm.mem), kernel, vm.mem, root)
      && slide == (if Field(data, 16, 2) == 3 then 0x5555_5555_0000 else 0)
      && InterpsOk(data, phs) && LoadedAs(data, phs, slide, BaseOf(data), r.value.loaded)
      && r.value.rsp == InitialRsp(argv, envp, name)
      && (STACK_BASE <= r.value.rsp ==>
           ProcessReady(data, phs, slide, vm.mem, UserView(vm.mem, root), r.value, argv, envp, name))
  {
    hide BuddyAllocator.Valid, FreeFrames, PageFrames, UserTree, UserView, UserFrames, Created, AllPrivate, Confined,
      ElfSoFar, LoadedAs, WritesMapped, MappedTo, FilesOk, InterpsOk, Usable, FitsWords, WordFields, LeafPages,
      Missing, ProcessReady, StackImage, ZeroBelow, SameOutside, SameBytes, StackRights, ElfFrames, SameKernelHalf,
      UserOpen, OnlyPagesLost, Holdings, CanStart, CheckHeader, Agree, FreshSpace, HeadersOf, SlideOf, InitialRsp;
    ghost var m0, f0, g0 := vm.mem, vm.Free(), PageFrames(vm.pmm.tags);
    var space := NewUser(vm, kernel);
    ghost var m1, f1, g1 := vm.mem, vm.Free(), PageFrames(vm.pmm.tags);
    SpaceFresh(m0, f0, g0, m1, f1, g1, kernel, space);
    if space.None? {
      NoFrame(data, argv, envp, name);
      return None;
    }
    var root := space.value;
    var base := if 18 <= |data| && FromBytes(data[16..18]) == ET_DYN then PIE_BASE else 0;
    var loaded := LoadElf(vm, root, data, base);
    ghost var m2, f2, g2 := vm.mem, vm.Free(), PageFrames(vm.pmm.tags);
    InNewSpace(m0, f0, g0, m1, f1, g1, m2, f2, g2, kernel, root);
    if loaded.Err? {
      NotLoaded(data, argv, envp, name, m0, f0, g0, m1, f1, g1, kernel, root);
      DropSpace(vm, root);
      Dropped(m0, f0, m2, f2, vm.mem, vm.Free(), UserFrames(m2, root));
      return None;
    }
    AfterLoad(data, argv, envp, name, m0, f0, g0, m1, f1, g1, m2, f2, g2, kernel, root);
    LoadedWords(data, loaded.value);
    var rsp := BuildUserStack(vm, root, loaded.value, argv, envp, name);
    ghost var m3, f3, g3 := vm.mem, vm.Free(), PageFrames(vm.pmm.tags);
    ConfinedTrans(m1, f1, g1, m2, f2, g2, m3, f3, g3, root);
    InNewSpace(m0, f0, g0, m1, f1, g1, m3, f3, g3, kernel, root);
    if rsp.None? {
      DropSpace(vm, root);
      Dropped(m0, f0, m3, f3, vm.mem, vm.Free(), UserFrames(m3, root));
      return None;
    }
    r := Some(Started(root, loaded.value, rsp.value));
    SlideIs(data);
    UsableSegments(data, base);
    if STACK_BASE <= rsp.value {
      StartedReady(data, HeadersOf(data), SlideOf(data, base), m1, f1, g1, m2, f2, g2, m3, root, r.value, argv, envp,
                   name);
    }
  }
}
