/** Virtual addresses, what `translate` makes of them, and the entries the kernel writes. */
module Translation {
  import opened Basics
  import opened Blocks
  import opened PageTables

  function Pml4Idx(virt: nat): nat { virt / 0x80_0000_0000 % 512 }
  function PdptIdx(virt: nat): nat { virt / 0x4000_0000 % 512 }
  function PdIdx(virt: nat): nat { virt / 0x20_0000 % 512 }
  function PtIdx(virt: nat): nat { virt / 0x1000 % 512 }

  /** Bits 12 to 47 of an address. */
  function PageOf(virt: nat): (vp: nat)
    ensures vp < 0x10_0000_0000
  {
    virt / PAGE_SIZE % 0x10_0000_0000
  }

  lemma Shifts(virt: nat)
    ensures virt / 0x20_0000 == virt / 0x1000 / 512
    ensures virt / 0x4000_0000 == virt / 0x1000 / 0x40000
    ensures virt / 0x80_0000_0000 == virt / 0x1000 / 0x800_0000
    ensures virt % 0x20_0000 == virt / 0x1000 % 512 * 0x1000 + virt % 0x1000
  {
  }

  lemma Expand(k: nat, hi: nat, t: nat, lo: nat, r: nat)
    ensures (k * hi + t) * lo + r == k * (hi * lo) + (t * lo + r)
  {
  }

  lemma JoinBelow(t: nat, hi: nat, lo: nat, r: nat)
    requires t < hi && r < lo
    ensures t * lo + r < hi * lo
  {
    Product(hi - t, lo);
    assert hi * lo == t * lo + (hi - t) * lo;
  }

  /** Cutting a number to its lower two of three digits and taking the upper one of them. */
  lemma MiddleDigit(k: nat, hi: nat, t: nat, lo: nat, r: nat)
    requires t < hi && r < lo
    ensures hi * lo > 0 && ((k * hi + t) * lo + r) % (hi * lo) / lo == t
  {
    Expand(k, hi, t, lo, r);
    JoinBelow(t, hi, lo, r);
    QuotientUnique(k * (hi * lo) + (t * lo + r), hi * lo, k, t * lo + r);
    QuotientUnique(t * lo + r, lo, t, r);
  }

  lemma Truncate4(p: nat)
    ensures p % 0x10_0000_0000 / 0x800_0000 % 512 == p / 0x800_0000 % 512
  {
    var q := p / 0x800_0000;
    MiddleDigit(q / 512, 512, q % 512, 0x800_0000, p % 0x800_0000);
  }

  lemma LowDigit(q: nat)
    ensures q % 0x40000 % 512 == q % 512 && q % 0x800_0000 % 512 == q % 512
  {
  }

  lemma Truncate3(p: nat)
    ensures p % 0x10_0000_0000 / 0x40000 % 512 == p / 0x40000 % 512
  {
    var q := p / 0x40000;
    MiddleDigit(q / 0x40000, 0x40000, q % 0x40000, 0x40000, p % 0x40000);
    LowDigit(p / 0x40000);
  }

  lemma Truncate2(p: nat)
    ensures p % 0x10_0000_0000 / 512 % 512 == p / 512 % 512
  {
    var q := p / 512;
    MiddleDigit(q / 0x800_0000, 0x800_0000, q % 0x800_0000, 512, p % 512);
    LowDigit(p / 512);
  }

  lemma Truncate1(p: nat)
    ensures p % 0x10_0000_0000 % 512 == p % 512
  {
  }

  lemma PageIndices(virt: nat)
    ensures Idx(4, PageOf(virt)) == Pml4Idx(virt) && Idx(3, PageOf(virt)) == PdptIdx(virt)
    ensures Idx(2, PageOf(virt)) == PdIdx(virt) && Idx(1, PageOf(virt)) == PtIdx(virt)
    ensures virt % 0x20_0000 == PageOf(virt) % 512 * PAGE_SIZE + virt % PAGE_SIZE
  {
    Shifts(virt);
    var p := virt / 0x1000;
    Truncate4(p);
    Truncate3(p);
    Truncate2(p);
    Truncate1(p);
  }

  /** Where the page directory in frame `f` leads.  An entry with the large bit is taken whether or not it
      is present. */
  function FromDirectory(m: Mem, f: nat, virt: nat): Option<nat> {
    var e2 := Entry(m, f, PdIdx(virt));
    if e2.large then Some(e2.pfn * PAGE_SIZE + virt % 0x20_0000)
    else if !e2.present then None else
    var e1 := Entry(m, e2.pfn, PtIdx(virt));
    if !e1.present then None else Some(e1.pfn * PAGE_SIZE + virt % PAGE_SIZE)
  }

  /** `translate`: the physical address a virtual address translates to. */
  function Translate(m: Mem, root: nat, virt: nat): Option<nat> {
    var e4 := Entry(m, root, Pml4Idx(virt));
    if !e4.present then None else
    var e3 := Entry(m, e4.pfn, PdptIdx(virt));
    if !e3.present then None else FromDirectory(m, e3.pfn, virt)
  }

  // ----- the processor's walk

  /** The address that a large entry gives for an offset into its page of `frames` frames.  The frame is
      aligned to the page; bit 12 of the entry is an attribute, and the bits between are reserved. */
  function LargeAddress(e: Pte, frames: nat, offset: nat): Option<nat>
    requires frames > 0
  {
    if e.pfn % frames > 1 then None else Some((e.pfn - e.pfn % frames) * PAGE_SIZE + offset)
  }

  /** What the processor makes of bits 0 to 47 of a canonical address (Intel SDM volume 3A, section 4.5): a
      large entry maps 1 GiB in a page-directory-pointer table and 2 MiB in a page directory; a large entry
      in a PML4, like any reserved bit, faults. */
  function Walk(m: Mem, root: nat, virt: nat): Option<nat> {
    var e4 := Entry(m, root, Pml4Idx(virt));
    if !e4.present || e4.large then None else
    var e3 := Entry(m, e4.pfn, PdptIdx(virt));
    if !e3.present then None
    else if e3.large then LargeAddress(e3, 0x40000, virt % 0x4000_0000) else
    var e2 := Entry(m, e3.pfn, PdIdx(virt));
    if !e2.present then None
    else if e2.large then LargeAddress(e2, 512, virt % 0x20_0000) else
    var e1 := Entry(m, e2.pfn, PtIdx(virt));
    if !e1.present then None else Some(e1.pfn * PAGE_SIZE + virt % PAGE_SIZE)
  }

  /** The walk meets a large entry above the page directory. */
  predicate LargeAbove(m: Mem, root: nat, virt: nat) {
    var e4 := Entry(m, root, Pml4Idx(virt));
    var e3 := Entry(m, e4.pfn, PdptIdx(virt));
    e4.present && (e4.large || (e3.present && e3.large))
  }

  /** The walk reaches a large entry of a page directory that is not present or not aligned to 2 MiB. */
  predicate LargeOdd(m: Mem, root: nat, virt: nat) {
    var e4 := Entry(m, root, Pml4Idx(virt));
    var e3 := Entry(m, e4.pfn, PdptIdx(virt));
    var e2 := Entry(m, e3.pfn, PdIdx(virt));
    e4.present && e3.present && e2.large && (!e2.present || e2.pfn % 512 != 0)
  }

  /** Whatever the tables hold: where no large entry lies above the page directory, `translate` gives what
      the processor uses exactly when the page directory's entry, if large, is present and aligned.  Under
      a large entry above, `translate` goes on and reads the bytes found there as a page directory; it is
      right exactly when those happen to lead to the processor's address. */
  lemma TranslateIsWalk(m: Mem, root: nat, virt: nat)
    ensures !LargeAbove(m, root, virt) ==>
      (Translate(m, root, virt) == Walk(m, root, virt) <==> !LargeOdd(m, root, virt))
    ensures LargeAbove(m, root, virt) ==>
      var e4 := Entry(m, root, Pml4Idx(virt));
      var e3 := Entry(m, e4.pfn, PdptIdx(virt));
      (Translate(m, root, virt) == Walk(m, root, virt) <==>
       if e4.large then !e3.present || FromDirectory(m, e3.pfn, virt) == None
       else FromDirectory(m, e3.pfn, virt) == LargeAddress(e3, 0x40000, virt % 0x4000_0000))
  {
    hide Pml4Idx, PdptIdx, PdIdx, PtIdx;
    var e4 := Entry(m, root, Pml4Idx(virt));
    var e3 := Entry(m, e4.pfn, PdptIdx(virt));
    var e2 := Entry(m, e3.pfn, PdIdx(virt));
    if e2.pfn % 512 == 1 {
      assert (e2.pfn - 1) * PAGE_SIZE + virt % 0x20_0000 != e2.pfn * PAGE_SIZE + virt % 0x20_0000;
    }
  }

  function OneEntry(x: Pte): Frame {
    Table(ZeroTable().e[0 := x])
  }

  /** The entry that links to a lower table: present, writable, user. */
  function TablePte(z: nat): Pte {
    Pte(z, true, true, true, false, false, 0)
  }

  /** A 1 GiB page of zeros at address 0: the processor maps it, `translate` finds nothing. */
  lemma GiantPageMissed()
    ensures var m: Mem := map[1 := OneEntry(TablePte(2)),
                              2 := OneEntry(Pte(0x40000, true, true, true, true, false, 0)),
                              0x40000 := ZeroTable()];
      Translate(m, 1, 0) == None && Walk(m, 1, 0) == Some(0x4000_0000)
  {
  }

  /** A 2 MiB entry with its attribute bit 12 set: `translate` takes that bit for a frame bit. */
  lemma AttributeMisread()
    ensures var m: Mem := map[1 := OneEntry(TablePte(2)), 2 := OneEntry(TablePte(3)),
                              3 := OneEntry(Pte(0x201, true, true, true, true, false, 0))];
      Translate(m, 1, 0) == Some(0x20_1000) && Walk(m, 1, 0) == Some(0x20_0000)
  {
    var x := Pte(0x201, true, true, true, true, false, 0);
    var m: Mem := map[1 := OneEntry(TablePte(2)), 2 := OneEntry(TablePte(3)), 3 := OneEntry(x)];
    assert Entry(m, 1, 0) == TablePte(2) && Entry(m, 2, 0) == TablePte(3) && Entry(m, 3, 0) == x;
  }

  // ----- the map that tables stand for

  /** The physical address of `virt` in the page that a leaf maps. */
  function Address(l: Option<Leaf>, virt: nat): Option<nat> {
    if l.Some? then Some(l.value.pfn * PAGE_SIZE + virt % PAGE_SIZE) else None
  }

  /** `translate` reads the entries that the meaning of a tree is defined by, except that it takes a large
      entry of a page directory also if it is not present. */
  lemma TranslateIsLookup(m: Mem, root: nat, virt: nat)
    ensures var e4 := Entry(m, root, Pml4Idx(virt));
      var e3 := Entry(m, e4.pfn, PdptIdx(virt));
      var e2 := Entry(m, e3.pfn, PdIdx(virt));
      !(e4.present && e3.present && e2.large && !e2.present) ==>
        Translate(m, root, virt) == Address(Lookup(m, 4, root, PageOf(virt)), virt)
  {
    PageIndices(virt);
    var vp := PageOf(virt);
    hide Idx, PageOf, Pml4Idx, PdptIdx, PdIdx, PtIdx;
    var e4 := Entry(m, root, Idx(4, vp));
    if e4.present {
      var e3 := Entry(m, e4.pfn, Idx(3, vp));
      assert Lookup(m, 4, root, vp) == Lookup(m, 3, e4.pfn, vp);
      if e3.present {
        assert Lookup(m, 3, e4.pfn, vp) == Lookup(m, 2, e3.pfn, vp);
        var e2 := Entry(m, e3.pfn, Idx(2, vp));
        if e2.present && !e2.large {
          assert Lookup(m, 2, e3.pfn, vp) == Lookup(m, 1, e2.pfn, vp);
        }
      }
    }
  }

  /** `translate` reads the map that the tables stand for. */
  lemma TranslateIsView(m: Mem, root: nat, lim: nat, virt: nat)
    requires TreeOk(m, 4, root, lim) && PageOf(virt) < Limit(lim)
    ensures Translate(m, root, virt) ==
      var view, vp := View(m, root, lim), PageOf(virt);
      if vp in view then Some(view[vp].pfn * PAGE_SIZE + virt % PAGE_SIZE) else None
  {
    TranslateIsLookup(m, root, virt);
    PageIndices(virt);
    var vp := PageOf(virt);
    InLimit(vp, lim);
    hide Idx, PageOf, Pml4Idx, PdptIdx, PdIdx, PtIdx, Translate;
    assert SlotOk(m, 4, root, lim, Idx(4, vp));
    var e4 := Entry(m, root, Idx(4, vp));
    if e4.present {
      assert SlotOk(m, 3, e4.pfn, lim, Idx(3, vp));
      var e3 := Entry(m, e4.pfn, Idx(3, vp));
      if e3.present {
        assert SlotOk(m, 2, e3.pfn, lim, Idx(2, vp));
      }
    }
  }

  lemma AlignedBase(f: nat, i: nat)
    requires i < 512 && (f + i) % 512 == i
    ensures f % 512 == 0
  {
  }

  /** On a tree whose 2 MiB entries are aligned the processor reads that map too. */
  lemma WalkIsView(m: Mem, root: nat, lim: nat, virt: nat)
    requires TreeOk(m, 4, root, lim) && PageOf(virt) < Limit(lim)
    requires var view, vp := View(m, root, lim), PageOf(virt);
      vp in view && view[vp].large ==> view[vp].pfn % 512 == vp % 512
    ensures Walk(m, root, virt) == Translate(m, root, virt)
  {
    TranslateIsWalk(m, root, virt);
    PageIndices(virt);
    var vp := PageOf(virt);
    InLimit(vp, lim);
    hide Idx, PageOf, Pml4Idx, PdptIdx, PdIdx, PtIdx, Translate, Walk;
    assert SlotOk(m, 4, root, lim, Idx(4, vp));
    var e4 := Entry(m, root, Idx(4, vp));
    if e4.present {
      assert SlotOk(m, 3, e4.pfn, lim, Idx(3, vp));
      var e3 := Entry(m, e4.pfn, Idx(3, vp));
      if e3.present {
        assert SlotOk(m, 2, e3.pfn, lim, Idx(2, vp));
        var e2 := Entry(m, e3.pfn, Idx(2, vp));
        if e2.large {
          assert Lookup(m, 3, e4.pfn, vp) == Lookup(m, 2, e3.pfn, vp) == Some(LargeLeaf(e2, vp % 512));
          assert Lookup(m, 4, root, vp) == Lookup(m, 3, e4.pfn, vp);
          AlignedBase(e2.pfn, vp % 512);
        }
      }
    }
  }

  /** The tables that the processor visits below the root are among the given ones. */
  predicate WalkWithin(m: Mem, root: nat, virt: nat, tables: set<nat>) {
    var e4 := Entry(m, root, Pml4Idx(virt));
    e4.present && !e4.large ==>
      && e4.pfn in tables
      && var e3 := Entry(m, e4.pfn, PdptIdx(virt));
         e3.present && !e3.large ==>
           && e3.pfn in tables
           && var e2 := Entry(m, e3.pfn, PdIdx(virt));
              e2.present && !e2.large ==> e2.pfn in tables
  }

  lemma AboveLimit(vp: nat, lim: nat)
    requires Limit(lim) <= vp < 0x10_0000_0000
    ensures lim <= Idx(4, vp) < ENTRIES
  {
  }

  /** Addresses under the slots from `lim` up are walked alike from two roots that share those slots and the
      tables under them, whatever large entries there are. */
  lemma UpperWalks(m: Mem, root: nat, m': Mem, g: nat, lim: nat, virt: nat, tables: set<nat>)
    requires SameUpper(m, root, m', g, lim) && Limit(lim) <= PageOf(virt)
    requires WalkWithin(m, root, virt, tables) && tables <= m.Keys && Agree(m, m', tables)
    ensures Walk(m', g, virt) == Walk(m, root, virt)
    ensures !LargeAbove(m, root, virt) ==> Translate(m', g, virt) == Translate(m, root, virt)
  {
    PageIndices(virt);
    AboveLimit(PageOf(virt), lim);
    hide Idx, PageOf, PdptIdx, PdIdx, PtIdx, Limit, Pml4Idx, LargeAddress;
    assert Entry(m', g, Pml4Idx(virt)) == Entry(m, root, Pml4Idx(virt));
  }

  /** The tables that the walk of `vp` from `root` visits below the root are in `m'` as they are in `m`. */
  ghost predicate WalkKept(m: Mem, root: nat, m': Mem, vp: nat) {
    forall low: nat :: 1 <= low <= 3 && TableOn(m, 4, root, vp, low).Some? ==>
      var t := TableOn(m, 4, root, vp, low).value;
      t in m && t in m' && m'[t] == m[t]
  }

  /** Addresses under the slots from `lim` up translate alike from two roots that share those slots. */
  lemma UpperTranslates(m: Mem, root: nat, m': Mem, g: nat, lim: nat, virt: nat)
    requires SameUpper(m, root, m', g, lim) && Limit(lim) <= PageOf(virt) && WalkKept(m, root, m', PageOf(virt))
    ensures Translate(m', g, virt) == Translate(m, root, virt)
  {
    PageIndices(virt);
    var vp := PageOf(virt);
    AboveLimit(vp, lim);
    hide Idx, PageOf, Pml4Idx, PdptIdx, PdIdx, PtIdx, Limit;
    var e4 := Entry(m, root, Idx(4, vp));
    if e4.present {
      var e3 := Entry(m, e4.pfn, Idx(3, vp));
      assert TableOn(m, 3, e4.pfn, vp, 3) == Some(e4.pfn);
      assert TableOn(m, 4, root, vp, 3) == Some(e4.pfn);
      if e3.present {
        NextOnPath(m, 4, root, vp, 3, e4.pfn);
        var e2 := Entry(m, e3.pfn, Idx(2, vp));
        if e2.present && !e2.large {
          NextOnPath(m, 4, root, vp, 2, e3.pfn);
        }
      }
    }
  }

  /** The access bits a caller passes. */
  datatype Flags = Flags(writable: bool, user: bool, noExec: bool, rest: nat)

  function MakePte(pfn: nat, fl: Flags, large: bool): Pte {
    Pte(pfn, true, fl.writable, fl.user, large, fl.noExec, fl.rest)
  }

  function MakeLeaf(pfn: nat, fl: Flags): Leaf {
    Leaf(pfn, fl.writable, fl.user, fl.noExec, fl.rest, false)
  }

  /** The frame number in bits 12 to 51 of a physical address. */
  function PfnOf(phys: nat): nat {
    phys / PAGE_SIZE % 0x100_0000_0000
  }

  /** The tables that the walk of `vp` visits below the root are in memory and not among `own`. */
  ghost predicate WalkOutside(m: Mem, root: nat, vp: nat, own: set<nat>) {
    forall low: nat :: 1 <= low <= 3 && TableOn(m, 4, root, vp, low).Some? ==>
      TableOn(m, 4, root, vp, low).value in m.Keys - own
  }
}
