/** Slabs: pages that hold a header and objects of one size, the free ones linked through their own
    first word. */
module Slabs {
  import opened Basics
  import opened Blocks
  import opened LinkedLists

  /** Size of the slab header. */
  const SLAB_HEADER: nat := 48

  predicate IsSize(size: nat) {
    || size == 8 || size == 16 || size == 32 || size == 64 || size == 128 || size == 256 || size == 512 || size == 1024
    || size == 2048
  }

  function HeaderSize(size: nat): nat
    requires size > 0
  {
    AlignUp(SLAB_HEADER, size)
  }

  lemma SizeFits(size: nat)
    requires IsSize(size)
    ensures SLAB_HEADER <= HeaderSize(size) <= PAGE_SIZE - size && HeaderSize(size) % size == 0 && PAGE_SIZE % size == 0
  {
  }

  function Capacity(size: nat): nat
    requires IsSize(size)
  {
    SizeFits(size);
    (PAGE_SIZE - HeaderSize(size)) / size
  }

  lemma SizeFacts(size: nat)
    requires IsSize(size)
    ensures Capacity(size) >= 1 && HeaderSize(size) + Capacity(size) * size <= PAGE_SIZE
    ensures Capacity(size) == 1 <==> size == 2048
  {
  }

  function PageBase(p: nat): nat {
    p - p % PAGE_SIZE
  }

  /** `p` is the place of an object in the slab at `s`: past the header, inside the page, and aligned. */
  predicate IsObj(size: nat, s: nat, p: nat) {
    size > 0 && s + SLAB_HEADER <= p && p + size <= s + PAGE_SIZE && p % size == 0
  }

  lemma ObjPage(size: nat, s: nat, p: nat)
    requires s % PAGE_SIZE == 0 && IsObj(size, s, p)
    ensures PageBase(p) == s && p > 0
  {
  }

  /** Two places for objects of one size do not overlap. */
  lemma ObjsApart(size: nat, p: nat, q: nat)
    requires size > 0 && p % size == 0 && q % size == 0 && p < q
    ensures p + size <= q
  {
    var a, b := p / size, q / size;
    assert p == a * size && q == b * size;
    assert (b - a) * size == q - p;
    Product(b - a, size);
  }

  /** The object places of a fresh slab, lowest first. */
  function Objs(start: nat, size: nat, n: nat): (r: seq<nat>)
    ensures |r| == n
    decreases n
  {
    if n == 0 then [] else [start] + Objs(start + size, size, n - 1)
  }

  lemma NextAligned(x: nat, size: nat)
    requires size > 0 && x % size == 0
    ensures (x + size) % size == 0
  {
    assert x + size == (x / size + 1) * size;
    QuotientUnique(x + size, size, x / size + 1, 0);
  }

  lemma {:induction false} ObjsOk(s: nat, size: nat, start: nat, n: nat)
    requires size > 0 && s + SLAB_HEADER <= start && start + n * size <= s + PAGE_SIZE && start % size == 0
    ensures forall p :: p in Objs(start, size, n) ==> IsObj(size, s, p) && p >= start
    ensures Distinct(Objs(start, size, n))
    decreases n
  {
    if n > 0 {
      assert n * size == (n - 1) * size + size;
      assert (n - 1) * size >= 0;
      NextAligned(start, size);
      ObjsOk(s, size, start + size, n - 1);
      var t := Objs(start + size, size, n - 1);
      assert forall j :: 0 <= j < |t| ==> t[j] in t;
    }
  }

  /** The objects handed out from the page at `s`. */
  ghost function In(objs: map<nat, nat>, s: nat): set<nat> {
    set p | p in objs && s <= p < s + PAGE_SIZE
  }

  /** One slab: its free objects are chained from its head, the others are handed out, and the use
      count is right. */
  ghost predicate SlabOk(s: nat, size: nat, head: nat, used: nat, link: map<nat, nat>, fr: seq<nat>,
                         objs: map<nat, nat>) {
    && s % PAGE_SIZE == 0 && s > 0 && IsSize(size)
    && Chain(link, head, fr) && Distinct(fr)
    && (forall p :: p in fr ==> IsObj(size, s, p) && p !in objs)
    && (forall p :: p in In(objs, s) ==> IsObj(size, s, p) && objs[p] == size)
    && used + |fr| == Capacity(size) && used == |In(objs, s)|
  }

  lemma FirstFree(link: map<nat, nat>, head: nat, fr: seq<nat>)
    requires Chain(link, head, fr) && Distinct(fr) && head != 0
    ensures fr != [] && head == fr[0] && head in link && head in fr && head !in fr[1..]
  {
  }

  lemma InMore(objs: map<nat, nat>, s: nat, p: nat, size: nat)
    requires p !in objs && s <= p < s + PAGE_SIZE
    ensures In(objs[p := size], s) == In(objs, s) + {p} && p !in In(objs, s)
    ensures forall q :: q in In(objs, s) ==> q in objs
  {
  }

  lemma SlabTake(s: nat, size: nat, head: nat, used: nat, link: map<nat, nat>, fr: seq<nat>, objs: map<nat, nat>)
    requires SlabOk(s, size, head, used, link, fr, objs) && head != 0
    ensures fr != [] && head == fr[0] && head in link && head !in objs && IsObj(size, s, head)
    ensures SlabOk(s, size, link[head], used + 1, link, fr[1..], objs[head := size])
  {
    hide IsSize, Capacity, In;
    FirstFree(link, head, fr);
    ChainPop(link, head, fr);
    hide Chain;
    assert IsObj(size, s, head) && head !in objs;
    InMore(objs, s, head, size);
    hide IsObj;
    assert forall p :: p in fr[1..] ==> p in fr && p != head;
  }

  lemma SlabGive(s: nat, size: nat, head: nat, used: nat, link: map<nat, nat>, fr: seq<nat>, objs: map<nat, nat>,
                 p: nat)
    requires SlabOk(s, size, head, used, link, fr, objs) && p in In(objs, s)
    ensures used > 0 && SlabOk(s, size, p, used - 1, link[p := head], [p] + fr, objs - {p})
  {
    ObjPage(size, s, p);
    ChainPush(link, head, fr, p);
    hide Chain, Distinct;
    assert In(objs - {p}, s) == In(objs, s) - {p};
  }

  /** What happens outside a slab's page leaves the slab alone. */
  lemma SlabKept(s: nat, size: nat, head: nat, used: nat, link: map<nat, nat>, fr: seq<nat>, objs: map<nat, nat>,
                 link': map<nat, nat>, objs': map<nat, nat>)
    requires SlabOk(s, size, head, used, link, fr, objs)
    requires forall p :: p in link && s <= p < s + PAGE_SIZE ==> p in link' && link'[p] == link[p]
    requires forall p :: s <= p < s + PAGE_SIZE ==> (p in objs <==> p in objs') && (p in objs ==> objs'[p] == objs[p])
    ensures SlabOk(s, size, head, used, link', fr, objs')
  {
    forall p | p in fr && p in link ensures p in link' && link'[p] == link[p] {
      assert IsObj(size, s, p);
    }
    ChainFrame(link, link', head, fr);
    hide Chain, Distinct;
    assert In(objs', s) == In(objs, s);
  }

  ghost predicate SlabAt(size: map<nat, nat>, free: map<nat, nat>, used: map<nat, nat>, link: map<nat, nat>,
                         fr: map<nat, seq<nat>>, objs: map<nat, nat>, s: nat)
  {
    && s in size && s in free && s in used && s in fr
    && SlabOk(s, size[s], free[s], used[s], link, fr[s], objs)
  }

  ghost predicate SlabsOk(size: map<nat, nat>, free: map<nat, nat>, used: map<nat, nat>, link: map<nat, nat>,
                          fr: map<nat, seq<nat>>, objs: map<nat, nat>)
  {
    && free.Keys == size.Keys && used.Keys == size.Keys && fr.Keys == size.Keys
    && (forall s :: s in size ==> SlabAt(size, free, used, link, fr, objs, s))
    && (forall p :: p in objs ==> PageBase(p) in size)
  }

  /** The slab pages are apart. */
  lemma PagesApart(s: nat, t: nat)
    requires s % PAGE_SIZE == 0 && t % PAGE_SIZE == 0 && s != t
    ensures s + PAGE_SIZE <= t || t + PAGE_SIZE <= s
  {
  }

  lemma SlabCount(s: nat, size: nat, head: nat, used: nat, link: map<nat, nat>, fr: seq<nat>, objs: map<nat, nat>)
    requires SlabOk(s, size, head, used, link, fr, objs)
    ensures s % PAGE_SIZE == 0 && s > 0 && IsSize(size) && used + |fr| == Capacity(size) && (fr == [] <==> head == 0)
    ensures forall p :: p in objs && s <= p < s + PAGE_SIZE ==> p in In(objs, s) && IsObj(size, s, p) && objs[p] == size
    ensures used == |In(objs, s)|
  {
  }

  lemma SlabsTake(size: map<nat, nat>, free: map<nat, nat>, used: map<nat, nat>, link: map<nat, nat>,
                  fr: map<nat, seq<nat>>, objs: map<nat, nat>, s: nat)
    requires SlabsOk(size, free, used, link, fr, objs) && s in size && free[s] != 0
    ensures var p := free[s];
      && p in link && p !in objs && IsObj(size[s], s, p) && IsSize(size[s]) && s % PAGE_SIZE == 0 && fr[s] != []
      && used[s] + 1 <= Capacity(size[s]) && (used[s] + 1 == Capacity(size[s]) <==> fr[s][1..] == [])
      && SlabsOk(size, free[s := link[p]], used[s := used[s] + 1], link, fr[s := fr[s][1..]], objs[p := size[s]])
  {
    hide SlabOk;
    assert SlabAt(size, free, used, link, fr, objs, s);
    var p := free[s];
    SlabTake(s, size[s], p, used[s], link, fr[s], objs);
    SlabCount(s, size[s], link[p], used[s] + 1, link, fr[s][1..], objs[p := size[s]]);
    ObjPage(size[s], s, p);
    var free', used', fr', objs' := free[s := link[p]], used[s := used[s] + 1], fr[s := fr[s][1..]], objs[p := size[s]];
    forall t | t in size ensures SlabAt(size, free', used', link, fr', objs', t) {
      assert SlabAt(size, free, used, link, fr, objs, t);
      if t != s {
        SlabCount(t, size[t], free[t], used[t], link, fr[t], objs);
        PagesApart(s, t);
        SlabKept(t, size[t], free[t], used[t], link, fr[t], objs, link, objs');
      }
    }
  }

  /** Only the first words of its free objects matter to a slab. */
  lemma SlabLinks(s: nat, size: nat, head: nat, used: nat, link: map<nat, nat>, link': map<nat, nat>, fr: seq<nat>,
                  objs: map<nat, nat>)
    requires SlabOk(s, size, head, used, link, fr, objs)
    requires forall q :: q in fr && q in link ==> q in link' && link'[q] == link[q]
    ensures SlabOk(s, size, head, used, link', fr, objs)
  {
    ChainFrame(link, link', head, fr);
    hide Chain, Distinct, IsObj, IsSize, Capacity, In;
  }

  lemma SlabsGive(size: map<nat, nat>, free: map<nat, nat>, used: map<nat, nat>, link: map<nat, nat>,
                  fr: map<nat, seq<nat>>, objs: map<nat, nat>, s: nat, p: nat)
    requires SlabsOk(size, free, used, link, fr, objs) && p in objs && s == PageBase(p)
    ensures s in size && s in used && s in fr && s in free && used[s] > 0 && IsSize(size[s]) && objs[p] == size[s]
    ensures used[s] <= Capacity(size[s]) && (used[s] == Capacity(size[s]) <==> fr[s] == [])
    ensures SlabsOk(size, free[s := p], used[s := used[s] - 1], link[p := free[s]], fr[s := [p] + fr[s]], objs - {p})
  {
    hide SlabOk;
    assert SlabAt(size, free, used, link, fr, objs, s);
    SlabCount(s, size[s], free[s], used[s], link, fr[s], objs);
    SlabGive(s, size[s], free[s], used[s], link, fr[s], objs, p);
    var free', used', link' := free[s := p], used[s := used[s] - 1], link[p := free[s]];
    var fr', objs' := fr[s := [p] + fr[s]], objs - {p};
    forall t | t in size ensures SlabAt(size, free', used', link', fr', objs', t) {
      assert SlabAt(size, free, used, link, fr, objs, t);
      if t != s {
        SlabCount(t, size[t], free[t], used[t], link, fr[t], objs);
        PagesApart(s, t);
        SlabKept(t, size[t], free[t], used[t], link, fr[t], objs, link', objs');
      }
    }
  }

  /** A slab without objects in use can be dropped. */
  lemma SlabsDrop(size: map<nat, nat>, free: map<nat, nat>, used: map<nat, nat>, link: map<nat, nat>,
                  fr: map<nat, seq<nat>>, objs: map<nat, nat>, s: nat)
    requires SlabsOk(size, free, used, link, fr, objs) && s in size && used[s] == 0
    ensures SlabsOk(size - {s}, free - {s}, used - {s}, link, fr - {s}, objs)
  {
    hide SlabOk;
    assert SlabAt(size, free, used, link, fr, objs, s);
    SlabCount(s, size[s], free[s], used[s], link, fr[s], objs);
    forall p | p in objs ensures PageBase(p) in size - {s} {
      assert In(objs, s) == {};
    }
    forall t | t in size - {s} ensures SlabAt(size - {s}, free - {s}, used - {s}, link, fr - {s}, objs, t) {
      assert SlabAt(size, free, used, link, fr, objs, t);
    }
  }

  lemma Distribute(a: nat, b: nat, c: nat, z: nat)
    ensures a * (b * z) + c * z == (a * b + c) * z
  {
  }

  lemma Multiples(s: nat, page: nat, h: nat, z: nat)
    requires z > 0 && page > 0 && s % page == 0 && page % z == 0 && h % z == 0
    ensures (s + h) % z == 0
  {
    var a, b, c := s / page, page / z, h / z;
    Distribute(a, b, c, z);
    assert page == b * z && s == a * page && h == c * z;
    QuotientUnique(s + h, z, a * b + c, 0);
  }

  lemma StartAligned(s: nat, z: nat)
    requires s % PAGE_SIZE == 0 && IsSize(z)
    ensures (s + HeaderSize(z)) % z == 0
  {
    hide HeaderSize;
    SizeFits(z);
    Multiples(s, PAGE_SIZE, HeaderSize(z), z);
  }

  lemma FreshList(s: nat, z: nat)
    requires s % PAGE_SIZE == 0 && IsSize(z)
    ensures var list := Objs(s + HeaderSize(z), z, Capacity(z));
      Distinct(list) && forall p :: p in list ==> IsObj(z, s, p)
  {
    SizeFits(z);
    SizeFacts(z);
    StartAligned(s, z);
    ObjsOk(s, z, s + HeaderSize(z), Capacity(z));
  }

  lemma {:induction false} ObjsHave(start: nat, size: nat, n: nat, i: nat)
    requires i < n
    ensures start + i * size in Objs(start, size, n)
    decreases n
  {
    var t := Objs(start + size, size, n - 1);
    assert Objs(start, size, n) == [start] + t;
    if i > 0 {
      ObjsHave(start + size, size, n - 1, i - 1);
      assert start + size + (i - 1) * size == start + i * size;
    }
  }

  /** The header takes as little as the alignment allows, and the objects as much of the rest as fits. */
  lemma CapacityTight(z: nat)
    requires IsSize(z)
    ensures HeaderSize(z) < SLAB_HEADER + z && PAGE_SIZE < HeaderSize(z) + Capacity(z) * z + z
  {
    SizeFits(z);
    hide IsSize;
    var x := PAGE_SIZE - HeaderSize(z);
    assert x == x / z * z + x % z;
  }

  lemma Smaller(x: nat, y: nat, z: nat)
    ensures x * z < y * z ==> x < y
  {
    if x >= y {
      assert x * z == y * z + (x - y) * z;
    }
  }

  /** Between multiples of `z`, one that is less than `n` of them past another is some number of them past it. */
  lemma PlaceNumber(b: nat, p: nat, z: nat, n: nat) returns (i: nat)
    requires z > 0 && b % z == 0 && p % z == 0 && b < p + z && p < b + n * z
    ensures i < n && p == b + i * z
  {
    var x, y := b / z, p / z;
    assert b == x * z && p == y * z;
    assert (y + 1) * z == p + z && (x + n) * z == b + n * z;
    Smaller(x, y + 1, z);
    Smaller(y, x + n, z);
    i := y - x;
    assert i * z == y * z - x * z;
  }

  /** The objects of a fresh slab are all the places that there are. */
  lemma FreshListFull(s: nat, z: nat, p: nat)
    requires s % PAGE_SIZE == 0 && IsSize(z)
    ensures p in Objs(s + HeaderSize(z), z, Capacity(z)) <==> IsObj(z, s, p)
  {
    FreshList(s, z);
    if IsObj(z, s, p) {
      assert s + SLAB_HEADER <= p && p + z <= s + PAGE_SIZE && p % z == 0 && z > 0;
      CapacityTight(z);
      StartAligned(s, z);
      hide HeaderSize, Capacity, IsSize, Objs, IsObj;
      var i := PlaceNumber(s + HeaderSize(z), p, z, Capacity(z));
      ObjsHave(s + HeaderSize(z), z, Capacity(z), i);
    }
  }

  lemma SlabFresh(size: map<nat, nat>, free: map<nat, nat>, used: map<nat, nat>, link: map<nat, nat>,
                  fr: map<nat, seq<nat>>,
                  objs: map<nat, nat>, s: nat, z: nat, head: nat, list: seq<nat>, link': map<nat, nat>)
    requires SlabsOk(size, free, used, link, fr, objs) && s !in size && s % PAGE_SIZE == 0 && s > 0 && IsSize(z)
    requires list == Objs(s + HeaderSize(z), z, Capacity(z)) && Chain(link', head, list)
    ensures SlabOk(s, z, head, 0, link', list, objs)
  {
    hide Chain, Objs, HeaderSize, Capacity, SlabAt, IsSize;
    FreshList(s, z);
    forall p | p in objs ensures !(s <= p < s + PAGE_SIZE) {
      assert PageBase(p) in size;
    }
    assert In(objs, s) == {};
    forall p | p in list ensures p !in objs {
      assert IsObj(z, s, p);
    }
  }

  /** A fresh slab is added; `link'` holds its free list and is otherwise `link`. */
  lemma SlabsAdd(size: map<nat, nat>, free: map<nat, nat>, used: map<nat, nat>, link: map<nat, nat>,
                 fr: map<nat, seq<nat>>,
                 objs: map<nat, nat>, s: nat, z: nat, head: nat, list: seq<nat>, link': map<nat, nat>)
    requires SlabsOk(size, free, used, link, fr, objs) && s !in size && s % PAGE_SIZE == 0 && s > 0 && IsSize(z)
    requires list == Objs(s + HeaderSize(z), z, Capacity(z)) && Chain(link', head, list)
    requires forall p :: p in link && !(s <= p < s + PAGE_SIZE) ==> p in link' && link'[p] == link[p]
    ensures SlabsOk(size[s := z], free[s := head], used[s := 0], link', fr[s := list], objs)
  {
    hide SlabOk, Chain, IsSize, HeaderSize, Capacity, Objs;
    SlabFresh(size, free, used, link, fr, objs, s, z, head, list, link');
    var size', free', used', fr' := size[s := z], free[s := head], used[s := 0], fr[s := list];
    forall t | t in size' ensures SlabAt(size', free', used', link', fr', objs, t) {
      if t != s {
        assert SlabAt(size, free, used, link, fr, objs, t);
        SlabCount(t, size[t], free[t], used[t], link, fr[t], objs);
        PagesApart(s, t);
        SlabKept(t, size[t], free[t], used[t], link, fr[t], objs, link', objs);
      }
    }
  }
}
