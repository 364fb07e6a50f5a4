/** A FAT32 partition as a run of bytes: where files lie on it, and writing them there. */
module FatVolumes {
  import opened Basics
  import opened Blocks
  import opened Exec
  import opened Fat32

  // ----- the drive byte by byte

  function DiskByte(disk: Disk, b: nat): byte {
    if b / SECTOR in disk then disk[b / SECTOR][b % SECTOR] else 0
  }

  lemma SectorPlace(lba: nat, k: nat)
    ensures (lba * SECTOR + k) / SECTOR == lba + k / SECTOR && (lba * SECTOR + k) % SECTOR == k % SECTOR
  {
    QuotientUnique(lba * SECTOR + k, SECTOR, lba + k / SECTOR, k % SECTOR);
  }

  /** Sectors read one after the other are consecutive bytes of the drive. */
  lemma {:induction false} SectorsByte(disk: Disk, lba: nat, n: nat, k: nat)
    requires k < n * SECTOR
    ensures Sectors(disk, lba, n)[k] == DiskByte(disk, lba * SECTOR + k)
    decreases n
  {
    if k < SECTOR {
      SectorPlace(lba, k);
    } else {
      SectorsByte(disk, lba + 1, n - 1, k - SECTOR);
      assert (lba + 1) * SECTOR + (k - SECTOR) == lba * SECTOR + k;
    }
  }

  // ----- where things are

  /** The first byte of a cluster: cluster 2 starts the data region, and each next one starts where the one
      before it ends. */
  function PlaceOf(ctx: Ctx, c: nat): nat
    requires c >= 2
  {
    if c == 2 then ctx.dataStart * SECTOR else PlaceOf(ctx, c - 1) + ctx.spc * SECTOR
  }

  lemma {:induction false} PlaceIs(ctx: Ctx, c: nat)
    requires c >= 2
    ensures PlaceOf(ctx, c) == ClusterLba(ctx, c) * SECTOR
  {
    if c > 2 {
      PlaceIs(ctx, c - 1);
      assert (c - 2) * ctx.spc == (c - 3) * ctx.spc + ctx.spc;
    }
  }

  lemma {:induction false} PlacesApart(ctx: Ctx, c: nat, d: nat)
    requires 2 <= c < d
    ensures PlaceOf(ctx, c) + ClusterBytes(ctx) <= PlaceOf(ctx, d)
    decreases d
  {
    if c < d - 1 {
      PlacesApart(ctx, c, d - 1);
    }
  }

  lemma {:induction false} PlaceInData(ctx: Ctx, c: nat)
    requires c >= 2
    ensures ctx.dataStart * SECTOR <= PlaceOf(ctx, c)
  {
    if c > 2 { PlaceInData(ctx, c - 1); }
  }

  /** Byte `k` of a cluster. */
  lemma ClusterByte(ctx: Ctx, disk: Disk, c: nat, k: nat)
    requires c >= 2 && k < ClusterBytes(ctx)
    ensures Cluster(ctx, disk, c)[k] == DiskByte(disk, PlaceOf(ctx, c) + k)
  {
    PlaceIs(ctx, c);
    SectorsByte(disk, ClusterLba(ctx, c), ctx.spc, k);
  }

  /** Byte `k` of cluster number `i` of a chain is a byte of the contents. */
  lemma ContentsByte(ctx: Ctx, disk: Disk, chain: seq<nat>, i: nat, k: nat)
    requires Clusters(chain) && i < |chain| && k < ClusterBytes(ctx)
    ensures i * ClusterBytes(ctx) + k < |Contents(ctx, disk, chain)|
    ensures Contents(ctx, disk, chain)[i * ClusterBytes(ctx) + k] == DiskByte(disk, PlaceOf(ctx, chain[i]) + k)
  {
    ContentsAt(ctx, disk, chain, i);
    ClusterByte(ctx, disk, chain[i], k);
    hide Contents, Cluster, ClusterBytes, DiskByte, PlaceOf;
    var n := ClusterBytes(ctx);
    assert Contents(ctx, disk, chain)[i * n..i * n + n][k] == Contents(ctx, disk, chain)[i * n + k];
  }

  /** The first byte of a cluster's entry in the table: four bytes for each, from number 0 on. */
  function EntryPlace(ctx: Ctx, c: nat): nat {
    ctx.fatStart * SECTOR + 4 * c
  }

  /** The four bytes of an entry, lowest first. */
  function FourBytes(disk: Disk, b: nat): seq<byte> {
    [DiskByte(disk, b), DiskByte(disk, b + 1), DiskByte(disk, b + 2), DiskByte(disk, b + 3)]
  }

  /** An entry is the number in those bytes without its upper four bits. */
  lemma EntryBytes(ctx: Ctx, disk: Disk, c: nat)
    ensures Entry(ctx, disk, c) == FromBytes(FourBytes(disk, EntryPlace(ctx, c))) % 0x1000_0000
    ensures EntryPlace(ctx, c) / SECTOR == ctx.fatStart + c * 4 / SECTOR
  {
    EntryInSector(c);
    var lba, off := ctx.fatStart + c * 4 / SECTOR, c * 4 % SECTOR;
    SectorPlace(ctx.fatStart, 4 * c);
    assert lba * SECTOR + off == EntryPlace(ctx, c);
    hide Sectors, FromBytes, DiskByte, EntryPlace;
    var s := Sectors(disk, lba, 1);
    SectorsByte(disk, lba, 1, off);
    SectorsByte(disk, lba, 1, off + 1);
    SectorsByte(disk, lba, 1, off + 2);
    SectorsByte(disk, lba, 1, off + 3);
    assert s[off..off + 4] == [s[off], s[off + 1], s[off + 2], s[off + 3]];
  }

  // ----- writing

  /** The drive with one byte replaced, if its sector is there. */
  function PutByte(disk: Disk, b: nat, x: byte): (r: Disk)
    ensures r.Keys == disk.Keys
  {
    if b / SECTOR !in disk then disk
    else
      var sector: seq<byte> := disk[b / SECTOR][b % SECTOR := x];
      disk[b / SECTOR := sector]
  }

  function PutBytes(disk: Disk, b: nat, bytes: seq<byte>): (r: Disk)
    ensures r.Keys == disk.Keys
    decreases |bytes|
  {
    if bytes == [] then disk else PutBytes(PutByte(disk, b, bytes[0]), b + 1, bytes[1..])
  }

  lemma PutByteAt(disk: Disk, b: nat, v: byte, x: nat)
    requires b / SECTOR in disk
    ensures DiskByte(PutByte(disk, b, v), x) == if x == b then v else DiskByte(disk, x)
  {
    assert x / SECTOR == b / SECTOR && x % SECTOR == b % SECTOR ==> x == b;
  }

  ghost predicate Present(disk: Disk, b: nat, n: nat) {
    forall x: nat :: b <= x < b + n ==> x / SECTOR in disk
  }

  lemma {:induction false} PutBytesAt(disk: Disk, b: nat, bytes: seq<byte>, x: nat)
    requires Present(disk, b, |bytes|)
    ensures DiskByte(PutBytes(disk, b, bytes), x) == if b <= x < b + |bytes| then bytes[x - b] else DiskByte(disk, x)
    decreases |bytes|
  {
    hide DiskByte, PutByte;
    if bytes != [] {
      PutByteAt(disk, b, bytes[0], x);
      PutBytesAt(PutByte(disk, b, bytes[0]), b + 1, bytes[1..], x);
    }
  }

  /** How a table is written: its mark for the end of a chain, and the four upper bits, which are reserved. */
  datatype Style = Style(end: nat, upper: nat)

  predicate StyleOk(style: Style) {
    style.upper < 16 && (style.end < 2 || 0x0FFF_FFF8 <= style.end < 0x1000_0000)
  }

  /** The entry of the cluster in place `i`. */
  function NextOf(style: Style, clusters: seq<nat>, i: nat): nat
    requires i < |clusters|
  {
    style.upper * 0x1000_0000 + if i + 1 < |clusters| then clusters[i + 1] else style.end
  }

  /** The part of the data that goes to the cluster in place `i`. */
  function Part(data: seq<byte>, cs: nat, i: nat): seq<byte> {
    if (i + 1) * cs <= |data| then ClusterMultiples(i, i, cs); data[i * cs..(i + 1) * cs]
    else if i * cs <= |data| then data[i * cs..] else []
  }

  function WriteTable(ctx: Ctx, style: Style, disk: Disk, clusters: seq<nat>, n: nat): (r: Disk)
    requires n <= |clusters|
    ensures r.Keys == disk.Keys
  {
    if n == 0 then disk
    else PutBytes(WriteTable(ctx, style, disk, clusters, n - 1), EntryPlace(ctx, clusters[n - 1]),
                  ToBytes(NextOf(style, clusters, n - 1), 4))
  }

  function WriteData(ctx: Ctx, disk: Disk, clusters: seq<nat>, data: seq<byte>, n: nat): (r: Disk)
    requires n <= |clusters| && Clusters(clusters)
    ensures r.Keys == disk.Keys
  {
    if n == 0 then disk
    else PutBytes(WriteData(ctx, disk, clusters, data, n - 1), PlaceOf(ctx, clusters[n - 1]),
                  Part(data, ClusterBytes(ctx), n - 1))
  }

  /** A file laid out over the given clusters. */
  function WriteFile(ctx: Ctx, style: Style, disk: Disk, clusters: seq<nat>, data: seq<byte>): Disk
    requires Clusters(clusters)
  {
    WriteData(ctx, WriteTable(ctx, style, disk, clusters, |clusters|), clusters, data, |clusters|)
  }

  /** The clusters are cluster numbers of the volume, each used once, with their table entries before the data
      region and all their sectors on the drive. */
  ghost predicate OnVolume(ctx: Ctx, disk: Disk, clusters: seq<nat>) {
    && Distinct(clusters)
    && forall i :: 0 <= i < |clusters| ==>
         && 2 <= clusters[i] < 0x0FFF_FFF8
         && EntryPlace(ctx, clusters[i]) + 4 <= ctx.dataStart * SECTOR
         && Present(disk, EntryPlace(ctx, clusters[i]), 4)
         && Present(disk, PlaceOf(ctx, clusters[i]), ClusterBytes(ctx))
  }

  lemma PartSize(data: seq<byte>, cs: nat, i: nat)
    ensures |Part(data, cs, i)| <= cs && (i + 1) * cs == i * cs + cs
    ensures forall k :: 0 <= k < cs && i * cs + k < |data| ==>
      k < |Part(data, cs, i)| && Part(data, cs, i)[k] == data[i * cs + k]
  {
    ClusterMultiples(i, i, cs);
  }

  lemma SamePresent(disk: Disk, d: Disk, b: nat, n: nat)
    requires Present(disk, b, n) && d.Keys == disk.Keys
    ensures forall m: nat :: m <= n ==> Present(d, b, m)
  {
  }

  lemma {:induction false} TableByte(ctx: Ctx, style: Style, disk: Disk, clusters: seq<nat>, n: nat, i: nat, j: nat)
    requires OnVolume(ctx, disk, clusters) && i < n <= |clusters| && j < 4
    ensures DiskByte(WriteTable(ctx, style, disk, clusters, n), EntryPlace(ctx, clusters[i]) + j) ==
      ToBytes(NextOf(style, clusters, i), 4)[j]
    decreases n
  {
    hide DiskByte, ToBytes, NextOf, PutBytes, Present;
    var d := WriteTable(ctx, style, disk, clusters, n - 1);
    SamePresent(disk, d, EntryPlace(ctx, clusters[n - 1]), 4);
    var x := EntryPlace(ctx, clusters[i]) + j;
    PutBytesAt(d, EntryPlace(ctx, clusters[n - 1]), ToBytes(NextOf(style, clusters, n - 1), 4), x);
    if i < n - 1 {
      assert clusters[i] != clusters[n - 1];
      TableByte(ctx, style, disk, clusters, n - 1, i, j);
    }
  }

  lemma {:induction false} TableKept(ctx: Ctx, disk: Disk, clusters: seq<nat>, data: seq<byte>, n: nat, b: nat)
    requires OnVolume(ctx, disk, clusters) && Clusters(clusters) && n <= |clusters| && b < ctx.dataStart * SECTOR
    ensures DiskByte(WriteData(ctx, disk, clusters, data, n), b) == DiskByte(disk, b)
    decreases n
  {
    hide DiskByte, PutBytes, Present, Part, PlaceOf, ClusterBytes;
    if n > 0 {
      var d, c := WriteData(ctx, disk, clusters, data, n - 1), clusters[n - 1];
      var part := Part(data, ClusterBytes(ctx), n - 1);
      PartSize(data, ClusterBytes(ctx), n - 1);
      SamePresent(disk, d, PlaceOf(ctx, c), ClusterBytes(ctx));
      PutBytesAt(d, PlaceOf(ctx, c), part, b);
      PlaceInData(ctx, c);
      TableKept(ctx, disk, clusters, data, n - 1, b);
    }
  }

  lemma {:induction false} DataByte(ctx: Ctx, disk: Disk, clusters: seq<nat>, data: seq<byte>, n: nat, i: nat, k: nat)
    requires OnVolume(ctx, disk, clusters) && Clusters(clusters) && i < n <= |clusters|
    requires k < |Part(data, ClusterBytes(ctx), i)|
    ensures DiskByte(WriteData(ctx, disk, clusters, data, n), PlaceOf(ctx, clusters[i]) + k) ==
      Part(data, ClusterBytes(ctx), i)[k]
    decreases n
  {
    hide DiskByte, PutBytes, Present, Part, PlaceOf, ClusterBytes;
    var d, c := WriteData(ctx, disk, clusters, data, n - 1), clusters[n - 1];
    var part := Part(data, ClusterBytes(ctx), n - 1);
    PartSize(data, ClusterBytes(ctx), n - 1);
    PartSize(data, ClusterBytes(ctx), i);
    SamePresent(disk, d, PlaceOf(ctx, c), ClusterBytes(ctx));
    PutBytesAt(d, PlaceOf(ctx, c), part, PlaceOf(ctx, clusters[i]) + k);
    if i < n - 1 {
      assert clusters[i] != c;
      if clusters[i] < c { PlacesApart(ctx, clusters[i], c); } else { PlacesApart(ctx, c, clusters[i]); }
      DataByte(ctx, disk, clusters, data, n - 1, i, k);
    }
  }

  lemma FourRadix()
    ensures Radix(4) == 0x1_0000_0000
  {
    assert Radix(2) == 65536;
  }

  lemma VolumeKept(ctx: Ctx, disk: Disk, d: Disk, clusters: seq<nat>)
    requires OnVolume(ctx, disk, clusters) && d.Keys == disk.Keys
    ensures OnVolume(ctx, d, clusters)
  {
    hide PlaceOf, EntryPlace;
  }

  lemma FourFrom(disk: Disk, b: nat, bytes: seq<byte>)
    requires |bytes| == 4 && forall j: nat :: j < 4 ==> DiskByte(disk, b + j) == bytes[j]
    ensures FourBytes(disk, b) == bytes
  {
    hide DiskByte;
    assert DiskByte(disk, b + 0) == bytes[0];
  }

  lemma FourWritten(ctx: Ctx, style: Style, disk: Disk, clusters: seq<nat>, i: nat)
    requires OnVolume(ctx, disk, clusters) && i < |clusters|
    ensures FourBytes(WriteTable(ctx, style, disk, clusters, |clusters|), EntryPlace(ctx, clusters[i])) ==
      ToBytes(NextOf(style, clusters, i), 4)
  {
    hide OnVolume, DiskByte, WriteTable, ToBytes, NextOf, EntryPlace, FourBytes;
    var t, b, e := WriteTable(ctx, style, disk, clusters, |clusters|), EntryPlace(ctx, clusters[i]),
                   NextOf(style, clusters, i);
    forall j: nat | j < 4 ensures DiskByte(t, b + j) == ToBytes(e, 4)[j] {
      TableByte(ctx, style, disk, clusters, |clusters|, i, j);
    }
    FourFrom(t, b, ToBytes(e, 4));
  }

  /** The data of a file does not reach the table. */
  lemma FourKept(ctx: Ctx, disk: Disk, clusters: seq<nat>, data: seq<byte>, b: nat)
    requires OnVolume(ctx, disk, clusters) && Clusters(clusters) && b + 4 <= ctx.dataStart * SECTOR
    ensures FourBytes(WriteData(ctx, disk, clusters, data, |clusters|), b) == FourBytes(disk, b)
  {
    hide OnVolume, DiskByte, WriteData, Clusters;
    TableKept(ctx, disk, clusters, data, |clusters|, b);
    TableKept(ctx, disk, clusters, data, |clusters|, b + 1);
    TableKept(ctx, disk, clusters, data, |clusters|, b + 2);
    TableKept(ctx, disk, clusters, data, |clusters|, b + 3);
  }

  lemma FourBack(ctx: Ctx, style: Style, disk: Disk, clusters: seq<nat>, data: seq<byte>, i: nat)
    requires OnVolume(ctx, disk, clusters) && Clusters(clusters) && i < |clusters|
    ensures FourBytes(WriteFile(ctx, style, disk, clusters, data), EntryPlace(ctx, clusters[i])) ==
      ToBytes(NextOf(style, clusters, i), 4)
  {
    var t, b := WriteTable(ctx, style, disk, clusters, |clusters|), EntryPlace(ctx, clusters[i]);
    assert b + 4 <= ctx.dataStart * SECTOR && t.Keys == disk.Keys;
    VolumeKept(ctx, disk, t, clusters);
    hide OnVolume, Clusters, WriteTable, WriteData, FourBytes, ToBytes, NextOf, EntryPlace;
    FourWritten(ctx, style, disk, clusters, i);
    FourKept(ctx, t, clusters, data, b);
  }

  lemma EntryBack(ctx: Ctx, disk: Disk, c: nat, e: nat)
    requires FourBytes(disk, EntryPlace(ctx, c)) == ToBytes(e, 4) && e < 0x1_0000_0000
    requires EntryPlace(ctx, c) / SECTOR in disk
    ensures var n := e % 0x1000_0000;
      NextCluster(ctx, disk, c) == Ok(if 2 <= n < 0x0FFF_FFF8 then n else 0)
  {
    EntryBytes(ctx, disk, c);
    FourRadix();
    WordRoundTrip(e, 4);
    hide FourBytes, ToBytes, FromBytes, Radix, Entry, EntryPlace;
    assert Readable(disk, ctx.fatStart + c * 4 / SECTOR, 1);
  }

  /** The link of each cluster leads to the next, and the last one's ends the chain. */
  lemma LinkBack(ctx: Ctx, style: Style, disk: Disk, clusters: seq<nat>, data: seq<byte>, i: nat)
    requires OnVolume(ctx, disk, clusters) && Clusters(clusters) && i < |clusters| && StyleOk(style)
    ensures NextCluster(ctx, WriteFile(ctx, style, disk, clusters, data), clusters[i]) ==
      Ok(if i + 1 < |clusters| then clusters[i + 1] else 0)
  {
    var d, e := WriteFile(ctx, style, disk, clusters, data), NextOf(style, clusters, i);
    var low := if i + 1 < |clusters| then clusters[i + 1] else style.end;
    QuotientUnique(e, 0x1000_0000, style.upper, low);
    assert e < 0x1_0000_0000 && (2 <= low < 0x0FFF_FFF8 <==> i + 1 < |clusters|);
    assert Present(disk, EntryPlace(ctx, clusters[i]), 4) && d.Keys == disk.Keys;
    assert EntryPlace(ctx, clusters[i]) / SECTOR in d;
    FourBack(ctx, style, disk, clusters, data, i);
    hide OnVolume, WriteFile, NextCluster, EntryPlace, FourBytes, ToBytes;
    EntryBack(ctx, d, clusters[i], e);
  }

  ghost predicate LinkedAt(ctx: Ctx, disk: Disk, clusters: seq<nat>, i: nat)
    requires i < |clusters|
  {
    NextCluster(ctx, disk, clusters[i]) == Ok(if i + 1 < |clusters| then clusters[i + 1] else 0)
  }

  lemma {:induction false} ChainBack(ctx: Ctx, disk: Disk, clusters: seq<nat>, i: nat, room: nat)
    requires Clusters(clusters) && i < |clusters| && |clusters| - i <= room
    requires forall j: nat :: j < |clusters| ==> LinkedAt(ctx, disk, clusters, j)
    ensures ChainFrom(ctx, disk, clusters[i], room) == Ok(clusters[i..])
    decreases |clusters| - i
  {
    hide NextCluster;
    assert LinkedAt(ctx, disk, clusters, i);
    if i + 1 < |clusters| {
      ChainBack(ctx, disk, clusters, i + 1, room - 1);
      assert clusters[i..] == [clusters[i]] + clusters[i + 1..];
    } else {
      assert clusters[i..] == [clusters[i]];
    }
  }

  lemma AllReadable(ctx: Ctx, disk: Disk, d: Disk, clusters: seq<nat>, offset: nat, end: nat)
    requires OnVolume(ctx, disk, clusters) && Clusters(clusters) && d.Keys == disk.Keys
    ensures NeededReadable(ctx, d, clusters, |clusters|, offset, end)
  {
    hide Needed, PlaceOf;
    forall i | 0 <= i < |clusters| ensures ClusterReadable(ctx, d, clusters[i]) {
      var c := clusters[i];
      assert Present(disk, PlaceOf(ctx, c), ClusterBytes(ctx));
      PlaceIs(ctx, c);
      forall s: nat | ClusterLba(ctx, c) <= s < ClusterLba(ctx, c) + ctx.spc ensures s in d {
        SectorPlace(s, 0);
        assert s * SECTOR / SECTOR in disk;
      }
    }
  }

  lemma Locate(x: nat, cs: nat, n: nat) returns (i: nat, k: nat)
    requires cs > 0 && x < n * cs
    ensures i < n && k < cs && x == i * cs + k
  {
    i, k := x / cs, x % cs;
    if i >= n {
      ClusterMultiples(n, i, cs);
    }
  }

  ghost predicate HoldsAt(ctx: Ctx, disk: Disk, clusters: seq<nat>, data: seq<byte>, i: nat, k: nat)
    requires Clusters(clusters) && i < |clusters|
  {
    k < |Part(data, ClusterBytes(ctx), i)| ==>
      DiskByte(disk, PlaceOf(ctx, clusters[i]) + k) == Part(data, ClusterBytes(ctx), i)[k]
  }

  lemma ContentsFrom(ctx: Ctx, disk: Disk, clusters: seq<nat>, data: seq<byte>, x: nat)
    requires Clusters(clusters) && CtxOk(ctx) && x < |data| <= |clusters| * ClusterBytes(ctx)
    requires forall i: nat, k: nat :: i < |clusters| ==> HoldsAt(ctx, disk, clusters, data, i, k)
    ensures x < |Contents(ctx, disk, clusters)| && Contents(ctx, disk, clusters)[x] == data[x]
  {
    var cs := ClusterBytes(ctx);
    assert cs > 0;
    hide Contents, DiskByte, PlaceOf, Part, ClusterBytes, Clusters;
    var i, k := Locate(x, cs, |clusters|);
    assert HoldsAt(ctx, disk, clusters, data, i, k);
    PartSize(data, cs, i);
    ContentsByte(ctx, disk, clusters, i, k);
  }

  lemma FileHeld(ctx: Ctx, style: Style, disk: Disk, clusters: seq<nat>, data: seq<byte>, i: nat, k: nat)
    requires OnVolume(ctx, disk, clusters) && Clusters(clusters) && i < |clusters|
    ensures HoldsAt(ctx, WriteFile(ctx, style, disk, clusters, data), clusters, data, i, k)
  {
    var t := WriteTable(ctx, style, disk, clusters, |clusters|);
    VolumeKept(ctx, disk, t, clusters);
    hide OnVolume, WriteTable, WriteData, Clusters, DiskByte, Part, PlaceOf, ClusterBytes;
    if k < |Part(data, ClusterBytes(ctx), i)| {
      DataByte(ctx, t, clusters, data, |clusters|, i, k);
    }
  }

  lemma ContentsBack(ctx: Ctx, style: Style, disk: Disk, clusters: seq<nat>, data: seq<byte>)
    requires OnVolume(ctx, disk, clusters) && Clusters(clusters) && CtxOk(ctx)
    requires |data| <= |clusters| * ClusterBytes(ctx)
    ensures data <= Contents(ctx, WriteFile(ctx, style, disk, clusters, data), clusters)
  {
    var d := WriteFile(ctx, style, disk, clusters, data);
    hide OnVolume, Contents, Clusters, WriteFile, HoldsAt, ClusterBytes, CtxOk;
    forall i: nat, k: nat | i < |clusters| ensures HoldsAt(ctx, d, clusters, data, i, k) {
      FileHeld(ctx, style, disk, clusters, data, i, k);
    }
    forall x: nat | x < |data| ensures x < |Contents(ctx, d, clusters)| && Contents(ctx, d, clusters)[x] == data[x] {
      ContentsFrom(ctx, d, clusters, data, x);
    }
  }

  lemma FileFrom(ctx: Ctx, disk: Disk, clusters: seq<nat>, data: seq<byte>, size: nat)
    requires clusters != [] && Clusters(clusters) && ChainOf(ctx, disk, clusters[0]) == Ok(clusters)
    requires NeededReadable(ctx, disk, clusters, |clusters|, 0, size)
    requires data <= Contents(ctx, disk, clusters) && size <= |data|
    ensures FileOf(ctx, disk, clusters[0], size) == Ok(data[..size])
  {
    hide ChainOf, NeededReadable, Contents;
    var all := Contents(ctx, disk, clusters);
    assert all[..size] == data[..size];
  }

  /** The round trip: a file laid out over any clusters of the volume, in any order, reads back, whatever mark ends
      the chain and whatever the reserved bits are. */
  lemma FileRoundTrip(ctx: Ctx, style: Style, disk: Disk, clusters: seq<nat>, data: seq<byte>, size: nat)
    requires CtxOk(ctx) && OnVolume(ctx, disk, clusters) && StyleOk(style) && 0 < |clusters| <= 1_000_001
    requires size <= |data| <= |clusters| * ClusterBytes(ctx)
    ensures Clusters(clusters)
    ensures FileOf(ctx, WriteFile(ctx, style, disk, clusters, data), clusters[0], size) == Ok(data[..size])
  {
    var d := WriteFile(ctx, style, disk, clusters, data);
    assert d.Keys == disk.Keys && Clusters(clusters);
    hide WriteFile, Contents, ChainFrom, NeededReadable, OnVolume, Clusters, FileOf, NextCluster;
    forall j: nat | j < |clusters| ensures LinkedAt(ctx, d, clusters, j) {
      LinkBack(ctx, style, disk, clusters, data, j);
    }
    ChainBack(ctx, d, clusters, 0, CHAIN_LIMIT + 1);
    assert clusters[0..] == clusters;
    AllReadable(ctx, disk, d, clusters, 0, size);
    ContentsBack(ctx, style, disk, clusters, data);
    FileFrom(ctx, d, clusters, data, size);
  }
}
