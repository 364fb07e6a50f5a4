/** Reading files from a FAT32 partition. */
module Fat32 {
  import opened Basics
  import opened Blocks
  import opened Exec

  const SECTOR: nat := 512
  const CHAIN_LIMIT: nat := 1_000_000

  datatype Errno = EIO

  type IoResult<T> = Result<T, Errno>

  /** The readable sectors of the drive; reading any other fails. */
  type Disk = m: map<nat, seq<byte>> | forall s :: s in m ==> |m[s]| == SECTOR

  datatype Ctx = Ctx(spc: nat, fatStart: nat, dataStart: nat)

  predicate CtxOk(ctx: Ctx) {
    0 < ctx.spc < 0x1_0000
  }

  function ClusterBytes(ctx: Ctx): nat {
    ctx.spc * SECTOR
  }

  function ClusterLba(ctx: Ctx, c: nat): nat
    requires c >= 2
  {
    ctx.dataStart + (c - 2) * ctx.spc
  }

  predicate Readable(disk: Disk, lba: nat, n: nat) {
    forall s: nat :: lba <= s < lba + n ==> s in disk
  }

  /** The contents of consecutive sectors; one that cannot be read counts as zeros. */
  function Sectors(disk: Disk, lba: nat, n: nat): (r: seq<byte>)
    ensures |r| == n * SECTOR
    decreases n
  {
    if n == 0 then [] else (if lba in disk then disk[lba] else seq(SECTOR, _ => 0)) + Sectors(disk, lba + 1, n - 1)
  }

  lemma OneSectorMore(disk: Disk, lba: nat, n: nat, i: nat, data: seq<byte>)
    requires i < n && lba + i in disk && Sectors(disk, lba, n) == data + Sectors(disk, lba + i, n - i)
    ensures Sectors(disk, lba, n) == data + disk[lba + i] + Sectors(disk, lba + (i + 1), n - (i + 1))
  {
    var rest := Sectors(disk, lba + (i + 1), n - (i + 1));
    assert Sectors(disk, lba + i, n - i) == disk[lba + i] + rest;
    hide Sectors;
    assert data + (disk[lba + i] + rest) == data + disk[lba + i] + rest;
  }

  lemma NoSector(disk: Disk, lba: nat, data: seq<byte>)
    ensures data + Sectors(disk, lba, 0) == data
  {
  }

  /** `read_sectors`: all of the sectors or an error. */
  method ReadSectors(disk: Disk, lba: nat, n: nat) returns (r: IoResult<seq<byte>>)
    ensures r.Ok? <==> Readable(disk, lba, n)
    ensures r.Ok? ==> r.value == Sectors(disk, lba, n)
  {
    hide Sectors;
    var data: seq<byte> := [];
    var i := 0;
    while i < n
      invariant i <= n && Readable(disk, lba, i) && Sectors(disk, lba, n) == data + Sectors(disk, lba + i, n - i)
    {
      if lba + i !in disk {
        return Err(EIO);
      }
      OneSectorMore(disk, lba, n, i, data);
      data := data + disk[lba + i];
      i := i + 1;
    }
    NoSector(disk, lba + i, data);
    r := Ok(data);
  }

  // ----- the cluster chain

  /** The four bytes of an entry lie in one sector. */
  lemma EntryInSector(c: nat)
    ensures c * 4 % SECTOR + 4 <= SECTOR
  {
    QuotientUnique(c * 4, SECTOR, c / 128, c % 128 * 4);
  }

  /** The entry of a cluster in the allocation table. */
  function Entry(ctx: Ctx, disk: Disk, c: nat): nat {
    EntryInSector(c);
    var at := c * 4;
    FromBytes(Sectors(disk, ctx.fatStart + at / SECTOR, 1)[at % SECTOR..at % SECTOR + 4]) % 0x1000_0000
  }

  /** `next_cluster`; no next cluster is 0. */
  function NextCluster(ctx: Ctx, disk: Disk, c: nat): (r: IoResult<nat>)
    ensures r.Ok? ==> r.value == 0 || 2 <= r.value < 0x0FFF_FFF8
  {
    if !Readable(disk, ctx.fatStart + c * 4 / SECTOR, 1) then Err(EIO)
    else
      var e := Entry(ctx, disk, c);
      if e < 2 || e >= 0x0FFF_FFF8 then Ok(0) else Ok(e)
  }

  function Prepended(c: nat, r: IoResult<seq<nat>>): IoResult<seq<nat>> {
    if r.Err? then r else Ok([c] + r.value)
  }

  /** The chain from `c`, at most `room` clusters of it. */
  function ChainFrom(ctx: Ctx, disk: Disk, c: nat, room: nat): (r: IoResult<seq<nat>>)
    requires room > 0
    ensures r.Ok? ==> |r.value| <= room && forall i :: 0 <= i < |r.value| ==> r.value[i] >= 2
    decreases room
  {
    if c < 2 then Ok([])
    else match NextCluster(ctx, disk, c)
    case Err(e) => Err(e)
    case Ok(next) =>
      if next == 0 || room == 1 then Ok([c]) else Prepended(c, ChainFrom(ctx, disk, next, room - 1))
  }

  predicate Clusters(chain: seq<nat>) {
    forall i :: 0 <= i < |chain| ==> chain[i] >= 2
  }

  function ChainOf(ctx: Ctx, disk: Disk, start: nat): (r: IoResult<seq<nat>>)
    ensures r.Ok? ==> Clusters(r.value)
  {
    ChainFrom(ctx, disk, start, CHAIN_LIMIT + 1)
  }

  /** The chain follows the table from the start to an end marker, or is cut off at the limit; so it ends
      for every table, also a cyclic one. */
  lemma {:induction false} ChainFollows(ctx: Ctx, disk: Disk, c: nat, room: nat)
    requires room > 0 && ChainFrom(ctx, disk, c, room).Ok? && c >= 2
    ensures var r := ChainFrom(ctx, disk, c, room).value;
      && r != [] && r[0] == c
      && (forall i :: 0 <= i < |r| - 1 ==> NextCluster(ctx, disk, r[i]) == Ok(r[i + 1]))
      && (NextCluster(ctx, disk, r[|r| - 1]) == Ok(0) || |r| == room)
    decreases room
  {
    hide NextCluster;
    var next := NextCluster(ctx, disk, c).value;
    if next != 0 && room > 1 {
      ChainFollows(ctx, disk, next, room - 1);
    }
  }

  function Join(a: seq<nat>, r: IoResult<seq<nat>>): IoResult<seq<nat>> {
    if r.Err? then r else Ok(a + r.value)
  }

  lemma Joined(a: seq<nat>, r: IoResult<seq<nat>>)
    requires a == []
    ensures Join(a, r) == r
  {
    if r.Ok? { assert a + r.value == r.value; }
  }

  lemma JoinMore(a: seq<nat>, c: nat, r: IoResult<seq<nat>>)
    ensures Join(a, Prepended(c, r)) == Join(a + [c], r)
  {
    if r.Ok? { assert a + ([c] + r.value) == (a + [c]) + r.value; }
  }

  /** `cluster_chain`. */
  method ClusterChain(ctx: Ctx, disk: Disk, start: nat) returns (r: IoResult<seq<nat>>)
    ensures r == ChainOf(ctx, disk, start)
  {
    hide NextCluster;
    var chain: seq<nat> := [];
    var c := start;
    ghost var room := CHAIN_LIMIT + 1;
    Joined([], ChainFrom(ctx, disk, start, room));
    while c >= 2
      invariant |chain| + room == CHAIN_LIMIT + 1 && room > 0
      invariant ChainOf(ctx, disk, start) == Join(chain, ChainFrom(ctx, disk, c, room))
      decreases room
    {
      var next := NextCluster(ctx, disk, c);
      if next.Err? {
        return Err(next.error);
      }
      chain := chain + [c];
      if next.value == 0 {
        return Ok(chain);
      }
      if |chain| > CHAIN_LIMIT {
        return Ok(chain);
      }
      JoinMore(chain[..|chain| - 1], c, ChainFrom(ctx, disk, next.value, room - 1));
      assert chain[..|chain| - 1] + [c] == chain;
      c := next.value;
      room := room - 1;
    }
    assert chain + [] == chain;
    r := Ok(chain);
  }

  // ----- file contents

  function Cluster(ctx: Ctx, disk: Disk, c: nat): (r: seq<byte>)
    requires c >= 2
    ensures |r| == ClusterBytes(ctx)
  {
    Sectors(disk, ClusterLba(ctx, c), ctx.spc)
  }

  predicate ClusterReadable(ctx: Ctx, disk: Disk, c: nat)
    requires c >= 2
  {
    Readable(disk, ClusterLba(ctx, c), ctx.spc)
  }

  /** The clusters of a chain, one after the other. */
  function Contents(ctx: Ctx, disk: Disk, chain: seq<nat>): (r: seq<byte>)
    requires Clusters(chain)
    ensures |r| == |chain| * ClusterBytes(ctx)
  {
    if chain == [] then []
    else
      var n := |chain| - 1;
      assert (n + 1) * ClusterBytes(ctx) == n * ClusterBytes(ctx) + ClusterBytes(ctx);
      Contents(ctx, disk, chain[..n]) + Cluster(ctx, disk, chain[n])
  }

  lemma SlicesOf(a: seq<byte>, c: seq<byte>, i: nat, j: nat)
    requires i <= j <= |a|
    ensures (a + c)[i..j] == a[i..j] && (a + c)[|a|..|a| + |c|] == c
  {
  }

  lemma ClusterMultiples(i: nat, n: nat, cs: nat)
    requires i <= n
    ensures i * cs <= n * cs && (i + 1) * cs == i * cs + cs
  {
    assert n * cs == i * cs + (n - i) * cs;
    assert (n - i) * cs >= 0;
  }

  lemma {:induction false} ContentsAt(ctx: Ctx, disk: Disk, chain: seq<nat>, i: nat)
    requires Clusters(chain) && i < |chain|
    ensures i * ClusterBytes(ctx) + ClusterBytes(ctx) <= |Contents(ctx, disk, chain)|
    ensures var n := ClusterBytes(ctx);
      Contents(ctx, disk, chain)[i * n..i * n + n] == Cluster(ctx, disk, chain[i])
    decreases |chain|
  {
    hide Cluster, ClusterBytes;
    var n, cs := |chain| - 1, ClusterBytes(ctx);
    var all := Contents(ctx, disk, chain);
    var a, c := Contents(ctx, disk, chain[..n]), Cluster(ctx, disk, chain[n]);
    assert all == a + c;
    hide Contents;
    ClusterMultiples(i, n, cs);
    ClusterMultiples(n, n, cs);
    if i < n {
      ContentsAt(ctx, disk, chain[..n], i);
      ClusterMultiples(i + 1, n, cs);
      SlicesOf(a, c, i * cs, i * cs + cs);
    } else {
      SlicesOf(a, c, 0, 0);
    }
  }

  function Min(a: nat, b: nat): nat {
    if a < b then a else b
  }

  /** The number of bytes between `offset` and `end`. */
  function From(offset: nat, end: nat): nat {
    if end > offset then end - offset else 0
  }

  /** Cluster number `i` of the chain holds bytes between `offset` and `end`. */
  predicate Needed(ctx: Ctx, i: nat, offset: nat, end: nat) {
    i * ClusterBytes(ctx) < end && i * ClusterBytes(ctx) + ClusterBytes(ctx) > offset
  }

  /** Every cluster needed among the first `n` can be read. */
  predicate NeededReadable(ctx: Ctx, disk: Disk, chain: seq<nat>, n: nat, offset: nat, end: nat)
    requires Clusters(chain) && n <= |chain|
  {
    forall i :: 0 <= i < n && Needed(ctx, i, offset, end) ==> ClusterReadable(ctx, disk, chain[i])
  }

  /** `bytes` is the slice of `all` from `offset` up to `end`, as far as the first `upto` bytes go. */
  ghost predicate SliceDone(all: seq<byte>, upto: nat, offset: nat, end: nat, bytes: seq<byte>) {
    && |bytes| == From(offset, Min(upto, end))
    && (bytes != [] ==> offset + |bytes| <= |all| && bytes == all[offset..offset + |bytes|])
  }

  /** The buffer with `bytes` stored from `at` on. */
  function Filled(b: seq<byte>, at: nat, bytes: seq<byte>): (r: seq<byte>)
    requires at + |bytes| <= |b|
    ensures |r| == |b|
  {
    b[..at] + bytes + b[at + |bytes|..]
  }

  lemma FillMore(b: seq<byte>, at: nat, bytes: seq<byte>, data: seq<byte>)
    requires at + |bytes| + |data| <= |b|
    ensures Filled(Filled(b, at, bytes), at + |bytes|, data) == Filled(b, at, bytes + data)
  {
  }

  lemma SliceOf(all: seq<byte>, start: nat, cs: nat, a: nat, b: nat)
    requires start + cs <= |all| && a <= b <= cs
    ensures all[start..start + cs][a..b] == all[start + a..start + b]
  {
    var x, y := all[start..start + cs][a..b], all[start + a..start + b];
    assert |x| == |y| && forall k :: 0 <= k < |x| ==> x[k] == all[start + a + k] == y[k];
  }

  /** One more cluster of the slice. */
  lemma SliceMore(all: seq<byte>, start: nat, cs: nat, offset: nat, end: nat, bytes: seq<byte>, inStart: nat,
                  inEnd: nat)
    requires SliceDone(all, start, offset, end, bytes) && start + cs <= |all|
    requires start < end && start + cs > offset && offset < end
    requires inStart == From(start, offset) && inEnd == Min(end, start + cs) - start
    ensures inStart <= inEnd <= cs && start + inStart == offset + |bytes| && |bytes| + inEnd - inStart <= end - offset
    ensures SliceDone(all, start + cs, offset, end, bytes + all[start..start + cs][inStart..inEnd])
  {
    SliceOf(all, start, cs, inStart, inEnd);
    assert bytes + all[start + inStart..start + inEnd] == all[offset..start + inEnd];
  }

  method ReadCluster(ctx: Ctx, disk: Disk, c: nat) returns (r: IoResult<seq<byte>>)
    requires c >= 2
    ensures r.Ok? <==> ClusterReadable(ctx, disk, c)
    ensures r.Ok? ==> r.value == Cluster(ctx, disk, c)
  {
    r := ReadSectors(disk, ClusterLba(ctx, c), ctx.spc);
  }

  method CopyIn(buf: array<byte>, dst: nat, data: seq<byte>)
    requires dst + |data| <= buf.Length
    modifies buf
    ensures buf[..] == Filled(old(buf[..]), dst, data)
  {
    forall k | 0 <= k < |data| {
      buf[dst + k] := data[k];
    }
  }

  /** Reads one needed cluster and copies its part of the slice. */
  method CopyCluster(ctx: Ctx, disk: Disk, chain: seq<nat>, i: nat, start: nat, offset: nat, end: nat, buf: array<byte>,
                     at: nat, ghost b0: seq<byte>, ghost bytes: seq<byte>)
    returns (r: IoResult<nat>, ghost more: seq<byte>)
    requires Clusters(chain) && i < |chain| && offset < end && |b0| == buf.Length && at + (end - offset) <= |b0|
    requires start == i * ClusterBytes(ctx) && start < end && start + ClusterBytes(ctx) > offset
    requires SliceDone(Contents(ctx, disk, chain), start, offset, end, bytes) && |bytes| <= end - offset
    requires buf[..] == Filled(b0, at, bytes)
    modifies buf
    ensures r.Ok? <==> ClusterReadable(ctx, disk, chain[i])
    ensures r.Ok? ==>
      && |more| == |bytes| + r.value <= end - offset && buf[..] == Filled(b0, at, more)
      && SliceDone(Contents(ctx, disk, chain), start + ClusterBytes(ctx), offset, end, more)
  {
    hide Contents, Cluster, ClusterReadable, Filled;
    var cs := ClusterBytes(ctx);
    var data := ReadCluster(ctx, disk, chain[i]);
    if data.Err? {
      return Err(EIO), [];
    }
    var inStart := if start < offset then offset - start else 0;
    var inEnd := Min(end, start + cs) - start;
    ContentsAt(ctx, disk, chain, i);
    hide ClusterBytes;
    SliceMore(Contents(ctx, disk, chain), start, cs, offset, end, bytes, inStart, inEnd);
    hide SliceDone;
    more := bytes + data.value[inStart..inEnd];
    FillMore(b0, at, bytes, data.value[inStart..inEnd]);
    CopyIn(buf, at + (start + inStart - offset), data.value[inStart..inEnd]);
    r := Ok(inEnd - inStart);
  }

  lemma NotNeeded(ctx: Ctx, i: nat, offset: nat, end: nat)
    requires i * ClusterBytes(ctx) + ClusterBytes(ctx) <= offset
    ensures !Needed(ctx, i, offset, end)
  {
  }

  lemma RestNotNeeded(ctx: Ctx, i: nat, n: nat, offset: nat, end: nat)
    requires i <= n && i * ClusterBytes(ctx) >= end
    ensures n * ClusterBytes(ctx) >= end && forall j :: i <= j < n ==> !Needed(ctx, j, offset, end)
  {
    ClusterMultiples(i, n, ClusterBytes(ctx));
    forall j | i <= j < n ensures !Needed(ctx, j, offset, end) {
      ClusterMultiples(i, j, ClusterBytes(ctx));
    }
  }

  lemma NeededNow(ctx: Ctx, i: nat, offset: nat, end: nat)
    requires i * ClusterBytes(ctx) < end && i * ClusterBytes(ctx) + ClusterBytes(ctx) > offset
    ensures Needed(ctx, i, offset, end)
  {
  }

  /** The loop of `read` over the chain. */
  method ReadChain(ctx: Ctx, disk: Disk, chain: seq<nat>, offset: nat, toRead: nat, buf: array<byte>, at: nat)
    returns (r: IoResult<nat>, ghost bytes: seq<byte>)
    requires Clusters(chain) && toRead > 0 && at + toRead <= buf.Length
    modifies buf
    ensures r.Ok? <==> NeededReadable(ctx, disk, chain, |chain|, offset, offset + toRead)
    ensures r.Ok? ==>
      && r.value == |bytes| <= toRead && buf[..] == Filled(old(buf[..]), at, bytes)
      && SliceDone(Contents(ctx, disk, chain), |chain| * ClusterBytes(ctx), offset, offset + toRead, bytes)
  {
    hide Contents, Cluster, ClusterBytes, ClusterReadable, Needed;
    ghost var all, b0 := Contents(ctx, disk, chain), buf[..];
    var cs := ClusterBytes(ctx);
    var end := offset + toRead;
    var done, i, start := 0, 0, 0;
    bytes := [];
    while i < |chain|
      invariant i <= |chain| && done == |bytes| <= toRead && start == i * cs
      invariant SliceDone(all, start, offset, end, bytes) && buf[..] == Filled(b0, at, bytes)
      invariant NeededReadable(ctx, disk, chain, i, offset, end)
    {
      ClusterMultiples(i, |chain|, cs);
      if start + cs <= offset {
        NotNeeded(ctx, i, offset, end);
      } else if start >= end {
        RestNotNeeded(ctx, i, |chain|, offset, end);
        return Ok(done), bytes;
      } else {
        hide SliceDone, Filled;
        NeededNow(ctx, i, offset, end);
        var n, more := CopyCluster(ctx, disk, chain, i, start, offset, end, buf, at, b0, bytes);
        if n.Err? {
          return Err(EIO), bytes;
        }
        bytes := more;
        done := done + n.value;
      }
      start := start + cs;
      i := i + 1;
    }
    r := Ok(done);
  }

  /** `read` of a file inode into the part of the buffer from `at` on: the slice of the chained clusters at
      `offset`, as long as the buffer, the file size and the chain allow; the rest of the buffer is untouched. */
  method Read(ctx: Ctx, disk: Disk, cluster: nat, size: nat, offset: nat, buf: array<byte>, at: nat)
    returns (r: IoResult<nat>, ghost bytes: seq<byte>)
    requires CtxOk(ctx) && at <= buf.Length
    modifies buf
    ensures offset >= size || at == buf.Length ==> r == Ok(0) && buf[..] == old(buf[..])
    ensures offset < size && at < buf.Length ==>
      var end := offset + Min(buf.Length - at, size - offset);
      var chain := ChainOf(ctx, disk, cluster);
      && (r.Ok? <==> chain.Ok? && NeededReadable(ctx, disk, chain.value, |chain.value|, offset, end))
      && (r.Ok? ==>
            && r.value == |bytes| <= buf.Length - at && buf[..] == Filled(old(buf[..]), at, bytes)
            && SliceDone(Contents(ctx, disk, chain.value), |Contents(ctx, disk, chain.value)|, offset, end, bytes))
  {
    if offset >= size || at == buf.Length {
      return Ok(0), [];
    }
    var toRead := if buf.Length - at < size - offset then buf.Length - at else size - offset;
    var chain := ClusterChain(ctx, disk, cluster);
    if chain.Err? {
      return Err(EIO), [];
    }
    hide ChainOf, Contents, ClusterBytes, NeededReadable, SliceDone, Filled;
    r, bytes := ReadChain(ctx, disk, chain.value, offset, toRead, buf, at);
  }

  // ----- whole files

  lemma NothingFilled(b: seq<byte>, at: nat)
    requires at <= |b|
    ensures Filled(b, at, []) == b
  {
  }

  lemma NeededLater(ctx: Ctx, disk: Disk, chain: seq<nat>, from: nat, end: nat)
    requires Clusters(chain) && NeededReadable(ctx, disk, chain, |chain|, 0, end)
    ensures NeededReadable(ctx, disk, chain, |chain|, from, end)
  {
    forall i | 0 <= i < |chain| && Needed(ctx, i, from, end) ensures ClusterReadable(ctx, disk, chain[i]) {
      assert Needed(ctx, i, 0, end);
    }
  }

  lemma FilledPrefix(b: seq<byte>, at: nat, bytes: seq<byte>, all: seq<byte>)
    requires at + |bytes| <= |b| && at + |bytes| <= |all| && b[..at] == all[..at] && bytes == all[at..at + |bytes|]
    ensures Filled(b, at, bytes)[..at + |bytes|] == all[..at + |bytes|]
  {
    assert all[..at + |bytes|] == all[..at] + all[at..at + |bytes|];
  }

  /** The whole file: what the file size and the chain allow, if the chain and the clusters needed can be read. */
  function FileOf(ctx: Ctx, disk: Disk, cluster: nat, size: nat): IoResult<seq<byte>> {
    if size == 0 then Ok([])
    else
      match ChainOf(ctx, disk, cluster)
      case Err(_) => Err(EIO)
      case Ok(chain) =>
        var all := Contents(ctx, disk, chain);
        if NeededReadable(ctx, disk, chain, |chain|, 0, size) then Ok(all[..Min(|all|, size)]) else Err(EIO)
  }

  /** `read_file`: everything the file size and the chain allow, exactly when the chain and its clusters
      within the file size can be read. */
  method ReadFile(ctx: Ctx, disk: Disk, cluster: nat, size: nat) returns (r: IoResult<seq<byte>>)
    requires CtxOk(ctx)
    ensures size == 0 ==> r == Ok([])
    ensures size > 0 ==>
      var chain := ChainOf(ctx, disk, cluster);
      && (r.Ok? <==> chain.Ok? && NeededReadable(ctx, disk, chain.value, |chain.value|, 0, size))
      && (r.Ok? ==> var all := Contents(ctx, disk, chain.value); r.value == all[..Min(|all|, size)])
    ensures r == FileOf(ctx, disk, cluster, size)
  {
    hide ChainOf, Contents, ClusterReadable, Needed, NeededReadable, Filled;
    var buf := new byte[size](_ => 0);
    var total := 0;
    ghost var chain := ChainOf(ctx, disk, cluster);
    while total < size
      invariant 0 <= total <= size
      invariant total > 0 ==> chain.Ok? && NeededReadable(ctx, disk, chain.value, |chain.value|, 0, size)
      invariant total > 0 ==>
        var all := Contents(ctx, disk, chain.value); total <= |all| && buf[..total] == all[..total]
    {
      ghost var before := buf[..];
      var n, bytes := Read(ctx, disk, cluster, size, total, buf, total);
      if total > 0 {
        NeededLater(ctx, disk, chain.value, total, size);
      }
      if n.Err? {
        return Err(EIO);
      }
      if n.value == 0 {
        assert Filled(before, total, []) == before by { NothingFilled(before, total); }
        return Ok(buf[..total]);
      }
      FilledPrefix(before, total, bytes, Contents(ctx, disk, chain.value));
      total := total + n.value;
    }
    r := Ok(buf[..total]);
  }
}
