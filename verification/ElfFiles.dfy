/** The ELF-64 file format: the fields the loader reads, its header checks, and files written to that format. */
module ElfFiles {
  import opened Basics
  import opened Exec

  const EHDR_SIZE: nat := 64
  const PHDR_SIZE: nat := 56

  const ET_EXEC: nat := 2
  const ET_DYN: nat := 3
  const EM_X86_64: nat := 62

  const PT_LOAD: nat := 1
  const PT_INTERP: nat := 3
  const PT_PHDR: nat := 6

  datatype ElfError = TooSmall | BadMagic | NotElf64 | NotLittleEndian | BadVersion | NotExecutable | WrongArch
                    | OutOfBounds | MappingFailed | AllocFailed

  datatype Phdr = Phdr(kind: nat, flags: nat, offset: nat, vaddr: nat, filesz: nat, memsz: nat)

  /** The little-endian number in the `n` bytes at `at`. */
  function Field(data: seq<byte>, at: nat, n: nat): nat
    requires at + n <= |data|
  {
    FromBytes(data[at..at + n])
  }

  function PhOff(data: seq<byte>): nat
    requires EHDR_SIZE <= |data|
  {
    Field(data, 32, 8)
  }

  function PhEntSize(data: seq<byte>): nat
    requires EHDR_SIZE <= |data|
  {
    Field(data, 54, 2)
  }

  function PhNum(data: seq<byte>): nat
    requires EHDR_SIZE <= |data|
  {
    Field(data, 56, 2)
  }

  function ReadPhdr(data: seq<byte>, at: nat): Phdr
    requires at + PHDR_SIZE <= |data|
  {
    Phdr(Field(data, at, 4), Field(data, at + 4, 4), Field(data, at + 8, 8), Field(data, at + 16, 8),
         Field(data, at + 32, 8), Field(data, at + 40, 8))
  }

  /** The program headers are read 56 bytes apart, whatever entry size the header gives. */
  function Phdrs(data: seq<byte>, phoff: nat, n: nat): (r: seq<Phdr>)
    requires phoff + n * PHDR_SIZE <= |data|
    ensures |r| == n
    decreases n
  {
    if n == 0 then [] else [ReadPhdr(data, phoff)] + Phdrs(data, phoff + PHDR_SIZE, n - 1)
  }

  /** The header checks, in their order. */
  function CheckHeader(data: seq<byte>): Option<ElfError> {
    if |data| < EHDR_SIZE then Some(TooSmall)
    else if data[0..4] != [0x7F, 0x45, 0x4C, 0x46] then Some(BadMagic)
    else if data[4] != 2 then Some(NotElf64)
    else if data[5] != 1 then Some(NotLittleEndian)
    else if data[6] != 1 then Some(BadVersion)
    else if Field(data, 16, 2) != ET_EXEC && Field(data, 16, 2) != ET_DYN then Some(NotExecutable)
    else if Field(data, 18, 2) != EM_X86_64 then Some(WrongArch)
    else if PhOff(data) + PhNum(data) * PhEntSize(data) > |data| then Some(OutOfBounds)
    else None
  }

  function HeadersOf(data: seq<byte>): (r: seq<Phdr>)
    requires EHDR_SIZE <= |data| && PhOff(data) + PhNum(data) * PHDR_SIZE <= |data|
  {
    Phdrs(data, PhOff(data), PhNum(data))
  }

  // ----- writing files

  /** The identification of a 64-bit little-endian file, padding included. */
  const IDENT: seq<byte> := [0x7F, 0x45, 0x4C, 0x46, 2, 1, 1, 0, 0, 0, 0, 0, 0, 0, 0, 0]

  /** A file header for `n` program headers that follow it. */
  function EhdrBytes(entry: nat, n: nat): (r: seq<byte>)
    ensures |r| == EHDR_SIZE
  {
    IDENT + (ToBytes(ET_EXEC, 2) + (ToBytes(EM_X86_64, 2) + (ToBytes(1, 4) + (ToBytes(entry, 8)
    + (ToBytes(EHDR_SIZE, 8) + (ToBytes(0, 12) + (ToBytes(EHDR_SIZE, 2) + (ToBytes(PHDR_SIZE, 2)
    + (ToBytes(n, 2) + ToBytes(0, 6))))))))))
  }

  function PhdrBytes(ph: Phdr): (r: seq<byte>)
    ensures |r| == PHDR_SIZE
  {
    ToBytes(ph.kind, 4) + (ToBytes(ph.flags, 4) + (ToBytes(ph.offset, 8) + (ToBytes(ph.vaddr, 8)
    + (ToBytes(0, 8) + (ToBytes(ph.filesz, 8) + (ToBytes(ph.memsz, 8) + ToBytes(0, 8)))))))
  }

  function PhdrTable(phs: seq<Phdr>): (r: seq<byte>)
    ensures |r| == |phs| * PHDR_SIZE
  {
    if phs == [] then [] else PhdrBytes(phs[0]) + PhdrTable(phs[1..])
  }

  function ElfFile(entry: nat, phs: seq<Phdr>, body: seq<byte>): seq<byte> {
    EhdrBytes(entry, |phs|) + (PhdrTable(phs) + body)
  }

  predicate FieldsFit(ph: Phdr) {
    && ph.kind < Radix(4) && ph.flags < Radix(4) && ph.offset < Radix(8) && ph.vaddr < Radix(8) && ph.filesz < Radix(8)
    && ph.memsz < Radix(8)
  }

  predicate HasAt(data: seq<byte>, at: nat, s: seq<byte>) {
    at + |s| <= |data| && data[at..at + |s|] == s
  }

  lemma HasParts(data: seq<byte>, at: nat, s: seq<byte>, t: seq<byte>)
    requires HasAt(data, at, s + t)
    ensures HasAt(data, at, s) && HasAt(data, at + |s|, t)
  {
    assert s == (s + t)[..|s|] && t == (s + t)[|s|..];
    assert data[at..at + |s|] == data[at..at + |s + t|][..|s|];
    assert data[at + |s|..at + |s| + |t|] == data[at..at + |s + t|][|s|..];
  }

  lemma FieldBack(data: seq<byte>, at: nat, x: nat, n: nat, t: seq<byte>)
    requires HasAt(data, at, ToBytes(x, n) + t)
    ensures at + n <= |data| && HasAt(data, at + n, t)
    ensures x < Radix(n) ==> Field(data, at, n) == x
  {
    HasParts(data, at, ToBytes(x, n), t);
    if x < Radix(n) {
      WordRoundTrip(x, n);
    }
  }

  lemma FileEnds(data: seq<byte>, at: nat, s: seq<byte>)
    requires HasAt(data, at, s)
    ensures at + |s| <= |data|
  {}

  lemma PhdrBack(data: seq<byte>, at: nat, ph: Phdr)
    requires HasAt(data, at, PhdrBytes(ph)) && FieldsFit(ph)
    ensures at + PHDR_SIZE <= |data| && ReadPhdr(data, at) == ph
  {
    var t6 := ToBytes(ph.memsz, 8) + ToBytes(0, 8);
    var t5 := ToBytes(ph.filesz, 8) + t6;
    var t4 := ToBytes(0, 8) + t5;
    var t3 := ToBytes(ph.vaddr, 8) + t4;
    var t2 := ToBytes(ph.offset, 8) + t3;
    hide HasAt, ToBytes, Radix, Field;
    FieldBack(data, at, ph.kind, 4, ToBytes(ph.flags, 4) + t2);
    FieldBack(data, at + 4, ph.flags, 4, t2);
    FieldBack(data, at + 8, ph.offset, 8, t3);
    FieldBack(data, at + 16, ph.vaddr, 8, t4);
    FieldBack(data, at + 24, 0, 8, t5);
    FieldBack(data, at + 32, ph.filesz, 8, t6);
    FieldBack(data, at + 40, ph.memsz, 8, ToBytes(0, 8));
    FileEnds(data, at + 48, ToBytes(0, 8));
  }

  lemma {:induction false} TableBack(data: seq<byte>, at: nat, phs: seq<Phdr>)
    requires HasAt(data, at, PhdrTable(phs))
    requires forall i :: 0 <= i < |phs| ==> FieldsFit(phs[i])
    ensures at + |phs| * PHDR_SIZE <= |data| && Phdrs(data, at, |phs|) == phs
    decreases |phs|
  {
    FileEnds(data, at, PhdrTable(phs));
    hide PhdrBytes, ReadPhdr, FieldsFit, HasAt;
    if phs != [] {
      HasParts(data, at, PhdrBytes(phs[0]), PhdrTable(phs[1..]));
      PhdrBack(data, at, phs[0]);
      TableBack(data, at + PHDR_SIZE, phs[1..]);
    }
  }

  lemma SmallFits()
    ensures Radix(2) == 0x1_0000 && Radix(4) == 0x1_0000_0000 && Radix(8) > 0x1_0000_0000
  {
    assert Radix(2) == 256 * Radix(1);
    assert Radix(4) == 256 * Radix(3);
    assert Radix(6) == 256 * Radix(5);
    assert Radix(8) == 256 * Radix(7);
  }

  lemma EhdrBack(data: seq<byte>, entry: nat, n: nat)
    requires entry < Radix(8) && n < Radix(2) && HasAt(data, 0, EhdrBytes(entry, n))
    ensures HasAt(data, 0, IDENT) && EHDR_SIZE <= |data|
    ensures Field(data, 16, 2) == ET_EXEC && Field(data, 18, 2) == EM_X86_64 && Field(data, 24, 8) == entry
    ensures Field(data, 32, 8) == EHDR_SIZE && Field(data, 54, 2) == PHDR_SIZE && Field(data, 56, 2) == n
  {
    SmallFits();
    var t8 := ToBytes(PHDR_SIZE, 2) + (ToBytes(n, 2) + ToBytes(0, 6));
    var t7 := ToBytes(EHDR_SIZE, 2) + t8;
    var t6 := ToBytes(0, 12) + t7;
    var t5 := ToBytes(EHDR_SIZE, 8) + t6;
    var t4 := ToBytes(entry, 8) + t5;
    var t3 := ToBytes(1, 4) + t4;
    var t2 := ToBytes(EM_X86_64, 2) + t3;
    FileEnds(data, 0, EhdrBytes(entry, n));
    hide HasAt, ToBytes, Radix, Field;
    HasParts(data, 0, IDENT, ToBytes(ET_EXEC, 2) + t2);
    FieldBack(data, 16, ET_EXEC, 2, t2);
    FieldBack(data, 18, EM_X86_64, 2, t3);
    FieldBack(data, 20, 1, 4, t4);
    FieldBack(data, 24, entry, 8, t5);
    FieldBack(data, 32, EHDR_SIZE, 8, t6);
    FieldBack(data, 40, 0, 12, t7);
    FieldBack(data, 52, EHDR_SIZE, 2, t8);
    FieldBack(data, 54, PHDR_SIZE, 2, ToBytes(n, 2) + ToBytes(0, 6));
    FieldBack(data, 56, n, 2, ToBytes(0, 6));
  }

  lemma IdentBack(data: seq<byte>)
    requires HasAt(data, 0, IDENT)
    ensures |data| >= 16 && data[0..4] == [0x7F, 0x45, 0x4C, 0x46] && data[4] == 2 && data[5] == 1 && data[6] == 1
  {
    assert forall i :: 0 <= i < 16 ==> data[0..16][i] == data[i];
  }

  /** A file written by these functions passes the header checks and reads back as the headers written. */
  lemma FileReadBack(entry: nat, phs: seq<Phdr>, body: seq<byte>)
    requires entry < Radix(8) && |phs| < Radix(2) && forall i :: 0 <= i < |phs| ==> FieldsFit(phs[i])
    ensures var data := ElfFile(entry, phs, body);
      && CheckHeader(data) == None && PhOff(data) == EHDR_SIZE && PhNum(data) == |phs| && PhEntSize(data) == PHDR_SIZE
      && Field(data, 24, 8) == entry && Field(data, 16, 2) == ET_EXEC
      && PhOff(data) + PhNum(data) * PHDR_SIZE <= |data| && HeadersOf(data) == phs
  {
    var data, h := ElfFile(entry, phs, body), EhdrBytes(entry, |phs|);
    assert data[0..|data|] == data;
    HasParts(data, 0, h, PhdrTable(phs) + body);
    HasParts(data, EHDR_SIZE, PhdrTable(phs), body);
    EhdrBack(data, entry, |phs|);
    IdentBack(data);
    hide EhdrBytes, FieldsFit, Radix, HasAt, ElfFile, PhdrTable, Phdrs, Field;
    TableBack(data, EHDR_SIZE, phs);
  }

  lemma BodyByte(entry: nat, phs: seq<Phdr>, body: seq<byte>, k: nat)
    requires k < |body|
    ensures var at := EHDR_SIZE + |phs| * PHDR_SIZE;
      |ElfFile(entry, phs, body)| == at + |body| && ElfFile(entry, phs, body)[at + k] == body[k]
  {
    hide EhdrBytes, PhdrTable;
  }

  lemma TwoBytes(data: seq<byte>, at: nat)
    requires at + 2 <= |data|
    ensures Field(data, at, 2) == data[at] as nat + 256 * (data[at + 1] as nat)
  {
    var b := data[at..at + 2];
    assert FromBytes(b[1..]) == b[1] + 256 * FromBytes(b[1..][1..]);
  }

  lemma FieldKept(data: seq<byte>, d: seq<byte>, at: nat, n: nat)
    requires at + n <= |data| && at + n <= |d| && forall k :: at <= k < at + n ==> d[k] == data[k]
    ensures Field(d, at, n) == Field(data, at, n)
  {
    assert d[at..at + n] == data[at..at + n];
  }

  /** A header that is right but for one byte of what the loader looks at is refused for that. */
  lemma ByteChecked(data: seq<byte>, i: nat, x: byte)
    requires CheckHeader(data) == None && i < 20 && i < |data| && data[i] != x
    ensures var d := data[i := x];
      && (i < 4 ==> CheckHeader(d) == Some(BadMagic)) && (i == 4 ==> CheckHeader(d) == Some(NotElf64))
      && (i == 5 ==> CheckHeader(d) == Some(NotLittleEndian)) && (i == 6 ==> CheckHeader(d) == Some(BadVersion))
      && (7 <= i < 16 ==> CheckHeader(d) == None)
      && (i == 16 ==> CheckHeader(d) == if x == 2 || x == 3 then None else Some(NotExecutable))
      && (i == 17 ==> CheckHeader(d) == Some(NotExecutable))
      && (i == 18 || i == 19 ==> CheckHeader(d) == Some(WrongArch))
  {
    var d := data[i := x];
    TwoBytes(data, 16);
    TwoBytes(data, 18);
    TwoBytes(d, 16);
    TwoBytes(d, 18);
    FieldKept(data, d, 32, 8);
    FieldKept(data, d, 54, 2);
    FieldKept(data, d, 56, 2);
    hide Field;
  }

  /** A file too short for a header is refused, and so is one too short for its program headers. */
  lemma LengthChecked(data: seq<byte>, n: nat)
    requires CheckHeader(data) == None && n <= |data|
    ensures n < 64 ==> CheckHeader(data[..n]) == Some(TooSmall)
    ensures n >= 64 ==>
      CheckHeader(data[..n]) == if PhOff(data) + PhNum(data) * PhEntSize(data) > n then Some(OutOfBounds) else None
  {
    if n >= 64 {
      var d := data[..n];
      FieldKept(data, d, 16, 2);
      FieldKept(data, d, 18, 2);
      FieldKept(data, d, 32, 8);
      FieldKept(data, d, 54, 2);
      FieldKept(data, d, 56, 2);
      assert d[0..4] == data[0..4];
      hide Field;
    }
  }
}
