/** What a program learns from its first stack: it walks past its arguments and its environment to the auxiliary
    vector and looks values up by their type, as the System V ABI for AMD64 (section 3.4) has it. */
module AuxVectors {
  import opened Basics
  import opened PageTables
  import opened Translation
  import opened UserSpaces
  import opened Exec
  import opened ElfLoader
  import opened UserStack

  // ----- the reader

  /** The word a program reads at an address. */
  function WordFrom(m: Mem, root: nat, a: nat): Option<nat> {
    match Translate(m, root, a)
    case None => None
    case Some(p) => Some(LoadWord(m, p))
  }

  /** The address behind the first null word from `a` on. */
  function PastNull(m: Mem, root: nat, a: nat, room: nat): Option<nat>
    decreases room
  {
    if room == 0 || WordFrom(m, root, a).None? then None
    else if WordFrom(m, root, a).value == 0 then Some(a + 8) else PastNull(m, root, a + 8, room - 1)
  }

  /** The value of the first entry of the given type, in a list of pairs that type 0 ends. */
  function ValueFrom(m: Mem, root: nat, a: nat, kind: nat, room: nat): Option<nat>
    decreases room
  {
    if room == 0 || WordFrom(m, root, a).None? || WordFrom(m, root, a).value == 0 then None
    else if WordFrom(m, root, a).value == kind then WordFrom(m, root, a + 8)
    else ValueFrom(m, root, a + 16, kind, room - 1)
  }

  /** What a program started at `rsp` finds for a type. */
  function AuxValue(m: Mem, root: nat, rsp: nat, kind: nat, room: nat): Option<nat> {
    match PastNull(m, root, rsp + 8, room)
    case None => None
    case Some(envp) =>
      match PastNull(m, root, envp, room)
      case None => None
      case Some(aux) => ValueFrom(m, root, aux, kind, room)
  }

  // ----- what it reads

  lemma WordRead(m: Mem, root: nat, a: nat, x: nat)
    requires UserTree(m, root) && WordAt(m, UserView(m, root), a, x)
    ensures WordFrom(m, root, a) == Some(x)
  {
    hide WordAt, Translate, LoadWord, UserTree, UserView;
    WordBack(m, root, a, x);
  }

  lemma {:induction false} PointersPassed(m: Mem, root: nat, a: nat, ptrs: seq<nat>, strings: seq<seq<byte>>, room: nat)
    requires UserTree(m, root) && PointersAt(m, UserView(m, root), a, ptrs, strings) && |strings| < room
    ensures PastNull(m, root, a, room) == Some(a + 8 * (|strings| + 1))
    decreases room
  {
    hide WordAt, StringAt, WordFrom, UserTree, UserView;
    if strings == [] {
      WordRead(m, root, a, 0);
    } else {
      assert WordAt(m, UserView(m, root), a + 8 * 0, ptrs[0]);
      WordRead(m, root, a, ptrs[0]);
      PointersTail(m, UserView(m, root), a, ptrs, strings);
      PointersPassed(m, root, a + 8, ptrs[1..], strings[1..], room - 1);
    }
  }

  /** The entry in place `i` is the first of its type. */
  predicate FirstOfKind(words: seq<nat>, i: nat, kind: nat) {
    && 2 * i + 1 < |words| && kind != 0 && words[2 * i] == kind
    && forall j: nat :: j < i ==> words[2 * j] != 0 && words[2 * j] != kind
  }

  lemma {:induction false} ValueFound(m: Mem, root: nat, a: nat, words: seq<nat>, i: nat, kind: nat, room: nat)
    requires UserTree(m, root) && WordsAt(m, UserView(m, root), a, words) && FirstOfKind(words, i, kind) && i < room
    ensures ValueFrom(m, root, a, kind, room) == Some(words[2 * i + 1])
    decreases i
  {
    hide WordAt, WordFrom, UserTree, UserView;
    var view := UserView(m, root);
    assert WordAt(m, view, a + 8 * 0, words[0]) && WordAt(m, view, a + 8 * 1, words[1]);
    WordRead(m, root, a, words[0]);
    if i == 0 {
      WordRead(m, root, a + 8, words[1]);
    } else {
      assert words[2 * 0] != 0 && words[2 * 0] != kind;
      WordsPart(m, view, a, words, 2, |words|);
      assert FirstOfKind(words[2..], i - 1, kind) by {
        forall j: nat | j < i - 1 ensures words[2..][2 * j] != 0 && words[2..][2 * j] != kind {
          assert words[2..][2 * j] == words[2 * (j + 1)];
        }
      }
      ValueFound(m, root, a + 16, words[2..], i - 1, kind, room - 1);
    }
  }

  lemma {:induction false} ValueMissing(m: Mem, root: nat, a: nat, words: seq<nat>, n: nat, kind: nat, room: nat)
    requires UserTree(m, root) && WordsAt(m, UserView(m, root), a, words) && 2 * n < |words| && words[2 * n] == 0
    requires forall j: nat :: j < n ==> words[2 * j] != kind
    ensures ValueFrom(m, root, a, kind, room) == None
    decreases n
  {
    hide WordAt, WordFrom, UserTree, UserView;
    var view := UserView(m, root);
    assert WordAt(m, view, a + 8 * 0, words[0]);
    WordRead(m, root, a, words[0]);
    if n > 0 && room > 0 {
      assert words[2 * 0] != kind;
      WordsPart(m, view, a, words, 2, |words|);
      forall j: nat | j < n - 1 ensures words[2..][2 * j] != kind {
        assert words[2..][2 * j] == words[2 * (j + 1)];
      }
      ValueMissing(m, root, a + 16, words[2..], n - 1, kind, room - 1);
    }
  }

  /** The types in the vector, in order. */
  lemma AuxTypes(loaded: LoadedElf, randomPtr: nat, execfnPtr: nat, j: nat)
    requires j < 14
    ensures Auxv(loaded, randomPtr, execfnPtr)[2 * j] == [11, 12, 13, 14, 3, 4, 5, 6, 7, 8, 9, 25, 31, 0][j]
  {
  }

  /** What the program is told, by type. */
  function Told(loaded: LoadedElf, randomPtr: nat, execfnPtr: nat, kind: nat): Option<nat> {
    match kind
    case 3 => Some(loaded.phdrVaddr)
    case 4 => Some(loaded.phent)
    case 5 => Some(loaded.phnum)
    case 6 => Some(4096)
    case 7 => Some(loaded.loadBase)
    case 9 => Some(loaded.entry)
    case 25 => Some(randomPtr)
    case 31 => Some(execfnPtr)
    case _ => if kind in {8, 11, 12, 13, 14} then Some(0) else None
  }

  function PlaceOfKind(kind: nat): nat {
    match kind
    case 11 => 0
    case 12 => 1
    case 13 => 2
    case 14 => 3
    case 3 => 4
    case 4 => 5
    case 5 => 6
    case 6 => 7
    case 7 => 8
    case 8 => 9
    case 9 => 10
    case 25 => 11
    case 31 => 12
    case _ => 13
  }

  lemma AuxFound(loaded: LoadedElf, randomPtr: nat, execfnPtr: nat, kind: nat)
    ensures var words, i := Auxv(loaded, randomPtr, execfnPtr), PlaceOfKind(kind);
      if i < 13 then FirstOfKind(words, i, kind) && Told(loaded, randomPtr, execfnPtr, kind) == Some(words[2 * i + 1])
      else (forall j: nat :: j < 13 ==> words[2 * j] != kind) && Told(loaded, randomPtr, execfnPtr, kind) == None
  {
    var words, i := Auxv(loaded, randomPtr, execfnPtr), PlaceOfKind(kind);
    assert i < 13 ==> Told(loaded, randomPtr, execfnPtr, kind) == Some(words[2 * i + 1]);
    hide Auxv;
    forall j: nat | j < 14 ensures words[2 * j] == [11, 12, 13, 14, 3, 4, 5, 6, 7, 8, 9, 25, 31, 0][j] {
      AuxTypes(loaded, randomPtr, execfnPtr, j);
    }
  }

  lemma ValueBack(m: Mem, root: nat, a: nat, loaded: LoadedElf, randomPtr: nat, execfnPtr: nat, kind: nat, room: nat)
    requires UserTree(m, root) && WordsAt(m, UserView(m, root), a, Auxv(loaded, randomPtr, execfnPtr)) && 14 <= room
    ensures ValueFrom(m, root, a, kind, room) == Told(loaded, randomPtr, execfnPtr, kind)
  {
    var words := Auxv(loaded, randomPtr, execfnPtr);
    hide Auxv, UserTree, UserView, WordsAt, Told, FirstOfKind, PlaceOfKind, ValueFrom;
    AuxFound(loaded, randomPtr, execfnPtr, kind);
    AuxTypes(loaded, randomPtr, execfnPtr, 13);
    if PlaceOfKind(kind) < 13 {
      ValueFound(m, root, a, words, PlaceOfKind(kind), kind, room);
    } else {
      assert PlaceOfKind(kind) >= 13;
      ValueMissing(m, root, a, words, 13, kind, room);
    }
  }

  lemma AuxPlace(m: Mem, root: nat, rsp: nat, argv: seq<seq<byte>>, envp: seq<seq<byte>>, kind: nat, room: nat)
    requires UserTree(m, root) && |argv| < room && |envp| < room
    requires ArrayAt(m, UserView(m, root), rsp + 8, argv)
    requires ArrayAt(m, UserView(m, root), rsp + 16 + 8 * |argv|, envp)
    ensures AuxValue(m, root, rsp, kind, room) ==
      ValueFrom(m, root, rsp + 24 + 8 * |argv| + 8 * |envp|, kind, room)
  {
    hide PointersAt, UserTree, UserView, ValueFrom, PastNull;
    var ap :| PointersAt(m, UserView(m, root), rsp + 8, ap, argv);
    var ep :| PointersAt(m, UserView(m, root), rsp + 16 + 8 * |argv|, ep, envp);
    PointersPassed(m, root, rsp + 8, ap, argv, room);
    PointersPassed(m, root, rsp + 16 + 8 * |argv|, ep, envp, room);
  }

  /** The program learns for every type what it should: the entry point for 9, the address, size and number of its
      headers for 3, 4 and 5, the page size for 6, the load base for 7, sixteen bytes for 25, and its name for
      31; zero for its user and group; and nothing for any other type. */
  lemma AuxBack(m: Mem, root: nat, rsp: nat, loaded: LoadedElf, argv: seq<seq<byte>>, envp: seq<seq<byte>>,
                execfn: seq<byte>, room: nat)
    returns (randomPtr: nat, execfnPtr: nat)
    requires UserTree(m, root) && StackImage(m, UserView(m, root), rsp, loaded, argv, envp, execfn)
    requires |argv| < room && |envp| < room && 14 <= room
    ensures forall kind: nat :: AuxValue(m, root, rsp, kind, room) == Told(loaded, randomPtr, execfnPtr, kind)
    ensures BytesAt(m, UserView(m, root), randomPtr, RANDOM_BYTES) && |RANDOM_BYTES| == 16
    ensures StringFrom(m, root, execfnPtr, |execfn| + 1) == Some(CString(execfn))
  {
    var a := rsp + 24 + 8 * |argv| + 8 * |envp|;
    hide UserTree, UserView, StringAt, WordsAt, BytesAt, AuxValue, ValueFrom, Told, ArrayAt, StringFrom, WordAt;
    randomPtr, execfnPtr :| AuxAt(m, UserView(m, root), a, loaded, randomPtr, execfnPtr, execfn);
    StringBack(m, root, execfnPtr, execfn, |execfn| + 1);
    forall kind: nat ensures AuxValue(m, root, rsp, kind, room) == Told(loaded, randomPtr, execfnPtr, kind) {
      AuxPlace(m, root, rsp, argv, envp, kind, room);
      ValueBack(m, root, a, loaded, randomPtr, execfnPtr, kind, room);
    }
  }
}
