/** Reading argument strings and string arrays out of user memory. */
module Exec {
  import opened Basics
  import opened PageTables
  import opened Translation
  import opened AddressSpaces
  import opened UserSpaces
  import opened UserMemory

  // ----- 64-bit little-endian words

  function ToBytes(x: nat, n: nat): (r: seq<byte>)
    ensures |r| == n
  {
    if n == 0 then [] else [x % 256] + ToBytes(x / 256, n - 1)
  }

  function FromBytes(b: seq<byte>): nat {
    if b == [] then 0 else b[0] + 256 * FromBytes(b[1..])
  }

  function Radix(n: nat): nat {
    if n == 0 then 1 else 256 * Radix(n - 1)
  }

  lemma {:induction false} WordRoundTrip(x: nat, n: nat)
    requires x < Radix(n)
    ensures FromBytes(ToBytes(x, n)) == x
  {
    if n > 0 {
      WordRoundTrip(x / 256, n - 1);
      assert ToBytes(x, n)[1..] == ToBytes(x / 256, n - 1);
    }
  }

  /** The eight bytes at a physical address. */
  function PhysBytes(m: Mem, p: nat, n: nat): (r: seq<byte>)
    ensures |r| == n
    decreases n
  {
    if n == 0 then [] else [PhysByte(m, p)] + PhysBytes(m, p + 1, n - 1)
  }

  function LoadWord(m: Mem, p: nat): nat {
    FromBytes(PhysBytes(m, p, 8))
  }

  // ----- strings

  /** The bytes from `addr` to the first zero byte, which is included; none if that takes more than
      `room` bytes or meets an address that is not mapped. */
  function StringFrom(m: Mem, root: nat, addr: nat, room: nat): Option<seq<byte>>
    decreases room
  {
    if room == 0 then None
    else match Translate(m, root, addr)
    case None => None
    case Some(p) =>
      if PhysByte(m, p) == 0 then Some([0])
      else match StringFrom(m, root, addr + 1, room - 1)
      case None => None
      case Some(s) => Some([PhysByte(m, p)] + s)
  }

  function UserString(m: Mem, root: nat, ptr: nat, max: nat): Option<seq<byte>> {
    if ptr == 0 then None else StringFrom(m, root, ptr, max)
  }

  function Prepend<T>(a: seq<T>, r: Option<seq<T>>): Option<seq<T>> {
    if r.None? then None else Some(a + r.value)
  }

  lemma PrependNil<T>(r: Option<seq<T>>)
    ensures Prepend([], r) == r
  {
    if r.Some? {
      assert [] + r.value == r.value;
    }
  }

  lemma PrependMore<T>(a: seq<T>, x: T, r: Option<seq<T>>)
    ensures Prepend(a, Prepend([x], r)) == Prepend(a + [x], r)
  {
    if r.Some? {
      assert a + ([x] + r.value) == (a + [x]) + r.value;
    }
  }

  /** `read_user_string`. */
  method ReadUserString(vm: Vmm, root: nat, ptr: nat, max: nat) returns (r: Option<seq<byte>>)
    ensures r == UserString(vm.mem, root, ptr, max) && (ptr == 0 ==> r == None)
  {
    hide Translate, PhysByte;
    if ptr == 0 {
      return None;
    }
    var result: seq<byte> := [];
    var addr := ptr;
    PrependNil(StringFrom(vm.mem, root, ptr, max));
    while true
      invariant |result| <= max && addr == ptr + |result|
      invariant StringFrom(vm.mem, root, ptr, max) == Prepend(result, StringFrom(vm.mem, root, addr, max - |result|))
      decreases max - |result|
    {
      if |result| >= max {
        return None;
      }
      var phys := Translate(vm.mem, root, addr);
      if phys.None? {
        return None;
      }
      var b := PhysByte(vm.mem, phys.value);
      if b == 0 {
        return Some(result + [0]);
      }
      PrependMore(result, b, StringFrom(vm.mem, root, addr + 1, max - |result| - 1));
      result := result + [b];
      addr := addr + 1;
    }
  }

  // ----- string arrays

  const STRING_MAX: nat := 65536

  /** The strings whose addresses stand at `addr`, up to a null pointer. */
  function StringsFrom(m: Mem, root: nat, addr: nat, room: nat): Option<seq<seq<byte>>>
    decreases room
  {
    if room == 0 then None
    else match Translate(m, root, addr)
    case None => None
    case Some(p) =>
      var ptr := LoadWord(m, p);
      if ptr == 0 then Some([])
      else match UserString(m, root, ptr, STRING_MAX)
      case None => None
      case Some(s) => Prepend([s], StringsFrom(m, root, addr + 8, room - 1))
  }

  function UserStrings(m: Mem, root: nat, ptr: nat, max: nat): Option<seq<seq<byte>>> {
    if ptr == 0 then Some([]) else StringsFrom(m, root, ptr, max)
  }

  /** `read_user_string_array`. */
  method ReadUserStringArray(vm: Vmm, root: nat, ptr: nat, max: nat) returns (r: Option<seq<seq<byte>>>)
    ensures r == UserStrings(vm.mem, root, ptr, max) && (ptr == 0 ==> r == Some([]))
  {
    hide Translate, LoadWord, UserString;
    if ptr == 0 {
      return Some([]);
    }
    var result: seq<seq<byte>> := [];
    var addr := ptr;
    PrependNil(StringsFrom(vm.mem, root, ptr, max));
    while true
      invariant |result| <= max
      invariant StringsFrom(vm.mem, root, ptr, max) == Prepend(result, StringsFrom(vm.mem, root, addr, max - |result|))
      decreases max - |result|
    {
      if |result| >= max {
        return None;
      }
      var phys := Translate(vm.mem, root, addr);
      if phys.None? {
        return None;
      }
      var strPtr := LoadWord(vm.mem, phys.value);
      if strPtr == 0 {
        assert result + [] == result;
        return Some(result);
      }
      var s := ReadUserString(vm, root, strPtr, STRING_MAX);
      if s.None? {
        return None;
      }
      PrependMore(result, s.value, StringsFrom(vm.mem, root, addr + 8, max - |result| - 1));
      result := result + [s.value];
      addr := addr + 8;
    }
  }

  // ----- what is read back from memory laid out as strings and pointers

  ghost predicate ReadsAt(m: Mem, view: map<nat, Leaf>, p: nat, s: seq<byte>, v: nat) {
    p <= v < p + |s| ==> v < USER_LIMIT && v / PAGE_SIZE in view && ByteAt(m, view, v) == s[v - p]
  }

  /** The bytes `s` stand at the mapped user addresses from `p` on. */
  ghost predicate BytesAt(m: Mem, view: map<nat, Leaf>, p: nat, s: seq<byte>) {
    forall v: nat :: ReadsAt(m, view, p, s, v)
  }

  /** The string `s`, without its terminator, stands at `p` and a zero byte follows. */
  ghost predicate StringAt(m: Mem, view: map<nat, Leaf>, p: nat, s: seq<byte>) {
    BytesAt(m, view, p, s + [0])
  }

  ghost predicate WordAt(m: Mem, view: map<nat, Leaf>, a: nat, x: nat) {
    a % 8 == 0 && x < Radix(8) && BytesAt(m, view, a, ToBytes(x, 8))
  }

  lemma BytesTail(m: Mem, view: map<nat, Leaf>, p: nat, s: seq<byte>)
    requires BytesAt(m, view, p, s) && s != []
    ensures BytesAt(m, view, p + 1, s[1..])
  {
    hide ByteAt;
    var q := p + 1;
    var t := s[1..];
    forall v: nat ensures ReadsAt(m, view, q, t, v) {
      assert ReadsAt(m, view, p, s, v);
    }
  }

  /** The string up to its first zero byte, terminated. */
  function CString(s: seq<byte>): (r: seq<byte>)
    ensures 0 < |r| <= |s| + 1
  {
    if s == [] || s[0] == 0 then [0] else [s[0]] + CString(s[1..])
  }

  /** A string without a zero byte is read whole, and only such a string is. */
  lemma {:induction false} CStringWhole(s: seq<byte>)
    ensures CString(s) == s + [0] <==> 0 !in s
  {
    if s != [] && s[0] != 0 {
      CStringWhole(s[1..]);
      assert s == [s[0]] + s[1..];
      assert CString(s)[1..] == CString(s[1..]) && (s + [0])[1..] == s[1..] + [0];
    }
  }

  /** A string read back and written again reads back as itself, so arguments pass unchanged through
      any number of `execve` calls. */
  lemma {:induction false} CStringTwice(s: seq<byte>)
    ensures CString(CString(s)) == CString(s)
  {
    if s != [] && s[0] != 0 {
      CStringTwice(s[1..]);
      assert CString(s)[1..] == CString(s[1..]);
    }
  }

  /** The reader returns a string laid out at `p`, whatever its bytes, up to its first zero byte. */
  lemma {:induction false} StringBack(m: Mem, root: nat, p: nat, s: seq<byte>, room: nat)
    requires UserTree(m, root) && StringAt(m, UserView(m, root), p, s)
    ensures StringFrom(m, root, p, room) == if |CString(s)| <= room then Some(CString(s)) else None
    decreases |s|
  {
    hide Translate, View, TreeOk, PhysByte, ByteAt;
    var view := UserView(m, root);
    assert ReadsAt(m, view, p, s + [0], p);
    TranslateByte(m, root, p);
    if s != [] && s[0] != 0 && room > 0 {
      BytesTail(m, view, p, s + [0]);
      assert (s + [0])[1..] == s[1..] + [0];
      StringBack(m, root, p + 1, s[1..], room - 1);
    }
  }

  /** Consecutive addresses of one page read consecutive physical bytes. */
  lemma {:induction false} PhysRun(m: Mem, view: map<nat, Leaf>, a: nat, n: nat, b: seq<byte>)
    requires |b| == n && a / PAGE_SIZE in view && a % PAGE_SIZE + n <= PAGE_SIZE && BytesAt(m, view, a, b)
    ensures PhysBytes(m, view[a / PAGE_SIZE].pfn * PAGE_SIZE + a % PAGE_SIZE, n) == b
    decreases n
  {
    hide PhysByte;
    if n > 0 {
      assert ReadsAt(m, view, a, b, a);
      if n > 1 {
        SamePageRange(a, 2);
        assert (a + 1) % PAGE_SIZE == a % PAGE_SIZE + 1;
        BytesTail(m, view, a, b);
        PhysRun(m, view, a + 1, n - 1, b[1..]);
      }
    }
  }

  lemma WordBack(m: Mem, root: nat, a: nat, x: nat)
    requires UserTree(m, root) && WordAt(m, UserView(m, root), a, x)
    ensures Translate(m, root, a).Some? && LoadWord(m, Translate(m, root, a).value) == x
  {
    hide Translate, View, TreeOk, PhysByte, ByteAt, Radix;
    assert ReadsAt(m, UserView(m, root), a, ToBytes(x, 8), a);
    TranslateByte(m, root, a);
    WordRoundTrip(x, 8);
    PhysRun(m, UserView(m, root), a, 8, ToBytes(x, 8));
  }

  /** Pointers to the given strings, then a null pointer, stand at `a`. */
  ghost predicate PointersAt(m: Mem, view: map<nat, Leaf>, a: nat, ptrs: seq<nat>, strings: seq<seq<byte>>) {
    && |ptrs| == |strings|
    && (forall i :: 0 <= i < |ptrs| ==>
          ptrs[i] != 0 && WordAt(m, view, a + 8 * i, ptrs[i]) && StringAt(m, view, ptrs[i], strings[i]))
    && WordAt(m, view, a + 8 * |ptrs|, 0)
  }

  function CStrings(strings: seq<seq<byte>>): (r: seq<seq<byte>>)
    ensures |r| == |strings| && forall i :: 0 <= i < |r| ==> r[i] == CString(strings[i])
  {
    if strings == [] then [] else [CString(strings[0])] + CStrings(strings[1..])
  }

  /** No string is longer than the reader accepts. */
  ghost predicate NoneTooLong(strings: seq<seq<byte>>) {
    forall i :: 0 <= i < |strings| ==> |CString(strings[i])| <= STRING_MAX
  }

  /** The strings with the terminator that laying them out adds. */
  function Terminated(strings: seq<seq<byte>>): (r: seq<seq<byte>>)
    ensures |r| == |strings|
  {
    seq(|strings|, i requires 0 <= i < |strings| => strings[i] + [0])
  }

  /** Strings that have no zero byte and are short enough. */
  ghost predicate WholeStrings(strings: seq<seq<byte>>) {
    forall i :: 0 <= i < |strings| ==> 0 !in strings[i] && |strings[i]| < 65536
  }

  /** What is read back is the strings laid out exactly when they are plain. */
  lemma WholeBack(strings: seq<seq<byte>>)
    ensures NoneTooLong(strings) && CStrings(strings) == Terminated(strings) <==> WholeStrings(strings)
  {
    hide CString, CStrings;
    forall i | 0 <= i < |strings|
      ensures Terminated(strings)[i] == strings[i] + [0]
      ensures CStrings(strings)[i] == Terminated(strings)[i] <==> 0 !in strings[i]
      ensures |Terminated(strings)[i]| == |strings[i]| + 1
    {
      CStringWhole(strings[i]);
    }
    if CStrings(strings) == Terminated(strings) {
      assert forall i :: 0 <= i < |strings| ==> CStrings(strings)[i] == Terminated(strings)[i];
    }
  }

  lemma NoneTooLongTail(strings: seq<seq<byte>>)
    requires strings != []
    ensures NoneTooLong(strings) <==> |CString(strings[0])| <= STRING_MAX && NoneTooLong(strings[1..])
  {
    if |CString(strings[0])| <= STRING_MAX && NoneTooLong(strings[1..]) {
      forall i | 0 <= i < |strings| ensures |CString(strings[i])| <= STRING_MAX {
        if i > 0 { assert strings[i] == strings[1..][i - 1]; }
      }
    }
    if NoneTooLong(strings) {
      forall i | 0 <= i < |strings[1..]| ensures |CString(strings[1..][i])| <= STRING_MAX {
        assert strings[1..][i] == strings[i + 1];
      }
    }
  }

  lemma PointersTail(m: Mem, view: map<nat, Leaf>, a: nat, ptrs: seq<nat>, strings: seq<seq<byte>>)
    requires PointersAt(m, view, a, ptrs, strings) && strings != []
    ensures PointersAt(m, view, a + 8, ptrs[1..], strings[1..])
  {
    hide WordAt, StringAt;
    forall i | 0 <= i < |ptrs| - 1
      ensures ptrs[1..][i] != 0 && WordAt(m, view, a + 8 + 8 * i, ptrs[1..][i])
      ensures StringAt(m, view, ptrs[1..][i], strings[1..][i])
    {
      assert WordAt(m, view, a + 8 * (i + 1), ptrs[i + 1]);
    }
  }

  /** The array reader returns exactly the strings laid out, if there are fewer than `room` of them and
      none is too long, and fails otherwise. */
  lemma {:induction false} StringsBack(m: Mem, root: nat, a: nat, ptrs: seq<nat>, strings: seq<seq<byte>>, room: nat)
    requires UserTree(m, root) && PointersAt(m, UserView(m, root), a, ptrs, strings)
    ensures StringsFrom(m, root, a, room) ==
      if |strings| < room && NoneTooLong(strings) then Some(CStrings(strings)) else None
    decreases room
  {
    hide Translate, View, TreeOk, LoadWord, ByteAt, WordAt, StringAt, StringFrom, CString;
    var view := UserView(m, root);
    if room > 0 {
      if strings == [] {
        WordBack(m, root, a, 0);
      } else {
        assert WordAt(m, view, a + 8 * 0, ptrs[0]) && StringAt(m, view, ptrs[0], strings[0]);
        WordBack(m, root, a, ptrs[0]);
        StringBack(m, root, ptrs[0], strings[0], STRING_MAX);
        PointersTail(m, view, a, ptrs, strings);
        StringsBack(m, root, a + 8, ptrs[1..], strings[1..], room - 1);
        NoneTooLongTail(strings);
      }
    }
  }
}
