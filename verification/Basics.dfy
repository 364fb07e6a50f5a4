/** Types shared by all modules. */
module Basics {

  const PAGE_SIZE: nat := 4096

  datatype Option<+T> = None | Some(value: T)

  datatype Result<+T, +E> = Ok(value: T) | Err(error: E)

  type byte = x: nat | x < 256

  predicate Distinct(s: seq<nat>) {
    forall i, j :: 0 <= i < j < |s| ==> s[i] != s[j]
  }

  function AlignDown(val: nat, align: nat): nat
    requires align > 0
  {
    val - val % align
  }

  function AlignUp(val: nat, align: nat): nat
    requires align > 0
  {
    AlignDown(val + align - 1, align)
  }
}
