/** Small datatypes shared by every component. */
module Wrappers {
  datatype Option<+T> = None | Some(value: T)

  /** No two positions hold equal elements. */
  ghost predicate Distinct<T>(s: seq<T>) {
    forall i, j :: 0 <= i < j < |s| ==> s[i] != s[j]
  }

  type u8 = x: int | 0 <= x < 0x100
  const U64_MAX: nat := 0xFFFF_FFFF_FFFF_FFFF
}
