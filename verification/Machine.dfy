/** Machine widths and the sentinel values the C sources use. */
module Machine {
  const UT64_MAX: nat := 0xFFFF_FFFF_FFFF_FFFF
  const UT16_MAX: nat := 0xFFFF
  const ST16_MAX: int := 0x7FFF
  const ST16_MIN: int := -0x8000
  const STACK_ADDR_INVALID: int := 0x7FFF_FFFF

  type U64 = x: nat | x <= UT64_MAX
  type U16 = x: nat | x <= UT16_MAX
  type S16 = x: int | ST16_MIN <= x <= ST16_MAX

  datatype Option<+T> = None | Some(value: T)

  /** No element occurs twice. */
  ghost predicate Distinct<T>(s: seq<T>) {
    forall i, j :: 0 <= i < j < |s| ==> s[i] != s[j]
  }
}
