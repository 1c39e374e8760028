/** What all parts share. */
module Basics {
  datatype Option<+T> = None | Some(value: T)

  const MAX_UINT64: nat := 0xFFFF_FFFF_FFFF_FFFF

  type Uint64 = x: nat | x <= 0xFFFF_FFFF_FFFF_FFFF

  /** One less, with wrap-around. */
  function Pred64(n: Uint64): Uint64 {
    if n == 0 then MAX_UINT64 else n - 1
  }

  function Min(a: nat, b: nat): nat {
    if a < b then a else b
  }

  function Max(a: nat, b: nat): nat {
    if a < b then b else a
  }

  lemma MinIs(a: nat, b: nat)
    ensures Min(a, b) <= a && Min(a, b) <= b && (Min(a, b) == a || Min(a, b) == b)
  {
  }
}
