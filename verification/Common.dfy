/** Definitions that several components share. */
module Common {

  type byte = x: int | 0 <= x < 256

  function Least(a: nat, b: nat): nat {
    if a < b then a else b
  }

  ghost predicate Distinct(l: seq<nat>) {
    forall a, b :: 0 <= a < b < |l| ==> l[a] != l[b]
  }
}
