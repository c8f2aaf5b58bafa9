/** Comparisons of natural numbers. */
module NatArith {

  function MaxNat(a: nat, b: nat): nat {
    if a < b then b else a
  }

  function MinNat(a: nat, b: nat): nat {
    if a < b then a else b
  }
}
