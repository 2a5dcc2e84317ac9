/** Products the solver is not left to find. */
module Arithmetic {
  lemma Distribute(a: nat, unit: nat)
    ensures (a + 1) * unit == a * unit + unit
  {
  }

  lemma Scale(a: nat, b: nat, unit: nat)
    requires a <= b
    ensures a * unit <= b * unit
  {
  }
}
