/** Small functions on numbers that several parts share. */
module Numbers {

  function Min(a: nat, b: nat): nat {
    if a <= b then a else b
  }

  function Pow2(n: nat): (p: nat)
    ensures p > 0
  {
    if n == 0 then 1 else 2 * Pow2(n - 1)
  }

  lemma {:induction false} Pow2Monotone(a: nat, b: nat)
    requires a >= b
    ensures Pow2(a) >= Pow2(b)
  {
    if b == 0 {
    } else {
      Pow2Monotone(a - 1, b - 1);
    }
  }
}
