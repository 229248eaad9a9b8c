/**
 Products under a name, so that proofs can treat them as single quantities.
 */
module Products {

  function Times(n: int, q: int): (r: int)
  {
    n * q
  }

  lemma TimesIs(n: int, q: int)
    ensures Times(n, q) == n * q == q * n
  {
  }

  lemma Distribute(a: int, b: int, q: int)
    ensures Times(a + b, q) == Times(a, q) + Times(b, q)
    ensures Times(1, q) == q && Times(0, q) == 0
    ensures a >= 0 && q >= 0 ==> Times(a, q) >= 0
    ensures b >= 0 && q >= 0 ==> Times(b, q) >= 0
  {
  }

  lemma Scale(a: int, b: int, q: int)
    requires a <= b && q >= 0
    ensures Times(a, q) <= Times(b, q)
  {
    Distribute(a, b - a, q);
  }
}
