/** What several modules share: an optional value, and facts about numbers and sets. */
module Util {
  datatype Option<+T> = None | Some(value: T)

  function Min(a: int, b: int): int { if a < b then a else b }

  function Max(a: int, b: int): int { if a < b then b else a }

  function Pow2(n: nat): (r: nat)
    ensures r > 0
  {
    if n == 0 then 1 else 2 * Pow2(n - 1)
  }

  lemma {:induction false} Pow2Sum(a: nat, b: nat)
    ensures Pow2(a + b) == Pow2(a) * Pow2(b)
  {
    if b > 0 {
      Pow2Sum(a, b - 1);
      assert Pow2(a + b) == 2 * Pow2(a + b - 1);
    }
  }

  lemma MulMono(a: int, b: int, v: nat)
    requires a <= b
    ensures a * v <= b * v && v * a <= v * b
  {
  }

  /** The quotient is the one number that leaves a proper remainder. */
  lemma DivIs(a: int, v: nat, k: int)
    requires v > 0 && 0 <= a - k * v < v
    ensures a / v == k
  {
    var q := a / v;
    assert a == q * v + a % v;
    if q < k { MulMono(q + 1, k, v); }
    if q > k { MulMono(k + 1, q, v); }
  }

  lemma SubsetSize<T>(a: set<T>, b: set<T>)
    requires a <= b
    ensures |a| <= |b|
  {
    assert b == a + (b - a);
  }
}
