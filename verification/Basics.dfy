// What several of the models need.
module Basics {

  newtype byte = x: int | 0 <= x < 256

  datatype Option<T> = None | Some(value: T)

  function Min(a: int, b: int): int { if a <= b then a else b }

  lemma SmallMod(x: nat, n: nat)
    requires x < n
    ensures x % n == x
  {
  }

  lemma SubsetSize<T>(a: set<T>, b: set<T>)
    requires a <= b
    ensures |a| <= |b| && (|a| == |b| ==> a == b)
  {
    assert b == a + (b - a);
    assert |b| == |a| + |b - a|;
  }

  lemma MultipleBound(k: int, n: int)
    requires n >= 0
    ensures k >= 1 ==> k * n >= n
    ensures k <= -1 ==> k * n <= -n
  {
  }

  lemma Distributes(a: int, b: int, n: int)
    ensures (a - b) * n == a * n - b * n
    ensures (a + b) * n == a * n + b * n
  {
  }

  // Quotient and remainder are what they look like.
  lemma DivIs(x: int, d: int, q: int, r: int)
    requires d > 0 && x == q * d + r && 0 <= r < d
    ensures x / d == q && x % d == r
  {
    var p, s := x / d, x % d;
    assert x == p * d + s;
    Distributes(p, q, d);
    MultipleBound(p - q, d);
  }
}
