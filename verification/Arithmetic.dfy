/** Facts of arithmetic the verifier does not find by itself. */
module Arithmetic {

  lemma Remainder(q: nat, n: nat, d: nat)
    requires d < n
    ensures (q * n + d) % n == d && (q * n + d) / n == q
  {
    var a := q * n + d;
    assert a == (a / n) * n + a % n;
    assert (a / n - q) * n == d - a % n;
    SmallMultiple(a / n - q, n, d - a % n);
  }

  lemma SmallMultiple(k: int, n: int, d: int)
    requires k * n == d && -n < d < n
    ensures k == 0 && d == 0
  {
    assert k >= 1 ==> k * n >= n;
    assert k <= -1 ==> k * n <= -n;
  }

  lemma FewerMultiples(a: nat, b: nat, n: nat)
    requires a * n < b * n
    ensures a < b
  {
    assert a >= b ==> a * n >= b * n;
  }

  /** A multiple of n that is not above a is not above the greatest one. */
  lemma MultiplesFit(a: nat, n: nat, q: nat)
    requires n > 0 && q * n <= a
    ensures q <= a / n && q * n <= a / n * n
  {
    var m := a / n;
    assert a == m * n + a % n;
    assert (m + 1) * n == m * n + n;
    FewerMultiples(q, m + 1, n);
    Monotone(q, m, n);
  }

  lemma Monotone(a: nat, b: nat, n: nat)
    requires a <= b
    ensures a * n <= b * n
  {
  }

  lemma Quotient(a: nat, n: nat, q: nat)
    requires n > 0 && q * n <= a < (q + 1) * n
    ensures a / n == q && a % n == a - q * n
  {
    assert (q + 1) * n == q * n + n;
    Remainder(q, n, a - q * n);
  }

  lemma {:induction false} SubsetCard<T>(a: set<T>, b: set<T>)
    requires a <= b
    ensures |a| <= |b|
  {
    if a != {} {
      var x :| x in a;
      SubsetCard(a - {x}, b - {x});
    }
  }
}
