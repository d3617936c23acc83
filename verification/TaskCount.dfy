/** The search for a number of reduce tasks: benchmarks/metis/lib/kvstore.c:95-111. */
module TaskCount {

  ghost predicate Divides(d: nat, n: nat) {
    exists k: nat :: n == d * k
  }

  ghost predicate Prime(p: nat) {
    p >= 2 && forall d: nat :: 2 <= d < p ==> !Divides(d, p)
  }

  /** What the inner loop tests: no divisor q with 2 <= q < sqrt(n). */
  ghost predicate Accepted(n: nat) {
    forall q: nat :: q >= 2 && q * q < n ==> !Divides(q, n)
  }

  lemma ModDivides(d: nat, n: nat)
    requires d > 0
    ensures n % d == 0 <==> Divides(d, n)
  {
    if n % d == 0 {
      assert n == d * (n / d);
    }
    if Divides(d, n) {
      var k: nat :| n == d * k;
      ModMultiple(d, k);
    }
  }

  lemma ModMultiple(d: nat, k: nat)
    requires d > 0
    ensures (d * k) % d == 0
  {
    var m, r := (d * k) / d, (d * k) % d;
    assert d * k == d * m + r;
    assert d * (k - m) == r;
    Mono(d, 1, k - m);
    Mono(d, k - m, -1);
  }

  lemma Mono(c: nat, a: int, b: int)
    ensures a <= b ==> c * a <= c * b
  {
  }

  lemma MonoSquare(a: nat, b: nat)
    ensures a <= b ==> a * a <= b * b
  {
  }

  // ------------------------------------------------------------------ primes without end

  /** The least divisor that is not 1. */
  ghost function LeastDivisor(n: nat, d: nat): (r: nat)
    requires n >= 2 && 2 <= d <= n && forall e: nat :: 2 <= e < d ==> !Divides(e, n)
    ensures d <= r <= n && Divides(r, n) && forall e: nat :: 2 <= e < r ==> !Divides(e, n)
    decreases n - d
  {
    if Divides(d, n) then d else (assert n == n * 1; LeastDivisor(n, d + 1))
  }

  lemma DividesTrans(a: nat, b: nat, c: nat)
    requires Divides(a, b) && Divides(b, c)
    ensures Divides(a, c)
  {
    var j: nat :| b == a * j;
    var k: nat :| c == b * k;
    assert c == a * (j * k);
  }

  lemma LeastIsPrime(n: nat)
    requires n >= 2
    ensures Prime(LeastDivisor(n, 2))
  {
    var p := LeastDivisor(n, 2);
    forall d: nat | 2 <= d < p ensures !Divides(d, p) {
      if Divides(d, p) {
        DividesTrans(d, p, n);
      }
    }
  }

  ghost function Factorial(n: nat): (f: nat)
    ensures f >= 1
  {
    if n == 0 then 1 else n * Factorial(n - 1)
  }

  lemma {:induction false} FactorialDivides(d: nat, n: nat)
    requires 1 <= d <= n
    ensures Divides(d, Factorial(n))
    decreases n
  {
    if d == n {
    } else {
      FactorialDivides(d, n - 1);
      assert Divides(Factorial(n - 1), Factorial(n)) by {
        assert Factorial(n) == Factorial(n - 1) * n;
      }
      DividesTrans(d, Factorial(n - 1), Factorial(n));
    }
  }

  /** There is a prime above every number. */
  lemma PrimeAbove(n: nat) returns (p: nat)
    ensures p > n && Prime(p)
  {
    var m := Factorial(n) + 1;
    p := LeastDivisor(m, 2);
    LeastIsPrime(m);
    if p <= n {
      FactorialDivides(p, n);
      var j: nat :| Factorial(n) == p * j;
      var k: nat :| m == p * k;
      NotBoth(p, j, k, Factorial(n));
    }
  }

  /** No number above 1 divides two numbers in a row. */
  lemma NotBoth(p: nat, j: nat, k: nat, n: nat)
    requires p >= 2 && n == p * j
    ensures n + 1 != p * k
  {
    assert p * (k - j) == p * k - p * j;
    Mono(p, 1, k - j);
    Mono(p, k - j, 0);
  }

  lemma PrimeAccepted(p: nat)
    requires Prime(p)
    ensures Accepted(p)
  {
    forall q: nat | q >= 2 && q * q < p ensures !Divides(q, p) {
      assert q < q * q;
    }
  }

  // ------------------------------------------------------------------------- the search

  /** The inner loop. */
  method IsPrime(n: nat) returns (prime: bool)
    ensures prime <==> Accepted(n)
  {
    var q: nat := 2;
    while q * q < n
      invariant q >= 2 && forall r: nat :: 2 <= r < q ==> !Divides(r, n)
      decreases n - q
    {
      ModDivides(q, n);
      if n % q == 0 {
        return false;
      }
      q := q + 1;
    }
    forall r: nat | r >= 2 && r * r < n ensures !Divides(r, n) {
      MonoSquare(q, r);
    }
    return true;
  }

  /** The outer loop ends for every start, at the least number that is accepted. */
  method Search(start: nat) returns (ntasks: nat)
    ensures ntasks >= start && Accepted(ntasks)
    ensures forall m: nat :: start <= m < ntasks ==> !Accepted(m)
  {
    ghost var p := PrimeAbove(start);
    PrimeAccepted(p);
    ntasks := start;
    while true
      invariant start <= ntasks <= p && forall m: nat :: start <= m < ntasks ==> !Accepted(m)
      decreases p - ntasks
    {
      var prime := IsPrime(ntasks);
      if prime {
        return;
      }
      ntasks := ntasks + 1;
    }
  }

  // ------------------------------------------------------------ which numbers are accepted

  lemma Remainder(p: nat, a: nat, b: nat, k: nat, m: nat, r: nat)
    requires p > 0 && a * b == p * k && p == a * m + r
    ensures r * b == p * (b - m * k) && b - m * k >= 0
  {
    assert (a * m) * b == m * (a * b);
    assert r * b == p * b - (a * m) * b;
    assert m * (p * k) == p * (m * k);
    assert p * (b - m * k) == p * b - p * (m * k);
    Mono(p, b - m * k, -1);
    assert r * b >= 0;
  }

  /** A prime that divides a product divides a factor. */
  lemma {:induction false} PrimeFactor(p: nat, a: nat, b: nat)
    requires Prime(p) && Divides(p, a * b) && 0 < a < p
    ensures Divides(p, b)
    decreases a
  {
    if a == 1 {
      assert a * b == b;
      return;
    }
    var k: nat :| a * b == p * k;
    var m, r := p / a, p % a;
    assert p == a * m + r;
    assert r != 0 by {
      assert !Divides(a, p);
    }
    Remainder(p, a, b, k, m, r);
    assert Divides(p, r * b);
    PrimeFactor(p, r, b);
  }

  lemma SquareAccepted(p: nat)
    requires Prime(p)
    ensures Accepted(p * p)
  {
    forall q: nat | q >= 2 && q * q < p * p ensures !Divides(q, p * p) {
      MonoSquare(p, q);
      NoSmallDivisor(p, q);
    }
  }

  lemma NoSmallDivisor(p: nat, q: nat)
    requires Prime(p) && 2 <= q < p
    ensures !Divides(q, p * p)
  {
    if Divides(q, p * p) {
      var r: nat :| p * p == q * r;
      SquareFactor(p, q, r);
    }
  }

  lemma SquareFactor(p: nat, q: nat, r: nat)
    requires Prime(p) && 0 < q < p && p * p == q * r
    ensures Divides(q, p)
  {
    assert Divides(p, q * r);
    PrimeFactor(p, q, r);
    var s: nat :| r == p * s;
    assert q * (p * s) == p * (q * s);
    Cancel(p, p, q * s);
  }

  lemma Cancel(p: nat, a: nat, b: nat)
    requires p > 0 && p * a == p * b
    ensures a == b
  {
    assert p * (a + 1) == p * a + p && p * (b + 1) == p * b + p;
    Mono(p, a + 1, b);
    Mono(p, b + 1, a);
  }

  /** The accepted numbers are 0, 1, the primes and the squares of primes. */
  lemma AcceptedAre(n: nat)
    ensures Accepted(n) <==> n <= 1 || Prime(n) || exists p: nat :: Prime(p) && n == p * p
  {
    if n <= 1 {
      return;
    }
    if Accepted(n) {
      var d := LeastDivisor(n, 2);
      LeastIsPrime(n);
      var e: nat :| n == d * e;
      if d < n {
        Cofactor(n, d, e);
        assert n == d * d && Prime(d);
      }
    }
    if Prime(n) {
      PrimeAccepted(n);
    }
    if exists p: nat :: Prime(p) && n == p * p {
      var p: nat :| Prime(p) && n == p * p;
      SquareAccepted(p);
    }
  }

  lemma Cofactor(n: nat, d: nat, e: nat)
    requires n >= 2 && Accepted(n) && d == LeastDivisor(n, 2) && n == d * e && d < n
    ensures e == d
  {
    Mono(d, e, 1);
    assert e >= 2;
    assert Divides(e, n) by {
      assert n == e * d;
    }
    assert e >= d;
    assert d * (d + 1) == d * d + d;
    Mono(d, d + 1, e);
  }
}
