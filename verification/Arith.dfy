/** Facts about multiplication, division and remainders that the other modules share. */
module Arith {

  lemma MulMono(a: int, b: int, n: int)
    requires a <= b && 0 <= n
    ensures a * n <= b * n
  {
    assert 0 <= (b - a) * n;
  }

  lemma Distrib(a: int, b: int, n: int)
    ensures (a + b) * n == a * n + b * n
    ensures (a - b) * n == a * n - b * n
  {
  }

  /** Quotient and remainder are determined by their defining equation. */
  lemma DivModUnique(x: int, n: int, q: int, r: int)
    requires 0 < n && x == q * n + r && 0 <= r < n
    ensures x / n == q && x % n == r
  {
    var q', r' := x / n, x % n;
    assert x == q' * n + r';
    Distrib(q, q', n);
    if q' < q {
      MulMono(1, q - q', n);
    } else if q < q' {
      MulMono(q - q', -1, n);
    }
  }

  lemma ModOfMultiple(k: int, n: int)
    requires 0 < n
    ensures (k * n) % n == 0 && (k * n) / n == k
  {
    DivModUnique(k * n, n, k, 0);
  }

  /** Adding multiples of the modulus changes nothing. */
  lemma ModShift(x: int, k: int, n: int)
    requires 0 < n
    ensures (x + k * n) % n == x % n
  {
    Distrib(x / n, k, n);
    DivModUnique(x + k * n, n, x / n + k, x % n);
  }

  lemma ModSmall(x: int, n: int)
    requires 0 <= x < n
    ensures x % n == x && x / n == 0
  {
    DivModUnique(x, n, 0, x);
  }

  lemma ModAdd(x: int, y: int, n: int)
    requires 0 < n
    ensures (x % n + y) % n == (x + y) % n
  {
    var q := x / n;
    assert x == q * n + x % n;
    ModShift(x % n + y, q, n);
  }

  /** A sum of two reduced values wraps at most once. */
  lemma ModWrap(x: int, n: int)
    requires 0 < n && -n <= x < 2 * n
    ensures x % n == if x < 0 then x + n else if x < n then x else x - n
  {
    if x < 0 {
      DivModUnique(x, n, -1, x + n);
    } else if x < n {
      DivModUnique(x, n, 0, x);
    } else {
      DivModUnique(x, n, 1, x - n);
    }
  }

  /** Equal remainders differ by a multiple. */
  lemma ModEqual(x: int, y: int, n: int)
    requires 0 < n && x % n == y % n
    ensures (x - y) % n == 0
    ensures x - y == (x / n - y / n) * n
  {
    var p, q := x / n, y / n;
    assert x == p * n + x % n && y == q * n + y % n;
    Distrib(p, q, n);
    ModOfMultiple(p - q, n);
  }

  /** A multiple of `n` strictly between `-n` and `n` is zero. */
  lemma SmallMultiple(k: int, n: int)
    requires 0 < n && -n < k * n < n
    ensures k == 0
  {
    if k > 0 {
      MulMono(1, k, n);
    } else if k < 0 {
      MulMono(k, -1, n);
    }
  }

  lemma MultiplesApart(a: int, b: int, n: int)
    requires 0 < n && a % n == 0 && b % n == 0 && a < b
    ensures a + n <= b
  {
    var p, q := a / n, b / n;
    Distrib(q, p, n);
    if q <= p { MulMono(q - p, 0, n); }
    MulMono(1, q - p, n);
  }

  lemma DivBounds(x: int, n: int)
    requires 0 < n
    ensures x - n < x / n * n <= x
  {
  }

  /** Counting on by one. */
  lemma DivModNext(x: int, n: int)
    requires 0 < n
    ensures if x % n + 1 < n then (x + 1) / n == x / n && (x + 1) % n == x % n + 1
            else (x + 1) / n == x / n + 1 && (x + 1) % n == 0
  {
    var q, r := x / n, x % n;
    assert x == q * n + r;
    if r + 1 < n {
      DivModUnique(x + 1, n, q, r + 1);
    } else {
      Distrib(q, 1, n);
      DivModUnique(x + 1, n, q + 1, 0);
    }
  }

  // ---------------------------------------------------------------------------
  // Greatest common divisor (the `gcd` of src/include/utils.h)

  ghost function Gcd(a: nat, b: nat): (g: nat)
    ensures a > 0 || b > 0 ==> g > 0
    decreases b
  {
    if b == 0 then a else Gcd(b, a % b)
  }

  ghost predicate Divides(d: int, x: int)
    requires d > 0
  {
    x % d == 0
  }

  lemma DividesSum(d: int, x: int, y: int)
    requires d > 0 && Divides(d, x) && Divides(d, y)
    ensures Divides(d, x + y) && Divides(d, x - y)
  {
    var p, q := x / d, y / d;
    assert x == p * d && y == q * d;
    Distrib(p, q, d);
    ModOfMultiple(p + q, d);
    ModOfMultiple(p - q, d);
  }

  lemma DividesMultiple(d: int, x: int, k: int)
    requires d > 0 && Divides(d, x)
    ensures Divides(d, k * x)
  {
    var p := x / d;
    assert x == p * d;
    assert k * x == (k * p) * d;
    ModOfMultiple(k * p, d);
  }

  lemma DividesMod(d: int, a: int, b: int)
    requires d > 0 && b > 0 && Divides(d, b)
    ensures Divides(d, a % b) <==> Divides(d, a)
  {
    DividesMultiple(d, b, a / b);
    var q := a / b * b;
    assert a == q + a % b;
    if Divides(d, a) { DividesSum(d, a, q); }
    if Divides(d, a % b) { DividesSum(d, q, a % b); }
  }

  lemma DividesTrans(d: int, e: int, x: int)
    requires d > 0 && e > 0 && Divides(d, e) && Divides(e, x)
    ensures Divides(d, x)
  {
    DividesMultiple(d, e, x / e);
    assert x == x / e * e;
  }

  /** The common divisors of `a` and `b` are exactly the divisors of their gcd. */
  lemma {:induction false} GcdDivisors(a: nat, b: nat, d: int)
    requires d > 0
    ensures Divides(d, Gcd(a, b)) <==> Divides(d, a) && Divides(d, b)
    decreases b
  {
    if b == 0 {
      ModSmall(0, d);
    } else {
      GcdDivisors(b, a % b, d);
      if Divides(d, b) { DividesMod(d, a, b); }
    }
  }

  lemma DividesSelf(d: int)
    requires d > 0
    ensures Divides(d, d)
  {
    ModOfMultiple(1, d);
  }

  lemma DivisorBound(d: int, x: int)
    requires d > 0 && x > 0 && Divides(d, x)
    ensures d <= x
  {
    if x < d { ModSmall(x, d); }
  }

  lemma DivisorQuotient(d: int, x: int)
    requires d > 0 && x > 0 && Divides(d, x)
    ensures x / d >= 1 && x == x / d * d
  {
    DivisorBound(d, x);
  }

  method ComputeGcd(a: nat, b: nat) returns (g: nat)
    ensures g == Gcd(a, b)
  {
    g := a;
    var y: nat := b;
    while y != 0
      invariant Gcd(g, y) == Gcd(a, b)
      decreases y
    {
      g, y := y, g % y;
    }
  }

  function Pow2(k: nat): (p: nat)
    ensures p >= 1
  {
    if k == 0 then 1 else 2 * Pow2(k - 1)
  }
}
