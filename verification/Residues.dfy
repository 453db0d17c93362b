/** Greatest common divisors, and why a stride coprime to a modulus visits every residue. */
module Residues {

  /** Euclid's algorithm, standing for `math.gcd` on natural numbers. */
  function Gcd(a: nat, b: nat): nat
    decreases b
  {
    if b == 0 then a else Gcd(b, a % b)
  }

  ghost predicate Divides(d: int, n: int) {
    exists q: int :: n == d * q
  }

  // ------------------------------------------------------------------ arithmetic steps

  lemma QuotientAndRest(n: int, q: int, m: nat, r: int)
    requires m > 0 && n == q * m + r && 0 <= r < m
    ensures n / m == q && n % m == r
  {
    var q', r' := n / m, n % m;
    assert n == q' * m + r';
    assert (q - q') * m == r' - r;
    if q != q' {
      LargeFactor(q - q', m);
      assert false;
    }
  }

  lemma LargeFactor(k: int, m: nat)
    requires k != 0
    ensures k * m >= m || k * m <= -(m as int)
  {
    if k > 0 {
      Product(k - 1, m);
      assert (k - 1) * m == k * m - m;
    } else {
      Product(-k - 1, m);
      assert (-k - 1) * m == -(k * m) - m;
    }
  }

  lemma Product(a: nat, b: nat)
    ensures a * b >= 0
  {
  }

  lemma CombineStep(a: int, b: int, q: int, r: int, u: int, v: int)
    requires a == q * b + r
    ensures v * a + (u - q * v) * b == u * b + v * r
  {
    calc {
      v * a + (u - q * v) * b;
      v * (q * b + r) + u * b - q * v * b;
      u * b + v * r;
    }
  }

  lemma CombineMultiples(d: int, s: int, m: int, x: int, y: int, q: int)
    requires x * s + y * m == 1 && d * s == m * q
    ensures d == m * (x * q + d * y)
  {
    calc {
      d;
      d * (x * s + y * m);
      x * (d * s) + d * y * m;
      x * (m * q) + d * y * m;
      m * (x * q + d * y);
    }
  }

  // ------------------------------------------------------------------ divisors

  /** Coefficients with x * a + y * b == Gcd(a, b). */
  lemma {:induction false} Bezout(a: nat, b: nat) returns (x: int, y: int)
    ensures x * a + y * b == Gcd(a, b)
    decreases b
  {
    if b == 0 {
      x, y := 1, 0;
    } else {
      var u, v := Bezout(b, a % b);
      x, y := v, u - (a / b) * v;
      CombineStep(a, b, a / b, a % b, u, v);
    }
  }

  lemma DividesSum(g: int, a: int, b: int, q: int, r: int)
    requires Divides(g, b) && Divides(g, r) && a == q * b + r
    ensures Divides(g, a)
  {
    var k :| b == g * k;
    var l :| r == g * l;
    assert a == g * (q * k + l) by {
      assert q * (g * k) == g * (q * k);
    }
  }

  lemma {:induction false} GcdDividesBoth(a: nat, b: nat)
    ensures Divides(Gcd(a, b), a) && Divides(Gcd(a, b), b)
    decreases b
  {
    if b == 0 {
      assert a == a * 1 && b == a * 0;
    } else {
      GcdDividesBoth(b, a % b);
      DividesSum(Gcd(a, b), a, b, a / b, a % b);
    }
  }

  /** Every common divisor divides the result, so it is the greatest one. */
  lemma {:induction false} GcdGreatest(a: nat, b: nat, d: int)
    requires Divides(d, a) && Divides(d, b)
    ensures Divides(d, Gcd(a, b))
  {
    var x, y := Bezout(a, b);
    var p :| a == d * p;
    var q :| b == d * q;
    calc {
      Gcd(a, b);
      x * (d * p) + y * (d * q);
      d * (x * p) + d * (y * q);
      d * (x * p + y * q);
    }
  }

  /** The number before a modulus is coprime to it. */
  lemma PredecessorCoprime(n: nat)
    requires n >= 2
    ensures Gcd(n - 1, n) == 1
  {
    QuotientAndRest(n - 1, 0, n, n - 1);
    assert Gcd(n - 1, n) == Gcd(n, n - 1);
    if n > 2 {
      QuotientAndRest(n, 1, n - 1, 1);
      assert Gcd(n, n - 1) == Gcd(n - 1, 1);
    }
  }

  /** A factor coprime to the modulus can be cancelled. */
  lemma {:induction false} CoprimeCancels(step: nat, modulus: nat, d: int)
    requires modulus > 0 && Gcd(step, modulus) == 1
    requires Divides(modulus, d * step)
    ensures Divides(modulus, d)
  {
    var x, y := Bezout(step, modulus);
    var q :| d * step == modulus * q;
    CombineMultiples(d, step, modulus, x, y, q);
  }

  lemma SmallMultipleIsZero(modulus: nat, d: int)
    requires modulus > 0 && 0 <= d < modulus && Divides(modulus, d)
    ensures d == 0
  {
    var q :| d == modulus * q;
    if q != 0 {
      LargeFactor(q, modulus);
    }
  }

  lemma SameRestDivides(a: int, b: int, m: nat)
    requires m > 0 && a % m == b % m
    ensures Divides(m, b - a)
  {
    var p, q, r := a / m, b / m, a % m;
    assert a == m * p + r && b == m * q + r;
    assert b - a == m * (q - p);
  }

  /** Different multiples of the stride, fewer than a whole round apart, leave different residues. */
  lemma {:induction false} StrideInjective(step: nat, modulus: nat, i: nat, j: nat)
    requires modulus > 0 && Gcd(step, modulus) == 1
    requires i < j < modulus
    ensures Residue(step, modulus, i) != Residue(step, modulus, j)
  {
    if Residue(step, modulus, i) == Residue(step, modulus, j) {
      SameRestDivides(i * step, j * step, modulus);
      assert j * step - i * step == (j - i) * step;
      CoprimeCancels(step, modulus, j - i);
      SmallMultipleIsZero(modulus, j - i);
      assert false;
    }
  }

  function Residue(step: nat, modulus: nat, i: nat): (r: nat)
    requires modulus > 0
    ensures r < modulus
  {
    (i * step) % modulus
  }

  ghost function ResiduesBelow(step: nat, modulus: nat, k: nat): set<nat>
    requires modulus > 0
  {
    set i: nat | i < k :: Residue(step, modulus, i)
  }

  ghost function Below(n: nat): (s: set<nat>)
    ensures |s| == n
    ensures forall i: nat :: i in s <==> i < n
  {
    if n == 0 then {} else Below(n - 1) + {n - 1}
  }

  lemma {:induction false} ResiduesSize(step: nat, modulus: nat, k: nat)
    requires modulus > 0 && Gcd(step, modulus) == 1 && k <= modulus
    ensures |ResiduesBelow(step, modulus, k)| == k
  {
    if k > 0 {
      ResiduesSize(step, modulus, k - 1);
      var last := Residue(step, modulus, k - 1);
      assert last !in ResiduesBelow(step, modulus, k - 1) by {
        forall i: nat | i < k - 1
          ensures Residue(step, modulus, i) != last
        {
          StrideInjective(step, modulus, i, k - 1);
        }
      }
      assert ResiduesBelow(step, modulus, k) == ResiduesBelow(step, modulus, k - 1) + {last};
    }
  }

  lemma SubsetOfSameSize<T>(a: set<T>, b: set<T>)
    requires a <= b && |a| == |b|
    ensures a == b
  {
    assert |b - a| == |b| - |a|;
  }

  /** One round of a coprime stride meets every residue. */
  lemma StrideSurjective(step: nat, modulus: nat, target: nat) returns (i: nat)
    requires modulus > 0 && Gcd(step, modulus) == 1 && target < modulus
    ensures i < modulus && Residue(step, modulus, i) == target
  {
    ResiduesSize(step, modulus, modulus);
    SubsetOfSameSize(ResiduesBelow(step, modulus, modulus), Below(modulus));
    assert target in ResiduesBelow(step, modulus, modulus);
    i :| i < modulus && Residue(step, modulus, i) == target;
  }
}
