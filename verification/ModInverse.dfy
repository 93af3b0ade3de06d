/** The modular inverse by the extended Euclidean algorithm in unsigned words (rng.h). */
module ModInverse {
  import opened Common
  import opened ModArith

  const TWO63 := 0x8000_0000_0000_0000

  function Gcd(x: nat, m: nat): nat
    decreases m
  {
    if m == 0 then x else Gcd(m, x % m)
  }

  predicate Coprime(x: nat, m: nat) { Gcd(x, m) == 1 }

  predicate Inverse(r: int, x: nat, m: nat)
    requires m > 0
  {
    r * x % m == 1
  }

  ghost predicate Divides(d: nat, x: int) { exists c: int :: x == c * d }

  lemma DividesSum(d: nat, x: int, y: int, k: int)
    requires Divides(d, x) && Divides(d, y)
    ensures Divides(d, x + k * y)
  {
    var a: int :| x == a * d;
    var b: int :| y == b * d;
    assert x + k * y == (a + k * b) * d;
  }

  /** The greatest common divisor divides both, and every common divisor divides it. */
  lemma {:induction false} GcdMeans(x: nat, m: nat, d: nat)
    ensures Divides(Gcd(x, m), x) && Divides(Gcd(x, m), m)
    ensures Divides(d, x) && Divides(d, m) ==> Divides(d, Gcd(x, m))
    decreases m
  {
    if m == 0 {
      assert x == 1 * x && 0 == 0 * x;
    } else {
      GcdMeans(m, x % m, d);
      var q := x / m;
      assert x == x % m + q * m && x % m == x + (-q) * m;
      DividesSum(Gcd(x, m), x % m, m, q);
      if Divides(d, x) && Divides(d, m) { DividesSum(d, x, m, -q); }
    }
  }

  /** Only numbers coprime to the modulus have an inverse. */
  lemma InverseMeansCoprime(x: nat, n: nat, r: int)
    requires n > 1 && Inverse(r, x, n)
    ensures Coprime(x, n)
  {
    var g, q := Gcd(x, n), r * x / n;
    GcdMeans(x, n, g);
    var a: int :| x == a * g;
    var b: int :| n == b * g;
    assert r * x == q * n + 1;
    assert (r * a - q * b) * g == r * (a * g) - q * (b * g);
    MulAtLeast(r * a - q * b, g);
  }

  /** A word that stands for a signed number. */
  function Word(s: int): nat { s % TWO64 }

  function Signed(neg: bool, u: int): int { if neg then -u else u }

  /** The coefficients of the algorithm as signed numbers: `B` of x and `A` of m have opposite
      signs and sizes `ub` and `ua`, with cofactors `b2` and `a2` of the modulus `n`. The area
      of sizes and remainders never changes, and so bounds the sizes. */
  datatype Coeffs = Coeffs(neg: bool, ua: nat, ub: nat, a2: int, b2: int) {
    function A(): int { Signed(!neg, ua) }
    function B(): int { Signed(neg, ub) }

    predicate Combine(x0: nat, n: nat, x: nat, m: nat) {
      B() * x0 + b2 * n == x && A() * x0 + a2 * n == m
    }

    predicate Bounded(n: nat, x: nat, m: nat) { ua * x + ub * m == n && 2 * ub <= n }

    function Step(q: nat): (c: Coeffs)
      ensures c.B() == A() && c.A() == B() - q * A()
    {
      assert q * (0 - ua) == -(q * ua);
      Coeffs(!neg, ub + q * ua, ua, b2 - q * a2, a2)
    }
  }

  lemma CombineStep(a: int, b: int, a2: int, b2: int, x0: int, n: int, q: int, m: int)
    requires a * x0 + a2 * n == m
    ensures (b - q * a) * x0 + (b2 - q * a2) * n == b * x0 + b2 * n - q * m
  {
    assert (b - q * a) * x0 == b * x0 - q * (a * x0);
    assert (b2 - q * a2) * n == b2 * n - q * (a2 * n);
    assert q * m == q * (a * x0) + q * (a2 * n);
  }

  lemma AreaStep(ua: nat, ub: nat, x: nat, m: nat, q: nat, r: nat, n: nat)
    requires ua * x + ub * m == n && x == q * m + r && x > 1
    ensures (ub + q * ua) * m + ua * r == n && 2 * ua <= n
  {
    assert ua * x == ua * (q * m) + ua * r;
    assert (ub + q * ua) * m == ub * m + ua * (q * m);
    assert ua * (x - 2) >= 0 && ub * m >= 0;
  }

  lemma BezoutStep(c: Coeffs, x0: nat, n: nat, x: nat, m: nat)
    requires n > 1 && x > 1 && m > 0 && c.Combine(x0, n, x, m) && c.Bounded(n, x, m)
    ensures c.Step(x / m).Combine(x0, n, m, x % m) && c.Step(x / m).Bounded(n, m, x % m)
  {
    hide Coeffs.A, Coeffs.B;
    var q, r := x / m, x % m;
    assert x == q * m + r;
    CombineStep(c.A(), c.B(), c.a2, c.b2, x0, n, q, m);
    AreaStep(c.ua, c.ub, x, m, q, r, n);
  }

  /** Subtraction and multiplication of words agree with those of the numbers they stand for. */
  lemma WordStep(a: int, b: int, q: nat)
    ensures Word(Word(b) - q * Word(a)) == Word(b - q * a)
  {
    var c, d := a / TWO64, b / TWO64;
    assert a == c * TWO64 + Word(a) && b == d * TWO64 + Word(b);
    assert q * a == (q * c) * TWO64 + q * Word(a);
    ModPeriod(Word(b) - q * Word(a), d - q * c, TWO64);
  }

  /** The final coefficient, brought into range, is an inverse. */
  lemma FinalInverse(b: int, b2: int, x0: nat, n: nat, r: int)
    requires n > 1 && b * x0 + b2 * n == 1 && (r == b || r == b + n)
    ensures Inverse(r, x0, n)
  {
    var k := if r == b then -b2 else x0 - b2;
    assert (b + n) * x0 == b * x0 + x0 * n;
    assert r * x0 == 1 + k * n;
    ModPeriod(1, k, n);
    DivModUnique(1, 0, 1, n);
  }

  lemma {:induction false} GcdOne(m: nat)
    ensures Coprime(1, m)
  {
    if m > 1 {
      DivModUnique(1, 0, 1, m);
      DivModUnique(m, m, 0, 1);
      assert Gcd(1, m) == Gcd(m, 1) == Gcd(1, 0);
    }
  }

  /** The last word of the loop, read as a signed number and moved into the range of residues. */
  lemma LastWord(b: int, n: nat)
    requires 1 < n < TWO63 && 0 <= 2 * b + n <= 2 * n
    ensures Word(b) >= TWO63 <==> b < 0
    ensures b < 0 ==> Word(Word(b) + n) == b + n
    ensures b >= 0 ==> Word(b) == b
  {
  }

  /** What the loop keeps: the words a and b stand for coefficients that express x and m by x0 and n. */
  predicate Kept(c: Coeffs, x0: nat, n: nat, x: nat, m: nat, a: nat, b: nat) {
    && c.Combine(x0, n, x, m) && c.Bounded(n, x, m)
    && a == Word(c.A()) && b == Word(c.B())
    && (x0 > 0 ==> x > 0 && Gcd(x, m) == Gcd(x0, n))
    && (x0 == 0 ==> x == 0 && c.B() == 1)
  }

  lemma {:induction false} KeptStep(c: Coeffs, x0: nat, n: nat, x: nat, m: nat, a: nat, b: nat)
    requires n > 1 && x > 1 && m > 0 && Kept(c, x0, n, x, m, a, b)
    ensures Kept(c.Step(x / m), x0, n, m, x % m, Word(b - x / m * a), a)
  {
    hide Coeffs.A, Coeffs.B, Coeffs.Combine, Coeffs.Bounded, Word;
    BezoutStep(c, x0, n, x, m);
    WordStep(c.A(), c.B(), x / m);
  }

  /** The inverse, exactly when there is one. Both arguments are below 2^63. */
  method MulInv(x0: nat, n: nat) returns (r: nat)
    requires x0 < TWO63 && n < TWO63
    ensures n <= 1 ==> r == 0
    ensures n > 1 ==> r < n
    ensures n > 1 ==> (Inverse(r, x0, n) <==> x0 >= 1 && Coprime(x0, n))
  {
    hide Kept, Word, Gcd, Inverse, Coeffs.A, Coeffs.B;
    if n <= 1 {
      return 0;
    }
    NoInverse(x0, n);
    var x: nat, m: nat, a: nat, b: nat := x0, n, 0, 1;
    ghost var c := Coeffs(false, 0, 1, 1, 0);
    Start(c, x0, n);
    while x > 1
      invariant Kept(c, x0, n, x, m, a, b)
      decreases m
    {
      if m == 0 {
        Hopeless(c, x0, n, x, a, b);
        return 0;
      }
      KeptStep(c, x0, n, x, m, a, b);
      var q := x / m;
      c := c.Step(q);
      x, m := m, x % m;
      a, b := Word(b - q * a), a;
    }
    Finish(c, x0, n, x, m, a, b);
    LastWord(c.B(), n);
    r := b;
    if b >= TWO63 {
      r := Word(r + n);
    }
  }

  lemma NoInverse(x0: nat, n: nat)
    requires n > 1
    ensures !Inverse(0, x0, n)
    ensures x0 == 0 ==> !Inverse(1, x0, n)
  {
    assert 0 * x0 == 0;
    DivModUnique(0, 0, 0, n);
  }

  lemma {:induction false} Hopeless(c: Coeffs, x0: nat, n: nat, x: nat, a: nat, b: nat)
    requires x > 1 && Kept(c, x0, n, x, 0, a, b)
    ensures !Coprime(x0, n)
  {
  }

  lemma {:induction false} Start(c: Coeffs, x0: nat, n: nat)
    requires n > 1 && c == Coeffs(false, 0, 1, 1, 0)
    ensures Kept(c, x0, n, x0, n, 0, 1)
  {
  }

  lemma {:induction false} Finish(c: Coeffs, x0: nat, n: nat, x: nat, m: nat, a: nat, b: nat)
    requires n > 1 && x <= 1 && Kept(c, x0, n, x, m, a, b)
    ensures 0 <= 2 * c.B() + n <= 2 * n && b == Word(c.B())
    ensures x0 >= 1 ==> Coprime(x0, n) && Inverse(c.B(), x0, n) && Inverse(c.B() + n, x0, n)
    ensures x0 == 0 ==> c.B() == 1
  {
    if x == 1 {
      GcdOne(m);
      FinalInverse(c.B(), c.b2, x0, n, c.B());
      FinalInverse(c.B(), c.b2, x0, n, c.B() + n);
    }
  }
}
