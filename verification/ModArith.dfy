/** Division and remainder with a variable divisor. */
module ModArith {

  lemma MulAtLeast(d: int, n: int)
    requires n > 0
    ensures d >= 1 ==> d * n >= n
    ensures d <= -1 ==> d * n <= -n
  {
    if d >= 1 { assert (d - 1) * n >= 0; }
    if d <= -1 { assert (d + 1) * n <= 0; }
  }

  lemma DivModUnique(x: int, q: int, r: int, n: int)
    requires n > 0 && 0 <= r < n && x == q * n + r
    ensures x / n == q && x % n == r
  {
    var d := x / n - q;
    assert x == (x / n) * n + x % n;
    assert d * n == r - x % n;
    MulAtLeast(d, n);
  }

  /** Adding any multiple of the divisor changes nothing. */
  lemma ModPeriod(x: int, k: int, n: int)
    requires n > 0
    ensures (x + k * n) % n == x % n
  {
    var q := x / n;
    assert x == q * n + x % n;
    assert (q + k) * n == q * n + k * n;
    DivModUnique(x + k * n, q + k, x % n, n);
  }

  lemma ModShift(x: int, k: int, n: int)
    requires n > 0
    ensures (x % n + k) % n == (x + k) % n
  {
    var q := x / n;
    assert x == q * n + x % n;
    ModPeriod(x % n + k, q, n);
  }

  /** Numbers that differ by less than the divisor have different remainders. */
  lemma ModApart(x: int, d: int, n: int)
    requires n > 0 && 0 < d < n
    ensures x % n != (x + d) % n
  {
    var q, r := x / n, x % n;
    assert x == q * n + r;
    if r + d < n {
      DivModUnique(x + d, q, r + d, n);
    } else {
      assert (q + 1) * n == q * n + n;
      DivModUnique(x + d, q + 1, r + d - n, n);
    }
  }

  lemma ModMul(x: int, y: int, n: int)
    requires n > 0
    ensures (x % n) * y % n == x * y % n
  {
    var q := x / n;
    assert x == q * n + x % n;
    assert x * y == (x % n) * y + (q * y) * n;
    ModPeriod((x % n) * y, q * y, n);
  }

  /** Reducing by a multiple of the divisor first changes nothing. */
  lemma ModMod(x: int, n: int, c: int)
    requires n > 0 && c > 0
    ensures n * c > 0 && x % (n * c) % n == x % n
  {
    MulAtLeast(n, c);
    var k := n * c;
    var q := x / k;
    assert x == q * k + x % k;
    assert q * k == (q * c) * n;
    ModPeriod(x % k, q * c, n);
  }

  function Pow2(k: nat): (p: nat)
    ensures p > 0
  {
    if k == 0 then 1 else 2 * Pow2(k - 1)
  }

  predicate IsPowerOfTwo(r: nat)
  {
    r <= 1 || (r % 2 == 0 && IsPowerOfTwo(r / 2))
  }

  lemma {:induction false} PowerMeans(r: nat)
    ensures IsPowerOfTwo(r) <==> r == 0 || exists k :: r == Pow2(k)
    decreases r
  {
    hide IsPowerOfTwo, Pow2;
    PowerStep(r);
    if r <= 1 {
      PowerNone(0);
      assert r == 1 ==> r == Pow2(0);
    } else {
      PowerMeans(r / 2);
      if r % 2 == 0 {
        if k: nat :| r / 2 == Pow2(k) { PowerNone(k + 1); }
      }
      if k: nat :| r == Pow2(k) {
        PowerNone(k);
        assert r / 2 == Pow2(k - 1);
      }
    }
  }

  lemma PowerStep(r: nat)
    ensures IsPowerOfTwo(r) == (r <= 1 || (r % 2 == 0 && IsPowerOfTwo(r / 2)))
  {
  }

  lemma PowerNone(k: nat)
    ensures Pow2(0) == 1 && (k > 0 ==> Pow2(k) == 2 * Pow2(k - 1))
  {
  }

  lemma {:induction false} PowerDivides(n: nat, j: nat) returns (q: nat)
    requires IsPowerOfTwo(n) && 0 < n <= Pow2(j)
    ensures n * q == Pow2(j)
    decreases n
  {
    if n == 1 {
      q := Pow2(j);
    } else {
      q := PowerDivides(n / 2, j - 1);
      assert n == 2 * (n / 2);
      assert n * q == 2 * ((n / 2) * q);
    }
  }

  lemma {:induction false} Pow2Sum(a: nat, b: nat)
    ensures Pow2(a + b) == Pow2(a) * Pow2(b)
  {
    if a > 0 { Pow2Sum(a - 1, b); }
  }

  lemma {:induction false} Pow2Small()
    ensures Pow2(0) == 1 && Pow2(1) == 2 && Pow2(4) == 16 && Pow2(48) == 2 * Pow2(47) && Pow2(32) == 2 * Pow2(31)
  {
  }

  lemma {:induction false} Pow2Values()
    ensures Pow2(20) == 0x10_0000
    ensures Pow2(31) == 0x8000_0000
    ensures Pow2(47) == 0x8000_0000_0000 && Pow2(48) == 0x1_0000_0000_0000
    ensures Pow2(64) == 0x1_0000_0000_0000_0000
  {
    hide Pow2;
    Pow2Small();
    Pow2Sum(4, 4);
    Pow2Sum(8, 8);
    Pow2Sum(16, 4);
    Pow2Sum(16, 16);
    Pow2Sum(32, 16);
    Pow2Sum(32, 32);
  }
}
