/** Bounded draws by multiplication and rejection (rng.h, Random.h). */
module BoundedDraw {
  import opened ModArith

  const TWO32 := 0x1_0000_0000

  type Word = l: nat | l < TWO32

  /** The threshold below which a product is rejected: 2^32 mod n, computed as (2^32 - n) mod n. */
  function Threshold(n: nat): nat
    requires 0 < n < TWO32
  {
    (TWO32 - n) % n
  }

  function Low(l: Word, n: nat): nat { l * n % TWO32 }

  function High(l: Word, n: nat): nat { l * n / TWO32 }

  predicate Accepted(l: Word, n: nat)
    requires 0 < n < TWO32
  {
    Low(l, n) >= Threshold(n)
  }

  lemma ThresholdIsRest(n: nat)
    requires 0 < n < TWO32
    ensures Threshold(n) == TWO32 % n < n && TWO32 - Threshold(n) == (TWO32 / n) * n
  {
    ModPeriod(TWO32 - n, 1, n);
  }

  datatype Outcome = Drawn(value: nat, used: nat) | Exhausted

  /** The draw loop over a stream of words. The early test against `n` itself saves the
      division most of the time; it never changes which word is taken. */
  method DrawBelow(words: seq<Word>, n: nat) returns (r: Outcome)
    requires 0 < n < TWO32
    ensures r.Drawn? ==>
      && 0 < r.used <= |words| && Accepted(words[r.used - 1], n)
      && r.value == High(words[r.used - 1], n) < n
      && forall i :: 0 <= i < r.used - 1 ==> !Accepted(words[i], n)
    ensures r.Exhausted? ==> forall i :: 0 <= i < |words| ==> !Accepted(words[i], n)
  {
    hide Low, High;
    if words == [] {
      return Exhausted;
    }
    ThresholdIsRest(n);
    var used := 1;
    var l := words[0];
    if Low(l, n) < n {
      var threshold := Threshold(n);
      while Low(l, n) < threshold
        invariant 1 <= used <= |words| && l == words[used - 1]
        invariant forall i :: 0 <= i < used - 1 ==> !Accepted(words[i], n)
        decreases |words| - used
      {
        if used == |words| {
          return Exhausted;
        }
        l := words[used];
        used := used + 1;
      }
    }
    HighBelow(l, n);
    r := Drawn(High(l, n), used);
  }

  lemma HighBelow(l: Word, n: nat)
    requires n > 0
    ensures High(l, n) < n
  {
    MulAtLeast(TWO32 - l, n);
    assert l * n == TWO32 * n - (TWO32 - l) * n;
  }

  /** Multiples of `n` from `a` on start at the rounded-up quotient. */
  lemma MultipleFrom(l: int, a: int, n: int)
    requires n > 0
    ensures l * n >= a <==> l >= (a + n - 1) / n
  {
    var q, r := (a + n - 1) / n, (a + n - 1) % n;
    assert a + n - 1 == q * n + r;
    if l >= q {
      assert (l - q) * n >= 0;
      assert l * n == q * n + (l - q) * n;
    } else {
      MulAtLeast(l - q, n);
      assert l * n == q * n + (l - q) * n;
    }
  }

  ghost function Interval(lo: int, hi: int): (s: set<int>)
    ensures forall i :: i in s <==> lo <= i < hi
    decreases hi - lo
  {
    if hi <= lo then {} else Interval(lo, hi - 1) + {hi - 1}
  }

  lemma {:induction false} IntervalSize(lo: int, n: nat)
    ensures |Interval(lo, lo + n)| == n
  {
    if n > 0 {
      IntervalSize(lo, n - 1);
    }
  }

  /** The accepted words that give the result `k`. */
  ghost function Giving(n: nat, k: nat): set<int>
    requires 0 < n < TWO32
  {
    set l: int | 0 <= l < TWO32 && Accepted(l, n) && High(l, n) == k
  }

  /** A word is accepted with result `k` just when its product falls in the upper part of the
      `k`th stretch of 2^32 numbers. */
  lemma GivingRange(l: Word, n: nat, k: nat)
    requires 0 < n < TWO32
    ensures Accepted(l, n) && High(l, n) == k <==> k * TWO32 + Threshold(n) <= l * n < (k + 1) * TWO32
  {
    var p := l * n;
    assert p == (p / TWO32) * TWO32 + p % TWO32;
    if k * TWO32 + Threshold(n) <= p < (k + 1) * TWO32 {
      ThresholdIsRest(n);
      DivModUnique(p, k, p - k * TWO32, TWO32);
    }
  }

  /** The words whose product lies in a stretch that ends at or before `n` times 2^32. */
  lemma StretchInRange(l: int, n: nat, k: nat, a: nat)
    requires 0 < n && k < n && a <= l * n < (k + 1) * TWO32
    ensures 0 <= l < TWO32
  {
    MulAtLeast(l, n);
    MulAtLeast(l - TWO32 + 1, n);
    assert l * n == (l - TWO32 + 1) * n + (TWO32 - 1) * n;
  }

  lemma GivingIs(l: int, n: nat, k: nat)
    requires 0 < n < TWO32 && k < n
    ensures l in Giving(n, k) <==> k * TWO32 + Threshold(n) <= l * n < (k + 1) * TWO32
  {
    hide Low, High, Threshold;
    if k * TWO32 + Threshold(n) <= l * n < (k + 1) * TWO32 {
      StretchInRange(l, n, k, k * TWO32 + Threshold(n));
    }
    if 0 <= l < TWO32 {
      GivingRange(l, n, k);
    }
  }

  /** Unbiased: every result comes from exactly floor(2^32 / n) accepted words. */
  lemma DrawIsUniform(n: nat, k: nat)
    requires 0 < n < TWO32 && k < n
    ensures |Giving(n, k)| == TWO32 / n
  {
    hide Giving, Threshold;
    var q, a := TWO32 / n, k * TWO32 + Threshold(n);
    var lo := (a + n - 1) / n;
    ThresholdIsRest(n);
    assert a + q * n == (k + 1) * TWO32;
    forall l: int ensures l in Giving(n, k) <==> l in Interval(lo, lo + q) {
      GivingIs(l, n, k);
      MultipleFrom(l, a, n);
      MultipleFrom(l - q, a, n);
      assert (l - q) * n == l * n - q * n;
    }
    assert Giving(n, k) == Interval(lo, lo + q);
    IntervalSize(lo, q);
  }

  const TWO31 := 0x8000_0000

  /** The Java generator's bounded draw keeps a 31-bit draw unless its stretch of `n` numbers
      is cut off at 2^31, which the code sees as a negative sum. */
  predicate JavaAccepts(b: nat, n: nat)
    requires 0 < n < TWO31
  {
    b < TWO31 && b - b % n + (n - 1) < TWO31
  }

  /** The loop test: a sum of 32-bit words that is negative when read as a signed number. */
  predicate Negative(bits: nat, val: nat, n: nat) { (bits - val + (n - 1)) % TWO32 >= TWO31 }

  lemma JavaTest(bits: nat, n: nat)
    requires 0 < n < TWO31 && bits < TWO31
    ensures Negative(bits, bits % n, n) == !JavaAccepts(bits, n)
  {
    var q := bits / n;
    assert bits == q * n + bits % n && q * n >= 0;
  }

  /** The bounded draw of the Java generator over a stream of 31-bit draws: powers of two take
      the high bits of one draw, other bounds take the first draw that is kept. */
  method NextInt(draws: seq<nat>, n: nat) returns (r: Outcome)
    requires 0 < n < TWO31 && forall i :: 0 <= i < |draws| ==> draws[i] < TWO31
    ensures IsPowerOfTwo(n) ==> r == if draws == [] then Exhausted else Drawn(draws[0] * n / TWO31, 1)
    ensures !IsPowerOfTwo(n) && r.Drawn? ==>
      && 0 < r.used <= |draws| && JavaAccepts(draws[r.used - 1], n) && r.value == draws[r.used - 1] % n
      && forall i :: 0 <= i < r.used - 1 ==> !JavaAccepts(draws[i], n)
    ensures !IsPowerOfTwo(n) && r.Exhausted? ==> forall i :: 0 <= i < |draws| ==> !JavaAccepts(draws[i], n)
  {
    hide IsPowerOfTwo, JavaAccepts, Negative;
    if draws == [] {
      return Exhausted;
    }
    if IsPowerOfTwo(n) {
      HalfHigh(draws[0], n);
      return Drawn(draws[0] * n / TWO31, 1);
    }
    var used := 1;
    var bits := draws[0];
    var val := bits % n;
    JavaTest(bits, n);
    while Negative(bits, val, n)
      invariant 1 <= used <= |draws| && bits == draws[used - 1] && val == bits % n
      invariant Negative(bits, val, n) == !JavaAccepts(bits, n)
      invariant forall i :: 0 <= i < used - 1 ==> !JavaAccepts(draws[i], n)
      decreases |draws| - used
    {
      if used == |draws| {
        return Exhausted;
      }
      bits := draws[used];
      val := bits % n;
      JavaTest(bits, n);
      used := used + 1;
    }
    r := Drawn(val, used);
  }

  lemma HalfHigh(b: nat, n: nat)
    ensures b * n / TWO31 >= 0
  {
    assert b * n >= 0;
  }

  ghost function JavaGiving(n: nat, k: nat): set<int>
    requires 0 < n < TWO31
  {
    set b: int | 0 <= b < TWO31 && JavaAccepts(b, n) && b % n == k
  }

  /** The first `q` numbers that leave the remainder `k`. */
  ghost function Residues(n: nat, k: nat, q: nat): set<int> {
    if q == 0 then {} else Residues(n, k, q - 1) + {(q - 1) * n + k}
  }

  lemma ResidueAt(n: nat, k: nat, q: nat, b: int)
    requires k < n
    ensures b == q * n + k <==> b % n == k && b / n == q
  {
    if b == q * n + k {
      DivModUnique(b, q, k, n);
    }
  }

  lemma {:induction false} ResiduesMean(n: nat, k: nat, q: nat, b: int)
    requires k < n
    ensures b in Residues(n, k, q) <==> 0 <= b && b % n == k && b / n < q
  {
    if q > 0 {
      ResiduesMean(n, k, q - 1, b);
      ResidueAt(n, k, q - 1, b);
    }
  }

  lemma {:induction false} ResiduesSize(n: nat, k: nat, q: nat)
    requires k < n
    ensures |Residues(n, k, q)| == q
  {
    if q > 0 {
      ResiduesSize(n, k, q - 1);
      var c := (q - 1) * n + k;
      DivModUnique(c, q - 1, k, n);
      ResiduesMean(n, k, q - 1, c);
    }
  }

  lemma JavaGivingIs(b: int, n: nat, k: nat)
    requires 0 < n < TWO31 && k < n
    ensures b in JavaGiving(n, k) <==> 0 <= b && b % n == k && b / n < TWO31 / n
  {
    if 0 <= b && b % n == k {
      var q, m := b / n, TWO31 / n;
      assert b == q * n + k;
      assert TWO31 == m * n + TWO31 % n;
      assert (q + 1) * n == q * n + n;
      assert (m - (q + 1)) * n == m * n - (q + 1) * n;
      MulAtLeast(m - (q + 1), n);
    }
  }

  lemma JavaDrawIsUniform(n: nat, k: nat)
    requires 0 < n < TWO31 && k < n
    ensures |JavaGiving(n, k)| == TWO31 / n
  {
    hide JavaGiving;
    ResiduesSize(n, k, TWO31 / n);
    forall b: int ensures b in JavaGiving(n, k) <==> b in Residues(n, k, TWO31 / n) {
      ResiduesMean(n, k, TWO31 / n, b);
      JavaGivingIs(b, n, k);
    }
    assert JavaGiving(n, k) == Residues(n, k, TWO31 / n);
  }

  ghost function PowerGiving(n: nat, k: nat): set<int>
  {
    set b: int | 0 <= b < TWO31 && b * n / TWO31 == k
  }

  /** For a power of two, too, each result is given by equally many draws. */
  lemma {:induction false} JavaPowerIsUniform(n: nat, k: nat)
    requires IsPowerOfTwo(n) && 0 < n < TWO31 && k < n
    ensures |PowerGiving(n, k)| == TWO31 / n
  {
    hide Pow2, IsPowerOfTwo;
    Pow2Values();
    var q := PowerDivides(n, 31);
    DivModUnique(TWO31, q, 0, n);
    forall b: int ensures b in PowerGiving(n, k) <==> b in Interval(k * q, k * q + q) {
      PowerStretch(b, n, k, q);
    }
    assert PowerGiving(n, k) == Interval(k * q, k * q + q);
    IntervalSize(k * q, q);
  }

  lemma PowerStretch(b: int, n: nat, k: nat, q: nat)
    requires n * q == TWO31 && 0 < n && k < n
    ensures 0 <= b < TWO31 && b * n / TWO31 == k <==> k * q <= b < k * q + q
  {
    assert (b - k * q) * n == b * n - k * TWO31;
    MulAtLeast(b - k * q, n);
    assert (b - (k * q + q)) * n == b * n - (k + 1) * TWO31;
    MulAtLeast(b - (k * q + q), n);
    MulAtLeast(n - (k + 1), q);
    assert (n - (k + 1)) * q == TWO31 - (k * q + q);
    assert k * q >= 0;
  }
}
