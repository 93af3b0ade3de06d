/** Jumping ahead in the sequence of the 48-bit Java generator, by repeated squaring of the
    affine step: skipNextN of rng.h in wrapping 64-bit words, and JavaRandomSkip of Random.h. */
module JumpAhead {
  import opened Common
  import opened ModArith

  const MULTIPLIER := 0x5deece66d
  const ADDEND := 0xb
  const TWO48 := 0x1_0000_0000_0000

  function Low(x: int): nat { x % TWO48 }

  /** One step of the generator. */
  function Step(seed: nat): nat { Low(seed * MULTIPLIER + ADDEND) }

  function Iterate(seed: nat, n: nat): nat
  {
    if n == 0 then seed else Step(Iterate(seed, n - 1))
  }

  /** An affine map of seeds. */
  datatype Skip = Skip(m: nat, a: nat) {
    function Apply(seed: nat): nat { Low(seed * m + a) }

    /** This map and then the other. */
    function Then(q: Skip): Skip { Skip(Low(m * q.m), Low(a * q.m + q.a)) }
  }

  const IDENTITY := Skip(1, 0)
  const ONE := Skip(MULTIPLIER, ADDEND)

  /** The n-fold step as one map. */
  function Times(n: nat): Skip
  {
    if n == 0 then IDENTITY else Times(n - 1).Then(ONE)
  }

  lemma LowInner(s: int, x: int, y: int)
    ensures Low(s * Low(x) + Low(y)) == Low(s * x + y)
  {
    var q, p := x / TWO48, y / TWO48;
    assert x == q * TWO48 + Low(x) && y == p * TWO48 + Low(y);
    assert s * x + y == s * Low(x) + Low(y) + (s * q + p) * TWO48;
    ModPeriod(s * Low(x) + Low(y), s * q + p, TWO48);
  }

  lemma LowOuter(x: int, m: int, a: int)
    ensures Low(Low(x) * m + a) == Low(x * m + a)
  {
    LowInner(m, x, a);
    LowInner(m, Low(x), a);
    assert Low(x) * m == m * Low(x) && x * m == m * x && Low(Low(x)) == Low(x);
  }

  /** Combining maps composes their effect on every seed. */
  lemma ThenComposes(p: Skip, q: Skip, seed: nat)
    ensures p.Then(q).Apply(seed) == q.Apply(p.Apply(seed))
  {
    hide Low;
    LowInner(seed, p.m * q.m, p.a * q.m + q.a);
    LowOuter(seed * p.m + p.a, q.m, q.a);
    assert seed * (p.m * q.m) + (p.a * q.m + q.a) == (seed * p.m + p.a) * q.m + q.a;
  }

  lemma LowScaled(x: int, y: int, m: int, a: int)
    ensures Low(x * y) == Low(Low(x) * y) == Low(x * Low(y))
    ensures Low(m * a) == Low(a * m)
  {
    LowOuter(x, y, 0);
    LowInner(x, y, 0);
    assert a * m == m * a;
  }

  lemma AffineAssociates(pm: int, pa: int, qm: int, qa: int, rm: int, ra: int)
    ensures Low(Low(pm * qm) * rm) == Low(pm * Low(qm * rm))
    ensures Low(Low(pa * qm + qa) * rm + ra) == Low(pa * Low(qm * rm) + Low(qa * rm + ra))
  {
    hide Low;
    LowScaled(pm * qm, rm, 0, 0);
    LowScaled(pm, qm * rm, 0, 0);
    assert pm * qm * rm == pm * (qm * rm);
    LowOuter(pa * qm + qa, rm, ra);
    LowInner(pa, qm * rm, qa * rm + ra);
    assert pa * qm * rm == pa * (qm * rm);
    assert (pa * qm + qa) * rm == pa * qm * rm + qa * rm;
  }

  lemma ThenAssociates(p: Skip, q: Skip, r: Skip)
    ensures p.Then(q).Then(r) == p.Then(q.Then(r))
  {
    hide Low;
    AffineAssociates(p.m, p.a, q.m, q.a, r.m, r.a);
  }

  /** The n-fold map does to a seed what n steps do. */
  lemma {:induction false} TimesIterates(n: nat, seed: nat)
    requires seed < TWO48
    ensures Times(n).Apply(seed) == Iterate(seed, n)
  {
    if n > 0 {
      TimesIterates(n - 1, seed);
      ThenComposes(Times(n - 1), ONE, seed);
    }
  }

  predicate Reduced(p: Skip) { p.m < TWO48 && p.a < TWO48 }

  lemma {:induction false} TimesReduced(n: nat)
    ensures Reduced(Times(n))
  {
  }

  lemma ThenIdentity(p: Skip)
    requires Reduced(p)
    ensures p.Then(IDENTITY) == p && IDENTITY.Then(p) == p
  {
  }

  /** Skips add up. */
  lemma {:induction false} TimesSum(a: nat, b: nat)
    ensures Times(a + b) == Times(a).Then(Times(b))
  {
    hide Skip.Then;
    if b == 0 {
      TimesReduced(a);
      ThenIdentity(Times(a));
    } else {
      TimesSum(a, b - 1);
      ThenAssociates(Times(a), Times(b - 1), ONE);
    }
  }

  /** The powers of two of the step without reduction: multiplier and addend of 2^k steps. */
  function Mul(k: nat): int { if k == 0 then MULTIPLIER else Mul(k - 1) * Mul(k - 1) }

  function Add(k: nat): int { if k == 0 then ADDEND else Add(k - 1) * Mul(k - 1) + Add(k - 1) }

  lemma {:induction false} PowerOfTwo(k: nat)
    ensures Times(Pow2(k)) == Skip(Low(Mul(k)), Low(Add(k)))
  {
    if k == 0 {
      assert Times(1) == Times(0).Then(ONE);
    } else {
      PowerOfTwo(k - 1);
      var m, a := Mul(k - 1), Add(k - 1);
      TimesSum(Pow2(k - 1), Pow2(k - 1));
      LowScaled(m, m, 0, 0);
      LowScaled(Low(m), m, 0, 0);
      DoubleAdd(m, a);
    }
  }

  lemma DoubleAdd(m: int, a: int)
    ensures Low(Low(a) * Low(m) + Low(a)) == Low(a * m + a)
  {
    hide Low;
    LowInner(Low(a), m, a);
    LowOuter(a, m, a);
  }

  /** After 2^k steps the multiplier is 1 modulo 2^(k+2) and the addend is an odd multiple of 2^k. */
  lemma {:induction false} Residues(k: nat) returns (c: int, d: int)
    ensures Mul(k) == 1 + 4 * Pow2(k) * c && Add(k) == Pow2(k) * d && d % 2 == 1
  {
    if k == 0 {
      c, d := MULTIPLIER / 4, ADDEND;
    } else {
      c, d := Residues(k - 1);
      c, d := ResidueStep(Mul(k - 1), Add(k - 1), Pow2(k - 1), c, d);
    }
  }

  lemma ResidueStep(m: int, a: int, p: int, c: int, d: int) returns (c': int, d': int)
    requires m == 1 + 4 * p * c && a == p * d && d % 2 == 1
    ensures m * m == 1 + 4 * (2 * p) * c' && a * m + a == 2 * p * d' && d' % 2 == 1
  {
    var t := p * c;
    c' := c + 2 * (t * c);
    d' := d + 2 * (t * d);
    SquareStep(m, p, c, t, c');
    SumStep(m, a, p, d, t, d');
  }

  lemma SquareStep(m: int, p: int, c: int, t: int, c': int)
    requires t == p * c && m == 1 + 4 * t && c' == c + 2 * (t * c)
    ensures m * m == 1 + 4 * (2 * p) * c'
  {
    assert m * m == 1 + 8 * t + 16 * (t * t);
    assert p * (t * c) == t * (p * c);
    assert p * c' == t + 2 * (t * t);
  }

  lemma SumStep(m: int, a: int, p: int, d: int, t: int, d': int)
    requires m == 1 + 4 * t && a == p * d && d' == d + 2 * (t * d)
    ensures a * m + a == 2 * p * d'
  {
    assert a * m == a + 4 * (a * t);
    assert a * t == p * (d * t);
    assert p * d' == p * d + 2 * (p * (d * t));
  }

  lemma {:induction false} FullCircle()
    ensures Times(TWO48) == IDENTITY
  {
    hide Times, Mul, Add, Pow2;
    Pow2Values();
    var c, d := Residues(48);
    PowerOfTwo(48);
    ModPeriod(1, 4 * c, TWO48);
    ModPeriod(0, d, TWO48);
  }

  lemma {:induction false} HalfCircle()
    ensures Times(TWO48 / 2) == Skip(1, TWO48 / 2)
  {
    hide Times, Mul, Add, Pow2;
    Pow2Values();
    var c, d := Residues(47);
    PowerOfTwo(47);
    ModPeriod(1, 2 * c, TWO48);
    assert d == 2 * (d / 2) + 1;
    ModPeriod(TWO48 / 2, d / 2, TWO48);
  }

  /** 2^48 steps lead every seed back to itself, and half as many lead none back. */
  lemma {:induction false} OrderIsTwo48(seed: nat)
    requires seed < TWO48
    ensures Iterate(seed, TWO48) == seed && Iterate(seed, TWO48 / 2) != seed
  {
    hide Times, Iterate;
    FullCircle();
    TimesIterates(TWO48, seed);
    HalfCircle();
    TimesIterates(TWO48 / 2, seed);
    ModApart(seed, TWO48 / 2, TWO48);
  }

  lemma {:induction false} FullTurn(n: nat, turn: nat)
    requires Times(turn) == IDENTITY
    ensures Times(n + turn) == Times(n)
  {
    hide Times;
    TimesSum(n, turn);
    TimesReduced(n);
    ThenIdentity(Times(n));
  }

  /** Only the number of steps modulo 2^48 matters. */
  lemma {:induction false} TimesPeriodic(n: nat)
    ensures Times(n) == Times(n % TWO48)
  {
    hide Times;
    if n >= TWO48 {
      TimesPeriodic(n - TWO48);
      FullCircle();
      FullTurn(n - TWO48, TWO48);
    }
  }

  /** The number of steps a signed 64-bit count stands for. */
  function Steps(n: int): nat { Low(n) }

  /** Skips by signed counts add up, and skipping back undoes skipping ahead. */
  lemma {:induction false} SkipsAdd(a: int, b: int, seed: nat)
    requires seed < TWO48
    ensures Times(Steps(a + b)) == Times(Steps(a)).Then(Times(Steps(b)))
    ensures Times(Steps(-a)).Apply(Times(Steps(a)).Apply(seed)) == seed
  {
    hide Times;
    StepsSum(a, b);
    StepsSum(a, -a);
    ThenComposes(Times(Steps(a)), Times(Steps(-a)), seed);
    TimesIterates(0, seed);
  }

  lemma {:induction false} StepsSum(a: int, b: int)
    ensures Times(Steps(a + b)) == Times(Steps(a)).Then(Times(Steps(b)))
  {
    hide Times;
    TimesSum(Steps(a), Steps(b));
    TimesPeriodic(Steps(a) + Steps(b));
    ModShift(a, Steps(b), TWO48);
    ModShift(b, a, TWO48);
  }

  /** The map as an object, updated in place; an object may be combined with itself. */
  class JavaRandomSkip {
    var multiplier: nat
    var addend: nat

    constructor (m: nat, a: nat)
      ensures Value() == Skip(m, a)
    {
      multiplier, addend := m, a;
    }

    function Value(): Skip
      reads this
    {
      Skip(multiplier, addend)
    }

    method Combine(other: JavaRandomSkip)
      modifies this
      ensures Value() == old(Value()).Then(old(other.Value()))
    {
      var combinedMultiplier := Low(multiplier * other.multiplier);
      var combinedAddend := Low(addend * other.multiplier + other.addend);
      multiplier := combinedMultiplier;
      addend := combinedAddend;
    }
  }

  predicate Bit(n: nat, i: nat) { n / Pow2(i) % 2 == 1 }

  function LowBits(n: nat, i: nat): nat { n % Pow2(i) }

  /** The map of n steps, for any signed count. */
  method Make(n: int) returns (skip: JavaRandomSkip)
    ensures fresh(skip) && skip.Value() == Times(Steps(n))
  {
    hide Times, Skip.Then, Bit, LowBits, Pow2;
    var nMod := Low(n);
    skip := new JavaRandomSkip(1, 0);
    var skipPow := new JavaRandomSkip(MULTIPLIER, ADDEND);
    TimesStart();
    AllBits(nMod);
    var i := 0;
    while i < 48
      invariant 0 <= i <= 48 && skip != skipPow && fresh(skip) && fresh(skipPow)
      invariant skip.Value() == Times(LowBits(nMod, i)) && skipPow.Value() == Times(Pow2(i))
    {
      NextBit(nMod, i);
      if Bit(nMod, i) {
        TimesSum(LowBits(nMod, i), Pow2(i));
        skip.Combine(skipPow);
      }
      TimesSum(Pow2(i), Pow2(i));
      skipPow.Combine(skipPow);
      i := i + 1;
    }
  }

  lemma {:induction false} TimesStart()
    ensures Times(0) == IDENTITY && Times(1) == ONE
  {
    assert Times(1) == Times(0).Then(ONE);
  }

  lemma {:induction false} AllBits(n: nat)
    ensures Pow2(0) == 1 && LowBits(n, 0) == 0 && (n < TWO48 ==> LowBits(n, 48) == n)
  {
    Pow2Values();
  }

  lemma BitOf(n: nat, p: nat)
    requires p > 0
    ensures n % (2 * p) == n % p + (if n / p % 2 == 1 then p else 0)
  {
    var q, r := n / p, n % p;
    assert n == q * p + r && q == 2 * (q / 2) + q % 2;
    assert q * p == (q / 2) * (2 * p) + (q % 2) * p;
    DivModUnique(n, q / 2, (q % 2) * p + r, 2 * p);
  }

  lemma {:induction false} NextBit(n: nat, i: nat)
    ensures LowBits(n, i + 1) == LowBits(n, i) + (if Bit(n, i) then Pow2(i) else 0)
    ensures Pow2(i + 1) == Pow2(i) + Pow2(i)
  {
    BitOf(n, Pow2(i));
  }

  /** Skips n steps in place with wrapping 64-bit words. */
  method SkipNextN(seed: nat, n: nat) returns (r: nat)
    requires seed < TWO48 && n < TWO64
    ensures r == Iterate(seed, n)
  {
    hide Times, Iterate, Low, Skip.Then, Skip.Apply;
    var m: nat, a: nat, im: nat, ia: nat := 1, 0, MULTIPLIER, ADDEND;
    var k: nat := n;
    ghost var done: nat, p: nat := 0, 1;
    WordsStart();
    while k > 0
      invariant done + p * k == n
      invariant Word(m, a) == Times(done) && Word(im, ia) == Times(p)
    {
      Halve(p, k);
      if k % 2 == 1 {
        WordsCombine(m, a, im, ia);
        TimesSum(done, p);
        m := m * im % TWO64;
        a := (im * a + ia) % TWO64;
        done := done + p;
      }
      WordsCombine(im, ia, im, ia);
      TimesSum(p, p);
      ia := (im + 1) * ia % TWO64;
      im := im * im % TWO64;
      p := 2 * p;
      k := k / 2;
    }
    TimesIterates(n, seed);
    WordsApply(seed, m, a);
    r := (seed * m + a) % TWO64;
    r := Low(r);
  }

  lemma Halve(p: nat, k: nat)
    ensures p * k == 2 * p * (k / 2) + (if k % 2 == 1 then p else 0)
  {
    var h := k / 2;
    assert k == 2 * h + k % 2;
    assert p * k == p * (2 * h) + p * (k % 2);
  }

  /** The map that two words stand for: their low 48 bits. */
  function Word(m: nat, a: nat): Skip { Skip(Low(m), Low(a)) }

  lemma {:induction false} WordsStart()
    ensures Word(1, 0) == Times(0) && Word(MULTIPLIER, ADDEND) == Times(1)
  {
    TimesStart();
  }

  lemma WordsApply(seed: nat, m: nat, a: nat)
    ensures Low((seed * m + a) % TWO64) == Word(m, a).Apply(seed)
  {
    LowInner(seed, m, a);
    ModMod(seed * m + a, TWO48, TWO64 / TWO48);
  }

  /** Wrapping at 64 bits keeps the low 48 bits right. */
  lemma WordsCombine(m: nat, a: nat, im: nat, ia: nat)
    ensures Word(m, a).Then(Word(im, ia)) == Word(m * im % TWO64, (im * a + ia) % TWO64)
    ensures (im + 1) * ia == im * ia + ia
  {
    ModMod(m * im, TWO48, TWO64 / TWO48);
    ModMod(im * a + ia, TWO48, TWO64 / TWO48);
    WordsCombineLow(m, a, im, ia);
  }

  lemma WordsCombineLow(m: nat, a: nat, im: nat, ia: nat)
    ensures Low(Low(m) * Low(im)) == Low(m * im)
    ensures Low(Low(a) * Low(im) + Low(ia)) == Low(im * a + ia)
  {
    hide Low;
    LowScaled(m, im, 0, 0);
    LowScaled(Low(m), im, 0, 0);
    LowInner(Low(a), im, ia);
    LowOuter(a, im, ia);
    assert im * a == a * im;
  }
}
