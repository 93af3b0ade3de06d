/** The 64-bit mixer of the Xoroshiro generator and its inverse (Random.h). */
module Mixer {
  import opened Common
  import opened ModArith
  import opened Words

  const MIX1 := 0xbf58476d1ce4e5b9
  const MIX2 := 0x94d049bb133111eb
  const MIX1_INVERSE := 0x96de1b173f119089
  const MIX2_INVERSE := 0x319642b2d24d8ec3

  /** The wrapping product. */
  function Times(a: nat, m: nat): nat { a * m % TWO64 }

  function Mix64(a0: nat): nat {
    var a := Times(Shifted(a0, 30), MIX1);
    var b := Times(Shifted(a, 27), MIX2);
    Shifted(b, 31)
  }

  function Fix64(a0: nat): nat {
    var a := Times(ShiftedTwice(a0, 31), MIX2_INVERSE);
    var b := Times(ShiftedTwice(a, 27), MIX1_INVERSE);
    ShiftedTwice(b, 30)
  }

  lemma InverseCancels(a: nat, m: nat, n: nat, q: nat)
    requires 0 <= a < q && m * n % q == 1
    ensures (a * m % q) * n % q == a
  {
    var u := m * n;
    ModMul(a * m, n, q);
    ModMul(u, a, q);
    assert a * m * n == u * a;
    DivModUnique(a, 0, a, q);
  }

  lemma ProductUndone(a: nat, m: nat, n: nat)
    requires a < TWO64 && m * n % TWO64 == 1
    ensures Times(Times(a, m), n) == a
  {
    InverseCancels(a, m, n, TWO64);
  }

  lemma ProductsUndone(a: nat)
    requires a < TWO64
    ensures Times(Times(a, MIX1), MIX1_INVERSE) == a && Times(Times(a, MIX1_INVERSE), MIX1) == a
    ensures Times(Times(a, MIX2), MIX2_INVERSE) == a && Times(Times(a, MIX2_INVERSE), MIX2) == a
  {
    hide Times;
    ProductUndone(a, MIX1, MIX1_INVERSE);
    ProductUndone(a, MIX1_INVERSE, MIX1);
    ProductUndone(a, MIX2, MIX2_INVERSE);
    ProductUndone(a, MIX2_INVERSE, MIX2);
  }

  lemma {:induction false} ShiftsInWord(a: nat, s: nat)
    requires a < TWO64 && 3 * s >= 64
    ensures ShiftedTwice(Shifted(a, s), s) == a && Shifted(ShiftedTwice(a, s), s) == a
    ensures Shifted(a, s) < TWO64 && ShiftedTwice(a, s) < TWO64
  {
    hide Pow2, Xor;
    Pow2Values();
    ShiftsUndone(a, s);
    XorRange(a, Shift(a, s), 64);
    XorRange(Shifted(a, s), Shift(a, 2 * s), 64);
  }

  /** The two are inverse to each other on every word. */
  lemma {:induction false} MixFixInverse(a: nat)
    requires a < TWO64
    ensures Fix64(Mix64(a)) == a && Mix64(Fix64(a)) == a
  {
    FixAfterMix(a);
    MixAfterFix(a);
  }

  lemma {:induction false} FixAfterMix(a: nat)
    requires a < TWO64
    ensures Fix64(Mix64(a)) == a
  {
    hide Shifted, ShiftedTwice;
    ShiftsInWord(a, 30);
    var x := Shifted(a, 30);
    ProductsUndone(x);
    ShiftsInWord(Times(x, MIX1), 27);
    var y := Shifted(Times(x, MIX1), 27);
    ProductsUndone(y);
    ShiftsInWord(Times(y, MIX2), 31);
  }

  lemma {:induction false} MixAfterFix(a: nat)
    requires a < TWO64
    ensures Mix64(Fix64(a)) == a
  {
    hide Shifted, ShiftedTwice;
    ShiftsInWord(a, 31);
    var x := ShiftedTwice(a, 31);
    ProductsUndone(x);
    ShiftsInWord(Times(x, MIX2_INVERSE), 27);
    var y := ShiftedTwice(Times(x, MIX2_INVERSE), 27);
    ProductsUndone(y);
    ShiftsInWord(Times(y, MIX1_INVERSE), 30);
  }
}
