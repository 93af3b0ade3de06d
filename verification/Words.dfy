/** Exclusive or and right shift of words, on natural numbers. */
module Words {
  import opened ModArith

  /** The exclusive or of the low k bits. */
  function Xor(a: int, b: int, k: nat): nat
    decreases k
  {
    if k == 0 then 0 else (a % 2 + b % 2) % 2 + 2 * Xor(a / 2, b / 2, k - 1)
  }

  lemma {:induction false} XorPrefix(a: int, b: int, n: nat, k: nat)
    requires k <= n
    ensures Xor(a, b, n) % Pow2(k) == Xor(a, b, k)
    decreases k
  {
    if k > 0 {
      XorPrefix(a / 2, b / 2, n - 1, k - 1);
      Doubled(Xor(a / 2, b / 2, n - 1), (a % 2 + b % 2) % 2, Pow2(k - 1));
    }
  }

  lemma Doubled(x: int, bit: int, p: int)
    requires p > 0 && 0 <= bit < 2
    ensures (bit + 2 * x) % (2 * p) == bit + 2 * (x % p)
  {
    var q := x / p;
    assert x == q * p + x % p;
    assert q * (2 * p) == 2 * (q * p);
    DivModUnique(bit + 2 * x, q, bit + 2 * (x % p), 2 * p);
  }

  lemma HalfOfLow(a: int, p: int)
    requires p > 0
    ensures a % (2 * p) / 2 == a / 2 % p && a % (2 * p) % 2 == a % 2
  {
    assert a == a % 2 + 2 * (a / 2);
    Doubled(a / 2, a % 2, p);
  }

  lemma {:induction false} XorOfLow(a: int, b: int, k: nat)
    ensures Xor(a % Pow2(k), b, k) == Xor(a, b, k)
    decreases k
  {
    hide Xor;
    XorStep(a % Pow2(k), b, k);
    XorStep(a, b, k);
    if k > 0 {
      HalfOfLow(a, Pow2(k - 1));
      XorOfLow(a / 2, b / 2, k - 1);
    }
  }

  lemma {:induction false} XorRange(a: int, b: int, k: nat)
    ensures Xor(a, b, k) < Pow2(k)
    decreases k
  {
    if k > 0 { XorRange(a / 2, b / 2, k - 1); }
  }

  lemma {:induction false} XorStep(a: int, b: int, k: nat)
    ensures Xor(a, b, 0) == 0
    ensures k > 0 ==> Xor(a, b, k) == (a % 2 + b % 2) % 2 + 2 * Xor(a / 2, b / 2, k - 1)
  {
  }

  lemma {:induction false} XorHalf(a: int, b: int, k: nat)
    requires k > 0
    ensures Xor(a, b, k) % 2 == (a % 2 + b % 2) % 2 && Xor(a, b, k) / 2 == Xor(a / 2, b / 2, k - 1)
  {
    hide Xor;
    XorStep(a, b, k);
  }

  lemma {:induction false} XorAssociates(a: int, b: int, c: int, k: nat)
    ensures Xor(Xor(a, b, k), c, k) == Xor(a, Xor(b, c, k), k)
    decreases k
  {
    hide Xor;
    XorStep(Xor(a, b, k), c, k);
    XorStep(a, Xor(b, c, k), k);
    if k > 0 {
      XorHalf(a, b, k);
      XorHalf(b, c, k);
      XorAssociates(a / 2, b / 2, c / 2, k - 1);
    }
  }

  /** A word cancels itself, and zero changes nothing. */
  lemma {:induction false} XorCancels(a: nat, k: nat)
    requires a < Pow2(k)
    ensures Xor(a, a, k) == 0 && Xor(a, 0, k) == a
    decreases k
  {
    if k > 0 {
      XorCancels(a / 2, k - 1);
      assert 0 / 2 == 0;
    }
  }

  /** Bits that are not there do not matter. */
  lemma {:induction false} XorWider(a: nat, b: nat, k: nat)
    requires a < Pow2(k) && b < Pow2(k)
    ensures Xor(a, b, k + 1) == Xor(a, b, k)
    decreases k
  {
    if k > 0 { XorWider(a / 2, b / 2, k - 1); }
  }

  /** The right shift by s places, one at a time. */
  function Shift(a: nat, s: nat): nat
    decreases s
  {
    if s == 0 then a else Shift(a / 2, s - 1)
  }

  lemma {:induction false} ShiftOne(a: nat, s: nat)
    ensures Shift(a, s + 1) == Shift(a / 2, s) == Shift(a, s) / 2
    decreases s
  {
    if s > 0 { ShiftOne(a / 2, s - 1); }
  }

  lemma {:induction false} ShiftsAdd(a: nat, s: nat, t: nat)
    ensures Shift(Shift(a, s), t) == Shift(a, s + t)
    decreases t
  {
    hide Shift;
    ShiftNone(Shift(a, s));
    if t > 0 {
      ShiftsAdd(a, s, t - 1);
      ShiftOne(Shift(a, s), t - 1);
      ShiftOne(a, s + t - 1);
    }
  }

  lemma {:induction false} ShiftNone(a: nat)
    ensures Shift(a, 0) == a
  {
  }

  lemma {:induction false} ShiftAway(a: nat, s: nat, k: nat)
    requires a < Pow2(k)
    ensures Shift(a, s) < Pow2(k) && (s >= k ==> Shift(a, s) == 0)
    decreases s
  {
    hide Shift;
    if s == 0 {
      ShiftNone(a);
    } else {
      ShiftOne(a, s - 1);
      if k == 0 {
        ShiftAway(a, s - 1, 0);
      } else {
        ShiftAway(a / 2, s - 1, k - 1);
      }
    }
  }

  /** Shifting distributes over exclusive or. */
  lemma {:induction false} ShiftOfXor(a: nat, b: nat, s: nat, k: nat)
    requires a < Pow2(k) && b < Pow2(k)
    ensures Shift(Xor(a, b, k), s) == Xor(Shift(a, s), Shift(b, s), k)
    decreases s
  {
    hide Shift;
    if s == 0 {
      ShiftNone(Xor(a, b, k));
      ShiftNone(a);
      ShiftNone(b);
    } else {
      ShiftOne(Xor(a, b, k), s - 1);
      ShiftOne(a, s - 1);
      ShiftOne(b, s - 1);
      if k > 0 { XorWider(a / 2, b / 2, k - 1); }
      HalfSmaller(a, k);
      HalfSmaller(b, k);
      ShiftOfXor(a / 2, b / 2, s - 1, k);
    }
  }

  lemma {:induction false} HalfSmaller(a: nat, k: nat)
    requires a < Pow2(k)
    ensures a / 2 < Pow2(k) && (k > 0 ==> a / 2 < Pow2(k - 1))
  {
  }

  /** The exclusive or of a word with itself shifted once, or shifted once and twice. */
  function Shifted(a: nat, s: nat): nat { Xor(a, Shift(a, s), 64) }

  function ShiftedTwice(a: nat, s: nat): nat { Xor(Shifted(a, s), Shift(a, 2 * s), 64) }

  /** A shift by more than a third of the word is undone by two, and the other way round. */
  lemma {:induction false} ShiftsUndone(a: nat, s: nat)
    requires a < Pow2(64) && 3 * s >= 64
    ensures ShiftedTwice(Shifted(a, s), s) == a && Shifted(ShiftedTwice(a, s), s) == a
  {
    hide Xor, Shift, Pow2;
    var a1, a2, b := Shift(a, s), Shift(a, 2 * s), Shifted(a, s);
    ShiftAway(a, s, 64);
    ShiftAway(a, 2 * s, 64);
    ShiftAway(a, 3 * s, 64);
    ShiftsAdd(a, s, s);
    ShiftsAdd(a, s, 2 * s);
    ShiftsAdd(a, 2 * s, s);
    XorCancels(a, 64);
    XorCancels(a1, 64);
    XorCancels(a2, 64);
    XorRange(a, a1, 64);
    XorRange(a1, a2, 64);
    XorCancels(Xor(a1, a2, 64), 64);
    ShiftOfXor(a, a1, s, 64);
    ShiftOfXor(a, a1, 2 * s, 64);
    ShiftOfXor(b, a2, s, 64);
    Chain(a, a1, a2);
  }

  lemma {:induction false} Chain(a: nat, a1: nat, a2: nat)
    requires a < Pow2(64) && a1 < Pow2(64) && a2 < Pow2(64)
    ensures Xor(Xor(Xor(a, a1, 64), Xor(a1, a2, 64), 64), a2, 64) == a
    ensures Xor(Xor(Xor(a, a1, 64), a2, 64), Xor(a1, a2, 64), 64) == a
  {
    hide Xor, Pow2;
    var t := Xor(a1, a2, 64);
    XorRange(a1, a2, 64);
    XorCancels(a, 64);
    XorCancels(a1, 64);
    XorCancels(a2, 64);
    XorCancels(t, 64);
    XorAssociates(a, a1, t, 64);
    XorAssociates(a1, a1, a2, 64);
    XorAssociates(a, a2, a2, 64);
    XorAssociates(a, a1, a2, 64);
    XorAssociates(a, t, t, 64);
    ZeroXor(a2, 64);
  }

  lemma {:induction false} ZeroXor(a: nat, k: nat)
    requires a < Pow2(k)
    ensures Xor(0, a, k) == a
    decreases k
  {
    if k > 0 {
      ZeroXor(a / 2, k - 1);
      assert 0 / 2 == 0;
    }
  }
}
