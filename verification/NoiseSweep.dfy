/** The diagonal sweep of the beta biome generator with its ring buffer of column noise
    (biomenoise.c). Column noise is any function of the column. */
module NoiseSweep {
  import opened ModArith
  import opened Rows

  /** The slot of corner (p, q), relative to the first cell, in a ring of 2 * m + 1. */
  function Slot(m: nat, p: int, q: int): (r: nat)
    ensures r < 2 * m + 1
  {
    ((p + q) * m + p) % (2 * m + 1)
  }

  /** The slots of the other three corners of a cell, and of the next cell of the stripe. */
  lemma SlotSteps(m: nat, a: int, b: int)
    ensures var n, s := 2 * m + 1, Slot(m, a, b);
      && Slot(m, a + 1, b) == (s + m + 1) % n
      && Slot(m, a, b + 1) == (s + m) % n
      && Slot(m, a + 1, b + 1) == s
      && Slot(m, a + 1, b - 1) == (s + 1) % n
  {
    var n, x := 2 * m + 1, (a + b) * m + a;
    assert (a + 1 + b) * m + (a + 1) == x + (m + 1);
    assert (a + (b + 1)) * m + a == x + m;
    assert (a + 1 + (b + 1)) * m + (a + 1) == x + 1 * n;
    assert (a + 1 + (b - 1)) * m + (a + 1) == x + 1;
    ModShift(x, m + 1, n);
    ModShift(x, m, n);
    ModPeriod(x, 1, n);
    ModShift(x, 1, n);
  }

  /** Corners of the same or of neighbouring diagonals share no slot when they are close. */
  lemma SlotsApart(m: nat, t: int, p: int, t': int, p': int)
    requires t' == t || t' == t + 1
    requires 0 < (if t' == t then p' - p else m + p' - p) <= 2 * m
    ensures Slot(m, p, t - p) != Slot(m, p', t' - p')
  {
    var d := if t' == t then p' - p else m + p' - p;
    assert t' * m == t * m + (if t' == t then 0 else m);
    assert (p + (t - p)) * m + p == t * m + p;
    assert (p' + (t' - p')) * m + p' == (t * m + p) + d;
    ModApart(t * m + p, d, 2 * m + 1);
  }

  type Noise = (int, int) -> int

  /** One visited cell with the column noise of its four corners. */
  datatype Visit = Visit(cx: int, cz: int, c00: int, c10: int, c01: int, c11: int)

  function RightVisit(noise: Noise, cx: int, cz: int): Visit {
    Visit(cx, cz, noise(cx, cz), noise(cx + 1, cz), noise(cx, cz + 1), noise(cx + 1, cz + 1))
  }

  /** A rectangle of cells: its corner and its two sides. */
  datatype Rect = Rect(x: int, z: int, w: nat, h: nat) {
    /** The shorter side. */
    function Min(): nat { if w > h then h else w }
    function Max(): nat { if w > h then w else h }

    /** First and last column, relative to `x`, on diagonal `s`. */
    function First(s: nat): nat { if s < h then 0 else s - h + 1 }
    function Last(s: nat): int { if s < w then s else w - 1 }
  }

  /** The corner in column `p` of diagonal `t` is in its slot. */
  ghost predicate Holds(b: seq<int>, noise: Noise, r: Rect, t: nat, p: int) {
    var k := Slot(r.Min(), p, t - p);
    k < |b| && b[k] == noise(r.x + p, r.z + t - p)
  }

  ghost predicate HoldsFrom(b: seq<int>, noise: Noise, r: Rect, t: nat, lo: int, hi: int) {
    forall p :: lo <= p <= hi ==> Holds(b, noise, r, t, p)
  }

  /** The corners of diagonal `s + 1` that exist when column `a` is about to be visited on
      stripe `s`. Corners on the border of the rectangle are made when the cell next to them
      is visited, the others one stripe earlier. */
  function NextLo(r: Rect, s: nat, a: int): int { if a == 0 then 1 else r.First(s) }

  function NextHi(r: Rect, s: nat, a: int): int { if r.Last(s) == s && a <= s then s else r.Last(s) + 1 }

  /** What the ring holds on stripe `s` when the cell in column `a` is about to be visited:
      the rest of this diagonal, the next one as far as it exists, and the one after that
      as far as it has been made. */
  ghost predicate Ring(b: seq<int>, noise: Noise, r: Rect, s: nat, a: int) {
    && |b| == 2 * r.Min() + 1
    && (s > 0 ==> HoldsFrom(b, noise, r, s, a, r.Last(s)))
    && HoldsFrom(b, noise, r, s + 1, NextLo(r, s, a), NextHi(r, s, a))
    && HoldsFrom(b, noise, r, s + 2, r.First(s) + 1, a)
  }

  predicate Live(r: Rect, s: nat, t: nat, p: int) {
    (t == s && r.First(s) <= p <= r.Last(s)) || (t == s + 1 && r.First(s) <= p <= r.Last(s) + 1)
  }

  /** All corners in use on a stripe have different slots: 2 * Min + 1 slots are enough. */
  lemma LiveApart(r: Rect, s: nat, t: nat, p: int, t': nat, p': int)
    requires Live(r, s, t, p) && Live(r, s, t', p') && (t != t' || p != p')
    ensures Slot(r.Min(), p, t - p) != Slot(r.Min(), p', t' - p')
  {
    if t < t' || (t == t' && p < p') {
      SlotsApart(r.Min(), t, p, t', p');
    } else {
      SlotsApart(r.Min(), t', p', t, p);
    }
  }

  /** A visit of column `a` writes only the slot of its corner, and of new border corners. */
  predicate Written(r: Rect, s: nat, a: int, k: int) {
    k == Slot(r.Min(), a, s - a) || (a == s && k == Slot(r.Min(), a + 1, s - a))
    || (a == 0 && k == Slot(r.Min(), a, s + 1 - a))
  }

  ghost predicate VisitWrites(b: seq<int>, c: seq<int>, r: Rect, s: nat, a: int) {
    |b| == |c| && forall k {:trigger c[k]} :: 0 <= k < |b| && !Written(r, s, a, k) ==> c[k] == b[k]
  }

  /** A live corner other than those a visit writes stays in its slot. */
  lemma Untouched(b: seq<int>, c: seq<int>, noise: Noise, r: Rect, s: nat, a: int, t: nat, p: int)
    requires r.First(s) <= a <= r.Last(s) && Live(r, s, t, p) && !(t == s && p == a)
    requires !(a == s && t == s + 1 && p == a + 1) && !(a == 0 && t == s + 1 && p == a)
    requires VisitWrites(b, c, r, s, a) && Slot(r.Min(), p, t - p) < |b|
    ensures c[Slot(r.Min(), p, t - p)] == b[Slot(r.Min(), p, t - p)]
  {
    LiveApart(r, s, t, p, s, a);
    if a == s { LiveApart(r, s, t, p, s + 1, a + 1); }
    if a == 0 { LiveApart(r, s, t, p, s + 1, a); }
  }

  lemma KeepsThis(b: seq<int>, c: seq<int>, noise: Noise, r: Rect, s: nat, a: int)
    requires r.First(s) <= a <= r.Last(s) && VisitWrites(b, c, r, s, a)
    requires HoldsFrom(b, noise, r, s, a, r.Last(s))
    ensures HoldsFrom(c, noise, r, s, a + 1, r.Last(s))
  {
    forall p | a + 1 <= p <= r.Last(s) ensures Holds(c, noise, r, s, p) {
      assert Holds(b, noise, r, s, p);
      Untouched(b, c, noise, r, s, a, s, p);
    }
  }

  lemma KeepsNext(b: seq<int>, c: seq<int>, noise: Noise, r: Rect, s: nat, a: int, t: nat)
    requires r.First(s) <= a <= r.Last(s) && VisitWrites(b, c, r, s, a) && t == s + 1
    requires HoldsFrom(b, noise, r, t, NextLo(r, s, a), NextHi(r, s, a))
    requires a == s ==> Holds(c, noise, r, t, a + 1)
    requires a == 0 ==> Holds(c, noise, r, t, a)
    ensures HoldsFrom(c, noise, r, t, NextLo(r, s, a + 1), NextHi(r, s, a + 1))
  {
    forall p | NextLo(r, s, a + 1) <= p <= NextHi(r, s, a + 1) ensures Holds(c, noise, r, t, p) {
      if !(a == s && p == a + 1) && !(a == 0 && p == a) {
        assert Holds(b, noise, r, t, p);
        Untouched(b, c, noise, r, s, a, t, p);
      }
    }
  }

  lemma KeepsNew(b: seq<int>, c: seq<int>, noise: Noise, r: Rect, s: nat, a: int, t: nat)
    requires r.First(s) <= a <= r.Last(s) && VisitWrites(b, c, r, s, a) && t == s + 2
    requires HoldsFrom(b, noise, r, t, r.First(s) + 1, a)
    requires Holds(c, noise, r, t, a + 1)
    ensures HoldsFrom(c, noise, r, t, r.First(s) + 1, a + 1)
  {
    forall p | r.First(s) + 1 <= p <= a + 1 ensures Holds(c, noise, r, t, p) {
      if p <= a {
        assert Holds(b, noise, r, t, p);
        SlotSteps(r.Min(), p - 1, s - (p - 1));
        Untouched(b, c, noise, r, s, a, s, p - 1);
      }
    }
  }

  /** The ring after a visit: the old corner's slot now holds the opposite corner, and border
      corners have been added. */
  lemma VisitKeeps(b: seq<int>, c: seq<int>, noise: Noise, r: Rect, s: nat, a: int)
    requires Ring(b, noise, r, s, a) && r.First(s) <= a <= r.Last(s) && VisitWrites(b, c, r, s, a)
    requires Holds(c, noise, r, s + 2, a + 1)
    requires a == s ==> Holds(c, noise, r, s + 1, a + 1)
    requires a == 0 ==> Holds(c, noise, r, s + 1, a)
    ensures Ring(c, noise, r, s, a + 1)
  {
    if s > 0 { KeepsThis(b, c, noise, r, s, a); }
    KeepsNext(b, c, noise, r, s, a, s + 1);
    KeepsNew(b, c, noise, r, s, a, s + 2);
  }

  /** The corners of the next cell that are not made on the spot are there. */
  lemma RingGives(b: seq<int>, noise: Noise, r: Rect, s: nat, a: int)
    requires Ring(b, noise, r, s, a) && r.First(s) <= a <= r.Last(s)
    ensures |b| == 2 * r.Min() + 1
    ensures s > 0 ==> Holds(b, noise, r, s, a)
    ensures a < s ==> Holds(b, noise, r, s + 1, a + 1)
    ensures a > 0 ==> Holds(b, noise, r, s + 1, a)
  {
  }

  /** The three slots of a cell are different, and its fourth corner shares the first. */
  lemma CellSlots(r: Rect, s: nat, a: int)
    requires r.First(s) <= a <= r.Last(s)
    ensures 0 <= a <= s
    ensures var m, n := r.Min(), 2 * r.Min() + 1;
      var near, right, left := Slot(m, a, s - a), Slot(m, a + 1, s - a), Slot(m, a, s + 1 - a);
      && near != right && near != left && right != left
      && right == (near + m + 1) % n && left == (near + m) % n && Slot(m, a + 1, s + 1 - a) == near
  {
    hide Slot;
    SlotSteps(r.Min(), a, s - a);
    LiveApart(r, s, s, a, s + 1, a);
    LiveApart(r, s, s, a, s + 1, a + 1);
    LiveApart(r, s, s + 1, a, s + 1, a + 1);
  }

  /** One cell: fetch or compute its corners, and put the far corner where the near one was. */
  method VisitCell(noise: Noise, buf: array<int>, r: Rect, stripe: nat, idx: nat, cx: int, cz: int)
    returns (v: Visit)
    requires (cx - r.x) + (cz - r.z) == stripe && r.First(stripe) <= cx - r.x <= r.Last(stripe)
    requires Ring(buf[..], noise, r, stripe, cx - r.x) && idx == Slot(r.Min(), cx - r.x, cz - r.z)
    modifies buf
    ensures v == RightVisit(noise, cx, cz)
    ensures Ring(buf[..], noise, r, stripe, cx - r.x + 1)
  {
    hide Slot, HoldsFrom, Ring, Rect.First, Rect.Last, Rect.Min;
    ghost var b, a := buf[..], cx - r.x;
    RingGives(b, noise, r, stripe, a);
    var minDim, bufLen := r.Min(), buf.Length;
    CellSlots(r, stripe, a);

    if stripe == 0 { buf[idx] := noise(cx, cz); }
    var c00 := buf[idx];
    var k := (idx + minDim + 1) % bufLen;
    if cz == r.z { buf[k] := noise(cx + 1, cz); }
    var c10 := buf[k];
    k := (idx + minDim) % bufLen;
    if cx == r.x { buf[k] := noise(cx, cz + 1); }
    var c01 := buf[k];
    buf[idx] := noise(cx + 1, cz + 1);
    v := Visit(cx, cz, c00, c10, c01, buf[idx]);
    VisitKeeps(b, buf[..], noise, r, stripe, a);
  }

  predicate InRect(r: Rect, cx: int, cz: int) {
    r.x <= cx < r.x + r.w && r.z <= cz < r.z + r.h
  }

  /** Cell (cx, cz) comes before column `a` of stripe `s`. */
  predicate Earlier(r: Rect, cx: int, cz: int, s: nat, a: int) {
    var t := (cx - r.x) + (cz - r.z);
    t < s || (t == s && cx - r.x < a)
  }

  ghost predicate Visited(v: seq<Visit>, cx: int, cz: int) {
    exists k :: 0 <= k < |v| && v[k].cx == cx && v[k].cz == cz
  }

  /** The visits so far: right, inside, each cell at most once, and none left out. */
  ghost predicate Swept(v: seq<Visit>, noise: Noise, r: Rect, s: nat, a: int) {
    && (forall k :: 0 <= k < |v| ==>
          v[k] == RightVisit(noise, v[k].cx, v[k].cz)
          && InRect(r, v[k].cx, v[k].cz) && Earlier(r, v[k].cx, v[k].cz, s, a))
    && (forall i, j :: 0 <= i < j < |v| ==> v[i].cx != v[j].cx || v[i].cz != v[j].cz)
    && (forall cx, cz :: InRect(r, cx, cz) && Earlier(r, cx, cz, s, a) ==> Visited(v, cx, cz))
  }

  lemma SweptStep(v: seq<Visit>, noise: Noise, r: Rect, s: nat, a: int)
    requires Swept(v, noise, r, s, a) && r.First(s) <= a <= r.Last(s)
    ensures Swept(v + [RightVisit(noise, r.x + a, r.z + s - a)], noise, r, s, a + 1)
  {
    var u := v + [RightVisit(noise, r.x + a, r.z + s - a)];
    forall cx, cz | InRect(r, cx, cz) && Earlier(r, cx, cz, s, a + 1) ensures Visited(u, cx, cz) {
      if Earlier(r, cx, cz, s, a) {
        assert Visited(v, cx, cz);
        var k :| 0 <= k < |v| && v[k].cx == cx && v[k].cz == cz;
        assert u[k] == v[k];
      } else {
        assert u[|v|].cx == cx && u[|v|].cz == cz;
      }
    }
  }

  /** Past the last cell of a stripe is before the first cell of the next. */
  lemma SweptTurn(v: seq<Visit>, noise: Noise, r: Rect, s: nat)
    requires Swept(v, noise, r, s, r.Last(s) + 1)
    ensures Swept(v, noise, r, s + 1, r.First(s + 1))
  {
    forall cx, cz | InRect(r, cx, cz) && Earlier(r, cx, cz, s + 1, r.First(s + 1))
      ensures Visited(v, cx, cz)
    {
      assert Earlier(r, cx, cz, s, r.Last(s) + 1);
    }
  }

  /** A finished stripe leaves exactly what the next one needs. */
  lemma RingTurns(b: seq<int>, noise: Noise, r: Rect, s: nat)
    requires r.w > 0 && r.h > 0 && s < r.w + r.h - 1
    requires Ring(b, noise, r, s, r.Last(s) + 1)
    ensures Ring(b, noise, r, s + 1, r.First(s + 1))
  {
  }

  /** The index updates at the end of a stripe. */
  function Turn(r: Rect, s: nat, idx: nat): (k: nat)
    requires r.w > 0 && r.h > 0 && s < r.w + r.h - 1
  {
    var n := 2 * r.Min() + 1;
    if s + 1 < r.Min() then (idx + r.Min() - s - 1) % n
    else if s + 1 > r.Max() then (idx + s - r.Max() + 2) % n
    else if r.First(s + 1) > 0 then (idx + 1) % n
    else idx
  }

  lemma SlotMoves(m: nat, p: int, s: int, p': int)
    requires m + p' - p >= 0
    ensures Slot(m, p', s + 1 - p') == (Slot(m, p, s - p) + (m + p' - p)) % (2 * m + 1)
  {
    assert (s + 1) * m + p' == s * m + p + (m + p' - p);
    ModShift(s * m + p, m + p' - p, 2 * m + 1);
  }

  lemma TurnMoves(r: Rect, s: nat, k: nat)
    requires r.w > 0 && r.h > 0 && s < r.w + r.h - 1 && k < 2 * r.Min() + 1
    ensures var d := r.Min() + r.First(s + 1) - r.Last(s) - 1; d >= 0 && Turn(r, s, k) == (k + d) % (2 * r.Min() + 1)
  {
    var n, d := 2 * r.Min() + 1, r.Min() + r.First(s + 1) - r.Last(s) - 1;
    if s + 1 < r.Min() {
      assert d == r.Min() - s - 1;
    } else if s + 1 > r.Max() {
      assert d == s - r.Max() + 2;
    } else if r.First(s + 1) > 0 {
      assert d == 1;
    } else {
      assert d == 0;
      DivModUnique(k, 0, k, n);
    }
  }

  lemma TurnFinds(r: Rect, s: nat)
    requires r.w > 0 && r.h > 0 && s < r.w + r.h - 1
    ensures Turn(r, s, Slot(r.Min(), r.Last(s) + 1, s - r.Last(s) - 1))
         == Slot(r.Min(), r.First(s + 1), s + 1 - r.First(s + 1))
  {
    hide Slot, Turn, Rect.Min, Rect.First, Rect.Last;
    TurnMoves(r, s, Slot(r.Min(), r.Last(s) + 1, s - r.Last(s) - 1));
    SlotMoves(r.Min(), r.Last(s) + 1, s, r.First(s + 1));
  }

  lemma SweptAll(v: seq<Visit>, noise: Noise, r: Rect)
    requires r.w > 0 && r.h > 0 && Swept(v, noise, r, r.w + r.h - 1, r.First(r.w + r.h - 1))
    ensures Complete(v, noise, r)
  {
    forall cx, cz | InRect(r, cx, cz) ensures Visited(v, cx, cz) {
      assert Earlier(r, cx, cz, r.w + r.h - 1, r.First(r.w + r.h - 1));
    }
  }

  /** Every cell of the rectangle once, each with the column noise of its own four corners. */
  ghost predicate Complete(v: seq<Visit>, noise: Noise, r: Rect) {
    && (forall k :: 0 <= k < |v| ==>
          InRect(r, v[k].cx, v[k].cz) && v[k] == RightVisit(noise, v[k].cx, v[k].cz))
    && (forall i, j :: 0 <= i < j < |v| ==> v[i].cx != v[j].cx || v[i].cz != v[j].cz)
    && (forall cx, cz :: InRect(r, cx, cz) ==> Visited(v, cx, cz))
  }

  /** The visits share their corners: the column noise that a cell has at its corner towards a
      neighbour is the one that the neighbour has there. */
  lemma {:induction false} CornersShared(v: seq<Visit>, noise: Noise, r: Rect, i: nat, j: nat)
    requires Complete(v, noise, r) && i < |v| && j < |v|
    ensures v[i].c00 == noise(v[i].cx, v[i].cz)
    ensures v[j].cx == v[i].cx + 1 && v[j].cz == v[i].cz ==> v[i].c10 == v[j].c00 && v[i].c11 == v[j].c01
    ensures v[j].cx == v[i].cx && v[j].cz == v[i].cz + 1 ==> v[i].c01 == v[j].c00 && v[i].c11 == v[j].c10
    ensures v[j].cx == v[i].cx + 1 && v[j].cz == v[i].cz + 1 ==> v[i].c11 == v[j].c00
  {
  }

  lemma RingLength(b: seq<int>, noise: Noise, r: Rect, s: nat, a: int)
    requires Ring(b, noise, r, s, a)
    ensures |b| == 2 * r.Min() + 1
  {
  }

  lemma SweepStart(b: seq<int>, noise: Noise, r: Rect)
    requires r.w > 0 && r.h > 0 && |b| == 2 * r.Min() + 1
    ensures Ring(b, noise, r, 0, 0) && Swept([], noise, r, 0, 0) && r.First(0) == 0 && Slot(r.Min(), 0, 0) == 0
  {
    assert (0 + 0) * r.Min() + 0 == 0;
    DivModUnique(0, 0, 0, 2 * r.Min() + 1);
  }

  /** The output: a range of blocks, each cell of the sweep being `d` blocks wide. */
  datatype Out = Out(x: int, z: int, sx: nat, sz: nat, d: nat)

  /** A block's value, made of the column noise of the four corners of its cell. */
  type Shade = (int, int, int, int, int, int) -> int

  function Shaded(noise: Noise, shade: Shade, d: nat, x: int, z: int): int
    requires d > 0
  {
    var v := RightVisit(noise, x / d, z / d);
    shade(v.c00, v.c10, v.c01, v.c11, x, z)
  }

  /** A block in the cell from d cx to d cx + d - 1, and so on, is shaded from the noise of the
      columns at the corners of that cell. */
  lemma ShadedMeans(noise: Noise, shade: Shade, d: nat, x: int, z: int, cx: int, cz: int)
    requires d > 0 && cx * d <= x < cx * d + d && cz * d <= z < cz * d + d
    ensures Shaded(noise, shade, d, x, z)
         == shade(noise(cx, cz), noise(cx + 1, cz), noise(cx, cz + 1), noise(cx + 1, cz + 1), x, z)
  {
    DivModUnique(x, cx, x - cx * d, d);
    DivModUnique(z, cz, z - cz * d, d);
  }

  function BlockAt(s: seq<int>, o: Out, i: nat, j: nat): int {
    var k := Index(o.sx, j, i);
    if k < |s| then s[k] else 0
  }

  /** The blocks of visited cells have their values, and no other block has changed. */
  ghost predicate Painted(s: seq<int>, was: seq<int>, noise: Noise, shade: Shade, o: Out, v: seq<Visit>)
    requires o.d > 0
  {
    |s| == |was| && forall i: nat, j: nat :: i < o.sx && j < o.sz ==>
      BlockAt(s, o, i, j) == if Visited(v, (o.x + i) / o.d, (o.z + j) / o.d)
                             then Shaded(noise, shade, o.d, o.x + i, o.z + j) else BlockAt(was, o, i, j)
  }

  /** Block (i, j) of the range is in the cell, before column `ii` of row `jj`. */
  predicate Passed(o: Out, cx: int, cz: int, jj: int, ii: int, i: nat, j: nat)
    requires o.d > 0
  {
    && (o.x + i) / o.d == cx && (o.z + j) / o.d == cz
    && ((o.z + j) % o.d < jj || ((o.z + j) % o.d == jj && (o.x + i) % o.d < ii))
  }

  /** The blocks of a cell that have been passed are painted, and no other block has changed. */
  ghost predicate CellPart(s: seq<int>, was: seq<int>, o: Out, v: Visit, shade: Shade, jj: int, ii: int)
    requires o.d > 0
  {
    |s| == |was| && forall i: nat, j: nat :: i < o.sx && j < o.sz ==>
      BlockAt(s, o, i, j) == if Passed(o, v.cx, v.cz, jj, ii, i, j)
                             then shade(v.c00, v.c10, v.c01, v.c11, o.x + i, o.z + j) else BlockAt(was, o, i, j)
  }

  lemma BlockOf(x: int, d: int, cx: int, k: int)
    requires d > 0
    ensures x / d == cx && x % d == k <==> x == cx * d + k && 0 <= k < d
  {
    if x == cx * d + k && 0 <= k < d { DivModUnique(x, cx, k, d); }
    assert x == (x / d) * d + x % d;
  }

  lemma {:induction false} PaintStep(s: seq<int>, t: seq<int>, was: seq<int>, o: Out, v: Visit, shade: Shade,
                                     jj: int, ii: int, i: nat, j: nat)
    requires o.d > 0 && CellPart(s, was, o, v, shade, jj, ii) && 0 <= jj < o.d && 0 <= ii < o.d
    requires i < o.sx && j < o.sz && o.x + i == v.cx * o.d + ii && o.z + j == v.cz * o.d + jj
    requires Index(o.sx, j, i) < |s|
    requires t == s[Index(o.sx, j, i) := shade(v.c00, v.c10, v.c01, v.c11, o.x + i, o.z + j)]
    ensures CellPart(t, was, o, v, shade, jj, ii + 1)
  {
    hide Index;
    forall a: nat, b: nat | a < o.sx && b < o.sz
      ensures BlockAt(t, o, a, b) == if Passed(o, v.cx, v.cz, jj, ii + 1, a, b)
                                     then shade(v.c00, v.c10, v.c01, v.c11, o.x + a, o.z + b) else BlockAt(was, o, a, b)
    {
      if Index(o.sx, b, a) == Index(o.sx, j, i) { IndexApart(o.sx, a, b, i, j); }
      PassedNext(o, v.cx, v.cz, jj, ii, a, b);
    }
  }

  lemma PassedNext(o: Out, cx: int, cz: int, jj: int, ii: int, a: nat, b: nat)
    requires o.d > 0 && 0 <= jj < o.d && 0 <= ii < o.d
    ensures Passed(o, cx, cz, jj, ii + 1, a, b) <==>
      Passed(o, cx, cz, jj, ii, a, b) || (o.x + a == cx * o.d + ii && o.z + b == cz * o.d + jj)
    ensures !Passed(o, cx, cz, jj, ii, a, b) || !(o.x + a == cx * o.d + ii && o.z + b == cz * o.d + jj)
  {
    BlockOf(o.x + a, o.d, cx, ii);
    BlockOf(o.z + b, o.d, cz, jj);
  }

  /** A block of the cell outside the range is passed over. */
  lemma {:induction false} PaintSkip(s: seq<int>, was: seq<int>, o: Out, v: Visit, shade: Shade, jj: int, ii: int)
    requires o.d > 0 && CellPart(s, was, o, v, shade, jj, ii) && 0 <= jj < o.d && 0 <= ii < o.d
    requires !(0 <= v.cx * o.d + ii - o.x < o.sx && 0 <= v.cz * o.d + jj - o.z < o.sz)
    ensures CellPart(s, was, o, v, shade, jj, ii + 1)
  {
    hide BlockAt;
    forall a: nat, b: nat | a < o.sx && b < o.sz
      ensures Passed(o, v.cx, v.cz, jj, ii + 1, a, b) <==> Passed(o, v.cx, v.cz, jj, ii, a, b)
    {
      PassedNext(o, v.cx, v.cz, jj, ii, a, b);
    }
  }

  lemma {:induction false} PaintRow(s: seq<int>, was: seq<int>, o: Out, v: Visit, shade: Shade, jj: int)
    requires o.d > 0 && CellPart(s, was, o, v, shade, jj, o.d)
    ensures CellPart(s, was, o, v, shade, jj + 1, 0)
  {
    hide BlockAt;
    forall a: nat, b: nat | a < o.sx && b < o.sz
      ensures Passed(o, v.cx, v.cz, jj + 1, 0, a, b) <==> Passed(o, v.cx, v.cz, jj, o.d, a, b)
    {
      assert 0 <= (o.x + a) % o.d < o.d;
    }
  }

  /** Write the blocks of a cell, as far as they are in the range. */
  method PaintCell(out: array<int>, o: Out, v: Visit, shade: Shade)
    requires o.d > 0 && Area(o.sx, o.sz) <= out.Length
    modifies out
    ensures CellPart(out[..], old(out[..]), o, v, shade, o.d, 0)
  {
    hide CellPart, BlockAt, Area;
    ghost var was := out[..];
    PaintNone(was, o, v, shade);
    for jj := 0 to o.d
      invariant CellPart(out[..], was, o, v, shade, jj, 0)
    {
      var z := v.cz * o.d + jj;
      PaintEmpty(out[..], was, o, v, shade, jj, z);
      if !(z < o.z || z >= o.z + o.sz) {
        for ii := 0 to o.d
          invariant CellPart(out[..], was, o, v, shade, jj, ii)
        {
          ghost var s := out[..];
          var x := v.cx * o.d + ii;
          if x < o.x || x >= o.x + o.sx {
            PaintSkip(s, was, o, v, shade, jj, ii);
          } else {
            RowWithin(o.sx, o.sz, z - o.z);
            out[Index(o.sx, z - o.z, x - o.x)] := shade(v.c00, v.c10, v.c01, v.c11, x, z);
            PaintStep(s, out[..], was, o, v, shade, jj, ii, x - o.x, z - o.z);
          }
        }
        PaintRow(out[..], was, o, v, shade, jj);
      }
    }
  }

  lemma PaintNone(was: seq<int>, o: Out, v: Visit, shade: Shade)
    requires o.d > 0
    ensures CellPart(was, was, o, v, shade, 0, 0)
  {
  }

  /** A row of the cell outside the range is passed over. */
  lemma {:induction false} PaintEmpty(s: seq<int>, was: seq<int>, o: Out, v: Visit, shade: Shade, jj: int, z: int)
    requires o.d > 0 && CellPart(s, was, o, v, shade, jj, 0) && z == v.cz * o.d + jj && 0 <= jj < o.d
    ensures !(o.z <= z < o.z + o.sz) ==> CellPart(s, was, o, v, shade, jj + 1, 0)
  {
    hide BlockAt;
    if !(o.z <= z < o.z + o.sz) {
      forall a: nat, b: nat | a < o.sx && b < o.sz
        ensures Passed(o, v.cx, v.cz, jj + 1, 0, a, b) <==> Passed(o, v.cx, v.cz, jj, 0, a, b)
      {
        BlockOf(o.z + b, o.d, v.cz, jj);
        assert 0 <= (o.x + a) % o.d < o.d;
      }
    }
  }

  /** After the visit and the painting of a cell. */
  lemma {:induction false} PaintedStep(s: seq<int>, t: seq<int>, was: seq<int>, noise: Noise, shade: Shade, o: Out,
                                       visits: seq<Visit>, cx: int, cz: int)
    requires o.d > 0 && Painted(s, was, noise, shade, o, visits)
    requires CellPart(t, s, o, RightVisit(noise, cx, cz), shade, o.d, 0)
    ensures Painted(t, was, noise, shade, o, visits + [RightVisit(noise, cx, cz)])
  {
    hide BlockAt, Visited;
    var v := RightVisit(noise, cx, cz);
    forall i: nat, j: nat | i < o.sx && j < o.sz
      ensures BlockAt(t, o, i, j) == if Visited(visits + [v], (o.x + i) / o.d, (o.z + j) / o.d)
                                     then Shaded(noise, shade, o.d, o.x + i, o.z + j) else BlockAt(was, o, i, j)
    {
      VisitedMore(visits, v, (o.x + i) / o.d, (o.z + j) / o.d);
      assert (o.z + j) % o.d < o.d;
    }
  }

  lemma {:induction false} VisitedMore(visits: seq<Visit>, v: Visit, cx: int, cz: int)
    ensures Visited(visits + [v], cx, cz) <==> Visited(visits, cx, cz) || (v.cx == cx && v.cz == cz)
  {
    var u := visits + [v];
    assert u[|visits|] == v;
    if Visited(visits, cx, cz) {
      var k :| 0 <= k < |visits| && visits[k].cx == cx && visits[k].cz == cz;
      assert u[k] == visits[k];
    }
  }

  /** One stripe, from its lower left end to its upper right end. */
  method SweepStripe(noise: Noise, shade: Shade, buf: array<int>, out: array<int>, o: Out, r: Rect, stripe: nat,
                     start: nat, before: seq<Visit>, ghost was: seq<int>)
    returns (idx: nat, visits: seq<Visit>)
    requires r.w > 0 && r.h > 0 && stripe < r.w + r.h - 1
    requires start == Slot(r.Min(), r.First(stripe), stripe - r.First(stripe))
    requires Ring(buf[..], noise, r, stripe, r.First(stripe))
    requires Swept(before, noise, r, stripe, r.First(stripe))
    requires buf != out && o.d > 0 && Area(o.sx, o.sz) <= out.Length && Painted(out[..], was, noise, shade, o, before)
    modifies buf, out
    ensures idx == Slot(r.Min(), r.Last(stripe) + 1, stripe - r.Last(stripe) - 1)
    ensures Ring(buf[..], noise, r, stripe, r.Last(stripe) + 1)
    ensures Swept(visits, noise, r, stripe, r.Last(stripe) + 1)
    ensures Painted(out[..], was, noise, shade, o, visits)
  {
    hide Swept, Ring, Slot, Complete, Painted, CellPart, Area;
    RingLength(buf[..], noise, r, stripe, r.First(stripe));
    idx, visits := start, before;
    var cx, cz := r.x + r.First(stripe), r.z + stripe - r.First(stripe);
    while cx < r.x + r.w && cz >= r.z
      invariant (cx - r.x) + (cz - r.z) == stripe
      invariant r.First(stripe) <= cx - r.x <= r.Last(stripe) + 1
      invariant idx == Slot(r.Min(), cx - r.x, cz - r.z)
      invariant buf.Length == 2 * r.Min() + 1 && Ring(buf[..], noise, r, stripe, cx - r.x)
      invariant Swept(visits, noise, r, stripe, cx - r.x) && Painted(out[..], was, noise, shade, o, visits)
    {
      ghost var s := out[..];
      var v := VisitCell(noise, buf, r, stripe, idx, cx, cz);
      PaintCell(out, o, v, shade);
      PaintedStep(s, out[..], was, noise, shade, o, visits, cx, cz);
      SweptStep(visits, noise, r, stripe, cx - r.x);
      SlotSteps(r.Min(), cx - r.x, cz - r.z);
      visits := visits + [v];
      cx := cx + 1;
      cz := cz - 1;
      idx := (idx + 1) % buf.Length;
    }
  }

  /** The diagonal traversal with a ring of 2 * min(w, h) + 1 slots. */
  method Sweep(noise: Noise, shade: Shade, buf: array<int>, out: array<int>, o: Out,
               cx1: int, cz1: int, cx2: int, cz2: int)
    returns (visits: seq<Visit>)
    requires cx1 < cx2 && cz1 < cz2
    requires buf.Length == 2 * Rect(cx1, cz1, cx2 - cx1, cz2 - cz1).Min() + 1
    requires buf != out && o.d > 0 && Area(o.sx, o.sz) <= out.Length
    modifies buf, out
    ensures Complete(visits, noise, Rect(cx1, cz1, cx2 - cx1, cz2 - cz1))
    ensures Painted(out[..], old(out[..]), noise, shade, o, visits)
  {
    hide Swept, Ring, Slot, Complete, Painted, Area;
    ghost var was := out[..];
    var r := Rect(cx1, cz1, cx2 - cx1, cz2 - cz1);
    var minDim, maxDim, bufLen := r.Min(), r.Max(), buf.Length;
    var xStart, zStart, idx, stripe := cx1, cz1, 0, 0;
    visits := [];
    SweepStart(buf[..], noise, r);
    NonePainted(was, noise, shade, o);
    while stripe < maxDim + minDim - 1
      invariant 0 <= stripe <= r.w + r.h - 1
      invariant xStart == cx1 + r.First(stripe) && zStart == cz1 + stripe - r.First(stripe)
      invariant idx == Slot(minDim, r.First(stripe), stripe - r.First(stripe))
      invariant Ring(buf[..], noise, r, stripe, r.First(stripe))
      invariant Swept(visits, noise, r, stripe, r.First(stripe)) && Painted(out[..], was, noise, shade, o, visits)
    {
      idx, visits := SweepStripe(noise, shade, buf, out, o, r, stripe, idx, visits, was);
      if zStart < cz2 - 1 {
        zStart := zStart + 1;
      } else {
        xStart := xStart + 1;
      }
      TurnFinds(r, stripe);
      if stripe + 1 < minDim {
        idx := (idx + minDim - stripe - 1) % bufLen;
      } else if stripe + 1 > maxDim {
        idx := (idx + stripe - maxDim + 2) % bufLen;
      } else if xStart > cx1 {
        idx := (idx + 1) % bufLen;
      }
      RingTurns(buf[..], noise, r, stripe);
      SweptTurn(visits, noise, r, stripe);
      stripe := stripe + 1;
    }
    SweptAll(visits, noise, r);
  }

  lemma NonePainted(was: seq<int>, noise: Noise, shade: Shade, o: Out)
    requires o.d > 0
    ensures Painted(was, was, noise, shade, o, [])
  {
  }

  /** Blocks per cell side at a scale below 4, as a divisor. */
  function CellDivisor(scale: int): nat
    requires 1 <= scale <= 3
  {
    if scale / 2 == 0 then 4 else 2
  }

  /** The slots that getMinCacheSize reserves are those the sweep of the range uses. */
  lemma RingIsReserved(scale: int, x: int, z: int, sx: nat, sz: nat)
    requires 1 <= scale <= 3
    ensures var d, smin := CellDivisor(scale), if sx < sz then sx else sz;
      (smin / d + 1) * 2 + 1 == 2 * Rect(x / d, z / d, sx / d + 1, sz / d + 1).Min() + 1
  {
  }

  /** The cells of a range of blocks, as the generator counts them: one more than fit in it. */
  function CellsOf(o: Out): Rect
    requires o.d > 0
  {
    Rect(o.x / o.d, o.z / o.d, o.sx / o.d + 1, o.sz / o.d + 1)
  }

  /** The whole generation at a scale below 4 with ocean mapping: blocks of swept cells get their
      values, and others are left as they were. */
  method GenBiomeNoiseBeta(noise: Noise, shade: Shade, out: array<int>, scale: int, x: int, z: int, sx: nat, sz: nat)
    requires 1 <= scale <= 3 && Area(sx, sz) <= out.Length
    modifies out
    ensures Generated(out[..], old(out[..]), noise, shade, Out(x, z, sx, sz, CellDivisor(scale)))
  {
    hide Complete, Painted, Generated, Rect.Min;
    var d := CellDivisor(scale);
    var o := Out(x, z, sx, sz, d);
    var cx1, cz1 := x / d, z / d;
    var cx2, cz2 := cx1 + sx / d + 1, cz1 + sz / d + 1;
    var minDim := if cx2 - cx1 > cz2 - cz1 then cz2 - cz1 else cx2 - cx1;
    ShorterSide(CellsOf(o));
    var buf := new int[minDim * 2 + 1];
    var visits := Sweep(noise, shade, buf, out, o, cx1, cz1, cx2, cz2);
    PaintedMeans(out[..], old(out[..]), noise, shade, o, visits);
  }

  lemma ShorterSide(r: Rect)
    ensures r.Min() == if r.w > r.h then r.h else r.w
  {
  }

  /** The blocks of the cells of the range have their values, and others are as they were. */
  ghost predicate Generated(s: seq<int>, was: seq<int>, noise: Noise, shade: Shade, o: Out)
    requires o.d > 0
  {
    forall i: nat, j: nat :: i < o.sx && j < o.sz ==>
      BlockAt(s, o, i, j) == if BlockSwept(o, i, j)
                             then Shaded(noise, shade, o.d, o.x + i, o.z + j) else BlockAt(was, o, i, j)
  }

  lemma {:induction false} PaintedMeans(s: seq<int>, was: seq<int>, noise: Noise, shade: Shade, o: Out,
                                        visits: seq<Visit>)
    requires o.d > 0 && Painted(s, was, noise, shade, o, visits) && Complete(visits, noise, CellsOf(o))
    ensures Generated(s, was, noise, shade, o)
  {
    hide BlockAt, Shaded, Complete, BlockSwept, Visited;
    forall i: nat, j: nat | i < o.sx && j < o.sz
      ensures BlockSwept(o, i, j) <==> Visited(visits, (o.x + i) / o.d, (o.z + j) / o.d)
    {
      CompleteAt(visits, noise, CellsOf(o), (o.x + i) / o.d, (o.z + j) / o.d);
      SweptIs(o, i, j);
    }
  }

  lemma CompleteAt(visits: seq<Visit>, noise: Noise, r: Rect, cx: int, cz: int)
    requires Complete(visits, noise, r)
    ensures Visited(visits, cx, cz) <==> InRect(r, cx, cz)
  {
  }

  lemma SweptIs(o: Out, i: nat, j: nat)
    requires o.d > 0
    ensures BlockSwept(o, i, j) <==> InRect(CellsOf(o), (o.x + i) / o.d, (o.z + j) / o.d)
  {
  }

  ghost predicate AllSwept(o: Out)
    requires o.d > 0
  {
    forall i: nat, j: nat :: i < o.sx && j < o.sz ==> BlockSwept(o, i, j)
  }

  predicate BlockSwept(o: Out, i: nat, j: nat)
    requires o.d > 0
  {
    InRect(CellsOf(o), (o.x + i) / o.d, (o.z + j) / o.d)
  }

  lemma LineSwept(x: int, n: nat, d: nat, i: nat)
    requires d == 2 || d == 4
    ensures x % d + n % d <= d && i < n ==> x / d <= (x + i) / d < x / d + n / d + 1
    ensures x % d + n % d > d ==> n > 0 && (x + n - 1) / d >= x / d + n / d + 1
  {
  }

  /** The output is complete exactly when on neither axis the range begins so far into a cell
      that its rest reaches one cell more. */
  lemma {:induction false} OutputComplete(o: Out)
    requires (o.d == 2 || o.d == 4) && o.sx > 0 && o.sz > 0
    ensures AllSwept(o) <==> o.x % o.d + o.sx % o.d <= o.d && o.z % o.d + o.sz % o.d <= o.d
  {
    hide BlockSwept;
    forall i: nat, j: nat | i < o.sx && j < o.sz
      ensures o.x % o.d + o.sx % o.d <= o.d && o.z % o.d + o.sz % o.d <= o.d ==> BlockSwept(o, i, j)
    {
      SweptByLines(o, i, j);
    }
    SweptByLines(o, o.sx - 1, o.sz - 1);
  }

  lemma SweptByLines(o: Out, i: nat, j: nat)
    requires (o.d == 2 || o.d == 4) && i < o.sx && j < o.sz
    ensures o.x % o.d + o.sx % o.d <= o.d && o.z % o.d + o.sz % o.d <= o.d ==> BlockSwept(o, i, j)
    ensures BlockSwept(o, o.sx - 1, o.sz - 1) ==> o.x % o.d + o.sx % o.d <= o.d && o.z % o.d + o.sz % o.d <= o.d
  {
    LineSwept(o.x, o.sx, o.d, i);
    LineSwept(o.z, o.sz, o.d, j);
  }

  /** At block scale the range of two blocks from 3 on is not complete, while one from 1 on is. */
  lemma {:induction false} SomeMissed()
    ensures CellDivisor(1) == 4 && CellDivisor(2) == 2 && CellDivisor(3) == 2
    ensures !AllSwept(Out(3, 0, 2, 1, 4)) && AllSwept(Out(1, 0, 1, 1, 4))
  {
    OutputComplete(Out(3, 0, 2, 1, 4));
    OutputComplete(Out(1, 0, 1, 1, 4));
  }
}
