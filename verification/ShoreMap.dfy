/** The shore layer (layers.c), a 3x3 layer with a branch that leaves its cell unwritten. Such a
    cell keeps what the bordered parent area happened to hold at its place in the buffer. */
module ShoreMap {
  import opened Rows
  import opened Layers
  import opened AreaMaps
  import opened ModArith

  const MOUNTAINS := 3
  const FOREST := 4
  const TAIGA := 5
  const SWAMP := 6
  const RIVER := 7
  const DESERT := 2
  const MUSHROOM_FIELDS := 14
  const MUSHROOM_FIELD_SHORE := 15
  const BEACH := 16
  const JUNGLE_EDGE := 23
  const STONE_SHORE := 25
  const SNOWY_BEACH := 26
  const WOODED_MOUNTAINS := 34
  const BADLANDS := 37
  const WOODED_BADLANDS_PLATEAU := 38

  /** jungle, jungle_hills, jungle_edge, modified_jungle, modified_jungle_edge, bamboo_jungle and
      bamboo_jungle_hills */
  predicate IsJungle(id: int) { id in {21, 22, 23, 149, 151, 168, 169} }

  /** frozen_ocean, frozen_river, snowy_tundra, snowy_mountains, snowy_beach, snowy_taiga,
      snowy_taiga_hills, ice_spikes and snowy_taiga_mountains */
  predicate IsSnowy(id: int) { id in {10, 11, 12, 13, 26, 30, 31, 140, 158} }

  /** badlands, wooded_badlands_plateau, badlands_plateau, eroded_badlands,
      modified_wooded_badlands_plateau and modified_badlands_plateau */
  predicate IsMesa(id: int) { id in {37, 38, 39, 165, 166, 167} }

  predicate AnyOceanic(n: Nine) { IsOceanic(n.v10) || IsOceanic(n.v21) || IsOceanic(n.v01) || IsOceanic(n.v12) }

  predicate JungleSide(id: int) { IsJungle(id) || id == FOREST || id == TAIGA || IsOceanic(id) }

  /** The branch that does not write: an oceanic cell is left to a caller that does not look. */
  function ReplaceOcean(n: Nine, replaceID: int): Written {
    if IsOceanic(n.v11) then Keep
    else if AnyOceanic(n) then Write(replaceID)
    else Write(n.v11)
  }

  /** The shore rule from version 1.7 on. */
  function ShoreRule(n: Nine): Written {
    var id := n.v11;
    if id == MUSHROOM_FIELDS then
      Write(if OCEAN in {n.v10, n.v21, n.v01, n.v12} then MUSHROOM_FIELD_SHORE else id)
    else if IsJungle(id) then
      if JungleSide(n.v10) && JungleSide(n.v21) && JungleSide(n.v01) && JungleSide(n.v12)
      then Write(if AnyOceanic(n) then BEACH else id) else Write(JUNGLE_EDGE)
    else if id == MOUNTAINS || id == WOODED_MOUNTAINS then ReplaceOcean(n, STONE_SHORE)
    else if IsSnowy(id) then ReplaceOcean(n, SNOWY_BEACH)
    else if id == BADLANDS || id == WOODED_BADLANDS_PLATEAU then
      Write(if AnyOceanic(n) || (IsMesa(n.v10) && IsMesa(n.v21) && IsMesa(n.v01) && IsMesa(n.v12)) then id else DESERT)
    else if id in {OCEAN, DEEP_OCEAN, RIVER, SWAMP} then Write(id)
    else Write(if AnyOceanic(n) then BEACH else id)
  }

  /** Of all values only frozen_ocean meets the branch that does not write. */
  lemma KeepsFrozenOcean(n: Nine)
    ensures ShoreRule(n) == Keep <==> n.v11 == FROZEN_OCEAN
  {
  }

  function Sides(n: Nine): multiset<int> { multiset{n.v10, n.v21, n.v01, n.v12} }

  lemma SidesMean(n: Nine)
    ensures AnyOceanic(n) <==> exists s :: s in Sides(n) && IsOceanic(s)
    ensures (JungleSide(n.v10) && JungleSide(n.v21) && JungleSide(n.v01) && JungleSide(n.v12)) <==>
      forall s :: s in Sides(n) ==> JungleSide(s)
    ensures (IsMesa(n.v10) && IsMesa(n.v21) && IsMesa(n.v01) && IsMesa(n.v12)) <==> forall s :: s in Sides(n) ==> IsMesa(s)
  {
    hide IsOceanic, IsMesa, JungleSide;
    assert n.v10 in Sides(n) && n.v21 in Sides(n) && n.v01 in Sides(n) && n.v12 in Sides(n);
  }

  /** The kinds of cells that the rule treats on their own. */
  predicate Special(id: int) {
    IsJungle(id) || IsSnowy(id)
    || id in {OCEAN, DEEP_OCEAN, RIVER, SWAMP, MUSHROOM_FIELDS, MOUNTAINS, WOODED_MOUNTAINS, BADLANDS, WOODED_BADLANDS_PLATEAU}
  }

  /** What the shore rule changes: coasts by an ocean, the edge of a jungle against other land,
      and the edge of badlands inland. */
  lemma ShoreMeans(n: Nine)
    requires n.v11 != FROZEN_OCEAN
    ensures var id, v, coast := n.v11, ValueOf(ShoreRule(n)), exists s :: s in Sides(n) && IsOceanic(s);
      && (id in {OCEAN, DEEP_OCEAN, RIVER, SWAMP} ==> v == id)
      && (!Special(id) ==> v == if coast then BEACH else id)
      && (id == MUSHROOM_FIELDS ==> v == if OCEAN in Sides(n) then MUSHROOM_FIELD_SHORE else id)
      && (id in {MOUNTAINS, WOODED_MOUNTAINS} ==> v == if coast then STONE_SHORE else id)
      && (IsSnowy(id) ==> v == if coast then SNOWY_BEACH else id)
      && (IsJungle(id) ==> v == if exists s :: s in Sides(n) && !JungleSide(s) then JUNGLE_EDGE
                                else if coast then BEACH else id)
      && (id in {BADLANDS, WOODED_BADLANDS_PLATEAU} ==>
            v == if !coast && exists s :: s in Sides(n) && !IsMesa(s) then DESERT else id)
  {
    hide AnyOceanic, IsMesa, JungleSide, Sides;
    SidesMean(n);
    assert OCEAN in Sides(n) <==> OCEAN in {n.v10, n.v21, n.v01, n.v12} by { SidesHold(n, OCEAN); }
  }

  lemma SidesHold(n: Nine, v: int)
    ensures v in Sides(n) <==> v in {n.v10, n.v21, n.v01, n.v12}
  {
  }

  /** What the parent area, stored row by row, holds where cell (i, j) of a `w` wide window goes. */
  function Leftover(f: Plane, x: int, z: int, w: nat, i: nat, j: nat): int {
    var k := j * w + i;
    f(x - 1 + k % (w + 2), z - 1 + k / (w + 2))
  }

  /** What a window at (x, z) of width `w` comes to hold. */
  function ShoreCell(shore: (int, int, Nine) -> Written, f: Plane, x: int, z: int, w: nat, cx: int, cz: int): int
  {
    match shore(cx, cz, NineOf(f, cx, cz))
    case Write(v) => v
    case Keep => if cx >= x && cz >= z then Leftover(f, x, z, w, cx - x, cz - z) else OCEAN
  }

  function ShoreOut(shore: (int, int, Nine) -> Written, f: Plane, x: int, z: int, w: nat): Plane {
    (cx, cz) => ShoreCell(shore, f, x, z, w, cx, cz)
  }

  lemma LineAddress(w: nat, h: nat, k: nat)
    requires w > 0 && k < Area(w, h)
    ensures 0 <= k / w < h && Area(w, k / w) + k % w == k
  {
    var q := k / w;
    AreaIsProduct(w, h);
    AreaIsProduct(w, q);
    QuotientBelow(k, w, h);
  }

  lemma Below(q: int, r: int, w: int, h: int)
    requires w > 0 && 0 <= r < w && 0 <= q * w + r < h * w
    ensures 0 <= q < h
  {
    MulAtLeast(q, w);
    MulAtLeast(q - h, w);
    assert (q - h) * w == q * w - h * w;
  }

  lemma QuotientBelow(k: nat, w: nat, h: nat)
    requires w > 0 && k < h * w
    ensures 0 <= k / w < h && k == (k / w) * w + k % w
  {
    var q, r := k / w, k % w;
    assert k == q * w + r;
    Below(q, r, w, h);
  }

  /** A stored area read as one line. */
  lemma FlatRead(s: seq<int>, off: nat, f: Plane, x: int, z: int, w: nat, h: nat, k: nat)
    requires Window(s, off, f, x, z, w, h) && w > 0 && k < Area(w, h)
    ensures off + k < |s| && s[off + k] == f(x + k % w, z + k / w)
  {
    hide Area;
    LineAddress(w, h, k);
    var j: nat, i: nat := k / w, k % w;
    assert RowAt(s, off, f, x, z, w, j);
    assert s[off + Area(w, j) + i] == f(x + i, z + j);
  }

  /** The own cells lie no further than the parent cells that are still needed, and their places
      are those of the leftover. */
  lemma PlaceOf(w: nat, h: nat, i: nat, j: nat)
    requires i < w && j < h
    ensures Area(w, j) + i == j * w + i < Area(w + 2, h + 2)
  {
    AreaIsProduct(w, j);
    AreaGrows(w, h, w + 2, h + 2);
    RowWithin(w, h, j);
  }

  ghost predicate Untouched(t: seq<int>, s: seq<int>, from: nat) {
    |t| == |s| && forall k {:trigger t[k]} :: from <= k < |s| ==> t[k] == s[k]
  }

  method ShoreRow(shore: (int, int, Nine) -> Written, buf: array<int>, off: nat, x: int, z: int, w: nat, h: nat,
                  j: nat, ghost f: Plane, ghost s0: seq<int>)
    requires j < h && Window(s0, off, f, x - 1, z - 1, w + 2, h + 2) && off + Area(w + 2, h + 2) <= |s0|
    requires Untouched(buf[..], s0, off + Area(w, j))
    requires ThreeRows(buf[..], off + Area(w + 2, j), f, x, z + j, w)
    modifies buf
    ensures Row(buf[..], off + Area(w, j), ShoreOut(shore, f, x, z, w), x, z + j, w)
    ensures OnlyWrites(old(buf[..]), buf[..], off + Area(w, j), off + Area(w, j) + w)
  {
    hide ShoreOut, Window, Area, Index, Leftover, ShoreCell, NineOf;
    ghost var s := buf[..];
    ghost var g := ShoreOut(shore, f, x, z, w);
    var at, r0 := off + Area(w, j), off + Area(w + 2, j);
    AreaGrows(w, j, w + 2, j);
    for i := 0 to w
      invariant forall k {:trigger buf[k]} :: at <= k < at + i ==> buf[k] == g(x + (k - at), z + j)
      invariant forall k {:trigger buf[k]} :: 0 <= k < |s| && !(at <= k < at + i) ==> buf[k] == s[k]
    {
      var n := ReadNine(buf, r0, w, i, s, f, x, z + j);
      CellHolds(shore, s0, off, f, x, z, w, h, i, j);
      var r := shore(x + i, z + j, n);
      if r.Write? {
        buf[at + i] := r.v;
      }
    }
  }

  lemma CellHolds(shore: (int, int, Nine) -> Written, s0: seq<int>, off: nat, f: Plane,
                  x: int, z: int, w: nat, h: nat, i: nat, j: nat)
    requires Window(s0, off, f, x - 1, z - 1, w + 2, h + 2) && i < w && j < h
    ensures off + Area(w, j) + i < |s0|
    ensures ShoreOut(shore, f, x, z, w)(x + i, z + j)
         == (var r := shore(x + i, z + j, NineOf(f, x + i, z + j)); if r.Write? then r.v else s0[off + Area(w, j) + i])
  {
    hide Window, Area, Index;
    PlaceOf(w, h, i, j);
    FlatRead(s0, off, f, x - 1, z - 1, w + 2, h + 2, Area(w, j) + i);
  }

  method ShoreMap(shore: (int, int, Nine) -> Written, buf: array<int>, off: nat, x: int, z: int, w: nat, h: nat,
                  ghost f: Plane)
    requires Window(buf[..], off, f, x - 1, z - 1, w + 2, h + 2) && off + Area(w + 2, h + 2) <= buf.Length
    modifies buf
    ensures Window(buf[..], off, ShoreOut(shore, f, x, z, w), x, z, w, h)
    ensures OnlyWrites(old(buf[..]), buf[..], off, off + Area(w, h))
  {
    hide ShoreOut, Window, Row, ThreeRows, RowsFrom;
    ghost var s0, g := buf[..], ShoreOut(shore, f, x, z, w);
    NoneDone(s0, off, f, g, x, z, w, h);
    for j := 0 to h
      invariant HalfDone(buf[..], off, f, g, x, z, w, h, j)
      invariant Untouched(buf[..], s0, off + Area(w, j))
      invariant OnlyWrites(s0, buf[..], off, off + Area(w, h))
    {
      ghost var s := buf[..];
      RowWithin(w, h, j);
      ThreeInPlace(s, off, f, g, x, z, w, h, j);
      ShoreRow(shore, buf, off, x, z, w, h, j, f, s0);
      HalfDoneStep(s, buf[..], off, f, g, x, z, w, h, j);
    }
  }

  lemma NoneDone(s: seq<int>, off: nat, f: Plane, g: Plane, x: int, z: int, w: nat, h: nat)
    requires Window(s, off, f, x - 1, z - 1, w + 2, h + 2)
    ensures HalfDone(s, off, f, g, x, z, w, h, 0) && Untouched(s, s, off + Area(w, 0))
  {
  }

  /** Two planes agree on the cell and its eight neighbours. */
  ghost predicate SameNear(f: Plane, g: Plane, x: int, z: int) { NineOf(f, x, z) == NineOf(g, x, z) }

  /** What the layer holds at (cx, cz) is decided by the nine parent cells around it: the same for
      all parents that agree there, and for every window that contains the cell. */
  ghost predicate Decided(shore: (int, int, Nine) -> Written, f: Plane, cx: int, cz: int) {
    forall g: Plane, x, z, w: nat ::
      SameNear(f, g, cx, cz) && x <= cx < x + w && z <= cz ==>
        ShoreCell(shore, g, x, z, w, cx, cz) == ShoreCell(shore, f, cx, cz, 1, cx, cz)
  }

  /** A cell is decided by its neighbourhood exactly when it is written. */
  lemma {:induction false} DecidedIffWritten(shore: (int, int, Nine) -> Written, f: Plane, cx: int, cz: int)
    ensures Decided(shore, f, cx, cz) <==> shore(cx, cz, NineOf(f, cx, cz)).Write?
  {
    if shore(cx, cz, NineOf(f, cx, cz)) == Keep {
      var far := Leftover(f, cx, cz, 1, 0, 0) + 1;
      var g: Plane := (a, b) => if a == cx - 3 && b == cz - 1 then far else f(a, b);
      assert SameNear(f, g, cx, cz);
      var x, z, w := cx - 2, cz - 1, 3;
      FarLeftover(g, x, z, far);
      assert ShoreCell(shore, g, x, z, w, cx, cz) == Leftover(g, x, z, w, 2, 1);
      assert ShoreCell(shore, f, cx, cz, 1, cx, cz) == Leftover(f, cx, cz, 1, 0, 0);
    }
  }

  /** The last cell of the second row of a window three wide would fall on the first of the
      parent row before its own. */
  lemma FarLeftover(g: Plane, x: int, z: int, far: int)
    requires g(x - 1, z) == far
    ensures Leftover(g, x, z, 3, 2, 1) == far
  {
  }

  /** One layer and one cell, and two windows that disagree on it: the unwritten origin keeps the
      neighbour three columns away in one of them. */
  lemma WindowsDisagree(shore: (int, int, Nine) -> Written, f: Plane)
    requires forall x, z, n :: shore(x, z, n) == ShoreRule(n)
    requires forall a, b :: f(a, b) == if a == 0 && b == 0 then FROZEN_OCEAN else if a == -3 then 1 else 0
    ensures ShoreOut(shore, f, 0, 0, 1)(0, 0) == 0 && ShoreOut(shore, f, -2, -1, 3)(0, 0) == 1
  {
    KeepsFrozenOcean(NineOf(f, 0, 0));
    FarLeftover(f, -2, -1, 1);
  }

  predicate NineAvoid(n: Nine, bad: int) {
    bad !in {n.v00, n.v10, n.v20, n.v01, n.v11, n.v21, n.v02, n.v12, n.v22}
  }

  /** No rule of the tree makes the value unless it is given it. */
  ghost predicate Avoids(l: Layer, bad: int)
  {
    match l
    case Continent(_) => bad !in {0, 1}
    case OceanTemp(temp) => forall x, z :: temp(x, z) != bad
    case Cell(cell, _, p) => Avoids(p, bad) && forall x, z, v :: v != bad ==> cell(x, z, v) != bad
    case Stencil(near, p) => Avoids(p, bad) && forall x, z, n :: NineAvoid(n, bad) ==> near(x, z, n) != bad
    case Shore(shore, p) => Avoids(p, bad) && forall x, z, n :: NineAvoid(n, bad) ==> shore(x, z, n) !in {Keep, Write(bad)}
    case Land(corner, p) => Avoids(p, bad) && forall x, z, n: Five :: FiveAvoid(n, bad) ==> corner(x, z, n) != bad
    case Island(_, p) => Avoids(p, bad) && bad != 1
    case Zoom(_, _, p) => Avoids(p, bad)
    case Hills(hill, p, p2) => Avoids(p, bad) && forall x, z, n, r :: NineAvoid(n, bad) ==> hill(x, z, n, r) != bad
    case RiverMix(mix, p, p2) => Avoids(p, bad) && forall v, r :: v != bad ==> mix(v, r) != bad
    case OceanMix(p, p2) => Avoids(p, bad) && Avoids(p2, bad) && bad !in OCEAN_VARIANTS
    case Voronoi(_, p) => Avoids(p, bad)
  }

  /** What the ocean mix may make of other values. */
  const OCEAN_VARIANTS :=
    {OCEAN, COLD_OCEAN, LUKEWARM_OCEAN, DEEP_OCEAN, DEEP_LUKEWARM_OCEAN, DEEP_COLD_OCEAN, DEEP_FROZEN_OCEAN}

  predicate FiveAvoid(n: Five, bad: int) { bad !in {n.v00, n.v20, n.v02, n.v22, n.v11} }

  /** Then the value occurs nowhere, and no shore layer that keeps only such cells leaves one
      unwritten. */
  lemma {:induction false} ValueAvoids(l: Layer, bad: int, x: int, z: int)
    requires Avoids(l, bad)
    ensures Value(l, x, z) != bad
    decreases l
  {
    if HasParent(l) {
      forall a, b ensures Meaning(l.p)(a, b) != bad { ValueAvoids(l.p, bad, a, b); }
      if l.OceanMix? { forall a, b ensures Meaning(l.p2)(a, b) != bad { ValueAvoids(l.p2, bad, a, b); } }
    }
    var f := if HasParent(l) then Meaning(l.p) else NOTHING;
    var f2 := if TwoParents(l) then Meaning(l.p2) else NOTHING;
    RuleAvoids(l, f, f2, bad, x, z);
  }

  lemma RuleAvoids(l: Layer, f: Plane, f2: Plane, bad: int, x: int, z: int)
    requires Avoids(l, bad) && (HasParent(l) ==> forall a, b :: f(a, b) != bad)
    requires l.OceanMix? ==> forall a, b :: f2(a, b) != bad
    ensures Rule(l, f, f2, x, z) != bad
  {
    hide ShiftDist;
    var v, r, n := f(x, z), f2(x, z), NineOf(f, x, z);
    if l.Hills? {
      assert NineAvoid(n, bad);
      assert l.hill(x, z, n, r) != bad;
    }
    if l.RiverMix? {
      assert l.mix(v, r) != bad;
    }
  }

  /** So a shore layer that leaves only frozen_ocean unwritten writes all its cells over a tree in
      which no rule makes frozen_ocean. */
  lemma {:induction false} ShoreSettles(l: Layer)
    requires l.Shore? && Settled(l.p) && Avoids(l.p, FROZEN_OCEAN)
    requires forall x, z, n :: l.shore(x, z, n) == ShoreRule(n)
    ensures Settled(l)
  {
    forall x, z ensures l.shore(x, z, NineOf(Meaning(l.p), x, z)).Write? {
      KeepsFrozenOcean(NineOf(Meaning(l.p), x, z));
      ValueAvoids(l.p, FROZEN_OCEAN, x, z);
    }
  }
}
