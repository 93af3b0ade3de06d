/** What the cell rules of the layers come to, in terms of the parents' values at absolute
    positions. */
module LayerRules {
  import opened Layers

  /** The value occurs strictly more often than every other. */
  ghost predicate Leads(m: multiset<int>, v: int) {
    forall u :: u != v ==> m[v] > m[u]
  }

  lemma MajorityWins(quad: int, v00: int, v01: int, v10: int, v11: int, v: int)
    requires Leads(multiset{v00, v01, v10, v11}, v)
    ensures Select4(quad, v00, v01, v10, v11) == v
  {
    var m := multiset{v00, v01, v10, v11};
    assert v in m;
    assert forall u :: u in {v00, v01, v10, v11} && u != v ==> m[v] > m[u];
  }

  lemma NoMajority(quad: int, v00: int, v01: int, v10: int, v11: int)
    requires forall v :: v in {v00, v01, v10, v11} ==> !Leads(multiset{v00, v01, v10, v11}, v)
    ensures Select4(quad, v00, v01, v10, v11) == Quarter(quad, v00, v01, v10, v11)
  {
    var m := multiset{v00, v01, v10, v11};
    assert !Leads(m, v00) && !Leads(m, v01) && !Leads(m, v10) && !Leads(m, v11);
  }

  /** The quarters are the four parent cells in row-major order. */
  lemma QuarterPlace(f: Plane, a: int, b: int, quad: int)
    requires 0 <= quad < 4
    ensures Quarter(quad, f(a, b), f(a, b + 1), f(a + 1, b), f(a + 1, b + 1)) == f(a + quad % 2, b + quad / 2)
  {
  }

  ghost function Around(f: Plane, a: int, b: int): multiset<int> {
    multiset{f(a, b), f(a, b + 1), f(a + 1, b), f(a + 1, b + 1)}
  }

  /** A zoom makes four cells of each parent cell: the cell itself; to its right and below, that or
      the next parent cell, by draw; and diagonally, in the plain zoom, the value that leads
      among the four parent cells around. Without one, and in the fuzzy zoom, the draw picks. */
  lemma {:induction false} ZoomMeans(l: Layer, a: int, b: int)
    requires l.Zoom? && 0 <= l.draw(2 * a, 2 * b).quad < 4
    ensures var f, d := Meaning(l.p), l.draw(2 * a, 2 * b);
      && Value(l, 2 * a, 2 * b) == f(a, b)
      && Value(l, 2 * a + 1, 2 * b) == f(if d.right then a + 1 else a, b)
      && Value(l, 2 * a, 2 * b + 1) == f(a, if d.down then b + 1 else b)
      && (!l.fuzzy ==> forall v :: Leads(Around(f, a, b), v) ==> Value(l, 2 * a + 1, 2 * b + 1) == v)
      && (l.fuzzy || (forall v :: v in Around(f, a, b) ==> !Leads(Around(f, a, b), v)) ==>
            Value(l, 2 * a + 1, 2 * b + 1) == f(a + d.quad % 2, b + d.quad / 2))
  {
    hide Select4, Quarter, Meaning, Leads;
    var f, d := Meaning(l.p), l.draw(2 * a, 2 * b);
    QuarterPlace(f, a, b, d.quad);
    ZoomPlaces(l, a, b);
    forall v | Leads(Around(f, a, b), v)
      ensures Select4(d.quad, f(a, b), f(a, b + 1), f(a + 1, b), f(a + 1, b + 1)) == v
    {
      MajorityWins(d.quad, f(a, b), f(a, b + 1), f(a + 1, b), f(a + 1, b + 1), v);
    }
    if forall v :: v in Around(f, a, b) ==> !Leads(Around(f, a, b), v) {
      NoMajority(d.quad, f(a, b), f(a, b + 1), f(a + 1, b), f(a + 1, b + 1));
    }
  }

  lemma ZoomPlaces(l: Layer, a: int, b: int)
    requires l.Zoom?
    ensures var f, d := Meaning(l.p), l.draw(2 * a, 2 * b);
      var v00, v01, v10, v11 := f(a, b), f(a, b + 1), f(a + 1, b), f(a + 1, b + 1);
      && Value(l, 2 * a, 2 * b) == v00
      && Value(l, 2 * a + 1, 2 * b) == (if d.right then v10 else v00)
      && Value(l, 2 * a, 2 * b + 1) == (if d.down then v01 else v00)
      && Value(l, 2 * a + 1, 2 * b + 1)
           == if l.fuzzy then Quarter(d.quad, v00, v01, v10, v11) else Select4(d.quad, v00, v01, v10, v11)
  {
    hide Select4, Quarter, Meaning;
  }

  /** Cell (i, j) of a neighbourhood, counted from its centre. */
  function NineAt(n: Nine, i: int, j: int): int {
    var west, mid, east := [n.v00, n.v01, n.v02], [n.v10, n.v11, n.v12], [n.v20, n.v21, n.v22];
    if !(-1 <= i <= 1 && -1 <= j <= 1) then 0 else [west, mid, east][i + 1][j + 1]
  }

  lemma NineOfMeans(f: Plane, x: int, z: int, i: int, j: int)
    requires -1 <= i <= 1 && -1 <= j <= 1
    ensures NineAt(NineOf(f, x, z), i, j) == f(x + i, z + j)
  {
  }

  /** A neighbourhood shows a plane around a cell. */
  ghost predicate Shows(n: Nine, f: Plane, x: int, z: int) {
    forall i, j :: -1 <= i <= 1 && -1 <= j <= 1 ==> NineAt(n, i, j) == f(x + i, z + j)
  }

  /** What a rule that looks at neighbours is given: the parent's values around the cell, and the
      second parent's value at it. */
  lemma {:induction false} RulesSee(l: Layer, x: int, z: int, n: Nine)
    requires HasParent(l) && Shows(n, Meaning(l.p), x, z)
    ensures l.Cell? ==> Value(l, x, z) == l.cell(x, z, Value(l.p, x, z))
    ensures l.RiverMix? ==> Value(l, x, z) == l.mix(Value(l.p, x, z), Value(l.p2, x, z))
    ensures l.Stencil? ==> Value(l, x, z) == l.near(x, z, n)
    ensures l.Hills? ==> Value(l, x, z) == l.hill(x, z, n, Value(l.p2, x, z))
    ensures l.Shore? && l.shore(x, z, n).Write? ==> Value(l, x, z) == l.shore(x, z, n).v
    ensures l.Land? ==> Value(l, x, z) == l.corner(x, z, Five(n.v00, n.v20, n.v02, n.v22, n.v11))
  {
    ShownIs(n, Meaning(l.p), x, z);
  }

  lemma ShownIs(n: Nine, f: Plane, x: int, z: int)
    requires Shows(n, f, x, z)
    ensures n == NineOf(f, x, z)
  {
    assert NineAt(n, -1, -1) == f(x - 1, z - 1) && NineAt(n, 0, -1) == f(x, z - 1) && NineAt(n, 1, -1) == f(x + 1, z - 1);
    assert NineAt(n, -1, 0) == f(x - 1, z) && NineAt(n, 0, 0) == f(x, z) && NineAt(n, 1, 0) == f(x + 1, z);
    assert NineAt(n, -1, 1) == f(x - 1, z + 1) && NineAt(n, 0, 1) == f(x, z + 1) && NineAt(n, 1, 1) == f(x + 1, z + 1);
  }

  /** The island layer turns open ocean into land, and nothing else. */
  lemma IslandMeans(l: Layer, x: int, z: int)
    requires l.Island?
    ensures var f := Meaning(l.p);
      Value(l, x, z) != f(x, z) <==>
        l.open(x, z) && f(x, z) == OCEAN && f(x - 1, z) == OCEAN && f(x + 1, z) == OCEAN
        && f(x, z - 1) == OCEAN && f(x, z + 1) == OCEAN
    ensures Value(l, x, z) != Meaning(l.p)(x, z) ==> Value(l, x, z) == 1
  {
    hide Meaning;
  }

  lemma ContinentMeans(l: Layer, x: int, z: int)
    requires l.Continent?
    ensures Value(l, x, z) == (if (x == 0 && z == 0) || l.land(x, z) then 1 else 0)
  {
  }

  /** Land at a distance from a cell. */
  predicate LandAt(f: Plane, x: int, z: int, dx: int, dz: int) { !IsOceanic(f(x + dx, z + dz)) }

  /** The shore test looks at the 25 cells whose distances on both axes are -8, -4, 0, 4 or 8. */
  lemma ShoreNearMeans(f: Plane, x: int, z: int)
    ensures ShoreNear(f, x, z) <==>
      exists dx, dz :: -8 <= dx <= 8 && -8 <= dz <= 8 && dx % 4 == 0 && dz % 4 == 0 && LandAt(f, x, z, dx, dz)
  {
    hide IsOceanic;
    if dx, dz :| -8 <= dx <= 8 && -8 <= dz <= 8 && dx % 4 == 0 && dz % 4 == 0 && LandAt(f, x, z, dx, dz) {
      var a: nat, b: nat := (dx + 8) / 4, (dz + 8) / 4;
      assert !OceanAt(f, x, z, a, b);
    }
    if ShoreNear(f, x, z) {
      var a: nat, b: nat :| a < 5 && b < 5 && !OceanAt(f, x, z, a, b);
      assert LandAt(f, x, z, 4 * a - 8, 4 * b - 8);
    }
  }

  /** The mix keeps land and sea apart, keeps warm and frozen ocean away from every shore, and is
      deep where the land plane is. */
  lemma {:induction false} OceanMixMeans(l: Layer, x: int, z: int)
    requires l.OceanMix?
    ensures var land, sea, v := Meaning(l.p)(x, z), Meaning(l.p2)(x, z), Value(l, x, z);
      && (!IsOceanic(land) ==> v == land)
      && (IsOceanic(sea) ==> (IsOceanic(v) <==> IsOceanic(land)))
      && (IsOceanic(land) && v in {WARM_OCEAN, FROZEN_OCEAN} ==> !ShoreNear(Meaning(l.p), x, z) && v == sea)
      && (IsOceanic(land) && ShoreNear(Meaning(l.p), x, z) && sea == WARM_OCEAN ==> v == LUKEWARM_OCEAN)
      && (IsOceanic(land) && ShoreNear(Meaning(l.p), x, z) && sea == FROZEN_OCEAN ==> v == COLD_OCEAN)
      && (IsOceanic(land) && land != DEEP_OCEAN && (sea !in {WARM_OCEAN, FROZEN_OCEAN} || !ShoreNear(Meaning(l.p), x, z)) ==>
            v == sea)
      && (land == DEEP_OCEAN && sea == OCEAN ==> v == DEEP_OCEAN)
      && (land == DEEP_OCEAN && sea == COLD_OCEAN ==> v == DEEP_COLD_OCEAN)
      && (land == DEEP_OCEAN && sea == LUKEWARM_OCEAN ==> v == DEEP_LUKEWARM_OCEAN)
      && (land == DEEP_OCEAN && sea == FROZEN_OCEAN && !ShoreNear(Meaning(l.p), x, z) ==> v == DEEP_FROZEN_OCEAN)
      && (land == DEEP_OCEAN && sea == WARM_OCEAN && !ShoreNear(Meaning(l.p), x, z) ==> v == WARM_OCEAN)
  {
    hide ShoreNear, Meaning;
  }

  /** The squared distance of a cell to the jittered point of a parent cell, in 10240ths of a cell
      and without reference to blocks. */
  function PointDist(jit: Shifts, x: int, z: int, cx: int, cz: int): int {
    var s := jit(cx, cz);
    Square(10240 * (x - 2) - 40960 * cx - s.x) + Square(10240 * (z - 2) - 40960 * cz - s.z)
  }

  lemma ShiftDistMeans(jit: Shifts, x: int, z: int, a: int, b: int)
    ensures var px, pz := (x - 2) / 4, (z - 2) / 4;
      ShiftDist(jit, px, pz, a, b, (x - 2) % 4, (z - 2) % 4) == PointDist(jit, x, z, px + a, pz + b)
  {
    hide Square;
    assert x - 2 == 4 * ((x - 2) / 4) + (x - 2) % 4 && z - 2 == 4 * ((z - 2) / 4) + (z - 2) % 4;
  }

  /** One of the four parent cells around a cell. */
  predicate InFour(x: int, z: int, cx: int, cz: int) {
    0 <= cx - (x - 2) / 4 <= 1 && 0 <= cz - (z - 2) / 4 <= 1
  }

  /** One of the four that is nearer than the other three. */
  ghost predicate Closest(jit: Shifts, x: int, z: int, cx: int, cz: int) {
    InFour(x, z, cx, cz)
    && forall c, d :: InFour(x, z, c, d) && (c != cx || d != cz) ==> PointDist(jit, x, z, cx, cz) < PointDist(jit, x, z, c, d)
  }

  /** The Voronoi layer holds the value of the parent cell with the nearest point, and in the
      case of a tie that of the last of the four. */
  lemma {:induction false} VoronoiMeans(l: Layer, x: int, z: int)
    requires l.Voronoi?
    ensures forall cx, cz :: Closest(l.jit, x, z, cx, cz) ==> Value(l, x, z) == Meaning(l.p)(cx, cz)
    ensures (forall cx, cz :: !Closest(l.jit, x, z, cx, cz)) ==>
      Value(l, x, z) == Meaning(l.p)((x - 2) / 4 + 1, (z - 2) / 4 + 1)
  {
    hide Meaning, ShiftDist, PointDist;
    var px, pz := (x - 2) / 4, (z - 2) / 4;
    ShiftDistMeans(l.jit, x, z, 0, 0);
    ShiftDistMeans(l.jit, x, z, 1, 0);
    ShiftDistMeans(l.jit, x, z, 0, 1);
    ShiftDistMeans(l.jit, x, z, 1, 1);
    CellMeans(l, x, z);
    assert InFour(x, z, px, pz) && InFour(x, z, px + 1, pz) && InFour(x, z, px, pz + 1) && InFour(x, z, px + 1, pz + 1);
    assert Closest(l.jit, x, z, px, pz) || Closest(l.jit, x, z, px + 1, pz) || Closest(l.jit, x, z, px, pz + 1)
      || Value(l, x, z) == Meaning(l.p)(px + 1, pz + 1);
  }

  lemma CellMeans(l: Layer, x: int, z: int)
    requires l.Voronoi?
    ensures var px, pz, ii, jj, f := (x - 2) / 4, (z - 2) / 4, (x - 2) % 4, (z - 2) % 4, Meaning(l.p);
      Value(l, x, z) == NearestOf(ShiftDist(l.jit, px, pz, 0, 0, ii, jj), ShiftDist(l.jit, px, pz, 1, 0, ii, jj),
                                  ShiftDist(l.jit, px, pz, 0, 1, ii, jj), ShiftDist(l.jit, px, pz, 1, 1, ii, jj),
                                  f(px, pz), f(px + 1, pz), f(px, pz + 1), f(px + 1, pz + 1))
  {
    hide Meaning, ShiftDist, NearestOf;
  }
}
