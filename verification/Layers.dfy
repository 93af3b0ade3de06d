/** The layer tree of the pre-1.18 biome generator and what a layer means. */
module Layers {

  const OCEAN := 0
  const FROZEN_OCEAN := 10
  const DEEP_OCEAN := 24
  const WARM_OCEAN := 44
  const LUKEWARM_OCEAN := 45
  const COLD_OCEAN := 46
  const DEEP_WARM_OCEAN := 47
  const DEEP_LUKEWARM_OCEAN := 48
  const DEEP_COLD_OCEAN := 49
  const DEEP_FROZEN_OCEAN := 50

  predicate IsOceanic(id: int) {
    id in {OCEAN, FROZEN_OCEAN, WARM_OCEAN, LUKEWARM_OCEAN, COLD_OCEAN, DEEP_OCEAN,
           DEEP_WARM_OCEAN, DEEP_LUKEWARM_OCEAN, DEEP_COLD_OCEAN, DEEP_FROZEN_OCEAN}
  }

  /** A 3x3 neighbourhood; the first digit is the column, the second the row. */
  datatype Nine = Nine(v00: int, v10: int, v20: int,
                       v01: int, v11: int, v21: int,
                       v02: int, v12: int, v22: int)

  /** A cell with its four diagonal neighbours. */
  datatype Five = Five(v00: int, v20: int, v02: int, v22: int, v11: int)

  /** The three draws a zoom layer makes at an even coordinate pair. */
  datatype ZoomDraw = ZoomDraw(down: bool, right: bool, quad: int)

  /** What a rule comes to that may leave its cell as it finds it. */
  datatype Written = Write(v: int) | Keep

  /** The jitter of a parent cell of the Voronoi layer: two numbers drawn from its chunk seed. */
  datatype Shift = Shift(x: int, z: int)

  type Shifts = (int, int) -> Shift

  /** A layer with its per-cell rule and its parents. Rules may look at the absolute
      coordinates of the cell, which is where chunk seeds enter. A one-to-one layer has the
      border that the layer stack gives it, although it asks for none. */
  datatype Layer =
    | Continent(land: (int, int) -> bool)
    | OceanTemp(temp: (int, int) -> int)
    | Cell(cell: (int, int, int) -> int, edge: nat, p: Layer)
    | Stencil(near: (int, int, Nine) -> int, p: Layer)
    | Shore(shore: (int, int, Nine) -> Written, p: Layer)
    | Land(corner: (int, int, Five) -> int, p: Layer)
    | Island(open: (int, int) -> bool, p: Layer)
    | Zoom(fuzzy: bool, draw: (int, int) -> ZoomDraw, p: Layer)
    | Hills(hill: (int, int, Nine, int) -> int, p: Layer, p2: Layer)
    | RiverMix(mix: (int, int) -> int, p: Layer, p2: Layer)
    | OceanMix(p: Layer, p2: Layer)
    | Voronoi(jit: Shifts, p: Layer)

  /** The majority of the four corners of a zoomed cell, with a draw to break ties. */
  function Select4(quad: int, v00: int, v01: int, v10: int, v11: int): int {
    var cv00 := Bit(v00 == v10) + Bit(v00 == v01) + Bit(v00 == v11);
    var cv10 := Bit(v10 == v01) + Bit(v10 == v11);
    var cv01 := Bit(v01 == v11);
    if cv00 > cv10 && cv00 > cv01 then v00
    else if cv10 > cv00 then v10
    else if cv01 > cv00 then v01
    else Quarter(quad, v00, v01, v10, v11)
  }

  function Bit(b: bool): int { if b then 1 else 0 }

  function Quarter(quad: int, v00: int, v01: int, v10: int, v11: int): int {
    if quad == 0 then v00 else if quad == 1 then v10 else if quad == 2 then v01 else v11
  }

  /** The cell of a zoomed 2x2 block, given the four parent cells around it. */
  function ZoomCell(fuzzy: bool, d: ZoomDraw, right: bool, down: bool,
                    v00: int, v01: int, v10: int, v11: int): int {
    if !right && !down then v00
    else if !right then (if d.down then v01 else v00)
    else if !down then (if d.right then v10 else v00)
    else if fuzzy then Quarter(d.quad, v00, v01, v10, v11)
    else Select4(d.quad, v00, v01, v10, v11)
  }

  /** The ocean variant under a land cell that is oceanic and far from any shore. */
  function DeepVariant(land: int, ocean: int): int {
    if land != DEEP_OCEAN then ocean
    else if ocean == LUKEWARM_OCEAN then DEEP_LUKEWARM_OCEAN
    else if ocean == OCEAN then DEEP_OCEAN
    else if ocean == COLD_OCEAN then DEEP_COLD_OCEAN
    else if ocean == FROZEN_OCEAN then DEEP_FROZEN_OCEAN
    else ocean
  }

  predicate Buffered(ocean: int) { ocean == WARM_OCEAN || ocean == FROZEN_OCEAN }

  function Temperate(ocean: int): int {
    if ocean == WARM_OCEAN then LUKEWARM_OCEAN else COLD_OCEAN
  }

  type Plane = (int, int) -> int

  function NineOf(f: Plane, x: int, z: int): Nine {
    Nine(f(x - 1, z - 1), f(x, z - 1), f(x + 1, z - 1),
         f(x - 1, z), f(x, z), f(x + 1, z),
         f(x - 1, z + 1), f(x, z + 1), f(x + 1, z + 1))
  }

  function CornersOf(f: Plane, x: int, z: int): Five {
    Five(f(x - 1, z - 1), f(x + 1, z - 1), f(x - 1, z + 1), f(x + 1, z + 1), f(x, z))
  }

  /** The rule of each layer kind: one cell of the layer from the whole planes that its
      parents hold. It names no window and no buffer. */
  function LandRule(corner: (int, int, Five) -> int, f: Plane, x: int, z: int): int {
    corner(x, z, CornersOf(f, x, z))
  }

  function IslandRule(open: (int, int) -> bool, f: Plane, x: int, z: int): int {
    if f(x, z) == f(x, z - 1) == f(x + 1, z) == f(x - 1, z) == f(x, z + 1) == OCEAN && open(x, z)
    then 1 else f(x, z)
  }

  function ZoomRule(fuzzy: bool, draw: (int, int) -> ZoomDraw, f: Plane, x: int, z: int): int {
    ZoomCell(fuzzy, draw(x / 2 * 2, z / 2 * 2), x % 2 == 1, z % 2 == 1,
             f(x / 2, z / 2), f(x / 2, z / 2 + 1), f(x / 2 + 1, z / 2), f(x / 2 + 1, z / 2 + 1))
  }

  /** Whether the cell `4 * a - 8` columns and `4 * b - 8` rows away is oceanic. */
  predicate OceanAt(f: Plane, x: int, z: int, a: nat, b: nat) {
    IsOceanic(f(x - 8 + 4 * a, z - 8 + 4 * b))
  }

  ghost predicate ShoreNear(f: Plane, x: int, z: int) {
    exists a: nat, b: nat :: a < 5 && b < 5 && !OceanAt(f, x, z, a, b)
  }

  ghost function OceanMixRule(f: Plane, f2: Plane, x: int, z: int): int {
    if !IsOceanic(f(x, z)) then f(x, z)
    else if Buffered(f2(x, z)) && ShoreNear(f, x, z) then Temperate(f2(x, z))
    else DeepVariant(f(x, z), f2(x, z))
  }

  /** The distance of a cell of a Voronoi block to the jittered corner (a, b) of the block. */
  function ShiftDist(jit: Shifts, px: int, pz: int, a: int, b: int, ii: int, jj: int): int {
    var s := jit(px + a, pz + b);
    Square(10240 * ii - (s.x + 40 * 1024 * a)) + Square(10240 * jj - (s.z + 40 * 1024 * b))
  }

  function Square(a: int): int { a * a }

  /** The value of the strictly nearest corner; ties fall to the last one. */
  function NearestOf(da: int, db: int, dc: int, dd: int, v00: int, v10: int, v01: int, v11: int): int {
    if da < db && da < dc && da < dd then v00
    else if db < da && db < dc && db < dd then v10
    else if dc < da && dc < db && dc < dd then v01
    else v11
  }

  /** The cells of a block of four by four with the given values at its corners. */
  function BlockRule(jit: Shifts, px: int, pz: int, v00: int, v10: int, v01: int, v11: int): Plane {
    (ii, jj) => NearestOf(ShiftDist(jit, px, pz, 0, 0, ii, jj), ShiftDist(jit, px, pz, 1, 0, ii, jj),
                          ShiftDist(jit, px, pz, 0, 1, ii, jj), ShiftDist(jit, px, pz, 1, 1, ii, jj),
                          v00, v10, v01, v11)
  }

  function BlockCell(jit: Shifts, f: Plane, px: int, pz: int, ii: int, jj: int): int {
    BlockRule(jit, px, pz, f(px, pz), f(px + 1, pz), f(px, pz + 1), f(px + 1, pz + 1))(ii, jj)
  }

  function VoronoiRule(jit: Shifts, f: Plane, x: int, z: int): int {
    BlockCell(jit, f, (x - 2) / 4, (z - 2) / 4, (x - 2) % 4, (z - 2) % 4)
  }

  /** The value a rule writes; a cell that is not written has none of its own. */
  function ValueOf(r: Written): int {
    match r
    case Write(v) => v
    case Keep => OCEAN
  }

  /** One cell of a layer from the planes that its parents hold. */
  ghost function Rule(l: Layer, f: Plane, f2: Plane, x: int, z: int): int {
    match l
    case Continent(land) => if x == 0 && z == 0 then 1 else Bit(land(x, z))
    case OceanTemp(temp) => temp(x, z)
    case Cell(cell, _, _) => cell(x, z, f(x, z))
    case Stencil(near, _) => near(x, z, NineOf(f, x, z))
    case Shore(shore, _) => ValueOf(shore(x, z, NineOf(f, x, z)))
    case Land(corner, _) => LandRule(corner, f, x, z)
    case Island(open, _) => IslandRule(open, f, x, z)
    case Zoom(fuzzy, draw, _) => ZoomRule(fuzzy, draw, f, x, z)
    case Hills(hill, _, _) => hill(x, z, NineOf(f, x, z), f2(x, z))
    case RiverMix(mix, _, _) => mix(f(x, z), f2(x, z))
    case OceanMix(_, _) => OceanMixRule(f, f2, x, z)
    case Voronoi(jit, _) => VoronoiRule(jit, f, x, z)
  }

  ghost function Ruled(l: Layer, f: Plane, f2: Plane): Plane {
    (x, z) => Rule(l, f, f2, x, z)
  }

  /** What a layer holds at an absolute position: its rule, applied to what its parents hold. */
  ghost function Value(l: Layer, x: int, z: int): int
    decreases l, 0
  {
    if !HasParent(l) then Rule(l, NOTHING, NOTHING, x, z)
    else Rule(l, Meaning(l.p), if TwoParents(l) then Meaning(l.p2) else NOTHING, x, z)
  }

  const NOTHING: Plane := (x, z) => 0

  /** The layer as a plane of cells. */
  ghost function Meaning(l: Layer): Plane
    decreases l, 1
  {
    (x, z) => Value(l, x, z)
  }

  /** No shore layer of the tree leaves a cell unwritten. */
  ghost predicate Settled(l: Layer)
    decreases l
  {
    HasParent(l) ==>
      && Settled(l.p) && (TwoParents(l) ==> Settled(l.p2))
      && (l.Shore? ==> forall x, z :: l.shore(x, z, NineOf(Meaning(l.p), x, z)).Write?)
  }

  /** Zoom factor and border of a layer, as the layer stack sets them up. */
  function Scale(l: Layer): (s: nat) {
    if l.Zoom? then 2 else if l.Voronoi? then 4 else 1
  }

  function Edge(l: Layer): nat {
    match l
    case Continent(_) => 0
    case OceanTemp(_) => 0
    case Cell(_, edge, _) => edge
    case Stencil(_, _) => 2
    case Shore(_, _) => 2
    case Land(_, _) => 2
    case Island(_, _) => 2
    case Zoom(_, _, _) => 3
    case Hills(_, _, _) => 2
    case RiverMix(_, _, _) => 0
    case OceanMix(_, _) => 17
    case Voronoi(_, _) => 3
  }

  predicate TwoParents(l: Layer) { l.Hills? || l.RiverMix? || l.OceanMix? }

  predicate HasParent(l: Layer) { !l.Continent? && !l.OceanTemp? }
}
