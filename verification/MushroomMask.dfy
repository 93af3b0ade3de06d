/** The block grid of measure_1to1 (cpu.cpp): a coarse grid of mushroom cells, a dilated mask
    that saves most Voronoi lookups, and the Voronoi access itself (layers.c). */
module MushroomMask {
  import opened Common
  import opened Rows
  import opened Components
  import opened Flood

  /** The jitter of a coarse cell: a function of the cell, drawn from the world's hash. */
  type Jitter = (int, int, int) -> Pos3

  /** The coarse cell number `i` of the eight around a block that is shifted by two. */
  function Corner(x: int, y: int, z: int, i: nat): Pos3 {
    Pos3((x - 2) / 4 + (if i / 4 % 2 == 1 then 1 else 0),
         (y - 2) / 4 + (if i / 2 % 2 == 1 then 1 else 0),
         (z - 2) / 4 + (if i % 2 == 1 then 1 else 0))
  }

  /** One coordinate of the squared distance: jitter, place in the cell, and cell. */
  function Offset(jitter: int, c: int, base: int): int {
    jitter + (c - 2) % 4 * 10240 - 40 * 1024 * (base - (c - 2) / 4)
  }

  function CornerDist(jit: Jitter, x: int, y: int, z: int, i: nat): int {
    var c := Corner(x, y, z, i);
    var r := jit(c.x, c.y, c.z);
    var rx, ry, rz := Offset(r.x, x, c.x), Offset(r.y, y, c.y), Offset(r.z, z, c.z);
    rx * rx + ry * ry + rz * rz
  }

  /** The number of the nearest corner, the first of several equally near. */
  ghost predicate Nearest(jit: Jitter, x: int, y: int, z: int, n: nat, i: nat) {
    i < n && (forall j: nat :: j < n ==> CornerDist(jit, x, y, z, i) <= CornerDist(jit, x, y, z, j))
    && (forall j: nat :: j < i ==> CornerDist(jit, x, y, z, i) < CornerDist(jit, x, y, z, j))
  }

  /** The scan of the corners from the first one on. */
  function NearestCorner(jit: Jitter, x: int, y: int, z: int, n: nat): (i: nat)
    requires n > 0
    ensures Nearest(jit, x, y, z, n, i)
  {
    if n == 1 then 0
    else
      var i := NearestCorner(jit, x, y, z, n - 1);
      if CornerDist(jit, x, y, z, n - 1) < CornerDist(jit, x, y, z, i) then n - 1 else i
  }

  /** The coarse cell that a block belongs to. */
  function VoronoiCell(jit: Jitter, x: int, y: int, z: int): (r: Pos3)
    ensures 0 <= r.x - (x - 2) / 4 <= 1 && 0 <= r.y - (y - 2) / 4 <= 1 && 0 <= r.z - (z - 2) / 4 <= 1
  {
    Corner(x, y, z, NearestCorner(jit, x, y, z, 8))
  }

  function Square(a: int): int { a * a }

  /** The squared distance of a block to the jittered point of a coarse cell, in 10240ths of a
      block and without reference to corners. */
  function CellDist(jit: Jitter, x: int, y: int, z: int, c: Pos3): int {
    var r := jit(c.x, c.y, c.z);
    Square(10240 * (x - 2) - 40960 * c.x + r.x) + Square(10240 * (y - 2) - 40960 * c.y + r.y)
    + Square(10240 * (z - 2) - 40960 * c.z + r.z)
  }

  lemma CornerDistMeans(jit: Jitter, x: int, y: int, z: int, i: nat)
    ensures CornerDist(jit, x, y, z, i) == CellDist(jit, x, y, z, Corner(x, y, z, i))
  {
    hide Offset, Corner;
    var c := Corner(x, y, z, i);
    var r := jit(c.x, c.y, c.z);
    OffsetMeans(r.x, x, c.x);
    OffsetMeans(r.y, y, c.y);
    OffsetMeans(r.z, z, c.z);
  }

  lemma OffsetMeans(jitter: int, c: int, base: int)
    ensures Offset(jitter, c, base) == 10240 * (c - 2) - 40960 * base + jitter
  {
  }

  /** One of the eight coarse cells around a block. */
  predicate InEight(x: int, y: int, z: int, c: Pos3) {
    0 <= c.x - (x - 2) / 4 <= 1 && 0 <= c.y - (y - 2) / 4 <= 1 && 0 <= c.z - (z - 2) / 4 <= 1
  }

  predicate Precedes(a: Pos3, b: Pos3) {
    a.x < b.x || (a.x == b.x && (a.y < b.y || (a.y == b.y && a.z < b.z)))
  }

  lemma CornerOf(x: int, y: int, z: int, c: Pos3) returns (i: nat)
    requires InEight(x, y, z, c)
    ensures i < 8 && Corner(x, y, z, i) == c
    ensures forall j: nat :: j < 8 ==> (j < i <==> Precedes(Corner(x, y, z, j), c))
  {
    i := (c.x - (x - 2) / 4) * 4 + (c.y - (y - 2) / 4) * 2 + (c.z - (z - 2) / 4);
  }

  /** The cell of a block: of the eight around it the one with the nearest point, and of several
      equally near ones the first. */
  ghost predicate NearestCell(jit: Jitter, x: int, y: int, z: int, r: Pos3) {
    InEight(x, y, z, r)
    && forall c :: InEight(x, y, z, c) && c != r ==>
         CellDist(jit, x, y, z, r) < CellDist(jit, x, y, z, c)
         || (CellDist(jit, x, y, z, r) == CellDist(jit, x, y, z, c) && Precedes(r, c))
  }

  lemma {:induction false} CellIsNearest(jit: Jitter, x: int, y: int, z: int)
    ensures NearestCell(jit, x, y, z, VoronoiCell(jit, x, y, z))
  {
    hide CornerDist, CellDist, Corner;
    var n := NearestCorner(jit, x, y, z, 8);
    var r := Corner(x, y, z, n);
    CornerDistMeans(jit, x, y, z, n);
    forall c | InEight(x, y, z, c) && c != r
      ensures CellDist(jit, x, y, z, r) < CellDist(jit, x, y, z, c)
           || (CellDist(jit, x, y, z, r) == CellDist(jit, x, y, z, c) && Precedes(r, c))
    {
      var i := CornerOf(x, y, z, c);
      CornerDistMeans(jit, x, y, z, i);
      assert Nearest(jit, x, y, z, 8, n);
    }
  }

  /** Without jitter the cells are cubes of four blocks, from 4 c + 1 to 4 c + 4 on each axis. */
  lemma UnjitteredCell(jit: Jitter, x: int, y: int, z: int)
    requires forall a, b, c :: jit(a, b, c) == Pos3(0, 0, 0)
    ensures VoronoiCell(jit, x, y, z) == Pos3((x - 1) / 4, (y - 1) / 4, (z - 1) / 4)
  {
    hide VoronoiCell, Square;
    CellIsNearest(jit, x, y, z);
    var r, c := VoronoiCell(jit, x, y, z), Pos3((x - 1) / 4, (y - 1) / 4, (z - 1) / 4);
    OnAxis(x, r.x);
    OnAxis(y, r.y);
    OnAxis(z, r.z);
    assert InEight(x, y, z, c);
    assert CellDist(jit, x, y, z, c) <= CellDist(jit, x, y, z, r);
  }

  lemma OnAxis(x: int, c: int)
    requires 0 <= c - (x - 2) / 4 <= 1
    ensures var near := (x - 1) / 4;
      && 0 <= near - (x - 2) / 4 <= 1 && Square(10240 * (x - 2) - 40960 * near) <= Square(10240 * (x - 2) - 40960 * c)
      && (c < near ==> Square(10240 * (x - 2) - 40960 * near) < Square(10240 * (x - 2) - 40960 * c))
  {
    hide Square;
    SquareOrder(10240 * (x - 2) - 40960 * ((x - 1) / 4), 10240 * (x - 2) - 40960 * c);
  }

  lemma SquareOrder(a: int, b: int)
    ensures -b <= a <= b || b <= a <= -b ==> Square(a) <= Square(b)
    ensures -b < a < b || b < a < -b ==> Square(a) < Square(b)
  {
    assert b * b - a * a == (b - a) * (b + a);
  }

  method VoronoiAccess3D(jit: Jitter, x: int, y: int, z: int) returns (r: Pos3)
    ensures r == VoronoiCell(jit, x, y, z) && NearestCell(jit, x, y, z, r)
  {
    hide CornerDist, NearestCell;
    CellIsNearest(jit, x, y, z);
    r := Corner(x, y, z, 0);
    var dmin := CornerDist(jit, x, y, z, 0);
    for i := 1 to 8
      invariant r == Corner(x, y, z, NearestCorner(jit, x, y, z, i))
      invariant dmin == CornerDist(jit, x, y, z, NearestCorner(jit, x, y, z, i))
    {
      var d := CornerDist(jit, x, y, z, i);
      if d < dmin {
        dmin, r := d, Corner(x, y, z, i);
      }
    }
  }

  /** Whether a coarse cell is mushroom, at one of the two heights that occur. */
  type Coarse = (int, int) -> bool

  /** Whether a block passes: its Voronoi cell at sea level is mushroom in the layer of that
      cell's height. */
  predicate Passes(jit: Jitter, m15: Coarse, m16: Coarse, x: int, z: int) {
    var r := VoronoiCell(jit, x, 62, z);
    if r.y == 15 then m15(r.x, r.z) else m16(r.x, r.z)
  }

  /** A block passes when the nearest cell at sea level is mushroom in the layer of its height. */
  lemma {:induction false} PassesMeans(jit: Jitter, m15: Coarse, m16: Coarse, x: int, z: int)
    ensures Passes(jit, m15, m16, x, z) <==>
      exists r :: NearestCell(jit, x, 62, z, r) && ((r.y == 15 && m15(r.x, r.z)) || (r.y == 16 && m16(r.x, r.z)))
  {
    hide CellDist, VoronoiCell;
    CellIsNearest(jit, x, 62, z);
    forall r | NearestCell(jit, x, 62, z, r) ensures r == VoronoiCell(jit, x, 62, z) {
      assert InEight(x, 62, z, r) && InEight(x, 62, z, VoronoiCell(jit, x, 62, z));
    }
  }

  function Island(jit: Jitter, m15: Coarse, m16: Coarse): Region {
    (c: Cell) => Passes(jit, m15, m16, c.x, c.z)
  }

  /** Division by four that truncates towards zero. */
  function Quarter(a: int): int { if a >= 0 then a / 4 else -(-a / 4) }

  /** The coarse grid for a window: where it starts and how wide it is. */
  function GridStart(o: int): int { Quarter(o - 8) }

  function GridSide(radius: nat): nat { 2 * radius / 4 + 4 }

  /** Neither the naive cell of a block of the window nor the next one is off the grid. */
  lemma NaiveInGrid(o: int, radius: nat, i: nat)
    requires i < 2 * radius
    ensures 0 <= (o + i - 2) / 4 - GridStart(o) && (o + i - 2) / 4 + 1 - GridStart(o) < GridSide(radius)
  {
  }

  /** Cell (i, j) of a grid. */
  predicate On(s: seq<bool>, n: nat, i: nat, j: nat) {
    Index(n, j, i) < |s| && s[Index(n, j, i)]
  }

  /** The grid holds the coarse layer. */
  ghost predicate Holds(a: seq<bool>, m: Coarse, ox: int, oz: int, n: nat) {
    |a| == Area(n, n) && forall i: nat, j: nat :: i < n && j < n ==> On(a, n, i, j) == m(ox + i, oz + j)
  }

  /** Nothing that was marked has been unmarked. */
  ghost predicate Kept(s: seq<bool>, t: seq<bool>) {
    |s| == |t| && forall k :: 0 <= k < |s| && s[k] ==> t[k]
  }

  lemma OnKept(s: seq<bool>, t: seq<bool>, n: nat)
    requires Kept(s, t)
    ensures forall i: nat, j: nat :: On(s, n, i, j) ==> On(t, n, i, j)
  {
  }

  /** The mask covers the grid cells around (i, j). */
  ghost predicate Around(mask: seq<bool>, n: nat, i: nat, j: nat) {
    forall a: nat, b: nat :: a < n && b < n && i - 1 <= a <= i + 1 && j - 1 <= b <= j + 1 ==> On(mask, n, a, b)
  }

  lemma IndexFits(n: nat, j: nat, i: nat)
    requires i < n && j < n
    ensures Index(n, j, i) < Area(n, n)
  {
    RowWithin(n, n, j);
  }

  method MarkRow(mask: array<bool>, n: nat, i: nat, nj: nat)
    requires mask.Length == Area(n, n) && i < n && nj < n
    modifies mask
    ensures Kept(old(mask[..]), mask[..])
    ensures forall a: nat :: a < n && i - 1 <= a <= i + 1 ==> On(mask[..], n, a, nj)
  {
    for di := -1 to 2
      invariant Kept(old(mask[..]), mask[..])
      invariant forall a: nat :: a < n && i - 1 <= a < i + di ==> On(mask[..], n, a, nj)
    {
      var ni := i + di;
      if ni < 0 || ni >= n { continue; }
      IndexFits(n, nj, ni);
      ghost var s := mask[..];
      mask[Index(n, nj, ni)] := true;
      OnKept(s, mask[..], n);
    }
  }

  /** Mark a cell and its neighbours, as far as they are on the grid. */
  method MarkAround(mask: array<bool>, n: nat, i: nat, j: nat)
    requires mask.Length == Area(n, n) && i < n && j < n
    modifies mask
    ensures Around(mask[..], n, i, j) && Kept(old(mask[..]), mask[..])
  {
    for dj := -1 to 2
      invariant Kept(old(mask[..]), mask[..])
      invariant forall a: nat, b: nat :: a < n && b < n && i - 1 <= a <= i + 1 && j - 1 <= b < j + dj ==>
        On(mask[..], n, a, b)
    {
      var nj := j + dj;
      if nj < 0 || nj >= n { continue; }
      ghost var s := mask[..];
      MarkRow(mask, n, i, nj);
      OnKept(s, mask[..], n);
    }
  }

  /** The mask has no gaps around mushroom cells in the rows before `j` and, in row `j`, the
      columns before `i`. */
  ghost predicate Dilated(mask: seq<bool>, a: seq<bool>, b: seq<bool>, n: nat, i: int, j: int) {
    forall c: nat, d: nat ::
      c < n && d < n && (d < j || (d == j && c < i)) && (On(a, n, c, d) || On(b, n, c, d)) ==> Around(mask, n, c, d)
  }

  lemma DilatedKept(s: seq<bool>, t: seq<bool>, a: seq<bool>, b: seq<bool>, n: nat, i: int, j: int)
    requires Dilated(s, a, b, n, i, j) && Kept(s, t)
    ensures Dilated(t, a, b, n, i, j)
  {
    OnKept(s, t, n);
    forall c: nat, d: nat | c < n && d < n && (d < j || (d == j && c < i)) && (On(a, n, c, d) || On(b, n, c, d))
      ensures Around(t, n, c, d)
    {
      assert Around(s, n, c, d);
    }
  }

  method Dilate(a: array<bool>, b: array<bool>, n: nat) returns (mask: array<bool>)
    requires a.Length == Area(n, n) && b.Length == Area(n, n)
    ensures fresh(mask) && mask.Length == Area(n, n)
    ensures Dilated(mask[..], a[..], b[..], n, 0, n)
  {
    mask := new bool[Area(n, n)](_ => false);
    for j := 0 to n
      invariant Dilated(mask[..], a[..], b[..], n, 0, j)
    {
      for i := 0 to n
        invariant Dilated(mask[..], a[..], b[..], n, i, j)
      {
        IndexFits(n, j, i);
        if !a[Index(n, j, i)] && !b[Index(n, j, i)] { continue; }
        ghost var s := mask[..];
        MarkAround(mask, n, i, j);
        DilatedKept(s, mask[..], a[..], b[..], n, i, j);
      }
    }
  }

  /** The grid holds the coarse layer before row `j`, column `i`. */
  ghost predicate HoldsTo(a: seq<bool>, m: Coarse, ox: int, oz: int, n: nat, i: nat, j: nat) {
    |a| == Area(n, n) &&
    forall c: nat, d: nat :: c < n && d < n && (d < j || (d == j && c < i)) ==> On(a, n, c, d) == m(ox + c, oz + d)
  }

  lemma HoldsNext(a: seq<bool>, m: Coarse, ox: int, oz: int, n: nat, i: nat, j: nat)
    requires HoldsTo(a, m, ox, oz, n, i, j) && i < n && j < n && Index(n, j, i) < |a|
    ensures HoldsTo(a[Index(n, j, i) := m(ox + i, oz + j)], m, ox, oz, n, i + 1, j)
  {
    var t := a[Index(n, j, i) := m(ox + i, oz + j)];
    forall c: nat, d: nat | c < n && d < n && (d < j || (d == j && c < i + 1))
      ensures On(t, n, c, d) == m(ox + c, oz + d)
    {
      if d < j { RowWithin(n, j, d); }
      if c != i || d != j { assert On(a, n, c, d) == m(ox + c, oz + d); }
    }
  }

  method BuildGrid(m: Coarse, ox: int, oz: int, n: nat) returns (a: array<bool>)
    ensures fresh(a) && Holds(a[..], m, ox, oz, n)
  {
    a := new bool[Area(n, n)](_ => false);
    for j := 0 to n
      invariant HoldsTo(a[..], m, ox, oz, n, 0, j)
    {
      for i := 0 to n
        invariant HoldsTo(a[..], m, ox, oz, n, i, j)
      {
        IndexFits(n, j, i);
        HoldsNext(a[..], m, ox, oz, n, i, j);
        ghost var s := a[..];
        a[Index(n, j, i)] := m(ox + i, oz + j);
        assert a[..] == s[Index(n, j, i) := m(ox + i, oz + j)];
      }
    }
  }

  /** The cell of a block is on the grid, and so is its naive cell, which is at most one away. */
  lemma CellInGrid(jit: Jitter, ox: int, oz: int, radius: nat, i: nat, j: nat)
    requires i < 2 * radius && j < 2 * radius
    ensures var r := VoronoiCell(jit, ox + i, 62, oz + j); var n := GridSide(radius);
      var rx, rz := r.x - GridStart(ox), r.z - GridStart(oz);
      var gi, gj := (ox + i - 2) / 4 - GridStart(ox), (oz + j - 2) / 4 - GridStart(oz);
      && 0 <= rx < n && 0 <= rz < n && 0 <= gi < n && 0 <= gj < n
      && rx - 1 <= gi <= rx && rz - 1 <= gj <= rz && 15 <= r.y <= 16
  {
    hide Nearest, GridStart, GridSide;
    NaiveInGrid(ox, radius, i);
    NaiveInGrid(oz, radius, j);
    var r := VoronoiCell(jit, ox + i, 62, oz + j);
  }

  lemma GridHolds(a: seq<bool>, m: Coarse, ox: int, oz: int, n: nat, x: int, z: int)
    requires Holds(a, m, ox, oz, n) && 0 <= x - ox < n && 0 <= z - oz < n
    ensures Index(n, z - oz, x - ox) < |a| && On(a, n, x - ox, z - oz) == m(x, z)
  {
    IndexFits(n, z - oz, x - ox);
    var i: nat, j: nat := x - ox, z - oz;
    assert On(a, n, i, j) == m(ox + i, oz + j);
  }

  /** A block is never skipped when its cell is mushroom in either layer. */
  lemma SkipIsSafe(mask: seq<bool>, a: seq<bool>, b: seq<bool>, n: nat, rx: int, rz: int, gi: int, gj: int)
    requires Dilated(mask, a, b, n, 0, n) && 0 <= rx < n && 0 <= rz < n && 0 <= gi < n && 0 <= gj < n
    requires rx - 1 <= gi <= rx && rz - 1 <= gj <= rz
    ensures On(a, n, rx, rz) || On(b, n, rx, rz) ==> On(mask, n, gi, gj)
  {
    hide On;
    var c: nat, d: nat := rx, rz;
    assert On(a, n, c, d) || On(b, n, c, d) ==> Around(mask, n, c, d);
  }

  /** One block: skip the lookup when the mask rules it out. */
  method PassAt(jit: Jitter, a: array<bool>, b: array<bool>, mask: array<bool>, ox: int, oz: int,
                radius: nat, i: nat, j: nat, ghost m15: Coarse, ghost m16: Coarse) returns (p: bool)
    requires var n := GridSide(radius);
      && i < 2 * radius && j < 2 * radius && mask.Length == Area(n, n)
      && Holds(a[..], m15, GridStart(ox), GridStart(oz), n)
      && Holds(b[..], m16, GridStart(ox), GridStart(oz), n)
      && Dilated(mask[..], a[..], b[..], n, 0, n)
    ensures p == Passes(jit, m15, m16, ox + i, oz + j)
  {
    hide VoronoiCell, Holds, Dilated, GridStart, Index, Area;
    var n, ox4, oz4 := GridSide(radius), GridStart(ox), GridStart(oz);
    CellInGrid(jit, ox, oz, radius, i, j);
    ghost var r := VoronoiCell(jit, ox + i, 62, oz + j);
    var gi, gj := (ox + i - 2) / 4 - ox4, (oz + j - 2) / 4 - oz4;
    GridHolds(a[..], m15, ox4, oz4, n, r.x, r.z);
    GridHolds(b[..], m16, ox4, oz4, n, r.x, r.z);
    SkipIsSafe(mask[..], a[..], b[..], n, r.x - ox4, r.z - oz4, gi, gj);
    IndexFits(n, gj, gi);
    if gi < 0 || gi >= n || gj < 0 || gj >= n || !mask[Index(n, gj, gi)] {
      return false;
    }
    var v := VoronoiAccess3D(jit, ox + i, 62, oz + j);
    var gx, gz := v.x - ox4, v.z - oz4;
    if gx < 0 || gx >= n || gz < 0 || gz >= n {
      p := false;
    } else {
      p := if v.y <= 15 then a[Index(n, gz, gx)] else b[Index(n, gz, gx)];
    }
  }

  /** The block grid of a window: every block that passes is marked 1, every other one 0. */
  method BuildPass(jit: Jitter, m15: Coarse, m16: Coarse, cx: int, cz: int, radius: nat)
    returns (pass: array<int>)
    ensures fresh(pass)
    ensures Marks(pass[..], Window(cx - radius, cz - radius, 2 * radius), Island(jit, m15, m16), {})
  {
    hide Holds, Dilated, MarkedTo, Passes;
    var gw, ox, oz := 2 * radius, cx - radius, cz - radius;
    var n := GridSide(radius);
    var a := BuildGrid(m15, GridStart(ox), GridStart(oz), n);
    var b := BuildGrid(m16, GridStart(ox), GridStart(oz), n);
    var mask := Dilate(a, b, n);
    pass := new int[Area(gw, gw)](_ => 0);
    ghost var w := Window(ox, oz, gw);
    MarkStart(pass[..], w, Island(jit, m15, m16));
    ghost var sa, sb, sm := a[..], b[..], mask[..];
    for j := 0 to gw
      invariant a[..] == sa && b[..] == sb && mask[..] == sm
      invariant MarkedTo(pass[..], w, Island(jit, m15, m16), 0, j)
    {
      for i := 0 to gw
        invariant a[..] == sa && b[..] == sb && mask[..] == sm
        invariant MarkedTo(pass[..], w, Island(jit, m15, m16), i, j)
      {
        assert Island(jit, m15, m16)(Cell(ox + i, oz + j)) == Passes(jit, m15, m16, ox + i, oz + j);
        var p := PassAt(jit, a, b, mask, ox, oz, radius, i, j, m15, m16);
        IndexFits(gw, j, i);
        MarkNext(pass[..], w, Island(jit, m15, m16), i, j, if p then 1 else 0);
        ghost var s := pass[..];
        pass[Index(gw, j, i)] := if p then 1 else 0;
        assert pass[..] == s[Index(gw, j, i) := if p then 1 else 0];
      }
      MarkTurn(pass[..], w, Island(jit, m15, m16), j);
    }
    MarkEnd(pass[..], w, Island(jit, m15, m16));
  }

  lemma MarkStart(pass: seq<int>, w: Window, open: Region)
    requires |pass| == Area(w.n, w.n)
    ensures MarkedTo(pass, w, open, 0, 0)
  {
  }

  lemma MarkTurn(pass: seq<int>, w: Window, open: Region, j: int)
    requires MarkedTo(pass, w, open, w.n, j)
    ensures MarkedTo(pass, w, open, 0, j + 1)
  {
  }

  lemma MarkEnd(pass: seq<int>, w: Window, open: Region)
    requires MarkedTo(pass, w, open, 0, w.n)
    ensures Marks(pass, w, open, {})
  {
  }

  /** The blocks before row `j`, column `i` have their marks. */
  ghost predicate MarkedTo(pass: seq<int>, w: Window, open: Region, i: int, j: int) {
    |pass| == Area(w.n, w.n) &&
    forall c :: Inside(w, c) && (c.z < w.z + j || (c.z == w.z + j && c.x < w.x + i)) ==>
      Marked(pass, w, open, {}, c)
  }

  lemma MarkNext(pass: seq<int>, w: Window, open: Region, i: nat, j: nat, v: int)
    requires MarkedTo(pass, w, open, i, j) && i < w.n && j < w.n && Index(w.n, j, i) < |pass|
    requires v == if open(Cell(w.x + i, w.z + j)) then 1 else 0
    ensures MarkedTo(pass[Index(w.n, j, i) := v], w, open, i + 1, j)
  {
    var e := Cell(w.x + i, w.z + j);
    forall c | Inside(w, c) && (c.z < w.z + j || (c.z == w.z + j && c.x < w.x + i + 1))
      ensures Marked(pass[Index(w.n, j, i) := v], w, open, {}, c)
    {
      if c != e {
        AtApart(w, c, e);
        assert Marked(pass, w, open, {}, c);
      }
    }
  }
}
