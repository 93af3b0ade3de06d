/** Measuring islands block by block (cpu.cpp): a fixed window, and a window that grows until
    the island no longer reaches its border. */
module IslandSize {
  import opened Components
  import opened Flood
  import opened MushroomMask

  function Around0(cx: int, cz: int, radius: nat): Window {
    Window(cx - radius, cz - radius, 2 * radius)
  }

  /** The component of a cell in the window has this size, and touches the border or not. */
  ghost predicate Measured(w: Window, open: Region, c: Cell, area: nat, edge: bool) {
    exists k :: IsComponent(OpenIn(w, open), c, k) && area == |k| && edge == Touches(w, k)
  }

  /** There is one answer. */
  lemma MeasuredOnce(w: Window, open: Region, c: Cell, area: nat, edge: bool, area': nat, edge': bool)
    requires Measured(w, open, c, area, edge) && Measured(w, open, c, area', edge')
    ensures area == area' && edge == edge'
  {
    var k :| IsComponent(OpenIn(w, open), c, k) && area == |k| && edge == Touches(w, k);
    var k' :| IsComponent(OpenIn(w, open), c, k') && area' == |k'| && edge' == Touches(w, k');
    ComponentUnique(OpenIn(w, open), c, k, k');
  }

  /** The open cells of the window fall into components of which this is the first largest. */
  ghost predicate LargestOf(w: Window, open: Region, best: nat, edge: bool) {
    exists found :: Partition(w, open, found, OpenCells(w, open)) && BestOf(w, found, best, edge)
  }

  /** The largest component of passing blocks in the window. */
  method MeasureLargest(jit: Jitter, m15: Coarse, m16: Coarse, cx: int, cz: int, radius: nat)
    returns (best: nat, hitEdge: bool)
    ensures LargestOf(Around0(cx, cz, radius), Island(jit, m15, m16), best, hitEdge)
    ensures forall c: Cell, area: nat, edge: bool ::
      Measured(Around0(cx, cz, radius), Island(jit, m15, m16), c, area, edge) ==> area <= best
    ensures best > 0 ==> exists c :: Measured(Around0(cx, cz, radius), Island(jit, m15, m16), c, best, hitEdge)
    ensures best == 0 ==> !hitEdge && OpenCells(Around0(cx, cz, radius), Island(jit, m15, m16)) == {}
  {
    var pass := BuildPass(jit, m15, m16, cx, cz, radius);
    ghost var w, open := Around0(cx, cz, radius), Island(jit, m15, m16);
    ghost var found;
    best, hitEdge, found := Largest(Around0(cx, cz, radius), pass, open);
    LargestMeasured(w, open, best, hitEdge, found);
  }

  lemma {:induction false} LargestMeasured(w: Window, open: Region, best: nat, edge: bool, found: seq<set<Cell>>)
    requires Partition(w, open, found, OpenCells(w, open)) && BestOf(w, found, best, edge)
    ensures forall c: Cell, area: nat, e: bool :: Measured(w, open, c, area, e) ==> area <= best
    ensures best > 0 ==> exists c :: Measured(w, open, c, best, edge)
    ensures best == 0 ==> !edge && OpenCells(w, open) == {}
  {
    hide Partition, BestOf, IsComponent, Touches, OpenCells;
    LargestMeans(w, open, best, edge, found);
    forall c: Cell, area: nat, e: bool | Measured(w, open, c, area, e) ensures area <= best {
      var k :| IsComponent(OpenIn(w, open), c, k) && area == |k| && e == Touches(w, k);
      NoneWithout(w, open, c, k);
    }
    if OpenCells(w, open) != {} {
      var c, k :| OpenIn(w, open)(c) && IsComponent(OpenIn(w, open), c, k) && |k| == best && edge == Touches(w, k);
      assert Measured(w, open, c, best, edge);
      HasItself(w, open, c, k);
    }
  }

  lemma NoneWithout(w: Window, open: Region, c: Cell, k: set<Cell>)
    requires IsComponent(OpenIn(w, open), c, k)
    ensures OpenIn(w, open)(c) || k == {}
  {
    forall d | d in k ensures OpenIn(w, open)(c) {
      ReachOpen(OpenIn(w, open), c, d);
    }
  }

  lemma HasItself(w: Window, open: Region, c: Cell, k: set<Cell>)
    requires IsComponent(OpenIn(w, open), c, k) && OpenIn(w, open)(c)
    ensures |k| > 0
  {
    ReachSelf(OpenIn(w, open), c);
    assert c in k;
  }

  /** The component of the centre block, which is empty when that block does not pass or the
      window has no blocks. */
  method MeasureFromCenter(jit: Jitter, m15: Coarse, m16: Coarse, cx: int, cz: int, radius: nat)
    returns (count: nat, hitEdge: bool)
    ensures Measured(Around0(cx, cz, radius), Island(jit, m15, m16), Cell(cx, cz), count, hitEdge)
  {
    var pass := BuildPass(jit, m15, m16, cx, cz, radius);
    var w := Around0(cx, cz, radius);
    ghost var open, k := Island(jit, m15, m16), {};
    if Inside(w, Cell(cx, cz)) {
      count, hitEdge, k := FromCenter(w, pass, Cell(cx, cz), open);
    } else {
      count, hitEdge := 0, false;
      forall d ensures !Reach(OpenIn(w, open), Cell(cx, cz), d) {
        if Reach(OpenIn(w, open), Cell(cx, cz), d) { ReachOpen(OpenIn(w, open), Cell(cx, cz), d); }
      }
    }
    assert IsComponent(OpenIn(w, open), Cell(cx, cz), k);
  }

  /** A component that stays off the border is the component in the unbounded plane. */
  lemma OffBorderIsWhole(w: Window, open: Region, c: Cell, k: set<Cell>)
    requires Inside(w, c) && IsComponent(OpenIn(w, open), c, k) && !Touches(w, k)
    ensures IsComponent(open, c, k)
  {
    if c in k {
      forall a, b | a in k && open(b) && Adjacent(a, b) ensures b in k {
        ReachOpen(OpenIn(w, open), c, a);
        assert !OnBorder(w, a);
        ReachStep(OpenIn(w, open), c, a, b);
      }
      forall d | d in k ensures Reach(open, c, d) {
        ReachGrows(OpenIn(w, open), open, c, d);
      }
      ComponentFound(open, c, k);
    } else {
      if OpenIn(w, open)(c) { ReachSelf(OpenIn(w, open), c); }
      forall d ensures !Reach(open, c, d) && d !in k {
        if Reach(open, c, d) { ReachOpen(open, c, d); }
        if Reach(OpenIn(w, open), c, d) { ReachOpen(OpenIn(w, open), c, d); }
      }
    }
  }

  predicate Within(v: Window, w: Window) {
    w.x <= v.x && v.x + v.n <= w.x + w.n && w.z <= v.z && v.z + v.n <= w.z + w.n
  }

  /** Areas never shrink as the window grows. */
  lemma AreasGrow(v: Window, w: Window, open: Region, c: Cell, j: set<Cell>, k: set<Cell>)
    requires Within(v, w) && IsComponent(OpenIn(v, open), c, j) && IsComponent(OpenIn(w, open), c, k)
    ensures j <= k && |j| <= |k|
  {
    forall e | OpenIn(v, open)(e) ensures OpenIn(w, open)(e) {
      assert Inside(v, e) && open(e);
    }
    forall d | d in j ensures d in k {
      ReachGrows(OpenIn(v, open), OpenIn(w, open), c, d);
    }
    SubsetSize(j, k);
  }

  /** Once a component stays off the border, every larger window gives the same one. */
  lemma LargerWindowSame(v: Window, w: Window, open: Region, c: Cell, j: set<Cell>, k: set<Cell>)
    requires Inside(v, c) && Within(v, w)
    requires IsComponent(OpenIn(v, open), c, j) && !Touches(v, j) && IsComponent(OpenIn(w, open), c, k)
    ensures j == k && !Touches(w, k)
  {
    AreasGrow(v, w, open, c, j, k);
    OffBorderIsWhole(v, open, c, j);
    forall d | d in k ensures d in j {
      ReachGrows(OpenIn(w, open), open, c, d);
    }
    forall d | d in k ensures !OnBorder(w, d) {
      ReachOpen(OpenIn(v, open), c, d);
    }
  }

  /** The edge flag is exact: it is clear just when the island in the plane lies strictly
      inside the window. */
  lemma EdgeIsExact(w: Window, open: Region, c: Cell, k: set<Cell>, plane: set<Cell>)
    requires Inside(w, c) && IsComponent(OpenIn(w, open), c, k) && IsComponent(open, c, plane)
    ensures !Touches(w, k) <==> forall d :: d in plane ==> Inside(w, d) && !OnBorder(w, d)
  {
    if !Touches(w, k) {
      OffBorderIsWhole(w, open, c, k);
      ComponentUnique(open, c, k, plane);
      forall d | d in plane ensures Inside(w, d) && !OnBorder(w, d) {
        ReachOpen(OpenIn(w, open), c, d);
      }
    }
    if forall d :: d in plane ==> Inside(w, d) && !OnBorder(w, d) {
      forall d | d in k ensures !OnBorder(w, d) {
        ReachGrows(OpenIn(w, open), open, c, d);
      }
    }
  }

  /** What a measurement without the edge flag tells about the plane and larger windows. */
  lemma ExactMeasure(v: Window, open: Region, c: Cell, area: nat)
    requires Inside(v, c) && Measured(v, open, c, area, false)
    ensures exists k :: IsComponent(open, c, k) && area == |k|
    ensures forall w: Window, a: nat, e: bool :: Within(v, w) && Measured(w, open, c, a, e) ==> a == area && !e
  {
    var j :| IsComponent(OpenIn(v, open), c, j) && area == |j| && !Touches(v, j);
    OffBorderIsWhole(v, open, c, j);
    forall w: Window, a: nat, e: bool | Within(v, w) && Measured(w, open, c, a, e) ensures a == area && !e {
      var k :| IsComponent(OpenIn(w, open), c, k) && a == |k| && e == Touches(w, k);
      LargerWindowSame(v, w, open, c, j, k);
    }
  }

  /** The area of a cell never shrinks as the window grows. */
  lemma MeasureGrows(v: Window, w: Window, open: Region, c: Cell, a: nat, e: bool, a': nat, e': bool)
    requires Within(v, w) && Measured(v, open, c, a, e) && Measured(w, open, c, a', e')
    ensures a <= a'
  {
    var j :| IsComponent(OpenIn(v, open), c, j) && a == |j| && e == Touches(v, j);
    var k :| IsComponent(OpenIn(w, open), c, k) && a' == |k| && e' == Touches(w, k);
    AreasGrow(v, w, open, c, j, k);
  }

  /** The island of the origin, measured in growing windows. */
  method GrowOrigin(jit: Jitter, m15: Coarse, m16: Coarse, largeBiomes: bool)
    returns (area: nat, hitEdge: bool, radius: nat)
    ensures 2048 <= radius <= if largeBiomes then 24576 else 8192
    ensures Measured(Around0(0, 0, radius), Island(jit, m15, m16), Cell(0, 0), area, hitEdge)
    ensures forall a: nat, e: bool ::
      Measured(Around0(0, 0, radius), Island(jit, m15, m16), Cell(0, 0), a, e) ==> a == area && e == hitEdge
    ensures !hitEdge ==> exists k :: IsComponent(Island(jit, m15, m16), Cell(0, 0), k) && area == |k|
    ensures !hitEdge ==> forall r: nat, a: nat, e: bool ::
      r >= radius && Measured(Around0(0, 0, r), Island(jit, m15, m16), Cell(0, 0), a, e) ==> a == area && !e
    ensures hitEdge ==> radius == if largeBiomes then 24576 else 8192
  {
    hide Measured, Island, IsComponent;
    var maxRadius := if largeBiomes then 24576 else 8192;
    ghost var open := Island(jit, m15, m16);
    radius := 2048;
    area, hitEdge := MeasureFromCenter(jit, m15, m16, 0, 0, radius);
    while hitEdge && radius < maxRadius
      invariant 2048 <= radius <= maxRadius
      invariant Measured(Around0(0, 0, radius), open, Cell(0, 0), area, hitEdge)
      decreases maxRadius - radius
    {
      var next := radius * 2;
      if next > maxRadius { next := maxRadius; }
      if next == radius { break; }
      radius := next;
      area, hitEdge := MeasureFromCenter(jit, m15, m16, 0, 0, radius);
    }
    forall a: nat, e: bool | Measured(Around0(0, 0, radius), open, Cell(0, 0), a, e)
      ensures a == area && e == hitEdge
    {
      MeasuredOnce(Around0(0, 0, radius), open, Cell(0, 0), a, e, area, hitEdge);
    }
    if !hitEdge {
      ExactMeasure(Around0(0, 0, radius), open, Cell(0, 0), area);
    }
  }
}
