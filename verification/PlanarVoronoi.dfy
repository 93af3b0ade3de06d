/** The planar Voronoi layer of versions up to 1.14 (layers.c): each parent cell scatters a block
    of four by four cells, clipped to the window, into the space behind the parent area. */
module PlanarVoronoi {
  import opened Rows
  import opened Layers
  import opened AreaMaps
  import opened ZoomMap

  function EvenBlock(v: int): Plane { (ii, jj) => v }

  /** What the layer makes of its parent's plane. */
  function VoronoiPlane(jit: Shifts, f: Plane): Plane { (x, z) => VoronoiRule(jit, f, x, z) }

  /** Where the scatter has come to: block row and column, and row and column in the block. */
  datatype Step = Step(pj: int, pi: int, jj: int, ii: int)

  /** The window, shifted by two cells, and its size. */
  datatype Frame = Frame(x: int, z: int, w: nat, h: nat) {
    function PW(): nat { (x + w) / 4 - x / 4 + 2 }
    function PH(): nat { (z + h) / 4 - z / 4 + 2 }

    /** The step that writes cell (i, j). */
    function StepOf(i: nat, j: nat): Step {
      Step((z + j) / 4 - z / 4, (x + i) / 4 - x / 4, (z + j) % 4, (x + i) % 4)
    }
  }

  predicate Before(s: Step, t: Step) {
    s.pj < t.pj || (s.pj == t.pj && (s.pi < t.pi || (s.pi == t.pi && (s.jj < t.jj || (s.jj == t.jj && s.ii < t.ii)))))
  }

  ghost predicate CellIs(s: seq<int>, base: nat, f: Frame, g: Plane, i: nat, j: nat) {
    base + Index(f.w, j, i) < |s| && s[base + Index(f.w, j, i)] == g(f.x + i + 2, f.z + j + 2)
  }

  /** Every cell of the window whose step has passed holds its value. */
  ghost predicate Done(s: seq<int>, base: nat, f: Frame, g: Plane, t: Step) {
    forall i: nat, j: nat :: i < f.w && j < f.h && Before(f.StepOf(i, j), t) ==> CellIs(s, base, f, g, i, j)
  }

  /** Writing the cell of the current step. */
  lemma {:induction false} WriteStep(s: seq<int>, t: seq<int>, base: nat, f: Frame, g: Plane, i: nat, j: nat, k: Step)
    requires Done(s, base, f, g, k) && i < f.w && j < f.h && f.StepOf(i, j) == k
    requires base + Index(f.w, j, i) < |s| && t == s[base + Index(f.w, j, i) := g(f.x + i + 2, f.z + j + 2)]
    ensures Done(t, base, f, g, k.(ii := k.ii + 1))
  {
    hide Index;
    forall a: nat, b: nat | a < f.w && b < f.h && Before(f.StepOf(a, b), k.(ii := k.ii + 1))
      ensures CellIs(t, base, f, g, a, b)
    {
      if f.StepOf(a, b) == k {
        SameCell(f, a, b, i, j);
      } else {
        assert CellIs(s, base, f, g, a, b);
        if Index(f.w, b, a) == Index(f.w, j, i) { IndexApart(f.w, a, b, i, j); }
      }
    }
  }

  lemma SameCell(f: Frame, i: nat, j: nat, i': nat, j': nat)
    requires f.StepOf(i, j) == f.StepOf(i', j')
    ensures i == i' && j == j'
  {
    assert f.x + i == 4 * ((f.x + i) / 4) + (f.x + i) % 4 && f.z + j == 4 * ((f.z + j) / 4) + (f.z + j) % 4;
  }

  /** Steps whose cell is outside the window write nothing. */
  lemma {:induction false} SkipStep(s: seq<int>, base: nat, f: Frame, g: Plane, k: Step)
    requires Done(s, base, f, g, k)
    requires !(0 <= 4 * (f.x / 4 + k.pi) + k.ii - f.x < f.w && 0 <= 4 * (f.z / 4 + k.pj) + k.jj - f.z < f.h)
    ensures Done(s, base, f, g, k.(ii := k.ii + 1))
  {
    forall a: nat, b: nat | a < f.w && b < f.h && Before(f.StepOf(a, b), k.(ii := k.ii + 1))
      ensures CellIs(s, base, f, g, a, b)
    {
      assert f.x + a == 4 * ((f.x + a) / 4) + (f.x + a) % 4 && f.z + b == 4 * ((f.z + b) / 4) + (f.z + b) % 4;
      assert Before(f.StepOf(a, b), k);
    }
  }

  /** The end of a row of a block, of a block, and of a row of blocks. */
  lemma {:induction false} Carries(s: seq<int>, base: nat, f: Frame, g: Plane, k: Step)
    requires Done(s, base, f, g, k)
    ensures k.ii == 4 ==> Done(s, base, f, g, Step(k.pj, k.pi, k.jj + 1, 0))
    ensures k.jj == 4 && k.ii == 0 ==> Done(s, base, f, g, Step(k.pj, k.pi + 1, 0, 0))
    ensures k.pi == f.PW() - 1 && k.jj == 0 && k.ii == 0 ==> Done(s, base, f, g, Step(k.pj + 1, 0, 0, 0))
  {
    forall a: nat, b: nat, t: Step | a < f.w && b < f.h && Before(f.StepOf(a, b), t)
      && ((k.ii == 4 && t == Step(k.pj, k.pi, k.jj + 1, 0)) || (k.jj == 4 && k.ii == 0 && t == Step(k.pj, k.pi + 1, 0, 0))
          || (k.pi == f.PW() - 1 && k.jj == 0 && k.ii == 0 && t == Step(k.pj + 1, 0, 0, 0)))
      ensures CellIs(s, base, f, g, a, b)
    {
      assert Before(f.StepOf(a, b), k);
    }
  }

  lemma {:induction false} NothingDone(s: seq<int>, base: nat, f: Frame, g: Plane)
    ensures Done(s, base, f, g, Step(0, 0, 0, 0))
  {
  }

  /** After the last block row the whole window has been written. */
  lemma {:induction false} AllDone(s: seq<int>, base: nat, f: Frame, g: Plane)
    requires Done(s, base, f, g, Step(f.PH() - 1, 0, 0, 0)) && base + Area(f.w, f.h) <= |s|
    ensures Window(s, base, g, f.x + 2, f.z + 2, f.w, f.h)
  {
    var x, z, w := f.x + 2, f.z + 2, f.w;
    forall j: nat | j < f.h ensures RowAt(s, base, g, x, z, w, j) {
      RowWithin(w, f.h, j);
      forall k | base + Area(w, j) <= k < base + Area(w, j) + w
        ensures s[k] == g(x + (k - base - Area(w, j)), z + j)
      {
        var i: nat := k - base - Area(w, j);
        assert CellIs(s, base, f, g, i, j);
      }
    }
  }

  /** By then the last cell of the window has been written, so the block lies in the buffer. */
  lemma {:induction false} DoneFits(s: seq<int>, base: nat, f: Frame, g: Plane)
    requires Done(s, base, f, g, Step(f.PH() - 1, 0, 0, 0)) && base <= |s|
    ensures base + Area(f.w, f.h) <= |s|
  {
    if f.h > 0 {
      AreaIsProduct(f.w, f.h);
      if f.w > 0 { assert CellIs(s, base, f, g, f.w - 1, f.h - 1); }
    }
  }

  /** The cells of a block are those that `g` has there. */
  ghost predicate Gives(cell: Plane, g: Plane, px: int, pz: int) {
    forall ii: nat, jj: nat :: ii < 4 && jj < 4 ==> cell(ii, jj) == g(4 * px + ii + 2, 4 * pz + jj + 2)
  }

  /** One block: the cells that are inside the window, row by row. It ends with `over` at the first
      one behind the buffer. */
  method FillBlock(buf: array<int>, base: nat, f: Frame, pj: nat, pi: nat, cell: Plane, ghost g: Plane)
    returns (over: bool)
    requires Done(buf[..], base, f, g, Step(pj, pi, 0, 0))
    requires Gives(cell, g, f.x / 4 + pi, f.z / 4 + pj)
    modifies buf
    ensures over ==> base + Area(f.w, f.h) > buf.Length
    ensures !over ==> Done(buf[..], base, f, g, Step(pj, pi + 1, 0, 0))
    ensures OnlyWrites(old(buf[..]), buf[..], base, base + Area(f.w, f.h))
  {
    hide Done, Frame.StepOf, Area;
    var i4, j4 := 4 * (f.x / 4 + pi) - f.x, 4 * (f.z / 4 + pj) - f.z;
    for jj := 0 to 4
      invariant Done(buf[..], base, f, g, Step(pj, pi, jj, 0))
      invariant OnlyWrites(old(buf[..]), buf[..], base, base + Area(f.w, f.h))
    {
      var j := j4 + jj;
      for ii := 0 to 4
        invariant Done(buf[..], base, f, g, Step(pj, pi, jj, ii))
        invariant OnlyWrites(old(buf[..]), buf[..], base, base + Area(f.w, f.h))
      {
        var i := i4 + ii;
        if 0 <= i < f.w && 0 <= j < f.h {
          ghost var s := buf[..];
          StepThere(f, pj, pi, jj, ii, i, j);
          RowWithin(f.w, f.h, j);
          if base + Index(f.w, j, i) >= buf.Length {
            return true;
          }
          buf[base + Index(f.w, j, i)] := cell(ii, jj);
          WriteStep(s, buf[..], base, f, g, i, j, Step(pj, pi, jj, ii));
        } else {
          SkipStep(buf[..], base, f, g, Step(pj, pi, jj, ii));
        }
      }
      Carries(buf[..], base, f, g, Step(pj, pi, jj, 4));
    }
    Carries(buf[..], base, f, g, Step(pj, pi, 4, 0));
    over := false;
  }

  lemma StepThere(f: Frame, pj: nat, pi: nat, jj: nat, ii: nat, i: nat, j: nat)
    requires jj < 4 && ii < 4 && i == 4 * (f.x / 4 + pi) - f.x + ii && j == 4 * (f.z / 4 + pj) - f.z + jj
    ensures f.StepOf(i, j) == Step(pj, pi, jj, ii)
  {
  }

  /** One row of parent cells. A block whose four corners agree is filled without a look at the
      distances. */
  method ScatterRow(jit: Shifts, buf: array<int>, off: nat, base: nat, f: Frame, pj: nat, ghost p: Plane)
    returns (over: bool)
    requires pj + 1 < f.PH() && base == off + Area(f.PW(), f.PH())
    requires Window(buf[..], off, p, f.x / 4, f.z / 4, f.PW(), f.PH())
    requires Done(buf[..], base, f, VoronoiPlane(jit, p), Step(pj, 0, 0, 0))
    modifies buf
    ensures over ==> base + Area(f.w, f.h) > buf.Length
    ensures !over ==> Done(buf[..], base, f, VoronoiPlane(jit, p), Step(pj + 1, 0, 0, 0))
    ensures OnlyWrites(old(buf[..]), buf[..], base, base + Area(f.w, f.h))
  {
    hide Done, Window, Row, VoronoiPlane, BlockRule, EvenBlock, Gives, Index, Area;
    ghost var g := VoronoiPlane(jit, p);
    var pX, pZ, pW := f.x / 4, f.z / 4, f.PW();
    ReadParent(buf[..], off, p, pX, pZ, pW, f.PH(), 0, pj);
    ReadParent(buf[..], off, p, pX, pZ, pW, f.PH(), 0, pj + 1);
    var v00, v01 := buf[off + Index(pW, pj, 0)], buf[off + Index(pW, pj + 1, 0)];
    for pi := 0 to pW - 1
      invariant v00 == p(pX + pi, pZ + pj) && v01 == p(pX + pi, pZ + pj + 1)
      invariant Done(buf[..], base, f, g, Step(pj, pi, 0, 0))
      invariant Window(buf[..], off, p, pX, pZ, pW, f.PH())
      invariant OnlyWrites(old(buf[..]), buf[..], base, base + Area(f.w, f.h))
    {
      ghost var s := buf[..];
      ReadParent(s, off, p, pX, pZ, pW, f.PH(), pi + 1, pj);
      ReadParent(s, off, p, pX, pZ, pW, f.PH(), pi + 1, pj + 1);
      var v10, v11 := buf[off + Index(pW, pj, pi + 1)], buf[off + Index(pW, pj + 1, pi + 1)];
      BlockMeaning(jit, p, pX + pi, pZ + pj);
      var cell := BlockRule(jit, pX + pi, pZ + pj, v00, v10, v01, v11);
      if v00 == v01 && v00 == v10 && v00 == v11 {
        cell := EvenBlock(v00);
      }
      over := FillBlock(buf, base, f, pj, pi, cell, g);
      if over {
        return;
      }
      WindowKept(s, buf[..], base, base + Area(f.w, f.h), off, p, pX, pZ, pW, f.PH());
      v00, v01 := v10, v11;
    }
    Carries(buf[..], base, f, g, Step(pj, pW - 1, 0, 0));
    over := false;
  }

  lemma ReadParent(s: seq<int>, off: nat, p: Plane, x: int, z: int, w: nat, h: nat, i: nat, j: nat)
    requires Window(s, off, p, x, z, w, h) && i < w && j < h
    ensures off + Index(w, j, i) < |s| && off + Index(w, j, i) < off + Area(w, h)
    ensures s[off + Index(w, j, i)] == p(x + i, z + j)
  {
    RowWithin(w, h, j);
    assert RowAt(s, off, p, x, z, w, j);
    assert s[off + Area(w, j) + i] == p(x + i, z + j);
  }

  /** A block's cells are what the layer means there; if its corners agree, they are all alike. */
  lemma BlockMeaning(jit: Shifts, p: Plane, px: int, pz: int)
    ensures var v00, v10, v01, v11 := p(px, pz), p(px + 1, pz), p(px, pz + 1), p(px + 1, pz + 1);
      && Gives(BlockRule(jit, px, pz, v00, v10, v01, v11), VoronoiPlane(jit, p), px, pz)
      && (v00 == v01 == v10 == v11 ==> Gives(EvenBlock(v00), VoronoiPlane(jit, p), px, pz))
  {
    hide ShiftDist, NearestOf, VoronoiPlane, BlockRule;
    var v00, v10, v01, v11 := p(px, pz), p(px + 1, pz), p(px, pz + 1), p(px + 1, pz + 1);
    forall ii: nat, jj: nat | ii < 4 && jj < 4
      ensures BlockRule(jit, px, pz, v00, v10, v01, v11)(ii, jj) == VoronoiPlane(jit, p)(4 * px + ii + 2, 4 * pz + jj + 2)
      ensures v00 == v01 == v10 == v11 ==>
        EvenBlock(v00)(ii, jj) == VoronoiPlane(jit, p)(4 * px + ii + 2, 4 * pz + jj + 2)
    {
      PlaneAt(jit, p, px, pz, ii, jj);
      if v00 == v01 == v10 == v11 { EvenAt(jit, px, pz, v00, v10, v01, v11, ii, jj); }
    }
  }

  lemma PlaneAt(jit: Shifts, p: Plane, px: int, pz: int, ii: nat, jj: nat)
    requires ii < 4 && jj < 4
    ensures VoronoiPlane(jit, p)(4 * px + ii + 2, 4 * pz + jj + 2) == BlockCell(jit, p, px, pz, ii, jj)
  {
    hide BlockCell;
    assert (4 * px + ii) / 4 == px && (4 * px + ii) % 4 == ii && (4 * pz + jj) / 4 == pz && (4 * pz + jj) % 4 == jj;
  }

  lemma EvenAt(jit: Shifts, px: int, pz: int, v00: int, v10: int, v01: int, v11: int, ii: int, jj: int)
    requires v00 == v01 == v10 == v11
    ensures BlockRule(jit, px, pz, v00, v10, v01, v11)(ii, jj) == v00
  {
    hide ShiftDist;
  }

  /** The layer's whole window, when its parent area is in place: the scatter behind it, and a
      block move to the front. */
  method ScatterMap(jit: Shifts, buf: array<int>, off: nat, f: Frame, ghost p: Plane) returns (over: bool)
    requires off + Area(f.PW(), f.PH()) <= buf.Length
    requires Window(buf[..], off, p, f.x / 4, f.z / 4, f.PW(), f.PH())
    modifies buf
    ensures over <==> off + Area(f.PW(), f.PH()) + Area(f.w, f.h) > buf.Length
    ensures !over ==> Window(buf[..], off, VoronoiPlane(jit, p), f.x + 2, f.z + 2, f.w, f.h)
    ensures OnlyWrites(old(buf[..]), buf[..], off, off + Area(f.PW(), f.PH()) + Area(f.w, f.h))
  {
    hide Done, Window, Row, VoronoiPlane, Area;
    var pW, pH := f.PW(), f.PH();
    ghost var g := VoronoiPlane(jit, p);
    var base := off + Area(pW, pH);
    NothingDone(buf[..], base, f, g);
    for pj := 0 to pH - 1
      invariant Done(buf[..], base, f, g, Step(pj, 0, 0, 0))
      invariant Window(buf[..], off, p, f.x / 4, f.z / 4, pW, pH)
      invariant OnlyWrites(old(buf[..]), buf[..], off, base + Area(f.w, f.h))
    {
      ghost var s := buf[..];
      over := ScatterRow(jit, buf, off, base, f, pj, p);
      if over {
        return;
      }
      WindowKept(s, buf[..], base, base + Area(f.w, f.h), off, p, f.x / 4, f.z / 4, pW, pH);
    }
    DoneFits(buf[..], base, f, g);
    AllDone(buf[..], base, f, g);
    over := false;
    ghost var s := buf[..];
    MoveCells(buf, off, base, Area(f.w, f.h));
    WindowMoved(s, buf[..], off, base, g, f.x + 2, f.z + 2, f.w, f.h);
  }

  lemma WindowMoved(s: seq<int>, t: seq<int>, to: nat, from: nat, g: Plane, x: int, z: int, w: nat, h: nat)
    requires Window(s, from, g, x, z, w, h) && Moved(s, t, to, from, Area(w, h))
    ensures Window(t, to, g, x, z, w, h)
  {
    forall j: nat | j < h ensures RowAt(t, to, g, x, z, w, j) {
      RowWithin(w, h, j);
      assert RowAt(s, from, g, x, z, w, j);
    }
  }
}
