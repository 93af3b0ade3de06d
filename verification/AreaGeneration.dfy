/** Whole-tree generation: every layer fills its window through the shared buffer. A run that
    would leave the buffer ends there with `over`, and this happens exactly when the window
    reaches beyond the buffer. */
module AreaGeneration {
  import opened Rows
  import opened Layers
  import opened CacheSize
  import opened AreaMaps
  import opened PointMaps
  import opened ShoreMap
  import opened ZoomMap
  import opened OceanMixMap
  import opened PlanarVoronoi
  import opened BufferReach

  lemma WritesWithin(s: seq<int>, t: seq<int>, u: seq<int>, lo: nat, a: nat, b: nat, hi: nat)
    requires OnlyWrites(s, t, lo, hi) && OnlyWrites(t, u, a, b) && lo <= a && b <= hi
    ensures OnlyWrites(s, u, lo, hi)
  {
  }

  /** The plane that an area of the buffer shows, whatever it is. */
  ghost function Shown(s: seq<int>, off: nat, x: int, z: int, w: nat): Plane {
    (a, b) =>
      if x <= a < x + w && z <= b && off + Index(w, b - z, a - x) < |s| then s[off + Index(w, b - z, a - x)] else 0
  }

  lemma ShownThere(s: seq<int>, off: nat, x: int, z: int, w: nat, h: nat)
    requires off + Area(w, h) <= |s|
    ensures Window(s, off, Shown(s, off, x, z, w), x, z, w, h)
  {
    var f := Shown(s, off, x, z, w);
    forall j: nat | j < h ensures RowAt(s, off, f, x, z, w, j) {
      RowWithin(w, h, j);
      assert Area(w, j) + w <= Area(w, h);
      forall k | off + Area(w, j) <= k < off + Area(w, j) + w
        ensures s[k] == f(x + (k - off - Area(w, j)), z + j)
      {
        var i: nat := k - off - Area(w, j);
        assert k == off + Index(w, j, i);
      }
    }
  }

  /** What a layer has left in its area: what it means, unless a shore layer below has left cells
      unwritten. */
  ghost function Held(l: Layer, s: seq<int>, off: nat, x: int, z: int, w: nat): Plane {
    if Settled(l) then Meaning(l) else Shown(s, off, x, z, w)
  }

  lemma HeldThere(l: Layer, s: seq<int>, off: nat, x: int, z: int, w: nat, h: nat)
    requires off + Area(w, h) <= |s| && (Settled(l) ==> Window(s, off, Meaning(l), x, z, w, h))
    ensures Window(s, off, Held(l, s, off, x, z, w), x, z, w, h)
  {
    hide Settled, Meaning;
    ShownThere(s, off, x, z, w, h);
  }

  /** `f` and `f2` are what the parents hold; in a settled tree they are what the parents mean. */
  ghost predicate Parents(l: Layer, f: Plane, f2: Plane) {
    Settled(l) ==> (HasParent(l) ==> f == Meaning(l.p)) && (TwoParents(l) ==> f2 == Meaning(l.p2))
  }

  lemma ParentsHeld(l: Layer, f: Plane, f2: Plane)
    requires HasParent(l) && (Settled(l.p) ==> f == Meaning(l.p))
    requires TwoParents(l) ==> (Settled(l.p2) ==> f2 == Meaning(l.p2))
    ensures Parents(l, f, f2)
  {
    hide Meaning;
  }

  lemma RuledMeans(l: Layer, f: Plane, f2: Plane, x: int, z: int)
    requires Settled(l) && Parents(l, f, f2)
    ensures Ruled(l, f, f2)(x, z) == Meaning(l)(x, z)
  {
    hide NineOf, LandRule, IslandRule, ZoomRule, OceanMixRule, VoronoiRule;
  }

  /** When a window holds the rule of a settled layer, it holds what the layer means. */
  lemma RuledWindow(l: Layer, s: seq<int>, off: nat, f: Plane, f2: Plane, g: Plane, x: int, z: int, w: nat, h: nat)
    requires Window(s, off, g, x, z, w, h) && Parents(l, f, f2)
    requires forall a, b :: g(a, b) == Ruled(l, f, f2)(a, b)
    ensures Settled(l) ==> Window(s, off, Meaning(l), x, z, w, h)
  {
    hide Settled, Meaning, Ruled, Window, Parents;
    if Settled(l) {
      forall a, b ensures g(a, b) == Meaning(l)(a, b) { RuledMeans(l, f, f2, a, b); }
      SameWindow(s, off, g, Meaning(l), x, z, w, h);
    }
  }

  lemma SameWindow(s: seq<int>, off: nat, f: Plane, g: Plane, x: int, z: int, w: nat, h: nat)
    requires Window(s, off, f, x, z, w, h) && forall i, j :: f(i, j) == g(i, j)
    ensures Window(s, off, g, x, z, w, h)
  {
    forall j: nat | j < h ensures RowAt(s, off, g, x, z, w, j) {
      assert RowAt(s, off, f, x, z, w, j);
    }
  }

  lemma NearRuled(l: Layer, f: Plane, f2: Plane)
    requires l.Stencil? || l.Land? || l.Island? || l.Hills?
    ensures NearRefines(l, f, f2, Ruled(l, f, f2))
  {
    hide NineOf, LandRule, IslandRule;
  }

  method MapNear(l: Layer, buf: array<int>, off: nat, x: int, z: int, w: nat, h: nat) returns (over: bool)
    requires l.Stencil? || l.Land? || l.Island? || l.Hills?
    requires off <= buf.Length
    modifies buf
    ensures over ==> off + Reach(l, x, z, w, h) > buf.Length
    ensures Steady(l) && !over ==> off + Reach(l, x, z, w, h) <= buf.Length
    ensures !over ==> off + Area(w, h) <= buf.Length
    ensures !over && Settled(l) ==> Window(buf[..], off, Meaning(l), x, z, w, h)
    ensures OnlyWrites(old(buf[..]), buf[..], off, off + Reach(l, x, z, w, h))
    decreases l, 0
  {
    hide Window, Row, RowAt, Reach, Steady, Area, Meaning, Ruled, Settled, Parents, NearRefines, Held;
    ghost var s := buf[..];
    ghost var hi := off + Reach(l, x, z, w, h);
    var pw, ph := w + 2, h + 2;
    ReachStep(l, x, z, w, h);
    SteadyDown(l);
    AreaGrows(w, h, pw, ph);
    over := GetMap(l.p, buf, off, x - 1, z - 1, pw, ph);
    if over {
      return;
    }
    ghost var t := buf[..];
    HeldThere(l.p, t, off, x - 1, z - 1, pw, ph);
    ghost var f := Held(l.p, t, off, x - 1, z - 1, pw);
    HeldIs(l.p, t, off, x - 1, z - 1, pw);
    ghost var f2 := f;
    if l.Hills? {
      var riv := off + Area(pw, ph);
      over := GetMap(l.p2, buf, riv, x - 1, z - 1, pw, ph);
      ghost var end := riv + Reach(l.p2, x - 1, z - 1, pw, ph);
      WritesWithin(s, t, buf[..], off, riv, end, hi);
      if over {
        return;
      }
      HeldThere(l.p2, buf[..], riv, x - 1, z - 1, pw, ph);
      HeldIs(l.p2, buf[..], riv, x - 1, z - 1, pw);
      f2 := Held(l.p2, buf[..], riv, x - 1, z - 1, pw);
      WindowKept(t, buf[..], riv, end, off, f, x - 1, z - 1, pw, ph);
    }
    ghost var u := buf[..];
    ParentsHeld(l, f, f2);
    NearRuled(l, f, f2);
    NearMap(l, buf, off, x, z, w, h, f, f2, Ruled(l, f, f2));
    RuledWindow(l, buf[..], off, f, f2, Ruled(l, f, f2), x, z, w, h);
    AreaReached(l, x, z, w, h);
    WritesWithin(s, u, buf[..], off, off, off + Area(w, h), hi);
  }

  lemma SteadyDown(l: Layer)
    requires HasParent(l)
    ensures Steady(l) ==> Steady(l.p) && (TwoParents(l) ==> Steady(l.p2)) && (l.OceanMix? ==> Settled(l.p2))
  {
    hide Settled;
  }

  lemma HeldIs(l: Layer, s: seq<int>, off: nat, x: int, z: int, w: nat)
    ensures Settled(l) ==> Held(l, s, off, x, z, w) == Meaning(l)
  {
    hide Settled, Meaning;
  }

  lemma ShoreSettled(l: Layer, f: Plane, x: int, z: int, w: nat)
    requires l.Shore? && Settled(l) && f == Meaning(l.p)
    ensures forall a, b :: ShoreOut(l.shore, f, x, z, w)(a, b) == Meaning(l)(a, b)
  {
    hide NineOf;
  }

  /** A shore layer holds, over any settled parent, what its window makes of it; where its rule
      writes every cell, that is what the layer means. */
  method MapShore(l: Layer, buf: array<int>, off: nat, x: int, z: int, w: nat, h: nat) returns (over: bool)
    requires l.Shore? && off <= buf.Length
    modifies buf
    ensures !over && Settled(l.p) ==> Window(buf[..], off, ShoreOut(l.shore, Meaning(l.p), x, z, w), x, z, w, h)
    ensures over ==> off + Reach(l, x, z, w, h) > buf.Length
    ensures Steady(l) && !over ==> off + Reach(l, x, z, w, h) <= buf.Length
    ensures !over ==> off + Area(w, h) <= buf.Length
    ensures !over && Settled(l) ==> Window(buf[..], off, Meaning(l), x, z, w, h)
    ensures OnlyWrites(old(buf[..]), buf[..], off, off + Reach(l, x, z, w, h))
    decreases l, 0
  {
    hide Window, Row, RowAt, Reach, Steady, Area, Meaning, Settled, Held, ShoreOut;
    ghost var s := buf[..];
    ReachStep(l, x, z, w, h);
    SteadyDown(l);
    AreaGrows(w, h, w + 2, h + 2);
    over := GetMap(l.p, buf, off, x - 1, z - 1, w + 2, h + 2);
    if over {
      return;
    }
    ghost var t := buf[..];
    HeldThere(l.p, t, off, x - 1, z - 1, w + 2, h + 2);
    HeldIs(l.p, t, off, x - 1, z - 1, w + 2);
    ghost var f := Held(l.p, t, off, x - 1, z - 1, w + 2);
    ShoreMap.ShoreMap(l.shore, buf, off, x, z, w, h, f);
    SettledBelow(l);
    if Settled(l) {
      ShoreSettled(l, f, x, z, w);
      SameWindow(buf[..], off, ShoreOut(l.shore, f, x, z, w), Meaning(l), x, z, w, h);
    }
    AreaReached(l, x, z, w, h);
    WritesWithin(s, t, buf[..], off, off, off + Area(w, h), off + Reach(l, x, z, w, h));
  }

  lemma SettledBelow(l: Layer)
    requires HasParent(l)
    ensures Settled(l) ==> Settled(l.p)
  {
    hide Meaning;
  }

  lemma ZoomRuled(l: Layer, f: Plane, f2: Plane)
    requires l.Zoom?
    ensures ZoomRefines(l.fuzzy, l.draw, f, Ruled(l, f, f2))
  {
    hide ZoomRule;
  }

  method MapZoom(l: Layer, buf: array<int>, off: nat, x: int, z: int, w: nat, h: nat) returns (over: bool)
    requires l.Zoom? && off <= buf.Length
    modifies buf
    ensures over ==> off + Reach(l, x, z, w, h) > buf.Length
    ensures Steady(l) && !over ==> off + Reach(l, x, z, w, h) <= buf.Length
    ensures !over ==> off + Area(w, h) <= buf.Length
    ensures !over && Settled(l) ==> Window(buf[..], off, Meaning(l), x, z, w, h)
    ensures OnlyWrites(old(buf[..]), buf[..], off, off + Reach(l, x, z, w, h))
    decreases l, 0
  {
    hide Window, Row, RowAt, Reach, Steady, Area, Meaning, Ruled, Settled, Parents, ZoomRefines, Held;
    ghost var s := buf[..];
    ghost var hi := off + Reach(l, x, z, w, h);
    var pX, pZ, pW, pH := x / 2, z / 2, ZoomSide(x, w), ZoomSide(z, h);
    ReachStep(l, x, z, w, h);
    SteadyDown(l);
    AreaReached(l, x, z, w, h);
    over := GetMap(l.p, buf, off, pX, pZ, pW, pH);
    if over {
      return;
    }
    ghost var t := buf[..];
    HeldThere(l.p, t, off, pX, pZ, pW, pH);
    HeldIs(l.p, t, off, pX, pZ, pW);
    ghost var f := Held(l.p, t, off, pX, pZ, pW);
    ParentsHeld(l, f, f);
    ZoomRuled(l, f, f);
    ghost var g := Ruled(l, f, f);
    over := ZoomExpand(l.fuzzy, l.draw, buf, off, pX, pZ, pW, pH, f, g);
    WritesWithin(s, t, buf[..], off, off, off + 5 * Area(pW, pH), hi);
    if over {
      return;
    }
    ghost var u := buf[..];
    ZoomCopy(buf, off, x, z, w, h, pW, pH, g);
    RuledWindow(l, buf[..], off, f, f, g, x, z, w, h);
    WritesWithin(s, u, buf[..], off, off, off + Area(w, h), hi);
    EnlargedArea(x, z, w, h);
  }

  lemma PointRuled(l: Layer, f: Plane, f2: Plane)
    ensures l.RiverMix? ==> forall i, j :: Ruled(l, f, f2)(i, j) == l.mix(f(i, j), f2(i, j))
    ensures l.Cell? ==> forall i, j :: Ruled(l, f, f2)(i, j) == l.cell(i, j, f(i, j))
    ensures l.OceanMix? ==> MixRefines(f, f2, Ruled(l, f, f2))
    ensures l.Voronoi? ==> forall i, j :: VoronoiPlane(l.jit, f)(i, j) == Ruled(l, f, f2)(i, j)
  {
    hide OceanMixRule, VoronoiRule;
  }

  method MapRiverMix(l: Layer, buf: array<int>, off: nat, x: int, z: int, w: nat, h: nat) returns (over: bool)
    requires l.RiverMix? && off <= buf.Length
    modifies buf
    ensures over ==> off + Reach(l, x, z, w, h) > buf.Length
    ensures Steady(l) && !over ==> off + Reach(l, x, z, w, h) <= buf.Length
    ensures !over ==> off + Area(w, h) <= buf.Length
    ensures !over && Settled(l) ==> Window(buf[..], off, Meaning(l), x, z, w, h)
    ensures OnlyWrites(old(buf[..]), buf[..], off, off + Reach(l, x, z, w, h))
    decreases l, 0
  {
    hide Window, Row, RowAt, Reach, Steady, Area, Meaning, Ruled, Settled, Parents, Held;
    ghost var s := buf[..];
    ghost var hi := off + Reach(l, x, z, w, h);
    var rivers := off + Area(w, h);
    ReachStep(l, x, z, w, h);
    SteadyDown(l);
    over := GetMap(l.p, buf, off, x, z, w, h);
    if over {
      return;
    }
    ghost var t := buf[..];
    HeldThere(l.p, t, off, x, z, w, h);
    HeldIs(l.p, t, off, x, z, w);
    ghost var f := Held(l.p, t, off, x, z, w);
    over := GetMap(l.p2, buf, rivers, x, z, w, h);
    ghost var u, end := buf[..], rivers + Reach(l.p2, x, z, w, h);
    WritesWithin(s, t, u, off, rivers, end, hi);
    if over {
      return;
    }
    HeldThere(l.p2, u, rivers, x, z, w, h);
    HeldIs(l.p2, u, rivers, x, z, w);
    ghost var f2 := Held(l.p2, u, rivers, x, z, w);
    WindowKept(t, u, rivers, end, off, f, x, z, w, h);
    ParentsHeld(l, f, f2);
    PointRuled(l, f, f2);
    RiverMixMap(l.mix, buf, off, x, z, w, h, f, f2, Ruled(l, f, f2));
    RuledWindow(l, buf[..], off, f, f2, Ruled(l, f, f2), x, z, w, h);
    AreaReached(l, x, z, w, h);
    WritesWithin(s, u, buf[..], off, off, off + Area(w, h), hi);
  }

  method MapOceanMix(l: Layer, buf: array<int>, off: nat, x: int, z: int, w: nat, h: nat) returns (over: bool)
    requires l.OceanMix? && off <= buf.Length
    modifies buf
    ensures over ==> off + Reach(l, x, z, w, h) > buf.Length
    ensures Steady(l) && !over ==> off + Reach(l, x, z, w, h) <= buf.Length
    ensures !over ==> off + Area(w, h) <= buf.Length
    ensures !over && Settled(l) ==> Window(buf[..], off, Meaning(l), x, z, w, h)
    ensures OnlyWrites(old(buf[..]), buf[..], off, off + Reach(l, x, z, w, h))
    decreases l, 0
  {
    hide Window, Row, RowAt, Reach, Steady, Area, Meaning, Ruled, Settled, Parents, Held, MixRefines, Trimmed, Use;
    ghost var s := buf[..];
    ghost var hi := off + Reach(l, x, z, w, h);
    ReachStep(l, x, z, w, h);
    SteadyDown(l);
    over := GetMap(l.p2, buf, off, x, z, w, h);
    if over {
      return;
    }
    ghost var u := buf[..];
    HeldThere(l.p2, u, off, x, z, w, h);
    HeldIs(l.p2, u, off, x, z, w);
    ghost var f2 := Held(l.p2, u, off, x, z, w);
    var t := TrimLand(buf, off, w, h, f2, x, z);
    var land, lw, lh := off + Area(w, h), t.lx1 - t.lx0, t.lz1 - t.lz0;
    LandWithin(l.p, x + t.lx0, z + t.lz0, lw, lh, w + 16, h + 16);
    over := GetMap(l.p, buf, land, x + t.lx0, z + t.lz0, lw, lh);
    ghost var v, end := buf[..], land + Reach(l.p, x + t.lx0, z + t.lz0, lw, lh);
    WritesWithin(s, u, v, off, land, end, hi);
    if over {
      return;
    }
    HeldThere(l.p, v, land, x + t.lx0, z + t.lz0, lw, lh);
    HeldIs(l.p, v, land, x + t.lx0, z + t.lz0, lw);
    ghost var f := Held(l.p, v, land, x + t.lx0, z + t.lz0, lw);
    WindowKept(u, v, land, end, off, f2, x, z, w, h);
    ParentsHeld(l, f, f2);
    PointRuled(l, f, f2);
    MixMap(buf, off, t, x, z, w, h, f, f2, Ruled(l, f, f2));
    RuledWindow(l, buf[..], off, f, f2, Ruled(l, f, f2), x, z, w, h);
    AreaReached(l, x, z, w, h);
    WritesWithin(s, v, buf[..], off, off, off + Area(w, h), hi);
  }

  method MapCell(l: Layer, buf: array<int>, off: nat, x: int, z: int, w: nat, h: nat) returns (over: bool)
    requires l.Cell? && off <= buf.Length
    modifies buf
    ensures over ==> off + Reach(l, x, z, w, h) > buf.Length
    ensures Steady(l) && !over ==> off + Reach(l, x, z, w, h) <= buf.Length
    ensures !over ==> off + Area(w, h) <= buf.Length
    ensures !over && Settled(l) ==> Window(buf[..], off, Meaning(l), x, z, w, h)
    ensures OnlyWrites(old(buf[..]), buf[..], off, off + Reach(l, x, z, w, h))
    decreases l, 0
  {
    hide Window, Row, RowAt, Reach, Steady, Area, Meaning, Ruled, Settled, Parents, Held;
    ghost var s := buf[..];
    ReachStep(l, x, z, w, h);
    SteadyDown(l);
    over := GetMap(l.p, buf, off, x, z, w, h);
    if over {
      return;
    }
    ghost var t := buf[..];
    HeldThere(l.p, t, off, x, z, w, h);
    HeldIs(l.p, t, off, x, z, w);
    ghost var f := Held(l.p, t, off, x, z, w);
    ParentsHeld(l, f, f);
    PointRuled(l, f, f);
    CellMap(l.cell, buf, off, x, z, w, h, f, Ruled(l, f, f));
    RuledWindow(l, buf[..], off, f, f, Ruled(l, f, f), x, z, w, h);
    AreaReached(l, x, z, w, h);
    WritesWithin(s, t, buf[..], off, off, off + Area(w, h), off + Reach(l, x, z, w, h));
  }

  /** The planar Voronoi layer: each cell ends as a value of its absolute position alone. */
  method MapVoronoi114(l: Layer, buf: array<int>, off: nat, x: int, z: int, w: nat, h: nat) returns (over: bool)
    requires l.Voronoi? && off <= buf.Length
    modifies buf
    ensures over ==> off + Reach(l, x, z, w, h) > buf.Length
    ensures Steady(l) && !over ==> off + Reach(l, x, z, w, h) <= buf.Length
    ensures !over ==> off + Area(w, h) <= buf.Length
    ensures !over && Settled(l) ==> Window(buf[..], off, Meaning(l), x, z, w, h)
    ensures OnlyWrites(old(buf[..]), buf[..], off, off + Reach(l, x, z, w, h))
    decreases l, 0
  {
    hide Window, Row, RowAt, Reach, Steady, Area, Meaning, Ruled, Settled, Parents, Held, VoronoiPlane;
    ghost var s := buf[..];
    ghost var hi := off + Reach(l, x, z, w, h);
    var fr := Frame(x - 2, z - 2, w, h);
    var pX, pZ, pW, pH := fr.x / 4, fr.z / 4, fr.PW(), fr.PH();
    ReachStep(l, x, z, w, h);
    SteadyDown(l);
    over := GetMap(l.p, buf, off, pX, pZ, pW, pH);
    if over {
      return;
    }
    ghost var t := buf[..];
    HeldThere(l.p, t, off, pX, pZ, pW, pH);
    HeldIs(l.p, t, off, pX, pZ, pW);
    ghost var f := Held(l.p, t, off, pX, pZ, pW);
    ParentsHeld(l, f, f);
    PointRuled(l, f, f);
    over := ScatterMap(l.jit, buf, off, fr, f);
    WritesWithin(s, t, buf[..], off, off, off + Area(pW, pH) + Area(w, h), hi);
    if over {
      return;
    }
    RuledWindow(l, buf[..], off, f, f, VoronoiPlane(l.jit, f), x, z, w, h);
  }

  lemma SourceMeaning(l: Layer)
    ensures l.OceanTemp? ==> forall i, j :: Meaning(l)(i, j) == l.temp(i, j)
    ensures l.Continent? ==> forall i, j :: Meaning(l)(i, j) == if i == 0 && j == 0 then 1 else Bit(l.land(i, j))
  {
  }

  lemma SourceReach(l: Layer, x: int, z: int, w: nat, h: nat)
    ensures !HasParent(l) ==> Reach(l, x, z, w, h) == Area(w, h) && Steady(l)
  {
  }

  /** Every layer, over every window, leaves in each cell what the layer means there, as long as
      no shore layer of the tree leaves a cell unwritten; and for every tree it touches only what
      the window reaches. It leaves the buffer, in a steady tree, exactly when the window reaches
      beyond its end, and in no tree otherwise. */
  method GetMap(l: Layer, buf: array<int>, off: nat, x: int, z: int, w: nat, h: nat) returns (over: bool)
    requires off <= buf.Length
    modifies buf
    ensures over ==> off + Reach(l, x, z, w, h) > buf.Length
    ensures Steady(l) && !over ==> off + Reach(l, x, z, w, h) <= buf.Length
    ensures !over ==> off + Area(w, h) <= buf.Length
    ensures !over && Settled(l) ==> Window(buf[..], off, Meaning(l), x, z, w, h)
    ensures OnlyWrites(old(buf[..]), buf[..], off, off + Reach(l, x, z, w, h))
    decreases l, 1
  {
    hide Window, Area, Meaning, Settled, Reach, Steady;
    SourceReach(l, x, z, w, h);
    SourceMeaning(l);
    match l {
      case Continent(land) => over := ContinentMap(land, buf, off, x, z, w, h, Meaning(l));
      case OceanTemp(temp) =>
        over := SourceMap(temp, buf, off, x, z, w, h);
        if !over { SameWindow(buf[..], off, temp, Meaning(l), x, z, w, h); }
      case Cell(_, _, _) => over := MapCell(l, buf, off, x, z, w, h);
      case Zoom(_, _, _) => over := MapZoom(l, buf, off, x, z, w, h);
      case RiverMix(_, _, _) => over := MapRiverMix(l, buf, off, x, z, w, h);
      case OceanMix(_, _) => over := MapOceanMix(l, buf, off, x, z, w, h);
      case Stencil(_, _) => over := MapNear(l, buf, off, x, z, w, h);
      case Shore(_, _) => over := MapShore(l, buf, off, x, z, w, h);
      case Land(_, _) => over := MapNear(l, buf, off, x, z, w, h);
      case Island(_, _) => over := MapNear(l, buf, off, x, z, w, h);
      case Hills(_, _, _) => over := MapNear(l, buf, off, x, z, w, h);
      case Voronoi(_, _) => over := MapVoronoi114(l, buf, off, x, z, w, h);
    }
  }

  /** Allocation and generation together: a buffer of exactly the computed length comes back
      with the value of the layer in every cell of the window, unless the window reaches beyond
      that length, as it may below a Voronoi layer. */
  method GenArea(l: Layer, x: int, z: int, w: nat, h: nat) returns (out: array<int>, over: bool)
    ensures fresh(out) && out.Length == Need(l, w, h)
    ensures over ==> Reach(l, x, z, w, h) > Need(l, w, h)
    ensures Steady(l) && !over ==> Reach(l, x, z, w, h) <= Need(l, w, h)
    ensures NoVoronoi(l) ==> !over
    ensures !over && Settled(l) ==> forall i: nat, j: nat :: i < w && j < h ==>
      Index(w, j, i) < out.Length && out[Index(w, j, i)] == Value(l, x + i, z + j)
  {
    hide Need, Area, Reach, Use, Settled, Steady, NoVoronoi;
    ReachWithinUse(l, x, z, w, h);
    if NoVoronoi(l) { NeedCovers(l, w, h); }
    var n := GetMinLayerCacheSize(l, w, h);
    out := new int[n](_ => 0);
    over := GetMap(l, out, 0, x, z, w, h);
    if !over && Settled(l) { WindowValues(l, out[..], x, z, w, h); }
  }

  lemma WindowValues(l: Layer, s: seq<int>, x: int, z: int, w: nat, h: nat)
    requires Window(s, 0, Meaning(l), x, z, w, h)
    ensures forall i: nat, j: nat :: i < w && j < h ==>
      Index(w, j, i) < |s| && s[Index(w, j, i)] == Value(l, x + i, z + j)
  {
    hide Value;
    forall i: nat, j: nat | i < w && j < h
      ensures Index(w, j, i) < |s| && s[Index(w, j, i)] == Value(l, x + i, z + j)
    {
      assert RowAt(s, 0, Meaning(l), x, z, w, j);
    }
  }
}
