/** How far into the shared buffer the generation of a window really goes (layers.c), against the
    length that generator.c computes. */
module BufferReach {
  import opened Common
  import opened Rows
  import opened Layers
  import opened CacheSize
  import opened OceanMixMap
  import opened PlanarVoronoi
  import opened ZoomMap

  /** The window that a layer asks of its first parent. */
  datatype Ask = Ask(x: int, z: int, w: nat, h: nat)

  ghost function Asked(l: Layer, x: int, z: int, w: nat, h: nat): Ask {
    match l
    case Cell(_, _, _) => Ask(x, z, w, h)
    case RiverMix(_, _, _) => Ask(x, z, w, h)
    case Zoom(_, _, _) => Ask(x / 2, z / 2, ZoomSide(x, w), ZoomSide(z, h))
    case Voronoi(_, _) =>
      var f := Frame(x - 2, z - 2, w, h);
      Ask(f.x / 4, f.z / 4, f.PW(), f.PH())
    case OceanMix(_, p2) =>
      var t := Trimmed(Meaning(p2), x, z, w, h);
      Ask(x + t.lx0, z + t.lz0, t.lx1 - t.lx0, t.lz1 - t.lz0)
    case _ => Ask(x - 1, z - 1, w + 2, h + 2)
  }

  /** What a layer itself touches beyond the areas of its parents. */
  function Scratch(l: Layer, a: Ask, w: nat, h: nat): nat {
    if l.Zoom? then 5 * Area(a.w, a.h) else if l.Voronoi? then Area(a.w, a.h) + Area(w, h) else 0
  }

  /** The number of entries of the buffer, from the place of the window on, that generating it
      needs. An ocean mix asks for as much land as the ocean plane of its second parent makes
      necessary; where a shore layer below that leaves cells unwritten, for at most the space of
      the widest land window. */
  ghost function Reach(l: Layer, x: int, z: int, w: nat, h: nat): nat
    decreases l
  {
    if !HasParent(l) then Area(w, h)
    else
      var a := Asked(l, x, z, w, h);
      if l.Hills? then Max(Reach(l.p, a.x, a.z, a.w, a.h), Behind(l, w, h) + Reach(l.p2, a.x, a.z, a.w, a.h))
      else if l.RiverMix? then Max(Reach(l.p, x, z, w, h), Behind(l, w, h) + Reach(l.p2, x, z, w, h))
      else if l.OceanMix? then
        Max(Reach(l.p2, x, z, w, h),
            Behind(l, w, h) + if Settled(l.p2) then Reach(l.p, a.x, a.z, a.w, a.h) else Use(l.p, w + 16, h + 16))
      else Max(Reach(l.p, a.x, a.z, a.w, a.h), Scratch(l, a, w, h))
  }

  lemma {:induction false} ReachStep(l: Layer, x: int, z: int, w: nat, h: nat)
    requires HasParent(l)
    ensures var a, r := Asked(l, x, z, w, h), Reach(l, x, z, w, h);
      && (!TwoParents(l) ==> r == Max(Reach(l.p, a.x, a.z, a.w, a.h), Scratch(l, a, w, h)))
      && (l.Hills? ==> r == Max(Reach(l.p, a.x, a.z, a.w, a.h), Behind(l, w, h) + Reach(l.p2, a.x, a.z, a.w, a.h)))
      && (l.RiverMix? ==> r == Max(Reach(l.p, x, z, w, h), Behind(l, w, h) + Reach(l.p2, x, z, w, h)))
      && (l.OceanMix? ==> r == Max(Reach(l.p2, x, z, w, h),
            Behind(l, w, h) + if Settled(l.p2) then Reach(l.p, a.x, a.z, a.w, a.h) else Use(l.p, w + 16, h + 16)))
  {
  }

  /** The ocean planes below the ocean mixes of a tree have no unwritten cells. */
  ghost predicate Steady(l: Layer)
    decreases l
  {
    HasParent(l) ==>
      Steady(l.p) && (TwoParents(l) ==> Steady(l.p2)) && (l.OceanMix? ==> Settled(l.p2))
  }

  lemma {:induction false} SettledIsSteady(l: Layer)
    requires Settled(l)
    ensures Steady(l)
    decreases l
  {
    if HasParent(l) {
      SettledIsSteady(l.p);
      if TwoParents(l) { SettledIsSteady(l.p2); }
    }
  }

  lemma AskedFits(l: Layer, x: int, z: int, w: nat, h: nat)
    requires HasParent(l)
    ensures var a := Asked(l, x, z, w, h); a.w <= Asks(l, w) && a.h <= Asks(l, h)
  {
  }

  lemma ScratchFits(l: Layer, x: int, z: int, w: nat, h: nat)
    requires HasParent(l)
    ensures Scratch(l, Asked(l, x, z, w, h), w, h) <= Work(l, w, h)
  {
    hide Asked;
    var a := Asked(l, x, z, w, h);
    AskedFits(l, x, z, w, h);
    AreaGrows(a.w, a.h, Asks(l, w), Asks(l, h));
  }

  /** The reach never exceeds the bound that does not know the position of the window. */
  lemma {:induction false} ReachWithinUse(l: Layer, x: int, z: int, w: nat, h: nat)
    ensures Reach(l, x, z, w, h) <= Use(l, w, h)
    decreases l
  {
    if HasParent(l) {
      hide Reach, Use, Asked, Asks, AsksSecond, Behind, Work, Scratch, Area, Settled;
      var a := Asked(l, x, z, w, h);
      ReachStep(l, x, z, w, h);
      AskedFits(l, x, z, w, h);
      ScratchFits(l, x, z, w, h);
      UseCovers(l, w, h, a.w, a.h, 0, 0);
      ReachWithinUse(l.p, a.x, a.z, a.w, a.h);
      if TwoParents(l) { SecondWithinUse(l, x, z, w, h); }
    }
  }

  lemma {:induction false} SecondWithinUse(l: Layer, x: int, z: int, w: nat, h: nat)
    requires TwoParents(l)
    ensures Reach(l, x, z, w, h) <= Use(l, w, h)
    decreases l, 0
  {
    hide Reach, Use, Behind, Work, Area, Settled, Trimmed;
    var a := Asked(l, x, z, w, h);
    ReachStep(l, x, z, w, h);
    AskedFits(l, x, z, w, h);
    UseCovers(l, w, h, a.w, a.h, AsksSecond(l, w), AsksSecond(l, h));
    ReachWithinUse(l.p, a.x, a.z, a.w, a.h);
    if l.Hills? { ReachWithinUse(l.p2, a.x, a.z, a.w, a.h); } else { ReachWithinUse(l.p2, x, z, w, h); }
    if l.OceanMix? { UseCovers(l, w, h, w + 16, h + 16, w, h); }
  }

  /** The window asked of a zoom layer fits in the enlarged block. */
  lemma EnlargedArea(x: int, z: int, w: nat, h: nat)
    ensures Area(w, h) <= 4 * Area(ZoomSide(x, w), ZoomSide(z, h))
  {
    var pw, ph := ZoomSide(x, w), ZoomSide(z, h);
    DoubleArea(pw, ph);
    AreaGrows(w, h, 2 * pw, 2 * ph);
  }

  /** The window itself lies within the reach. */
  lemma {:induction false} AreaReached(l: Layer, x: int, z: int, w: nat, h: nat)
    ensures Area(w, h) <= Reach(l, x, z, w, h)
    decreases l
  {
    if HasParent(l) {
      hide Reach, Area, Settled, Use, Trimmed;
      var a := Asked(l, x, z, w, h);
      ReachStep(l, x, z, w, h);
      AreaGrows(w, h, w + 2, h + 2);
      EnlargedArea(x, z, w, h);
      if l.OceanMix? { AreaReached(l.p2, x, z, w, h); } else { AreaReached(l.p, a.x, a.z, a.w, a.h); }
    }
  }

  /** A land window, wherever it lies, stays within the space of the widest. */
  lemma LandWithin(l: Layer, x: int, z: int, w: nat, h: nat, w': nat, h': nat)
    requires w <= w' && h <= h'
    ensures Reach(l, x, z, w, h) <= Use(l, w', h')
  {
    ReachWithinUse(l, x, z, w, h);
    UseGrows(l, w, h, w', h');
  }

  lemma SmallAreas()
    ensures Area(1, 1) == 1 && Area(2, 2) == 4 && Area(3, 3) == 9 && Area(4, 4) == 16
    ensures Area(5, 5) == 25 && Area(6, 6) == 36 && Area(7, 7) == 49
  {
    AreaIsProduct(3, 3);
    AreaIsProduct(4, 4);
    AreaIsProduct(5, 5);
    AreaIsProduct(6, 6);
    AreaIsProduct(7, 7);
  }

  /** The accounts of a tree below a Voronoi layer for a single block: the library reckons with
      one cell, for which it adds up copies and takes the largest side. */
  ghost predicate Accounts(l: Layer, copies: nat, side: nat) {
    CopySpace(l, 1, 1) == copies && MaxSide(l, 1) == side
  }

  lemma {:induction false} MixAccounts(mix: (int, int) -> int, p: Layer, q: Layer, copies: nat, x: int, z: int, w: nat)
    requires p.Continent? && Accounts(q, copies, 1) && Steady(q)
    ensures var l := RiverMix(mix, p, q);
      Accounts(l, copies + 1, 1) && Steady(l) && Reach(l, x, z, w, w) == Area(w, w) + Reach(q, x, z, w, w)
  {
    hide Area, CopySpace, MaxSide;
    var l := RiverMix(mix, p, q);
    SmallAreas();
    CopiesStep(l, 1, 1);
    SideStep(l, 1);
    LeafAccounts(p);
    ReachStep(l, x, z, w, w);
    AreaReached(q, x, z, w, w);
  }

  lemma {:induction false} LeafAccounts(p: Layer)
    requires p.Continent?
    ensures Accounts(p, 0, 1) && Steady(p)
    ensures forall x, z, w: nat {:trigger Reach(p, x, z, w, w)} :: Reach(p, x, z, w, w) == Area(w, w)
  {
    SmallAreas();
  }

  /** Where the parent area of a single block is three cells wide, and where it is two wide. */
  lemma {:induction false} BlockReach(jit: Shifts, p: Layer, copies: nat, side: nat)
    requires Accounts(p, copies, side) && Steady(p)
    ensures var l := Voronoi(jit, p);
      && Steady(l) && Need(l, 1, 1) == 16 + copies + Area(Max(4, side), Max(4, side))
      && Reach(l, 1, 1, 1, 1) == Max(Reach(p, -1, -1, 3, 3), 10)
      && Reach(l, 2, 2, 1, 1) == Max(Reach(p, 0, 0, 2, 2), 5)
  {
    hide Area, Reach, CopySpace, MaxSide;
    var l := Voronoi(jit, p);
    SmallAreas();
    CopiesStep(l, 1, 1);
    SideStep(l, 1);
    ReachStep(l, 1, 1, 1, 1);
    ReachStep(l, 2, 2, 1, 1);
  }

  lemma {:induction false} BorderedAccounts(near: (int, int, Nine) -> int, p: Layer, x: int, z: int, w: nat)
    requires p.Continent?
    ensures var l := Stencil(near, Stencil(near, p));
      Accounts(l, 0, 5) && Steady(l) && Reach(l, x, z, w, w) == Area(w + 4, w + 4)
  {
    hide Area, CopySpace, MaxSide;
    var s := Stencil(near, p);
    var l := Stencil(near, s);
    CopiesStep(s, 3, 3);
    CopiesStep(l, 1, 1);
    SideStep(s, 3);
    SideStep(l, 1);
    BorderedLeaf(p);
    ReachStep(l, x, z, w, w);
    ReachStep(s, x - 1, z - 1, w + 2, w + 2);
    LeafAccounts(p);
  }

  lemma {:induction false} BorderedLeaf(p: Layer)
    requires p.Continent?
    ensures CopySpace(p, 5, 5) == 0 && MaxSide(p, 5) == 5
  {
  }

  /** With a Voronoi layer on top the length need not be enough, and that depends on the position:
      a single block over four nested mixes, or over two 3x3 layers, leaves the buffer at (1, 1)
      and stays inside at (2, 2). */
  lemma {:induction false} VoronoiOverflows(jit: Shifts, mix: (int, int) -> int, near: (int, int, Nine) -> int, p: Layer)
    requires p.Continent?
    ensures var mixed := Voronoi(jit, RiverMix(mix, p, RiverMix(mix, p, RiverMix(mix, p, RiverMix(mix, p, p)))));
      && Steady(mixed) && Need(mixed, 1, 1) == 36
      && Reach(mixed, 1, 1, 1, 1) == 45 && Reach(mixed, 2, 2, 1, 1) == 20
    ensures var bordered := Voronoi(jit, Stencil(near, Stencil(near, p)));
      && Steady(bordered) && Need(bordered, 1, 1) == 41
      && Reach(bordered, 1, 1, 1, 1) == 49 && Reach(bordered, 2, 2, 1, 1) == 36
  {
    hide Area, Accounts, Reach, Need, Steady;
    var m1 := RiverMix(mix, p, p);
    var m2 := RiverMix(mix, p, m1);
    var m3 := RiverMix(mix, p, m2);
    var m4 := RiverMix(mix, p, m3);
    SmallAreas();
    LeafAccounts(p);
    MixTwice(mix, p, p, 0);
    MixTwice(mix, p, m1, 1);
    MixTwice(mix, p, m2, 2);
    MixTwice(mix, p, m3, 3);
    BlockReach(jit, m4, 4, 1);
    BorderedAccounts(near, p, -1, -1, 3);
    BorderedAccounts(near, p, 0, 0, 2);
    BlockReach(jit, Stencil(near, Stencil(near, p)), 0, 5);
  }

  lemma MixTwice(mix: (int, int) -> int, p: Layer, q: Layer, copies: nat)
    requires p.Continent? && Accounts(q, copies, 1) && Steady(q)
    ensures var l := RiverMix(mix, p, q);
      && Accounts(l, copies + 1, 1) && Steady(l)
      && Reach(l, -1, -1, 3, 3) == 9 + Reach(q, -1, -1, 3, 3) && Reach(l, 0, 0, 2, 2) == 4 + Reach(q, 0, 0, 2, 2)
  {
    hide Accounts, Reach, Steady;
    SmallAreas();
    MixAccounts(mix, p, q, copies, -1, -1, 3);
    MixAccounts(mix, p, q, copies, 0, 0, 2);
  }
}
