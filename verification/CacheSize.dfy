/** How much of the shared buffer a layer tree may use (generator.c). */
module CacheSize {
  import opened Common
  import opened Layers
  import opened Rows

  /** The side the parent of a layer is assumed to need for a side of `a`. */
  function ParentSide(l: Layer, a: nat): nat {
    (a + Edge(l)) / Scale(l)
  }

  /** Whether a layer keeps its parent's area beside its own. */
  predicate KeepsCopy(l: Layer) { TwoParents(l) || Scale(l) != 1 }

  /** The largest side, border included, that occurs anywhere in the tree. */
  function MaxSide(l: Layer, a: nat): (m: nat)
    ensures m >= a + Edge(l)
    decreases l
  {
    var own := a + Edge(l);
    if !HasParent(l) then own
    else
      var one := Max(own, MaxSide(l.p, ParentSide(l, a)));
      if TwoParents(l) then Max(one, MaxSide(l.p2, ParentSide(l, a))) else one
  }

  /** The space for the copy a layer keeps of its bordered area. */
  function Own(l: Layer, a: nat, b: nat): nat {
    if KeepsCopy(l) then Area(a + Edge(l), b + Edge(l)) else 0
  }

  /** The sum of the areas of all temporary copies in the tree. */
  function CopySpace(l: Layer, a: nat, b: nat): nat
    decreases l
  {
    if !HasParent(l) then Own(l, a, b)
    else
      Own(l, a, b) + CopySpace(l.p, ParentSide(l, a), ParentSide(l, b))
      + if TwoParents(l) then CopySpace(l.p2, ParentSide(l, a), ParentSide(l, b)) else 0
  }

  /** The buffer length the library hands out for a `w` by `h` window. */
  function Need(l: Layer, w: nat, h: nat): nat {
    CopySpace(l, w, h) + Area(MaxSide(l, w), MaxSide(l, h))
  }

  lemma {:induction false} SideStep(l: Layer, a: nat)
    ensures var one := if HasParent(l) then MaxSide(l.p, ParentSide(l, a)) else 0;
      var two := if TwoParents(l) then MaxSide(l.p2, ParentSide(l, a)) else 0;
      MaxSide(l, a) == Max(Max(a + Edge(l), one), two)
  {
  }

  lemma {:induction false} SideGrows(l: Layer, a: nat, a': nat)
    requires a <= a'
    ensures MaxSide(l, a) <= MaxSide(l, a')
    decreases l
  {
    if HasParent(l) {
      SideGrows(l.p, ParentSide(l, a), ParentSide(l, a'));
      if TwoParents(l) {
        SideGrows(l.p2, ParentSide(l, a), ParentSide(l, a'));
      }
    }
  }

  lemma {:induction false} CopiesStep(l: Layer, a: nat, b: nat)
    ensures var one := if HasParent(l) then CopySpace(l.p, ParentSide(l, a), ParentSide(l, b)) else 0;
      var two := if TwoParents(l) then CopySpace(l.p2, ParentSide(l, a), ParentSide(l, b)) else 0;
      CopySpace(l, a, b) == Own(l, a, b) + one + two
  {
  }

  lemma {:induction false} CopiesGrow(l: Layer, a: nat, b: nat, a': nat, b': nat)
    requires a <= a' && b <= b'
    ensures CopySpace(l, a, b) <= CopySpace(l, a', b')
    decreases l
  {
    hide CopySpace, Area, Edge;
    AreaGrows(a + Edge(l), b + Edge(l), a' + Edge(l), b' + Edge(l));
    CopiesStep(l, a, b);
    CopiesStep(l, a', b');
    if HasParent(l) {
      CopiesGrow(l.p, ParentSide(l, a), ParentSide(l, b), ParentSide(l, a'), ParentSide(l, b'));
      if TwoParents(l) {
        CopiesGrow(l.p2, ParentSide(l, a), ParentSide(l, b), ParentSide(l, a'), ParentSide(l, b'));
      }
    }
  }

  lemma {:induction false} Grows(l: Layer, a: nat, b: nat, a': nat, b': nat)
    requires a <= a' && b <= b'
    ensures Need(l, a, b) <= Need(l, a', b')
  {
    SideGrows(l, a, a');
    SideGrows(l, b, b');
    CopiesGrow(l, a, b, a', b');
    AreaGrows(MaxSide(l, a), MaxSide(l, b), MaxSide(l, a'), MaxSide(l, b'));
  }

  lemma {:induction false} SideOfParents(l: Layer, a: nat)
    requires HasParent(l)
    ensures MaxSide(l.p, ParentSide(l, a)) <= MaxSide(l, a)
    ensures TwoParents(l) ==> MaxSide(l.p2, ParentSide(l, a)) <= MaxSide(l, a)
  {
  }

  /** Whatever a layer asks of its first parent fits in what the layer itself was given,
      with a copy of its own bordered area to spare when it keeps one. */
  lemma {:induction false} FirstFits(l: Layer, w: nat, h: nat, pw: nat, ph: nat)
    requires HasParent(l)
    requires pw <= ParentSide(l, w) && ph <= ParentSide(l, h)
    ensures Need(l.p, pw, ph) + Own(l, w, h) <= Need(l, w, h)
  {
    hide CopySpace, MaxSide, Area, ParentSide;
    var pw', ph' := ParentSide(l, w), ParentSide(l, h);
    Grows(l.p, pw, ph, pw', ph');
    SideOfParents(l, w);
    SideOfParents(l, h);
    AreaGrows(MaxSide(l.p, pw'), MaxSide(l.p, ph'), MaxSide(l, w), MaxSide(l, h));
    CopiesStep(l, w, h);
  }

  lemma {:induction false} SecondFits(l: Layer, w: nat, h: nat, pw: nat, ph: nat)
    requires TwoParents(l)
    requires pw <= ParentSide(l, w) && ph <= ParentSide(l, h)
    ensures Need(l.p2, pw, ph) + Area(w + Edge(l), h + Edge(l)) <= Need(l, w, h)
  {
    hide CopySpace, MaxSide, Area, ParentSide;
    var pw', ph' := ParentSide(l, w), ParentSide(l, h);
    Grows(l.p2, pw, ph, pw', ph');
    SideOfParents(l, w);
    SideOfParents(l, h);
    AreaGrows(MaxSide(l.p2, pw'), MaxSide(l.p2, ph'), MaxSide(l, w), MaxSide(l, h));
    CopiesStep(l, w, h);
  }

  /** A window, and a bordered window, fit on their own. */
  lemma {:induction false} WindowFits(l: Layer, w: nat, h: nat)
    ensures Area(w, h) <= Area(w + Edge(l), h + Edge(l)) <= Need(l, w, h)
    ensures KeepsCopy(l) ==> 2 * Area(w + Edge(l), h + Edge(l)) <= Need(l, w, h)
  {
    hide CopySpace, MaxSide, Area;
    CopiesStep(l, w, h);
    AreaGrows(w, h, w + Edge(l), h + Edge(l));
    AreaGrows(w + Edge(l), h + Edge(l), MaxSide(l, w), MaxSide(l, h));
  }

  /** The recursive accumulation of getMaxArea, with its three pointers as results. */
  method GetMaxArea(l: Layer, areaX: nat, areaZ: nat, maxX: nat, maxZ: nat, siz: nat)
    returns (mx: nat, mz: nat, s: nat)
    ensures mx == Max(maxX, MaxSide(l, areaX))
    ensures mz == Max(maxZ, MaxSide(l, areaZ))
    ensures s == siz + CopySpace(l, areaX, areaZ)
    decreases l
  {
    hide CopySpace, MaxSide, Area;
    CopiesStep(l, areaX, areaZ);
    SideStep(l, areaX);
    SideStep(l, areaZ);
    var ax, az := areaX + Edge(l), areaZ + Edge(l);
    s := siz + if KeepsCopy(l) then Area(ax, az) else 0;
    mx, mz := Max(maxX, ax), Max(maxZ, az);
    if Scale(l) == 2 {
      ax, az := ax / 2, az / 2;
    } else if Scale(l) == 4 {
      ax, az := ax / 4, az / 4;
    }
    assert s == siz + Own(l, areaX, areaZ);
    assert ax == ParentSide(l, areaX) && az == ParentSide(l, areaZ);
    if HasParent(l) {
      mx, mz, s := GetMaxArea(l.p, ax, az, mx, mz, s);
      if TwoParents(l) {
        mx, mz, s := GetMaxArea(l.p2, ax, az, mx, mz, s);
      }
    }
  }

  method GetMinLayerCacheSize(l: Layer, sizeX: nat, sizeZ: nat) returns (n: nat)
    ensures n == Need(l, sizeX, sizeZ)
  {
    var mx, mz, s := GetMaxArea(l, sizeX, sizeZ, sizeX, sizeZ, 0);
    n := s + Area(mx, mz);
  }

  /** The longest side that a layer asks of its first and of its second parent. */
  function Asks(l: Layer, a: nat): nat {
    match l
    case Stencil(_, _) => a + 2
    case Shore(_, _) => a + 2
    case Land(_, _) => a + 2
    case Island(_, _) => a + 2
    case Hills(_, _, _) => a + 2
    case Zoom(_, _, _) => (a + 3) / 2
    case OceanMix(_, _) => a + 16
    case Voronoi(_, _) => (a + 3) / 4 + 2
    case _ => a
  }

  function AsksSecond(l: Layer, a: nat): nat { if l.Hills? then a + 2 else a }

  /** Where the parent that is generated second begins, behind the one generated first. */
  function Behind(l: Layer, w: nat, h: nat): nat {
    if l.Hills? then Area(w + 2, h + 2) else if TwoParents(l) then Area(w, h) else 0
  }

  /** What a layer works on itself: its window, and what it builds beside its parent area. */
  function Work(l: Layer, w: nat, h: nat): nat {
    var pw, ph := Asks(l, w), Asks(l, h);
    if l.Zoom? then Max(Area(w, h), 5 * Area(pw, ph))
    else if l.Voronoi? then Area(pw, ph) + Area(w, h)
    else Area(w, h)
  }

  /** The space that generating a `w` by `h` window takes at most. */
  function Use(l: Layer, w: nat, h: nat): nat
    decreases l
  {
    if !HasParent(l) then Area(w, h)
    else
      var one := Use(l.p, Asks(l, w), Asks(l, h)) + if l.OceanMix? then Behind(l, w, h) else 0;
      var two := if !TwoParents(l) then 0
                 else Use(l.p2, AsksSecond(l, w), AsksSecond(l, h)) + if l.OceanMix? then 0 else Behind(l, w, h);
      Max(Work(l, w, h), Max(one, two))
  }

  lemma AsksGrow(l: Layer, a: nat, a': nat)
    requires a <= a'
    ensures Asks(l, a) <= Asks(l, a') && AsksSecond(l, a) <= AsksSecond(l, a')
  {
  }

  lemma WorkGrows(l: Layer, a: nat, b: nat, a': nat, b': nat)
    requires a <= a' && b <= b'
    ensures Work(l, a, b) <= Work(l, a', b') && Behind(l, a, b) <= Behind(l, a', b')
  {
    hide Asks, Area;
    AsksGrow(l, a, a');
    AsksGrow(l, b, b');
    AreaGrows(a, b, a', b');
    AreaGrows(a + 2, b + 2, a' + 2, b' + 2);
    AreaGrows(Asks(l, a), Asks(l, b), Asks(l, a'), Asks(l, b'));
  }

  lemma {:induction false} UseStep(l: Layer, w: nat, h: nat)
    requires HasParent(l)
    ensures var one := Use(l.p, Asks(l, w), Asks(l, h)) + if l.OceanMix? then Behind(l, w, h) else 0;
      var two := if !TwoParents(l) then 0
                 else Use(l.p2, AsksSecond(l, w), AsksSecond(l, h)) + if l.OceanMix? then 0 else Behind(l, w, h);
      Use(l, w, h) == Max(Work(l, w, h), Max(one, two))
  {
  }

  lemma {:induction false} UseGrows(l: Layer, a: nat, b: nat, a': nat, b': nat)
    requires a <= a' && b <= b'
    ensures Use(l, a, b) <= Use(l, a', b')
    decreases l
  {
    if HasParent(l) {
      hide Use, Asks, AsksSecond, Work, Behind, Area;
      UseStep(l, a, b);
      UseStep(l, a', b');
      WorkGrows(l, a, b, a', b');
      AsksGrow(l, a, a');
      AsksGrow(l, b, b');
      UseGrows(l.p, Asks(l, a), Asks(l, b), Asks(l, a'), Asks(l, b'));
      if TwoParents(l) {
        UseGrows(l.p2, AsksSecond(l, a), AsksSecond(l, b), AsksSecond(l, a'), AsksSecond(l, b'));
      }
    } else {
      AreaGrows(a, b, a', b');
    }
  }

  /** What is asked of the parents, and the work itself, stay within the space of the layer. */
  lemma {:induction false} UseCovers(l: Layer, w: nat, h: nat, pw: nat, ph: nat, qw: nat, qh: nat)
    requires HasParent(l) ==> pw <= Asks(l, w) && ph <= Asks(l, h)
    requires TwoParents(l) ==> qw <= AsksSecond(l, w) && qh <= AsksSecond(l, h)
    ensures Area(w, h) <= Use(l, w, h) && (HasParent(l) ==> Work(l, w, h) <= Use(l, w, h))
    ensures HasParent(l) ==> Use(l.p, pw, ph) + (if l.OceanMix? then Behind(l, w, h) else 0) <= Use(l, w, h)
    ensures TwoParents(l) ==> Use(l.p2, qw, qh) + (if l.OceanMix? then 0 else Behind(l, w, h)) <= Use(l, w, h)
  {
    hide Area, Behind, Asks, AsksSecond;
    if HasParent(l) {
      UseStep(l, w, h);
      UseGrows(l.p, pw, ph, Asks(l, w), Asks(l, h));
      if TwoParents(l) { UseGrows(l.p2, qw, qh, AsksSecond(l, w), AsksSecond(l, h)); }
    }
  }

  predicate NoVoronoi(l: Layer)
  {
    !l.Voronoi? && (HasParent(l) ==> NoVoronoi(l.p)) && (TwoParents(l) ==> NoVoronoi(l.p2))
  }

  /** Without a Voronoi layer the length that the library computes is always enough. */
  lemma {:induction false} NeedCovers(l: Layer, w: nat, h: nat)
    requires NoVoronoi(l)
    ensures Use(l, w, h) <= Need(l, w, h)
    decreases l
  {
    hide Area, CopySpace, MaxSide, Need;
    WindowFits(l, w, h);
    if HasParent(l) {
      UseStep(l, w, h);
      WorkFits(l, w, h);
      AsksFit(l, w);
      AsksFit(l, h);
      NeedCovers(l.p, Asks(l, w), Asks(l, h));
      FirstFits(l, w, h, Asks(l, w), Asks(l, h));
      if TwoParents(l) {
        NeedCovers(l.p2, AsksSecond(l, w), AsksSecond(l, h));
        SecondFits(l, w, h, AsksSecond(l, w), AsksSecond(l, h));
      }
    }
  }

  lemma AsksFit(l: Layer, a: nat)
    requires HasParent(l) && !l.Voronoi?
    ensures Asks(l, a) <= ParentSide(l, a) && (TwoParents(l) ==> AsksSecond(l, a) <= ParentSide(l, a))
  {
  }

  /** The side that the library reckons with is the one a layer asks for at most, but for the ocean
      mix, where it is one more, the Voronoi layer, where it is two less, and a one-to-one layer,
      whose border is added without being asked for. */
  lemma SideReckoned(l: Layer, a: nat)
    requires HasParent(l)
    ensures ParentSide(l, a) - Asks(l, a)
         == if l.OceanMix? then 1 else if l.Voronoi? then -2 else if l.Cell? then l.edge else 0
  {
  }

  lemma {:induction false} WorkFits(l: Layer, w: nat, h: nat)
    requires !l.Voronoi?
    ensures Work(l, w, h) <= Need(l, w, h)
  {
    hide Area, CopySpace, MaxSide, Need;
    WindowFits(l, w, h);
    if l.Zoom? {
      var pw, ph := Asks(l, w), Asks(l, h);
      DoubleArea(pw, ph);
      AreaGrows(2 * pw, 2 * ph, w + 3, h + 3);
    }
  }
}
