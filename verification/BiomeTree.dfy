/** The nearest-box search over the flattened biome tree (biomenoise.c). */
module BiomeTree {
  import opened Common

  const TWO16 := 0x1_0000

  /** A point in climate space and the reach of coordinates for which distances do not wrap. */
  type Climate = c: seq<int> | |c| == 6 witness [0, 0, 0, 0, 0, 0]

  const REACH := 0x2000_0000

  predicate Tame(np: Climate) { forall i :: 0 <= i < 6 ==> -REACH <= np[i] <= REACH }

  datatype Range = Range(lo: int, hi: int)

  /** A node: six indices into the range table and the upper 16 bits of the packed word,
      which are the first child of an inner node and the biome of a leaf. */
  datatype Node = Node(ranges: seq<nat>, inner: nat)

  datatype Tree = Tree(steps: seq<nat>, param: seq<Range>, nodes: seq<Node>, order: nat) {

    /** The range of node `idx` in dimension `i`. */
    function Box(idx: int, i: int): Range
      requires Sane() && 0 <= idx < |nodes| && 0 <= i < 6
    {
      param[nodes[idx].ranges[i]]
    }

    predicate Sane() {
      && |steps| > 0 && steps[|steps| - 1] == 0 && 0 < |nodes| <= TWO16 && order > 0
      && (forall k :: 0 <= k < |param| ==> -REACH <= param[k].lo <= param[k].hi <= REACH)
      && (forall k :: 0 <= k < |nodes| ==>
            |nodes[k].ranges| == 6 && nodes[k].inner < TWO16
            && forall i :: 0 <= i < 6 ==> nodes[k].ranges[i] < |param|)
      && (forall k :: 0 <= k < |steps| ==> |nodes| + steps[k] <= TWO16)
    }

    /** The level whose stride is used below `idx`: the first that stays inside the table. */
    function Level(idx: nat, depth: nat): (e: nat)
      requires Sane() && idx < |nodes| && depth < |steps|
      ensures depth <= e < |steps| && idx + steps[e] < |nodes|
      decreases |steps| - depth
    {
      if idx + steps[depth] < |nodes| then depth else Level(idx, depth + 1)
    }

    /** The box of `c` lies inside the box of `idx`. */
    ghost predicate Nested(c: nat, idx: nat)
      requires Sane() && c < |nodes| && idx < |nodes|
    {
      forall i :: 0 <= i < 6 ==> Box(idx, i).lo <= Box(c, i).lo && Box(c, i).hi <= Box(idx, i).hi
    }

    /** A well-formed subtree: leaves where the stride is 0, children in range, and the boxes
        of children nested in that of their parent, except below a root (`top`). */
    ghost predicate Formed(idx: nat, depth: nat, top: bool)
      requires Sane()
      decreases |steps| - depth, 1, 0
    {
      && idx < |nodes| && depth < |steps|
      && (steps[depth] != 0 ==>
            var e := Level(idx, depth);
            && steps[e] != 0 && e + 1 < |steps| && nodes[idx].inner < |nodes|
            && FormedChildren(idx, nodes[idx].inner, steps[e], e + 1, order, top))
    }

    ghost predicate FormedChildren(idx: nat, c: nat, step: nat, depth: nat, n: nat, top: bool)
      requires Sane() && idx < |nodes| && depth <= |steps|
      decreases |steps| - depth, 2, n
    {
      n > 0 && c < |nodes| ==>
        Formed(c, depth, false) && (top || Nested(c, idx))
        && FormedChildren(idx, c + step, step, depth, n - 1, top)
    }

    /** The leaves below a node in the order the search meets them. */
    ghost function Leaves(idx: nat, depth: nat, top: bool): (ls: seq<nat>)
      requires Sane() && Formed(idx, depth, top)
      ensures ls != [] && forall k :: 0 <= k < |ls| ==> ls[k] < |nodes|
      decreases |steps| - depth, 1, 0
    {
      if steps[depth] == 0 then [idx]
      else
        var e := Level(idx, depth);
        LeavesOf(idx, nodes[idx].inner, steps[e], e + 1, order, top)
    }

    ghost function LeavesOf(idx: nat, c: nat, step: nat, depth: nat, n: nat, top: bool): (ls: seq<nat>)
      requires Sane() && idx < |nodes| && depth <= |steps| && FormedChildren(idx, c, step, depth, n, top)
      ensures n > 0 && c < |nodes| ==> ls != []
      ensures forall k :: 0 <= k < |ls| ==> ls[k] < |nodes|
      decreases |steps| - depth, 2, n
    {
      if n == 0 || c >= |nodes| then []
      else Leaves(c, depth, false) + LeavesOf(idx, c + step, step, depth, n - 1, top)
    }
  }

  /** The distance of a coordinate from a range, as the unsigned comparisons compute it. */
  function Gap(n: int, r: Range): nat
  {
    if n - r.hi > 0 then n - r.hi else if r.lo - n > 0 then r.lo - n else 0
  }

  function Square(d: nat): nat { d * d }

  function SquareSum(np: Climate, t: Tree, idx: nat, i: nat): nat
    requires t.Sane() && idx < |t.nodes| && i <= 6
  {
    if i == 0 then 0 else SquareSum(np, t, idx, i - 1) + Square(Gap(np[i - 1], t.Box(idx, i - 1)))
  }

  /** The squared distance of a point from the box of a node, in 64 bits. */
  function Dist(np: Climate, t: Tree, idx: nat): nat
    requires t.Sane() && idx < |t.nodes|
  {
    SquareSum(np, t, idx, 6) % TWO64
  }

  lemma SquareGrows(a: nat, b: nat)
    requires a <= b
    ensures Square(a) <= Square(b)
  {
    assert a * a <= a * b <= b * b;
  }

  /** For coordinates within reach the sum never wraps. */
  lemma {:induction false} NoWrap(np: Climate, t: Tree, idx: nat, i: nat)
    requires Tame(np) && t.Sane() && idx < |t.nodes| && i <= 6
    ensures SquareSum(np, t, idx, i) <= i * Square(2 * REACH)
  {
    if i > 0 {
      NoWrap(np, t, idx, i - 1);
      SquareGrows(Gap(np[i - 1], t.Box(idx, i - 1)), 2 * REACH);
    }
  }

  lemma DistIsSum(np: Climate, t: Tree, idx: nat)
    requires Tame(np) && t.Sane() && idx < |t.nodes|
    ensures Dist(np, t, idx) == SquareSum(np, t, idx, 6) < TWO64 - 1
  {
    NoWrap(np, t, idx, 6);
  }

  function Away(n: int, v: int): nat { if n < v then v - n else n - v }

  /** The gap is the distance to the nearest number of the range. */
  lemma GapIsLeast(n: int, r: Range)
    requires r.lo <= r.hi
    ensures exists v :: r.lo <= v <= r.hi && Gap(n, r) == Away(n, v)
    ensures forall v :: r.lo <= v <= r.hi ==> Gap(n, r) <= Away(n, v)
  {
    var v := if n < r.lo then r.lo else if n > r.hi then r.hi else n;
    assert Gap(n, r) == Away(n, v);
  }

  /** The squared distance of two points. */
  function PointDist(np: Climate, p: Climate): nat {
    Square(Away(np[0], p[0])) + Square(Away(np[1], p[1])) + Square(Away(np[2], p[2]))
    + Square(Away(np[3], p[3])) + Square(Away(np[4], p[4])) + Square(Away(np[5], p[5]))
  }

  /** A point of the box of a node. */
  ghost predicate InBox(t: Tree, idx: nat, p: Climate)
    requires t.Sane() && idx < |t.nodes|
  {
    forall i :: 0 <= i < 6 ==> t.Box(idx, i).lo <= p[i] <= t.Box(idx, i).hi
  }

  lemma {:induction false} SumUnrolled(np: Climate, t: Tree, idx: nat)
    requires t.Sane() && idx < |t.nodes|
    ensures SquareSum(np, t, idx, 6) == Square(Gap(np[0], t.Box(idx, 0))) + Square(Gap(np[1], t.Box(idx, 1)))
      + Square(Gap(np[2], t.Box(idx, 2))) + Square(Gap(np[3], t.Box(idx, 3)))
      + Square(Gap(np[4], t.Box(idx, 4))) + Square(Gap(np[5], t.Box(idx, 5)))
  {
    hide SquareSum, Square, Gap;
    SumStep(np, t, idx, 0);
    SumStep(np, t, idx, 1);
    SumStep(np, t, idx, 2);
    SumStep(np, t, idx, 3);
    SumStep(np, t, idx, 4);
    SumStep(np, t, idx, 5);
  }

  lemma SumStep(np: Climate, t: Tree, idx: nat, i: nat)
    requires t.Sane() && idx < |t.nodes| && i < 6
    ensures SquareSum(np, t, idx, 0) == 0
    ensures SquareSum(np, t, idx, i + 1) == SquareSum(np, t, idx, i) + Square(Gap(np[i], t.Box(idx, i)))
  {
  }

  lemma NoPointNearer(np: Climate, t: Tree, idx: nat, p: Climate)
    requires Tame(np) && t.Sane() && idx < |t.nodes| && InBox(t, idx, p)
    ensures Dist(np, t, idx) <= PointDist(np, p)
  {
    hide Square, Gap, Away;
    DistIsSum(np, t, idx);
    SumUnrolled(np, t, idx);
    forall i | 0 <= i < 6 ensures Square(Gap(np[i], t.Box(idx, i))) <= Square(Away(np[i], p[i])) {
      GapIsLeast(np[i], t.Box(idx, i));
      SquareGrows(Gap(np[i], t.Box(idx, i)), Away(np[i], p[i]));
    }
  }

  function Clamp(n: int, r: Range): int { if n < r.lo then r.lo else if n > r.hi then r.hi else n }

  /** The distance of a node is that of the nearest point of its box. */
  lemma {:induction false} DistIsLeast(np: Climate, t: Tree, idx: nat)
    requires Tame(np) && t.Sane() && idx < |t.nodes|
    ensures exists p: Climate :: InBox(t, idx, p) && Dist(np, t, idx) == PointDist(np, p)
    ensures forall p: Climate :: InBox(t, idx, p) ==> Dist(np, t, idx) <= PointDist(np, p)
  {
    hide Square, Dist, InBox;
    forall p: Climate | InBox(t, idx, p) ensures Dist(np, t, idx) <= PointDist(np, p) { NoPointNearer(np, t, idx, p); }
    NearestPoint(np, t, idx);
  }

  lemma NearestPoint(np: Climate, t: Tree, idx: nat)
    requires Tame(np) && t.Sane() && idx < |t.nodes|
    ensures exists p: Climate :: InBox(t, idx, p) && Dist(np, t, idx) == PointDist(np, p)
  {
    hide Square;
    DistIsSum(np, t, idx);
    SumUnrolled(np, t, idx);
    var p: Climate := seq(6, i requires 0 <= i < 6 => Clamp(np[i], t.Box(idx, i)));
    assert forall i :: 0 <= i < 6 ==> Away(np[i], p[i]) == Gap(np[i], t.Box(idx, i));
    assert InBox(t, idx, p) && Dist(np, t, idx) == PointDist(np, p);
  }

  /** Some point of the box of `leaf` is at least as near as every point of the boxes of `ls`. */
  ghost predicate NearestPointOf(np: Climate, t: Tree, ls: seq<nat>, leaf: nat)
    requires t.Sane() && leaf < |t.nodes| && forall j :: 0 <= j < |ls| ==> ls[j] < |t.nodes|
  {
    exists p: Climate :: InBox(t, leaf, p) && NoneNearer(np, t, ls, PointDist(np, p))
  }

  ghost predicate NoneNearer(np: Climate, t: Tree, ls: seq<nat>, ds: nat)
    requires t.Sane() && forall j :: 0 <= j < |ls| ==> ls[j] < |t.nodes|
  {
    forall j, q: Climate :: 0 <= j < |ls| && InBox(t, ls[j], q) ==> ds <= PointDist(np, q)
  }

  lemma {:induction false} NearestBox(np: Climate, t: Tree, ls: seq<nat>, leaf: nat)
    requires Tame(np) && t.Sane() && leaf < |t.nodes| && forall j :: 0 <= j < |ls| ==> ls[j] < |t.nodes|
    requires forall j :: 0 <= j < |ls| ==> Dist(np, t, leaf) <= Dist(np, t, ls[j])
    ensures NearestPointOf(np, t, ls, leaf)
  {
    hide Dist, PointDist, InBox;
    DistIsLeast(np, t, leaf);
    var p: Climate :| InBox(t, leaf, p) && Dist(np, t, leaf) == PointDist(np, p);
    forall j, q: Climate | 0 <= j < |ls| && InBox(t, ls[j], q) ensures PointDist(np, p) <= PointDist(np, q) {
      DistIsLeast(np, t, ls[j]);
    }
    assert NoneNearer(np, t, ls, PointDist(np, p));
  }

  /** A nested box is never nearer. */
  lemma {:induction false} NestedSum(np: Climate, t: Tree, c: nat, idx: nat, i: nat)
    requires t.Sane() && c < |t.nodes| && idx < |t.nodes| && t.Nested(c, idx) && i <= 6
    ensures SquareSum(np, t, idx, i) <= SquareSum(np, t, c, i)
  {
    if i > 0 {
      NestedSum(np, t, c, idx, i - 1);
      SquareGrows(Gap(np[i - 1], t.Box(idx, i - 1)), Gap(np[i - 1], t.Box(c, i - 1)));
    }
  }

  /** No leaf of a pruned subtree is nearer than the subtree's own box. */
  lemma {:induction false} LeavesFarther(np: Climate, t: Tree, idx: nat, depth: nat)
    requires Tame(np) && t.Sane() && t.Formed(idx, depth, false)
    ensures forall k :: 0 <= k < |t.Leaves(idx, depth, false)| ==>
      Dist(np, t, idx) <= Dist(np, t, t.Leaves(idx, depth, false)[k])
    decreases |t.steps| - depth, 1, 0
  {
    if t.steps[depth] != 0 {
      var e := t.Level(idx, depth);
      ChildrenFarther(np, t, idx, t.nodes[idx].inner, t.steps[e], e + 1, t.order);
    }
  }

  lemma {:induction false} ChildrenFarther(np: Climate, t: Tree, idx: nat, c: nat, step: nat, depth: nat, n: nat)
    requires Tame(np) && t.Sane() && idx < |t.nodes| && depth <= |t.steps|
    requires t.FormedChildren(idx, c, step, depth, n, false)
    ensures forall k :: 0 <= k < |t.LeavesOf(idx, c, step, depth, n, false)| ==>
      Dist(np, t, idx) <= Dist(np, t, t.LeavesOf(idx, c, step, depth, n, false)[k])
    decreases |t.steps| - depth, 2, n
  {
    if n > 0 && c < |t.nodes| {
      LeavesFarther(np, t, c, depth);
      ChildrenFarther(np, t, idx, c + step, step, depth, n - 1);
      NestedSum(np, t, c, idx, 6);
      DistIsSum(np, t, c);
      DistIsSum(np, t, idx);
    }
  }

  /** The exhaustive scan: keep a leaf whenever it is strictly nearer than what is kept. */
  datatype Best = Best(leaf: nat, ds: nat)

  ghost function Scan(np: Climate, t: Tree, ls: seq<nat>, b: Best): Best
    requires t.Sane() && forall k :: 0 <= k < |ls| ==> ls[k] < |t.nodes|
  {
    if ls == [] then b
    else
      var d := Dist(np, t, ls[0]);
      Scan(np, t, ls[1..], if d < b.ds then Best(ls[0], d) else b)
  }

  /** What the scan finds: the first leaf of least distance if that beats the bound it was
      given, and otherwise the alternative. */
  lemma {:induction false} ScanFindsFirstNearest(np: Climate, t: Tree, ls: seq<nat>, b: Best)
    requires t.Sane() && forall k :: 0 <= k < |ls| ==> ls[k] < |t.nodes|
    ensures var r := Scan(np, t, ls, b);
      if exists k :: 0 <= k < |ls| && Dist(np, t, ls[k]) < b.ds then
        && (forall k :: 0 <= k < |ls| ==> r.ds <= Dist(np, t, ls[k]))
        && exists k :: 0 <= k < |ls| && ls[k] == r.leaf && r.ds == Dist(np, t, ls[k])
             && forall j :: 0 <= j < k ==> Dist(np, t, ls[j]) > r.ds
      else r == b
  {
    hide Dist;
    if ls != [] {
      var d := Dist(np, t, ls[0]);
      var b' := if d < b.ds then Best(ls[0], d) else b;
      ScanFindsFirstNearest(np, t, ls[1..], b');
      var r := Scan(np, t, ls, b);
      assert forall k :: 1 <= k < |ls| ==> ls[k] == ls[1..][k - 1];
      assert forall k :: 0 <= k < |ls[1..]| ==> ls[1..][k] == ls[k + 1];
      if k' :| 0 <= k' < |ls[1..]| && Dist(np, t, ls[1..][k']) < b'.ds {
        var k :| 0 <= k < |ls[1..]| && ls[1..][k] == r.leaf && r.ds == Dist(np, t, ls[1..][k])
             && forall j :: 0 <= j < k ==> Dist(np, t, ls[1..][j]) > r.ds;
        assert ls[k + 1] == r.leaf;
        assert Dist(np, t, ls[k' + 1]) < b'.ds;
        forall j | 0 <= j < k + 1 ensures Dist(np, t, ls[j]) > r.ds {
          if j > 0 { assert ls[j] == ls[1..][j - 1]; }
        }
      } else {
        assert r == b';
      }
    }
  }

  /** The k-th leaf is the first of the nearest. */
  ghost predicate FirstAt(np: Climate, t: Tree, ls: seq<nat>, k: nat)
    requires t.Sane() && k < |ls| && forall j :: 0 <= j < |ls| ==> ls[j] < |t.nodes|
  {
    && (forall j :: 0 <= j < |ls| ==> Dist(np, t, ls[k]) <= Dist(np, t, ls[j]))
    && (forall j :: 0 <= j < k ==> Dist(np, t, ls[k]) < Dist(np, t, ls[j]))
  }

  ghost predicate IsFirst(np: Climate, t: Tree, ls: seq<nat>, leaf: nat)
    requires t.Sane() && forall j :: 0 <= j < |ls| ==> ls[j] < |t.nodes|
  {
    exists k :: 0 <= k < |ls| && ls[k] == leaf && FirstAt(np, t, ls, k)
  }

  ghost predicate SomeFar(np: Climate, t: Tree, ls: seq<nat>, bound: nat)
    requires t.Sane() && forall j :: 0 <= j < |ls| ==> ls[j] < |t.nodes|
  {
    exists k :: 0 <= k < |ls| && Dist(np, t, ls[k]) >= bound
  }

  /** Where the search stands after the leaves `ls`, with the alternative and the bound of `b`. It
      holds the first of the nearest leaves, or still the alternative. The alternative comes to
      compete with its own distance once a leaf that does not beat the bound has been met. */
  ghost predicate Found(np: Climate, t: Tree, ls: seq<nat>, b: Best, r: Best)
    requires t.Sane() && forall j :: 0 <= j < |ls| ==> ls[j] < |t.nodes|
  {
    && b.leaf < |t.nodes| && r.leaf < |t.nodes|
    && (forall j :: 0 <= j < |ls| ==> r.ds <= Dist(np, t, ls[j]))
    && (r == b || r.ds == Dist(np, t, r.leaf) < b.ds)
    && (IsFirst(np, t, ls, r.leaf) || (r.leaf == b.leaf && (r.ds < b.ds ==> SomeFar(np, t, ls, b.ds))))
  }

  lemma {:induction false} FirstAppend(np: Climate, t: Tree, ls: seq<nat>, ms: seq<nat>, leaf: nat, ds: nat)
    requires t.Sane() && forall j :: 0 <= j < |ls| ==> ls[j] < |t.nodes|
    requires forall j :: 0 <= j < |ms| ==> ms[j] < |t.nodes|
    requires leaf < |t.nodes| && ds == Dist(np, t, leaf)
    requires forall j :: 0 <= j < |ls| ==> ds <= Dist(np, t, ls[j])
    requires forall j :: 0 <= j < |ms| ==> ds <= Dist(np, t, ms[j])
    requires IsFirst(np, t, ls, leaf)
          || (IsFirst(np, t, ms, leaf) && forall j :: 0 <= j < |ls| ==> ds < Dist(np, t, ls[j]))
    ensures IsFirst(np, t, ls + ms, leaf)
  {
    hide Dist;
    if IsFirst(np, t, ls, leaf) {
      var k: nat :| k < |ls| && ls[k] == leaf && FirstAt(np, t, ls, k);
      assert FirstAt(np, t, ls + ms, k);
    } else {
      var k: nat :| k < |ms| && ms[k] == leaf && FirstAt(np, t, ms, k);
      assert (ls + ms)[|ls| + k] == leaf;
      assert FirstAt(np, t, ls + ms, |ls| + k);
    }
  }

  lemma {:induction false} FarAppend(np: Climate, t: Tree, ls: seq<nat>, ms: seq<nat>, bound: nat)
    requires t.Sane() && forall j :: 0 <= j < |ls| ==> ls[j] < |t.nodes|
    requires forall j :: 0 <= j < |ms| ==> ms[j] < |t.nodes|
    requires SomeFar(np, t, ls, bound) || SomeFar(np, t, ms, bound)
    ensures SomeFar(np, t, ls + ms, bound)
  {
    hide Dist;
    if SomeFar(np, t, ls, bound) {
      var k: nat :| k < |ls| && Dist(np, t, ls[k]) >= bound;
      assert (ls + ms)[k] == ls[k];
    } else {
      var k: nat :| k < |ms| && Dist(np, t, ms[k]) >= bound;
      assert (ls + ms)[|ls| + k] == ms[k];
    }
  }

  /** The search of one stretch of leaves after another is a search of both. */
  lemma {:induction false} FoundAppend(np: Climate, t: Tree, ls: seq<nat>, ms: seq<nat>, b: Best, m: Best, r: Best)
    requires t.Sane() && forall j :: 0 <= j < |ls| ==> ls[j] < |t.nodes|
    requires forall j :: 0 <= j < |ms| ==> ms[j] < |t.nodes|
    requires Found(np, t, ls, b, m) && Found(np, t, ms, m, r)
    ensures Found(np, t, ls + ms, b, r)
  {
    hide Dist, IsFirst, SomeFar;
    if r == m {
      if IsFirst(np, t, ls, r.leaf) && r.ds == Dist(np, t, r.leaf) {
        FirstAppend(np, t, ls, ms, r.leaf, r.ds);
      } else if SomeFar(np, t, ls, b.ds) {
        FarAppend(np, t, ls, ms, b.ds);
      }
    } else if IsFirst(np, t, ms, r.leaf) {
      FirstAppend(np, t, ls, ms, r.leaf, r.ds);
    } else {
      FarAppend(np, t, ls, ms, b.ds);
    }
  }

  /** A pruned child: none of its leaves beats the bound. */
  lemma Pruned(np: Climate, t: Tree, c: nat, depth: nat, b: Best)
    requires Tame(np) && t.Sane() && t.Formed(c, depth, false) && b.leaf < |t.nodes|
    requires Dist(np, t, c) >= b.ds
    ensures Found(np, t, t.Leaves(c, depth, false), b, b)
  {
    hide Dist;
    LeavesFarther(np, t, c, depth);
  }

  /** A child that has been searched: its leaf is taken when it is nearer than the bound. */
  lemma {:induction false} Entered(np: Climate, t: Tree, ls: seq<nat>, b: Best, r: Best)
    requires t.Sane() && ls != [] && forall j :: 0 <= j < |ls| ==> ls[j] < |t.nodes|
    requires Found(np, t, ls, b, r)
    ensures var d := Dist(np, t, r.leaf); Found(np, t, ls, b, if d < b.ds then Best(r.leaf, d) else b)
  {
    hide Dist, IsFirst;
    assert r == b ==> Dist(np, t, ls[0]) >= b.ds;
  }

  lemma {:induction false} FoundHere(np: Climate, t: Tree, idx: nat, b: Best)
    requires t.Sane() && idx < |t.nodes| && b.leaf < |t.nodes| && Dist(np, t, idx) < b.ds
    ensures Found(np, t, [idx], b, Best(idx, Dist(np, t, idx)))
  {
    hide Dist;
    assert [idx][0] == idx && FirstAt(np, t, [idx], 0);
  }

  /** For every bound and every alternative: if no leaf beats the bound the result is the
      alternative; otherwise no leaf is nearer than it, and it is what the scan finds, or the
      alternative, which then is nearer than the bound while some leaf is not. */
  lemma {:induction false} FoundMeans(np: Climate, t: Tree, ls: seq<nat>, b: Best, r: Best)
    requires t.Sane() && (forall j :: 0 <= j < |ls| ==> ls[j] < |t.nodes|) && Found(np, t, ls, b, r)
    ensures (forall j :: 0 <= j < |ls| ==> Dist(np, t, ls[j]) >= b.ds) ==> r.leaf == b.leaf
    ensures (exists j :: 0 <= j < |ls| && Dist(np, t, ls[j]) < b.ds) ==>
      forall j :: 0 <= j < |ls| ==> Dist(np, t, r.leaf) <= Dist(np, t, ls[j])
    ensures r.leaf == Scan(np, t, ls, b).leaf
         || (r.leaf == b.leaf && Dist(np, t, b.leaf) < b.ds && SomeFar(np, t, ls, b.ds))
  {
    hide Dist, Scan;
    ScanFindsFirstNearest(np, t, ls, b);
    if j :| 0 <= j < |ls| && Dist(np, t, ls[j]) < b.ds {
      ScanFirstAt(np, t, ls, b, j);
      if IsFirst(np, t, ls, r.leaf) { FirstUnique(np, t, ls, r.leaf, Scan(np, t, ls, b).leaf); }
    }
  }

  lemma {:induction false} FirstUnique(np: Climate, t: Tree, ls: seq<nat>, a: nat, b: nat)
    requires t.Sane() && forall j :: 0 <= j < |ls| ==> ls[j] < |t.nodes|
    requires IsFirst(np, t, ls, a) && IsFirst(np, t, ls, b)
    ensures a == b
  {
    hide Dist;
    var j: nat :| j < |ls| && ls[j] == a && FirstAt(np, t, ls, j);
    var k: nat :| k < |ls| && ls[k] == b && FirstAt(np, t, ls, k);
  }

  /** Skip the strides that leave the table. */
  method Descend(t: Tree, idx: nat, depth: nat) returns (step: nat, d: nat)
    requires t.Sane() && idx < |t.nodes| && depth < |t.steps|
    ensures var e := t.Level(idx, depth); step == t.steps[e] && d == e + 1
  {
    d := depth;
    step := t.steps[d];
    d := d + 1;
    while idx + step >= |t.nodes|
      invariant depth < d <= |t.steps| && step == t.steps[d - 1]
      invariant t.Level(idx, d - 1) == t.Level(idx, depth)
      decreases |t.steps| - d
    {
      step := t.steps[d];
      d := d + 1;
    }
  }

  /** One child: skip it when its box is no nearer than the bound, else search below it. */
  method VisitChild(np: Climate, t: Tree, inner: nat, alt: nat, bound: nat, depth: nat)
    returns (leaf: nat, ds: nat)
    requires Tame(np) && t.Sane() && t.Formed(inner, depth, false) && alt < |t.nodes|
    ensures Found(np, t, t.Leaves(inner, depth, false), Best(alt, bound), Best(leaf, ds))
    decreases |t.steps| - depth, 1
  {
    hide Found, Dist;
    leaf, ds := alt, bound;
    var dsInner := Dist(np, t, inner);
    if dsInner < ds {
      ghost var found;
      var leaf2;
      leaf2, found := GetResultingNode(np, t, inner, leaf, ds, depth, false);
      FoundIn(np, t, t.Leaves(inner, depth, false), Best(alt, bound), found);
      Entered(np, t, t.Leaves(inner, depth, false), Best(alt, bound), found);
      var dsLeaf2 := if inner == leaf2 then dsInner else Dist(np, t, leaf2);
      if dsLeaf2 < ds {
        ds := dsLeaf2;
        leaf := leaf2;
      }
    } else {
      Pruned(np, t, inner, depth, Best(alt, bound));
    }
  }

  lemma FoundIn(np: Climate, t: Tree, ls: seq<nat>, b: Best, r: Best)
    requires t.Sane() && (forall j :: 0 <= j < |ls| ==> ls[j] < |t.nodes|) && Found(np, t, ls, b, r)
    ensures r.leaf < |t.nodes|
  {
  }

  /** The branch and bound search, for every bound; at a leaf it returns that leaf. */
  method GetResultingNode(np: Climate, t: Tree, idx: nat, alt: nat, bound: nat, depth: nat, ghost top: bool)
    returns (leaf: nat, ghost found: Best)
    requires Tame(np) && t.Sane() && t.Formed(idx, depth, top) && alt < |t.nodes|
    ensures leaf == found.leaf && (t.steps[depth] == 0 ==> leaf == idx)
    ensures t.steps[depth] != 0 || Dist(np, t, idx) < bound ==>
      Found(np, t, t.Leaves(idx, depth, top), Best(alt, bound), found)
    decreases |t.steps| - depth, 0
  {
    if t.steps[depth] == 0 {
      if Dist(np, t, idx) < bound { FoundHere(np, t, idx, Best(alt, bound)); }
      return idx, Best(idx, Dist(np, t, idx));
    }
    var step, d := Descend(t, idx, depth);
    leaf, found := SearchChildren(np, t, idx, step, d, alt, bound, top);
  }

  /** What is left of the search among the children of a node, `n` of them from `inner` on: the
      leaves met before are `seen`, and `b` has been found among them. */
  ghost predicate Searching(np: Climate, t: Tree, idx: nat, inner: nat, step: nat, d: nat, n: nat, top: bool,
                            all: seq<nat>, seen: seq<nat>, b0: Best, b: Best)
    requires t.Sane() && idx < |t.nodes| && d <= |t.steps|
  {
    && t.FormedChildren(idx, inner, step, d, n, top)
    && all == seen + t.LeavesOf(idx, inner, step, d, n, top)
    && (forall j :: 0 <= j < |seen| ==> seen[j] < |t.nodes|)
    && Found(np, t, seen, b0, b)
  }

  lemma SearchStart(np: Climate, t: Tree, idx: nat, inner: nat, step: nat, d: nat, n: nat, top: bool, b: Best)
    requires t.Sane() && idx < |t.nodes| && d <= |t.steps| && b.leaf < |t.nodes|
    requires t.FormedChildren(idx, inner, step, d, n, top)
    ensures Searching(np, t, idx, inner, step, d, n, top, t.LeavesOf(idx, inner, step, d, n, top), [], b, b)
  {
    hide Dist;
  }

  lemma SearchHere(np: Climate, t: Tree, idx: nat, inner: nat, step: nat, d: nat, n: nat, top: bool,
                   all: seq<nat>, seen: seq<nat>, b0: Best, b: Best)
    requires t.Sane() && idx < |t.nodes| && d <= |t.steps| && n > 0 && inner < |t.nodes|
    requires Searching(np, t, idx, inner, step, d, n, top, all, seen, b0, b)
    ensures t.Formed(inner, d, false) && b.leaf < |t.nodes|
  {
  }

  lemma SearchStep(np: Climate, t: Tree, idx: nat, inner: nat, step: nat, d: nat, n: nat, top: bool,
                   all: seq<nat>, seen: seq<nat>, b0: Best, b: Best, r: Best)
    requires t.Sane() && idx < |t.nodes| && d <= |t.steps| && n > 0 && inner < |t.nodes|
    requires Searching(np, t, idx, inner, step, d, n, top, all, seen, b0, b)
    requires t.Formed(inner, d, false) && Found(np, t, t.Leaves(inner, d, false), b, r)
    ensures Searching(np, t, idx, inner + step, step, d, n - 1, top, all, seen + t.Leaves(inner, d, false), b0, r)
  {
    hide Found, Dist;
    var here, rest := t.Leaves(inner, d, false), t.LeavesOf(idx, inner + step, step, d, n - 1, top);
    assert t.LeavesOf(idx, inner, step, d, n, top) == here + rest;
    FoundAppend(np, t, seen, here, b0, b, r);
    assert all == (seen + here) + rest;
  }

  method SearchChildren(np: Climate, t: Tree, idx: nat, step: nat, d: nat, alt: nat, bound: nat,
                        ghost top: bool) returns (leaf: nat, ghost found: Best)
    requires Tame(np) && t.Sane() && idx < |t.nodes| && d <= |t.steps| && step in t.steps
    requires t.nodes[idx].inner < |t.nodes| && alt < |t.nodes|
    requires t.FormedChildren(idx, t.nodes[idx].inner, step, d, t.order, top)
    ensures leaf == found.leaf
    ensures Found(np, t, t.LeavesOf(idx, t.nodes[idx].inner, step, d, t.order, top), Best(alt, bound), found)
    decreases |t.steps| - d, 2
  {
    hide Searching, Found, Tree.Formed, Tree.FormedChildren;
    var inner: nat, ds: nat := t.nodes[idx].inner, bound;
    leaf := alt;
    var i := 0;
    ghost var all, seen := t.LeavesOf(idx, inner, step, d, t.order, top), [];
    SearchStart(np, t, idx, inner, step, d, t.order, top, Best(alt, bound));
    while i < t.order
      invariant 0 <= i <= t.order && inner < |t.nodes|
      invariant Searching(np, t, idx, inner, step, d, t.order - i, top, all, seen, Best(alt, bound), Best(leaf, ds))
      decreases t.order - i
    {
      SearchHere(np, t, idx, inner, step, d, t.order - i, top, all, seen, Best(alt, bound), Best(leaf, ds));
      ghost var was := Best(leaf, ds);
      leaf, ds := VisitChild(np, t, inner, leaf, ds, d);
      SearchStep(np, t, idx, inner, step, d, t.order - i, top, all, seen, Best(alt, bound), was, Best(leaf, ds));
      seen := seen + t.Leaves(inner, d, false);
      i := i + 1;
      inner := (inner + step) % TWO16;
      if inner >= |t.nodes| {
        break;
      }
    }
    SearchDone(np, t, idx, inner, step, d, t.order - i, top, all, seen, Best(alt, bound), Best(leaf, ds));
    found := Best(leaf, ds);
  }

  lemma SearchDone(np: Climate, t: Tree, idx: nat, inner: nat, step: nat, d: nat, n: nat, top: bool,
                   all: seq<nat>, seen: seq<nat>, b0: Best, b: Best)
    requires t.Sane() && idx < |t.nodes| && d <= |t.steps| && (n == 0 || inner >= |t.nodes|)
    requires Searching(np, t, idx, inner, step, d, n, top, all, seen, b0, b)
    ensures all == seen && Found(np, t, seen, b0, b)
  {
    hide Found;
  }

  lemma {:induction false} ScanFirstAt(np: Climate, t: Tree, ls: seq<nat>, b: Best, i: nat)
    requires t.Sane() && forall j :: 0 <= j < |ls| ==> ls[j] < |t.nodes|
    requires i < |ls| && Dist(np, t, ls[i]) < b.ds
    ensures IsFirst(np, t, ls, Scan(np, t, ls, b).leaf)
  {
    hide Dist;
    ScanFindsFirstNearest(np, t, ls, b);
    var r := Scan(np, t, ls, b);
    assert exists k :: 0 <= k < |ls| && Dist(np, t, ls[k]) < b.ds;
    var k :| 0 <= k < |ls| && ls[k] == r.leaf && r.ds == Dist(np, t, ls[k])
             && forall j :: 0 <= j < k ==> Dist(np, t, ls[j]) > r.ds;
    assert FirstAt(np, t, ls, k);
  }

  /** The search from the root without a hint: the first nearest of all leaves. */
  method ClimateToNode(np: Climate, t: Tree) returns (leaf: nat)
    requires Tame(np) && t.Sane() && t.Formed(0, 0, true) && t.steps[0] != 0
    ensures IsFirst(np, t, t.Leaves(0, 0, true), leaf)
    ensures leaf < |t.nodes| && NearestPointOf(np, t, t.Leaves(0, 0, true), leaf)
  {
    hide IsFirst, FirstAt, Dist, Scan, Found, NearestPointOf;
    ghost var ls, b := t.Leaves(0, 0, true), Best(0, TWO64 - 1);
    ghost var found;
    leaf, found := GetResultingNode(np, t, 0, 0, TWO64 - 1, 0, true);
    forall k | 0 <= k < |ls| ensures Dist(np, t, ls[k]) < TWO64 - 1 {
      DistIsSum(np, t, ls[k]);
    }
    NoneFar(np, t, ls, TWO64 - 1);
    FoundMeans(np, t, ls, b, found);
    ScanFirstAt(np, t, ls, b, 0);
    FirstIsLeast(np, t, ls, leaf);
    NearestBox(np, t, ls, leaf);
  }

  lemma FirstIsLeast(np: Climate, t: Tree, ls: seq<nat>, leaf: nat)
    requires t.Sane() && (forall j :: 0 <= j < |ls| ==> ls[j] < |t.nodes|) && IsFirst(np, t, ls, leaf)
    ensures leaf < |t.nodes| && forall j :: 0 <= j < |ls| ==> Dist(np, t, leaf) <= Dist(np, t, ls[j])
  {
    hide Dist;
  }

  lemma NoneFar(np: Climate, t: Tree, ls: seq<nat>, bound: nat)
    requires t.Sane() && forall k :: 0 <= k < |ls| ==> ls[k] < |t.nodes| && Dist(np, t, ls[k]) < bound
    ensures !SomeFar(np, t, ls, bound)
  {
  }

  /** The search with a hint, which becomes the next hint. A hint that is a leaf can change
      which of several nearest leaves is found, but never how near it is; any other result is the
      first of the nearest leaves. */
  method ClimateToNodeHinted(np: Climate, t: Tree, hint: nat) returns (leaf: nat)
    requires Tame(np) && t.Sane() && t.Formed(0, 0, true) && t.steps[0] != 0 && hint < |t.nodes|
    ensures var ls := t.Leaves(0, 0, true);
      && leaf < |t.nodes|
      && (forall j :: 0 <= j < |ls| ==> Dist(np, t, leaf) <= Dist(np, t, ls[j]))
      && (leaf != hint ==> Dist(np, t, leaf) < Dist(np, t, hint))
      && (leaf != hint ==> IsFirst(np, t, ls, leaf))
      && NearestPointOf(np, t, ls, leaf)
  {
    hide IsFirst, FirstAt, Dist, NearestPointOf;
    ghost var ls := t.Leaves(0, 0, true);
    var ds := Dist(np, t, hint);
    ghost var found;
    leaf, found := GetResultingNode(np, t, 0, hint, ds, 0, true);
    NearestBox(np, t, ls, leaf);
  }
}
