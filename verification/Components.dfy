/** Four-connected components of block regions. */
module Components {

  datatype Cell = Cell(x: int, z: int)

  type Region = Cell -> bool

  predicate Adjacent(a: Cell, b: Cell) {
    (a.x == b.x && (a.z - b.z == 1 || b.z - a.z == 1)) ||
    (a.z == b.z && (a.x - b.x == 1 || b.x - a.x == 1))
  }

  ghost predicate Path(open: Region, p: seq<Cell>) {
    && |p| > 0
    && (forall k :: 0 <= k < |p| ==> open(p[k]))
    && (forall k :: 0 < k < |p| ==> Adjacent(p[k - 1], p[k]))
  }

  ghost predicate Joins(open: Region, p: seq<Cell>, a: Cell, b: Cell) {
    Path(open, p) && p[0] == a && p[|p| - 1] == b
  }

  ghost predicate Reach(open: Region, a: Cell, b: Cell) {
    exists p :: Joins(open, p, a, b)
  }

  /** `k` is exactly what can be reached from `c`. */
  ghost predicate IsComponent(open: Region, c: Cell, k: set<Cell>) {
    forall d :: d in k <==> Reach(open, c, d)
  }

  /** No open neighbour of the set is outside it. */
  ghost predicate Closed(open: Region, k: set<Cell>) {
    forall a, b :: a in k && open(b) && Adjacent(a, b) ==> b in k
  }

  lemma ReachSelf(open: Region, a: Cell)
    requires open(a)
    ensures Reach(open, a, a)
  {
    assert Joins(open, [a], a, a);
  }

  lemma ReachStep(open: Region, a: Cell, b: Cell, c: Cell)
    requires Reach(open, a, b) && open(c) && Adjacent(b, c)
    ensures Reach(open, a, c)
  {
    var p :| Joins(open, p, a, b);
    assert Joins(open, p + [c], a, c);
  }

  lemma ReachTrans(open: Region, a: Cell, b: Cell, c: Cell)
    requires Reach(open, a, b) && Reach(open, b, c)
    ensures Reach(open, a, c)
  {
    var p :| Joins(open, p, a, b);
    var q :| Joins(open, q, b, c);
    assert Joins(open, p + q[1..], a, c);
  }

  lemma ReachBack(open: Region, a: Cell, b: Cell)
    requires Reach(open, a, b)
    ensures Reach(open, b, a)
  {
    var p :| Joins(open, p, a, b);
    var q := seq(|p|, i requires 0 <= i < |p| => p[|p| - 1 - i]);
    forall k | 0 < k < |q| ensures Adjacent(q[k - 1], q[k]) {
      assert Adjacent(p[|p| - 1 - k], p[|p| - k]);
    }
    assert Joins(open, q, b, a);
  }

  /** Nothing outside a closed set can be reached from inside it. */
  lemma {:induction false} ClosedHolds(open: Region, k: set<Cell>, a: Cell, p: seq<Cell>)
    requires Closed(open, k) && a in k && Path(open, p) && p[0] == a
    ensures p[|p| - 1] in k
    decreases |p|
  {
    if |p| > 1 {
      var q := p[..|p| - 1];
      ClosedHolds(open, k, a, q);
      assert Adjacent(p[|p| - 2], p[|p| - 1]);
    }
  }

  /** A closed set all of whose cells can be reached is the component. */
  lemma ComponentFound(open: Region, c: Cell, k: set<Cell>)
    requires c in k && Closed(open, k) && forall d :: d in k ==> Reach(open, c, d)
    ensures IsComponent(open, c, k)
  {
    forall d | Reach(open, c, d) ensures d in k {
      var p :| Joins(open, p, c, d);
      ClosedHolds(open, k, c, p);
    }
  }

  /** A component is the component of each of its cells. */
  lemma ComponentOfAny(open: Region, c: Cell, k: set<Cell>, d: Cell)
    requires IsComponent(open, c, k) && d in k
    ensures IsComponent(open, d, k)
  {
    ReachBack(open, c, d);
    forall e ensures e in k <==> Reach(open, d, e) {
      if Reach(open, c, e) { ReachTrans(open, d, c, e); }
      if Reach(open, d, e) { ReachTrans(open, c, d, e); }
    }
  }

  lemma ComponentUnique(open: Region, c: Cell, j: set<Cell>, k: set<Cell>)
    requires IsComponent(open, c, j) && IsComponent(open, c, k)
    ensures j == k
  {
    forall d ensures d in j <==> d in k {
      assert d in j <==> Reach(open, c, d);
    }
  }

  /** More open cells can only make a component larger. */
  lemma ReachGrows(small: Region, large: Region, a: Cell, b: Cell)
    requires Reach(small, a, b) && forall c :: small(c) ==> large(c)
    ensures Reach(large, a, b)
  {
    var p :| Joins(small, p, a, b);
    assert Joins(large, p, a, b);
  }

  lemma ReachOpen(open: Region, a: Cell, b: Cell)
    requires Reach(open, a, b)
    ensures open(a) && open(b)
  {
    var p :| Joins(open, p, a, b);
  }

  lemma {:induction false} SubsetSize(a: set<Cell>, b: set<Cell>)
    requires a <= b
    ensures |a| <= |b|
    decreases |a|
  {
    if a != {} {
      var x :| x in a;
      SubsetSize(a - {x}, b - {x});
    }
  }
}
