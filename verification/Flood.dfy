/** The flood fill of measure_1to1 (cpu.cpp). Cells are named by their world position; the
    window corner is subtracted wherever the code indexes its grid. */
module Flood {
  import opened Rows
  import opened Components

  /** A square window of `n` by `n` blocks with its low corner at (x, z). */
  datatype Window = Window(x: int, z: int, n: nat)

  predicate Inside(w: Window, c: Cell) {
    w.x <= c.x < w.x + w.n && w.z <= c.z < w.z + w.n
  }

  /** The open cells of the window. */
  ghost function OpenIn(w: Window, open: Region): Region {
    c => Inside(w, c) && open(c)
  }

  function At(w: Window, c: Cell): nat
    requires Inside(w, c)
  {
    Index(w.n, c.z - w.z, c.x - w.x)
  }

  lemma AtInRange(w: Window, c: Cell)
    requires Inside(w, c)
    ensures At(w, c) < Area(w.n, w.n)
  {
    RowWithin(w.n, w.n, c.z - w.z);
  }

  lemma AtApart(w: Window, c: Cell, d: Cell)
    requires Inside(w, c) && Inside(w, d) && c != d
    ensures At(w, c) != At(w, d)
  {
    if c.z < d.z { RowWithin(w.n, d.z - w.z, c.z - w.z); }
    if d.z < c.z { RowWithin(w.n, c.z - w.z, d.z - w.z); }
  }

  /** A block on the border of the window: it has a neighbour outside. */
  predicate OnBorder(w: Window, c: Cell) {
    c.x == w.x || c.x == w.x + w.n - 1 || c.z == w.z || c.z == w.z + w.n - 1
  }

  ghost predicate Touches(w: Window, k: set<Cell>) { exists c :: c in k && OnBorder(w, c) }

  /** The grid: 0 for closed cells, -1 for open cells already taken, 1 for the others. */
  ghost predicate Marks(pass: seq<int>, w: Window, open: Region, taken: set<Cell>) {
    |pass| == Area(w.n, w.n) &&
    forall c :: Inside(w, c) ==> Marked(pass, w, open, taken, c)
  }

  ghost predicate Marked(pass: seq<int>, w: Window, open: Region, taken: set<Cell>, c: Cell)
    requires Inside(w, c)
  {
    At(w, c) < |pass| &&
    pass[At(w, c)] == if !open(c) then 0 else if c in taken then -1 else 1
  }

  lemma MarkOne(pass: seq<int>, w: Window, open: Region, taken: set<Cell>, c: Cell)
    requires Marks(pass, w, open, taken) && Inside(w, c) && open(c)
    ensures At(w, c) < |pass| && Marks(pass[At(w, c) := -1], w, open, taken + {c})
  {
    AtInRange(w, c);
    forall d | Inside(w, d) ensures Marked(pass[At(w, c) := -1], w, open, taken + {c}, d) {
      assert Marked(pass, w, open, taken, d);
      if c != d { AtApart(w, c, d); }
    }
  }

  function Neighbour(e: Cell, k: nat): Cell
    requires k < 4
  {
    if k == 0 then Cell(e.x, e.z - 1) else if k == 1 then Cell(e.x, e.z + 1)
    else if k == 2 then Cell(e.x - 1, e.z) else Cell(e.x + 1, e.z)
  }

  /** The first `k` neighbours of `c`, if open, have been taken. */
  ghost predicate Settled(w: Window, open: Region, m: set<Cell>, c: Cell, k: nat) {
    forall j: nat :: j < k && j < 4 && OpenIn(w, open)(Neighbour(c, j)) ==> Neighbour(c, j) in m
  }

  /** The state of a flood from `start`: `m` has been taken so far, of which `stack` is still
      to be looked at, and `busy` is being looked at. */
  ghost predicate Flooding(w: Window, open: Region, taken: set<Cell>, start: Cell, m: set<Cell>,
                           stack: seq<Cell>, busy: set<Cell>) {
    && start in m && m !! taken
    && (forall c :: c in m ==> Reach(OpenIn(w, open), start, c))
    && (forall i :: 0 <= i < |stack| ==> stack[i] in m && stack[i] !in busy)
    && (forall i, j :: 0 <= i < j < |stack| ==> stack[i] != stack[j])
    && (forall c :: c in m && c !in stack && c !in busy ==> Settled(w, open, m, c, 4))
  }

  lemma {:induction false} FloodStart(w: Window, open: Region, taken: set<Cell>, start: Cell)
    requires OpenIn(w, open)(start) && start !in taken
    ensures Flooding(w, open, taken, start, {start}, [start], {})
  {
    ReachSelf(OpenIn(w, open), start);
  }

  lemma {:induction false} FloodPop(w: Window, open: Region, taken: set<Cell>, start: Cell, m: set<Cell>, stack: seq<Cell>)
    requires Flooding(w, open, taken, start, m, stack, {}) && stack != []
    ensures var e := stack[|stack| - 1];
      (forall i :: 0 <= i < |stack| - 1 ==> stack[i] != e) &&
      e in m && OpenIn(w, open)(e) && Flooding(w, open, taken, start, m, stack[..|stack| - 1], {e})
  {
    ReachOpen(OpenIn(w, open), start, stack[|stack| - 1]);
  }

  lemma {:induction false} FloodPush(w: Window, open: Region, taken: set<Cell>, start: Cell, m: set<Cell>,
                  stack: seq<Cell>, e: Cell, k: nat)
    requires Flooding(w, open, taken, start, m, stack, {e}) && k < 4 && e in m
    requires var c := Neighbour(e, k); OpenIn(w, open)(c) && c !in taken && c !in m
    ensures var c := Neighbour(e, k); Flooding(w, open, taken, start, m + {c}, stack + [c], {e})
  {
    var c := Neighbour(e, k);
    ReachStep(OpenIn(w, open), start, e, c);
    forall d | d in m + {c} && d !in stack + [c] && d !in {e}
      ensures Settled(w, open, m + {c}, d, 4)
    {
      assert (stack + [c])[|stack|] == c;
      assert d in m && d !in stack;
    }
  }

  /** The cells that are taken and no longer on the stack are the same. */
  ghost predicate SameDone(m0: set<Cell>, s0: seq<Cell>, m: set<Cell>, s: seq<Cell>) {
    forall c :: (c in m && c !in s) <==> (c in m0 && c !in s0)
  }

  lemma {:induction false} PushDone(w: Window, open: Region, taken: set<Cell>, start: Cell, m: set<Cell>,
                                    s: seq<Cell>, busy: set<Cell>, c: Cell)
    requires Flooding(w, open, taken, start, m, s, busy) && c !in m
    ensures SameDone(m, s, m + {c}, s + [c])
  {
    assert (s + [c])[|s|] == c;
  }

  /** One neighbour: outside the window it shows that the edge is touched; inside, if it is
      open and not yet taken, it is taken and pushed. */
  method LookAt(w: Window, pass: array<int>, e: Cell, k: nat, rest: seq<Cell>, touched: bool,
                ghost open: Region, ghost taken: set<Cell>, ghost start: Cell, ghost m0: set<Cell>)
    returns (stack: seq<Cell>, edge: bool, ghost m: set<Cell>)
    requires k < 4 && e in m0 && Flooding(w, open, taken, start, m0, rest, {e})
    requires Marks(pass[..], w, open, taken + m0) && ClosedUnder(w, open, taken)
    modifies pass
    ensures Flooding(w, open, taken, start, m, stack, {e}) && m0 <= m
    ensures Marks(pass[..], w, open, taken + m)
    ensures OpenIn(w, open)(Neighbour(e, k)) ==> Neighbour(e, k) in m
    ensures |m| - |stack| == |m0| - |rest| && |m| >= |m0| && SameDone(m0, rest, m, stack)
    ensures edge == (touched || !Inside(w, Neighbour(e, k)))
  {
    hide Flooding, Marks, Reach, ClosedUnder, At, Neighbour;
    stack, edge, m := rest, touched, m0;
    var c := Neighbour(e, k);
    if !Inside(w, c) {
      edge := true;
      return;
    }
    FloodNext(pass[..], w, open, taken, start, m, stack, e, k);
    if pass[At(w, c)] == 1 {
      MarkOne(pass[..], w, open, taken + m, c);
      FloodPush(w, open, taken, start, m, stack, e, k);
      PushDone(w, open, taken, start, m, stack, {e}, c);
      ghost var s := pass[..];
      pass[At(w, c)] := -1;
      assert pass[..] == s[At(w, c) := -1];
      stack := stack + [c];
      m := m + {c};
      assert taken + m0 + {c} == taken + m;
    }
  }

  /** All four neighbours of a popped cell. */
  method LookAround(w: Window, pass: array<int>, e: Cell, rest: seq<Cell>, touched: bool,
                    ghost open: Region, ghost taken: set<Cell>, ghost start: Cell, ghost m0: set<Cell>)
    returns (stack: seq<Cell>, edge: bool, ghost m: set<Cell>)
    requires Inside(w, e) && e in m0 && Flooding(w, open, taken, start, m0, rest, {e})
    requires Marks(pass[..], w, open, taken + m0) && ClosedUnder(w, open, taken)
    modifies pass
    ensures Flooding(w, open, taken, start, m, stack, {}) && m0 <= m
    ensures Marks(pass[..], w, open, taken + m)
    ensures |m| - |stack| == |m0| - |rest| && |m| >= |m0| && SameDone(m0, rest, m, stack)
    ensures edge == (touched || OnBorder(w, e))
  {
    hide Flooding, Marks, Reach, ClosedUnder, Neighbour, OnBorder, Inside;
    stack, edge, m := rest, touched, m0;
    for k := 0 to 4
      invariant Flooding(w, open, taken, start, m, stack, {e}) && m0 <= m
      invariant Settled(w, open, m, e, k)
      invariant Marks(pass[..], w, open, taken + m)
      invariant |m| - |stack| == |m0| - |rest| && |m| >= |m0| && SameDone(m0, rest, m, stack)
      invariant edge == (touched || Outward(w, e, k))
    {
      stack, edge, m := LookAt(w, pass, e, k, stack, edge, open, taken, start, m);
    }
    FloodSettled(w, open, taken, start, m, stack, e);
    BorderMeans(w, e);
  }

  /** One of the first `k` neighbours is outside the window. */
  ghost predicate Outward(w: Window, e: Cell, k: nat) {
    exists j: nat :: j < k && j < 4 && !Inside(w, Neighbour(e, j))
  }

  lemma BorderMeans(w: Window, e: Cell)
    requires Inside(w, e)
    ensures Outward(w, e, 4) == OnBorder(w, e)
  {
    assert Neighbour(e, 0) == Cell(e.x, e.z - 1) && Neighbour(e, 1) == Cell(e.x, e.z + 1);
    assert Neighbour(e, 2) == Cell(e.x - 1, e.z) && Neighbour(e, 3) == Cell(e.x + 1, e.z);
  }

  lemma {:induction false} FloodSettled(w: Window, open: Region, taken: set<Cell>, start: Cell, m: set<Cell>,
                                        stack: seq<Cell>, e: Cell)
    requires Flooding(w, open, taken, start, m, stack, {e}) && Settled(w, open, m, e, 4)
    ensures Flooding(w, open, taken, start, m, stack, {})
  {
  }

  /** The taken cells are whole components. */
  ghost predicate ClosedUnder(w: Window, open: Region, taken: set<Cell>) {
    Closed(OpenIn(w, open), taken)
  }

  lemma NeighbourBack(e: Cell, k: nat)
    requires k < 4
    ensures Adjacent(e, Neighbour(e, k)) && Adjacent(Neighbour(e, k), e)
  {
  }

  /** What the mark of a neighbour inside the window says. */
  lemma {:induction false} FloodNext(pass: seq<int>, w: Window, open: Region, taken: set<Cell>, start: Cell, m: set<Cell>,
                  stack: seq<Cell>, e: Cell, k: nat)
    requires Marks(pass, w, open, taken + m) && Flooding(w, open, taken, start, m, stack, {e}) && k < 4 && e in m
    requires ClosedUnder(w, open, taken) && Inside(w, Neighbour(e, k))
    ensures var c := Neighbour(e, k);
      At(w, c) < |pass| && (pass[At(w, c)] == 1 <==> open(c) && c !in m) && c !in taken
  {
    var c := Neighbour(e, k);
    assert Marked(pass, w, open, taken + m, c);
    NeighbourBack(e, k);
    ReachOpen(OpenIn(w, open), start, e);
  }

  /** With nothing left on the stack, what was taken is the component of the start. */
  lemma {:induction false} FloodDone(w: Window, open: Region, taken: set<Cell>, start: Cell, m: set<Cell>)
    requires Flooding(w, open, taken, start, m, [], {}) && ClosedUnder(w, open, taken)
    ensures IsComponent(OpenIn(w, open), start, m) && ClosedUnder(w, open, taken + m)
    ensures m !! taken && start in m
  {
    forall a, b | a in m && OpenIn(w, open)(b) && Adjacent(a, b) ensures b in m {
      assert Settled(w, open, m, a, 4);
      var k: nat := if b == Neighbour(a, 0) then 0 else if b == Neighbour(a, 1) then 1
                    else if b == Neighbour(a, 2) then 2 else 3;
      assert b == Neighbour(a, k);
    }
    ComponentFound(OpenIn(w, open), start, m);
  }

  ghost function AllCells(w: Window): set<Cell> {
    set x, z | w.x <= x < w.x + w.n && w.z <= z < w.z + w.n :: Cell(x, z)
  }

  lemma {:induction false} FloodBounded(w: Window, open: Region, taken: set<Cell>, start: Cell, m: set<Cell>,
                                        stack: seq<Cell>, busy: set<Cell>)
    requires Flooding(w, open, taken, start, m, stack, busy)
    ensures |m| <= |AllCells(w)|
  {
    forall c | c in m ensures c in AllCells(w) {
      ReachOpen(OpenIn(w, open), start, c);
    }
    SubsetSize(m, AllCells(w));
  }

  /** The edge flag so far: a cell that has been looked at is on the border. */
  ghost predicate EdgeSeen(w: Window, m: set<Cell>, stack: seq<Cell>) {
    exists c :: c in m && c !in stack && OnBorder(w, c)
  }

  lemma {:induction false} EdgeStep(w: Window, m0: set<Cell>, s0: seq<Cell>, m: set<Cell>, s: seq<Cell>)
    requires s0 != [] && SameDone(m0, s0[..|s0| - 1], m, s) && s0[|s0| - 1] in m0
    requires forall i :: 0 <= i < |s0| - 1 ==> s0[i] != s0[|s0| - 1]
    ensures EdgeSeen(w, m, s) == (EdgeSeen(w, m0, s0) || OnBorder(w, s0[|s0| - 1]))
  {
    var e, rest := s0[|s0| - 1], s0[..|s0| - 1];
    forall c ensures (c in m && c !in s) <==> (c in m0 && c !in s0) || c == e {
      assert c in s0 <==> c in rest || c == e;
      assert e !in rest;
    }
    if EdgeSeen(w, m0, s0) {
      var c :| c in m0 && c !in s0 && OnBorder(w, c);
      assert c in m && c !in s;
    }
    if OnBorder(w, e) {
      assert e in m && e !in s;
    }
  }

  /** Flood one component: its size, whether it touches the border, and its cells. */
  method Fill(w: Window, pass: array<int>, start: Cell, ghost open: Region, ghost taken: set<Cell>)
    returns (count: nat, edge: bool, ghost m: set<Cell>)
    requires OpenIn(w, open)(start) && start !in taken
    requires Marks(pass[..], w, open, taken) && ClosedUnder(w, open, taken)
    modifies pass
    ensures IsComponent(OpenIn(w, open), start, m) && m !! taken && start in m
    ensures count == |m| && edge == Touches(w, m)
    ensures Marks(pass[..], w, open, taken + m) && ClosedUnder(w, open, taken + m)
  {
    hide Flooding, Marks, Reach, ClosedUnder, Settled, Closed, OnBorder, Inside;
    MarkOne(pass[..], w, open, taken, start);
    FloodStart(w, open, taken, start);
    ghost var s := pass[..];
    pass[At(w, start)] := -1;
    assert pass[..] == s[At(w, start) := -1];
    m := {start};
    var stack := [start];
    count, edge := 0, false;
    while stack != []
      invariant Flooding(w, open, taken, start, m, stack, {})
      invariant Marks(pass[..], w, open, taken + m)
      invariant count + |stack| == |m|
      invariant edge == EdgeSeen(w, m, stack)
      decreases |AllCells(w)| - |m|, |stack|
    {
      var e := stack[|stack| - 1];
      FloodPop(w, open, taken, start, m, stack);
      ghost var m0, stack0 := m, stack;
      stack := stack[..|stack| - 1];
      count := count + 1;
      stack, edge, m := LookAround(w, pass, e, stack, edge, open, taken, start, m);
      FloodBounded(w, open, taken, start, m, stack, {});
      FloodBounded(w, open, taken, start, m0, stack0, {});
      EdgeStep(w, m0, stack0, m, stack);
    }
    FloodDone(w, open, taken, start, m);
  }

  /** The open cells of the window as a set. */
  ghost function OpenCells(w: Window, open: Region): set<Cell> {
    set c | c in AllCells(w) && open(c)
  }

  /** The set is the component of one of its cells, which is open. */
  ghost predicate IsOne(w: Window, open: Region, k: set<Cell>) {
    exists c :: c in k && OpenIn(w, open)(c) && IsComponent(OpenIn(w, open), c, k)
  }

  ghost predicate Covered(found: seq<set<Cell>>, c: Cell) {
    exists i :: 0 <= i < |found| && c in found[i]
  }

  ghost predicate Ones(w: Window, open: Region, found: seq<set<Cell>>) {
    forall i :: 0 <= i < |found| ==> IsOne(w, open, found[i])
  }

  ghost predicate Apart(found: seq<set<Cell>>) {
    forall i, j :: 0 <= i < j < |found| ==> found[i] !! found[j]
  }

  ghost predicate Covers(found: seq<set<Cell>>, taken: set<Cell>) {
    forall c :: c in taken <==> Covered(found, c)
  }

  /** The components found so far: no two share a cell, and together they are `taken`. */
  ghost predicate Partition(w: Window, open: Region, found: seq<set<Cell>>, taken: set<Cell>) {
    && Ones(w, open, found) && Apart(found) && Covers(found, taken)
    && TotalSize(found) == |taken|
  }

  ghost function TotalSize(found: seq<set<Cell>>): nat {
    if found == [] then 0 else TotalSize(found[..|found| - 1]) + |found[|found| - 1]|
  }

  /** The best component so far: the size of the first largest, and whether it touches. */
  ghost predicate BestOf(w: Window, found: seq<set<Cell>>, best: nat, edge: bool) {
    if found == [] then best == 0 && !edge
    else
      && (forall i :: 0 <= i < |found| ==> |found[i]| <= best)
      && exists i :: 0 <= i < |found| && |found[i]| == best && edge == Touches(w, found[i])
           && forall j :: 0 <= j < i ==> |found[j]| < best
  }

  lemma {:induction false} PartitionStep(w: Window, open: Region, found: seq<set<Cell>>, taken: set<Cell>,
                                         start: Cell, m: set<Cell>)
    requires Partition(w, open, found, taken) && m !! taken && start in m
    requires OpenIn(w, open)(start) && IsComponent(OpenIn(w, open), start, m)
    ensures Partition(w, open, found + [m], taken + m)
  {
    hide IsComponent, Covers, Apart;
    assert IsOne(w, open, m);
    OnesStep(w, open, found, m);
    ApartStep(found, taken, m);
    CoverStep(found, taken, m);
    TotalStep(found, m);
    assert |taken + m| == |taken| + |m|;
  }

  lemma {:induction false} OnesStep(w: Window, open: Region, found: seq<set<Cell>>, m: set<Cell>)
    requires Ones(w, open, found) && IsOne(w, open, m)
    ensures Ones(w, open, found + [m])
  {
    hide IsOne;
  }

  lemma {:induction false} ApartStep(found: seq<set<Cell>>, taken: set<Cell>, m: set<Cell>)
    requires Apart(found) && Covers(found, taken) && m !! taken
    ensures Apart(found + [m])
  {
    var f := found + [m];
    forall i, j | 0 <= i < j < |f| ensures f[i] !! f[j] {
      if j < |found| {
        assert found[i] !! found[j];
      } else if c :| c in f[i] && c in m {
        assert Covered(found, c);
      }
    }
  }

  lemma {:induction false} CoverStep(found: seq<set<Cell>>, taken: set<Cell>, m: set<Cell>)
    requires Covers(found, taken)
    ensures Covers(found + [m], taken + m)
  {
    var f := found + [m];
    forall c ensures c in taken + m <==> Covered(f, c) {
      if c in m {
        assert c in f[|found|];
      } else if Covered(found, c) {
        var i :| 0 <= i < |found| && c in found[i];
        assert c in f[i];
      }
    }
  }

  lemma {:induction false} TotalStep(found: seq<set<Cell>>, m: set<Cell>)
    ensures TotalSize(found + [m]) == TotalSize(found) + |m|
  {
    assert (found + [m])[..|found|] == found;
  }

  lemma {:induction false} BestStep(w: Window, found: seq<set<Cell>>, best: nat, edge: bool, m: set<Cell>, touches: bool)
    requires BestOf(w, found, best, edge) && m != {} && touches == Touches(w, m)
    ensures BestOf(w, found + [m], if |m| > best then |m| else best, if |m| > best then touches else edge)
  {
    var f := found + [m];
    assert f[|found|] == m && forall i :: 0 <= i < |found| ==> f[i] == found[i];
    if |m| <= best {
      var i :| 0 <= i < |found| && |found[i]| == best && edge == Touches(w, found[i])
           && forall j :: 0 <= j < i ==> |found[j]| < best;
      assert |f[i]| == best && forall j :: 0 <= j < i ==> |f[j]| < best;
    }
  }

  /** All open cells before row `j`, column `i` have been taken. */
  ghost predicate SweptTo(w: Window, open: Region, taken: set<Cell>, i: nat, j: nat) {
    forall c {:trigger c in taken} ::
      Inside(w, c) && open(c) && (c.z < w.z + j || (c.z == w.z + j && c.x < w.x + i)) ==> c in taken
  }

  /** One block of the scan. */
  method LargestAt(w: Window, pass: array<int>, c: Cell, best0: nat, edge0: bool,
                   ghost open: Region, ghost found0: seq<set<Cell>>, ghost taken0: set<Cell>)
    returns (best: nat, edge: bool, ghost found: seq<set<Cell>>, ghost taken: set<Cell>)
    requires Inside(w, c)
    requires Marks(pass[..], w, open, taken0) && ClosedUnder(w, open, taken0)
    requires Partition(w, open, found0, taken0) && BestOf(w, found0, best0, edge0)
    requires taken0 <= OpenCells(w, open)
    modifies pass
    ensures Marks(pass[..], w, open, taken) && ClosedUnder(w, open, taken)
    ensures Partition(w, open, found, taken) && BestOf(w, found, best, edge)
    ensures taken0 <= taken <= OpenCells(w, open) && (open(c) ==> c in taken)
  {
    hide Partition, BestOf, Marks, IsComponent, ClosedUnder, Touches, At, OpenCells;
    best, edge, found, taken := best0, edge0, found0, taken0;
    MarkMeans(pass[..], w, open, taken, c);
    if pass[At(w, c)] == 1 {
      var count, touches, m := Fill(w, pass, c, open, taken);
      ComponentInside(w, open, c, m);
      PartitionStep(w, open, found, taken, c, m);
      BestStep(w, found, best, edge, m, touches);
      if count > best {
        best, edge := count, touches;
      }
      found := found + [m];
      taken := taken + m;
    }
  }

  /** The scan for the largest component. `found` are all components, in the order found. */
  method Largest(w: Window, pass: array<int>, ghost open: Region)
    returns (best: nat, edge: bool, ghost found: seq<set<Cell>>)
    requires Marks(pass[..], w, open, {})
    modifies pass
    ensures Partition(w, open, found, OpenCells(w, open)) && BestOf(w, found, best, edge)
  {
    hide Partition, BestOf, Marks, IsComponent, ClosedUnder, Touches;
    best, edge, found := 0, false, [];
    ghost var taken: set<Cell> := {};
    Fresh(w, open);
    for j := 0 to w.n
      invariant Marks(pass[..], w, open, taken) && ClosedUnder(w, open, taken)
      invariant Partition(w, open, found, taken) && BestOf(w, found, best, edge)
      invariant taken <= OpenCells(w, open) && SweptTo(w, open, taken, 0, j)
    {
      for i := 0 to w.n
        invariant Marks(pass[..], w, open, taken) && ClosedUnder(w, open, taken)
        invariant Partition(w, open, found, taken) && BestOf(w, found, best, edge)
        invariant taken <= OpenCells(w, open) && SweptTo(w, open, taken, i, j)
      {
        best, edge, found, taken :=
          LargestAt(w, pass, Cell(w.x + i, w.z + j), best, edge, open, found, taken);
      }
    }
    assert taken == OpenCells(w, open);
  }

  lemma Fresh(w: Window, open: Region)
    ensures ClosedUnder(w, open, {}) && Partition(w, open, [], {}) && BestOf(w, [], 0, false)
  {
  }

  lemma MarkMeans(pass: seq<int>, w: Window, open: Region, taken: set<Cell>, c: Cell)
    requires Marks(pass, w, open, taken) && Inside(w, c)
    ensures At(w, c) < |pass| && (pass[At(w, c)] == 1 <==> open(c) && c !in taken)
  {
    assert Marked(pass, w, open, taken, c);
  }

  lemma ComponentInside(w: Window, open: Region, c: Cell, m: set<Cell>)
    requires IsComponent(OpenIn(w, open), c, m)
    ensures m <= OpenCells(w, open)
  {
    forall d | d in m ensures d in OpenCells(w, open) {
      ReachOpen(OpenIn(w, open), c, d);
    }
  }

  /** The flood from a given block only, when that block is open. */
  method FromCenter(w: Window, pass: array<int>, center: Cell, ghost open: Region)
    returns (best: nat, edge: bool, ghost m: set<Cell>)
    requires Marks(pass[..], w, open, {}) && Inside(w, center)
    modifies pass
    ensures IsComponent(OpenIn(w, open), center, m)
    ensures best == |m| && edge == Touches(w, m)
  {
    best, edge, m := 0, false, {};
    MarkMeans(pass[..], w, open, {}, center);
    if pass[At(w, center)] == 1 {
      Fresh(w, open);
      best, edge, m := Fill(w, pass, center, open, {});
    } else {
      forall d ensures !Reach(OpenIn(w, open), center, d) {
        if Reach(OpenIn(w, open), center, d) { ReachOpen(OpenIn(w, open), center, d); }
      }
    }
  }

  /** What the scan means for each open cell: no component is larger than the one reported,
      one component has the reported size and edge flag, and the sizes add up. */
  lemma {:induction false} LargestMeans(w: Window, open: Region, best: nat, edge: bool, found: seq<set<Cell>>)
    requires Partition(w, open, found, OpenCells(w, open)) && BestOf(w, found, best, edge)
    ensures TotalSize(found) == |OpenCells(w, open)|
    ensures forall c, k :: OpenIn(w, open)(c) && IsComponent(OpenIn(w, open), c, k) ==> |k| <= best && k in found
    ensures if OpenCells(w, open) == {} then best == 0 && !edge
            else exists c, k :: OpenIn(w, open)(c) && IsComponent(OpenIn(w, open), c, k)
                   && |k| == best && edge == Touches(w, k)
  {
    forall c, k | OpenIn(w, open)(c) && IsComponent(OpenIn(w, open), c, k)
      ensures |k| <= best && k in found
    {
      ComponentIsFound(w, open, found, c, k);
    }
    if c :| c in OpenCells(w, open) {
      assert Covered(found, c);
      var i :| 0 <= i < |found| && |found[i]| == best && edge == Touches(w, found[i]);
      assert IsOne(w, open, found[i]);
    }
  }

  lemma IsAmongAll(w: Window, open: Region, c: Cell)
    requires OpenIn(w, open)(c)
    ensures c in OpenCells(w, open)
  {
    var x, z := c.x, c.z;
    assert c == Cell(x, z) && Inside(w, c);
    assert Cell(x, z) in AllCells(w);
  }

  lemma {:induction false} ComponentIsFound(w: Window, open: Region, found: seq<set<Cell>>, c: Cell, k: set<Cell>)
    requires Partition(w, open, found, OpenCells(w, open))
    requires OpenIn(w, open)(c) && IsComponent(OpenIn(w, open), c, k)
    ensures k in found
  {
    hide IsComponent;
    IsAmongAll(w, open, c);
    assert Covered(found, c);
    var i :| 0 <= i < |found| && c in found[i];
    assert IsOne(w, open, found[i]);
    var d :| d in found[i] && OpenIn(w, open)(d) && IsComponent(OpenIn(w, open), d, found[i]);
    ComponentOfAny(OpenIn(w, open), d, found[i], c);
    ComponentUnique(OpenIn(w, open), c, k, found[i]);
  }
}
