/** The largest rectangle of equal cells (finders.c): a stack of open bars per column, kept in
    the same table as the run lengths. */
module LargestRect {
  import opened Common
  import opened Rows

  datatype Grid = Grid(ids: seq<int>, sx: nat, sz: nat, wanted: int) {
    predicate Ok() { |ids| == Area(sx, sz) }

    /** Whether cell (i, j) matches. */
    predicate M(i: nat, j: nat) {
      i < sx && j < sz && Index(sx, j, i) < |ids| && ids[Index(sx, j, i)] == wanted
    }

    /** The length of the run of matches to the right of (i, j), itself included. */
    function Run(i: nat, j: nat): nat
      decreases sx - i
    {
      if i < sx && M(i, j) then 1 + Run(i + 1, j) else 0
    }

    predicate AllMatch(x: nat, z: nat, w: nat, h: nat) {
      w > 0 && h > 0 && x + w <= sx && z + h <= sz &&
      forall i: nat, j: nat :: x <= i < x + w && z <= j < z + h ==> M(i, j)
    }

    /** An all-match rectangle that a row of the grid stops from growing downwards. */
    predicate Stopped(x: nat, z: nat, w: nat, h: nat) {
      AllMatch(x, z, w, h) && z + h < sz && !RowMatches(x, z + h, w)
    }

    predicate RowMatches(x: nat, j: nat, w: nat) { forall i: nat :: x <= i < x + w ==> M(i, j) }

    predicate RowClear(j: nat) { forall i: nat :: i < sx ==> !M(i, j) }

    predicate LastRowClear() { sz > 0 && RowClear(sz - 1) }
  }

  lemma {:induction false} RunMeans(g: Grid, i: nat, j: nat, w: nat)
    requires w > 0
    ensures g.Run(i, j) >= w <==> i + w <= g.sx && forall k: nat :: i <= k < i + w ==> g.M(k, j)
    decreases w
  {
    if w > 1 {
      RunMeans(g, i + 1, j, w - 1);
    }
  }

  /** Rows `a` to `b` of a column of run lengths all reach width `w`. */
  ghost predicate Fits(hs: seq<nat>, a: nat, b: nat, w: nat) {
    a < b <= |hs| && w > 0 && forall k :: a <= k < b ==> hs[k] >= w
  }

  /** An entry of the table: a run length, and a place for a stacked bar with the row it starts
      in and the width of the bar below it. */
  datatype Entry = Entry(n: nat, j: nat, w: nat)

  /** The width of the stacked bar `k`, when the topmost one has width `w`. */
  function WidthAt(s: seq<Entry>, m: nat, w: nat, k: nat): nat
    requires m <= |s|
  {
    if k + 1 < m then s[k + 1].w else w
  }

  /** Bar `k` has held since the row it starts in. */
  ghost predicate BarOk(s: seq<Entry>, m: nat, w: nat, hs: seq<nat>, j: nat, k: nat)
    requires k < m <= |s|
  {
    Fits(hs, s[k].j, j, WidthAt(s, m, w, k))
  }

  ghost predicate StackOk(s: seq<Entry>, base: nat, m: nat, w: nat, hs: seq<nat>, j: nat) {
    && base <= m <= |s|
    && (m == base ==> w == 0) && (m > base ==> w > 0 && s[base].w == 0 && s[m - 1].w <= w)
    && (forall k :: base <= k < m ==> BarOk(s, m, w, hs, j, k))
    && (forall k, l :: base <= k < l < m ==> s[k].j <= s[l].j && s[k].w <= s[l].w)
  }

  /** A stacked bar that is as wide and starts no later. */
  ghost predicate Covered(s: seq<Entry>, base: nat, m: nat, w: nat, a: nat, v: nat)
    requires m <= |s|
  {
    exists k :: base <= k < m && s[k].j <= a && WidthAt(s, m, w, k) >= v
  }

  /** Every rectangle that reaches row `j` lies under a stacked bar, or starts in row `last`
      or later and has been measured. While nothing is popped, `last` is `j`. */
  ghost predicate Handled(s: seq<Entry>, base: nat, m: nat, w: nat, hs: seq<nat>, j: nat, last: nat, ret: nat)
    requires m <= |s|
  {
    forall a: nat, v: nat :: Fits(hs, a, j, v) ==>
      Covered(s, base, m, w, a, v) || (last <= a && Area(v, j - a) <= ret)
  }

  /** Every rectangle that ends above row `j` has been measured. */
  ghost predicate Measured(hs: seq<nat>, j: nat, ret: nat) {
    forall a: nat, b: nat, v: nat :: Fits(hs, a, b, v) && b <= j ==> Area(v, b - a) <= ret || Fits(hs, a, j, v)
  }

  lemma {:induction false} PopStack(s: seq<Entry>, base: nat, m: nat, w: nat, hs: seq<nat>, j: nat)
    requires base < m && StackOk(s, base, m, w, hs, j)
    ensures var e := s[m - 1];
      e.j < j && e.w <= w && Fits(hs, e.j, j, w) && StackOk(s, base, m - 1, e.w, hs, j)
    ensures forall k :: base <= k < m ==> s[k].j <= s[m - 1].j && s[k].w <= s[m - 1].w
  {
    var e, top := s[m - 1], m - 1;
    assert BarOk(s, m, w, hs, j, top);
    if top > base { assert BarOk(s, m, w, hs, j, top - 1); }
    forall k | base <= k < top ensures BarOk(s, top, e.w, hs, j, k) {
      assert BarOk(s, m, w, hs, j, k);
    }
  }

  /** A rectangle under the popped bar is measured, any other stays covered. */
  lemma {:induction false} PopCovers(s: seq<Entry>, base: nat, m: nat, w: nat, j: nat, a: nat, v: nat)
    requires base < m <= |s| && a <= j && s[m - 1].j <= j && Covered(s, base, m, w, a, v)
    ensures Covered(s, base, m - 1, s[m - 1].w, a, v) || (s[m - 1].j <= a && Area(v, j - a) <= Area(w, j - s[m - 1].j))
  {
    hide Area;
    var e, top := s[m - 1], m - 1;
    var k :| base <= k < m && s[k].j <= a && WidthAt(s, m, w, k) >= v;
    if k == top {
      AreaGrows(v, j - a, w, j - e.j);
    } else {
      assert WidthAt(s, top, e.w, k) >= v;
    }
  }

  /** A bar that is wider than row `j` is popped and measured. */
  lemma {:induction false} PopHandled(s: seq<Entry>, base: nat, m: nat, w: nat, hs: seq<nat>, j: nat, last: nat, ret: nat)
    requires base < m && StackOk(s, base, m, w, hs, j) && Handled(s, base, m, w, hs, j, last, ret)
    requires s[m - 1].j <= last <= j
    ensures var e := s[m - 1];
      e.j < j && Handled(s, base, m - 1, e.w, hs, j, e.j, Max(ret, Area(w, j - e.j)))
  {
    PopStack(s, base, m, w, hs, j);
    hide StackOk, BarOk, Area, Covered;
    var e, top := s[m - 1], m - 1;
    forall a: nat, v: nat | Fits(hs, a, j, v)
      ensures Covered(s, base, top, e.w, a, v) || (e.j <= a && Area(v, j - a) <= Max(ret, Area(w, j - e.j)))
    {
      if Covered(s, base, m, w, a, v) { PopCovers(s, base, m, w, j, a, v); }
    }
  }

  /** The stack is ready for row `j + 1`: nothing popped, every rectangle covered. */
  ghost predicate Ready(s: seq<Entry>, base: nat, m: nat, w: nat, hs: seq<nat>, j: nat, ret: nat) {
    StackOk(s, base, m, w, hs, j) && Handled(s, base, m, w, hs, j, j, ret) && Measured(hs, j, ret)
  }

  /** Rectangles that row `j` stops have been measured once all wider bars are. */
  lemma {:induction false} MeasureNext(hs: seq<nat>, j: nat, ret: nat)
    requires Measured(hs, j, ret) && j < |hs|
    requires forall a: nat, v: nat :: Fits(hs, a, j, v) && v > hs[j] ==> Area(v, j - a) <= ret
    ensures Measured(hs, j + 1, ret)
  {
    forall a: nat, b: nat, v: nat | Fits(hs, a, b, v) && b <= j + 1
      ensures Area(v, b - a) <= ret || Fits(hs, a, j + 1, v)
    {
      if b <= j && !(Area(v, b - a) <= ret) {
        assert Fits(hs, a, j, v);
        AreaGrows(v, b - a, v, j - a);
      }
    }
  }

  /** Bars no wider than row `j` hold there too. */
  lemma {:induction false} BarsHold(s: seq<Entry>, base: nat, m: nat, w: nat, hs: seq<nat>, j: nat, t: nat)
    requires StackOk(s, base, m, w, hs, j) && j < |hs| && w <= hs[j] && t == j + 1
    ensures StackOk(s, base, m, w, hs, t)
    ensures forall k :: base <= k < m ==> 0 < WidthAt(s, m, w, k) <= w
  {
    forall k | base <= k < m ensures BarOk(s, m, w, hs, t, k) && 0 < WidthAt(s, m, w, k) <= w {
      assert BarOk(s, m, w, hs, j, k);
    }
  }

  /** A row as wide as the top bar changes nothing. */
  lemma {:induction false} EqualStep(s: seq<Entry>, base: nat, m: nat, w: nat, hs: seq<nat>, j: nat, ret: nat)
    requires Ready(s, base, m, w, hs, j, ret) && j < |hs| && hs[j] == w
    ensures Ready(s, base, m, w, hs, j + 1, ret)
  {
    BarsHold(s, base, m, w, hs, j, j + 1);
    hide StackOk, BarOk, Measured;
    forall a: nat, v: nat | Fits(hs, a, j + 1, v) ensures Covered(s, base, m, w, a, v) {
      if a < j {
        assert Fits(hs, a, j, v);
      } else {
        assert v <= w;
        TopBar(s, base, m, w, hs, j + 1);
      }
    }
    forall a: nat, v: nat | Fits(hs, a, j, v) ensures v <= hs[j] {
      assert Covered(s, base, m, w, a, v);
    }
    MeasureNext(hs, j, ret);
  }

  lemma {:induction false} TopBar(s: seq<Entry>, base: nat, m: nat, w: nat, hs: seq<nat>, j: nat)
    requires StackOk(s, base, m, w, hs, j) && w > 0
    ensures base < m && WidthAt(s, m, w, m - 1) == w && s[m - 1].j < j
  {
    assert BarOk(s, m, w, hs, j, m - 1);
  }

  /** A wider bar goes on top, starting in row `st` and as wide as row `j`. */
  lemma {:induction false} StackOn(s: seq<Entry>, base: nat, m: nat, w: nat, hs: seq<nat>, j: nat, up: nat, t: nat)
    requires StackOk(s, base, m, w, hs, j) && j < |hs| && m < |s| && hs[j] >= w && hs[j] > 0
    requires up == m + 1 && t == j + 1
    requires s[m].w == w && (s[m].j == j || Fits(hs, s[m].j, j, hs[j]))
    requires forall k :: base <= k < m ==> s[k].j <= s[m].j
    ensures StackOk(s, base, up, hs[j], hs, t)
    ensures forall k :: base <= k < m ==> WidthAt(s, up, hs[j], k) == WidthAt(s, m, w, k)
  {
    BarsHold(s, base, m, w, hs, j, t);
    forall k | base <= k < up ensures BarOk(s, up, hs[j], hs, t, k) {
      if k < m { assert BarOk(s, m, w, hs, t, k); }
    }
  }

  /** After the pops, or none, the bar at `m` is stacked with the width of row `j`, unless
      that is zero. */
  lemma {:induction false} SettleStep(s: seq<Entry>, base: nat, m: nat, w: nat, hs: seq<nat>, j: nat, ret: nat)
    requires StackOk(s, base, m, w, hs, j) && j < |hs| && m < |s| && hs[j] >= w
    requires s[m].w == w && (s[m].j == j || Fits(hs, s[m].j, j, hs[j] + 1))
    requires forall k :: base <= k < m ==> s[k].j <= s[m].j
    requires Handled(s, base, m, w, hs, j, s[m].j, ret) && Measured(hs, j, ret)
    ensures Ready(s, base, if hs[j] > 0 then m + 1 else m, hs[j], hs, j + 1, ret)
  {
    var n, up := hs[j], if hs[j] > 0 then m + 1 else m;
    BarsHold(s, base, m, w, hs, j, j + 1);
    if n > 0 { StackOn(s, base, m, w, hs, j, up, j + 1); }
    assert StackOk(s, base, up, n, hs, j + 1);
    hide StackOk, BarOk, Measured;
    forall a: nat, v: nat | Fits(hs, a, j + 1, v) ensures Covered(s, base, up, n, a, v) {
      assert a < j ==> Fits(hs, a, j, v);
      if a < j && Covered(s, base, m, w, a, v) {
        var k :| base <= k < m && s[k].j <= a && WidthAt(s, m, w, k) >= v;
        assert WidthAt(s, up, n, k) >= v;
      } else {
        assert s[m].j <= a && WidthAt(s, up, n, m) >= v;
      }
    }
    forall a: nat, v: nat | Fits(hs, a, j, v) && v > hs[j] ensures Area(v, j - a) <= ret {
      assert !Covered(s, base, m, w, a, v);
    }
    MeasureNext(hs, j, ret);
  }

  /** A rectangle of the column that row `z + h` stops. */
  ghost predicate StoppedAt(hs: seq<nat>, z: nat, w: nat, h: nat) {
    z + h < |hs| && Fits(hs, z, z + h, w) && hs[z + h] < w
  }

  /** The corner row, width and height of the largest rectangle so far. */
  datatype Found = Found(z: nat, w: nat, h: nat)

  /** Pop and measure every bar wider than row `j`. */
  method PopBars(meta: array<Entry>, base: nat, top: nat, width: nat, j: nat, n: nat,
                 ret0: nat, found0: Found, ghost hs: seq<nat>)
    returns (m: nat, w: nat, ret: nat, found: Found)
    requires j < |hs| && base < top <= meta.Length && hs[j] == n < width
    requires Ready(meta[..], base, top, width, hs, j, ret0)
    ensures base <= m < top && w <= hs[j] && w == meta[m].w && ret >= ret0
    ensures WidthAt(meta[..], top, width, m) > hs[j]
    ensures StackOk(meta[..], base, m, w, hs, j) && Fits(hs, meta[m].j, j, hs[j] + 1)
    ensures Handled(meta[..], base, m, w, hs, j, meta[m].j, ret)
    ensures forall k :: base <= k < m ==> meta[k].j <= meta[m].j
    ensures if ret == ret0 then found == found0
            else StoppedAt(hs, found.z, found.w, found.h) && Area(found.w, found.h) == ret
  {
    hide StackOk, Handled, Measured, BarOk;
    m, w, ret, found := top, width, ret0, found0;
    ghost var last: nat := j;
    BarsBelow(meta[..], base, m, w, hs, j);
    while n < w
      invariant base <= m <= top && ret >= ret0
      invariant StackOk(meta[..], base, m, w, hs, j) && Handled(meta[..], base, m, w, hs, j, last, ret)
      invariant m == base ==> w == 0
      invariant m == top ==> last == j && w == width
      invariant m < top ==> w == meta[m].w && last == meta[m].j && Fits(hs, last, j, hs[j] + 1)
      invariant m < top ==> WidthAt(meta[..], top, width, m) > n
      invariant last <= j && forall k :: base <= k < m ==> meta[k].j <= last
      invariant if ret == ret0 then found == found0
                else StoppedAt(hs, found.z, found.w, found.h) && Area(found.w, found.h) == ret
      decreases m
    {
      PopStack(meta[..], base, m, w, hs, j);
      PopHandled(meta[..], base, m, w, hs, j, last, ret);
      BarsBelow(meta[..], base, m, w, hs, j);
      m := m - 1;
      var e := meta[m];
      var area := Area(w, j - e.j);
      if area > ret {
        found := Found(e.j, w, j - e.j);
        ret := area;
      }
      w := e.w;
      last := e.j;
      BarsBelow(meta[..], base, m, w, hs, j);
    }
  }

  lemma BarsBelow(s: seq<Entry>, base: nat, m: nat, w: nat, hs: seq<nat>, j: nat)
    requires StackOk(s, base, m, w, hs, j)
    ensures base <= m <= |s| && (m == base ==> w == 0)
    ensures forall k :: base <= k < m ==> s[k].j < j && (s[k].j <= s[m - 1].j)
  {
    forall k | base <= k < m ensures s[k].j < j {
      assert BarOk(s, m, w, hs, j, k);
    }
  }

  /** The run lengths are in place. */
  ghost predicate Runs(s: seq<Entry>, hs: seq<nat>) {
    |hs| <= |s| && forall j :: 0 <= j < |hs| ==> s[j].n == hs[j]
  }

  lemma {:induction false} MeasureMore(hs: seq<nat>, j: nat, ret: nat, more: nat)
    requires Measured(hs, j, ret) && ret <= more
    ensures Measured(hs, j, more)
  {
  }

  /** A wider row starts a new bar. */
  lemma {:induction false} PushReady(s: seq<Entry>, t: seq<Entry>, base: nat, m: nat, w: nat,
                                     hs: seq<nat>, j: nat, ret: nat)
    requires Ready(s, base, m, w, hs, j, ret) && j < |hs| && hs[j] > w && m < |s|
    requires t == s[m := s[m].(j := j, w := w)]
    ensures Ready(t, base, m + 1, hs[j], hs, j + 1, ret)
  {
    BarsBelow(s, base, m, w, hs, j);
    forall k | base <= k < m ensures BarOk(t, m, w, hs, j, k) {
      assert BarOk(s, m, w, hs, j, k);
    }
    forall a: nat, v: nat | Fits(hs, a, j, v) ensures Covered(t, base, m, w, a, v) {
      var k :| base <= k < m && s[k].j <= a && WidthAt(s, m, w, k) >= v;
      assert t[k].j <= a && WidthAt(t, m, w, k) >= v;
    }
    SettleStep(t, base, m, w, hs, j, ret);
  }

  /** A row in which the run length changes to another positive one. */
  ghost predicate Rises(hs: seq<nat>, b: nat)
    requires b < |hs|
  {
    hs[b] > 0 && (b == 0 || hs[b - 1] != hs[b])
  }

  /** The rises before row `j`, of width at most `v`, that no row since has undercut. */
  ghost function Standing(hs: seq<nat>, j: nat, v: nat): set<nat>
    requires j <= |hs|
  {
    set b: nat | b < j && Rises(hs, b) && hs[b] <= v && Holds(hs, b, j)
  }

  ghost predicate Holds(hs: seq<nat>, b: nat, j: nat)
    requires b < j <= |hs|
  {
    forall c :: b < c < j ==> hs[c] >= hs[b]
  }

  ghost function Bars(hs: seq<nat>, j: nat, v: nat): nat
    requires j <= |hs|
  {
    |Standing(hs, j, v)|
  }

  /** The bars on the stack after `j` rows. */
  ghost function Size(hs: seq<nat>, j: nat): nat
    requires j <= |hs|
  {
    if j == 0 then 0 else Bars(hs, j, hs[j - 1])
  }

  /** The most bars on the stack at any time up to row `j`. */
  ghost function Peak(hs: seq<nat>, j: nat): nat
    requires j <= |hs|
  {
    if j == 0 then 0 else Max(Peak(hs, j - 1), Size(hs, j))
  }

  lemma {:induction false} PeakGrows(hs: seq<nat>, j: nat, k: nat)
    requires j <= k <= |hs|
    ensures Peak(hs, j) <= Peak(hs, k)
    decreases k - j
  {
    hide Size;
    if j < k { PeakGrows(hs, j, k - 1); }
  }

  lemma {:induction false} BarsStep(hs: seq<nat>, j: nat, v: nat)
    requires j < |hs|
    ensures v < hs[j] ==> Bars(hs, j + 1, v) == Bars(hs, j, v)
    ensures v >= hs[j] ==> Bars(hs, j + 1, v) == Bars(hs, j, hs[j]) + if Rises(hs, j) then 1 else 0
  {
    if v < hs[j] {
      forall b: nat ensures b in Standing(hs, j + 1, v) <==> b in Standing(hs, j, v) {
        if b < j { HoldsOn(hs, b, j); }
      }
      assert Standing(hs, j + 1, v) == Standing(hs, j, v);
    } else {
      var t := if Rises(hs, j) then {j} else {};
      forall b: nat ensures b in Standing(hs, j + 1, v) <==> b in Standing(hs, j, hs[j]) + t {
        if b < j { HoldsOn(hs, b, j); }
      }
      assert Standing(hs, j + 1, v) == Standing(hs, j, hs[j]) + t;
      assert j !in Standing(hs, j, hs[j]);
    }
  }

  lemma HoldsOn(hs: seq<nat>, b: nat, j: nat)
    requires b < j < |hs|
    ensures Holds(hs, b, j + 1) <==> Holds(hs, b, j) && hs[j] >= hs[b]
  {
  }

  lemma {:induction false} NoBars(hs: seq<nat>, j: nat)
    requires j <= |hs|
    ensures Bars(hs, j, 0) == 0 && (j == 0 ==> forall v :: Bars(hs, j, v) == 0)
  {
    assert Standing(hs, j, 0) == {};
    if j == 0 {
      forall v ensures Bars(hs, j, v) == 0 { assert Standing(hs, j, v) == {}; }
    }
  }

  lemma {:induction false} BarsBounded(hs: seq<nat>, j: nat, v: nat)
    requires j <= |hs|
    ensures Bars(hs, j, v) <= j
    decreases j
  {
    hide Bars;
    if j == 0 {
      NoBars(hs, 0);
    } else {
      BarsStep(hs, j - 1, v);
      BarsBounded(hs, j - 1, v);
      BarsBounded(hs, j - 1, hs[j - 1]);
    }
  }

  /** The stack holds just the standing rises: those up to a width are those below the first wider bar. */
  ghost predicate Counted(s: seq<Entry>, base: nat, m: nat, w: nat, hs: seq<nat>, j: nat) {
    && base <= m <= |s| && j <= |hs| && w == (if j == 0 then 0 else hs[j - 1])
    && (forall v: nat :: v >= w ==> Bars(hs, j, v) == m - base)
    && (forall k :: base <= k < m ==> Ranked(s, base, m, w, hs, j, k))
  }

  /** The widths from that of the bar below up to that of bar `k` leave it out. */
  ghost predicate Ranked(s: seq<Entry>, base: nat, m: nat, w: nat, hs: seq<nat>, j: nat, k: nat)
    requires base <= k < m <= |s| && j <= |hs|
  {
    forall v: nat :: s[k].w <= v < WidthAt(s, m, w, k) ==> Bars(hs, j, v) == k - base
  }

  lemma {:induction false} CountedStart(s: seq<Entry>, base: nat, hs: seq<nat>)
    requires base <= |s|
    ensures Counted(s, base, base, 0, hs, 0)
  {
    NoBars(hs, 0);
  }

  lemma {:induction false} CountedSize(s: seq<Entry>, base: nat, m: nat, w: nat, hs: seq<nat>, j: nat)
    requires Counted(s, base, m, w, hs, j)
    ensures m == base + Size(hs, j)
  {
    NoBars(hs, 0);
  }

  /** What row `j` does to the counts. */
  ghost predicate Moved(hs: seq<nat>, j: nat, t: nat, rank: nat)
    requires j < t <= |hs|
  {
    forall v: nat :: Bars(hs, t, v) == if v < hs[j] then Bars(hs, j, v) else rank
  }

  lemma {:induction false} RowMoves(hs: seq<nat>, j: nat, t: nat)
    requires j < |hs| && t == j + 1
    ensures Moved(hs, j, t, Bars(hs, j, hs[j]) + if Rises(hs, j) then 1 else 0)
  {
    hide Bars;
    forall v: nat ensures Bars(hs, t, v) ==
        if v < hs[j] then Bars(hs, j, v) else Bars(hs, j, hs[j]) + if Rises(hs, j) then 1 else 0
    {
      BarsStep(hs, j, v);
    }
  }

  lemma {:induction false} CountedEqual(s: seq<Entry>, base: nat, m: nat, w: nat, hs: seq<nat>, j: nat)
    requires Counted(s, base, m, w, hs, j) && StackOk(s, base, m, w, hs, j) && j < |hs| && hs[j] == w
    ensures Counted(s, base, m, w, hs, j + 1)
  {
    hide Bars, BarOk;
    WidthsBelow(s, base, m, w, hs, j);
    var next, n := j + 1, hs[j];
    RowMoves(hs, j, next);
    forall k | base <= k < m ensures Ranked(s, base, m, w, hs, next, k) {
      assert Ranked(s, base, m, w, hs, j, k);
    }
  }

  lemma {:induction false} WidthsBelow(s: seq<Entry>, base: nat, m: nat, w: nat, hs: seq<nat>, j: nat)
    requires StackOk(s, base, m, w, hs, j)
    ensures forall k :: base <= k < m ==> WidthAt(s, m, w, k) <= w
  {
  }

  lemma {:induction false} CountedPush(s: seq<Entry>, t: seq<Entry>, base: nat, m: nat, w: nat, hs: seq<nat>, j: nat)
    requires Counted(s, base, m, w, hs, j) && StackOk(s, base, m, w, hs, j) && j < |hs| && hs[j] > w && m < |s|
    requires t == s[m := s[m].(j := j, w := w)]
    ensures Counted(t, base, m + 1, hs[j], hs, j + 1)
  {
    hide Bars, BarOk;
    WidthsBelow(s, base, m, w, hs, j);
    var next, n := j + 1, hs[j];
    RowMoves(hs, j, next);
    var more := m + 1;
    forall k | base <= k < more ensures Ranked(t, base, more, n, hs, next, k) {
      if k < m {
        assert Ranked(s, base, m, w, hs, j, k) && WidthAt(t, more, n, k) == WidthAt(s, m, w, k);
      }
    }
  }

  /** Pushing needs one more place than the bars there are. */
  lemma {:induction false} PushSize(s: seq<Entry>, base: nat, m: nat, w: nat, hs: seq<nat>, j: nat)
    requires Counted(s, base, m, w, hs, j) && j < |hs| && hs[j] > w
    ensures base + Size(hs, j + 1) == m + 1
  {
    hide Bars;
    BarsStep(hs, j, hs[j]);
  }

  lemma {:induction false} CountedPop(s: seq<Entry>, base: nat, top: nat, width: nat, m: nat, w: nat,
                                      hs: seq<nat>, j: nat)
    requires Counted(s, base, top, width, hs, j) && StackOk(s, base, m, w, hs, j) && j < |hs|
    requires base <= m < top && hs[j] < width && s[m].w == w <= hs[j] < WidthAt(s, top, width, m)
    ensures Counted(s, base, if hs[j] > 0 then m + 1 else m, hs[j], hs, j + 1)
  {
    hide Bars, BarOk;
    WidthsBelow(s, base, m, w, hs, j);
    var next, n := j + 1, hs[j];
    RowMoves(hs, j, next);
    var up := if n > 0 then m + 1 else m;
    assert Ranked(s, base, top, width, hs, j, m);
    assert Bars(hs, j, n) == m - base;
    forall k | base <= k < up ensures Ranked(s, base, up, n, hs, next, k) {
      assert Ranked(s, base, top, width, hs, j, k);
      assert k < m ==> WidthAt(s, up, n, k) == s[k + 1].w == WidthAt(s, top, width, k) == WidthAt(s, m, w, k);
    }
  }

  /** One column: the stack grows from `base`. The scan leaves the table exactly when the bars
      do not fit in it, and otherwise leaves as many bars as stand at the end. */
  method ScanColumn(meta: array<Entry>, base: nat, ret0: nat, found0: Found, sz: nat, ghost hs: seq<nat>)
    returns (over: bool, m: nat, ret: nat, found: Found)
    requires |hs| == sz && base <= meta.Length && Runs(meta[..], hs)
    modifies meta
    ensures over <==> base + Peak(hs, sz) > meta.Length
    ensures !over ==> Runs(meta[..], hs) && Measured(hs, sz, ret) && ret >= ret0 && m == base + Size(hs, sz)
    ensures !over ==> if ret == ret0 then found == found0
                      else StoppedAt(hs, found.z, found.w, found.h) && Area(found.w, found.h) == ret
  {
    hide Ready, StackOk, Handled, Measured, BarOk, StoppedAt, Counted, Size;
    over, m, ret, found := false, base, ret0, found0;
    var w := 0;
    ReadyStart(meta[..], base, hs, ret);
    CountedStart(meta[..], base, hs);
    for j := 0 to sz
      invariant Runs(meta[..], hs) && Ready(meta[..], base, m, w, hs, j, ret)
      invariant Counted(meta[..], base, m, w, hs, j) && base + Peak(hs, j) <= meta.Length
      invariant ret >= ret0
      invariant if ret == ret0 then found == found0
                else StoppedAt(hs, found.z, found.w, found.h) && Area(found.w, found.h) == ret
    {
      var n := meta[j].n;
      ghost var s := meta[..];
      ReadyMeans(s, base, m, w, hs, j, ret);
      CountedSize(s, base, m, w, hs, j);
      PeakGrows(hs, j + 1, sz);
      if n > w {
        PushSize(s, base, m, w, hs, j);
        if m >= meta.Length {
          over := true;
          return;
        }
        meta[m] := meta[m].(j := j, w := w);
        PushReady(s, meta[..], base, m, w, hs, j, ret);
        CountedPush(s, meta[..], base, m, w, hs, j);
        m := m + 1;
        w := n;
      } else if n == w {
        EqualStep(s, base, m, w, hs, j, ret);
        CountedEqual(s, base, m, w, hs, j);
        CountedSize(s, base, m, w, hs, j + 1);
      } else {
        ghost var before, top, width := ret, m, w;
        m, w, ret, found := PopBars(meta, base, m, w, j, n, ret, found, hs);
        MeasureMore(hs, j, before, ret);
        SettleStep(meta[..], base, m, w, hs, j, ret);
        CountedPop(s, base, top, width, m, w, hs, j);
        w := n;
        if w != 0 {
          m := m + 1;
        }
        CountedSize(s, base, m, w, hs, j + 1);
      }
    }
    ReadyMeans(meta[..], base, m, w, hs, sz, ret);
    CountedSize(meta[..], base, m, w, hs, sz);
  }

  lemma {:induction false} ReadyStart(s: seq<Entry>, base: nat, hs: seq<nat>, ret: nat)
    requires base <= |s|
    ensures Ready(s, base, base, 0, hs, 0, ret)
  {
  }

  lemma {:induction false} ReadyMeans(s: seq<Entry>, base: nat, m: nat, w: nat, hs: seq<nat>, j: nat, ret: nat)
    requires Ready(s, base, m, w, hs, j, ret)
    ensures base <= m <= |s| && (w == 0 <==> m == base) && Measured(hs, j, ret) && StackOk(s, base, m, w, hs, j)
  {
  }

  /** Run lengths of the column of the grid, row by row. */
  ghost function Heights(g: Grid, i: nat, n: nat): (hs: seq<nat>)
    ensures |hs| == n && forall j :: 0 <= j < n ==> hs[j] == g.Run(i, j)
  {
    if n == 0 then [] else Heights(g, i, n - 1) + [g.Run(i, n - 1)]
  }

  /** Move the run lengths one column to the left. */
  method UpdateRuns(g: Grid, meta: array<Entry>, i: nat)
    requires g.Ok() && i < g.sx && g.sz <= meta.Length && Runs(meta[..], Heights(g, i + 1, g.sz))
    modifies meta
    ensures Runs(meta[..], Heights(g, i, g.sz))
  {
    ghost var hs := Heights(g, i + 1, g.sz);
    for j := 0 to g.sz
      invariant forall k :: 0 <= k < j ==> meta[k].n == g.Run(i, k)
      invariant forall k :: j <= k < g.sz ==> meta[k].n == hs[k]
    {
      RowWithin(g.sx, g.sz, j);
      if g.ids[Index(g.sx, j, i)] == g.wanted {
        meta[j] := meta[j].(n := meta[j].n + 1);
      } else {
        meta[j] := meta[j].(n := 0);
      }
    }
  }

  lemma {:induction false} RunsOf(g: Grid, x: nat, z: nat, w: nat, h: nat, hs: seq<nat>)
    requires hs == Heights(g, x, g.sz) && w > 0 && h > 0
    ensures g.AllMatch(x, z, w, h) <==> Fits(hs, z, z + h, w) && x + w <= g.sx
  {
    forall j: nat | j < g.sz
      ensures hs[j] >= w <==> x + w <= g.sx && forall i: nat :: x <= i < x + w ==> g.M(i, j)
    {
      RunMeans(g, x, j, w);
    }
    if g.AllMatch(x, z, w, h) {
      forall j | z <= j < z + h ensures hs[j] >= w {
        forall i: nat | x <= i < x + w ensures g.M(i, j) {
        }
      }
    }
    if Fits(hs, z, z + h, w) && x + w <= g.sx {
      forall i: nat, j: nat | x <= i < x + w && z <= j < z + h ensures g.M(i, j) {
        assert hs[j] >= w;
      }
    }
  }

  lemma {:induction false} StoppedOf(g: Grid, x: nat, z: nat, w: nat, h: nat, hs: seq<nat>)
    requires hs == Heights(g, x, g.sz) && x + w <= g.sx && w > 0 && h > 0
    ensures g.Stopped(x, z, w, h) <==> StoppedAt(hs, z, w, h)
  {
    RunsOf(g, x, z, w, h, hs);
    if z + h < g.sz { RunMeans(g, x, z + h, w); }
  }

  /** `p0` and `p1` are opposite corners of a stopped rectangle of area `ret`. */
  ghost predicate Attained(g: Grid, ret: nat, p0: Pos, p1: Pos) {
    && 0 <= p0.x <= p1.x && 0 <= p0.z <= p1.z
    && g.Stopped(p0.x, p0.z, p1.x - p0.x + 1, p1.z - p0.z + 1)
    && Area(p1.x - p0.x + 1, p1.z - p0.z + 1) == ret
  }

  lemma {:induction false} ColumnStep(g: Grid, i: nat, ret0: nat, ret: nat, hs: seq<nat>)
    requires i < g.sx && hs == Heights(g, i, g.sz)
    requires Measured(hs, g.sz, ret) && ret0 <= ret
    requires forall x: nat, z: nat, w: nat, h: nat :: x >= i + 1 && g.Stopped(x, z, w, h) ==> Area(w, h) <= ret0
    ensures forall x: nat, z: nat, w: nat, h: nat :: x >= i && g.Stopped(x, z, w, h) ==> Area(w, h) <= ret
  {
    forall x: nat, z: nat, w: nat, h: nat | x >= i && g.Stopped(x, z, w, h) ensures Area(w, h) <= ret {
      if x == i {
        StoppedOf(g, x, z, w, h, hs);
        assert Fits(hs, z, z + h, w) && !Fits(hs, z, g.sz, w);
      }
    }
  }

  /** The bars that column `i` leaves on the stack, those that it and the columns right of it
      leave, and the most that are in use from column `i` on. */
  ghost function Left(g: Grid, i: nat): nat { Size(Heights(g, i, g.sz), g.sz) }

  ghost function Piled(g: Grid, i: nat): nat
    decreases g.sx - i
  {
    if i >= g.sx then 0 else Left(g, i) + Piled(g, i + 1)
  }

  ghost function DepthFrom(g: Grid, i: nat): nat
    decreases g.sx - i
  {
    if i >= g.sx then 0 else Max(DepthFrom(g, i + 1), Piled(g, i + 1) + Peak(Heights(g, i, g.sz), g.sz))
  }

  /** The most entries of the stack that are ever in use. */
  ghost function Depth(g: Grid): nat { DepthFrom(g, 0) }

  lemma {:induction false} DepthGrows(g: Grid, i: nat)
    requires i <= g.sx
    ensures DepthFrom(g, i) <= Depth(g)
    decreases i
  {
    hide Piled, Peak;
    if i > 0 { DepthGrows(g, i - 1); }
  }

  /** What the search comes to: a result, or a write behind the end of its table. */
  datatype Outcome = Done(ret: nat, p0: Pos, p1: Pos) | Overrun

  /** The search over all columns, from right to left, with a table of max(sx, sz) entries. Bars
      that reach the last row are never popped and pile up from column to column. */
  method GetLargestRec(g: Grid) returns (r: Outcome)
    requires g.Ok()
    ensures r.Overrun? <==> Depth(g) > Max(g.sx, g.sz)
    ensures r.Done? ==> forall x: nat, z: nat, w: nat, h: nat :: g.Stopped(x, z, w, h) ==> Area(w, h) <= r.ret
    ensures r.Done? && r.ret > 0 ==> Attained(g, r.ret, r.p0, r.p1)
  {
    hide Measured, Grid.Stopped, Grid.AllMatch, Grid.Run, Size, Peak, Depth;
    var meta := new Entry[Max(g.sx, g.sz)](_ => Entry(0, 0, 0));
    var m, i := 0, g.sx;
    var ret, p0, p1 := 0, Pos(0, 0), Pos(0, 0);
    RunsStart(g);
    NothingBeyond(g);
    while i > 0
      invariant 0 <= i <= g.sx && Runs(meta[..], Heights(g, i, g.sz))
      invariant m == Piled(g, i) <= meta.Length && DepthFrom(g, i) <= meta.Length
      invariant forall x: nat, z: nat, w: nat, h: nat :: x >= i && g.Stopped(x, z, w, h) ==> Area(w, h) <= ret
      invariant ret > 0 ==> Attained(g, ret, p0, p1)
    {
      i := i - 1;
      UpdateRuns(g, meta, i);
      ghost var hs := Heights(g, i, g.sz);
      var before := ret;
      var over, found := false, Found(0, 0, 0);
      over, m, ret, found := ScanColumn(meta, m, ret, found, g.sz, hs);
      DepthGrows(g, i);
      SizeInPeak(hs, g.sz);
      if over {
        return Overrun;
      }
      ColumnStep(g, i, before, ret, hs);
      if ret > before {
        FoundWide(g, i, hs, found);
        p0, p1 := Pos(i, found.z), Pos(i + found.w - 1, found.z + found.h - 1);
      }
    }
    DepthIs(g);
    r := Done(ret, p0, p1);
  }

  lemma DepthIs(g: Grid)
    ensures Depth(g) == DepthFrom(g, 0)
  {
  }

  lemma SizeInPeak(hs: seq<nat>, j: nat)
    requires j <= |hs|
    ensures Size(hs, j) <= Peak(hs, j)
  {
  }

  lemma {:induction false} RunsStart(g: Grid)
    ensures forall j :: 0 <= j < g.sz ==> Heights(g, g.sx, g.sz)[j] == 0
  {
  }

  lemma NothingBeyond(g: Grid)
    ensures forall x: nat, z: nat, w: nat, h: nat :: x >= g.sx ==> !g.Stopped(x, z, w, h)
  {
  }

  lemma LastHeight(g: Grid, i: nat)
    requires i < g.sx && g.LastRowClear()
    ensures Heights(g, i, g.sz)[g.sz - 1] == 0
  {
  }

  lemma {:induction false} FoundWide(g: Grid, i: nat, hs: seq<nat>, f: Found)
    requires i < g.sx && hs == Heights(g, i, g.sz) && StoppedAt(hs, f.z, f.w, f.h)
    ensures f.w > 0 && f.h > 0 && g.Stopped(i, f.z, f.w, f.h)
  {
    RunMeans(g, i, f.z, f.w);
    assert hs[f.z] == g.Run(i, f.z);
    StoppedOf(g, i, f.z, f.w, f.h, hs);
  }

  /** A rectangle grows downwards until a row stops it; a clear last row always does. */
  lemma {:induction false} GrowsDown(g: Grid, x: nat, z: nat, w: nat, h: nat) returns (k: nat)
    requires g.AllMatch(x, z, w, h) && g.LastRowClear()
    ensures k >= h && g.Stopped(x, z, w, k)
    decreases g.sz - h
  {
    assert g.M(x, z + h - 1);
    if z + h == g.sz {
      assert false;
    } else if g.RowMatches(x, z + h, w) {
      k := GrowsDown(g, x, z, w, h + 1);
    } else {
      k := h;
    }
  }

  /** With a clear last row the search returns the largest area of any all-match rectangle. */
  lemma {:induction false} ClearMeansLargest(g: Grid, ret: nat, x: nat, z: nat, w: nat, h: nat)
    requires g.LastRowClear() && g.AllMatch(x, z, w, h)
    requires forall x: nat, z: nat, w: nat, h: nat :: g.Stopped(x, z, w, h) ==> Area(w, h) <= ret
    ensures Area(w, h) <= ret
  {
    var k := GrowsDown(g, x, z, w, h);
    AreaGrows(w, h, w, k);
  }

  /** With a clear last row no column leaves a bar, and the table is large enough. */
  lemma {:induction false} ClearStays(g: Grid, i: nat)
    requires g.LastRowClear() && i <= g.sx
    ensures Piled(g, i) == 0 && DepthFrom(g, i) <= g.sz && DepthFrom(g, i) <= Max(g.sx, g.sz)
    decreases g.sx - i
  {
    hide Peak, Bars;
    if i < g.sx {
      ClearStays(g, i + 1);
      LastHeight(g, i);
      NoBars(Heights(g, i, g.sz), g.sz);
      PeakBounded(Heights(g, i, g.sz), g.sz);
    }
  }

  lemma {:induction false} PeakBounded(hs: seq<nat>, j: nat)
    requires j <= |hs|
    ensures Peak(hs, j) <= j
  {
    hide Bars;
    if j > 0 {
      PeakBounded(hs, j - 1);
      BarsBounded(hs, j, hs[j - 1]);
    }
  }

  /** What a result of the search must satisfy, and what its description promises. */
  ghost predicate Returned(g: Grid, ret: nat) {
    && Depth(g) <= Max(g.sx, g.sz)
    && (forall x: nat, z: nat, w: nat, h: nat :: g.Stopped(x, z, w, h) ==> Area(w, h) <= ret)
    && (ret > 0 ==> exists p0, p1 :: Attained(g, ret, p0, p1))
  }

  ghost predicate Promised(g: Grid, ret: nat) {
    forall x: nat, z: nat, w: nat, h: nat :: g.AllMatch(x, z, w, h) ==> Area(w, h) <= ret
  }

  /** The search stays in its table and returns what is promised. */
  ghost predicate Keeps(g: Grid) {
    Depth(g) <= Max(g.sx, g.sz) && forall ret: nat :: Returned(g, ret) ==> Promised(g, ret)
  }

  /** Two grids of the same shape agree on their last row. */
  ghost predicate SameLastRow(g: Grid, k: Grid) {
    g.Ok() && k.Ok() && k.sx == g.sx && k.sz == g.sz > 0 && k.wanted == g.wanted
    && SameRow(g, k, g.sz - 1)
  }

  ghost predicate SameRow(g: Grid, k: Grid, j: nat) {
    forall i: nat :: i < g.sx ==> k.M(i, j) == g.M(i, j)
  }

  /** The condition is exact: the search keeps its promise on every grid with this last row just
      when the row has no match. */
  lemma {:induction false} LastRowDecides(g: Grid)
    requires g.Ok() && g.sz > 0
    ensures (forall k :: SameLastRow(g, k) ==> Keeps(k)) <==> g.LastRowClear()
  {
    if g.LastRowClear() {
      forall k | SameLastRow(g, k) ensures Keeps(k) { ClearKeeps(g, k); }
    } else {
      var k := OnlyLastRow(g);
      var i: nat :| i < g.sx && g.M(i, g.sz - 1);
      assert k.M(i, g.sz - 1);
      assert k.AllMatch(i, g.sz - 1, 1, 1) && Area(1, 1) == 1;
      assert Returned(k, 0) && !Promised(k, 0);
    }
  }

  lemma {:induction false} ClearKeeps(g: Grid, k: Grid)
    requires SameLastRow(g, k) && g.LastRowClear()
    ensures Keeps(k)
  {
    assert k.LastRowClear();
    ClearStays(k, 0);
    forall ret: nat | Returned(k, ret) ensures Promised(k, ret) {
      forall x: nat, z: nat, w: nat, h: nat | k.AllMatch(x, z, w, h) ensures Area(w, h) <= ret {
        ClearMeansLargest(k, ret, x, z, w, h);
      }
    }
  }

  /** A grid with the same last row and no other match: the search stays in its table and can
      return only 0, as nothing is ever stopped. */
  lemma {:induction false} OnlyLastRow(g: Grid) returns (k: Grid)
    requires g.Ok() && g.sz > 0
    ensures SameLastRow(g, k) && Depth(k) <= Max(k.sx, k.sz)
    ensures forall ret: nat :: Returned(k, ret) <==> ret == 0
  {
    hide Bars, Peak, Size, Heights, Depth;
    var last := Area(g.sx, g.sz - 1);
    k := g.(ids := seq(|g.ids|, n requires 0 <= n < |g.ids| => if n < last then g.wanted + 1 else g.ids[n]));
    forall i: nat, j: nat | i < g.sx && j < g.sz - 1 ensures !k.M(i, j) {
      RowWithin(g.sx, g.sz - 1, j);
    }
    assert SameRow(g, k, g.sz - 1);
    NothingStopped(k);
    OneEach(k, 0);
    DepthIs(k);
  }

  ghost predicate OnlyLast(k: Grid) { k.sz > 0 && forall i: nat, j: nat :: i < k.sx && j < k.sz - 1 ==> !k.M(i, j) }

  lemma {:induction false} NothingStopped(k: Grid)
    requires OnlyLast(k)
    ensures forall x: nat, z: nat, w: nat, h: nat :: !k.Stopped(x, z, w, h)
    ensures forall ret: nat, p0, p1 :: !Attained(k, ret, p0, p1)
  {
    forall x: nat, z: nat, w: nat, h: nat ensures !k.Stopped(x, z, w, h) {
      assert k.Stopped(x, z, w, h) ==> k.M(x, z);
    }
  }

  /** Each column of such a grid leaves one bar at most. */
  lemma {:induction false} OneEach(k: Grid, i: nat)
    requires OnlyLast(k) && i <= k.sx
    ensures Piled(k, i) <= k.sx - i && DepthFrom(k, i) <= k.sx - i
    decreases k.sx - i
  {
    hide Bars, Peak, Size;
    if i < k.sx {
      OneEach(k, i + 1);
      var hs := Heights(k, i, k.sz);
      forall j | 0 <= j < k.sz - 1 ensures hs[j] == 0 {
        assert !k.M(i, j) && k.Run(i, j) == 0;
      }
      FlatPeak(hs, k.sz - 1);
      BarsStep(hs, k.sz - 1, hs[k.sz - 1]);
      NoBelow(hs, k.sz - 1, hs[k.sz - 1]);
      LastSize(hs, k.sz);
    }
  }

  lemma {:induction false} NoBelow(hs: seq<nat>, j: nat, v: nat)
    requires j <= |hs| && forall b :: 0 <= b < j ==> hs[b] == 0
    ensures Bars(hs, j, v) == 0
  {
    assert Standing(hs, j, v) == {};
  }

  lemma {:induction false} FlatPeak(hs: seq<nat>, j: nat)
    requires j <= |hs| && forall b :: 0 <= b < j ==> hs[b] == 0
    ensures Peak(hs, j) == 0
  {
    hide Bars;
    if j > 0 {
      FlatPeak(hs, j - 1);
      NoBelow(hs, j, hs[j - 1]);
    }
  }

  lemma LastSize(hs: seq<nat>, j: nat)
    requires 0 < j <= |hs|
    ensures Size(hs, j) == Bars(hs, j, hs[j - 1]) && Peak(hs, j) == Max(Peak(hs, j - 1), Size(hs, j))
  {
  }

  /** A grid on which the search leaves its table: a two by two grid whose only mismatch is at
      the right of the first row needs a third entry. */
  lemma {:induction false} CornerOverruns(wanted: int)
    ensures var g := Grid([wanted, wanted + 1, wanted, wanted], 2, 2, wanted); g.Ok() && Depth(g) == 3 > Max(g.sx, g.sz)
  {
    hide Bars, Heights;
    var g := Grid([wanted, wanted + 1, wanted, wanted], 2, 2, wanted);
    CornerRuns(g);
    CornerHeights(g);
    BarsOfTwo(0, 1);
    BarsOfTwo(1, 2);
    assert Piled(g, 2) == 0 && Left(g, 1) == 1 && Piled(g, 1) == 1;
    assert DepthFrom(g, 2) == 0 && DepthFrom(g, 1) == 1 && DepthFrom(g, 0) == 3;
  }

  lemma CornerRuns(g: Grid)
    requires g == Grid([g.wanted, g.wanted + 1, g.wanted, g.wanted], 2, 2, g.wanted)
    ensures g.Ok() && g.Run(1, 0) == 0 && g.Run(1, 1) == 1 && g.Run(0, 0) == 1 && g.Run(0, 1) == 2
  {
    assert Area(2, 0) == 0 && Area(2, 1) == 2 && Area(2, 2) == 4;
    assert g.M(0, 0) && !g.M(1, 0) && g.M(0, 1) && g.M(1, 1);
    assert g.Run(2, 0) == 0 && g.Run(2, 1) == 0;
  }

  lemma CornerHeights(g: Grid)
    requires g.Ok() && g.sz == 2 && g.Run(1, 0) == 0 && g.Run(1, 1) == 1 && g.Run(0, 0) == 1 && g.Run(0, 1) == 2
    ensures Heights(g, 1, 2) == [0, 1] && Heights(g, 0, 2) == [1, 2]
  {
  }

  /** The bars of two rising rows. */
  lemma {:induction false} BarsOfTwo(a: nat, b: nat)
    requires a < b
    ensures Size([a, b], 1) == (if a > 0 then 1 else 0) && Size([a, b], 2) == 1 + Size([a, b], 1)
    ensures Peak([a, b], 2) == Size([a, b], 2) && Peak([a, b], 1) == Size([a, b], 1)
  {
    hide Bars;
    var hs := [a, b];
    NoBars(hs, 0);
    BarsStep(hs, 0, a);
    BarsStep(hs, 1, b);
    BarsStep(hs, 0, b);
    LastSize(hs, 1);
    LastSize(hs, 2);
  }
}
