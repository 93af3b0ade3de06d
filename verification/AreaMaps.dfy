/** The map functions of layers.c on the shared buffer. Each is proved for any contents
    `f` of the parent area, so none depends on how that area was generated. */
module AreaMaps {
  import opened Rows
  import opened Layers

  /** `n` cells of `s` from `at` hold `f` along the row that starts at (x, z). */
  ghost predicate Row(s: seq<int>, at: int, f: Plane, x: int, z: int, n: int) {
    0 <= at && at + n <= |s| &&
    forall k {:trigger s[k]} :: at <= k < at + n ==> s[k] == f(x + (k - at), z)
  }

  ghost predicate RowAt(s: seq<int>, off: nat, f: Plane, x: int, z: int, w: nat, j: nat) {
    Row(s, off + Area(w, j), f, x, z + j, w)
  }

  /** The `w` by `h` area stored from `off` holds `f` over the window at (x, z). */
  ghost predicate Window(s: seq<int>, off: nat, f: Plane, x: int, z: int, w: nat, h: nat) {
    forall j: nat :: j < h ==> RowAt(s, off, f, x, z, w, j)
  }

  /** Nothing but the cells from `lo` to `hi` differs between `s` and `t`. */
  ghost predicate OnlyWrites(s: seq<int>, t: seq<int>, lo: nat, hi: nat) {
    |s| == |t| &&
    forall k {:trigger t[k]} :: 0 <= k < |s| && !(lo <= k < hi) ==> t[k] == s[k]
  }

  lemma RowKept(s: seq<int>, t: seq<int>, lo: nat, hi: nat, at: int, f: Plane, x: int, z: int, n: int)
    requires OnlyWrites(s, t, lo, hi) && Row(s, at, f, x, z, n)
    requires at + n <= lo || hi <= at
    ensures Row(t, at, f, x, z, n)
  {
  }

  /** A window outside the written part is still there. */
  lemma WindowKept(s: seq<int>, t: seq<int>, lo: nat, hi: nat,
                   off: nat, f: Plane, x: int, z: int, w: nat, h: nat)
    requires OnlyWrites(s, t, lo, hi) && Window(s, off, f, x, z, w, h)
    requires off + Area(w, h) <= lo || hi <= off
    ensures Window(t, off, f, x, z, w, h)
  {
    forall j: nat | j < h ensures RowAt(t, off, f, x, z, w, j) {
      RowWithin(w, h, j);
      assert RowAt(s, off, f, x, z, w, j);
      RowKept(s, t, lo, hi, off + Area(w, j), f, x, z + j, w);
    }
  }

  /** Rows `lo` to `hi` of an area are in place. */
  ghost predicate RowsFrom(s: seq<int>, off: nat, f: Plane, x: int, z: int, w: nat, lo: nat, hi: nat) {
    forall r: nat :: lo <= r < hi ==> RowAt(s, off, f, x, z, w, r)
  }

  lemma RowsFromKept(s: seq<int>, t: seq<int>, from: nat, to: nat,
                     off: nat, f: Plane, x: int, z: int, w: nat, lo: nat, hi: nat)
    requires OnlyWrites(s, t, from, to) && RowsFrom(s, off, f, x, z, w, lo, hi)
    requires to <= off + Area(w, lo)
    ensures RowsFrom(t, off, f, x, z, w, lo, hi)
  {
    forall r: nat | lo <= r < hi ensures RowAt(t, off, f, x, z, w, r) {
      AreaGrows(w, lo, w, r);
      assert RowAt(s, off, f, x, z, w, r);
      RowKept(s, t, from, to, off + Area(w, r), f, x, z + r, w);
    }
  }

  lemma WindowGrows(s: seq<int>, t: seq<int>, off: nat, g: Plane, x: int, z: int, w: nat, j: nat)
    requires Window(s, off, g, x, z, w, j)
    requires OnlyWrites(s, t, off + Area(w, j), off + Area(w, j) + w)
    requires RowAt(t, off, g, x, z, w, j)
    ensures Window(t, off, g, x, z, w, j + 1)
  {
    WindowKept(s, t, off + Area(w, j), off + Area(w, j) + w, off, g, x, z, w, j);
  }

  /** The three parent rows that a 3x3 layer needs for its row at (x, z). */
  ghost predicate ThreeRows(s: seq<int>, r0: nat, f: Plane, x: int, z: int, w: nat) {
    Row(s, r0, f, x - 1, z - 1, w + 2) &&
    Row(s, r0 + w + 2, f, x - 1, z, w + 2) &&
    Row(s, r0 + 2 * (w + 2), f, x - 1, z + 1, w + 2)
  }

  /** The buffer still holds `s` from `from` on. */
  ghost predicate Intact(buf: array<int>, s: seq<int>, from: nat)
    reads buf
  {
    buf.Length == |s| && forall k {:trigger buf[k]} :: from <= k < |s| ==> buf[k] == s[k]
  }

  method ReadNine(buf: array<int>, r0: nat, w: nat, i: nat,
                  ghost s: seq<int>, ghost f: Plane, ghost x: int, ghost z: int) returns (n: Nine)
    requires ThreeRows(s, r0, f, x, z, w) && i < w && Intact(buf, s, r0 + i)
    ensures n == NineOf(f, x + i, z)
  {
    var r1, r2 := r0 + w + 2, r0 + 2 * (w + 2);
    n := Nine(buf[r0 + i], buf[r0 + i + 1], buf[r0 + i + 2],
              buf[r1 + i], buf[r1 + i + 1], buf[r1 + i + 2],
              buf[r2 + i], buf[r2 + i + 1], buf[r2 + i + 2]);
  }

  /** The centre and the two corners ahead of it, which the land layers read. */
  method ReadAhead(buf: array<int>, r0: nat, w: nat, i: nat,
                   ghost s: seq<int>, ghost f: Plane, ghost x: int, ghost z: int)
    returns (v11: int, v20: int, v22: int)
    requires ThreeRows(s, r0, f, x, z, w) && i < w && Intact(buf, s, r0 + i)
    ensures v11 == f(x + i, z) && v20 == f(x + i + 1, z - 1) && v22 == f(x + i + 1, z + 1)
  {
    var r1, r2 := r0 + w + 2, r0 + 2 * (w + 2);
    v11, v20, v22 := buf[r1 + i + 1], buf[r0 + i + 2], buf[r2 + i + 2];
  }

  method StencilRow(near: (int, int, Nine) -> int, buf: array<int>, at: nat, r0: nat,
                    x: int, z: int, w: nat, ghost f: Plane, ghost g: Plane)
    requires forall i {:trigger NineOf(f, i, z)} :: g(i, z) == near(i, z, NineOf(f, i, z))
    requires at <= r0 && ThreeRows(buf[..], r0, f, x, z, w)
    modifies buf
    ensures Row(buf[..], at, g, x, z, w) && OnlyWrites(old(buf[..]), buf[..], at, at + w)
  {
    ghost var s := buf[..];
    for i := 0 to w
      invariant forall k {:trigger buf[k]} :: at <= k < at + i ==> buf[k] == g(x + (k - at), z)
      invariant forall k {:trigger buf[k]} :: 0 <= k < |s| && !(at <= k < at + i) ==> buf[k] == s[k]
    {
      var n := ReadNine(buf, r0, w, i, s, f, x, z);
      buf[at + i] := near(x + i, z, n);
    }
  }

  /** The sliding registers of the land layers: the cells to the left have already been
      overwritten when a cell needs them, and survive only in `v00`, `vt0`, `v02`, `vt2`. */
  method LandRow(corner: (int, int, Five) -> int, buf: array<int>, at: nat, r0: nat,
                 x: int, z: int, w: nat, ghost f: Plane, ghost g: Plane)
    requires forall i {:trigger LandRule(corner, f, i, z)} :: g(i, z) == LandRule(corner, f, i, z)
    requires at <= r0 && ThreeRows(buf[..], r0, f, x, z, w)
    modifies buf
    ensures Row(buf[..], at, g, x, z, w) && OnlyWrites(old(buf[..]), buf[..], at, at + w)
  {
    ghost var s := buf[..];
    var r2 := r0 + 2 * (w + 2);
    var v00, vt0 := buf[r0], buf[r0 + 1];
    var v02, vt2 := buf[r2], buf[r2 + 1];
    for i := 0 to w
      invariant forall k {:trigger buf[k]} :: at <= k < at + i ==> buf[k] == g(x + (k - at), z)
      invariant forall k {:trigger buf[k]} :: 0 <= k < |s| && !(at <= k < at + i) ==> buf[k] == s[k]
      invariant v00 == f(x + i - 1, z - 1) && vt0 == f(x + i, z - 1)
      invariant v02 == f(x + i - 1, z + 1) && vt2 == f(x + i, z + 1)
    {
      var v11, v20, v22 := ReadAhead(buf, r0, w, i, s, f, x, z);
      assert g(x + i, z) == LandRule(corner, f, x + i, z);
      buf[at + i] := corner(x + i, z, Five(v00, v20, v02, v22, v11));
      v00, vt0 := vt0, v20;
      v02, vt2 := vt2, v22;
    }
  }

  /** The island layer writes its centre cell before it looks at the neighbours. */
  method IslandRow(open: (int, int) -> bool, buf: array<int>, at: nat, r0: nat,
                   x: int, z: int, w: nat, ghost f: Plane, ghost g: Plane)
    requires forall i {:trigger IslandRule(open, f, i, z)} :: g(i, z) == IslandRule(open, f, i, z)
    requires at <= r0 && ThreeRows(buf[..], r0, f, x, z, w)
    modifies buf
    ensures Row(buf[..], at, g, x, z, w) && OnlyWrites(old(buf[..]), buf[..], at, at + w)
  {
    ghost var s := buf[..];
    var r1, r2 := r0 + w + 2, r0 + 2 * (w + 2);
    for i := 0 to w
      invariant forall k {:trigger buf[k]} :: at <= k < at + i ==> buf[k] == g(x + (k - at), z)
      invariant forall k {:trigger buf[k]} :: 0 <= k < |s| && !(at <= k < at + i) ==> buf[k] == s[k]
    {
      assert g(x + i, z) == IslandRule(open, f, x + i, z);
      var v11 := buf[r1 + i + 1];
      buf[at + i] := v11;
      if v11 == OCEAN {
        if buf[r0 + i + 1] == OCEAN && buf[r1 + i + 2] == OCEAN && buf[r1 + i] == OCEAN
           && buf[r2 + i + 1] == OCEAN && open(x + i, z) {
          buf[at + i] := 1;
        }
      }
    }
  }

  method HillsRow(hill: (int, int, Nine, int) -> int, buf: array<int>, at: nat, r0: nat, riv: nat,
                  x: int, z: int, w: nat, ghost f: Plane, ghost f2: Plane, ghost g: Plane)
    requires forall i {:trigger NineOf(f, i, z)} :: g(i, z) == hill(i, z, NineOf(f, i, z), f2(i, z))
    requires at <= r0 && ThreeRows(buf[..], r0, f, x, z, w)
    requires at + w <= riv && Row(buf[..], riv, f2, x, z, w)
    modifies buf
    ensures Row(buf[..], at, g, x, z, w) && OnlyWrites(old(buf[..]), buf[..], at, at + w)
  {
    ghost var s := buf[..];
    for i := 0 to w
      invariant forall k {:trigger buf[k]} :: at <= k < at + i ==> buf[k] == g(x + (k - at), z)
      invariant forall k {:trigger buf[k]} :: 0 <= k < |s| && !(at <= k < at + i) ==> buf[k] == s[k]
    {
      var n := ReadNine(buf, r0, w, i, s, f, x, z);
      buf[at + i] := hill(x + i, z, n, buf[riv + i]);
    }
  }

  /** `g` is what the rule of `l` makes of the parents' contents `f` and `f2`. */
  ghost predicate NearRefines(l: Layer, f: Plane, f2: Plane, g: Plane)
  {
    match l
    case Stencil(near, _) => forall i, j {:trigger NineOf(f, i, j)} :: g(i, j) == near(i, j, NineOf(f, i, j))
    case Land(corner, _) => forall i, j {:trigger LandRule(corner, f, i, j)} :: g(i, j) == LandRule(corner, f, i, j)
    case Island(open, _) => forall i, j {:trigger IslandRule(open, f, i, j)} :: g(i, j) == IslandRule(open, f, i, j)
    case Hills(hill, _, _) => forall i, j {:trigger NineOf(f, i, j)} :: g(i, j) == hill(i, j, NineOf(f, i, j), f2(i, j))
    case _ => false
  }

  /** One row of whichever 3x3 layer `l` is. */
  method NearRow(l: Layer, buf: array<int>, at: nat, r0: nat, riv: nat,
                 x: int, z: int, w: nat, ghost f: Plane, ghost f2: Plane, ghost g: Plane)
    requires NearRefines(l, f, f2, g)
    requires at <= r0 && ThreeRows(buf[..], r0, f, x, z, w)
    requires l.Hills? ==> at + w <= riv && Row(buf[..], riv, f2, x, z, w)
    modifies buf
    ensures Row(buf[..], at, g, x, z, w) && OnlyWrites(old(buf[..]), buf[..], at, at + w)
  {
    match l {
      case Stencil(near, _) => StencilRow(near, buf, at, r0, x, z, w, f, g);
      case Land(corner, _) => LandRow(corner, buf, at, r0, x, z, w, f, g);
      case Island(open, _) => IslandRow(open, buf, at, r0, x, z, w, f, g);
      case Hills(hill, _, _) => HillsRow(hill, buf, at, r0, riv, x, z, w, f, f2, g);
    }
  }

  /** The state of a 3x3 layer when `j` of its rows are done: they hold `g`, and the parent
      rows from `j` on are still in place. */
  ghost predicate HalfDone(s: seq<int>, off: nat, f: Plane, g: Plane, x: int, z: int,
                           w: nat, h: nat, j: nat) {
    Window(s, off, g, x, z, w, j) && RowsFrom(s, off, f, x - 1, z - 1, w + 2, j, h + 2)
  }

  lemma HalfDoneStep(s: seq<int>, t: seq<int>, off: nat, f: Plane, g: Plane, x: int, z: int,
                     w: nat, h: nat, j: nat)
    requires HalfDone(s, off, f, g, x, z, w, h, j) && j < h
    requires OnlyWrites(s, t, off + Area(w, j), off + Area(w, j) + w)
    requires RowAt(t, off, g, x, z, w, j)
    ensures HalfDone(t, off, f, g, x, z, w, h, j + 1)
  {
    hide Row, RowAt, OnlyWrites, Window;
    WindowGrows(s, t, off, g, x, z, w, j);
    AreaGrows(w, j, w + 2, j);
    RowsFromKept(s, t, off + Area(w, j), off + Area(w, j) + w,
                 off, f, x - 1, z - 1, w + 2, j + 1, h + 2);
  }

  lemma ThreeInPlace(s: seq<int>, off: nat, f: Plane, g: Plane, x: int, z: int, w: nat, h: nat, j: nat)
    requires HalfDone(s, off, f, g, x, z, w, h, j) && j < h
    ensures ThreeRows(s, off + Area(w + 2, j), f, x, z + j, w)
    ensures Area(w, j) <= Area(w + 2, j) && Area(w, j) + w <= Area(w + 2, h + 2)
  {
    var px, pz, pw := x - 1, z - 1, w + 2;
    assert RowAt(s, off, f, px, pz, pw, j);
    assert RowAt(s, off, f, px, pz, pw, j + 1);
    assert RowAt(s, off, f, px, pz, pw, j + 2);
    AreaGrows(w, j, pw, j);
    AreaGrows(w, j + 1, pw, h + 2);
  }

  lemma RiverInPlace(s: seq<int>, riv: nat, f2: Plane, x: int, z: int, w: nat, h: nat, j: nat)
    requires Window(s, riv, f2, x - 1, z - 1, w + 2, h + 2) && j < h
    ensures Row(s, riv + Area(w + 2, j + 1) + 1, f2, x, z + j, w)
  {
    assert RowAt(s, riv, f2, x - 1, z - 1, w + 2, j + 1);
  }

  /** Row `j` of a 3x3 layer over the parent area, which is two cells wider, so that the
      write position never overtakes an unread row. */
  method NearStep(l: Layer, buf: array<int>, off: nat, x: int, z: int, w: nat, h: nat, j: nat,
                  ghost f: Plane, ghost f2: Plane, ghost g: Plane)
    requires NearRefines(l, f, f2, g) && j < h
    requires HalfDone(buf[..], off, f, g, x, z, w, h, j)
    requires l.Hills? ==> Window(buf[..], off + Area(w + 2, h + 2), f2, x - 1, z - 1, w + 2, h + 2)
    modifies buf
    ensures HalfDone(buf[..], off, f, g, x, z, w, h, j + 1)
    ensures OnlyWrites(old(buf[..]), buf[..], off + Area(w, j), off + Area(w, j) + w)
  {
    ghost var s := buf[..];
    var pw := w + 2;
    var at, r0, riv := off + Area(w, j), off + Area(pw, j), off + Area(pw, h + 2) + Area(pw, j + 1) + 1;
    ThreeInPlace(s, off, f, g, x, z, w, h, j);
    if l.Hills? {
      RiverInPlace(s, off + Area(pw, h + 2), f2, x, z, w, h, j);
    }
    NearRow(l, buf, at, r0, riv, x, z + j, w, f, f2, g);
    HalfDoneStep(s, buf[..], off, f, g, x, z, w, h, j);
  }

  method NearMap(l: Layer, buf: array<int>, off: nat, x: int, z: int, w: nat, h: nat,
                 ghost f: Plane, ghost f2: Plane, ghost g: Plane)
    requires NearRefines(l, f, f2, g)
    requires Window(buf[..], off, f, x - 1, z - 1, w + 2, h + 2)
    requires l.Hills? ==> Window(buf[..], off + Area(w + 2, h + 2), f2, x - 1, z - 1, w + 2, h + 2)
    modifies buf
    ensures Window(buf[..], off, g, x, z, w, h)
    ensures OnlyWrites(old(buf[..]), buf[..], off, off + Area(w, h))
  {
    ghost var riv := off + Area(w + 2, h + 2);
    AreaGrows(w, h, w + 2, h + 2);
    for j := 0 to h
      invariant HalfDone(buf[..], off, f, g, x, z, w, h, j)
      invariant l.Hills? ==> Window(buf[..], riv, f2, x - 1, z - 1, w + 2, h + 2)
      invariant OnlyWrites(old(buf[..]), buf[..], off, off + Area(w, j))
    {
      ghost var s := buf[..];
      RowWithin(w, h, j);
      NearStep(l, buf, off, x, z, w, h, j, f, f2, g);
      if l.Hills? {
        WindowKept(s, buf[..], off + Area(w, j), off + Area(w, j) + w,
                   riv, f2, x - 1, z - 1, w + 2, h + 2);
      }
    }
  }
}
