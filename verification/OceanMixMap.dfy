/** The ocean mix: the ocean area is read first to find how much land is needed around it,
    and the trimmed land window is generated behind it. */
module OceanMixMap {
  import opened Rows
  import opened Layers
  import opened AreaMaps

  /** A land window relative to the ocean window: columns lx0 to lx1, rows lz0 to lz1. */
  datatype Trim = Trim(lx0: int, lx1: int, lz0: int, lz1: int)

  predicate Covers(t: Trim, i: int, j: int) {
    t.lx0 <= i - 8 && i + 9 <= t.lx1 && t.lz0 <= j - 8 && j + 9 <= t.lz1
  }

  predicate Fits(t: Trim, w: nat, h: nat) {
    -8 <= t.lx0 <= 0 && w <= t.lx1 <= w + 8 && -8 <= t.lz0 <= 0 && h <= t.lz1 <= h + 8
  }

  /** All warm or frozen ocean in the window has its 17x17 surroundings in the land window. */
  ghost predicate CoversAll(t: Trim, f2: Plane, x: int, z: int, w: nat, h: nat) {
    forall i, j {:trigger Covers(t, i, j)} ::
      0 <= i < w && 0 <= j < h && Buffered(f2(x + i, z + j)) ==> Covers(t, i, j)
  }

  /** What is covered when the scan has reached cell (i, j). */
  ghost predicate CoversUpTo(t: Trim, f2: Plane, x: int, z: int, w: nat, h: nat, i: int, j: int) {
    forall a, b {:trigger Covers(t, a, b)} ::
      0 <= a < w && 0 <= b < h && (b < j || (b == j && a < i)) && Buffered(f2(x + a, z + b)) ==> Covers(t, a, b)
  }

  /** No smaller land window would do: every window that contains the ocean window and all that
      its warm and frozen cells need contains this one. */
  ghost predicate Least(t: Trim, f2: Plane, x: int, z: int, w: nat, h: nat) {
    forall u: Trim :: CoversAll(u, f2, x, z, w, h) && Contains(u, Trim(0, w, 0, h)) ==> Contains(u, t)
  }

  predicate Contains(u: Trim, t: Trim) {
    u.lx0 <= t.lx0 && t.lx1 <= u.lx1 && u.lz0 <= t.lz0 && t.lz1 <= u.lz1
  }

  lemma LeastStep(t: Trim, u: Trim, f2: Plane, x: int, z: int, w: nat, h: nat, i: int, j: int)
    requires Least(t, f2, x, z, w, h) && 0 <= i < w && 0 <= j < h && Buffered(f2(x + i, z + j))
    requires (u.lx0 == t.lx0 || u.lx0 == i - 8) && (u.lx1 == t.lx1 || u.lx1 == i + 9)
    requires (u.lz0 == t.lz0 || u.lz0 == j - 8) && (u.lz1 == t.lz1 || u.lz1 == j + 9)
    ensures Least(u, f2, x, z, w, h)
  {
    forall v: Trim | CoversAll(v, f2, x, z, w, h) && Contains(v, Trim(0, w, 0, h))
      ensures Contains(v, u)
    {
      assert Covers(v, i, j) && Contains(v, t);
    }
  }

  lemma Widened(t: Trim, u: Trim, f2: Plane, x: int, z: int, w: nat, h: nat, i: int, j: int)
    requires CoversUpTo(t, f2, x, z, w, h, i, j)
    requires u.lx0 <= t.lx0 && t.lx1 <= u.lx1 && u.lz0 <= t.lz0 && t.lz1 <= u.lz1
    requires 0 <= i < w && 0 <= j < h && Buffered(f2(x + i, z + j)) ==> Covers(u, i, j)
    ensures CoversUpTo(u, f2, x, z, w, h, i + 1, j)
  {
    forall a, b | 0 <= a < w && 0 <= b < h && (b < j || (b == j && a < i + 1)) && Buffered(f2(x + a, z + b))
      ensures Covers(u, a, b)
    {
      assert (b < j || (b == j && a < i)) ==> Covers(t, a, b);
    }
  }

  function Widen(t: Trim, i: int, j: int, oceanID: int): Trim {
    if !Buffered(oceanID) then t
    else Trim(if i - 8 < t.lx0 then i - 8 else t.lx0, if i + 9 > t.lx1 then i + 9 else t.lx1,
              if j - 8 < t.lz0 then j - 8 else t.lz0, if j + 9 > t.lz1 then j + 9 else t.lz1)
  }

  /** The land window as it is when the scan has reached cell (i, j). */
  ghost function TrimTo(f2: Plane, x: int, z: int, w: nat, h: nat, i: nat, j: nat): (t: Trim)
    requires i <= w && j <= h && (j == h ==> i == 0)
    ensures Fits(t, w, h)
    decreases j, i
  {
    if i > 0 then Widen(TrimTo(f2, x, z, w, h, i - 1, j), i - 1, j, f2(x + i - 1, z + j))
    else if j > 0 then TrimTo(f2, x, z, w, h, w, j - 1)
    else Trim(0, w, 0, h)
  }

  /** The land window that an ocean window needs. */
  ghost function Trimmed(f2: Plane, x: int, z: int, w: nat, h: nat): (t: Trim)
    ensures Fits(t, w, h)
  {
    TrimTo(f2, x, z, w, h, 0, h)
  }

  lemma {:induction false} TrimCovers(f2: Plane, x: int, z: int, w: nat, h: nat, i: nat, j: nat)
    requires i <= w && j <= h && (j == h ==> i == 0)
    ensures var t := TrimTo(f2, x, z, w, h, i, j);
      CoversUpTo(t, f2, x, z, w, h, i, j) && Least(t, f2, x, z, w, h)
    decreases j, i
  {
    hide Least, CoversUpTo;
    if i > 0 {
      var t := TrimTo(f2, x, z, w, h, i - 1, j);
      var u := Widen(t, i - 1, j, f2(x + i - 1, z + j));
      TrimCovers(f2, x, z, w, h, i - 1, j);
      Widened(t, u, f2, x, z, w, h, i - 1, j);
      if Buffered(f2(x + i - 1, z + j)) { LeastStep(t, u, f2, x, z, w, h, i - 1, j); }
    } else if j > 0 {
      TrimCovers(f2, x, z, w, h, w, j - 1);
      NextRow(TrimTo(f2, x, z, w, h, w, j - 1), f2, x, z, w, h, j);
    } else {
      LeastStart(f2, x, z, w, h);
    }
  }

  lemma NextRow(t: Trim, f2: Plane, x: int, z: int, w: nat, h: nat, j: nat)
    requires j > 0 && CoversUpTo(t, f2, x, z, w, h, w, j - 1)
    ensures CoversUpTo(t, f2, x, z, w, h, 0, j)
  {
  }

  /** It covers what every warm or frozen cell needs, and it is the least window that does. */
  lemma {:induction false} TrimmedIsLeast(f2: Plane, x: int, z: int, w: nat, h: nat)
    ensures var t := Trimmed(f2, x, z, w, h); CoversAll(t, f2, x, z, w, h) && Least(t, f2, x, z, w, h)
  {
    hide Least;
    TrimCovers(f2, x, z, w, h, 0, h);
  }

  /** The land window that is needed. Cells more than eight away from every border need no
      more than the window itself and are skipped. */
  method TrimLand(buf: array<int>, off: nat, w: nat, h: nat, ghost f2: Plane, ghost x: int, ghost z: int)
    returns (t: Trim)
    requires Window(buf[..], off, f2, x, z, w, h)
    ensures t == Trimmed(f2, x, z, w, h)
    ensures Fits(t, w, h) && CoversAll(t, f2, x, z, w, h) && Least(t, f2, x, z, w, h)
  {
    hide Least, CoversAll, TrimTo;
    t := Trim(0, w, 0, h);
    TrimStart(f2, x, z, w, h);
    for j := 0 to h
      invariant t == TrimTo(f2, x, z, w, h, 0, j)
    {
      var jcentre := j - 8 > 0 && j + 9 < h;
      for i := 0 to w
        invariant t == TrimTo(f2, x, z, w, h, i, j)
      {
        assert RowAt(buf[..], off, f2, x, z, w, j);
        TrimNext(f2, x, z, w, h, i, j);
        if !(jcentre && i - 8 > 0 && i + 9 < w) {
          var oceanID := buf[off + Area(w, j) + i];
          if oceanID == WARM_OCEAN || oceanID == FROZEN_OCEAN {
            if i - 8 < t.lx0 { t := t.(lx0 := i - 8); }
            if i + 9 > t.lx1 { t := t.(lx1 := i + 9); }
            if j - 8 < t.lz0 { t := t.(lz0 := j - 8); }
            if j + 9 > t.lz1 { t := t.(lz1 := j + 9); }
          }
        }
      }
      TrimRow(f2, x, z, w, h, j);
    }
    TrimmedIsLeast(f2, x, z, w, h);
  }

  lemma TrimStart(f2: Plane, x: int, z: int, w: nat, h: nat)
    ensures TrimTo(f2, x, z, w, h, 0, 0) == Trim(0, w, 0, h)
  {
  }

  lemma TrimNext(f2: Plane, x: int, z: int, w: nat, h: nat, i: nat, j: nat)
    requires i < w && j < h
    ensures TrimTo(f2, x, z, w, h, i + 1, j) == Widen(TrimTo(f2, x, z, w, h, i, j), i, j, f2(x + i, z + j))
  {
  }

  lemma TrimRow(f2: Plane, x: int, z: int, w: nat, h: nat, j: nat)
    requires j < h
    ensures TrimTo(f2, x, z, w, h, 0, j + 1) == TrimTo(f2, x, z, w, h, w, j)
  {
  }

  lemma LeastStart(f2: Plane, x: int, z: int, w: nat, h: nat)
    ensures CoversUpTo(Trim(0, w, 0, h), f2, x, z, w, h, 0, 0) && Least(Trim(0, w, 0, h), f2, x, z, w, h)
  {
  }

  /** One cell of an area, by column and row. */
  method ReadCell(buf: array<int>, off: nat, w: nat, h: nat, i: nat, j: nat,
                  ghost f: Plane, ghost x: int, ghost z: int) returns (v: int)
    requires Window(buf[..], off, f, x, z, w, h) && i < w && j < h
    ensures v == f(x + i, z + j)
  {
    assert RowAt(buf[..], off, f, x, z, w, j);
    v := buf[off + Area(w, j) + i];
  }

  /** Whether any of the 25 land cells around (i, j) is not ocean. */
  method ScanShore(buf: array<int>, land: nat, lw: nat, lh: nat, i: nat, j: nat,
                   ghost f: Plane, ghost x: int, ghost z: int) returns (found: bool)
    requires Window(buf[..], land, f, x, z, lw, lh)
    requires 8 <= i && i + 8 < lw && 8 <= j && j + 8 < lh
    ensures found == ShoreNear(f, x + i, z + j)
  {
    ghost var cx, cz := x + i, z + j;
    for a := 0 to 5
      invariant forall c: nat, d: nat :: c < a && d < 5 ==> OceanAt(f, cx, cz, c, d)
    {
      for b := 0 to 5
        invariant forall c: nat, d: nat :: (c < a && d < 5) || (c == a && d < b) ==> OceanAt(f, cx, cz, c, d)
      {
        var id := ReadCell(buf, land, lw, lh, i - 8 + 4 * a, j - 8 + 4 * b, f, x, z);
        assert IsOceanic(id) == OceanAt(f, cx, cz, a, b);
        if !IsOceanic(id) {
          return true;
        }
      }
    }
    found := false;
  }

  /** The cell rule, given its land cell and a land window that covers it. */
  method MixCell(buf: array<int>, land: nat, lw: nat, lh: nat, i: nat, j: nat, oceanID: int,
                 ghost f: Plane, ghost f2: Plane, ghost x: int, ghost z: int) returns (v: int)
    requires Window(buf[..], land, f, x, z, lw, lh) && i < lw && j < lh
    requires oceanID == f2(x + i, z + j)
    requires Buffered(oceanID) ==> 8 <= i && i + 8 < lw && 8 <= j && j + 8 < lh
    ensures v == OceanMixRule(f, f2, x + i, z + j)
  {
    var landID := ReadCell(buf, land, lw, lh, i, j, f, x, z);
    if !IsOceanic(landID) {
      return landID;
    }
    var replaceID := 0;
    if oceanID == WARM_OCEAN { replaceID := LUKEWARM_OCEAN; }
    if oceanID == FROZEN_OCEAN { replaceID := COLD_OCEAN; }
    if replaceID != 0 {
      var found := ScanShore(buf, land, lw, lh, i, j, f, x, z);
      if found {
        return replaceID;
      }
    }
    v := DeepVariant(landID, oceanID);
  }

  ghost predicate MixRefines(f: Plane, f2: Plane, g: Plane) {
    forall i, j {:trigger OceanMixRule(f, f2, i, j)} :: g(i, j) == OceanMixRule(f, f2, i, j)
  }

  /** Row `j` of the mix, written over the ocean row. */
  method MixRow(buf: array<int>, at: nat, land: nat, t: Trim, x: int, z: int, w: nat, h: nat, j: nat,
                ghost f: Plane, ghost f2: Plane, ghost g: Plane)
    requires MixRefines(f, f2, g) && j < h && Fits(t, w, h) && CoversAll(t, f2, x, z, w, h)
    requires at + w <= land && Row(buf[..], at, f2, x, z + j, w)
    requires Window(buf[..], land, f, x + t.lx0, z + t.lz0, t.lx1 - t.lx0, t.lz1 - t.lz0)
    modifies buf
    ensures Row(buf[..], at, g, x, z + j, w) && OnlyWrites(old(buf[..]), buf[..], at, at + w)
    ensures Window(buf[..], land, f, x + t.lx0, z + t.lz0, t.lx1 - t.lx0, t.lz1 - t.lz0)
  {
    ghost var s := buf[..];
    var lw, lh := t.lx1 - t.lx0, t.lz1 - t.lz0;
    for i := 0 to w
      invariant forall k {:trigger buf[k]} :: at <= k < at + i ==> buf[k] == g(x + (k - at), z + j)
      invariant forall k {:trigger buf[k]} :: 0 <= k < |s| && !(at <= k < at + i) ==> buf[k] == s[k]
      invariant Window(buf[..], land, f, x + t.lx0, z + t.lz0, lw, lh)
    {
      hide Window;
      var oceanID := buf[at + i];
      assert oceanID == f2(x + i, z + j);
      assert Buffered(oceanID) ==> Covers(t, i, j);
      var v := MixCell(buf, land, lw, lh, i - t.lx0, j - t.lz0, oceanID, f, f2, x + t.lx0, z + t.lz0);
      buf[at + i] := v;
      WindowKept(s, buf[..], at, at + w, land, f, x + t.lx0, z + t.lz0, lw, lh);
    }
  }

  /** The second pass of the ocean mix. */
  method MixMap(buf: array<int>, off: nat, t: Trim, x: int, z: int, w: nat, h: nat,
                ghost f: Plane, ghost f2: Plane, ghost g: Plane)
    requires MixRefines(f, f2, g) && Fits(t, w, h) && CoversAll(t, f2, x, z, w, h)
    requires Window(buf[..], off, f2, x, z, w, h)
    requires Window(buf[..], off + Area(w, h), f, x + t.lx0, z + t.lz0, t.lx1 - t.lx0, t.lz1 - t.lz0)
    modifies buf
    ensures Window(buf[..], off, g, x, z, w, h)
    ensures OnlyWrites(old(buf[..]), buf[..], off, off + Area(w, h))
  {
    for j := 0 to h
      invariant Window(buf[..], off, g, x, z, w, j)
      invariant RowsFrom(buf[..], off, f2, x, z, w, j, h)
      invariant Window(buf[..], off + Area(w, h), f, x + t.lx0, z + t.lz0, t.lx1 - t.lx0, t.lz1 - t.lz0)
      invariant OnlyWrites(old(buf[..]), buf[..], off, off + Area(w, j))
    {
      ghost var s := buf[..];
      RowWithin(w, h, j);
      assert RowAt(s, off, f2, x, z, w, j);
      MixRow(buf, off + Area(w, j), off + Area(w, h), t, x, z, w, h, j, f, f2, g);
      WindowGrows(s, buf[..], off, g, x, z, w, j);
      RowsFromKept(s, buf[..], off + Area(w, j), off + Area(w, j) + w, off, f2, x, z, w, j + 1, h);
    }
  }
}
