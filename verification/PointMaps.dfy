/** The map functions that keep a cell at its own position: sources, one-to-one layers
    and the river mix. */
module PointMaps {
  import opened Rows
  import opened Layers
  import opened AreaMaps

  /** One row of a source. It ends with `over` at the first cell behind the buffer. */
  method SourceRow(rule: Plane, buf: array<int>, at: nat, x: int, z: int, w: nat) returns (over: bool)
    modifies buf
    ensures OnlyWrites(old(buf[..]), buf[..], at, at + w)
    ensures over <==> w > 0 && at + w > buf.Length
    ensures !over && w > 0 ==> Row(buf[..], at, rule, x, z, w)
  {
    for i := 0 to w
      invariant i > 0 ==> at + i <= buf.Length
      invariant forall k {:trigger buf[k]} :: at <= k < at + i ==> buf[k] == rule(x + (k - at), z)
      invariant forall k {:trigger buf[k]} :: 0 <= k < buf.Length && !(at <= k < at + i) ==> buf[k] == old(buf[k])
    {
      if at + i >= buf.Length {
        return true;
      }
      buf[at + i] := rule(x + i, z);
    }
    over := false;
  }

  /** The cells of a source, row by row, or `over` when one lies behind the buffer. */
  method SourceMap(rule: Plane, buf: array<int>, off: nat, x: int, z: int, w: nat, h: nat) returns (over: bool)
    requires off <= buf.Length
    modifies buf
    ensures over <==> off + Area(w, h) > buf.Length
    ensures !over ==> Window(buf[..], off, rule, x, z, w, h)
    ensures OnlyWrites(old(buf[..]), buf[..], off, off + Area(w, h))
  {
    for j := 0 to h
      invariant off + Area(w, j) <= buf.Length && Window(buf[..], off, rule, x, z, w, j)
      invariant OnlyWrites(old(buf[..]), buf[..], off, off + Area(w, j))
    {
      ghost var s := buf[..];
      RowWithin(w, h, j);
      over := SourceRow(rule, buf, off + Area(w, j), x, z + j, w);
      if over {
        return;
      }
      WindowGrows(s, buf[..], off, rule, x, z, w, j);
    }
    over := false;
  }

  /** Two rows do not overlap. */
  lemma OtherRow(w: nat, a: nat, b: nat)
    ensures a < b ==> Area(w, a) + w <= Area(w, b)
    ensures b < a ==> Area(w, b) + w <= Area(w, a)
  {
    if a < b { RowWithin(w, b, a); }
    if b < a { RowWithin(w, a, b); }
  }

  /** `g` is `f` but for the origin, which is land. */
  ghost predicate OriginForced(f: Plane, g: Plane) {
    forall i, j :: g(i, j) == if i == 0 && j == 0 then 1 else f(i, j)
  }

  lemma OriginPut(s: seq<int>, off: nat, x: int, z: int, w: nat, h: nat, f: Plane, g: Plane)
    requires OriginForced(f, g) && Window(s, off, f, x, z, w, h)
    requires 0 < x + w && x <= 0 && 0 < z + h && z <= 0
    ensures 0 <= off + Area(w, -z) - x < off + Area(w, h) <= |s|
    ensures Window(s[off + Area(w, -z) - x := 1], off, g, x, z, w, h)
  {
    RowWithin(w, h, -z);
    OtherRow(w, h - 1, -z);
    assert RowAt(s, off, f, x, z, w, h - 1);
    var t := s[off + Area(w, -z) - x := 1];
    forall j: nat | j < h ensures RowAt(t, off, g, x, z, w, j) {
      assert RowAt(s, off, f, x, z, w, j);
      OtherRow(w, -z, j);
    }
  }

  /** Land or sea by draw, with the origin forced to be land when it is in the window. */
  method ContinentMap(land: (int, int) -> bool, buf: array<int>, off: nat,
                      x: int, z: int, w: nat, h: nat, ghost g: Plane) returns (over: bool)
    requires off <= buf.Length
    requires forall i, j :: g(i, j) == if i == 0 && j == 0 then 1 else Bit(land(i, j))
    modifies buf
    ensures over <==> off + Area(w, h) > buf.Length
    ensures !over ==> Window(buf[..], off, g, x, z, w, h)
    ensures OnlyWrites(old(buf[..]), buf[..], off, off + Area(w, h))
  {
    var rule := (i, j) => Bit(land(i, j));
    assert OriginForced(rule, g);
    over := SourceMap(rule, buf, off, x, z, w, h);
    if over {
      return;
    }
    ghost var s := buf[..];
    if 0 < x + w && x <= 0 && 0 < z + h && z <= 0 {
      OriginPut(s, off, x, z, w, h, rule, g);
      buf[off + Area(w, -z) - x] := 1;
      assert buf[..] == s[off + Area(w, -z) - x := 1];
    } else {
      forall j: nat | j < h ensures RowAt(s, off, g, x, z, w, j) {
        assert RowAt(s, off, rule, x, z, w, j);
      }
    }
  }

  method CellRow(cell: (int, int, int) -> int, buf: array<int>, at: nat, x: int, z: int, w: nat,
                 ghost f: Plane, ghost g: Plane)
    requires Row(buf[..], at, f, x, z, w)
    requires forall i :: g(i, z) == cell(i, z, f(i, z))
    modifies buf
    ensures Row(buf[..], at, g, x, z, w) && OnlyWrites(old(buf[..]), buf[..], at, at + w)
  {
    ghost var s := buf[..];
    for i := 0 to w
      invariant forall k {:trigger buf[k]} :: at <= k < at + i ==> buf[k] == g(x + (k - at), z)
      invariant forall k {:trigger buf[k]} :: 0 <= k < |s| && !(at <= k < at + i) ==> buf[k] == s[k]
    {
      buf[at + i] := cell(x + i, z, buf[at + i]);
    }
  }

  method CellMap(cell: (int, int, int) -> int, buf: array<int>, off: nat,
                 x: int, z: int, w: nat, h: nat, ghost f: Plane, ghost g: Plane)
    requires Window(buf[..], off, f, x, z, w, h)
    requires forall i, j :: g(i, j) == cell(i, j, f(i, j))
    modifies buf
    ensures Window(buf[..], off, g, x, z, w, h)
    ensures OnlyWrites(old(buf[..]), buf[..], off, off + Area(w, h))
  {
    hide Row;
    for j := 0 to h
      invariant Window(buf[..], off, g, x, z, w, j)
      invariant RowsFrom(buf[..], off, f, x, z, w, j, h)
      invariant OnlyWrites(old(buf[..]), buf[..], off, off + Area(w, j))
    {
      ghost var s := buf[..];
      assert RowAt(s, off, f, x, z, w, j);
      CellRow(cell, buf, off + Area(w, j), x, z + j, w, f, g);
      WindowGrows(s, buf[..], off, g, x, z, w, j);
      RowsFromKept(s, buf[..], off + Area(w, j), off + Area(w, j) + w, off, f, x, z, w, j + 1, h);
    }
  }

  /** The river mix runs over the cells as one line; the rivers lie right behind. */
  method RiverMixMap(mix: (int, int) -> int, buf: array<int>, off: nat,
                     x: int, z: int, w: nat, h: nat, ghost f: Plane, ghost f2: Plane, ghost g: Plane)
    requires Window(buf[..], off, f, x, z, w, h)
    requires Window(buf[..], off + Area(w, h), f2, x, z, w, h)
    requires off + 2 * Area(w, h) <= buf.Length
    requires forall i, j :: g(i, j) == mix(f(i, j), f2(i, j))
    modifies buf
    ensures Window(buf[..], off, g, x, z, w, h)
    ensures OnlyWrites(old(buf[..]), buf[..], off, off + Area(w, h))
  {
    ghost var s := buf[..];
    var len := Area(w, h);
    for idx := 0 to len
      invariant forall k {:trigger buf[k]} :: off <= k < off + idx ==> buf[k] == mix(s[k], s[k + len])
      invariant forall k {:trigger buf[k]} :: 0 <= k < |s| && !(off <= k < off + idx) ==> buf[k] == s[k]
    {
      buf[off + idx] := mix(buf[off + idx], buf[off + len + idx]);
    }
    forall j: nat | j < h ensures RowAt(buf[..], off, g, x, z, w, j) {
      RowWithin(w, h, j);
      assert RowAt(s, off, f, x, z, w, j);
      assert RowAt(s, off + len, f2, x, z, w, j);
    }
  }
}
