/** The zoom layers: the parent area stays at the front of the buffer while a block of
    four times its size is filled behind it, and the wanted part is moved back. */
module ZoomMap {
  import opened Rows
  import opened Layers
  import opened AreaMaps

  /** The parent columns (or rows) a zoom layer asks for. */
  function ZoomSide(x: int, w: nat): (p: nat)
    ensures p >= 1 && x % 2 + w <= 2 * p - 1 && 2 * p <= w + 3
  {
    (x + w) / 2 - x / 2 + 1
  }

  ghost predicate ZoomRefines(fuzzy: bool, draw: (int, int) -> ZoomDraw, f: Plane, g: Plane) {
    forall i, j {:trigger ZoomRule(fuzzy, draw, f, i, j)} :: g(i, j) == ZoomRule(fuzzy, draw, f, i, j)
  }

  /** The four cells that a parent cell turns into. */
  lemma FourCells(fuzzy: bool, draw: (int, int) -> ZoomDraw, f: Plane, g: Plane, cx: int, cz: int)
    requires ZoomRefines(fuzzy, draw, f, g)
    ensures var d := draw(2 * cx, 2 * cz);
      var v00, v01, v10, v11 := f(cx, cz), f(cx, cz + 1), f(cx + 1, cz), f(cx + 1, cz + 1);
      && g(2 * cx, 2 * cz) == v00
      && g(2 * cx, 2 * cz + 1) == (if d.down then v01 else v00)
      && g(2 * cx + 1, 2 * cz) == (if d.right then v10 else v00)
      && g(2 * cx + 1, 2 * cz + 1) == (if fuzzy then Quarter(d.quad, v00, v01, v10, v11)
                                       else Select4(d.quad, v00, v01, v10, v11))
  {
    assert g(2 * cx, 2 * cz) == ZoomRule(fuzzy, draw, f, 2 * cx, 2 * cz);
    assert g(2 * cx, 2 * cz + 1) == ZoomRule(fuzzy, draw, f, 2 * cx, 2 * cz + 1);
    assert g(2 * cx + 1, 2 * cz) == ZoomRule(fuzzy, draw, f, 2 * cx + 1, 2 * cz);
    assert g(2 * cx + 1, 2 * cz + 1) == ZoomRule(fuzzy, draw, f, 2 * cx + 1, 2 * cz + 1);
  }

  /** One parent cell: the 2x2 block at `idx`, whose second row starts `stride` later. */
  method ZoomBlock(fuzzy: bool, draw: (int, int) -> ZoomDraw, buf: array<int>, idx: nat, stride: nat,
                   cx: int, cz: int, v00: int, v01: int, v10: int, v11: int)
    requires 2 <= stride && idx + stride + 1 < buf.Length
    modifies buf
    ensures var d := draw(2 * cx, 2 * cz);
      && buf[idx] == v00
      && buf[idx + stride] == (if d.down then v01 else v00)
      && buf[idx + 1] == (if d.right then v10 else v00)
      && buf[idx + stride + 1] == (if fuzzy then Quarter(d.quad, v00, v01, v10, v11)
                                   else Select4(d.quad, v00, v01, v10, v11))
    ensures forall k {:trigger buf[k]} ::
      0 <= k < buf.Length && k !in {idx, idx + 1, idx + stride, idx + stride + 1} ==> buf[k] == old(buf[k])
  {
    if v00 == v01 && v00 == v10 && v00 == v11 {
      buf[idx] := v00;
      buf[idx + 1] := v00;
      buf[idx + stride] := v00;
      buf[idx + stride + 1] := v00;
    } else {
      var d := draw(2 * cx, 2 * cz);
      buf[idx] := v00;
      buf[idx + stride] := if d.down then v01 else v00;
      buf[idx + 1] := if d.right then v10 else v00;
      buf[idx + stride + 1] := if fuzzy then Quarter(d.quad, v00, v01, v10, v11)
                               else Select4(d.quad, v00, v01, v10, v11);
    }
  }

  /** The enlarged rows of `i` parent cells, without what is made of the cell behind the last. */
  ghost predicate HalfPair(s: seq<int>, base: nat, pw: nat, g: Plane, x: int, z: int, i: nat, last: bool) {
    var n := if i < pw then 2 * i else 2 * pw - 1;
    Row(s, base, g, x, z, n) && (!last ==> Row(s, base + 2 * pw, g, x, z + 1, n))
  }

  lemma PairEnd(s: seq<int>, base: nat, pw: nat, g: Plane, x: int, z: int, last: bool)
    requires pw > 0 && HalfPair(s, base, pw, g, x, z, pw, last)
    ensures Row(s, base, g, x, z, 2 * pw - 1) && (!last ==> Row(s, base + 2 * pw, g, x, z + 1, 2 * pw - 1))
  {
  }

  lemma PairStep(s: seq<int>, t: seq<int>, base: nat, pw: nat, g: Plane, x: int, z: int, i: nat, last: bool)
    requires i > 0 ==> HalfPair(s, base, pw, g, x, z, i, last)
    requires i < pw && |s| == |t| && base + 2 * i + 2 * pw + 2 <= |s|
    requires var a, b := base + 2 * i, base + 2 * i + 2 * pw;
      && (forall k {:trigger t[k]} :: 0 <= k < |s| && k !in {a, a + 1, b, b + 1} ==> t[k] == s[k])
      && t[a] == g(x + 2 * i, z) && (i + 1 < pw ==> t[a + 1] == g(x + 2 * i + 1, z))
      && (!last ==> t[b] == g(x + 2 * i, z + 1) && (i + 1 < pw ==> t[b + 1] == g(x + 2 * i + 1, z + 1)))
    ensures HalfPair(t, base, pw, g, x, z, i + 1, last)
  {
  }

  /** Column `i` of a parent row and of the one below, or `over` when that lies behind the buffer. */
  method ReadColumn(buf: array<int>, src: nat, pw: nat, i: nat, base: nat, last: bool,
                    ghost s: seq<int>, ghost f: Plane, ghost px: int, ghost pz: int)
    returns (over: bool, v0: int, v1: int)
    requires i <= pw && src + pw <= base && Row(s, src, f, px, pz, pw)
    requires !last ==> src + 2 * pw <= base && Row(s, src + pw, f, px, pz + 1, pw)
    requires buf.Length == |s| && forall k {:trigger buf[k]} :: 0 <= k < |s| && k < base ==> buf[k] == s[k]
    ensures over <==> src + pw + i >= buf.Length
    ensures !over && i < pw ==> v0 == f(px + i, pz) && (!last ==> v1 == f(px + i, pz + 1))
  {
    over, v0, v1 := src + pw + i >= buf.Length, 0, 0;
    if !over {
      v0, v1 := buf[src + i], buf[src + pw + i];
    }
  }

  /** The block of parent cell `i` of a row. */
  method PairBlock(fuzzy: bool, draw: (int, int) -> ZoomDraw, buf: array<int>, pw: nat, base: nat, i: nat,
                   v00: int, v01: int, v10: int, v11: int, px: int, pz: int, last: bool,
                   ghost f: Plane, ghost g: Plane)
    requires ZoomRefines(fuzzy, draw, f, g) && i < pw && base + 2 * i + 2 * pw + 2 <= buf.Length
    requires v00 == f(px + i, pz) && (!last ==> v01 == f(px + i, pz + 1))
    requires i + 1 < pw ==> v10 == f(px + i + 1, pz) && (!last ==> v11 == f(px + i + 1, pz + 1))
    requires i > 0 ==> HalfPair(buf[..], base, pw, g, 2 * px, 2 * pz, i, last)
    modifies buf
    ensures HalfPair(buf[..], base, pw, g, 2 * px, 2 * pz, i + 1, last)
    ensures OnlyWrites(old(buf[..]), buf[..], base, base + 4 * pw)
  {
    hide Quarter, Select4, ZoomRefines, HalfPair;
    FourCells(fuzzy, draw, f, g, px + i, pz);
    ghost var t := buf[..];
    ZoomBlock(fuzzy, draw, buf, base + 2 * i, 2 * pw, px + i, pz, v00, v01, v10, v11);
    PairStep(t, buf[..], base, pw, g, 2 * px, 2 * pz, i, last);
  }

  /** One parent row and the one below it become two rows of twice the width. The last
      column, and below the last parent row the whole second row, are made of whatever the
      buffer held behind the parent area. It ends with `over` when a parent cell is read, or a
      block written, behind the buffer. */
  method ZoomPair(fuzzy: bool, draw: (int, int) -> ZoomDraw, buf: array<int>, src: nat, pw: nat,
                  base: nat, px: int, pz: int, last: bool, ghost f: Plane, ghost g: Plane) returns (over: bool)
    requires ZoomRefines(fuzzy, draw, f, g)
    requires pw >= 1 && src + pw <= base
    requires Row(buf[..], src, f, px, pz, pw)
    requires !last ==> src + 2 * pw <= base && Row(buf[..], src + pw, f, px, pz + 1, pw)
    modifies buf
    ensures over <==> base + 4 * pw > buf.Length
    ensures !over ==> Row(buf[..], base, g, 2 * px, 2 * pz, 2 * pw - 1)
    ensures !over && !last ==> Row(buf[..], base + 2 * pw, g, 2 * px, 2 * pz + 1, 2 * pw - 1)
    ensures OnlyWrites(old(buf[..]), buf[..], base, base + 4 * pw)
  {
    hide Quarter, Select4, ZoomRefines, HalfPair, Row;
    ghost var s := buf[..];
    var v00, v01, v10, v11;
    over, v00, v01 := ReadColumn(buf, src, pw, 0, base, last, s, f, px, pz);
    if over {
      return;
    }
    for i := 0 to pw
      invariant !over
      invariant i > 0 ==> base + 2 * i + 2 * pw <= buf.Length
      invariant i < pw ==> v00 == f(px + i, pz) && (!last ==> v01 == f(px + i, pz + 1))
      invariant i > 0 ==> HalfPair(buf[..], base, pw, g, 2 * px, 2 * pz, i, last)
      invariant forall k {:trigger buf[k]} :: 0 <= k < |s| && !(base <= k < base + 4 * pw) ==> buf[k] == s[k]
    {
      over, v10, v11 := ReadColumn(buf, src, pw, i + 1, base, last, s, f, px, pz);
      if over || base + 2 * i + 2 * pw + 1 >= buf.Length {
        return true;
      }
      PairBlock(fuzzy, draw, buf, pw, base, i, v00, v01, v10, v11, px, pz, last, f, g);
      v00, v01 := v10, v11;
    }
    PairEnd(buf[..], base, pw, g, 2 * px, 2 * pz, last);
  }

  /** Row `r` of the enlarged block, without its last column. */
  ghost predicate ZoomedRow(s: seq<int>, dst: nat, g: Plane, x: int, z: int, pw: nat, r: nat)
    requires pw >= 1
  {
    Row(s, dst + Area(2 * pw, r), g, x, z + r, 2 * pw - 1)
  }

  ghost predicate Zoomed(s: seq<int>, dst: nat, g: Plane, x: int, z: int, pw: nat, lo: nat, hi: nat)
    requires pw >= 1
  {
    forall r: nat :: lo <= r < hi ==> ZoomedRow(s, dst, g, x, z, pw, r)
  }

  lemma ZoomedKept(s: seq<int>, t: seq<int>, from: nat, to: nat,
                   dst: nat, g: Plane, x: int, z: int, pw: nat, lo: nat, hi: nat)
    requires pw >= 1 && OnlyWrites(s, t, from, to) && Zoomed(s, dst, g, x, z, pw, lo, hi)
    requires to <= dst + Area(2 * pw, lo) || dst + Area(2 * pw, hi) <= from
    ensures Zoomed(t, dst, g, x, z, pw, lo, hi)
  {
    forall r: nat | lo <= r < hi ensures ZoomedRow(t, dst, g, x, z, pw, r) {
      AreaGrows(2 * pw, lo, 2 * pw, r);
      RowWithin(2 * pw, hi, r);
      assert ZoomedRow(s, dst, g, x, z, pw, r);
    }
  }

  /** Enlarge the parent area at `off` into the block of four times its size right behind it. */
  method ZoomExpand(fuzzy: bool, draw: (int, int) -> ZoomDraw, buf: array<int>, off: nat,
                    px: int, pz: int, pw: nat, ph: nat, ghost f: Plane, ghost g: Plane) returns (over: bool)
    requires ZoomRefines(fuzzy, draw, f, g)
    requires pw >= 1 && ph >= 1 && off + Area(pw, ph) <= buf.Length
    requires Window(buf[..], off, f, px, pz, pw, ph)
    modifies buf
    ensures over <==> off + 5 * Area(pw, ph) > buf.Length
    ensures !over ==> Zoomed(buf[..], off + Area(pw, ph), g, 2 * px, 2 * pz, pw, 0, 2 * ph - 1)
    ensures OnlyWrites(old(buf[..]), buf[..], off, off + 5 * Area(pw, ph))
  {
    var dst := off + Area(pw, ph);
    DoubleArea(pw, ph);
    hide Window, Zoomed, ZoomRefines;
    ZoomedNone(buf[..], dst, g, 2 * px, 2 * pz, pw);
    for j := 0 to ph
      invariant dst + Area(2 * pw, 2 * j) <= buf.Length
      invariant Window(buf[..], off, f, px, pz, pw, ph)
      invariant Zoomed(buf[..], dst, g, 2 * px, 2 * pz, pw, 0, if j == ph then 2 * ph - 1 else 2 * j)
      invariant OnlyWrites(old(buf[..]), buf[..], off, off + 5 * Area(pw, ph))
    {
      PairAddress(pw, ph, j);
      over := ZoomRows(fuzzy, draw, buf, off, px, pz, pw, ph, j, f, g);
      if over {
        return;
      }
      assert Area(2 * pw, 2 * (j + 1)) == Area(2 * pw, 2 * j + 1) + 2 * pw;
    }
    over := false;
  }

  lemma ZoomedNone(s: seq<int>, dst: nat, g: Plane, x: int, z: int, pw: nat)
    requires pw >= 1
    ensures Zoomed(s, dst, g, x, z, pw, 0, 0)
  {
  }

  /** Where row `j` of the parent area and its two enlarged rows lie. */
  lemma PairAddress(pw: nat, ph: nat, j: nat)
    requires j < ph
    ensures Area(pw, j) + pw <= Area(pw, ph)
    ensures j + 1 < ph ==> Area(pw, j + 1) == Area(pw, j) + pw && Area(pw, j) + 2 * pw <= Area(pw, ph)
    ensures Area(2 * pw, 2 * j + 1) == Area(2 * pw, 2 * j) + 2 * pw
    ensures Area(2 * pw, 2 * j) + 4 * pw <= 4 * Area(pw, ph)
  {
    RowWithin(pw, ph, j);
    if j + 1 < ph { RowWithin(pw, ph, j + 1); }
    DoubleArea(pw, ph);
    AreaGrows(2 * pw, 2 * j + 2, 2 * pw, 2 * ph);
    assert Area(2 * pw, 2 * j + 2) == Area(2 * pw, 2 * j + 1) + 2 * pw;
  }

  lemma ZoomedGrows(s: seq<int>, t: seq<int>, dst: nat, g: Plane, x: int, z: int, pw: nat, j: nat, last: bool)
    requires pw >= 1 && Zoomed(s, dst, g, x, z, pw, 0, 2 * j)
    requires var base := dst + Area(2 * pw, 2 * j);
      OnlyWrites(s, t, base, base + 4 * pw) && Row(t, base, g, x, z + 2 * j, 2 * pw - 1)
      && (!last ==> Row(t, base + 2 * pw, g, x, z + 2 * j + 1, 2 * pw - 1))
    ensures Zoomed(t, dst, g, x, z, pw, 0, if last then 2 * j + 1 else 2 * j + 2)
  {
    var base := dst + Area(2 * pw, 2 * j);
    ZoomedKept(s, t, base, base + 4 * pw, dst, g, x, z, pw, 0, 2 * j);
    assert Area(2 * pw, 2 * j + 1) == Area(2 * pw, 2 * j) + 2 * pw;
    forall r: nat | r < (if last then 2 * j + 1 else 2 * j + 2) ensures ZoomedRow(t, dst, g, x, z, pw, r) {
    }
  }

  method ZoomRows(fuzzy: bool, draw: (int, int) -> ZoomDraw, buf: array<int>, off: nat,
                  px: int, pz: int, pw: nat, ph: nat, j: nat, ghost f: Plane, ghost g: Plane) returns (over: bool)
    requires ZoomRefines(fuzzy, draw, f, g)
    requires pw >= 1 && j < ph
    requires Window(buf[..], off, f, px, pz, pw, ph)
    requires Zoomed(buf[..], off + Area(pw, ph), g, 2 * px, 2 * pz, pw, 0, 2 * j)
    modifies buf
    ensures over <==> off + Area(pw, ph) + Area(2 * pw, 2 * j) + 4 * pw > buf.Length
    ensures !over ==> Window(buf[..], off, f, px, pz, pw, ph)
    ensures !over ==> Zoomed(buf[..], off + Area(pw, ph), g, 2 * px, 2 * pz, pw, 0,
                   if j + 1 == ph then 2 * ph - 1 else 2 * (j + 1))
    ensures OnlyWrites(old(buf[..]), buf[..], off, off + 5 * Area(pw, ph))
  {
    hide Row, Zoomed, ZoomedRow, ZoomRefines, Area;
    ghost var s := buf[..];
    var dst := off + Area(pw, ph);
    var base := dst + Area(2 * pw, 2 * j);
    PairAddress(pw, ph, j);
    assert RowAt(s, off, f, px, pz, pw, j);
    assert j + 1 < ph ==> RowAt(s, off, f, px, pz, pw, j + 1);
    over := ZoomPair(fuzzy, draw, buf, off + Area(pw, j), pw, base, px, pz + j, j + 1 == ph, f, g);
    if over {
      return;
    }
    WindowKept(s, buf[..], base, base + 4 * pw, off, f, px, pz, pw, ph);
    ZoomedGrows(s, buf[..], dst, g, 2 * px, 2 * pz, pw, j, j + 1 == ph);
  }

  ghost predicate Moved(s: seq<int>, t: seq<int>, to: nat, from: nat, w: nat) {
    to + w <= |t| && from + w <= |s| &&
    forall k {:trigger t[k]} :: to <= k < to + w ==> t[k] == s[from + (k - to)]
  }

  /** A block move of `w` cells, correct also when the two ranges overlap. */
  method MoveCells(buf: array<int>, to: nat, from: nat, w: nat)
    requires to + w <= buf.Length && from + w <= buf.Length
    modifies buf
    ensures Moved(old(buf[..]), buf[..], to, from, w)
    ensures OnlyWrites(old(buf[..]), buf[..], to, to + w)
  {
    forall i | 0 <= i < w {
      buf[to + i] := buf[from + i];
    }
  }

  /** A row never lands on a later row that is still to be moved. */
  lemma CopyAddress(x: int, z: int, w: nat, h: nat, j: nat)
    requires j < h
    ensures var pw, ph := ZoomSide(x, w), ZoomSide(z, h);
      && Area(w, j) + w <= Area(2 * pw, j + 1 + z % 2)
      && Area(2 * pw, j + 1 + z % 2) == Area(2 * pw, j + z % 2) + 2 * pw
      && Area(2 * pw, j + z % 2) + 2 * pw <= 4 * Area(pw, ph)
  {
    var pw, ph := ZoomSide(x, w), ZoomSide(z, h);
    DoubleArea(pw, ph);
    RowWithin(2 * pw, 2 * ph, j + z % 2);
    AreaGrows(w, j + 1, 2 * pw, j + 1 + z % 2);
  }

  /** `j` rows have been moved and the rest of the block is in place. */
  ghost predicate PartCopied(s: seq<int>, off: nat, dst: nat, g: Plane,
                             x: int, z: int, w: nat, h: nat, j: nat) {
    Window(s, off, g, x, z, w, j) &&
    Zoomed(s, dst, g, x - x % 2, z - z % 2, ZoomSide(x, w), j + z % 2, h + z % 2)
  }

  lemma AreaNext(w: nat, j: nat)
    ensures Area(w, j + 1) == Area(w, j) + w
  {
  }

  lemma CopyStep(s: seq<int>, t: seq<int>, off: nat, dst: nat, g: Plane,
                 x: int, z: int, w: nat, h: nat, j: nat)
    requires j < h && PartCopied(s, off, dst, g, x, z, w, h, j)
    requires off + Area(w, j) + w <= dst + Area(2 * ZoomSide(x, w), j + 1 + z % 2)
    requires OnlyWrites(s, t, off + Area(w, j), off + Area(w, j) + w)
    requires Moved(s, t, off + Area(w, j), dst + Area(2 * ZoomSide(x, w), j + z % 2) + x % 2, w)
    ensures PartCopied(t, off, dst, g, x, z, w, h, j + 1)
  {
    hide Area;
    AreaNext(2 * ZoomSide(x, w), j + z % 2);
    var pw, z0, at := ZoomSide(x, w), z % 2, off + Area(w, j);
    assert ZoomedRow(s, dst, g, x - x % 2, z - z0, pw, j + z0);
    assert RowAt(t, off, g, x, z, w, j);
    WindowGrows(s, t, off, g, x, z, w, j);
    ZoomedKept(s, t, at, at + w, dst, g, x - x % 2, z - z0, pw, j + 1 + z0, h + z0);
  }

  /** Move the wanted part of the block to the front. */
  method ZoomCopy(buf: array<int>, off: nat, x: int, z: int, w: nat, h: nat, pw: nat, ph: nat,
                  ghost g: Plane)
    requires pw == ZoomSide(x, w) && ph == ZoomSide(z, h) && off + 5 * Area(pw, ph) <= buf.Length
    requires Zoomed(buf[..], off + Area(pw, ph), g, x - x % 2, z - z % 2, pw, 0, 2 * ph - 1)
    modifies buf
    ensures Window(buf[..], off, g, x, z, w, h)
    ensures OnlyWrites(old(buf[..]), buf[..], off, off + Area(w, h))
  {
    hide PartCopied, Window, Row, Zoomed, ZoomedRow, Moved, Area;
    var dst := off + Area(pw, ph);
    PartStart(buf[..], off, dst, g, x, z, w, h);
    for j := 0 to h
      invariant PartCopied(buf[..], off, dst, g, x, z, w, h, j)
      invariant OnlyWrites(old(buf[..]), buf[..], off, off + Area(w, h))
    {
      ghost var s := buf[..];
      RowWithin(w, h, j);
      CopyAddress(x, z, w, h, j);
      MoveCells(buf, off + Area(w, j), dst + Area(2 * pw, j + z % 2) + x % 2, w);
      CopyStep(s, buf[..], off, dst, g, x, z, w, h, j);
    }
    PartEnd(buf[..], off, dst, g, x, z, w, h);
  }

  lemma PartStart(s: seq<int>, off: nat, dst: nat, g: Plane, x: int, z: int, w: nat, h: nat)
    requires Zoomed(s, dst, g, x - x % 2, z - z % 2, ZoomSide(x, w), 0, 2 * ZoomSide(z, h) - 1)
    ensures PartCopied(s, off, dst, g, x, z, w, h, 0)
  {
    hide ZoomedRow;
  }

  lemma PartEnd(s: seq<int>, off: nat, dst: nat, g: Plane, x: int, z: int, w: nat, h: nat)
    requires PartCopied(s, off, dst, g, x, z, w, h, h)
    ensures Window(s, off, g, x, z, w, h)
  {
  }
}
