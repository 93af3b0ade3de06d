/** Biomes at block scale: the source volume is generated once, at one cell for four blocks, and
    each block looks up the source cell that Voronoi access gives it (biomenoise.c, generator.c). */
module VoronoiRange {
  import opened Common
  import opened Rows
  import opened Layers
  import opened AreaMaps
  import opened MushroomMask

  /** A value for each cell of space: the noise, or the biome of a block. */
  type Space = (int, int, int) -> int

  datatype Range = Range(x: int, y: int, z: int, sx: nat, sy: nat, sz: nat) {
    function Slab(): nat { Area(sx, sz) }
    function Size(): nat { Area(Slab(), sy) }

    predicate Has(c: Pos3) { 0 <= c.x - x < sx && 0 <= c.y - y < sy && 0 <= c.z - z < sz }

    /** The place of a cell of the range in its volume. */
    function Place(c: Pos3): nat
      requires Has(c)
    {
      Area(Slab(), c.y - y) + Index(sx, c.z - z, c.x - x)
    }
  }

  /** The range of source cells for a range of blocks. */
  function GetVoronoiSrcRange(r: Range): Range {
    var x, z, ty := r.x - 2, r.z - 2, r.y - 2;
    var sx, sz, sy := (x + r.sx) / 4 - x / 4 + 2, (z + r.sz) / 4 - z / 4 + 2, (ty + r.sy) / 4 - ty / 4 + 2;
    if r.sy < 1 then Range(x / 4, 0, z / 4, sx, 0, sz) else Range(x / 4, ty / 4, z / 4, sx, sy, sz)
  }

  /** Every block of the range is given a cell of the source range. */
  lemma SourceHasCell(jit: Jitter, r: Range, x: int, y: int, z: int)
    requires r.Has(Pos3(x, y, z))
    ensures GetVoronoiSrcRange(r).Has(VoronoiCell(jit, x, y, z))
  {
    hide Nearest, CornerDist;
    var c := VoronoiCell(jit, x, y, z);
  }

  /** It begins with the lowest cell around the first block, and ends with the highest around the
      last one or one cell later. */
  lemma SourceTight(r: Range)
    requires r.sx > 0 && r.sy > 0 && r.sz > 0
    ensures var s := GetVoronoiSrcRange(r);
      && InEight(r.x, r.y, r.z, Pos3(s.x, s.y, s.z))
      && !InEight(r.x, r.y, r.z, Pos3(s.x - 1, s.y, s.z)) && !InEight(r.x, r.y, r.z, Pos3(s.x, s.y - 1, s.z))
      && !InEight(r.x, r.y, r.z, Pos3(s.x, s.y, s.z - 1))
      && 0 <= s.x + s.sx - 1 - (r.x + r.sx + 1) / 4 <= 1 && 0 <= s.y + s.sy - 1 - (r.y + r.sy + 1) / 4 <= 1
      && 0 <= s.z + s.sz - 1 - (r.z + r.sz + 1) / 4 <= 1
  {
  }

  /** The space for a range at block scale: the blocks, and room for their source volume. */
  function GetMinCacheSize(sx: nat, sy: nat, sz: nat): nat {
    var n := if sy == 0 then 1 else sy;
    Area(Area(sx, sz), n) + Area(Area((sx + 3) / 4 + 2, (sz + 3) / 4 + 2), (n + 3) / 4 + 2)
  }

  /** The source volume fits behind the blocks. */
  lemma {:induction false} SourceFits(r: Range)
    requires r.sy >= 1
    ensures r.Size() + GetVoronoiSrcRange(r).Size() <= GetMinCacheSize(r.sx, r.sy, r.sz)
  {
    var s := GetVoronoiSrcRange(r);
    AreaGrows(s.sx, s.sz, (r.sx + 3) / 4 + 2, (r.sz + 3) / 4 + 2);
    AreaGrows(s.Slab(), s.sy, Area((r.sx + 3) / 4 + 2, (r.sz + 3) / 4 + 2), (r.sy + 3) / 4 + 2);
  }

  function Slice(f: Space, y: int): Plane { (x, z) => f(x, y, z) }

  /** Slab k of a range is stored in its place, with values f. */
  ghost predicate SlabAt(s: seq<int>, off: nat, f: Space, r: Range, k: nat) {
    Window(s, off + Area(r.Slab(), k), Slice(f, r.y + k), r.x, r.z, r.sx, r.sz)
  }

  /** The volume stored from `off` has values f in its first d slabs. */
  ghost predicate Volume(s: seq<int>, off: nat, f: Space, r: Range, d: nat) {
    forall k: nat :: k < d ==> SlabAt(s, off, f, r, k)
  }

  lemma {:induction false} VolumeKept(s: seq<int>, t: seq<int>, lo: nat, hi: nat, off: nat, f: Space, r: Range, d: nat)
    requires OnlyWrites(s, t, lo, hi) && Volume(s, off, f, r, d)
    requires off + Area(r.Slab(), d) <= lo || hi <= off
    ensures Volume(t, off, f, r, d)
  {
    forall k: nat | k < d ensures SlabAt(t, off, f, r, k) {
      RowWithin(r.Slab(), d, k);
      assert SlabAt(s, off, f, r, k);
      WindowKept(s, t, lo, hi, off + Area(r.Slab(), k), Slice(f, r.y + k), r.x, r.z, r.sx, r.sz);
    }
  }

  lemma {:induction false} VolumeGrows(s: seq<int>, t: seq<int>, off: nat, f: Space, r: Range, k: nat)
    requires Volume(s, off, f, r, k) && SlabAt(t, off, f, r, k)
    requires OnlyWrites(s, t, off + Area(r.Slab(), k), off + Area(r.Slab(), k + 1))
    ensures Volume(t, off, f, r, k + 1)
  {
    VolumeKept(s, t, off + Area(r.Slab(), k), off + Area(r.Slab(), k + 1), off, f, r, k);
  }

  /** A stored volume gives the value of each of its cells. */
  lemma {:induction false} VolumeHolds(s: seq<int>, off: nat, f: Space, r: Range, c: Pos3)
    requires Volume(s, off, f, r, r.sy) && r.Has(c)
    ensures off + r.Place(c) < |s| && s[off + r.Place(c)] == f(c.x, c.y, c.z)
  {
    var k, j, i := c.y - r.y, c.z - r.z, c.x - r.x;
    assert SlabAt(s, off, f, r, k);
    assert RowAt(s, off + Area(r.Slab(), k), Slice(f, r.y + k), r.x, r.z, r.sx, j);
    assert s[off + Area(r.Slab(), k) + Area(r.sx, j) + i] == Slice(f, r.y + k)(r.x + i, r.z + j);
  }

  method GenBiomeRow(buf: array<int>, at: nat, noise: Space, x: int, y: int, z: int, n: nat)
    requires at + n <= buf.Length
    modifies buf
    ensures Row(buf[..], at, Slice(noise, y), x, z, n)
    ensures OnlyWrites(old(buf[..]), buf[..], at, at + n)
  {
    for i := 0 to n
      invariant forall k {:trigger buf[k]} :: at <= k < at + i ==> buf[k] == noise(x + (k - at), y, z)
      invariant OnlyWrites(old(buf[..]), buf[..], at, at + n)
    {
      buf[at + i] := noise(x + i, y, z);
    }
  }

  /** Stores the noise of every cell of a range. */
  method GenBiomeNoise3D(buf: array<int>, off: nat, noise: Space, r: Range)
    requires off + r.Size() <= buf.Length
    modifies buf
    ensures Volume(buf[..], off, noise, r, r.sy)
    ensures OnlyWrites(old(buf[..]), buf[..], off, off + r.Size())
  {
    for k := 0 to r.sy
      invariant Volume(buf[..], off, noise, r, k)
      invariant OnlyWrites(old(buf[..]), buf[..], off, off + r.Size())
    {
      ghost var before := buf[..];
      RowWithin(r.Slab(), r.sy, k);
      GenBiomeSlab(buf, off + Area(r.Slab(), k), noise, r, r.y + k);
      VolumeGrows(before, buf[..], off, noise, r, k);
    }
  }

  method GenBiomeSlab(buf: array<int>, off: nat, noise: Space, r: Range, y: int)
    requires off + r.Slab() <= buf.Length
    modifies buf
    ensures Window(buf[..], off, Slice(noise, y), r.x, r.z, r.sx, r.sz)
    ensures OnlyWrites(old(buf[..]), buf[..], off, off + r.Slab())
  {
    for j := 0 to r.sz
      invariant Window(buf[..], off, Slice(noise, y), r.x, r.z, r.sx, j)
      invariant OnlyWrites(old(buf[..]), buf[..], off, off + r.Slab())
    {
      ghost var before := buf[..];
      RowWithin(r.sx, r.sz, j);
      GenBiomeRow(buf, off + Area(r.sx, j), noise, r.x, y, r.z + j, r.sx);
      WindowGrows(before, buf[..], off, Slice(noise, y), r.x, r.z, r.sx, j);
    }
  }

  /** The biome of a block: the noise at its Voronoi cell. */
  function Blocks(noise: Space, jit: Jitter): Space {
    (x, y, z) => var c := VoronoiCell(jit, x, y, z); noise(c.x, c.y, c.z)
  }

  lemma BlocksMean(noise: Space, jit: Jitter, x: int, y: int, z: int)
    ensures exists c :: NearestCell(jit, x, y, z, c) && Blocks(noise, jit)(x, y, z) == noise(c.x, c.y, c.z)
  {
    hide VoronoiCell, NearestCell;
    CellIsNearest(jit, x, y, z);
  }

  /** The source volume, when there is one, lies behind the blocks. */
  ghost predicate Source(s: seq<int>, bulk: bool, src: nat, noise: Space, r: Range) {
    bulk ==> Volume(s, src, noise, GetVoronoiSrcRange(r), GetVoronoiSrcRange(r).sy)
  }

  /** One block, from the source volume when there is one. */
  method BlockValue(buf: array<int>, bulk: bool, src: nat, noise: Space, jit: Jitter, r: Range, x: int, y: int, z: int)
    returns (v: int)
    requires r.x <= x < r.x + r.sx && r.y <= y < r.y + r.sy && r.z <= z < r.z + r.sz
    requires Source(buf[..], bulk, src, noise, r)
    ensures v == Blocks(noise, jit)(x, y, z)
  {
    hide VoronoiCell, Volume;
    var c := VoronoiAccess3D(jit, x, y, z);
    if bulk {
      var s := GetVoronoiSrcRange(r);
      SourceHasCell(jit, r, x, y, z);
      VolumeHolds(buf[..], src, noise, s, c);
      v := buf[src + s.Place(c)];
    } else {
      v := noise(c.x, c.y, c.z);
    }
  }

  method BlockRow(buf: array<int>, at: nat, bulk: bool, src: nat, noise: Space, jit: Jitter, r: Range, k: nat, j: nat)
    requires k < r.sy && j < r.sz && at + r.sx <= src <= buf.Length && Source(buf[..], bulk, src, noise, r)
    modifies buf
    ensures Row(buf[..], at, Slice(Blocks(noise, jit), r.y + k), r.x, r.z + j, r.sx)
    ensures OnlyWrites(old(buf[..]), buf[..], at, at + r.sx)
  {
    hide Source, Blocks;
    ghost var f := Blocks(noise, jit);
    for i := 0 to r.sx
      invariant forall p {:trigger buf[p]} :: at <= p < at + i ==> buf[p] == f(r.x + (p - at), r.y + k, r.z + j)
      invariant OnlyWrites(old(buf[..]), buf[..], at, at + r.sx)
      invariant Source(buf[..], bulk, src, noise, r)
    {
      ghost var before := buf[..];
      buf[at + i] := BlockValue(buf, bulk, src, noise, jit, r, r.x + i, r.y + k, r.z + j);
      SourceKept(before, buf[..], at + i, at + i + 1, bulk, src, noise, r);
    }
  }

  lemma {:induction false} SourceKept(s: seq<int>, t: seq<int>, lo: nat, hi: nat,
                                      bulk: bool, src: nat, noise: Space, r: Range)
    requires OnlyWrites(s, t, lo, hi) && hi <= src && Source(s, bulk, src, noise, r)
    ensures Source(t, bulk, src, noise, r)
  {
    if bulk { VolumeKept(s, t, lo, hi, src, noise, GetVoronoiSrcRange(r), GetVoronoiSrcRange(r).sy); }
  }

  method BlockSlab(buf: array<int>, off: nat, bulk: bool, src: nat, noise: Space, jit: Jitter, r: Range, k: nat)
    requires k < r.sy && off + r.Slab() <= src <= buf.Length && Source(buf[..], bulk, src, noise, r)
    modifies buf
    ensures Window(buf[..], off, Slice(Blocks(noise, jit), r.y + k), r.x, r.z, r.sx, r.sz)
    ensures OnlyWrites(old(buf[..]), buf[..], off, off + r.Slab())
  {
    hide Row, Source;
    for j := 0 to r.sz
      invariant Window(buf[..], off, Slice(Blocks(noise, jit), r.y + k), r.x, r.z, r.sx, j)
      invariant OnlyWrites(old(buf[..]), buf[..], off, off + r.Slab())
      invariant Source(buf[..], bulk, src, noise, r)
    {
      ghost var before := buf[..];
      RowWithin(r.sx, r.sz, j);
      var at := off + Area(r.sx, j);
      BlockRow(buf, at, bulk, src, noise, jit, r, k, j);
      WindowGrows(before, buf[..], off, Slice(Blocks(noise, jit), r.y + k), r.x, r.z, r.sx, j);
      SourceKept(before, buf[..], at, at + r.sx, bulk, src, noise, r);
    }
  }

  /** Both paths give every block the noise at its Voronoi cell, and stay within the space that
      GetMinCacheSize asks for. A height of zero means one. */
  method GenBiomeNoiseScaled(buf: array<int>, noise: Space, jit: Jitter, range: Range)
    requires GetMinCacheSize(range.sx, range.sy, range.sz) <= buf.Length
    modifies buf
    ensures var r := if range.sy == 0 then range.(sy := 1) else range; Volume(buf[..], 0, Blocks(noise, jit), r, r.sy)
    ensures OnlyWrites(old(buf[..]), buf[..], 0, GetMinCacheSize(range.sx, range.sy, range.sz))
  {
    hide Window, Source, Volume, SlabAt, Blocks;
    var r := if range.sy == 0 then range.(sy := 1) else range;
    var siz := r.Size();
    var s := GetVoronoiSrcRange(r);
    SourceFits(r);
    var bulk := siz > 1;
    if bulk {
      GenBiomeNoise3D(buf, siz, noise, s);
    }
    NoSlabs(buf[..], 0, Blocks(noise, jit), r);
    SourceReady(buf[..], bulk, siz, noise, r);
    for k := 0 to r.sy
      invariant Volume(buf[..], 0, Blocks(noise, jit), r, k)
      invariant OnlyWrites(old(buf[..]), buf[..], 0, siz + s.Size())
      invariant Source(buf[..], bulk, siz, noise, r)
    {
      ghost var before := buf[..];
      RowWithin(r.Slab(), r.sy, k);
      var off := Area(r.Slab(), k);
      BlockSlab(buf, off, bulk, siz, noise, jit, r, k);
      VolumeGrows(before, buf[..], 0, Blocks(noise, jit), r, k);
      SourceKept(before, buf[..], off, off + r.Slab(), bulk, siz, noise, r);
    }
  }

  lemma NoSlabs(s: seq<int>, off: nat, f: Space, r: Range)
    ensures Volume(s, off, f, r, 0) && Area(r.Slab(), 0) == 0
  {
  }

  lemma SourceReady(s: seq<int>, bulk: bool, src: nat, noise: Space, r: Range)
    requires bulk ==> Volume(s, src, noise, GetVoronoiSrcRange(r), GetVoronoiSrcRange(r).sy)
    ensures Source(s, bulk, src, noise, r)
  {
  }
}
