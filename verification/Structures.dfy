/** Structure positions: one attempt in each region, drawn from the low 48 bits of a seed that is
    linear in the region coordinates (finders.h). */
module Structures {
  import opened Common
  import opened ModArith
  import opened JumpAhead
  import opened Words
  import BoundedDraw

  const REGION_X := 341873128712
  const REGION_Z := 132897987541

  datatype Config = Config(salt: int, regionSize: int, chunkRange: nat)

  /** The seed whose structures are those of the given one, moved by a number of regions. */
  function MoveStructure(seed: int, regX: int, regZ: int): nat
  {
    Low(seed - regX * REGION_X - regZ * REGION_Z)
  }

  /** A draw below r from a 48-bit state: powers of two take the high bits. */
  function Draw(state: nat, r: nat): int
  {
    if IsPowerOfTwo(r) then r * (state / 0x2_0000) / 0x8000_0000 else state / 0x2_0000 % r
  }

  function RegionSum(c: Config, seed: int, regX: int, regZ: int): int
  {
    seed + regX * REGION_X + regZ * REGION_Z + c.salt
  }

  /** The first state: the 64-bit word of the sum, scrambled and stepped once. */
  function RegionState(c: Config, seed: int, regX: int, regZ: int): nat
  {
    Step(Xor(RegionSum(c, seed, regX, regZ) % TWO64, MULTIPLIER, 64))
  }

  function FeatureChunkInRegion(c: Config, seed: int, regX: int, regZ: int): Pos
  {
    var state := RegionState(c, seed, regX, regZ);
    Pos(Draw(state, c.chunkRange), Draw(Step(state), c.chunkRange))
  }

  function FeaturePos(c: Config, seed: int, regX: int, regZ: int): Pos
  {
    var pos := FeatureChunkInRegion(c, seed, regX, regZ);
    Pos((regX * c.regionSize + pos.x) * 16, (regZ * c.regionSize + pos.z) * 16)
  }

  /** Only the low 48 bits of the sum reach the state. */
  lemma {:induction false} StateOfLow(a: int, b: int)
    requires Low(a) == Low(b)
    ensures Step(Xor(a % TWO64, MULTIPLIER, 64)) == Step(Xor(b % TWO64, MULTIPLIER, 64))
  {
    hide Xor, Pow2;
    ScrambleLow(a);
    ScrambleLow(b);
    LowOuter(Xor(a % TWO64, MULTIPLIER, 64), MULTIPLIER, ADDEND);
    LowOuter(Xor(b % TWO64, MULTIPLIER, 64), MULTIPLIER, ADDEND);
  }

  lemma {:induction false} ScrambleLow(a: int)
    ensures Low(Xor(a % TWO64, MULTIPLIER, 64)) == Xor(Low(a), MULTIPLIER, 48)
  {
    hide Xor, Pow2;
    Pow2Values();
    XorPrefix(a % TWO64, MULTIPLIER, 64, 48);
    XorOfLow(a % TWO64, MULTIPLIER, 48);
    ModMod(a, TWO48, TWO64 / TWO48);
  }

  /** Moving a seed moves every structure by the same regions, and its chunk in the region stays. */
  lemma {:induction false} MovedFeature(c: Config, seed: int, regX: int, regZ: int, dx: int, dz: int)
    ensures FeatureChunkInRegion(c, MoveStructure(seed, dx, dz), regX + dx, regZ + dz)
         == FeatureChunkInRegion(c, seed, regX, regZ)
    ensures var p, q := FeaturePos(c, MoveStructure(seed, dx, dz), regX + dx, regZ + dz), FeaturePos(c, seed, regX, regZ);
      p.x == q.x + dx * c.regionSize * 16 && p.z == q.z + dz * c.regionSize * 16
  {
    hide Xor, Draw;
    MovedSum(c, seed, regX, regZ, dx, dz);
    StateOfLow(RegionSum(c, MoveStructure(seed, dx, dz), regX + dx, regZ + dz), RegionSum(c, seed, regX, regZ));
    assert (regX + dx) * c.regionSize == regX * c.regionSize + dx * c.regionSize;
    assert (regZ + dz) * c.regionSize == regZ * c.regionSize + dz * c.regionSize;
  }

  /** The state is that of the Java generator: seeded with the scrambled low 48 bits of the sum and
      stepped once. */
  lemma {:induction false} SeededState(c: Config, seed: int, regX: int, regZ: int)
    ensures RegionState(c, seed, regX, regZ)
         == Step(Xor(Low(seed + 341873128712 * regX + 132897987541 * regZ + c.salt), MULTIPLIER, 48))
  {
    hide Xor;
    var sum := RegionSum(c, seed, regX, regZ);
    ScrambleLow(sum);
    LowOuter(Xor(sum % TWO64, MULTIPLIER, 64), MULTIPLIER, ADDEND);
  }

  /** The draw is the bounded draw of the Java generator from the high 31 bits, except where that
      would go on to another state. */
  method DrawAsJava(state: nat, r: nat) returns (o: BoundedDraw.Outcome)
    requires state < TWO48 && 0 < r < BoundedDraw.TWO31
    ensures o.Drawn? ==> o.value == Draw(state, r) && o.used == 1
    ensures o.Exhausted? <==> !IsPowerOfTwo(r) && !BoundedDraw.JavaAccepts(state / 0x2_0000, r)
  {
    hide IsPowerOfTwo, BoundedDraw.JavaAccepts;
    o := BoundedDraw.NextInt([state / 0x2_0000], r);
  }

  /** The chunk of a structure as the Java generator finds it: seeded, with two bounded draws one
      after the other. */
  method FeatureAsJava(c: Config, seed: int, regX: int, regZ: int) returns (x: BoundedDraw.Outcome, z: BoundedDraw.Outcome)
    requires 0 < c.chunkRange < BoundedDraw.TWO31
    ensures x.Drawn? && z.Drawn? ==> FeatureChunkInRegion(c, seed, regX, regZ) == Pos(x.value, z.value)
    ensures IsPowerOfTwo(c.chunkRange) ==> x.Drawn? && z.Drawn?
  {
    hide Xor, Draw, IsPowerOfTwo, RegionState;
    SeededState(c, seed, regX, regZ);
    var state := Xor(Low(seed + 341873128712 * regX + 132897987541 * regZ + c.salt), MULTIPLIER, 48);
    state := Step(state);
    x := DrawAsJava(state, c.chunkRange);
    state := Step(state);
    z := DrawAsJava(state, c.chunkRange);
  }

  lemma {:induction false} DrawInRange(state: nat, r: nat)
    requires state < TWO48 && r > 0
    ensures 0 <= Draw(state, r) < r
  {
    hide IsPowerOfTwo;
    var bits := state / 0x2_0000;
    if IsPowerOfTwo(r) {
      MulAtLeast(0x8000_0000 - bits, r);
      assert r * bits == r * 0x8000_0000 - (0x8000_0000 - bits) * r;
      assert r * bits >= 0;
    }
  }

  /** A structure starts inside its region. */
  lemma {:induction false} InItsRegion(c: Config, seed: int, regX: int, regZ: int)
    requires 0 < c.chunkRange <= c.regionSize
    ensures var p, side := FeaturePos(c, seed, regX, regZ), 16 * c.regionSize;
      && regX * side <= p.x < (regX + 1) * side && regZ * side <= p.z < (regZ + 1) * side
      && p.x - regX * side == 16 * FeatureChunkInRegion(c, seed, regX, regZ).x
      && p.z - regZ * side == 16 * FeatureChunkInRegion(c, seed, regX, regZ).z
  {
    hide Draw, Xor, RegionSum;
    var state := RegionState(c, seed, regX, regZ);
    DrawInRange(state, c.chunkRange);
    DrawInRange(Step(state), c.chunkRange);
    assert regX * (16 * c.regionSize) == 16 * (regX * c.regionSize);
    assert (regX + 1) * (16 * c.regionSize) == 16 * (regX * c.regionSize) + 16 * c.regionSize;
    assert regZ * (16 * c.regionSize) == 16 * (regZ * c.regionSize);
    assert (regZ + 1) * (16 * c.regionSize) == 16 * (regZ * c.regionSize) + 16 * c.regionSize;
  }

  lemma MovedSum(c: Config, seed: int, regX: int, regZ: int, dx: int, dz: int)
    ensures Low(RegionSum(c, MoveStructure(seed, dx, dz), regX + dx, regZ + dz)) == Low(RegionSum(c, seed, regX, regZ))
  {
    var t := seed - dx * REGION_X - dz * REGION_Z;
    ModShift(t, (regX + dx) * REGION_X + (regZ + dz) * REGION_Z + c.salt, TWO48);
  }
}
