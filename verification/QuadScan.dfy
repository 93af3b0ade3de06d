/** The scan for quad-structures (quadbase.c): a modular inverse picks out, in each row of
    regions, just those whose moved seed has the wanted low bits. */
module QuadScan {
  import opened Common
  import opened ModArith
  import opened JumpAhead
  import opened Structures
  import ModInverse

  /** What is searched for: the regions to which moving `s48` yields a base with these low bits. */
  datatype Search = Search(s48: nat, lbit: nat, m: nat, isBase: nat -> bool) {
    function Moved(i: int, j: int): nat { MoveStructure(s48, -i, -j) }

    predicate LowBitsMatch(i: int, j: int)
      requires m > 0
    {
      Moved(i, j) % m == lbit
    }

    predicate Hit(i: int, j: int)
      requires m > 0
    {
      LowBitsMatch(i, j) && isBase(Moved(i, j))
    }

    function HitAt(i: int, j: int): seq<Pos>
      requires m > 0
    {
      if Hit(i, j) then [Pos(i, j)] else []
    }

    /** The hits of a row of regions, in order. */
    function Row(i: int, z: int, top: int): seq<Pos>
      requires m > 0
      decreases top - z
    {
      if z >= top then [] else HitAt(i, z) + Row(i, z + 1, top)
    }

    /** The hits of an area, row by row. */
    function Area(x: int, right: int, z: int, top: int): seq<Pos>
      requires m > 0
      decreases right - x
    {
      if x >= right then [] else Row(x, z, top) + Area(x + 1, right, z, top)
    }

    lemma AreaStep(x: int, right: int, z: int, top: int)
      requires m > 0 && x < right
      ensures Area(x, right, z, top) == Row(x, z, top) + Area(x + 1, right, z, top)
    {
    }

    lemma RowEnds(i: int, z: int, top: int)
      requires m > 0 && z >= top
      ensures Row(i, z, top) == []
    {
    }

    lemma AreaEnds(x: int, right: int, z: int, top: int)
      requires m > 0 && x >= right
      ensures Area(x, right, z, top) == []
    {
    }
  }

  lemma {:induction false} RowMeans(q: Search, i: int, z: int, top: int, p: Pos)
    requires q.m > 0
    ensures p in q.Row(i, z, top) <==> p.x == i && z <= p.z < top && q.Hit(p.x, p.z)
    decreases top - z
  {
    hide Search.Hit;
    if z < top { RowMeans(q, i, z + 1, top, p); }
  }

  /** The listed regions are those of the area that are hits. */
  lemma {:induction false} AreaMeans(q: Search, x: int, right: int, z: int, top: int, p: Pos)
    requires q.m > 0
    ensures p in q.Area(x, right, z, top) <==> x <= p.x < right && z <= p.z < top && q.Hit(p.x, p.z)
    decreases right - x
  {
    hide Search.Hit, Search.Row;
    if x < right {
      RowMeans(q, x, z, top, p);
      AreaMeans(q, x + 1, right, z, top, p);
    }
  }

  /** The seed, moved back by a region, has the low bits and is a base. */
  predicate Wanted(s48: nat, lbit: int, m: nat, isBase: nat -> bool, p: Pos)
    requires m > 0
  {
    var base := MoveStructure(s48, -p.x, -p.z);
    base % m == lbit % m && isBase(base)
  }

  /** The list holds exactly the wanted regions of the inclusive area, in the order of the scan and
      without repeats. */
  ghost predicate Listed(all: seq<Pos>, s48: nat, lbit: int, m: nat, isBase: nat -> bool,
                         x: int, right: int, z: int, top: int)
    requires m > 0
  {
    && (forall p :: p in all <==> x <= p.x <= right && z <= p.z <= top && Wanted(s48, lbit, m, isBase, p))
    && InOrder(all)
  }

  ghost predicate InOrder(all: seq<Pos>) {
    forall i, j :: 0 <= i < j < |all| ==> all[i].x < all[j].x || (all[i].x == all[j].x && all[i].z < all[j].z)
  }

  lemma {:induction false} RowOrder(q: Search, i: int, z: int, top: int)
    requires q.m > 0
    ensures InOrder(q.Row(i, z, top))
    decreases top - z
  {
    hide Search.Hit;
    if z < top {
      RowOrder(q, i, z + 1, top);
      forall p | p in q.Row(i, z + 1, top) ensures p.x == i && p.z > z { RowMeans(q, i, z + 1, top, p); }
    }
  }

  lemma {:induction false} AreaOrder(q: Search, x: int, right: int, z: int, top: int)
    requires q.m > 0
    ensures InOrder(q.Area(x, right, z, top))
    decreases right - x
  {
    hide Search.Hit, Search.Row;
    if x < right {
      RowOrder(q, x, z, top);
      AreaOrder(q, x + 1, right, z, top);
      forall p | p in q.Row(x, z, top) ensures p.x == x { RowMeans(q, x, z, top, p); }
      forall p | p in q.Area(x + 1, right, z, top) ensures p.x > x { AreaMeans(q, x + 1, right, z, top, p); }
      OrderJoins(q.Row(x, z, top), q.Area(x + 1, right, z, top), x);
    }
  }

  lemma {:induction false} OrderJoins(a: seq<Pos>, b: seq<Pos>, x: int)
    requires InOrder(a) && InOrder(b) && (forall p :: p in a ==> p.x == x) && (forall p :: p in b ==> p.x > x)
    ensures InOrder(a + b)
  {
    var c := a + b;
    forall i, j | 0 <= i < j < |c| ensures c[i].x < c[j].x || (c[i].x == c[j].x && c[i].z < c[j].z) {
      if i < |a| <= j { assert c[i] in a && c[j] in b; }
    }
  }

  lemma {:induction false} AreaListed(s48: nat, lbit: nat, bits: int, m: nat, isBase: nat -> bool,
                                      x: int, right: int, z: int, top: int)
    requires m > 0 && lbit % m == bits % m
    ensures Listed(Target(s48, lbit, m, isBase).Area(x, right + 1, z, top + 1), s48, bits, m, isBase, x, right, z, top)
  {
    hide Search.Area;
    var q := Target(s48, lbit, m, isBase);
    forall p
      ensures p in q.Area(x, right + 1, z, top + 1) <==>
        x <= p.x <= right && z <= p.z <= top && Wanted(s48, bits, m, isBase, p)
    {
      AreaMeans(q, x, right + 1, z, top + 1, p);
    }
    AreaOrder(q, x, right + 1, z, top + 1);
  }

  /** The base tested at a region has in region (a,b) what the seed has that far beyond the region. */
  lemma {:induction false} BaseOfRegion(q: Search, c: Config, i: int, j: int, a: int, b: int)
    ensures FeatureChunkInRegion(c, q.Moved(i, j), a, b) == FeatureChunkInRegion(c, q.s48, i + a, j + b)
  {
    hide FeatureChunkInRegion, FeaturePos;
    MovedFeature(c, q.s48, i + a, j + b, -i, -j);
  }

  /** The number found, when at most n are wanted. */
  function Capped(n: int, all: nat): nat { if n < 1 then 0 else if n < all then n else all }

  /** An inverse of the factor of z in the seed. */
  predicate InverseOfZ(inv: nat, m: nat)
    requires m > 0
  {
    inv * REGION_Z % m == 1 % m
  }

  /** The residue that the code computes with wrapping words. */
  function FirstResidue(s48: nat, lbit: nat, m: nat, inv: nat, i: int): (f: nat)
    requires m > 0
    ensures f < m
  {
    var sx := (s48 + REGION_X * i) % TWO64;
    (lbit - sx) % TWO64 * inv % TWO64 % m
  }

  lemma ResidueUnwrapped(s48: nat, lbit: nat, m: nat, inv: nat, i: int, c: nat)
    requires m > 0 && m * c == TWO64
    ensures FirstResidue(s48, lbit, m, inv, i) == (lbit - s48 - REGION_X * i) * inv % m
  {
    var sx := s48 + REGION_X * i;
    MulAtLeast(m, c);
    if c == 0 { assert false; }
    ModMod((lbit - sx % TWO64) % TWO64 * inv, m, c);
    WordDifference(lbit, sx);
    ModMod(lbit - sx, m, c);
    ModMul((lbit - sx) % TWO64, inv, m);
    ModMul(lbit - sx, inv, m);
  }

  lemma WordDifference(a: int, b: int)
    ensures (a - b % TWO64) % TWO64 == (a - b) % TWO64
  {
    ModPeriod(a - b, b / TWO64, TWO64);
    assert b == b / TWO64 * TWO64 + b % TWO64;
  }

  /** b j = t modulo m just when j = t inv. */
  lemma SolveLinear(b: int, inv: int, t: int, j: int, m: int)
    requires m > 0 && inv * b % m == 1 % m
    ensures b * j % m == t % m <==> j % m == t * inv % m
  {
    if b * j % m == t % m {
      ModMul(b * j, inv, m);
      ModMul(t, inv, m);
      CancelInverse(b, inv, j, m);
    }
    if j % m == t * inv % m {
      ModMul(j, b, m);
      ModMul(t * inv, b, m);
      CancelInverse(b, inv, t, m);
      assert t * inv * b == inv * b * t && j * b == b * j;
    }
  }

  lemma CancelInverse(b: int, inv: int, j: int, m: int)
    requires m > 0 && inv * b % m == 1 % m
    ensures b * j * inv % m == j % m && inv * b * j % m == j % m
  {
    var u := inv * b;
    ModMul(u, j, m);
    ModMul(1, j, m);
    assert b * j * inv == u * j && 1 * j == j;
  }

  /** A region has the wanted low bits exactly when its z has the computed residue. */
  lemma LowBitsByResidue(q: Search, inv: nat, i: int, j: int, c: nat)
    requires q.m > 0 && q.m * c == TWO48 && InverseOfZ(inv, q.m) && q.lbit < q.m
    ensures q.LowBitsMatch(i, j) <==> j % q.m == FirstResidue(q.s48, q.lbit, q.m, inv, i)
  {
    var m, t, w := q.m, q.lbit - q.s48 - REGION_X * i, q.s48 + REGION_X * i;
    if c == 0 { assert false; }
    assert m * (c * (TWO64 / TWO48)) == TWO64;
    ResidueUnwrapped(q.s48, q.lbit, m, inv, i, c * (TWO64 / TWO48));
    SolveLinear(REGION_Z, inv, t, j, m);
    ModMod(w + REGION_Z * j, m, c);
    DivModUnique(q.lbit, 0, q.lbit, m);
    ModMoves(REGION_Z * j, t, w, m);
  }

  lemma ModMoves(a: int, t: int, w: int, m: int)
    requires m > 0
    ensures a % m == t % m <==> (w + a) % m == (w + t) % m
  {
    if a % m == t % m { ModSame(a, t, w, m); }
    if (w + a) % m == (w + t) % m { ModSame(w + a, w + t, -w, m); }
  }

  lemma ModSame(a: int, t: int, w: int, m: int)
    requires m > 0 && a % m == t % m
    ensures (w + a) % m == (w + t) % m
  {
    ModShift(a, w, m);
    ModShift(t, w, m);
    assert w + a == a + w && w + t == t + w;
  }

  /** The place in a row from which the scan strides: the first at or after z with the residue. */
  function FirstPlace(z: int, m: nat, f: nat): (j: int)
    requires f < m
    ensures z <= j < z + m && j % m == f
  {
    var start := z - z % m + f;
    assert start == z / m * m + f;
    DivModUnique(start, z / m, f, m);
    ModPeriod(start, 1, m);
    if start < z then start + m else start
  }

  lemma {:induction false} RowSkips(q: Search, inv: nat, i: int, z: int, j: int, top: int, c: nat)
    requires q.m > 0 && q.m * c == TWO48 && InverseOfZ(inv, q.m) && q.lbit < q.m
    requires z <= j <= z + q.m && j % q.m == FirstResidue(q.s48, q.lbit, q.m, inv, i)
    requires j < z + q.m
    ensures q.Row(i, z, top) == q.Row(i, j, top)
    decreases j - z
  {
    hide FirstResidue, InverseOfZ, Search.LowBitsMatch;
    if z < j {
      ModApart(z, j - z, q.m);
      LowBitsByResidue(q, inv, i, z, c);
      RowSkips(q, inv, i, z + 1, j, top, c);
    }
  }

  /** One stride of the scan: its region has the wanted low bits, so the re-check never rejects,
      and no region before the next stride is a hit. */
  lemma {:induction false} Stride(q: Search, inv: nat, i: int, j: int, top: int, c: nat)
    requires q.m > 0 && q.m * c == TWO48 && InverseOfZ(inv, q.m) && q.lbit < q.m
    requires j % q.m == FirstResidue(q.s48, q.lbit, q.m, inv, i) && j < top
    ensures q.Moved(i, j) % q.m == q.lbit && (j + q.m) % q.m == j % q.m
    ensures q.Hit(i, j) == q.isBase(q.Moved(i, j))
    ensures q.Row(i, j, top) == q.HitAt(i, j) + q.Row(i, j + q.m, top)
  {
    hide FirstResidue, InverseOfZ;
    LowBitsByResidue(q, inv, i, j, c);
    ModPeriod(j, 1, q.m);
    RowSkips(q, inv, i, j + 1, j + q.m, top, c);
  }

  /** `now` is `was` with `found` written from `at` on. */
  ghost predicate Written(now: seq<Pos>, was: seq<Pos>, at: nat, found: seq<Pos>) {
    at + |found| <= |was| && now == was[..at] + found + was[at + |found|..]
  }

  lemma {:induction false} WriteNext(now: seq<Pos>, was: seq<Pos>, at: nat, found: seq<Pos>, p: Pos)
    requires Written(now, was, at, found) && at + |found| < |was|
    ensures |now| == |was| && Written(now[at + |found| := p], was, at, found + [p])
  {
  }

  function Target(s48: nat, lbit: nat, m: nat, isBase: nat -> bool): (q: Search)
    requires m > 0
    ensures q.m == m
  {
    Search(s48, lbit % m, m, isBase)
  }

  /** The first n of `all`, or all if they are fewer, have been written from `at` on. */
  ghost predicate Reported(now: seq<Pos>, was: seq<Pos>, at: nat, n: int, all: seq<Pos>, cnt: nat) {
    cnt == Capped(n, |all|) && Written(now, was, at, all[..cnt])
  }

  /** What has been written is the first n of the wanted regions of the area. */
  ghost predicate FirstListed(now: seq<Pos>, was: seq<Pos>, at: nat, n: int, cnt: nat, s48: nat, lbit: int, m: nat,
                              isBase: nat -> bool, x: int, right: int, z: int, top: int)
    requires m > 0
  {
    exists all :: Listed(all, s48, lbit, m, isBase, x, right, z, top) && Reported(now, was, at, n, all, cnt)
  }

  lemma {:induction false} ReportedFirst(now: seq<Pos>, was: seq<Pos>, at: nat, n: int, cnt: nat, s48: nat, lbit: nat,
                                         m: nat, isBase: nat -> bool, x: int, right: int, z: int, top: int)
    requires m > 0
    requires Reported(now, was, at, n, Target(s48, lbit, m, isBase).Area(x, right + 1, z, top + 1), cnt)
    ensures FirstListed(now, was, at, n, cnt, s48, lbit, m, isBase, x, right, z, top)
  {
    hide Reported, Listed, Target, Search.Area;
    AreaListed(s48, lbit, lbit, m, isBase, x, right, z, top);
  }

  /** Reports exactly the first n hits of the area, in order. */
  method ScanForQuadBits(s48: nat, lbit0: nat, lbitn: nat, inv: nat, x: int, z: int, w: int, h: int,
                         isBase: nat -> bool, list: array<Pos>, at: nat, n: int) returns (cnt: nat)
    requires 0 < lbitn <= 48 && InverseOfZ(inv, Pow2(lbitn))
    requires at <= list.Length && at + n <= list.Length
    modifies list
    ensures Reported(list[..], old(list[..]), at, n,
                     Target(s48, lbit0, Pow2(lbitn), isBase).Area(x, x + w + 1, z, z + h + 1), cnt)
    ensures FirstListed(list[..], old(list[..]), at, n, cnt, s48, lbit0, Pow2(lbitn), isBase, x, x + w, z, z + h)
  {
    hide Search.LowBitsMatch, Search.Hit, Search.Row, Search.Area, InverseOfZ, FirstResidue, Written, Pow2, Splits, FirstListed;
    var m := Pow2(lbitn);
    ghost var was := list[..];
    WriteNone(was, at);
    if n < 1 {
      ReportedFirst(list[..], was, at, n, 0, s48, lbit0, m, isBase, x, x + w, z, z + h);
      return 0;
    }
    var lbit := lbit0 % m;
    var q := Search(s48, lbit, m, isBase);
    Pow2Sum(lbitn, 48 - lbitn);
    Pow2Values();
    ghost var c := Pow2(48 - lbitn);
    ghost var right, top := x + w + 1, z + h + 1;
    ghost var all, found := q.Area(x, right, z, top), [];
    NothingYet(all);
    cnt := 0;
    var i := x;
    while i <= x + w
      invariant x <= i && Splits(all, found, q.Area(i, right, z, top)) && |found| == cnt < n
      invariant i <= right || i == x
      invariant Written(list[..], was, at, found)
    {
      q.AreaStep(i, right, z, top);
      var j := FirstPlace(z, m, FirstResidue(s48, lbit, m, inv, i));
      RowSkips(q, inv, i, z, j, top, c);
      ghost var later := q.Area(i + 1, right, z, top);
      while j <= z + h
        invariant z <= j
        invariant j % m == FirstResidue(s48, lbit, m, inv, i)
        invariant Splits(all, found, q.Row(i, j, top) + later) && |found| == cnt < n
        invariant Written(list[..], was, at, found)
        decreases z + h - j
      {
        Stride(q, inv, i, j, top, c);
        TakeHit(all, found, q.HitAt(i, j), q.Row(i, j + m, top), later);
        var sp := MoveStructure(s48, -i, -j);
        if sp % m == lbit && isBase(sp) {
          WriteNext(list[..], was, at, found, Pos(i, j));
          list[at + cnt] := Pos(i, j);
          found := found + [Pos(i, j)];
          cnt := cnt + 1;
          if cnt >= n {
            Prefix(all, found, q.Row(i, j + m, top) + later);
            ReportedFirst(list[..], was, at, n, cnt, s48, lbit0, m, isBase, x, x + w, z, z + h);
            return cnt;
          }
        }
        j := j + m;
      }
      q.RowEnds(i, j, top);
      NoneLeft(later);
      i := i + 1;
    }
    q.AreaEnds(i, right, z, top);
    Prefix(all, found, []);
    ReportedFirst(list[..], was, at, n, cnt, s48, lbit0, m, isBase, x, x + w, z, z + h);
  }

  ghost predicate Splits(all: seq<Pos>, found: seq<Pos>, rest: seq<Pos>) { all == found + rest }

  lemma {:induction false} NothingYet(all: seq<Pos>)
    ensures Splits(all, [], all)
  {
  }

  lemma {:induction false} TakeHit(all: seq<Pos>, found: seq<Pos>, hit: seq<Pos>, row: seq<Pos>, later: seq<Pos>)
    requires Splits(all, found, hit + row + later)
    ensures Splits(all, found + hit, row + later)
    ensures hit == [] ==> Splits(all, found, row + later)
  {
    assert hit + row + later == hit + (row + later);
    assert found + (hit + (row + later)) == found + hit + (row + later);
    assert hit == [] ==> found + hit == found;
  }

  lemma {:induction false} NoneLeft(later: seq<Pos>)
    ensures [] + later == later
  {
  }

  lemma {:induction false} Prefix(all: seq<Pos>, found: seq<Pos>, rest: seq<Pos>)
    requires Splits(all, found, rest)
    ensures |found| <= |all| && all[..|found|] == found && (rest == [] ==> all == found)
  {
  }

  lemma {:induction false} WriteNone(was: seq<Pos>, at: nat)
    requires at <= |was|
    ensures Written(was, was, at, [])
  {
    assert was == was[..at] + was[at..];
  }

  /** An odd number has no factor in common with a power of two. */
  lemma {:induction false} OddCoprime(x: nat, k: nat)
    requires x % 2 == 1
    ensures ModInverse.Coprime(x, Pow2(k))
  {
    hide Pow2;
    var g := ModInverse.Gcd(x, Pow2(k));
    ModInverse.GcdMeans(x, Pow2(k), g);
    var a: int :| x == a * g;
    var c: int :| Pow2(k) == c * g;
    OddFactor(a, g);
    OddDivisor(c, g, k);
  }

  lemma OddFactor(a: int, g: nat)
    requires a * g % 2 == 1
    ensures g % 2 == 1
  {
    var h := g / 2;
    assert a * g == 2 * (a * h) + a * (g % 2);
  }

  lemma {:induction false} OddDivisor(c: int, g: nat, k: nat)
    requires g % 2 == 1 && c * g == Pow2(k)
    ensures g == 1
    decreases k
  {
    if k == 0 {
      MulAtLeast(c, g);
    } else {
      var h, e := g / 2, c / 2;
      assert c == 2 * e + c % 2 && g == 2 * h + 1;
      assert c * g == 2 * (e * g) + c % 2 * g;
      assert c % 2 * g == (if c % 2 == 1 then 2 * h + 1 else 0);
      OddDivisor(e, g, k - 1);
    }
  }

  /** The inverse for any number of low bits: two are kept as constants. */
  method InverseFor(lowBitN: nat) returns (inv: nat)
    requires 0 < lowBitN <= 48
    ensures InverseOfZ(inv, Pow2(lowBitN))
  {
    hide Pow2;
    Pow2Values();
    if lowBitN == 20 {
      inv := 132477;
    } else if lowBitN == 48 {
      inv := 211541297333629;
    } else {
      Pow2Sum(lowBitN, 48 - lowBitN);
      PowerFits(lowBitN);
      OddCoprime(REGION_Z, lowBitN);
      inv := ModInverse.MulInv(REGION_Z, Pow2(lowBitN));
      assert ModInverse.Inverse(inv, REGION_Z, Pow2(lowBitN));
    }
  }

  lemma {:induction false} PowerFits(k: nat)
    requires 0 < k <= 48
    ensures 1 < Pow2(k) <= TWO48 && 1 % Pow2(k) == 1
  {
    hide Pow2;
    Pow2Sum(k, 48 - k);
    Pow2Values();
    MulAtLeast(Pow2(48 - k), Pow2(k));
    PowerEven(k);
    DivModUnique(1, 0, 1, Pow2(k));
  }

  lemma {:induction false} PowerEven(k: nat)
    requires k > 0
    ensures Pow2(k) == 2 * Pow2(k - 1)
  {
  }

  /** The hits of the area for each value of a list that a zero ends, in order. */
  function AllHits(s48: nat, lowBits: seq<nat>, salt: nat, m: nat, isBase: nat -> bool,
                   x: int, right: int, z: int, top: int): seq<Pos>
    requires m > 0
  {
    if lowBits == [] || lowBits[0] == 0 then []
    else
      Target(s48, (lowBits[0] - salt) % TWO64, m, isBase).Area(x, right, z, top)
      + AllHits(s48, lowBits[1..], salt, m, isBase, x, right, z, top)
  }

  /** One list for each value before the zero that ends them. */
  ghost predicate ListedAll(parts: seq<seq<Pos>>, s48: nat, lowBits: seq<nat>, salt: nat, m: nat, isBase: nat -> bool,
                            x: int, right: int, z: int, top: int)
    requires m > 0
  {
    && |parts| < |lowBits| && lowBits[|parts|] == 0
    && forall k :: 0 <= k < |parts| ==>
         lowBits[k] != 0 && Listed(parts[k], s48, lowBits[k] - salt, m, isBase, x, right, z, top)
  }

  ghost function Flatten(parts: seq<seq<Pos>>): seq<Pos> {
    if parts == [] then [] else parts[0] + Flatten(parts[1..])
  }

  lemma {:induction false} AllListed(s48: nat, lowBits: seq<nat>, salt: nat, m: nat, c: nat, isBase: nat -> bool,
                                     x: int, right: int, z: int, top: int) returns (parts: seq<seq<Pos>>)
    requires 0 in lowBits && m > 0 && m * c == TWO64
    ensures ListedAll(parts, s48, lowBits, salt, m, isBase, x, right, z, top)
    ensures AllHits(s48, lowBits, salt, m, isBase, x, right + 1, z, top + 1) == Flatten(parts)
    decreases |lowBits|
  {
    hide Listed, Target, Search.Area;
    if lowBits[0] == 0 {
      parts := [];
    } else {
      var bits := (lowBits[0] - salt) % TWO64;
      if c == 0 { assert false; }
      ModMod(lowBits[0] - salt, m, c);
      AreaListed(s48, bits, lowBits[0] - salt, m, isBase, x, right, z, top);
      var rest := AllListed(s48, lowBits[1..], salt, m, c, isBase, x, right, z, top);
      parts := [Target(s48, bits, m, isBase).Area(x, right + 1, z, top + 1)] + rest;
      assert parts[1..] == rest;
    }
  }

  /** What has been written is the first n of the wanted regions, value by value. */
  ghost predicate FirstOfAll(now: seq<Pos>, was: seq<Pos>, n: int, cnt: nat, s48: nat, lowBits: seq<nat>, salt: nat,
                             m: nat, isBase: nat -> bool, x: int, right: int, z: int, top: int)
    requires m > 0
  {
    exists parts :: ListedAll(parts, s48, lowBits, salt, m, isBase, x, right, z, top)
                 && Reported(now, was, 0, n, Flatten(parts), cnt)
  }

  lemma {:induction false} ReportedAll(now: seq<Pos>, was: seq<Pos>, n: int, cnt: nat, s48: nat, lowBits: seq<nat>,
                                       k: nat, salt: nat, isBase: nat -> bool, x: int, right: int, z: int, top: int)
    requires 0 in lowBits && k <= 48
    requires Reported(now, was, 0, n, AllHits(s48, lowBits, salt, Pow2(k), isBase, x, right + 1, z, top + 1), cnt)
    ensures FirstOfAll(now, was, n, cnt, s48, lowBits, salt, Pow2(k), isBase, x, right, z, top)
  {
    hide Reported, ListedAll, Flatten, AllHits, Pow2;
    Pow2Values();
    Pow2Sum(k, 64 - k);
    var parts := AllListed(s48, lowBits, salt, Pow2(k), Pow2(64 - k), isBase, x, right, z, top);
  }

  /** A region is among the hits exactly when it lies in the area and is wanted for some value
      before the zero. */
  lemma {:induction false} ListedMeans(parts: seq<seq<Pos>>, s48: nat, lowBits: seq<nat>, salt: nat, m: nat,
                                       isBase: nat -> bool, x: int, right: int, z: int, top: int, p: Pos)
    requires m > 0 && ListedAll(parts, s48, lowBits, salt, m, isBase, x, right, z, top)
    ensures p in Flatten(parts) <==>
      x <= p.x <= right && z <= p.z <= top
      && exists k :: 0 <= k < |parts| && Wanted(s48, lowBits[k] - salt, m, isBase, p)
  {
    hide Wanted;
    InFlatten(parts, p);
  }

  lemma {:induction false} InFlatten(parts: seq<seq<Pos>>, p: Pos)
    ensures p in Flatten(parts) <==> exists k :: 0 <= k < |parts| && p in parts[k]
  {
    if parts != [] {
      InFlatten(parts[1..], p);
      if k :| 0 <= k < |parts| && p in parts[k] {
        if k > 0 { assert p in parts[1..][k - 1]; }
      }
      if k :| 0 <= k < |parts[1..]| && p in parts[1..][k] { assert p in parts[k + 1]; }
    }
  }

  lemma {:induction false} WriteMore(now: seq<Pos>, mid: seq<Pos>, was: seq<Pos>, at: nat, found: seq<Pos>, more: seq<Pos>)
    requires Written(mid, was, at, found) && Written(now, mid, at + |found|, more)
    ensures Written(now, was, at, found + more)
  {
    assert now == mid[..at + |found|] + more + mid[at + |found| + |more|..];
    assert mid[..at + |found|] == was[..at] + found;
    assert mid[at + |found| + |more|..] == was[at + |found| + |more|..];
  }

  lemma {:induction false} TakePart(all: seq<Pos>, found: seq<Pos>, area: seq<Pos>, rest: seq<Pos>, k: nat)
    requires Splits(all, found, area + rest) && k <= |area|
    ensures |found| + k <= |all| && found + area[..k] == all[..|found| + k]
    ensures k == |area| ==> Splits(all, found + area[..k], rest)
  {
    assert area == area[..k] + area[k..];
    assert all == found + area[..k] + (area[k..] + rest);
  }

  /** The hits for one more value join those found before; when n are reached, they are the first n. */
  lemma {:induction false} NextValue(now: seq<Pos>, mid: seq<Pos>, was: seq<Pos>, n: int,
                                     all: seq<Pos>, found: seq<Pos>, area: seq<Pos>, rest: seq<Pos>, c: nat)
    requires Written(mid, was, 0, found) && Splits(all, found, area + rest) && (|found| < n || |found| == 0)
    requires Reported(now, mid, |found|, n - |found|, area, c)
    ensures c <= |area| && Written(now, was, 0, found + area[..c])
    ensures |found| + c >= n ==> Reported(now, was, 0, n, all, |found| + c)
    ensures |found| + c < n ==> Splits(all, found + area[..c], rest)
  {
    hide Written, Splits;
    WriteMore(now, mid, was, 0, found, area[..c]);
    TakePart(all, found, area, rest, c);
  }

  lemma {:induction false} AllReported(now: seq<Pos>, was: seq<Pos>, n: int, all: seq<Pos>, found: seq<Pos>)
    requires Written(now, was, 0, found) && Splits(all, found, []) && (|found| < n || |found| == 0)
    ensures Reported(now, was, 0, n, all, |found|)
  {
    Prefix(all, found, []);
  }

  /** Reports exactly the first n hits for the listed low bits, value by value and row by row. */
  method ScanForQuads(s48: nat, lowBits: seq<nat>, lowBitN: nat, salt: nat, x: int, z: int, w: int, h: int,
                      isBase: nat -> bool, list: array<Pos>, n: int) returns (cnt: nat)
    requires 0 < lowBitN <= 48 && 0 in lowBits && n <= list.Length
    modifies list
    ensures Reported(list[..], old(list[..]), 0, n,
                     AllHits(s48, lowBits, salt, Pow2(lowBitN), isBase, x, x + w + 1, z, z + h + 1), cnt)
    ensures FirstOfAll(list[..], old(list[..]), n, cnt, s48, lowBits, salt, Pow2(lowBitN), isBase, x, x + w, z, z + h)
  {
    hide FirstListed, FirstOfAll, Pow2, Written, Splits, Search.Area, InverseOfZ, AllHits, Target, Reported;
    var inv := InverseFor(lowBitN);
    ghost var m, right, top := Pow2(lowBitN), x + w + 1, z + h + 1;
    ghost var was := list[..];
    ghost var all, found := AllHits(s48, lowBits, salt, m, isBase, x, right, z, top), [];
    WriteNone(was, 0);
    NothingYet(all);
    HitsStep(s48, lowBits, 0, salt, m, isBase, x, right, z, top);
    cnt := 0;
    var i := 0;
    while lowBits[i] != 0
      invariant 0 <= i < |lowBits| && 0 in lowBits[i..]
      invariant |found| == cnt && (cnt < n || cnt == 0)
      invariant Splits(all, found, AllHits(s48, lowBits[i..], salt, m, isBase, x, right, z, top))
      invariant Written(list[..], was, 0, found)
      decreases |lowBits| - i
    {
      ghost var area := Target(s48, (lowBits[i] - salt) % TWO64, m, isBase).Area(x, right, z, top);
      ghost var mid := list[..];
      HitsStep(s48, lowBits, i, salt, m, isBase, x, right, z, top);
      Room(mid, was, found);
      var c := ScanForQuadBits(s48, (lowBits[i] - salt) % TWO64, lowBitN, inv, x, z, w, h, isBase, list, cnt, n - cnt);
      NextValue(list[..], mid, was, n, all, found, area,
                AllHits(s48, lowBits[i + 1..], salt, m, isBase, x, right, z, top), c);
      found := found + area[..c];
      cnt := cnt + c;
      if cnt >= n {
        ReportedAll(list[..], was, n, cnt, s48, lowBits, lowBitN, salt, isBase, x, x + w, z, z + h);
        return cnt;
      }
      i := i + 1;
    }
    HitsStep(s48, lowBits, i, salt, m, isBase, x, right, z, top);
    AllReported(list[..], was, n, all, found);
    ReportedAll(list[..], was, n, cnt, s48, lowBits, lowBitN, salt, isBase, x, x + w, z, z + h);
  }

  lemma {:induction false} HitsStep(s48: nat, lowBits: seq<nat>, i: nat, salt: nat, m: nat, isBase: nat -> bool,
                                    x: int, right: int, z: int, top: int)
    requires m > 0 && i < |lowBits|
    ensures lowBits[0..] == lowBits
    ensures 0 in lowBits[i..] && lowBits[i] != 0 ==> i + 1 < |lowBits| && 0 in lowBits[i + 1..]
    ensures var rest := AllHits(s48, lowBits[i..], salt, m, isBase, x, right, z, top);
      if lowBits[i] == 0 then rest == []
      else
        rest == Target(s48, (lowBits[i] - salt) % TWO64, m, isBase).Area(x, right, z, top)
                + AllHits(s48, lowBits[i + 1..], salt, m, isBase, x, right, z, top)
  {
    hide Search.Area, Target;
    assert lowBits[i..][1..] == lowBits[i + 1..];
    assert lowBits[i..] == [lowBits[i]] + lowBits[i + 1..];
  }

  lemma {:induction false} Room(now: seq<Pos>, was: seq<Pos>, found: seq<Pos>)
    requires Written(now, was, 0, found)
    ensures |found| <= |was|
  {
  }
}
