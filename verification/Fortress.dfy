/** The nether fortress generator (finders.c): pieces, collisions, caps and the worklist.
    Random draws are any values in range, so every statement holds for every seed. */
module Fortress {
  import opened Common
  import BoundedDraw

  const FORTRESS_START := 0
  const BRIDGE_STRAIGHT := 1
  const BRIDGE_CROSSING := 2
  const BRIDGE_FORTIFIED_CROSSING := 3
  const BRIDGE_STAIRS := 4
  const BRIDGE_SPAWNER := 5
  const BRIDGE_CORRIDOR_ENTRANCE := 6
  const CORRIDOR_STRAIGHT := 7
  const CORRIDOR_CROSSING := 8
  const CORRIDOR_TURN_RIGHT := 9
  const CORRIDOR_TURN_LEFT := 10
  const CORRIDOR_STAIRS := 11
  const CORRIDOR_T_CROSSING := 12
  const CORRIDOR_NETHER_WART := 13
  const FORTRESS_END := 14
  const TYPES := 15

  datatype Info = Info(offset: Pos3, size: Pos3, repeatable: bool, weight: nat, max: nat)

  function InfoOf(t: nat): Info
    requires t < TYPES
  {
    if t == FORTRESS_START then Info(Pos3(0, 0, 0), Pos3(18, 9, 18), false, 0, 0)
    else if t == BRIDGE_STRAIGHT then Info(Pos3(-1, -3, 0), Pos3(4, 9, 18), true, 30, 0)
    else if t == BRIDGE_CROSSING then Info(Pos3(-8, -3, 0), Pos3(18, 9, 18), false, 10, 4)
    else if t == BRIDGE_FORTIFIED_CROSSING then Info(Pos3(-2, 0, 0), Pos3(6, 8, 6), false, 10, 4)
    else if t == BRIDGE_STAIRS then Info(Pos3(-2, 0, 0), Pos3(6, 10, 6), false, 10, 3)
    else if t == BRIDGE_SPAWNER then Info(Pos3(-2, 0, 0), Pos3(6, 7, 8), false, 5, 2)
    else if t == BRIDGE_CORRIDOR_ENTRANCE then Info(Pos3(-5, -3, 0), Pos3(12, 13, 12), false, 5, 1)
    else if t == CORRIDOR_STRAIGHT then Info(Pos3(-1, 0, 0), Pos3(4, 6, 4), true, 25, 0)
    else if t == CORRIDOR_CROSSING then Info(Pos3(-1, 0, 0), Pos3(4, 6, 4), false, 15, 5)
    else if t == CORRIDOR_TURN_RIGHT then Info(Pos3(-1, 0, 0), Pos3(4, 6, 4), false, 5, 10)
    else if t == CORRIDOR_TURN_LEFT then Info(Pos3(-1, 0, 0), Pos3(4, 6, 4), false, 5, 10)
    else if t == CORRIDOR_STAIRS then Info(Pos3(-1, -7, 0), Pos3(4, 13, 9), true, 10, 3)
    else if t == CORRIDOR_T_CROSSING then Info(Pos3(-3, 0, 0), Pos3(8, 6, 8), false, 7, 2)
    else if t == CORRIDOR_NETHER_WART then Info(Pos3(-5, -3, 0), Pos3(12, 13, 12), false, 5, 2)
    else Info(Pos3(-1, -3, 0), Pos3(4, 9, 7), false, 0, 0)
  }

  datatype Piece = Piece(pos: Pos3, bb0: Pos3, bb1: Pos3, rot: nat, depth: int, typ: nat)

  /** A piece of a type at an anchor, with its box turned the way it faces. */
  function MakePiece(typ: nat, x: int, y: int, z: int, depth: int, facing: nat): Piece
    requires typ < TYPES
  {
    var d0, d1 := InfoOf(typ).offset, InfoOf(typ).size;
    var (x0, x1, z0, z1) :=
      if facing == 0 then (d0.x, d0.x + d1.x, d0.z - d1.z, d0.z)
      else if facing == 1 then (d0.z, d0.z + d1.z, d0.x, d0.x + d1.x)
      else if facing == 2 then (d0.x, d0.x + d1.x, d0.z, d0.z + d1.z)
      else if facing == 3 then (d0.z - d1.z, d0.z, d0.x, d0.x + d1.x)
      else (0, 0, 0, 0);
    Piece(Pos3(x, y, z), Pos3(x + x0, y + d0.y, z + z0), Pos3(x + x1, y + d0.y + d1.y, z + z1),
          facing, depth, typ)
  }

  predicate Collide(q: Piece, p: Piece) {
    q.bb1.x >= p.bb0.x && q.bb0.x <= p.bb1.x &&
    q.bb1.z >= p.bb0.z && q.bb0.z <= p.bb1.z &&
    q.bb1.y >= p.bb0.y && q.bb0.y <= p.bb1.y
  }

  /** No block lies in two boxes. */
  ghost predicate InBox(p: Piece, b: Pos3) {
    p.bb0.x <= b.x <= p.bb1.x && p.bb0.y <= b.y <= p.bb1.y && p.bb0.z <= b.z <= p.bb1.z
  }

  lemma CollisionFree(p: Piece, q: Piece, b: Pos3)
    requires !Collide(p, q)
    ensures !(InBox(p, b) && InBox(q, b))
  {
  }

  /** How many of the pieces have type `t`, and the type of the last one that is no end. */
  ghost function CountOf(ps: seq<Piece>, t: nat): nat {
    if ps == [] then 0
    else CountOf(ps[..|ps| - 1], t) + if ps[|ps| - 1].typ == t then 1 else 0
  }

  ghost function LastType(ps: seq<Piece>): nat {
    if ps == [] then FORTRESS_START
    else if ps[|ps| - 1].typ != FORTRESS_END then ps[|ps| - 1].typ
    else LastType(ps[..|ps| - 1])
  }

  /** No type follows itself, ends aside, unless it may be repeated. */
  ghost predicate NoRepeats(ps: seq<Piece>) {
    |ps| > 1 ==>
      var p := ps[|ps| - 1];
      && NoRepeats(ps[..|ps| - 1])
      && (p.typ != FORTRESS_END && p.typ == LastType(ps[..|ps| - 1]) ==> p.typ < TYPES && InfoOf(p.typ).repeatable)
  }

  /** The same, by positions: two pieces with only ends between them. */
  lemma {:induction false} NoRepeatsMeans(ps: seq<Piece>, i: nat, j: nat)
    requires NoRepeats(ps) && i < j < |ps|
    requires ps[i].typ != FORTRESS_END && ps[j].typ == ps[i].typ
    requires forall k :: i < k < j ==> ps[k].typ == FORTRESS_END
    ensures ps[j].typ < TYPES && InfoOf(ps[j].typ).repeatable
  {
    var qs := ps[..|ps| - 1];
    if j < |ps| - 1 {
      NoRepeatsMeans(qs, i, j);
    } else {
      LastBefore(qs, i);
    }
  }

  lemma {:induction false} LastBefore(ps: seq<Piece>, i: nat)
    requires i < |ps| && ps[i].typ != FORTRESS_END
    requires forall k :: i < k < |ps| ==> ps[k].typ == FORTRESS_END
    ensures LastType(ps) == ps[i].typ
  {
    if i < |ps| - 1 { LastBefore(ps[..|ps| - 1], i); }
  }

  predicate Near(p: Piece, start: Piece) {
    -112 <= p.pos.x - start.bb0.x <= 112 && -112 <= p.pos.z - start.bb0.z <= 112
  }

  /** What holds of the counted pieces at all times. */
  ghost predicate Sound(ps: seq<Piece>) {
    && |ps| > 0
    && ps[0].depth == 0
    && (forall i :: 0 <= i < |ps| ==>
          ps[i].typ < TYPES && ps[i].rot < 4 && (i > 0 ==> Near(ps[i], ps[0]))
          && 0 <= ps[i].depth <= if ps[i].typ == FORTRESS_END then 31 else 30)
    && (forall i, j :: 0 <= i < j < |ps| ==> !Collide(ps[i], ps[j]))
    && NoRepeats(ps)
    && (forall t :: 0 <= t < TYPES && InfoOf(t).max > 0 ==> CountOf(ps, t) <= InfoOf(t).max)
  }

  /** The pending chain: `next[0]` leads to the first pending piece, each of those to the
      following one, and nothing else leads anywhere. */
  ghost predicate Chain(next: seq<int>, pending: seq<nat>) {
    && |next| > 0
    && (forall k :: 0 <= k < |pending| ==> 0 < pending[k] < |next|)
    && (forall j, k :: 0 <= j < k < |pending| ==> pending[j] != pending[k])
    && next[0] == (if pending == [] then -1 else pending[0])
    && (forall k :: 0 <= k < |pending| ==> Linked(next, pending, k))
  }

  ghost predicate Linked(next: seq<int>, pending: seq<nat>, k: nat)
    requires k < |pending|
  {
    pending[k] < |next| && next[pending[k]] == if k + 1 < |pending| then pending[k + 1] else -1
  }

  /** Every piece is either pending or has been extended, and extended only once. */
  ghost predicate Accounted(n: nat, pending: seq<nat>, extended: seq<nat>) {
    && (forall i: nat :: i < n ==> (i in pending || i in extended))
    && (forall i: nat :: i in extended ==> i < n && i !in pending)
    && (forall j, k :: 0 <= j < k < |extended| ==> extended[j] != extended[k])
  }

  /** Appending a piece that passes the tests keeps the pieces sound. */
  lemma {:induction false} SoundAppend(ps: seq<Piece>, p: Piece)
    requires Sound(ps) && p.typ < TYPES && p.rot < 4 && Near(p, ps[0])
    requires 0 <= p.depth <= if p.typ == FORTRESS_END then 31 else 30
    requires forall i :: 0 <= i < |ps| ==> !Collide(ps[i], p)
    requires p.typ != FORTRESS_END ==> InfoOf(p.typ).repeatable || LastType(ps) != p.typ
    requires InfoOf(p.typ).max > 0 ==> CountOf(ps, p.typ) < InfoOf(p.typ).max
    ensures Sound(ps + [p])
  {
    var qs := ps + [p];
    assert qs[..|qs| - 1] == ps;
    assert forall t :: CountOf(qs, t) == CountOf(ps, t) + if p.typ == t then 1 else 0;
  }

  lemma {:induction false} ChainAppend(next: seq<int>, pending: seq<nat>)
    requires Chain(next, pending)
    ensures var last := if pending == [] then 0 else pending[|pending| - 1];
      last < |next| && next[last] == -1
      && Chain((next + [-1])[last := |next|], pending + [|next|])
  {
    assert pending != [] ==> Linked(next, pending, |pending| - 1);
    var last := if pending == [] then 0 else pending[|pending| - 1];
    var next', pending' := (next + [-1])[last := |next|], pending + [|next|];
    forall k | 0 <= k < |pending'| ensures Linked(next', pending', k) {
      if k < |pending| { assert Linked(next, pending, k); }
    }
  }

  /** Unlinking the `i`th pending piece. */
  lemma {:induction false} ChainRemove(next: seq<int>, pending: seq<nat>, i: nat)
    requires Chain(next, pending) && i < |pending|
    ensures var p := if i == 0 then 0 else pending[i - 1];
      Chain(next[p := next[pending[i]]][pending[i] := -1], pending[..i] + pending[i + 1..])
  {
    var p, rest := if i == 0 then 0 else pending[i - 1], pending[..i] + pending[i + 1..];
    var next' := next[p := next[pending[i]]][pending[i] := -1];
    assert Linked(next, pending, i);
    forall k | 0 <= k < |rest| ensures Linked(next', rest, k) {
      assert Linked(next, pending, if k < i then k else k + 1);
    }
  }

  /** The list has grown by at most `k` pending pieces of depth `d`. */
  ghost predicate Grown(l0: seq<Piece>, l1: seq<Piece>, p0: seq<nat>, p1: seq<nat>, d: int, k: nat) {
    && |l0| <= |l1| <= |l0| + k && l1[..|l0|] == l0
    && |p1| == |p0| + |l1| - |l0| && p1[..|p0|] == p0
    && (forall i :: |p0| <= i < |p1| ==> p1[i] == |l0| + (i - |p0|))
    && (forall i :: |l0| <= i < |l1| ==> l1[i].depth == d)
  }

  lemma {:induction false} GrownByOne(l: seq<Piece>, pending: seq<nat>, p: Piece)
    ensures Grown(l, l, pending, pending, p.depth, 1)
    ensures Grown(l, l + [p], pending, pending + [|l|], p.depth, 1)
  {
  }

  /** The measure of the worklist: a piece outweighs three that are one deeper. */
  ghost function Pow4(k: int): (r: nat)
    ensures r > 0
  {
    if k <= 0 then 1 else 4 * Pow4(k - 1)
  }

  ghost function Weight(ps: seq<Piece>, pending: seq<nat>): nat
    requires forall k :: 0 <= k < |pending| ==> pending[k] < |ps|
  {
    if pending == [] then 0
    else Weight(ps, pending[..|pending| - 1]) + Pow4(32 - ps[pending[|pending| - 1]].depth)
  }

  lemma {:induction false} WeightRemove(ps: seq<Piece>, pending: seq<nat>, i: nat)
    requires i < |pending| && forall k :: 0 <= k < |pending| ==> pending[k] < |ps|
    ensures var rest := pending[..i] + pending[i + 1..];
      && (forall k :: 0 <= k < |rest| ==> rest[k] < |ps|)
      && Weight(ps, rest) + Pow4(32 - ps[pending[i]].depth) == Weight(ps, pending)
  {
    hide Weight, Pow4;
    var rest, init := pending[..i] + pending[i + 1..], pending[..|pending| - 1];
    WeightLast(ps, pending);
    if i < |pending| - 1 {
      WeightRemove(ps, init, i);
      assert rest[..|rest| - 1] == init[..i] + init[i + 1..];
      WeightLast(ps, rest);
    } else {
      assert rest == init;
    }
  }

  lemma {:induction false} WeightLast(ps: seq<Piece>, pending: seq<nat>)
    requires pending != [] && forall k :: 0 <= k < |pending| ==> pending[k] < |ps|
    ensures Weight(ps, pending) == Weight(ps, pending[..|pending| - 1]) + Pow4(32 - ps[pending[|pending| - 1]].depth)
  {
  }

  lemma {:induction false} WeightSame(l0: seq<Piece>, l1: seq<Piece>, pending: seq<nat>)
    requires |l0| <= |l1| && l1[..|l0|] == l0
    requires forall k :: 0 <= k < |pending| ==> pending[k] < |l0|
    ensures Weight(l0, pending) == Weight(l1, pending)
  {
    if pending != [] {
      WeightSame(l0, l1, pending[..|pending| - 1]);
      assert l1[..|l0|][pending[|pending| - 1]] == l1[pending[|pending| - 1]];
    }
  }

  lemma {:induction false} WeightGrown(l0: seq<Piece>, l1: seq<Piece>, p0: seq<nat>, p1: seq<nat>, d: int, k: nat)
    requires Grown(l0, l1, p0, p1, d, k) && forall i :: 0 <= i < |p0| ==> p0[i] < |l0|
    ensures forall i :: 0 <= i < |p1| ==> p1[i] < |l1|
    ensures Weight(l1, p1) <= Weight(l0, p0) + k * Pow4(32 - d)
    decreases |p1|
  {
    forall i | 0 <= i < |p1| ensures p1[i] < |l1| {
      if i < |p0| { assert p1[i] == p1[..|p0|][i]; }
    }
    if |p1| == |p0| {
      assert p1 == p0;
      WeightSame(l0, l1, p0);
      assert k * Pow4(32 - d) >= 0;
    } else {
      var l, p := l1[..|l1| - 1], p1[..|p1| - 1];
      assert l[..|l0|] == l0 && p[..|p0|] == p0;
      WeightGrown(l0, l, p0, p, d, k - 1);
      WeightSame(l, l1, p);
      assert (k - 1) * Pow4(32 - d) + Pow4(32 - d) == k * Pow4(32 - d);
    }
  }

  /** Replacing a piece by at most three that are one deeper makes the worklist lighter. */
  lemma {:induction false} WorkDone(l0: seq<Piece>, l1: seq<Piece>, before: seq<nat>, i: nat, p0: seq<nat>, p1: seq<nat>)
    requires i < |before| && forall k :: 0 <= k < |before| ==> before[k] < |l0|
    requires p0 == before[..i] + before[i + 1..] && l0[before[i]].depth <= 31
    requires Grown(l0, l1, p0, p1, l0[before[i]].depth + 1, 3)
    ensures forall k :: 0 <= k < |p1| ==> p1[k] < |l1|
    ensures Weight(l1, p1) < Weight(l0, before)
  {
    hide Grown, Weight;
    WeightRemove(l0, before, i);
    WeightGrown(l0, l1, p0, p1, l0[before[i]].depth + 1, 3);
    assert Pow4(32 - l0[before[i]].depth) == 4 * Pow4(32 - (l0[before[i]].depth + 1)) > 0;
  }

  lemma {:induction false} GrownTwice(l0: seq<Piece>, l1: seq<Piece>, l2: seq<Piece>,
                                      p0: seq<nat>, p1: seq<nat>, p2: seq<nat>, d: int, j: nat, k: nat)
    requires Grown(l0, l1, p0, p1, d, j) && Grown(l1, l2, p1, p2, d, k)
    ensures Grown(l0, l2, p0, p2, d, j + k)
  {
    assert l2[..|l0|] == l2[..|l1|][..|l0|];
    assert p2[..|p0|] == p2[..|p1|][..|p0|];
    assert forall i :: |p0| <= i < |p1| ==> p2[i] == p2[..|p1|][i];
    assert forall i :: |l0| <= i < |l1| ==> l2[i] == l2[..|l1|][i];
  }

  /** Where a piece would go: the anchor, the depth and the direction. */
  datatype Spot = Spot(x: int, y: int, z: int, depth: int, facing: nat)

  function PieceAt(t: nat, at: Spot): Piece
    requires t < TYPES
  {
    MakePiece(t, at.x, at.y, at.z, at.depth, at.facing)
  }

  predicate TooFar(start: Piece, at: Spot) {
    at.x - start.bb0.x > 112 || at.x - start.bb0.x < -112 || at.z - start.bb0.z > 112 || at.z - start.bb0.z < -112
  }

  /** A spot is too far exactly when no piece anchored there would be near the start. */
  lemma TooFarMeans(start: Piece, t: nat, at: Spot)
    requires t < TYPES
    ensures TooFar(start, at) <==> !Near(PieceAt(t, at), start)
  {
  }

  ghost predicate FreeAt(ps: seq<Piece>, t: nat, at: Spot)
    requires t < TYPES
  {
    forall i :: 0 <= i < |ps| ==> !Collide(ps[i], PieceAt(t, at))
  }

  /** Whether a type may still be placed, by the number of its pieces. */
  ghost predicate Open(ps: seq<Piece>, t: nat)
    requires t < TYPES
  {
    !(InfoOf(t).max > 0 && CountOf(ps, t) >= InfoOf(t).max)
  }

  /** Whether a piece of the type would repeat the last one that is no end. */
  ghost predicate Repeats(ps: seq<Piece>, t: nat)
    requires t < TYPES
  {
    LastType(ps) == t && !InfoOf(t).repeatable
  }

  /** A type that would repeat the last one, or whose piece would collide. */
  ghost predicate Blocked(ps: seq<Piece>, t: nat, at: Spot)
    requires t < TYPES
  {
    Repeats(ps, t) || !FreeAt(ps, t, at)
  }

  /** The type that a draw which lands on `t` comes to place, or `typ1` for nothing: a type that
      would repeat ends the draw, and one that collides leaves it to the open types after it. */
  ghost function Comes(ps: seq<Piece>, t: nat, typ1: nat, at: Spot): (u: nat)
    requires t <= typ1 <= TYPES
    ensures t <= u <= typ1 && (u < typ1 ==> Open(ps, u) && !Blocked(ps, u, at))
    decreases typ1 - t
  {
    if t == typ1 then typ1
    else if !Open(ps, t) then Comes(ps, t + 1, typ1, at)
    else if Repeats(ps, t) then typ1
    else if FreeAt(ps, t, at) then t
    else Comes(ps, t + 1, typ1, at)
  }

  /** The number `n` that is drawn lands on the open type `t`. */
  ghost predicate Lands(ps: seq<Piece>, typ0: nat, typ1: nat, t: nat, n: int)
    requires typ1 <= TYPES
  {
    typ0 <= t < typ1 && Open(ps, t) && OpenWeight(ps, typ0, t) <= n < OpenWeight(ps, typ0, t + 1)
  }

  lemma LandsOn(ps: seq<Piece>, typ0: nat, typ1: nat, t: nat, n: int)
    requires typ0 <= t < typ1 <= TYPES && Open(ps, t)
    requires OpenWeight(ps, typ0, t) <= n < OpenWeight(ps, typ0, t + 1)
    ensures Lands(ps, typ0, typ1, t, n)
  {
  }

  /** Some open type is such that a draw which lands on it places nothing. */
  ghost predicate MayFail(ps: seq<Piece>, typ0: nat, typ1: nat, at: Spot)
    requires typ1 <= TYPES
  {
    exists t: nat :: typ0 <= t < typ1 && Open(ps, t) && Comes(ps, t, typ1, at) == typ1
  }

  ghost predicate CapOpen(ps: seq<Piece>, typ0: nat, typ1: nat)
    requires typ1 <= TYPES
  {
    exists t: nat :: typ0 <= t < typ1 && Open(ps, t) && InfoOf(t).max > 0
  }

  /** One piece of a type from `typ0` up to `typ1` that may be placed has been added at the spot. */
  ghost predicate Drawn(l0: seq<Piece>, l1: seq<Piece>, typ0: nat, typ1: nat, at: Spot)
    requires typ1 <= TYPES
  {
    exists t: nat :: typ0 <= t < typ1 && Open(l0, t) && !Blocked(l0, t, at) && l1 == l0 + [PieceAt(t, at)]
  }

  /** An end has been added, unless even that collides. */
  ghost predicate Ended(l0: seq<Piece>, l1: seq<Piece>, at: Spot) {
    l1 == if FreeAt(l0, FORTRESS_END, at) then l0 + [PieceAt(FORTRESS_END, at)] else l0
  }

  lemma {:induction false} DrawnOne(l0: seq<Piece>, typ0: nat, typ1: nat, t: nat, at: Spot)
    requires typ0 <= t < typ1 <= TYPES && Open(l0, t) && !Blocked(l0, t, at)
    ensures Drawn(l0, l0 + [PieceAt(t, at)], typ0, typ1, at)
  {
    hide PieceAt, Open, Blocked;
  }

  lemma {:induction false} ComesStep(ps: seq<Piece>, t: nat, typ1: nat, at: Spot)
    requires t < typ1 <= TYPES
    ensures !Open(ps, t) ==> Comes(ps, t, typ1, at) == Comes(ps, t + 1, typ1, at)
    ensures Open(ps, t) && Repeats(ps, t) ==> Comes(ps, t, typ1, at) == typ1
    ensures Open(ps, t) && !Repeats(ps, t) ==>
      Comes(ps, t, typ1, at) == if FreeAt(ps, t, at) then t else Comes(ps, t + 1, typ1, at)
  {
    hide Open, FreeAt, Repeats;
  }

  lemma {:induction false} FailsOn(ps: seq<Piece>, typ0: nat, typ1: nat, t: nat, n: int, at: Spot)
    requires typ1 <= TYPES && Lands(ps, typ0, typ1, t, n) && Comes(ps, t, typ1, at) == typ1
    ensures MayFail(ps, typ0, typ1, at)
  {
    hide Open, Comes;
  }

  ghost function OpenWeight(ps: seq<Piece>, typ0: nat, typ1: nat): (w: nat)
    requires typ0 <= typ1 <= TYPES
  {
    if typ0 == typ1 then 0
    else OpenWeight(ps, typ0, typ1 - 1) + if Open(ps, typ1 - 1) then InfoOf(typ1 - 1).weight else 0
  }

  lemma {:induction false} OpenStep(ps: seq<Piece>, typ0: nat, t: nat)
    requires typ0 <= t < TYPES
    ensures OpenWeight(ps, typ0, typ0) == 0
    ensures OpenWeight(ps, typ0, t + 1) == OpenWeight(ps, typ0, t) + if Open(ps, t) then InfoOf(t).weight else 0
    ensures 0 < t < FORTRESS_END ==> InfoOf(t).weight > 0
  {
  }

  lemma Opened(ps: seq<Piece>, typ0: nat)
    requires typ0 <= TYPES
    ensures OpenWeight(ps, typ0, typ0) == 0 && !CapOpen(ps, typ0, typ0)
  {
  }

  lemma {:induction false} CapStep(ps: seq<Piece>, typ0: nat, t: nat)
    requires typ0 <= t < TYPES
    ensures CapOpen(ps, typ0, t + 1) == (CapOpen(ps, typ0, t) || (Open(ps, t) && InfoOf(t).max > 0))
    ensures InfoOf(t).max > 0 ==> InfoOf(t).weight > 0
  {
    hide Open;
    assert CapOpen(ps, typ0, t + 1) ==> CapOpen(ps, typ0, t) || (Open(ps, t) && InfoOf(t).max > 0);
  }

  /** What the draw of the number `n` comes to. */
  ghost predicate DrawGives(l0: seq<Piece>, l1: seq<Piece>, typ0: nat, typ1: nat, n: int, at: Spot)
    requires typ1 <= TYPES
  {
    exists t: nat :: Lands(l0, typ0, typ1, t, n) && Placed(l0, l1, Comes(l0, t, typ1, at), typ1, at)
  }

  ghost predicate Placed(l0: seq<Piece>, l1: seq<Piece>, u: nat, typ1: nat, at: Spot)
    requires typ1 <= TYPES
  {
    l1 == if u < typ1 then l0 + [PieceAt(u, at)] else l0
  }

  /** What five draws, one after the other, come to: the first that places a piece counts, and
      nothing is placed only when all five fail. */
  ghost predicate DrawsGive(l0: seq<Piece>, l1: seq<Piece>, typ0: nat, typ1: nat, draws: seq<nat>, at: Spot)
    requires typ1 <= TYPES
  {
    if l1 == l0 then forall k :: 0 <= k < |draws| ==> DrawGives(l0, l0, typ0, typ1, draws[k], at)
    else exists i :: 0 <= i < |draws| && DrawGives(l0, l1, typ0, typ1, draws[i], at)
           && forall k :: 0 <= k < i ==> DrawGives(l0, l0, typ0, typ1, draws[k], at)
  }

  lemma DrawnLonger(l0: seq<Piece>, l1: seq<Piece>, typ0: nat, typ1: nat, at: Spot)
    requires typ1 <= TYPES && Drawn(l0, l1, typ0, typ1, at)
    ensures l1 != l0
  {
    hide PieceAt;
  }

  lemma {:induction false} DrawSettled(l0: seq<Piece>, l1: seq<Piece>, typ0: nat, typ1: nat, t: nat, n: int, at: Spot)
    requires typ1 <= TYPES && Lands(l0, typ0, typ1, t, n)
    requires Placed(l0, l1, Comes(l0, t, typ1, at), typ1, at)
    ensures DrawGives(l0, l1, typ0, typ1, n, at)
  {
    hide Lands, Comes, Placed;
  }

  lemma {:induction false} OpenBelow(ps: seq<Piece>, typ0: nat, t: nat, typ1: nat)
    requires typ0 <= t <= typ1 <= TYPES
    ensures OpenWeight(ps, typ0, t) <= OpenWeight(ps, typ0, typ1)
    decreases typ1
  {
    hide Open;
    if t < typ1 { OpenBelow(ps, typ0, t, typ1 - 1); }
  }

  /** Every open type of a family is landed on by some number that may be drawn. */
  lemma {:induction false} EveryTypeLands(ps: seq<Piece>, typ0: nat, typ1: nat, t: nat)
    requires 0 < typ0 <= t < typ1 <= FORTRESS_END && Open(ps, t)
    ensures Lands(ps, typ0, typ1, t, OpenWeight(ps, typ0, t))
    ensures OpenWeight(ps, typ0, t) < OpenWeight(ps, typ0, typ1)
  {
    hide Open, OpenWeight;
    OpenStep(ps, typ0, t);
    OpenBelow(ps, typ0, t + 1, typ1);
  }

  /** The numbers that land on a type. */
  ghost function Landing(ps: seq<Piece>, typ0: nat, typ1: nat, t: nat): set<int>
    requires typ0 <= typ1 <= TYPES
  {
    set n: int | 0 <= n < OpenWeight(ps, typ0, typ1) && Lands(ps, typ0, typ1, t, n)
  }

  /** An open type of a family is landed on by as many numbers as it weighs, and others by none. */
  lemma {:induction false} LandsByWeight(ps: seq<Piece>, typ0: nat, typ1: nat, t: nat)
    requires 0 < typ0 <= t < typ1 <= FORTRESS_END
    ensures |Landing(ps, typ0, typ1, t)| == if Open(ps, t) then InfoOf(t).weight else 0
  {
    hide Landing, Open, OpenWeight, InfoOf;
    var lo, w := OpenWeight(ps, typ0, t), if Open(ps, t) then InfoOf(t).weight else 0;
    forall n: int ensures n in Landing(ps, typ0, typ1, t) <==> n in BoundedDraw.Interval(lo, lo + w) {
      InLanding(ps, typ0, typ1, t, n);
    }
    assert Landing(ps, typ0, typ1, t) == BoundedDraw.Interval(lo, lo + w);
    BoundedDraw.IntervalSize(lo, w);
  }

  lemma InLanding(ps: seq<Piece>, typ0: nat, typ1: nat, t: nat, n: int)
    requires 0 < typ0 <= t < typ1 <= FORTRESS_END
    ensures var lo := OpenWeight(ps, typ0, t);
      n in Landing(ps, typ0, typ1, t) <==> lo <= n < lo + if Open(ps, t) then InfoOf(t).weight else 0
  {
    hide Open, OpenWeight, InfoOf;
    OpenStep(ps, typ0, t);
    OpenBelow(ps, typ0, t + 1, typ1);
  }

  /** Every number that may be drawn lands on exactly one type. */
  lemma {:induction false} LandsOnOne(ps: seq<Piece>, typ0: nat, typ1: nat, n: nat)
    requires typ0 <= typ1 <= TYPES && n < OpenWeight(ps, typ0, typ1)
    ensures exists t: nat :: Lands(ps, typ0, typ1, t, n)
    ensures forall t: nat, u: nat :: Lands(ps, typ0, typ1, t, n) && Lands(ps, typ0, typ1, u, n) ==> t == u
    decreases typ1
  {
    hide Open, OpenWeight;
    forall t: nat, u: nat | Lands(ps, typ0, typ1, t, n) && Lands(ps, typ0, typ1, u, n) ensures t == u {
      if t < u { OpenBelow(ps, typ0, t + 1, u); }
      if u < t { OpenBelow(ps, typ0, u + 1, t); }
    }
    Opened(ps, typ0);
    OpenStep(ps, typ0, typ1 - 1);
    if n < OpenWeight(ps, typ0, typ1 - 1) {
      LandsOnOne(ps, typ0, typ1 - 1, n);
      var t: nat :| Lands(ps, typ0, typ1 - 1, t, n);
      assert Lands(ps, typ0, typ1, t, n);
    } else {
      assert Lands(ps, typ0, typ1, typ1 - 1, n);
    }
  }

  /** Draws may fail exactly when some open type is one from which no free type is reached. */
  lemma {:induction false} FailsExactly(ps: seq<Piece>, typ0: nat, typ1: nat, at: Spot)
    requires 0 < typ0 <= typ1 <= FORTRESS_END
    ensures MayFail(ps, typ0, typ1, at) <==>
      exists n: nat :: n < OpenWeight(ps, typ0, typ1) && DrawGives(ps, ps, typ0, typ1, n, at)
  {
    hide Open, OpenWeight, PieceAt, Comes;
    if MayFail(ps, typ0, typ1, at) {
      var t: nat :| typ0 <= t < typ1 && Open(ps, t) && Comes(ps, t, typ1, at) == typ1;
      EveryTypeLands(ps, typ0, typ1, t);
      DrawSettled(ps, ps, typ0, typ1, t, OpenWeight(ps, typ0, t), at);
    }
  }

  /** What ends a draw: it places `u`, or nothing, when all open types before collide, and the
      next open one is `u`, would repeat, or is not there. */
  ghost predicate Ends(ps: seq<Piece>, t: nat, u: nat, r: nat, typ1: nat, at: Spot)
    requires t <= r <= typ1 <= TYPES
  {
    && (forall k :: t <= k < r ==> !Open(ps, k) || (!Repeats(ps, k) && !FreeAt(ps, k, at)))
    && (r < typ1 ==> Open(ps, r) && (Repeats(ps, r) || FreeAt(ps, r, at)))
    && u == if r < typ1 && !Repeats(ps, r) then r else typ1
  }

  lemma {:induction false} ComesMeans(ps: seq<Piece>, t: nat, typ1: nat, at: Spot)
    requires t <= typ1 <= TYPES
    ensures exists r: nat :: t <= r <= typ1 && Ends(ps, t, Comes(ps, t, typ1, at), r, typ1, at)
    decreases typ1 - t
  {
    hide Open, FreeAt, Repeats, Comes;
    if t < typ1 {
      ComesStep(ps, t, typ1, at);
      if Open(ps, t) && (Repeats(ps, t) || FreeAt(ps, t, at)) {
        assert Ends(ps, t, Comes(ps, t, typ1, at), t, typ1, at);
      } else {
        ComesMeans(ps, t + 1, typ1, at);
        var r: nat :| t + 1 <= r <= typ1 && Ends(ps, t + 1, Comes(ps, t + 1, typ1, at), r, typ1, at);
        assert Ends(ps, t, Comes(ps, t, typ1, at), r, typ1, at);
      }
    } else {
      ComesNone(ps, typ1, at);
      assert Ends(ps, t, typ1, typ1, typ1, at);
    }
  }

  lemma ComesNone(ps: seq<Piece>, typ1: nat, at: Spot)
    requires typ1 <= TYPES
    ensures Comes(ps, typ1, typ1, at) == typ1
  {
  }

  function SpotOf(p: Piece, offh: int, offv: int, turn: int): Spot
    requires p.rot < 4
  {
    var (x, z, facing) := Anchor(p, offh, turn);
    Spot(x, p.bb0.y + offv, z, p.depth + 1, facing)
  }

  /** A direction in which a piece is extended: offsets along the side and upwards, a turn, and
      the family of pieces. */
  datatype Exit = Exit(offh: int, offv: int, turn: int, corridor: bool)

  function FirstType(corridor: bool): nat { if corridor then CORRIDOR_STRAIGHT else BRIDGE_STRAIGHT }

  function LastTypeEnd(corridor: bool): nat { if corridor then FORTRESS_END else CORRIDOR_STRAIGHT }

  /** What comes to a spot within reach: a piece of the family that may be placed, or an end; the
      latter only if the spot is too deep, no capped type of the family is open, or a draw may fail. */
  ghost predicate Filled(l0: seq<Piece>, l1: seq<Piece>, typ0: nat, typ1: nat, at: Spot)
    requires typ1 <= TYPES
  {
    if at.depth > 30 || !CapOpen(l0, typ0, typ1) then Ended(l0, l1, at)
    else Drawn(l0, l1, typ0, typ1, at) || (Ended(l0, l1, at) && MayFail(l0, typ0, typ1, at))
  }

  /** What extending a piece in a direction comes to. Too far from the start nothing is added. */
  ghost predicate Extended(l0: seq<Piece>, l1: seq<Piece>, p: nat, e: Exit) {
    && p < |l0| && l0[p].rot < 4
    && var at := SpotOf(l0[p], e.offh, e.offv, e.turn);
       if TooFar(l0[0], at) then l1 == l0 else Filled(l0, l1, FirstType(e.corridor), LastTypeEnd(e.corridor), at)
  }

  /** Where each type of piece leads. A crossing of corridors leaves the families to two draws. */
  function Exits(typ: nat, rot: nat, left: bool, right: bool): seq<Exit> {
    if typ == BRIDGE_STRAIGHT then [Exit(1, 3, 0, false)]
    else if typ == BRIDGE_CROSSING || typ == FORTRESS_START then
      [Exit(8, 3, 0, false), Exit(8, 3, -1, false), Exit(8, 3, 1, false)]
    else if typ == BRIDGE_FORTIFIED_CROSSING then
      [Exit(2, 0, 0, false), Exit(2, 0, -1, false), Exit(2, 0, 1, false)]
    else if typ == BRIDGE_STAIRS then [Exit(2, 6, 1, false)]
    else if typ == BRIDGE_CORRIDOR_ENTRANCE then [Exit(5, 3, 0, true)]
    else if typ == CORRIDOR_STRAIGHT || typ == CORRIDOR_STAIRS then [Exit(1, 0, 0, true)]
    else if typ == CORRIDOR_CROSSING then
      [Exit(1, 0, 0, true), Exit(1, 0, -1, true), Exit(1, 0, 1, true)]
    else if typ == CORRIDOR_TURN_RIGHT then [Exit(1, 0, 1, true)]
    else if typ == CORRIDOR_TURN_LEFT then [Exit(1, 0, -1, true)]
    else if typ == CORRIDOR_T_CROSSING then
      var h := if rot == 0 || rot == 3 then 5 else 1;
      [Exit(h, 0, -1, left), Exit(h, 0, 1, right)]
    else if typ == CORRIDOR_NETHER_WART then [Exit(5, 3, 0, true), Exit(5, 11, 0, true)]
    else []
  }

  /** The piece has been extended in each of the directions, one after the other. */
  ghost predicate Chained(l0: seq<Piece>, l1: seq<Piece>, p: nat, es: seq<Exit>)
    decreases |es|
  {
    if es == [] then l1 == l0
    else exists mid: seq<Piece> :: Extended(l0, mid, p, es[0]) && Chained(mid, l1, p, es[1..])
  }

  /** The piece has been extended in all the directions of its type. */
  ghost predicate Followed(l0: seq<Piece>, l1: seq<Piece>, p: nat) {
    p < |l0| && exists left, right: bool :: Chained(l0, l1, p, Exits(l0[p].typ, l0[p].rot, left, right))
  }

  lemma {:induction false} ChainOne(l0: seq<Piece>, l1: seq<Piece>, p: nat, e: Exit)
    requires Extended(l0, l1, p, e)
    ensures Chained(l0, l1, p, [e])
  {
    hide Extended;
    assert [e][1..] == [] && Chained(l1, l1, p, []);
  }

  lemma {:induction false} ChainMore(l0: seq<Piece>, mid: seq<Piece>, l1: seq<Piece>, p: nat, e: Exit, es: seq<Exit>)
    requires Extended(l0, mid, p, e) && Chained(mid, l1, p, es)
    ensures Chained(l0, l1, p, [e] + es)
  {
    hide Extended;
    assert ([e] + es)[1..] == es;
  }

  lemma FollowedBy(l0: seq<Piece>, l1: seq<Piece>, p: nat, left: bool, right: bool)
    requires p < |l0| && Chained(l0, l1, p, Exits(l0[p].typ, l0[p].rot, left, right))
    ensures Followed(l0, l1, p)
  {
  }

  lemma NoExits(l: seq<Piece>, p: nat)
    requires p < |l| && Exits(l[p].typ, l[p].rot, false, false) == []
    ensures Chained(l, l, p, Exits(l[p].typ, l[p].rot, false, false))
  {
  }

  function StartPiece(chunkX: int, chunkZ: int, rot: nat): Piece {
    var pos, size := Pos3(chunkX * 16 + 2, 64, chunkZ * 16 + 2), InfoOf(FORTRESS_START).size;
    Piece(pos, pos, Pos3(pos.x + size.x, pos.y + size.y, pos.z + size.z), rot, 0, FORTRESS_START)
  }

  /** A whole run: it begins with the start piece, which is extended first, and every further
      entry is a piece that is there by then and is extended from one list to the next. */
  ghost predicate Run(lists: seq<seq<Piece>>, extended: seq<nat>, chunkX: int, chunkZ: int, rot: nat) {
    && |lists| == |extended| + 1 && |extended| > 0 && extended[0] == 0
    && lists[0] == [StartPiece(chunkX, chunkZ, rot)]
    && forall k :: 0 <= k < |extended| ==> Followed(lists[k], lists[k + 1], extended[k])
  }

  lemma {:induction false} RunOn(lists: seq<seq<Piece>>, extended: seq<nat>, chunkX: int, chunkZ: int, rot: nat,
                                 p: nat, l: seq<Piece>)
    requires Run(lists, extended, chunkX, chunkZ, rot) && Followed(lists[|extended|], l, p)
    ensures Run(lists + [l], extended + [p], chunkX, chunkZ, rot) && |lists + [l]| == |extended + [p]| + 1
  {
    hide Followed, StartPiece;
    var lists', extended' := lists + [l], extended + [p];
    forall k | 0 <= k < |extended'| ensures Followed(lists'[k], lists'[k + 1], extended'[k]) {
      if k < |extended| { assert Followed(lists[k], lists[k + 1], extended[k]); }
    }
  }

  /** The box has the size of the type, turned the way the piece faces. */
  predicate Shaped(p: Piece) {
    && p.typ < TYPES && p.rot < 4
    && p.bb1.y - p.bb0.y == InfoOf(p.typ).size.y
    && p.bb1.x - p.bb0.x == (if p.rot % 2 == 0 then InfoOf(p.typ).size.x else InfoOf(p.typ).size.z)
    && p.bb1.z - p.bb0.z == (if p.rot % 2 == 0 then InfoOf(p.typ).size.z else InfoOf(p.typ).size.x)
  }

  /** A position that touches a side face of the piece from outside. */
  predicate Beside(p: Piece, pos: Pos3) {
    && p.bb0.y <= pos.y <= p.bb1.y
    && ((p.bb0.x <= pos.x <= p.bb1.x && (pos.z == p.bb0.z - 1 || pos.z == p.bb1.z + 1))
        || (p.bb0.z <= pos.z <= p.bb1.z && (pos.x == p.bb0.x - 1 || pos.x == p.bb1.x + 1)))
  }

  ghost predicate HasParent(ps: seq<Piece>, i: nat)
    requires i < |ps|
  {
    exists j: nat :: j < i && Beside(ps[j], ps[i].pos) && ps[i].depth == ps[j].depth + 1
  }

  /** The fortress hangs together: every piece but the first starts beside an earlier piece that
      is one less deep. */
  ghost predicate Joined(ps: seq<Piece>) {
    && (forall i: nat :: i < |ps| ==> Shaped(ps[i]))
    && (forall i: nat :: 0 < i < |ps| ==> HasParent(ps, i))
  }

  /** Offsets that stay within the side face a piece is extended from. */
  predicate Fitting(p: Piece, offh: int, offv: int, turn: int)
    requires p.typ < TYPES
  {
    && 0 <= offv <= InfoOf(p.typ).size.y
    && 0 <= offh <= if turn == 0 then InfoOf(p.typ).size.x else InfoOf(p.typ).size.z
  }

  lemma SpotBeside(p: Piece, offh: int, offv: int, turn: int)
    requires Shaped(p) && Fitting(p, offh, offv, turn) && -1 <= turn <= 1
    ensures var at := SpotOf(p, offh, offv, turn); Beside(p, Pos3(at.x, at.y, at.z)) && at.facing < 4
  {
    hide InfoOf;
  }

  /** A piece grows away from the one it extends: its box holds the anchor, which lies beside the
      older piece, and never meets that. */
  lemma GrowsAway(p: Piece, offh: int, offv: int, turn: int, t: nat)
    requires Shaped(p) && Fitting(p, offh, offv, turn) && -1 <= turn <= 1 && t < TYPES
    ensures var at := SpotOf(p, offh, offv, turn);
      && !Collide(p, PieceAt(t, at)) && InBox(PieceAt(t, at), Pos3(at.x, at.y, at.z))
      && Beside(p, Pos3(at.x, at.y, at.z))
  {
  }

  /** Straight on keeps the direction; the two turns face opposite ways across it. */
  lemma TurnsFace(p: Piece, offh: int, offv: int)
    requires p.rot < 4
    ensures SpotOf(p, offh, offv, 0).facing == p.rot
    ensures var left, right := SpotOf(p, offh, offv, -1).facing, SpotOf(p, offh, offv, 1).facing;
      left % 2 != p.rot % 2 && right == (left + 2) % 4
  {
  }

  /** The two ends of a box along the side that one facing so would leave. */
  function SideLo(p: Piece, facing: nat): int { if facing % 2 == 0 then p.bb0.x else p.bb0.z }

  function SideHi(p: Piece, facing: nat): int { if facing % 2 == 0 then p.bb1.x else p.bb1.z }

  /** A straight piece, of either family, is four wide and begins one before the offset. */
  lemma StraightPlace(p: Piece, offh: int, offv: int, turn: int, corridor: bool)
    requires Shaped(p) && -1 <= turn <= 1
    ensures var at := SpotOf(p, offh, offv, turn);
      var q := PieceAt(FirstType(corridor), at);
      && SideLo(q, at.facing) == SideLo(p, at.facing) + offh - 1 && SideHi(q, at.facing) == SideLo(q, at.facing) + 4
      && SideHi(p, at.facing) - SideLo(p, at.facing)
           == if turn == 0 then InfoOf(p.typ).size.x else InfoOf(p.typ).size.z
  {
  }

  /** Wherever a piece leads, a straight piece is placed in the middle of the side it leaves, but
      for the crossing with three arms, where it is flush with one end of the side. */
  lemma ExitsInLine(p: Piece, left: bool, right: bool, k: nat)
    requires Shaped(p) && k < |Exits(p.typ, p.rot, left, right)|
    ensures var e := Exits(p.typ, p.rot, left, right)[k];
      && -1 <= e.turn <= 1 && Fitting(p, e.offh, e.offv, e.turn)
      && var at := SpotOf(p, e.offh, e.offv, e.turn);
         var q := PieceAt(FirstType(e.corridor), at);
         var lo, hi := SideLo(q, at.facing) - SideLo(p, at.facing), SideHi(p, at.facing) - SideHi(q, at.facing);
         if p.typ == CORRIDOR_T_CROSSING then lo == 0 || hi == 0 else lo == hi
  {
    hide SpotOf, PieceAt, SideLo, SideHi;
    var e := Exits(p.typ, p.rot, left, right)[k];
    StraightPlace(p, e.offh, e.offv, e.turn, e.corridor);
  }

  /** The floor goes on at the height of the anchor, but for the stairs, which rise by 6 or fall by
      7, the upper way out of the wart farm, 8 higher, and the start, whose anchor is its corner. */
  lemma FloorLevel(p: Piece, left: bool, right: bool, k: nat)
    requires p.typ < TYPES && p.rot < 4 && p.bb0.y == p.pos.y + InfoOf(p.typ).offset.y
    requires k < |Exits(p.typ, p.rot, left, right)|
    ensures var e := Exits(p.typ, p.rot, left, right)[k];
      SpotOf(p, e.offh, e.offv, e.turn).y - p.pos.y
        == if p.typ == BRIDGE_STAIRS then 6 else if p.typ == CORRIDOR_STAIRS then -7
           else if p.typ == CORRIDOR_NETHER_WART && k == 1 then 8 else if p.typ == FORTRESS_START then 3 else 0
  {
    hide Anchor;
  }

  lemma AnchoredHeight(t: nat, at: Spot)
    requires t < TYPES
    ensures var p := PieceAt(t, at); p.bb0.y == p.pos.y + InfoOf(p.typ).offset.y && p.pos.y == at.y
  {
  }

  function FacingOf(p: Piece, e: Exit): nat
    requires p.rot < 4
  {
    SpotOf(p, e.offh, e.offv, e.turn).facing
  }

  ghost predicate LeadsTo(p: Piece, es: seq<Exit>, facing: nat)
    requires p.rot < 4
  {
    exists e :: e in es && FacingOf(p, e) == facing
  }

  lemma Facings(p: Piece, e: Exit)
    requires p.rot < 4
    ensures e.turn == 0 ==> FacingOf(p, e) == p.rot
    ensures e.turn == -1 ==> FacingOf(p, e) == if p.rot % 2 == 1 then 0 else 3
    ensures e.turn == 1 ==> FacingOf(p, e) == if p.rot % 2 == 1 then 2 else 1
  {
  }

  lemma WaysAhead(p: Piece, es: seq<Exit>, facing: nat)
    requires p.rot < 4 && es != [] && forall e :: e in es ==> e.turn == 0
    ensures LeadsTo(p, es, facing) <==> facing == p.rot
  {
    hide FacingOf;
    assert es[0] in es;
    forall e | e in es ensures FacingOf(p, e) == p.rot { Facings(p, e); }
  }

  lemma WaysAside(p: Piece, es: seq<Exit>, facing: nat)
    requires p.rot < 4 && facing < 4 && |es| == 2 && es[0].turn == -1 && es[1].turn == 1
    ensures LeadsTo(p, es, facing) <==> facing % 2 != p.rot % 2
  {
    hide FacingOf;
    Facings(p, es[0]);
    Facings(p, es[1]);
    assert es[0] in es && es[1] in es;
  }

  lemma WaysAll(p: Piece, es: seq<Exit>, facing: nat)
    requires p.rot < 4 && facing < 4 && |es| == 3 && es[0].turn == 0 && es[1].turn == -1 && es[2].turn == 1
    ensures LeadsTo(p, es, facing) <==> facing != (p.rot + 2) % 4
  {
    hide FacingOf;
    Facings(p, es[0]);
    Facings(p, es[1]);
    Facings(p, es[2]);
    assert es[0] in es && es[1] in es && es[2] in es;
  }

  /** A crossing leads on in every direction but the one it was entered from; one with three arms
      to both sides; a straight piece ahead. */
  lemma {:induction false} WaysOn(p: Piece, facing: nat, left: bool, right: bool)
    requires p.rot < 4 && facing < 4
    ensures var es := Exits(p.typ, p.rot, left, right);
      && (p.typ in {FORTRESS_START, BRIDGE_CROSSING, BRIDGE_FORTIFIED_CROSSING, CORRIDOR_CROSSING} ==>
            (LeadsTo(p, es, facing) <==> facing != (p.rot + 2) % 4))
      && (p.typ == CORRIDOR_T_CROSSING ==> (LeadsTo(p, es, facing) <==> facing % 2 != p.rot % 2))
      && (p.typ in {BRIDGE_STRAIGHT, BRIDGE_CORRIDOR_ENTRANCE, CORRIDOR_STRAIGHT, CORRIDOR_STAIRS, CORRIDOR_NETHER_WART} ==>
            (LeadsTo(p, es, facing) <==> facing == p.rot))
      && (p.typ in {BRIDGE_SPAWNER, FORTRESS_END} ==> !LeadsTo(p, es, facing))
  {
    hide LeadsTo;
    var es := Exits(p.typ, p.rot, left, right);
    if es == [] {
      NoWay(p, facing);
    } else if |es| == 3 {
      WaysAll(p, es, facing);
    } else if es[0].turn == -1 && |es| == 2 {
      WaysAside(p, es, facing);
    } else if es[0].turn == 0 {
      WaysAhead(p, es, facing);
    }
  }

  lemma NoWay(p: Piece, facing: nat)
    requires p.rot < 4
    ensures !LeadsTo(p, [], facing)
  {
  }

  lemma PieceShaped(t: nat, at: Spot)
    requires t < TYPES && at.facing < 4
    ensures Shaped(PieceAt(t, at)) && PieceAt(t, at).pos == Pos3(at.x, at.y, at.z) && PieceAt(t, at).depth == at.depth
  {
    hide InfoOf;
  }

  lemma {:induction false} JoinedAppend(ps: seq<Piece>, j: nat, t: nat, at: Spot)
    requires Joined(ps) && j < |ps| && t < TYPES && at.facing < 4
    requires Beside(ps[j], Pos3(at.x, at.y, at.z)) && at.depth == ps[j].depth + 1
    ensures Joined(ps + [PieceAt(t, at)])
  {
    hide Shaped, Beside, PieceAt;
    PieceShaped(t, at);
    var qs := ps + [PieceAt(t, at)];
    forall i: nat | 0 < i < |qs| ensures HasParent(qs, i) {
      if i < |ps| {
        assert HasParent(ps, i);
        var k: nat :| k < i && Beside(ps[k], ps[i].pos) && ps[i].depth == ps[k].depth + 1;
        assert qs[k] == ps[k] && qs[i] == ps[i];
      } else {
        assert qs[j] == ps[j];
      }
    }
  }

  /** Extending a piece within its side faces keeps the fortress joined. */
  lemma {:induction false} ExtendedJoined(l0: seq<Piece>, l1: seq<Piece>,
                                          p: nat, e: Exit)
    requires Joined(l0) && p < |l0| && -1 <= e.turn <= 1 && l0[p].rot < 4 && l0[p].typ < TYPES
    requires Fitting(l0[p], e.offh, e.offv, e.turn) && Extended(l0, l1, p, e)
    ensures Joined(l1)
  {
    hide Joined, Shaped, Beside, PieceAt, FreeAt, TooFar, Fitting, SpotOf, Open, Blocked, CapOpen, MayFail;
    ShapedIn(l0, p);
    SpotBeside(l0[p], e.offh, e.offv, e.turn);
    SpotDepth(l0[p], e.offh, e.offv, e.turn);
    var at := SpotOf(l0[p], e.offh, e.offv, e.turn);
    if l1 != l0 {
      var t: nat :| t < TYPES && l1 == l0 + [PieceAt(t, at)];
      JoinedAppend(l0, p, t, at);
    }
  }

  lemma ShapedIn(ps: seq<Piece>, p: nat)
    requires Joined(ps) && p < |ps|
    ensures Shaped(ps[p])
  {
  }

  lemma SpotDepth(p: Piece, offh: int, offv: int, turn: int)
    requires p.rot < 4
    ensures SpotOf(p, offh, offv, turn).depth == p.depth + 1 && SpotOf(p, offh, offv, turn).facing < 4
  {
  }

  /** The generator's state: the counted pieces, the `next` field of each, the count of each
      type, and the last type that is no end. A piece that is not counted is only ever written
      to the free place behind the list and is not kept. */
  class PieceEnv {
    var list: seq<Piece>
    var next: seq<int>
    var ntyp: seq<nat>
    var typlast: nat
    ghost var pending: seq<nat>
    ghost var extended: seq<nat>

    ghost predicate Valid()
      reads this
    {
      && Sound(list) && |next| == |list| && Chain(next, pending)
      && Accounted(|list|, pending, extended)
      && |ntyp| == TYPES && (forall t: nat :: t < TYPES ==> ntyp[t] == CountOf(list, t))
      && typlast == LastType(list)
    }

    /** The start piece, which is about to be extended. */
    constructor (chunkX: int, chunkZ: int, rot: nat)
      requires rot < 4
      ensures Valid() && list == [StartPiece(chunkX, chunkZ, rot)] && pending == [] && extended == [0] && Joined(list)
    {
      var pos := Pos3(chunkX * 16 + 2, 64, chunkZ * 16 + 2);
      var size := InfoOf(FORTRESS_START).size;
      var p := Piece(pos, pos, Pos3(pos.x + size.x, pos.y + size.y, pos.z + size.z), rot, 0, FORTRESS_START);
      list := [p];
      next := [-1];
      ntyp := seq(TYPES, t => if t == FORTRESS_START then 1 else 0);
      typlast := FORTRESS_START;
      pending := [];
      extended := [0];
    }

    /** Whether a piece touches none of the counted ones. */
    method Free(p: Piece) returns (free: bool)
      ensures free == forall i :: 0 <= i < |list| ==> !Collide(list[i], p)
    {
      for i := 0 to |list|
        invariant forall k :: 0 <= k < i ==> !Collide(list[k], p)
      {
        if Collide(list[i], p) {
          return false;
        }
      }
      free := true;
    }

    /** The end of the chain that starts at the first piece. */
    method ChainEnd() returns (q: nat)
      requires Chain(next, pending)
      ensures q == if pending == [] then 0 else pending[|pending| - 1]
    {
      q := 0;
      ghost var k := 0;
      while next[q] != -1
        invariant 0 <= k <= |pending| && q < |next| && q == if k == 0 then 0 else pending[k - 1]
        decreases |pending| - k
      {
        assert k > 0 ==> Linked(next, pending, k - 1);
        q := next[q];
        k := k + 1;
      }
      assert k > 0 ==> Linked(next, pending, k - 1);
    }

    /** Try to place a piece; a counted one goes to the end of the chain. */
    method AddFortressPiece(typ: nat, x: int, y: int, z: int, depth: int, facing: nat, isPending: bool)
      returns (ok: bool)
      requires Valid() && typ < TYPES && facing < 4
      requires isPending ==>
        var p := MakePiece(typ, x, y, z, depth, facing);
        && Near(p, list[0]) && 0 <= depth <= (if typ == FORTRESS_END then 31 else 30)
        && (typ != FORTRESS_END ==> InfoOf(typ).repeatable || typlast != typ)
        && (InfoOf(typ).max > 0 ==> ntyp[typ] < InfoOf(typ).max)
      modifies this
      ensures Valid() && extended == old(extended)
      ensures var p := MakePiece(typ, x, y, z, depth, facing);
        && ok == (forall i :: 0 <= i < |old(list)| ==> !Collide(old(list)[i], p))
        && (if ok && isPending then list == old(list) + [p] && pending == old(pending) + [|old(list)|]
            else list == old(list) && pending == old(pending) && ntyp == old(ntyp) && typlast == old(typlast))
    {
      var p := MakePiece(typ, x, y, z, depth, facing);
      ok := Free(p);
      if ok && isPending {
        Count(p);
      }
    }

    method Count(p: Piece)
      requires Valid() && p.typ < TYPES && p.rot < 4
      requires Near(p, list[0]) && 0 <= p.depth <= (if p.typ == FORTRESS_END then 31 else 30)
      requires p.typ != FORTRESS_END ==> InfoOf(p.typ).repeatable || typlast != p.typ
      requires InfoOf(p.typ).max > 0 ==> ntyp[p.typ] < InfoOf(p.typ).max
      requires forall i :: 0 <= i < |list| ==> !Collide(list[i], p)
      modifies this
      ensures Valid() && extended == old(extended)
      ensures list == old(list) + [p] && pending == old(pending) + [|old(list)|]
    {
      hide Sound, CountOf, LastType, Chain, Collide, Near, InfoOf;
      SoundAppend(list, p);
      ChainAppend(next, pending);
      CountAppend(list, p);
      var q := ChainEnd();
      next := (next + [-1])[q := |list|];
      list := list + [p];
      ntyp := ntyp[p.typ := ntyp[p.typ] + 1];
      if p.typ != FORTRESS_END {
        typlast := p.typ;
      }
      pending := pending + [|list| - 1];
    }

    /** The total weight of the types that are still allowed, and whether one of them has a cap. */
    method AllowedWeight(typ0: nat, typ1: nat) returns (valid: bool, total: int)
      requires Valid() && typ0 <= typ1 <= TYPES
      ensures total == OpenWeight(list, typ0, typ1) && valid == CapOpen(list, typ0, typ1)
      ensures valid ==> total > 0
    {
      hide Sound, CountOf, LastType, Chain, Accounted, OpenWeight, CapOpen;
      valid, total := false, 0;
      Opened(list, typ0);
      for t := typ0 to typ1
        invariant total == OpenWeight(list, typ0, t) && valid == CapOpen(list, typ0, t)
        invariant valid ==> total > 0
      {
        OpenStep(list, typ0, t);
        CapStep(list, typ0, t);
        var max := InfoOf(t).max;
        if !(max > 0 && ntyp[t] >= max) {
          if max > 0 { valid := true; }
          total := total + InfoOf(t).weight;
        }
      }
    }

    /** One weighted draw. A type that would repeat ends it; a type that collides leaves it to
        the types after it. */
    method OneDraw(typ0: nat, typ1: nat, n0: nat, at: Spot) returns (done: bool)
      requires Valid() && typ0 <= typ1 <= FORTRESS_END && at.facing < 4 && 0 <= at.depth <= 30
      requires n0 < OpenWeight(list, typ0, typ1) && !TooFar(list[0], at)
      modifies this
      ensures Valid() && extended == old(extended)
      ensures DrawGives(old(list), list, typ0, typ1, n0, at)
      ensures done ==> Drawn(old(list), list, typ0, typ1, at)
      ensures done ==> Grown(old(list), list, old(pending), pending, at.depth, 1)
      ensures !done ==> list == old(list) && pending == old(pending) && MayFail(list, typ0, typ1, at)
    {
      hide Sound, CountOf, LastType, Chain, Linked, Collide, Accounted, Grown, Drawn, MayFail, OpenWeight, Comes,
        DrawGives, Lands;
      var n: int := n0;
      var t := typ0;
      ghost var hit: nat := typ1;
      OpenStep(list, typ0, typ0);
      while t < typ1
        invariant typ0 <= t <= typ1 && hit <= typ1
        invariant Valid() && extended == old(extended) && list == old(list) && pending == old(pending)
        invariant n == n0 - OpenWeight(list, typ0, t)
        invariant n < 0 ==> Lands(list, typ0, typ1, hit, n0) && Comes(list, hit, typ1, at) == Comes(list, t, typ1, at)
      {
        OpenStep(list, typ0, t);
        ComesStep(list, t, typ1, at);
        var max := InfoOf(t).max;
        if !(max > 0 && ntyp[t] >= max) {
          if n >= 0 && n < InfoOf(t).weight {
            LandsOn(list, typ0, typ1, t, n0);
            hit := t;
          }
          n := n - InfoOf(t).weight;
          if n < 0 {
            if typlast == t && !InfoOf(t).repeatable {
              DrawSettled(list, list, typ0, typ1, hit, n0, at);
              FailsOn(list, typ0, typ1, hit, n0, at);
              return false;
            }
            var ok := AddFortressPiece(t, at.x, at.y, at.z, at.depth, at.facing, true);
            if ok {
              GrownByOne(old(list), old(pending), PieceAt(t, at));
              DrawnOne(old(list), typ0, typ1, t, at);
              DrawSettled(old(list), list, typ0, typ1, hit, n0, at);
              return true;
            }
          }
        }
        t := t + 1;
      }
      ComesNone(list, typ1, at);
      DrawSettled(list, list, typ0, typ1, hit, n0, at);
      FailsOn(list, typ0, typ1, hit, n0, at);
      done := false;
    }

    /** Five draws at most: the first that places a piece counts. */
    method DrawPiece(typ0: nat, typ1: nat, draws: seq<nat>, at: Spot) returns (done: bool)
      requires Valid() && typ0 <= typ1 <= FORTRESS_END && at.facing < 4 && 0 <= at.depth <= 30
      requires |draws| == 5 && forall n :: n in draws ==> n < OpenWeight(list, typ0, typ1)
      requires !TooFar(list[0], at)
      modifies this
      ensures Valid() && extended == old(extended)
      ensures DrawsGive(old(list), list, typ0, typ1, draws, at) && done == (list != old(list))
      ensures done ==> Drawn(old(list), list, typ0, typ1, at)
      ensures done ==> Grown(old(list), list, old(pending), pending, at.depth, 1)
      ensures !done ==> list == old(list) && pending == old(pending) && MayFail(list, typ0, typ1, at)
    {
      hide Sound, CountOf, LastType, Chain, Linked, Collide, Accounted, Grown, Drawn, MayFail, OpenWeight, DrawGives;
      ghost var was := list;
      for i := 0 to 5
        invariant Valid() && extended == old(extended) && list == was && pending == old(pending)
        invariant forall k :: 0 <= k < i ==> DrawGives(was, was, typ0, typ1, draws[k], at)
        invariant i > 0 ==> MayFail(list, typ0, typ1, at)
      {
        assert draws[i] in draws;
        done := OneDraw(typ0, typ1, draws[i], at);
        if done {
          DrawnLonger(was, list, typ0, typ1, at);
          return;
        }
      }
      done := false;
    }

    /** Try to place an end; one too far from the start is not counted. */
    method AddEnd(at: Spot, isPending: bool)
      requires Valid() && at.facing < 4 && 0 <= at.depth <= 31
      requires isPending ==> !TooFar(list[0], at)
      modifies this
      ensures Valid() && extended == old(extended)
      ensures if isPending then Ended(old(list), list, at) else list == old(list)
      ensures Grown(old(list), list, old(pending), pending, at.depth, 1)
    {
      hide Sound, CountOf, LastType, Chain, Linked, Collide, Accounted, Grown;
      GrownByOne(list, pending, PieceAt(FORTRESS_END, at));
      var _ := AddFortressPiece(FORTRESS_END, at.x, at.y, at.z, at.depth, at.facing, isPending);
    }

    /** A drawn piece, or else an end. */
    method Fill(typ0: nat, typ1: nat, at: Spot)
      requires Valid() && typ0 <= typ1 <= FORTRESS_END && at.facing < 4 && 0 <= at.depth <= 31
      requires !TooFar(list[0], at)
      modifies this
      ensures Valid() && extended == old(extended)
      ensures Filled(old(list), list, typ0, typ1, at)
      ensures Grown(old(list), list, old(pending), pending, at.depth, 1)
    {
      hide Sound, CountOf, LastType, Chain, Linked, Collide, Accounted, Grown, Drawn, Ended, CapOpen, MayFail,
        OpenWeight, TooFar;
      var valid, total := AllowedWeight(typ0, typ1);
      if !(!valid || total <= 0 || at.depth > 30) {
        ghost var zeros: seq<nat> := [0, 0, 0, 0, 0];
        assert forall n :: n in zeros ==> n < total;
        var draws: seq<nat> :| |draws| == 5 && forall n :: n in draws ==> n < total;
        var done := DrawPiece(typ0, typ1, draws, at);
        if done {
          return;
        }
      }
      AddEnd(at, true);
    }

    /** Extend a piece in one direction. */
    method ExtendFortress(p: nat, offh: int, offv: int, turn: int, corridor: bool)
      requires Valid() && p < |list| && list[p].typ != FORTRESS_END && -1 <= turn <= 1
      requires Joined(list) && Fitting(list[p], offh, offv, turn)
      modifies this
      ensures Valid() && extended == old(extended) && Joined(list)
      ensures Extended(old(list), list, p, Exit(offh, offv, turn, corridor))
      ensures Grown(old(list), list, old(pending), pending, old(list)[p].depth + 1, 1)
    {
      SoundPiece(list, p);
      hide Sound, CountOf, LastType, Chain, Linked, Collide, Accounted, Grown, Filled, Joined, Fitting, SpotOf,
        TooFar, Shaped, Valid;
      ghost var was, e := list, Exit(offh, offv, turn, corridor);
      SpotDepth(list[p], offh, offv, turn);
      var at := SpotOf(list[p], offh, offv, turn);
      var typ0 := if corridor then CORRIDOR_STRAIGHT else BRIDGE_STRAIGHT;
      var typ1 := typ0 + if corridor then 7 else 6;
      if TooFar(list[0], at) {
        AddEnd(at, false);
        return;
      }
      Fill(typ0, typ1, at);
      ExtendedJoined(was, list, p, e);
    }

    /** Two directions, one after the other. */
    method ExtendTwo(p: nat, offh: int, offv: int, turn: int, corridor: bool,
                     offv2: int, turn2: int, corridor2: bool)
      requires Valid() && p < |list| && list[p].typ != FORTRESS_END && -1 <= turn <= 1 && -1 <= turn2 <= 1
      requires Joined(list) && Fitting(list[p], offh, offv, turn) && Fitting(list[p], offh, offv2, turn2)
      modifies this
      ensures Valid() && extended == old(extended) && Joined(list)
      ensures Chained(old(list), list, p, [Exit(offh, offv, turn, corridor), Exit(offh, offv2, turn2, corridor2)])
      ensures Grown(old(list), list, old(pending), pending, old(list)[p].depth + 1, 2)
    {
      hide Sound, CountOf, LastType, Chain, Linked, Collide, Accounted, Joined, Fitting, Extended, Chained;
      ExtendFortress(p, offh, offv, turn, corridor);
      ghost var l1, p1 := list, pending;
      assert l1[p] == l1[..|old(list)|][p] == old(list)[p];
      ExtendFortress(p, offh, offv2, turn2, corridor2);
      GrownTwice(old(list), l1, list, old(pending), p1, pending, l1[p].depth + 1, 1, 1);
      ChainOne(l1, list, p, Exit(offh, offv2, turn2, corridor2));
      ChainMore(old(list), l1, list, p, Exit(offh, offv, turn, corridor), [Exit(offh, offv2, turn2, corridor2)]);
      assert [Exit(offh, offv, turn, corridor)] + [Exit(offh, offv2, turn2, corridor2)]
          == [Exit(offh, offv, turn, corridor), Exit(offh, offv2, turn2, corridor2)];
    }

    /** Ahead, to the left and to the right. */
    method ExtendCrossing(p: nat, offh: int, offv: int, corridor: bool)
      requires Valid() && p < |list| && list[p].typ != FORTRESS_END
      requires Joined(list) && Fitting(list[p], offh, offv, 0)
      requires Fitting(list[p], offh, offv, 1) && Fitting(list[p], offh, offv, -1)
      modifies this
      ensures Valid() && extended == old(extended) && Joined(list)
      ensures Chained(old(list), list, p,
                      [Exit(offh, offv, 0, corridor), Exit(offh, offv, -1, corridor), Exit(offh, offv, 1, corridor)])
      ensures Grown(old(list), list, old(pending), pending, old(list)[p].depth + 1, 3)
    {
      hide Sound, CountOf, LastType, Chain, Linked, Collide, Accounted, Joined, Fitting, Extended, Chained;
      ExtendFortress(p, offh, offv, 0, corridor);
      ghost var l1, p1 := list, pending;
      assert l1[p] == l1[..|old(list)|][p] == old(list)[p];
      ExtendTwo(p, offh, offv, -1, corridor, offv, 1, corridor);
      GrownTwice(old(list), l1, list, old(pending), p1, pending, l1[p].depth + 1, 1, 2);
      ghost var sides := [Exit(offh, offv, -1, corridor), Exit(offh, offv, 1, corridor)];
      ChainMore(old(list), l1, list, p, Exit(offh, offv, 0, corridor), sides);
      assert [Exit(offh, offv, 0, corridor)] + sides
          == [Exit(offh, offv, 0, corridor), Exit(offh, offv, -1, corridor), Exit(offh, offv, 1, corridor)];
    }

    /** What each type of piece leads to: at most three pieces, one deeper than itself. */
    method ExtendFortressPiece(p: nat)
      requires Valid() && p < |list| && Joined(list)
      modifies this
      ensures Valid() && extended == old(extended) && Joined(list)
      ensures Followed(old(list), list, p)
      ensures Grown(old(list), list, old(pending), pending, old(list)[p].depth + 1, 3)
    {
      hide Sound, CountOf, LastType, Chain, Linked, Collide, Accounted, Joined, Extended, Chained, Followed;
      ShapedIn(list, p);
      var typ, rot := list[p].typ, list[p].rot;
      ghost var was := list;
      if typ == BRIDGE_STRAIGHT {
        ExtendFortress(p, 1, 3, 0, false);
        ChainOne(was, list, p, Exit(1, 3, 0, false));
      } else if typ == BRIDGE_CROSSING || typ == FORTRESS_START {
        ExtendCrossing(p, 8, 3, false);
      } else if typ == BRIDGE_FORTIFIED_CROSSING {
        ExtendCrossing(p, 2, 0, false);
      } else if typ == BRIDGE_STAIRS {
        ExtendFortress(p, 2, 6, 1, false);
        ChainOne(was, list, p, Exit(2, 6, 1, false));
      } else if typ == BRIDGE_CORRIDOR_ENTRANCE {
        ExtendFortress(p, 5, 3, 0, true);
        ChainOne(was, list, p, Exit(5, 3, 0, true));
      } else if typ == CORRIDOR_STRAIGHT {
        ExtendFortress(p, 1, 0, 0, true);
        ChainOne(was, list, p, Exit(1, 0, 0, true));
      } else if typ == CORRIDOR_CROSSING {
        ExtendCrossing(p, 1, 0, true);
      } else if typ == CORRIDOR_TURN_RIGHT {
        ExtendFortress(p, 1, 0, 1, true);
        ChainOne(was, list, p, Exit(1, 0, 1, true));
      } else if typ == CORRIDOR_TURN_LEFT {
        ExtendFortress(p, 1, 0, -1, true);
        ChainOne(was, list, p, Exit(1, 0, -1, true));
      } else if typ == CORRIDOR_STAIRS {
        ExtendFortress(p, 1, 0, 0, true);
        ChainOne(was, list, p, Exit(1, 0, 0, true));
      } else if typ == CORRIDOR_T_CROSSING {
        var h := if rot == 0 || rot == 3 then 5 else 1;
        var left: nat :| left < 8;
        var right: nat :| right < 8;
        ExtendTwo(p, h, 0, -1, left != 0, 0, 1, right != 0);
        FollowedBy(was, list, p, left != 0, right != 0);
        return;
      } else if typ == CORRIDOR_NETHER_WART {
        ExtendTwo(p, 5, 3, 0, true, 11, 0, true);
      } else {
        NoExits(was, p);
      }
      FollowedBy(was, list, p, false, false);
    }

    /** Take the `i`th pending piece off the chain. */
    method Unlink(i: nat) returns (q: nat)
      requires Valid() && i < |pending|
      modifies this
      ensures Valid() && q == old(pending)[i] && list == old(list)
      ensures pending == old(pending)[..i] + old(pending)[i + 1..]
      ensures extended == old(extended) + [q] && q !in old(extended)
    {
      hide Sound, CountOf, LastType, Collide;
      var p := 0;
      assert Linked(next, pending, 0);
      q := next[0];
      var k := i;
      while k > 0
        invariant 0 <= k <= i && q == pending[i - k] && p == if k == i then 0 else pending[i - k - 1]
      {
        assert Linked(next, pending, i - k);
        p := q;
        q := next[q];
        k := k - 1;
      }
      ChainRemove(next, pending, i);
      AccountMove(|list|, pending, extended, i);
      next := next[p := next[q]][q := -1];
      extended := extended + [q];
      pending := pending[..i] + pending[i + 1..];
    }

    /** The length of the chain. */
    method ChainLength() returns (len: nat)
      requires Chain(next, pending)
      ensures len == |pending|
    {
      len := 0;
      var q := 0;
      while next[q] != -1
        invariant len <= |pending| && q < |next| && q == if len == 0 then 0 else pending[len - 1]
        decreases |pending| - len
      {
        assert len > 0 ==> Linked(next, pending, len - 1);
        q := next[q];
        len := len + 1;
      }
      assert len > 0 ==> Linked(next, pending, len - 1);
    }
  }

  /** An extended piece leaves the pending ones for the extended ones. */
  lemma {:induction false} AccountMove(n: nat, pending: seq<nat>, extended: seq<nat>, i: nat)
    requires Accounted(n, pending, extended) && i < |pending| && pending[i] < n
    requires forall j, k :: 0 <= j < k < |pending| ==> pending[j] != pending[k]
    ensures Accounted(n, pending[..i] + pending[i + 1..], extended + [pending[i]])
    ensures pending[i] !in extended
  {
    var rest := pending[..i] + pending[i + 1..];
    assert pending[i] in pending;
    forall j: nat | j < n ensures j in rest || j in extended + [pending[i]] {
      if j in pending && j != pending[i] {
        var k :| 0 <= k < |pending| && pending[k] == j;
        assert rest[if k < i then k else k - 1] == j;
      }
    }
    forall j: nat | j in rest ensures j in pending && j != pending[i] {
      var k :| 0 <= k < |rest| && rest[k] == j;
      assert j == pending[if k < i then k else k + 1];
    }
  }

  /** The whole run, for every sequence of draws: it ends, and then every counted piece has
      been extended exactly once. */
  method GetFortressPieces(chunkX: int, chunkZ: int) returns (env: PieceEnv, count: nat)
    ensures fresh(env) && env.Valid() && count == |env.list| && Joined(env.list)
    ensures env.pending == [] && env.next[0] == -1
    ensures forall i: nat :: i < count <==> i in env.extended
    ensures forall j, k :: 0 <= j < k < |env.extended| ==> env.extended[j] != env.extended[k]
    ensures exists lists, rot: nat ::
      rot < 4 && Run(lists, env.extended, chunkX, chunkZ, rot) && lists[|env.extended|] == env.list
  {
    hide Sound, CountOf, LastType, Collide, Weight, Grown, Linked, Joined, Run, Followed, StartPiece;
    var rot: nat :| rot < 4;
    env := new PieceEnv(chunkX, chunkZ, rot);
    ghost var start := env.list;
    env.ExtendFortressPiece(0);
    ghost var lists := [start, env.list];
    RunStart(start, env.list, chunkX, chunkZ, rot);
    WorkBound(env.next, env.pending);
    while env.next[0] != -1
      invariant fresh(env) && env.Valid() && Joined(env.list)
      invariant forall k :: 0 <= k < |env.pending| ==> env.pending[k] < |env.list|
      invariant Run(lists, env.extended, chunkX, chunkZ, rot) && |lists| == |env.extended| + 1
      invariant lists[|env.extended|] == env.list
      decreases Weight(env.list, env.pending)
    {
      ghost var l0, before, done := env.list, env.pending, env.extended;
      var len := env.ChainLength();
      var i: nat :| i < len;
      var q := env.Unlink(i);
      ghost var p0 := env.pending;
      SoundPiece(l0, q);
      env.ExtendFortressPiece(q);
      RunOn(lists, done, chunkX, chunkZ, rot, q, env.list);
      lists := lists + [env.list];
      WorkDone(l0, env.list, before, i, p0, env.pending);
    }
    count := |env.list|;
  }

  lemma {:induction false} RunStart(l0: seq<Piece>, l1: seq<Piece>, chunkX: int, chunkZ: int, rot: nat)
    requires l0 == [StartPiece(chunkX, chunkZ, rot)] && Followed(l0, l1, 0)
    ensures Run([l0, l1], [0], chunkX, chunkZ, rot)
  {
    hide Followed, StartPiece;
  }

  lemma WorkBound(next: seq<int>, pending: seq<nat>)
    requires Chain(next, pending)
    ensures forall k :: 0 <= k < |pending| ==> pending[k] < |next|
  {
  }

  lemma SoundPiece(ps: seq<Piece>, p: nat)
    requires Sound(ps) && p < |ps|
    ensures |ps| > 0 && ps[p].rot < 4 && ps[p].typ < TYPES
    ensures 0 <= ps[p].depth <= if ps[p].typ == FORTRESS_END then 31 else 30
  {
  }

  /** Where the next piece goes, and which way it faces: ahead, to the left or to the right. */
  function Anchor(p: Piece, offh: int, turn: int): (r: (int, int, nat))
    requires p.rot < 4
    ensures r.2 < 4
  {
    if turn == 0 then
      if p.rot == 0 then (p.bb0.x + offh, p.bb0.z - 1, 0)
      else if p.rot == 1 then (p.bb1.x + 1, p.bb0.z + offh, 1)
      else if p.rot == 2 then (p.bb0.x + offh, p.bb1.z + 1, 2)
      else (p.bb0.x - 1, p.bb0.z + offh, 3)
    else if turn == -1 then
      if p.rot % 2 == 1 then (p.bb0.x + offh, p.bb0.z - 1, 0) else (p.bb0.x - 1, p.bb0.z + offh, 3)
    else
      if p.rot % 2 == 1 then (p.bb0.x + offh, p.bb1.z + 1, 2) else (p.bb1.x + 1, p.bb0.z + offh, 1)
  }

  lemma {:induction false} CountAppend(ps: seq<Piece>, p: Piece)
    ensures forall t: nat :: CountOf(ps + [p], t) == CountOf(ps, t) + if p.typ == t then 1 else 0
    ensures LastType(ps + [p]) == if p.typ != FORTRESS_END then p.typ else LastType(ps)
  {
    assert (ps + [p])[..|ps|] == ps;
  }
}
