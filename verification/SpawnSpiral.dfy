/** The spiral over chunks in which the spawn search looks for land (getSpawn in finders.c). */
module SpawnSpiral {
  import opened Common

  /** The place and heading of the walk, before the turn of the current step. */
  datatype Walk = Walk(j: int, k: int, u: int, v: int) {
    predicate AtCorner() { j == k || (j < 0 && j == -k) || (j > 0 && j == 1 - k) }

    function Next(): Walk {
      if AtCorner() then Walk(j - v, k + u, -v, u) else Walk(j + u, k + v, u, v)
    }
  }

  const START := Walk(0, 0, 0, -1)

  function Walked(i: nat): Walk
  {
    if i == 0 then START else Walked(i - 1).Next()
  }

  function Abs(a: int): nat { if a < 0 then 0 - a else a }

  /** The distance of a chunk from the centre, in the maximum norm. */
  function Ring(j: int, k: int): int { Max(Abs(j), Abs(k)) }

  /** The number of chunks in the rings before r. */
  function Inside(r: int): nat
  {
    if r <= 0 then 0 else if r == 1 then 1 else Inside(r - 1) + 8 * (r - 1)
  }

  /** The turn of a chunk: its ring begins beside the lower right corner and runs up the right
      side, along the top, down the left side and along the bottom. */
  function Turn(j: int, k: int): (i: int)
  {
    var r := Ring(j, k);
    if r == 0 then 0
    else if j == r && k > -r then Inside(r) + (k + r - 1)
    else if k == r then Inside(r) + 2 * r - 1 + (r - j)
    else if j == -r then Inside(r) + 4 * r - 1 + (r - k)
    else Inside(r) + 6 * r - 1 + (j + r)
  }

  /** The walk that stands at a chunk on its turn. */
  function Standing(j: int, k: int): Walk
  {
    var r := Ring(j, k);
    if r == 0 then START
    else if j == r && k > 1 - r then Walk(j, k, 0, 1)
    else if j == r && k == 1 - r then Walk(j, k, 1, 0)
    else if k == r then Walk(j, k, -1, 0)
    else if j == -r then Walk(j, k, 0, -1)
    else Walk(j, k, 1, 0)
  }

  lemma {:induction false} StepsToNext(j: int, k: int)
    ensures var n := Standing(j, k).Next(); n == Standing(n.j, n.k) && Turn(n.j, n.k) == Turn(j, k) + 1
  {
    hide Standing, Turn, Walk.Next;
    var j', k' := Leading(j, k);
    Stands(j', k');
  }

  lemma Stands(j: int, k: int)
    ensures Standing(j, k).j == j && Standing(j, k).k == k
  {
  }

  lemma Leading(j: int, k: int) returns (j': int, k': int)
    ensures Leads(j, k, j', k')
  {
    hide Leads;
    var r := Ring(j, k);
    if r == 0 {
      j', k' := 1, 0;
      FromCentre();
    } else if j == r && -r < k < r {
      j', k' := j, k + 1;
      UpRight(j, k, r);
    } else if k == r && j > -r {
      j', k' := j - 1, k;
      AlongTop(j, k, r);
    } else if j == -r && k > -r {
      j', k' := j, k - 1;
      DownLeft(j, k, r);
    } else {
      j', k' := j + 1, k;
      AlongBottom(j, k, r);
    }
  }

  predicate Leads(j: int, k: int, j': int, k': int)
  {
    Standing(j, k).Next() == Standing(j', k') && Turn(j', k') == Turn(j, k) + 1
  }

  lemma FromCentre()
    ensures Leads(0, 0, 1, 0)
  {
    InsideNext(0);
  }

  lemma UpRight(j: int, k: int, r: int)
    requires r == Ring(j, k) && j == r && -r < k < r
    ensures Leads(j, k, j, k + 1)
  {
    hide Inside;
  }

  lemma AlongTop(j: int, k: int, r: int)
    requires r == Ring(j, k) && k == r && j > -r
    ensures Leads(j, k, j - 1, k)
  {
    hide Inside;
  }

  lemma DownLeft(j: int, k: int, r: int)
    requires r == Ring(j, k) && r > 0 && j == -r && k > -r
    ensures Leads(j, k, j, k - 1)
  {
    hide Inside;
  }

  /** The last chunk of a ring leads into the next ring. */
  lemma AlongBottom(j: int, k: int, r: int)
    requires r == Ring(j, k) && r > 0 && k == -r
    ensures Leads(j, k, j + 1, k)
  {
    hide Inside;
    InsideNext(r);
  }

  lemma InsideNext(r: int)
    ensures Inside(0) == 0 && Inside(1) == 1 && (r >= 1 ==> Inside(r + 1) == Inside(r) + 8 * r)
  {
  }

  /** The walk reaches each chunk at its turn. */
  lemma {:induction false} WalkKeepsTurn(i: nat)
    ensures var w := Walked(i); w == Standing(w.j, w.k) && Turn(w.j, w.k) == i
  {
    hide Standing, Turn, Walk.Next;
    if i == 0 {
      AtStart();
    } else {
      WalkKeepsTurn(i - 1);
      StepsToNext(Walked(i - 1).j, Walked(i - 1).k);
    }
  }

  lemma AtStart()
    ensures Standing(0, 0) == START && Turn(0, 0) == 0
  {
  }

  lemma {:induction false} InsideGrows(a: int, b: int)
    requires a <= b
    ensures Inside(a) <= Inside(b)
    decreases b - a
  {
    if a < b { InsideGrows(a, b - 1); }
  }

  lemma {:induction false} TurnInRing(j: int, k: int)
    ensures Inside(Ring(j, k)) <= Turn(j, k) < Inside(Ring(j, k) + 1)
  {
    hide Inside;
    InsideNext(Ring(j, k));
  }

  lemma {:induction false} TurnsDiffer(j: int, k: int, j': int, k': int)
    requires Turn(j, k) == Turn(j', k')
    ensures j == j' && k == k'
  {
    TurnInRing(j, k);
    TurnInRing(j', k');
    var r, r' := Ring(j, k), Ring(j', k');
    if r < r' { InsideGrows(r + 1, r'); }
    if r' < r { InsideGrows(r' + 1, r); }
    SameRing(j, k, j', k');
  }

  lemma {:induction false} SameRing(j: int, k: int, j': int, k': int)
    requires Turn(j, k) == Turn(j', k') && Ring(j, k) == Ring(j', k')
    ensures j == j' && k == k'
  {
  }

  /** A chunk is met at its own turn and at no other. */
  lemma {:induction false} MetOnce(i: nat, j: int, k: int)
    ensures Walked(i).j == j && Walked(i).k == k <==> Turn(j, k) == i
  {
    hide Turn, Walked, Standing;
    WalkKeepsTurn(i);
    if Turn(j, k) == i { TurnsDiffer(j, k, Walked(i).j, Walked(i).k); }
  }

  lemma {:induction false} InsideIsSquare(r: int)
    ensures r > 0 ==> Inside(r) == (2 * r - 1) * (2 * r - 1)
  {
    if r > 1 { InsideIsSquare(r - 1); }
  }

  /** The even square (-n,n] x (-n,n], or the odd one [-n,n] x [-n,n]. */
  predicate InSquare(n: int, even: bool, j: int, k: int)
  {
    if even then -n < j <= n && -n < k <= n else -n <= j <= n && -n <= k <= n
  }

  function Size(n: nat, even: bool): nat
  {
    if even then (2 * n) * (2 * n) else (2 * n + 1) * (2 * n + 1)
  }

  lemma {:induction false} SquareByTurn(n: nat, even: bool, j: int, k: int)
    ensures InSquare(n, even, j, k) <==> Turn(j, k) < Size(n, even)
  {
    hide Turn, Inside;
    TurnInRing(j, k);
    InsideIsSquare(n);
    InsideIsSquare(n + 1);
    var r := Ring(j, k);
    if r < n { InsideGrows(r + 1, n); }
    if r > n { InsideGrows(n + 1, r); }
    if r == n && n > 0 { EvenPart(n, j, k); }
    if n == 0 { OnlyCentre(j, k); }
    assert (2 * n) * (2 * n) == (2 * n - 1) * (2 * n - 1) + 4 * n - 1;
  }

  lemma {:induction false} EvenPart(n: int, j: int, k: int)
    requires Ring(j, k) == n && n > 0
    ensures Turn(j, k) < Inside(n) + 4 * n - 1 <==> -n < j && -n < k
  {
  }

  lemma OnlyCentre(j: int, k: int)
    ensures Turn(j, k) >= 0 && (Turn(j, k) < 1 <==> j == 0 && k == 0)
  {
    TurnInRing(j, k);
    if Ring(j, k) > 0 { InsideGrows(1, Ring(j, k)); }
  }

  /** The first (2n)^2 places of the walk are exactly the even square and the first (2n+1)^2
      exactly the odd one, and no chunk comes twice. */
  lemma {:induction false} SpiralFillsSquares(n: nat, even: bool, j: int, k: int)
    ensures InSquare(n, even, j, k) <==> exists i: nat :: i < Size(n, even) && Walked(i).j == j && Walked(i).k == k
    ensures forall i: nat, i': nat :: Walked(i).j == Walked(i').j && Walked(i).k == Walked(i').k ==> i == i'
  {
    hide Turn, Walked, InSquare;
    SquareByTurn(n, even, j, k);
    TurnInRing(j, k);
    var t: nat := Turn(j, k);
    MetOnce(t, j, k);
    forall i: nat | Walked(i).j == j && Walked(i).k == k
      ensures t == i
    {
      MetOnce(i, j, k);
    }
    forall i: nat, i': nat | Walked(i).j == Walked(i').j && Walked(i).k == Walked(i').k
      ensures i == i'
    {
      WalkKeepsTurn(i);
      WalkKeepsTurn(i');
    }
  }

  datatype Found = NoChunk | Chunk(j: int, k: int)

  ghost predicate NoneGood(n: int, even: bool, good: (int, int) -> bool)
  {
    forall j, k :: InSquare(n, even, j, k) ==> !good(j, k)
  }

  /** No good chunk of the square has a turn before i. */
  ghost predicate FirstOf(n: int, even: bool, good: (int, int) -> bool, i: int)
  {
    forall j, k :: InSquare(n, even, j, k) && good(j, k) ==> i <= Turn(j, k)
  }

  /** Among the chunks of the square that are good, the one of the first turn. */
  ghost predicate FirstGood(n: nat, even: bool, good: (int, int) -> bool, r: Found)
  {
    match r
    case NoChunk => NoneGood(n, even, good)
    case Chunk(x, z) => InSquare(n, even, x, z) && good(x, z) && FirstOf(n, even, good, Turn(x, z))
  }

  /** The search of getSpawn: `good` says whether a chunk offers a spawn point. */
  method SearchSquare(n: nat, even: bool, good: (int, int) -> bool) returns (r: Found)
    ensures FirstGood(n, even, good, r)
  {
    hide InSquare, Size, Standing, Turn, Walk.Next, FirstOf, NoneGood;
    var w := START;
    AtStart();
    NoneBefore(n, even, good);
    var i: nat := 0;
    while i < Size(n, even)
      invariant i <= Size(n, even) && w == Standing(w.j, w.k) && Turn(w.j, w.k) == i
      invariant FirstOf(n, even, good, i)
    {
      SquareByTurn(n, even, w.j, w.k);
      if InSquare(n, even, w.j, w.k) {
        if good(w.j, w.k) {
          return Chunk(w.j, w.k);
        }
      }
      NoneAt(n, even, good, w.j, w.k);
      StepsToNext(w.j, w.k);
      w := w.Next();
      i := i + 1;
    }
    NoneLeft(n, even, good, i);
    return NoChunk;
  }

  lemma {:induction false} NoneBefore(n: int, even: bool, good: (int, int) -> bool)
    ensures FirstOf(n, even, good, 0)
  {
    hide Turn;
    forall j, k | InSquare(n, even, j, k) && good(j, k)
      ensures 0 <= Turn(j, k)
    {
      TurnInRing(j, k);
    }
  }

  lemma {:induction false} NoneAt(n: int, even: bool, good: (int, int) -> bool, x: int, z: int)
    requires FirstOf(n, even, good, Turn(x, z)) && !(InSquare(n, even, x, z) && good(x, z))
    ensures FirstOf(n, even, good, Turn(x, z) + 1)
  {
    hide Turn;
    forall j, k | InSquare(n, even, j, k) && good(j, k)
      ensures Turn(x, z) + 1 <= Turn(j, k)
    {
      if Turn(j, k) == Turn(x, z) { TurnsDiffer(j, k, x, z); }
    }
  }

  lemma {:induction false} NoneLeft(n: nat, even: bool, good: (int, int) -> bool, i: int)
    requires FirstOf(n, even, good, i) && Size(n, even) <= i
    ensures NoneGood(n, even, good)
  {
    hide Turn, InSquare, Size;
    forall j, k | InSquare(n, even, j, k)
      ensures !good(j, k)
    {
      SquareByTurn(n, even, j, k);
    }
  }

  /** Up to 1.17 the search covers (-16,16] x (-16,16], in 1024 turns. */
  method SpawnChunkTo117(good: (int, int) -> bool) returns (r: Found)
    ensures FirstGood(16, true, good, r)
  {
    assert Size(16, true) == 1024;
    r := SearchSquare(16, true, good);
  }

  /** From 1.18 on it covers [-5,5] x [-5,5], in 121 turns. */
  method SpawnChunkFrom118(good: (int, int) -> bool) returns (r: Found)
    ensures FirstGood(5, false, good, r)
  {
    assert Size(5, false) == 121;
    r := SearchSquare(5, false, good);
  }
}
