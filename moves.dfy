/** Applying one move to a board: the one-step diagonal move, the walk along
    a list of captures, and the board rebuilt after the captures. The check
    for further captures that completes a jump move is in module Rules. */
module Moves {
  import opened Checkerboard

  /** The outcome of applying a move: the new board, or one of the two
      errors the source raises as exceptions. */
  datatype MoveResult = Moved(board: Board) | InvalidMove | MoreJumpsRequired

  /** One diagonal unit step of `p` from `l` in direction `d`. */
  function Step(l: Location, d: MoveDir, p: Player): Location
  {
    Loc(l.x + Dx(d), l.y + Forward(p))
  }

  /** A one-square diagonal advance. The origin is not checked. */
  function DoSimpleMove(d: MoveDir, origin: Location, p: Player, b: Board): (r: MoveResult)
    ensures !r.MoreJumpsRequired?
    ensures r.InvalidMove? <==> !SquareIs(Step(origin, d, p), Square.Empty, b)
    ensures r.Moved? ==>
      && At(r.board, Step(origin, d, p)) == MySquare(p)
      && (InBounds(origin) ==> At(r.board, origin) == Square.Empty)
      && forall l :: InBounds(l) && l != Step(origin, d, p) && l != origin ==> At(r.board, l) == At(b, l)
  {
    var target := Step(origin, d, p);
    if !SquareIs(target, Square.Empty, b) then InvalidMove
    else
      Moved(NextBoard((x: int, y: int) requires 0 <= x < 8 && 0 <= y < 8 =>
        if x == target.x && y == target.y then MySquare(p)
        else if x == origin.x && y == origin.y then Square.Empty
        else b[y][x], b))
  }

  /** One square after a simple move by the man at `origin`: it holds the
      mover's man when it is the target or held one other than the origin,
      and an enemy man exactly when it held one. */
  lemma SteppedSquare(d: MoveDir, origin: Location, p: Player, b: Board, l: Location)
    requires InBounds(origin) && At(b, origin) == MySquare(p)
    requires DoSimpleMove(d, origin, p, b).Moved?
    ensures var nb := DoSimpleMove(d, origin, p, b).board;
      && (l in PieceSet(nb, MySquare(p)) <==> l == Step(origin, d, p) || (l in PieceSet(b, MySquare(p)) && l != origin))
      && (l in PieceSet(nb, MySquare(Enemy(p))) <==> l in PieceSet(b, MySquare(Enemy(p))))
  {
    PlayerSquares(p);
  }

  /** A simple move by one of the mover's men keeps both sides' counts. */
  lemma SimpleMoveCounts(d: MoveDir, origin: Location, p: Player, b: Board)
    requires InBounds(origin) && At(b, origin) == MySquare(p)
    requires DoSimpleMove(d, origin, p, b).Moved?
    ensures var nb := DoSimpleMove(d, origin, p, b).board;
      && Count(nb, MySquare(p)) == Count(b, MySquare(p))
      && EnemyCount(nb, p) == EnemyCount(b, p)
  {
    var nb := DoSimpleMove(d, origin, p, b).board;
    var m := MySquare(p);
    var target := Step(origin, d, p);
    PlayerSquares(p);
    forall l
      ensures l in PieceSet(nb, m) <==> l in (PieceSet(b, m) - {origin}) + {target}
      ensures l in PieceSet(nb, MySquare(Enemy(p))) <==> l in PieceSet(b, MySquare(Enemy(p)))
    {
      SteppedSquare(d, origin, p, b, l);
    }
    assert PieceSet(nb, m) == (PieceSet(b, m) - {origin}) + {target};
    assert PieceSet(nb, MySquare(Enemy(p))) == PieceSet(b, MySquare(Enemy(p)));
    SwapCount(PieceSet(b, m), origin, target);
  }

  /** A simple move by a man on a dark square keeps every light square empty. */
  lemma SimpleMoveDarkSquares(d: MoveDir, origin: Location, p: Player, b: Board)
    requires DarkSquaresOnly(b)
    requires InBounds(origin) && At(b, origin) == MySquare(p)
    requires DoSimpleMove(d, origin, p, b).Moved?
    ensures DarkSquaresOnly(DoSimpleMove(d, origin, p, b).board)
  {
    var nb := DoSimpleMove(d, origin, p, b).board;
    var target := Step(origin, d, p);
    PlayerSquares(p);
    assert (origin.x + origin.y) % 2 == 1;
    assert (target.x + target.y) % 2 == 1;
    forall x, y | 0 <= x < 8 && 0 <= y < 8 && (x + y) % 2 == 0 ensures nb[y][x] == Square.Empty {
      assert At(nb, Loc(x, y)) == At(b, Loc(x, y));
    }
  }

  /** Where a walk along a list of captures ends, and the squares it jumped
      over, in order. */
  datatype Hops = Hops(landing: Location, captured: seq<Location>)

  /** The capture loop: each hop must jump over an enemy man onto an empty
      square, both judged on the input board `b`. None when a hop fails. */
  function HopWalk(jumps: seq<MoveDir>, origin: Location, p: Player, b: Board): Option<Hops>
  {
    if jumps == [] then Some(Hops(origin, []))
    else match HopWalk(jumps[..|jumps| - 1], origin, p, b)
      case None => None
      case Some(h) =>
        var d := jumps[|jumps| - 1];
        var enemyAt := Step(h.landing, d, p);
        var landing := Step(enemyAt, d, p);
        if !SquareIs(enemyAt, MySquare(Enemy(p)), b) then None
        else if !SquareIs(landing, Square.Empty, b) then None
        else Some(Hops(landing, h.captured + [enemyAt]))
  }

  /** The sum of the horizontal unit steps of `jumps`. */
  function XShift(jumps: seq<MoveDir>): int
  {
    if jumps == [] then 0 else XShift(jumps[..|jumps| - 1]) + Dx(jumps[|jumps| - 1])
  }

  /** The square reached after the first `k` hops of `jumps`. */
  function LandingAfter(origin: Location, p: Player, jumps: seq<MoveDir>, k: nat): Location
    requires k <= |jumps|
  {
    Loc(origin.x + 2 * XShift(jumps[..k]), RowAhead(origin.y, p, 2 * k))
  }

  /** The square jumped over by hop `i` of `jumps`. */
  function CapturedAt(origin: Location, p: Player, jumps: seq<MoveDir>, i: nat): Location
    requires i < |jumps|
  {
    Loc(origin.x + 2 * XShift(jumps[..i]) + Dx(jumps[i]), RowAhead(origin.y, p, 2 * i + 1))
  }

  /** Hop `i` of `jumps` jumps an enemy man onto an empty square of `b`. */
  predicate HopLegal(jumps: seq<MoveDir>, origin: Location, p: Player, b: Board, i: nat)
    requires i < |jumps|
  {
    && SquareIs(CapturedAt(origin, p, jumps, i), MySquare(Enemy(p)), b)
    && SquareIs(LandingAfter(origin, p, jumps, i + 1), Square.Empty, b)
  }

  /** Every hop of `jumps` is legal on `b`. */
  predicate HopsLegal(jumps: seq<MoveDir>, origin: Location, p: Player, b: Board)
  {
    forall i :: 0 <= i < |jumps| ==> HopLegal(jumps, origin, p, b, i)
  }

  /** The hop loop agrees with the closed-form geometry of a capture list. */
  lemma HopWalkGeometry(jumps: seq<MoveDir>, origin: Location, p: Player, b: Board)
    ensures HopWalk(jumps, origin, p, b).Some? <==> HopsLegal(jumps, origin, p, b)
    ensures HopWalk(jumps, origin, p, b).Some? ==>
      var h := HopWalk(jumps, origin, p, b).value;
      && h.landing == LandingAfter(origin, p, jumps, |jumps|)
      && |h.captured| == |jumps|
      && forall i :: 0 <= i < |jumps| ==> h.captured[i] == CapturedAt(origin, p, jumps, i)
  {
    HopWalkLanding(jumps, origin, p, b);
    HopWalkCaptured(jumps, origin, p, b);
  }

  /** The hop loop succeeds exactly on legal lists and lands where the
      closed form says. */
  lemma {:induction false} HopWalkLanding(jumps: seq<MoveDir>, origin: Location, p: Player, b: Board)
    ensures HopWalk(jumps, origin, p, b).Some? <==> HopsLegal(jumps, origin, p, b)
    ensures HopWalk(jumps, origin, p, b).Some? ==>
      HopWalk(jumps, origin, p, b).value.landing == LandingAfter(origin, p, jumps, |jumps|)
    decreases |jumps|
  {
    if jumps == [] {
      assert jumps[..0] == [];
    } else {
      var n := |jumps|;
      var init := jumps[..n - 1];
      var d := jumps[n - 1];
      HopWalkLanding(init, origin, p, b);
      HopsLegalLast(jumps, origin, p, b);
      if HopWalk(init, origin, p, b).Some? {
        LandingPrefix(jumps, n - 1, origin, p);
        LastHopGeometry(jumps, origin, p);
      }
    }
  }

  /** The hop loop records the jumped squares in the order of the hops. */
  lemma {:induction false} HopWalkCaptured(jumps: seq<MoveDir>, origin: Location, p: Player, b: Board)
    ensures HopWalk(jumps, origin, p, b).Some? ==>
      var h := HopWalk(jumps, origin, p, b).value;
      && |h.captured| == |jumps|
      && forall i :: 0 <= i < |jumps| ==> h.captured[i] == CapturedAt(origin, p, jumps, i)
    decreases |jumps|
  {
    if jumps != [] && HopWalk(jumps, origin, p, b).Some? {
      var n := |jumps|;
      var init := jumps[..n - 1];
      var d := jumps[n - 1];
      HopWalkCaptured(init, origin, p, b);
      HopWalkLanding(init, origin, p, b);
      var h := HopWalk(init, origin, p, b).value;
      var captured := HopWalk(jumps, origin, p, b).value.captured;
      assert captured == h.captured + [Step(h.landing, d, p)];
      LandingPrefix(jumps, n - 1, origin, p);
      LastHopGeometry(jumps, origin, p);
      forall i | 0 <= i < n - 1 ensures captured[i] == CapturedAt(origin, p, jumps, i) {
        PrefixHop(jumps, n - 1, i, origin, p);
      }
    }
  }

  /** The last hop of a list starts where the list passes after all but
      one hop. */
  lemma LastHopGeometry(jumps: seq<MoveDir>, origin: Location, p: Player)
    requires jumps != []
    ensures var n := |jumps|;
      var before := LandingAfter(origin, p, jumps, n - 1);
      && Step(before, jumps[n - 1], p) == CapturedAt(origin, p, jumps, n - 1)
      && Step(Step(before, jumps[n - 1], p), jumps[n - 1], p) == LandingAfter(origin, p, jumps, n)
  {
    var n := |jumps|;
    assert jumps[..n] == jumps;
    assert XShift(jumps) == XShift(jumps[..n - 1]) + Dx(jumps[n - 1]);
  }

  /** Cutting a capture list after `k` hops moves none of its first `k` hops. */
  lemma PrefixHop(jumps: seq<MoveDir>, k: nat, i: nat, origin: Location, p: Player)
    requires i < k <= |jumps|
    ensures CapturedAt(origin, p, jumps[..k], i) == CapturedAt(origin, p, jumps, i)
    ensures LandingAfter(origin, p, jumps[..k], i + 1) == LandingAfter(origin, p, jumps, i + 1)
  {
    assert jumps[..k][..i] == jumps[..i];
    assert jumps[..k][..i + 1] == jumps[..i + 1];
  }

  /** The first `k` hops of a list end where the list passes after `k` hops. */
  lemma LandingPrefix(jumps: seq<MoveDir>, k: nat, origin: Location, p: Player)
    requires k <= |jumps|
    ensures LandingAfter(origin, p, jumps[..k], k) == LandingAfter(origin, p, jumps, k)
  {
    assert jumps[..k][..k] == jumps[..k];
  }

  /** A non-empty list is legal exactly when all but its last hop are and
      the last hop is. */
  lemma HopsLegalLast(jumps: seq<MoveDir>, origin: Location, p: Player, b: Board)
    requires jumps != []
    ensures HopsLegal(jumps, origin, p, b) <==>
      HopsLegal(jumps[..|jumps| - 1], origin, p, b) && HopLegal(jumps, origin, p, b, |jumps| - 1)
  {
    var n := |jumps|;
    var init := jumps[..n - 1];
    forall i | 0 <= i < n - 1
      ensures HopLegal(init, origin, p, b, i) <==> HopLegal(jumps, origin, p, b, i)
    {
      PrefixHop(jumps, n - 1, i, origin, p);
    }
  }

  /** A prefix of a legal capture list is legal and ends where the longer
      list passes. */
  lemma HopWalkPrefix(jumps: seq<MoveDir>, k: nat, origin: Location, p: Player, b: Board)
    requires k <= |jumps|
    requires HopWalk(jumps, origin, p, b).Some?
    ensures HopWalk(jumps[..k], origin, p, b).Some?
    ensures HopWalk(jumps[..k], origin, p, b).value.landing == LandingAfter(origin, p, jumps, k)
  {
    HopWalkGeometry(jumps, origin, p, b);
    HopWalkGeometry(jumps[..k], origin, p, b);
    forall i | 0 <= i < k
      ensures HopLegal(jumps[..k], origin, p, b, i)
    {
      PrefixHop(jumps, k, i, origin, p);
      assert HopLegal(jumps, origin, p, b, i);
    }
    LandingPrefix(jumps, k, origin, p);
  }

  /** What a legal capture list implies about the squares it touches. */
  lemma HopFacts(jumps: seq<MoveDir>, origin: Location, p: Player, b: Board)
    requires HopWalk(jumps, origin, p, b).Some?
    ensures var h := HopWalk(jumps, origin, p, b).value;
      && |h.captured| == |jumps| <= 4
      && h.landing.y == RowAhead(origin.y, p, 2 * |jumps|)
      && (h.landing.x + h.landing.y) % 2 == (origin.x + origin.y) % 2
      && (jumps == [] ==> h.landing == origin)
      && (jumps != [] ==> InBounds(h.landing) && At(b, h.landing) == Square.Empty && h.landing != origin)
      && (forall i :: 0 <= i < |jumps| ==>
            && InBounds(h.captured[i]) && At(b, h.captured[i]) == MySquare(Enemy(p))
            && h.captured[i].y == RowAhead(origin.y, p, 2 * i + 1))
      && (forall i, j :: 0 <= i < j < |jumps| ==> h.captured[i] != h.captured[j])
      && h.landing !in h.captured && origin !in h.captured
  {
    HopLanding(jumps, origin, p, b);
    HopCaptures(jumps, origin, p, b);
    HopDistinct(jumps, origin, p, b);
  }

  /** Where a legal capture list ends. */
  lemma HopLanding(jumps: seq<MoveDir>, origin: Location, p: Player, b: Board)
    requires HopWalk(jumps, origin, p, b).Some?
    ensures var h := HopWalk(jumps, origin, p, b).value;
      && |h.captured| == |jumps|
      && h.landing.y == RowAhead(origin.y, p, 2 * |jumps|)
      && (h.landing.x + h.landing.y) % 2 == (origin.x + origin.y) % 2
      && (jumps == [] ==> h.landing == origin)
      && (jumps != [] ==> InBounds(h.landing) && At(b, h.landing) == Square.Empty && h.landing != origin)
  {
    HopWalkGeometry(jumps, origin, p, b);
    var n := |jumps|;
    var landing := LandingAfter(origin, p, jumps, n);
    var shift := XShift(jumps[..n]) + (if p.Red? then -n else n);
    assert landing.x + landing.y == origin.x + origin.y + 2 * shift;
    EvenShift(origin.x + origin.y, shift);
    if n > 0 {
      assert HopLegal(jumps, origin, p, b, n - 1);
    } else {
      assert jumps[..0] == [];
    }
  }

  lemma EvenShift(a: int, k: int)
    ensures (a + 2 * k) % 2 == a % 2
  {
  }

  /** The squares a legal capture list jumps over: on the board, each
      holding an enemy man, one per odd row offset; at most four fit. */
  lemma HopCaptures(jumps: seq<MoveDir>, origin: Location, p: Player, b: Board)
    requires HopWalk(jumps, origin, p, b).Some?
    ensures var h := HopWalk(jumps, origin, p, b).value;
      && |h.captured| == |jumps| <= 4
      && forall i :: 0 <= i < |jumps| ==>
           && InBounds(h.captured[i]) && At(b, h.captured[i]) == MySquare(Enemy(p))
           && h.captured[i].y == RowAhead(origin.y, p, 2 * i + 1)
  {
    HopWalkGeometry(jumps, origin, p, b);
    var h := HopWalk(jumps, origin, p, b).value;
    var n := |jumps|;
    forall i | 0 <= i < n
      ensures InBounds(h.captured[i]) && At(b, h.captured[i]) == MySquare(Enemy(p))
    {
      assert HopLegal(jumps, origin, p, b, i);
    }
    if n > 0 {
      assert InBounds(h.captured[0]) && InBounds(h.captured[n - 1]);
    }
  }

  /** A legal capture list jumps over distinct squares, none of them the
      origin or the landing square: their row offsets differ. */
  lemma HopDistinct(jumps: seq<MoveDir>, origin: Location, p: Player, b: Board)
    requires HopWalk(jumps, origin, p, b).Some?
    ensures var h := HopWalk(jumps, origin, p, b).value;
      && |h.captured| == |jumps|
      && (forall i, j :: 0 <= i < j < |jumps| ==> h.captured[i] != h.captured[j])
      && h.landing !in h.captured && origin !in h.captured
  {
    HopLanding(jumps, origin, p, b);
    HopCaptures(jumps, origin, p, b);
  }

  /** The board after the captures of `h`: the mover stands on the landing
      square, the origin and every jumped square are emptied. */
  function JumpedBoard(origin: Location, h: Hops, p: Player, b: Board): (r: Board)
    ensures forall l :: InBounds(l) ==>
      At(r, l) == (if l == h.landing then MySquare(p)
                   else if l == origin || l in h.captured then Square.Empty
                   else At(b, l))
  {
    NextBoard((x: int, y: int) requires 0 <= x < 8 && 0 <= y < 8 =>
      if x == h.landing.x && y == h.landing.y then MySquare(p)
      else if x == origin.x && y == origin.y then Square.Empty
      else if Loc(x, y) in h.captured then Square.Empty
      else b[y][x], b)
  }

  /** The board after a legal, non-empty capture list, in the closed-form
      geometry: the mover's man on the landing square, the origin and every
      jumped square emptied, every other square as it was. */
  lemma JumpedBoardGeometry(jumps: seq<MoveDir>, origin: Location, p: Player, b: Board)
    requires HopWalk(jumps, origin, p, b).Some?
    requires jumps != []
    ensures var nb := JumpedBoard(origin, HopWalk(jumps, origin, p, b).value, p, b);
      var landing := LandingAfter(origin, p, jumps, |jumps|);
      && InBounds(landing) && At(nb, landing) == MySquare(p)
      && (InBounds(origin) ==> At(nb, origin) == Square.Empty)
      && (forall i :: 0 <= i < |jumps| ==>
            InBounds(CapturedAt(origin, p, jumps, i)) && At(nb, CapturedAt(origin, p, jumps, i)) == Square.Empty)
      && forall l :: InBounds(l) && l != landing && l != origin && At(nb, l) != At(b, l) ==>
           exists i :: 0 <= i < |jumps| && l == CapturedAt(origin, p, jumps, i)
  {
    var h := HopWalk(jumps, origin, p, b).value;
    var nb := JumpedBoard(origin, h, p, b);
    HopWalkGeometry(jumps, origin, p, b);
    HopLanding(jumps, origin, p, b);
    HopCaptures(jumps, origin, p, b);
    HopDistinct(jumps, origin, p, b);
    forall l | InBounds(l) && l != h.landing && l != origin && At(nb, l) != At(b, l)
      ensures exists i :: 0 <= i < |jumps| && l == CapturedAt(origin, p, jumps, i)
    {
      var i :| 0 <= i < |h.captured| && h.captured[i] == l;
      assert l == CapturedAt(origin, p, jumps, i);
    }
  }

  /** A capture list by a man on a dark square keeps every light square
      empty: the landing square has the origin's colour. */
  lemma JumpDarkSquares(jumps: seq<MoveDir>, origin: Location, p: Player, b: Board)
    requires DarkSquaresOnly(b)
    requires InBounds(origin) && At(b, origin) == MySquare(p)
    requires HopWalk(jumps, origin, p, b).Some?
    ensures DarkSquaresOnly(JumpedBoard(origin, HopWalk(jumps, origin, p, b).value, p, b))
  {
    HopLanding(jumps, origin, p, b);
    PlayerSquares(p);
    LightSquaresStayEmpty(origin, HopWalk(jumps, origin, p, b).value, p, b);
  }

  /** Light squares stay empty when the man moves between squares of one
      colour and the origin held a man. */
  lemma LightSquaresStayEmpty(origin: Location, h: Hops, p: Player, b: Board)
    requires DarkSquaresOnly(b)
    requires InBounds(origin) && At(b, origin) != Square.Empty
    requires (h.landing.x + h.landing.y) % 2 == (origin.x + origin.y) % 2
    ensures DarkSquaresOnly(JumpedBoard(origin, h, p, b))
  {
    var nb := JumpedBoard(origin, h, p, b);
    assert (origin.x + origin.y) % 2 == 1;
    forall x, y | 0 <= x < 8 && 0 <= y < 8 && (x + y) % 2 == 0 ensures nb[y][x] == Square.Empty {
      assert Loc(x, y) != h.landing;
      assert At(b, Loc(x, y)) == Square.Empty;
    }
  }

  /** Captures never add an enemy man, and a non-empty list removes one:
      the measure for the termination of the continuation check. */
  lemma JumpedBoardEnemies(jumps: seq<MoveDir>, origin: Location, p: Player, b: Board)
    requires HopWalk(jumps, origin, p, b).Some?
    ensures EnemyCount(JumpedBoard(origin, HopWalk(jumps, origin, p, b).value, p, b), p) <= EnemyCount(b, p)
    ensures jumps != [] ==>
      EnemyCount(JumpedBoard(origin, HopWalk(jumps, origin, p, b).value, p, b), p) < EnemyCount(b, p)
  {
    var h := HopWalk(jumps, origin, p, b).value;
    var nb := JumpedBoard(origin, h, p, b);
    var e := MySquare(Enemy(p));
    HopFacts(jumps, origin, p, b);
    PlayerSquares(p);
    assert PieceSet(nb, e) <= PieceSet(b, e);
    if jumps != [] {
      assert h.captured[0] in PieceSet(b, e) && h.captured[0] !in PieceSet(nb, e);
    }
    SubsetCount(PieceSet(nb, e), PieceSet(b, e));
  }

  /** When the origin holds the mover's man, a legal capture list removes
      exactly one enemy man per hop and leaves the mover's count alone. */
  lemma JumpCounts(jumps: seq<MoveDir>, origin: Location, p: Player, b: Board)
    requires HopWalk(jumps, origin, p, b).Some?
    requires InBounds(origin) && At(b, origin) == MySquare(p)
    ensures var nb := JumpedBoard(origin, HopWalk(jumps, origin, p, b).value, p, b);
      && EnemyCount(nb, p) == EnemyCount(b, p) - |jumps|
      && Count(nb, MySquare(p)) == Count(b, MySquare(p))
  {
    JumpEnemyCount(jumps, origin, p, b);
    JumpOwnCount(jumps, origin, p, b);
  }

  lemma JumpEnemyCount(jumps: seq<MoveDir>, origin: Location, p: Player, b: Board)
    requires HopWalk(jumps, origin, p, b).Some?
    requires InBounds(origin) && At(b, origin) == MySquare(p)
    ensures EnemyCount(JumpedBoard(origin, HopWalk(jumps, origin, p, b).value, p, b), p) == EnemyCount(b, p) - |jumps|
  {
    var h := HopWalk(jumps, origin, p, b).value;
    var nb := JumpedBoard(origin, h, p, b);
    var e := MySquare(Enemy(p));
    HopCaptures(jumps, origin, p, b);
    HopDistinct(jumps, origin, p, b);
    forall l ensures l in PieceSet(nb, e) <==> l in PieceSet(b, e) && l !in h.captured {
      JumpedSquare(jumps, origin, p, b, l);
    }
    forall c | c in h.captured ensures c in PieceSet(b, e) {
      var i :| 0 <= i < |h.captured| && h.captured[i] == c;
    }
    RemovedCount(PieceSet(b, e), PieceSet(nb, e), h.captured);
  }

  lemma JumpOwnCount(jumps: seq<MoveDir>, origin: Location, p: Player, b: Board)
    requires HopWalk(jumps, origin, p, b).Some?
    requires InBounds(origin) && At(b, origin) == MySquare(p)
    ensures Count(JumpedBoard(origin, HopWalk(jumps, origin, p, b).value, p, b), MySquare(p)) == Count(b, MySquare(p))
  {
    var h := HopWalk(jumps, origin, p, b).value;
    var nb := JumpedBoard(origin, h, p, b);
    var m := MySquare(p);
    HopLanding(jumps, origin, p, b);
    var moved := (PieceSet(b, m) - {origin}) + {h.landing};
    forall l ensures l in PieceSet(nb, m) <==> l in moved {
      JumpedSquare(jumps, origin, p, b, l);
    }
    assert PieceSet(nb, m) == moved;
    if jumps == [] {
      assert moved == PieceSet(b, m);
    } else {
      PlayerSquares(p);
      SwapCount(PieceSet(b, m), origin, h.landing);
    }
  }

  /** Trading one member of a set for a non-member keeps its size. */
  lemma SwapCount<T>(a: set<T>, out: T, into: T)
    requires out in a && into !in a
    ensures |(a - {out}) + {into}| == |a|
  {
  }

  /** One square of the board after a legal capture list by the man at
      `origin`: it holds the mover's man when it is the landing square or
      held one other than the origin, and an enemy man when it held one that
      was not jumped. */
  lemma JumpedSquare(jumps: seq<MoveDir>, origin: Location, p: Player, b: Board, l: Location)
    requires HopWalk(jumps, origin, p, b).Some?
    requires InBounds(origin) && At(b, origin) == MySquare(p)
    ensures var h := HopWalk(jumps, origin, p, b).value;
      var nb := JumpedBoard(origin, h, p, b);
      && (l in PieceSet(nb, MySquare(p)) <==> l == h.landing || (l in PieceSet(b, MySquare(p)) && l != origin))
      && (l in PieceSet(nb, MySquare(Enemy(p))) <==> l in PieceSet(b, MySquare(Enemy(p))) && l !in h.captured)
  {
    var h := HopWalk(jumps, origin, p, b).value;
    HopLanding(jumps, origin, p, b);
    HopCaptures(jumps, origin, p, b);
    PlayerSquares(p);
    if l in h.captured {
      var i :| 0 <= i < |h.captured| && h.captured[i] == l;
    }
  }

  /** Removing a list of distinct members from a set lowers its size by the
      length of the list. */
  lemma RemovedCount<T>(before: set<T>, after: set<T>, removed: seq<T>)
    requires forall i, j :: 0 <= i < j < |removed| ==> removed[i] != removed[j]
    requires forall x :: x in removed ==> x in before
    requires after == before - set x | x in removed
    ensures |after| == |before| - |removed|
  {
    DistinctCount(removed);
    DifferenceCount(before, set x | x in removed);
  }

  lemma {:induction false} DistinctCount<T>(s: seq<T>)
    requires forall i, j :: 0 <= i < j < |s| ==> s[i] != s[j]
    ensures |set x | x in s| == |s|
  {
    if s != [] {
      var init := s[..|s| - 1];
      DistinctCount(init);
      assert (set x | x in s) == (set x | x in init) + {s[|s| - 1]};
    }
  }

  lemma DifferenceCount<T>(a: set<T>, c: set<T>)
    requires c <= a
    ensures |a - c| == |a| - |c|
  {
    assert a == (a - c) + c;
    assert (a - c) * c == {};
  }
}
