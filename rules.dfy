/** The rules engine as pure functions: a jump move with its board-wide
    continuation check, the capture search, the forced-capture test, the
    per-piece gate and the move enumeration. */
module Rules {
  import opened Checkerboard
  import opened Moves

  /** A move: one diagonal step, or a list of captures. */
  datatype Move = Simple(dir: MoveDir) | Jumps(dirs: seq<MoveDir>)

  /** A move together with the piece's location and the player moving it. */
  datatype TaggedMove = TaggedMove(location: Location, player: Player, move: Move)

  /* The four functions below call each other. Termination is by the number
     of enemy men on the board, then by call level, then by the room left
     for a longer capture list: every non-empty legal capture list removes an
     enemy man before the continuation check looks at the new board, and an
     empty list (reachable only through DoMove) removes none but moves up one
     level only. */

  /** A list of captures from `origin`. When the hops are legal the board is
      rebuilt; if then ANY of `p`'s men can capture on the new board, the
      list is incomplete. */
  function DoJumps(jumps: seq<MoveDir>, origin: Location, p: Player, b: Board): (r: MoveResult)
    ensures r.InvalidMove? <==> HopWalk(jumps, origin, p, b).None?
    ensures !r.InvalidMove? ==> |jumps| <= 4
    decreases EnemyCount(b, p), if jumps == [] then 3 else 0, 0
  {
    match HopWalk(jumps, origin, p, b)
    case None => InvalidMove
    case Some(h) =>
      HopFacts(jumps, origin, p, b);
      JumpedBoardEnemies(jumps, origin, p, b);
      var nb := JumpedBoard(origin, h, p, b);
      if BoardHasPotentialJumps(nb, p) then MoreJumpsRequired else Moved(nb)
  }

  /** The forced-capture test: some square holds one of `p`'s men that has a
      complete capture list. */
  predicate BoardHasPotentialJumps(b: Board, p: Player)
    decreases EnemyCount(b, p), 2, 0
  {
    exists x, y :: 0 <= x < 8 && 0 <= y < 8 && b[y][x] == MySquare(p) && PossibleJumps(Loc(x, y), p, b) != []
  }

  /** The outcome DoJumps gives each candidate capture list from `l`; the
      empty list is never a candidate. */
  function JumpOutcomes(l: Location, p: Player, b: Board): seq<MoveDir> -> MoveResult
    decreases EnemyCount(b, p), 1, 1
  {
    s => if s == [] then InvalidMove else DoJumps(s, l, p, b)
  }

  /** The complete capture lists from `l`, in the order the source's work
      list finds them: it starts from [Left], [Right] and pops from the end. */
  function PossibleJumps(l: Location, p: Player, b: Board): seq<seq<MoveDir>>
    decreases EnemyCount(b, p), 1, 2
  {
    var o := JumpOutcomes(l, p, b);
    assert forall u :: |u| == 5 ==> !o(u).MoreJumpsRequired?;
    Search([MoveDir.Right], o) + Search([MoveDir.Left], o)
  }

  /** The complete capture lists found from the candidate `t`, given the
      outcome `o` of every candidate: none if `t` is illegal, `t` itself if
      it is complete, else those found from its two extensions, the Right
      one first. No candidate of five captures is incomplete. */
  function Search(t: seq<MoveDir>, o: seq<MoveDir> -> MoveResult): seq<seq<MoveDir>>
    requires 1 <= |t| <= 5
    requires forall u :: |u| == 5 ==> !o(u).MoreJumpsRequired?
    decreases 5 - |t|
  {
    match o(t)
    case InvalidMove => []
    case Moved(_) => [t]
    case MoreJumpsRequired => Search(t + [MoveDir.Right], o) + Search(t + [MoveDir.Left], o)
  }

  /** Applies a move: a single direction is a simple move, a list is a jump move. */
  function DoMove(m: Move, origin: Location, p: Player, b: Board): MoveResult
  {
    match m
    case Simple(d) => DoSimpleMove(d, origin, p, b)
    case Jumps(dirs) => DoJumps(dirs, origin, p, b)
  }

  /** Whether DoSimpleMove accepts a step in each direction from `l`. */
  function SimpleMoveOk(l: Location, p: Player, b: Board): MoveDir -> bool
  {
    d => DoSimpleMove(d, l, p, b).Moved?
  }

  /** The directions of `moves` that `ok` accepts, in order. */
  function Accepted(moves: seq<MoveDir>, ok: MoveDir -> bool): (r: seq<MoveDir>)
    ensures forall d :: d in r <==> d in moves && ok(d)
    ensures |r| <= |moves|
  {
    if moves == [] then []
    else
      var last := moves[|moves| - 1];
      Accepted(moves[..|moves| - 1], ok) + (if ok(last) then [last] else [])
  }

  /** Trying Left then Right keeps Left first. */
  lemma AcceptedLeftRight(ok: MoveDir -> bool)
    ensures var r := Accepted([MoveDir.Left, MoveDir.Right], ok);
      && (forall d :: d in r <==> ok(d))
      && forall i, j :: 0 <= i < j < |r| ==> r[i] == MoveDir.Left && r[j] == MoveDir.Right
  {
    var moves := [MoveDir.Left, MoveDir.Right];
    assert moves[..1] == [MoveDir.Left] && [MoveDir.Left][..0] == [];
    var left := if ok(MoveDir.Left) then [MoveDir.Left] else [];
    var right := if ok(MoveDir.Right) then [MoveDir.Right] else [];
    assert Accepted(moves, ok) == left + right;
    forall d: MoveDir ensures d in moves {
      if d.Left? {
        assert d == moves[0];
      } else {
        assert d == moves[1];
      }
    }
  }

  /** The simple moves of the piece at `l`: Left then Right, each kept when
      DoSimpleMove accepts it. */
  function PossibleSimpleMoves(l: Location, p: Player, b: Board): (r: seq<MoveDir>)
    ensures forall d :: d in r <==> DoSimpleMove(d, l, p, b).Moved?
    ensures forall i, j :: 0 <= i < j < |r| ==> r[i] == MoveDir.Left && r[j] == MoveDir.Right
  {
    AcceptedLeftRight(SimpleMoveOk(l, p, b));
    Accepted([MoveDir.Left, MoveDir.Right], SimpleMoveOk(l, p, b))
  }

  /** The per-piece gate: a selected square holding one of `p`'s men, which
      either can capture, or can step while no man of `p` can capture. */
  function CanMovePieceAtLocation(loc: Option<Location>, p: Player, b: Board): (r: bool)
    requires loc.Some? ==> InBounds(loc.value)
    ensures r <==>
      && loc.Some?
      && At(b, loc.value) == MySquare(p)
      && (|| PossibleJumps(loc.value, p, b) != []
          || (!BoardHasPotentialJumps(b, p) && PossibleSimpleMoves(loc.value, p, b) != []))
  {
    if loc.None? then false
    else
      var l := loc.value;
      if At(b, l) == Square.Empty then false
      else if At(b, l) != MySquare(p) then false
      else
        var mustJump := BoardHasPotentialJumps(b, p);
        var thisPieceJumps := PossibleJumps(l, p, b);
        if mustJump && thisPieceJumps == [] then false
        else
          var thisPieceSimpleMoves := PossibleSimpleMoves(l, p, b);
          !(thisPieceSimpleMoves == [] && thisPieceJumps == [])
  }

  /** Tags each capture list with the location and the player. */
  function TagJumps(l: Location, p: Player, lists: seq<seq<MoveDir>>): (r: seq<TaggedMove>)
    ensures |r| == |lists|
    ensures forall i :: 0 <= i < |r| ==> r[i] == TaggedMove(l, p, Jumps(lists[i]))
  {
    seq(|lists|, i requires 0 <= i < |lists| => TaggedMove(l, p, Jumps(lists[i])))
  }

  /** Tags each direction with the location and the player. */
  function TagSteps(l: Location, p: Player, dirs: seq<MoveDir>): (r: seq<TaggedMove>)
    ensures |r| == |dirs|
    ensures forall i :: 0 <= i < |r| ==> r[i] == TaggedMove(l, p, Simple(dirs[i]))
  {
    seq(|dirs|, i requires 0 <= i < |dirs| => TaggedMove(l, p, Simple(dirs[i])))
  }

  /** The moves of the piece at `l`: its capture lists if it has any, else
      its simple moves. */
  function PossibleMoves(l: Location, p: Player, b: Board): seq<TaggedMove>
  {
    var jumps := PossibleJumps(l, p, b);
    if jumps != [] then TagJumps(l, p, jumps) else TagSteps(l, p, PossibleSimpleMoves(l, p, b))
  }

  /** A candidate's search returns exactly the complete lists that extend
      it and whose every prefix from the candidate on was incomplete. */
  lemma {:induction false} SearchFinds(t: seq<MoveDir>, o: seq<MoveDir> -> MoveResult, s: seq<MoveDir>)
    requires 1 <= |t| <= 5
    requires forall u :: |u| == 5 ==> !o(u).MoreJumpsRequired?
    ensures s in Search(t, o) <==>
      && |t| <= |s| && s[..|t|] == t
      && o(s).Moved?
      && forall k :: |t| <= k < |s| ==> o(s[..k]).MoreJumpsRequired?
    decreases 5 - |t|
  {
    var n := |t|;
    if n <= |s| && s[..n] == t && |s| > n {
      assert o(s[..n]) == o(t);
    }
    if n <= |s| && s[..n] == t && |s| == n {
      assert s == t;
    }
    if o(t).MoreJumpsRequired? {
      var tr := t + [MoveDir.Right];
      var tl := t + [MoveDir.Left];
      SearchFinds(tr, o, s);
      SearchFinds(tl, o, s);
      if n < |s| && s[..n] == t {
        assert s[..n + 1] == t + [s[n]];
        if s[n] == MoveDir.Right {
          assert s[..n + 1] == tr;
        } else {
          assert s[..n + 1] == tl;
        }
      }
      if n + 1 <= |s| && (s[..n + 1] == tr || s[..n + 1] == tl) {
        assert s[..n] == s[..n + 1][..n] == t;
        if o(s).Moved? && forall k :: n + 1 <= k < |s| ==> o(s[..k]).MoreJumpsRequired? {
          forall k | n <= k < |s| ensures o(s[..k]).MoreJumpsRequired? {
            if k == n {
              assert s[..k] == t;
            }
          }
        }
      }
    }
  }

  /** The complete capture lists from `l` are the non-empty lists that
      DoJumps accepts and whose every shorter non-empty prefix it rejects as
      incomplete. */
  lemma PossibleJumpsFinds(l: Location, p: Player, b: Board, s: seq<MoveDir>)
    ensures s in PossibleJumps(l, p, b) <==>
      && s != []
      && DoJumps(s, l, p, b).Moved?
      && forall k :: 1 <= k < |s| ==> DoJumps(s[..k], l, p, b).MoreJumpsRequired?
  {
    var o := JumpOutcomes(l, p, b);
    PossibleJumpsOutcomes(l, p, b, s);
    if s != [] {
      OutcomesAgree(l, p, b, s);
    }
  }

  lemma PossibleJumpsOutcomes(l: Location, p: Player, b: Board, s: seq<MoveDir>)
    ensures var o := JumpOutcomes(l, p, b);
      s in PossibleJumps(l, p, b) <==>
        && s != []
        && o(s).Moved?
        && forall k :: 1 <= k < |s| ==> o(s[..k]).MoreJumpsRequired?
  {
    var o := JumpOutcomes(l, p, b);
    assert PossibleJumps(l, p, b) == Search([MoveDir.Right], o) + Search([MoveDir.Left], o);
    SearchFinds([MoveDir.Right], o, s);
    SearchFinds([MoveDir.Left], o, s);
    if s != [] {
      assert s[..1] == [s[0]];
      if s[0] == MoveDir.Right {
        assert s in PossibleJumps(l, p, b) <==> s in Search([MoveDir.Right], o);
      } else {
        assert s in PossibleJumps(l, p, b) <==> s in Search([MoveDir.Left], o);
      }
    } else {
      assert s !in Search([MoveDir.Right], o) && s !in Search([MoveDir.Left], o);
    }
  }

  lemma OutcomesAgree(l: Location, p: Player, b: Board, s: seq<MoveDir>)
    requires s != []
    ensures JumpOutcomes(l, p, b)(s) == DoJumps(s, l, p, b)
    ensures forall k :: 1 <= k < |s| ==> JumpOutcomes(l, p, b)(s[..k]) == DoJumps(s[..k], l, p, b)
  {
  }

  /** A capture list is rejected exactly when one of its hops does not jump
      an enemy man onto an empty square; no list longer than four is
      accepted. */
  lemma DoJumpsLegal(jumps: seq<MoveDir>, origin: Location, p: Player, b: Board)
    ensures DoJumps(jumps, origin, p, b).InvalidMove? <==>
      exists i :: 0 <= i < |jumps| && !HopLegal(jumps, origin, p, b, i)
    ensures !DoJumps(jumps, origin, p, b).InvalidMove? ==> |jumps| <= 4
  {
    HopWalkGeometry(jumps, origin, p, b);
  }

  /** A completed capture list rebuilds the board from the walk, and the
      rebuilt board leaves no capture to `p`. */
  lemma DoJumpsMoved(jumps: seq<MoveDir>, origin: Location, p: Player, b: Board)
    requires DoJumps(jumps, origin, p, b).Moved?
    ensures HopWalk(jumps, origin, p, b).Some?
    ensures DoJumps(jumps, origin, p, b).board == JumpedBoard(origin, HopWalk(jumps, origin, p, b).value, p, b)
    ensures !BoardHasPotentialJumps(DoJumps(jumps, origin, p, b).board, p)
  {
  }

  /** The board after a completed capture list: the mover's man on the
      square the closed-form geometry gives, the origin and every jumped
      square emptied, every other square as it was. */
  lemma DoJumpsBoard(jumps: seq<MoveDir>, origin: Location, p: Player, b: Board)
    requires DoJumps(jumps, origin, p, b).Moved?
    requires jumps != []
    ensures var nb := DoJumps(jumps, origin, p, b).board;
      var landing := LandingAfter(origin, p, jumps, |jumps|);
      && InBounds(landing) && At(nb, landing) == MySquare(p)
      && (InBounds(origin) ==> At(nb, origin) == Square.Empty)
      && (forall i :: 0 <= i < |jumps| ==>
            InBounds(CapturedAt(origin, p, jumps, i)) && At(nb, CapturedAt(origin, p, jumps, i)) == Square.Empty)
      && forall l :: InBounds(l) && l != landing && l != origin && At(nb, l) != At(b, l) ==>
           exists i :: 0 <= i < |jumps| && l == CapturedAt(origin, p, jumps, i)
  {
    DoJumpsMoved(jumps, origin, p, b);
    JumpedBoardGeometry(jumps, origin, p, b);
  }

  /** The forced-capture test holds exactly when some man of `p` has a
      complete capture list. */
  lemma MustJumpIffSomeJumper(b: Board, p: Player)
    ensures BoardHasPotentialJumps(b, p) <==>
      exists l :: InBounds(l) && At(b, l) == MySquare(p) && PossibleJumps(l, p, b) != []
  {
    if BoardHasPotentialJumps(b, p) {
      MustJumpHasJumper(b, p);
    }
    if exists l :: InBounds(l) && At(b, l) == MySquare(p) && PossibleJumps(l, p, b) != [] {
      var l :| InBounds(l) && At(b, l) == MySquare(p) && PossibleJumps(l, p, b) != [];
      JumperForcesCapture(b, p, l);
    }
  }

  lemma MustJumpHasJumper(b: Board, p: Player)
    requires BoardHasPotentialJumps(b, p)
    ensures exists l :: InBounds(l) && At(b, l) == MySquare(p) && PossibleJumps(l, p, b) != []
  {
    var x, y :| 0 <= x < 8 && 0 <= y < 8 && b[y][x] == MySquare(p) && PossibleJumps(Loc(x, y), p, b) != [];
    assert At(b, Loc(x, y)) == MySquare(p);
  }

  /** A man of `p` with a complete capture list forces `p` to capture. */
  lemma JumperForcesCapture(b: Board, p: Player, l: Location)
    requires InBounds(l) && At(b, l) == MySquare(p) && PossibleJumps(l, p, b) != []
    ensures BoardHasPotentialJumps(b, p)
  {
    assert l == Loc(l.x, l.y);
    assert b[l.y][l.x] == MySquare(p);
  }

  /** After a completed jump move none of the mover's men can capture: the
      move was not cut short. */
  lemma CompletedJumpsLeaveNoCapture(jumps: seq<MoveDir>, origin: Location, p: Player, b: Board, l: Location)
    requires DoJumps(jumps, origin, p, b).Moved?
    requires InBounds(l) && At(DoJumps(jumps, origin, p, b).board, l) == MySquare(p)
    ensures PossibleJumps(l, p, DoJumps(jumps, origin, p, b).board) == []
  {
    var nb := DoJumps(jumps, origin, p, b).board;
    DoJumpsMoved(jumps, origin, p, b);
    MustJumpIffSomeJumper(nb, p);
  }

  /** Every list the capture search returns is a legal, complete capture
      list of at most four hops. */
  lemma PossibleJumpsSound(l: Location, p: Player, b: Board, s: seq<MoveDir>)
    requires s in PossibleJumps(l, p, b)
    ensures 1 <= |s| <= 4
    ensures HopsLegal(s, l, p, b)
    ensures DoJumps(s, l, p, b).Moved?
  {
    PossibleJumpsFinds(l, p, b, s);
    HopWalkGeometry(s, l, p, b);
  }

  /** Every enumerated move belongs to the piece and player asked about and
      is accepted by DoMove; when the piece has a capture only captures are
      offered. */
  lemma PossibleMovesSound(l: Location, p: Player, b: Board, m: TaggedMove)
    requires m in PossibleMoves(l, p, b)
    ensures m.location == l && m.player == p
    ensures DoMove(m.move, l, p, b).Moved?
    ensures PossibleJumps(l, p, b) != [] <==> m.move.Jumps?
  {
    var jumps := PossibleJumps(l, p, b);
    var i :| 0 <= i < |PossibleMoves(l, p, b)| && PossibleMoves(l, p, b)[i] == m;
    if jumps != [] {
      OfferedJumpAccepted(l, p, b, i);
    } else {
      OfferedStepAccepted(l, p, b, i);
    }
  }

  lemma OfferedJumpAccepted(l: Location, p: Player, b: Board, i: nat)
    requires i < |PossibleJumps(l, p, b)|
    ensures PossibleMoves(l, p, b)[i] == TaggedMove(l, p, Jumps(PossibleJumps(l, p, b)[i]))
    ensures DoMove(Jumps(PossibleJumps(l, p, b)[i]), l, p, b).Moved?
  {
    PossibleJumpsSound(l, p, b, PossibleJumps(l, p, b)[i]);
  }

  lemma OfferedStepAccepted(l: Location, p: Player, b: Board, i: nat)
    requires PossibleJumps(l, p, b) == []
    requires i < |PossibleMoves(l, p, b)|
    ensures PossibleMoves(l, p, b)[i] == TaggedMove(l, p, Simple(PossibleSimpleMoves(l, p, b)[i]))
    ensures DoMove(Simple(PossibleSimpleMoves(l, p, b)[i]), l, p, b).Moved?
  {
    assert PossibleSimpleMoves(l, p, b)[i] in PossibleSimpleMoves(l, p, b);
  }

  /** Every complete capture list of the piece is offered; when it has none,
      every accepted simple move is offered. */
  lemma PossibleMovesComplete(l: Location, p: Player, b: Board)
    ensures forall s :: s in PossibleJumps(l, p, b) ==> TaggedMove(l, p, Jumps(s)) in PossibleMoves(l, p, b)
    ensures PossibleJumps(l, p, b) == [] ==>
      forall d :: DoSimpleMove(d, l, p, b).Moved? ==> TaggedMove(l, p, Simple(d)) in PossibleMoves(l, p, b)
  {
    var jumps := PossibleJumps(l, p, b);
    var moves := PossibleMoves(l, p, b);
    forall s | s in jumps ensures TaggedMove(l, p, Jumps(s)) in moves {
      var i :| 0 <= i < |jumps| && jumps[i] == s;
      assert moves[i] == TaggedMove(l, p, Jumps(s));
    }
    if jumps == [] {
      var steps := PossibleSimpleMoves(l, p, b);
      forall d | DoSimpleMove(d, l, p, b).Moved? ensures TaggedMove(l, p, Simple(d)) in moves {
        var i :| 0 <= i < |steps| && steps[i] == d;
        assert moves[i] == TaggedMove(l, p, Simple(d));
      }
    }
  }

  /** The per-piece gate passes exactly when the square holds one of `p`'s
      men with at least one move on offer, and that offer is captures
      whenever some man of `p` can capture. */
  lemma GateMatchesMoves(l: Location, p: Player, b: Board)
    requires InBounds(l)
    ensures CanMovePieceAtLocation(Some(l), p, b) <==>
      && At(b, l) == MySquare(p)
      && PossibleMoves(l, p, b) != []
      && (BoardHasPotentialJumps(b, p) ==> forall m :: m in PossibleMoves(l, p, b) ==> m.move.Jumps?)
  {
    var moves := PossibleMoves(l, p, b);
    if PossibleJumps(l, p, b) == [] && PossibleSimpleMoves(l, p, b) != [] {
      assert moves[0].move.Simple?;
    }
  }

  /** A move by one of `p`'s own men: a simple move keeps both counts, a
      capture list removes one enemy man per hop and keeps `p`'s count. */
  lemma MoveCounts(m: Move, origin: Location, p: Player, b: Board)
    requires InBounds(origin) && At(b, origin) == MySquare(p)
    requires DoMove(m, origin, p, b).Moved?
    ensures var nb := DoMove(m, origin, p, b).board;
      && Count(nb, MySquare(p)) == Count(b, MySquare(p))
      && EnemyCount(nb, p) == EnemyCount(b, p) - (if m.Jumps? then |m.dirs| else 0)
  {
    match m
    case Simple(d) =>
      SimpleMoveCounts(d, origin, p, b);
    case Jumps(dirs) =>
      DoJumpsMoved(dirs, origin, p, b);
      JumpCounts(dirs, origin, p, b);
  }

  /** A move by one of `p`'s own men keeps every light square empty. */
  lemma MovePreservesDarkSquares(m: Move, origin: Location, p: Player, b: Board)
    requires DarkSquaresOnly(b)
    requires InBounds(origin) && At(b, origin) == MySquare(p)
    requires DoMove(m, origin, p, b).Moved?
    ensures DarkSquaresOnly(DoMove(m, origin, p, b).board)
  {
    match m
    case Simple(d) =>
      SimpleMoveDarkSquares(d, origin, p, b);
    case Jumps(dirs) =>
      DoJumpsMoved(dirs, origin, p, b);
      JumpDarkSquares(dirs, origin, p, b);
  }

  /** A man with no enemy man diagonally ahead of it has no capture. */
  lemma NoAdjacentEnemyNoJumps(l: Location, p: Player, b: Board)
    requires forall d :: !SquareIs(Step(l, d, p), MySquare(Enemy(p)), b)
    ensures PossibleJumps(l, p, b) == []
  {
    var o := JumpOutcomes(l, p, b);
    forall d ensures o([d]).InvalidMove? {
      assert [d][..0] == [];
      assert HopWalk([d], l, p, b).None?;
    }
    assert Search([MoveDir.Right], o) == [] && Search([MoveDir.Left], o) == [];
  }

  /** In the opening position neither side is forced to capture: every
      square diagonally ahead of a man holds a man of its own side or
      nothing. */
  lemma StartingNoCaptures(p: Player)
    ensures !BoardHasPotentialJumps(StartingBoard, p)
  {
    StartingLayout();
    PlayerSquares(p);
    forall l | InBounds(l) && At(StartingBoard, l) == MySquare(p)
      ensures PossibleJumps(l, p, StartingBoard) == []
    {
      forall d ensures !SquareIs(Step(l, d, p), MySquare(Enemy(p)), StartingBoard) {
        var t := Step(l, d, p);
        if InBounds(t) {
          assert StartingBoard[t.y][t.x] == StartingSquare(t.x, t.y);
        }
      }
      NoAdjacentEnemyNoJumps(l, p, StartingBoard);
    }
    MustJumpIffSomeJumper(StartingBoard, p);
  }
}
