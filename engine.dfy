/** The rules engine as the source runs it: the capture loop, the work-list
    search, the board scan with its early exit and the enumeration loops,
    each proved to compute its specification function in module Rules. */
module Engine {
  import opened Checkerboard
  import opened Moves
  import Rules

  /** Walks the capture list, then rebuilds the board and runs the
      board-wide continuation check. */
  method DoJumps(jumps: seq<MoveDir>, origin: Location, p: Player, b: Board) returns (r: MoveResult)
    ensures r == Rules.DoJumps(jumps, origin, p, b)
    decreases EnemyCount(b, p), if jumps == [] then 3 else 0, 0
  {
    var walk := WalkHops(jumps, origin, p, b);
    if walk.None? {
      return InvalidMove;
    }
    JumpsCompleted(jumps, origin, p, b);
    var newBoard := JumpedBoard(origin, walk.value, p, b);
    var more := BoardHasPotentialJumps(newBoard, p);
    if more {
      return MoreJumpsRequired;
    }
    return Moved(newBoard);
  }

  /** The capture loop: hop by hop, the jumped square must hold an enemy
      man and the landing square must be empty, both on the input board;
      the first hop that fails rejects the whole list. */
  method WalkHops(jumps: seq<MoveDir>, origin: Location, p: Player, b: Board) returns (walk: Option<Hops>)
    ensures walk == HopWalk(jumps, origin, p, b)
  {
    var jumperX, jumperY := origin.x, origin.y;
    var enemyPieceLocations: seq<Location> := [];
    var i := 0;
    while i < |jumps|
      invariant 0 <= i <= |jumps|
      invariant HopWalk(jumps[..i], origin, p, b) == Some(Hops(Loc(jumperX, jumperY), enemyPieceLocations))
    {
      var jump := jumps[i];
      HopWalkNext(jumps, i, origin, p, b, Hops(Loc(jumperX, jumperY), enemyPieceLocations));
      var enemyPieceLocation := Loc(jumperX + Dx(jump), jumperY + Forward(p));
      if !SquareIs(enemyPieceLocation, MySquare(Enemy(p)), b) {
        HopWalkFailsAt(jumps, i + 1, origin, p, b);
        return None;
      }
      enemyPieceLocations := enemyPieceLocations + [enemyPieceLocation];
      jumperX := jumperX + Dx(jump) * 2;
      jumperY := jumperY + Forward(p) * 2;
      if !SquareIs(Loc(jumperX, jumperY), Square.Empty, b) {
        HopWalkFailsAt(jumps, i + 1, origin, p, b);
        return None;
      }
      i := i + 1;
    }
    assert jumps[..i] == jumps;
    return Some(Hops(Loc(jumperX, jumperY), enemyPieceLocations));
  }

  /** One more hop of the capture loop, from where the first `i` hops land. */
  lemma HopWalkNext(jumps: seq<MoveDir>, i: nat, origin: Location, p: Player, b: Board, h: Hops)
    requires i < |jumps|
    requires HopWalk(jumps[..i], origin, p, b) == Some(h)
    ensures var enemyAt := Step(h.landing, jumps[i], p);
      var landing := Step(enemyAt, jumps[i], p);
      HopWalk(jumps[..i + 1], origin, p, b) ==
        if SquareIs(enemyAt, MySquare(Enemy(p)), b) && SquareIs(landing, Square.Empty, b)
        then Some(Hops(landing, h.captured + [enemyAt]))
        else None
  {
    assert jumps[..i + 1][..i] == jumps[..i];
  }

  /** A legal capture list removes enemy men (at least one when it is not
      empty), and its outcome is decided by the continuation check on the
      rebuilt board. */
  lemma JumpsCompleted(jumps: seq<MoveDir>, origin: Location, p: Player, b: Board)
    requires HopWalk(jumps, origin, p, b).Some?
    ensures var nb := JumpedBoard(origin, HopWalk(jumps, origin, p, b).value, p, b);
      && EnemyCount(nb, p) <= EnemyCount(b, p)
      && (jumps != [] ==> EnemyCount(nb, p) < EnemyCount(b, p))
      && Rules.DoJumps(jumps, origin, p, b) ==
           if Rules.BoardHasPotentialJumps(nb, p) then MoreJumpsRequired else Moved(nb)
  {
    JumpedBoardEnemies(jumps, origin, p, b);
  }

  /** A capture list whose first `k` hops fail is rejected as a whole. */
  lemma HopWalkFailsAt(jumps: seq<MoveDir>, k: nat, origin: Location, p: Player, b: Board)
    requires k <= |jumps|
    requires HopWalk(jumps[..k], origin, p, b).None?
    ensures HopWalk(jumps, origin, p, b).None?
  {
    if HopWalk(jumps, origin, p, b).Some? {
      HopWalkPrefix(jumps, k, origin, p, b);
    }
  }

  /** Scans the board row by row and stops at the first man of `p` with a
      complete capture list. */
  method BoardHasPotentialJumps(b: Board, p: Player) returns (r: bool)
    ensures r == Rules.BoardHasPotentialJumps(b, p)
    decreases EnemyCount(b, p), 2, 0
  {
    var y := 0;
    while y < |b|
      invariant 0 <= y <= 8
      invariant NoJumperBefore(b, p, y, 0)
    {
      var x := 0;
      while x < |b[y]|
        invariant 0 <= x <= 8
        invariant NoJumperBefore(b, p, y, x)
      {
        if b[y][x] == MySquare(p) {
          var jumps := PossibleJumps(Loc(x, y), p, b);
          if jumps != [] {
            Rules.JumperForcesCapture(b, p, Loc(x, y));
            return true;
          }
        }
        ScanPast(b, p, y, x);
        x := x + 1;
      }
      ScanNextRow(b, p, y);
      y := y + 1;
    }
    NoJumperNoCapture(b, p);
    return false;
  }

  /** Square (x, y) holds a man of `p` with a complete capture list. */
  ghost predicate Jumper(b: Board, p: Player, x: int, y: int)
    requires 0 <= x < 8 && 0 <= y < 8
  {
    b[y][x] == MySquare(p) && Rules.PossibleJumps(Loc(x, y), p, b) != []
  }

  /** No square scanned before (x, y), in row-major order, holds a jumper. */
  ghost predicate NoJumperBefore(b: Board, p: Player, y: int, x: int)
  {
    forall y', x' :: 0 <= y' < 8 && 0 <= x' < 8 && (y' < y || (y' == y && x' < x)) ==> !Jumper(b, p, x', y')
  }

  lemma ScanPast(b: Board, p: Player, y: int, x: int)
    requires 0 <= y < 8 && 0 <= x < 8
    requires NoJumperBefore(b, p, y, x)
    requires b[y][x] != MySquare(p) || Rules.PossibleJumps(Loc(x, y), p, b) == []
    ensures NoJumperBefore(b, p, y, x + 1)
  {
  }

  lemma ScanNextRow(b: Board, p: Player, y: int)
    requires NoJumperBefore(b, p, y, 8)
    ensures NoJumperBefore(b, p, y + 1, 0)
  {
  }

  /** A board with no man of `p` able to capture does not force `p` to. */
  lemma NoJumperNoCapture(b: Board, p: Player)
    requires NoJumperBefore(b, p, 8, 0)
    ensures !Rules.BoardHasPotentialJumps(b, p)
  {
    if Rules.BoardHasPotentialJumps(b, p) {
      var x, y :| 0 <= x < 8 && 0 <= y < 8 && b[y][x] == MySquare(p) && Rules.PossibleJumps(Loc(x, y), p, b) != [];
      assert Jumper(b, p, x, y);
    }
  }

  /** The work-list search: pops the last candidate, keeps it when complete,
      pushes its Left and Right extensions when incomplete. */
  method PossibleJumps(l: Location, p: Player, b: Board) returns (validJumps: seq<seq<MoveDir>>)
    ensures validJumps == Rules.PossibleJumps(l, p, b)
    decreases EnemyCount(b, p), 1, 2
  {
    ghost var o := Outcomes(l, p, b);
    validJumps := [];
    var jumpsToTry := [[MoveDir.Left], [MoveDir.Right]];
    ghost var total := Pending(jumpsToTry, o);
    while jumpsToTry != []
      invariant Candidates(jumpsToTry)
      invariant validJumps + Pending(jumpsToTry, o) == total
      decreases StackWeight(jumpsToTry)
    {
      var jumps := jumpsToTry[|jumpsToTry| - 1];
      var rest := jumpsToTry[..|jumpsToTry| - 1];
      SplitLast(jumpsToTry);
      var r := DoJumps(jumps, l, p, b);
      WorkListStep(validJumps, rest, jumps, r, o, total);
      jumpsToTry := rest;
      match r {
        case InvalidMove =>
        case Moved(_) =>
          validJumps := validJumps + [jumps];
        case MoreJumpsRequired =>
          jumpsToTry := rest + [jumps + [MoveDir.Left], jumps + [MoveDir.Right]];
      }
    }
  }

  /** The outcome of every candidate from `l`, as DoJumps gives it: the
      starting work list [[Left], [Right]] contributes exactly the complete
      capture lists, and no candidate of five captures is incomplete. */
  lemma Outcomes(l: Location, p: Player, b: Board) returns (o: seq<MoveDir> -> MoveResult)
    ensures forall u :: |u| == 5 ==> !o(u).MoreJumpsRequired?
    ensures forall t {:trigger Rules.DoJumps(t, l, p, b)} :: t != [] ==> o(t) == Rules.DoJumps(t, l, p, b)
    ensures Pending([[MoveDir.Left], [MoveDir.Right]], o) == Rules.PossibleJumps(l, p, b)
  {
    o := Rules.JumpOutcomes(l, p, b);
    assert forall u :: |u| == 5 ==> !o(u).MoreJumpsRequired?;
    var s := [[MoveDir.Left], [MoveDir.Right]];
    assert s[..1] == [[MoveDir.Left]];
    assert Pending(s, o) == Rules.Search([MoveDir.Right], o) + (Rules.Search([MoveDir.Left], o) + []);
  }

  lemma ConcatAssoc<T>(x: seq<T>, y: seq<T>, z: seq<T>)
    ensures (x + y) + z == x + (y + z)
  {
  }

  lemma SplitLast<T>(s: seq<T>)
    requires s != []
    ensures s == s[..|s| - 1] + [s[|s| - 1]]
  {
  }

  /** Every candidate on the work list holds one to five captures. */
  predicate Candidates(stack: seq<seq<MoveDir>>)
  {
    forall i :: 0 <= i < |stack| ==> 1 <= |stack[i]| <= 5
  }

  /** What the candidates on the work list still contribute, the last one
      first. */
  ghost function Pending(stack: seq<seq<MoveDir>>, o: seq<MoveDir> -> MoveResult): seq<seq<MoveDir>>
    requires Candidates(stack)
    requires forall u :: |u| == 5 ==> !o(u).MoreJumpsRequired?
  {
    if stack == [] then []
    else Rules.Search(stack[|stack| - 1], o) + Pending(stack[..|stack| - 1], o)
  }

  /** The work list after candidate `t`, with outcome `r`, is popped. */
  function Remaining(rest: seq<seq<MoveDir>>, t: seq<MoveDir>, r: MoveResult): seq<seq<MoveDir>>
  {
    if r.MoreJumpsRequired? then rest + [t + [MoveDir.Left], t + [MoveDir.Right]] else rest
  }

  /** The complete lists found so far, after candidate `t` with outcome `r`. */
  function Kept(valid: seq<seq<MoveDir>>, t: seq<MoveDir>, r: MoveResult): seq<seq<MoveDir>>
  {
    if r.Moved? then valid + [t] else valid
  }

  /** Popping candidate `t`, whose outcome is `r`, from the work list keeps
      the search's result: a rejected candidate contributes nothing, a
      complete one itself, an incomplete one (never of five captures) what
      its two extensions, pushed Left then Right, contribute; each case
      lowers the weight of the work list. */
  lemma WorkListStep(valid: seq<seq<MoveDir>>, rest: seq<seq<MoveDir>>, t: seq<MoveDir>, r: MoveResult,
                     o: seq<MoveDir> -> MoveResult, total: seq<seq<MoveDir>>)
    requires Candidates(rest + [t])
    requires forall u :: |u| == 5 ==> !o(u).MoreJumpsRequired?
    requires o(t) == r
    requires valid + Pending(rest + [t], o) == total
    ensures t != []
    ensures Candidates(Remaining(rest, t, r))
    ensures Kept(valid, t, r) + Pending(Remaining(rest, t, r), o) == total
    ensures StackWeight(Remaining(rest, t, r)) < StackWeight(rest + [t])
  {
    PopPending(rest, t, o);
    if r.MoreJumpsRequired? {
      PushPending(rest, t, o);
    } else if r.Moved? {
      ConcatAssoc(valid, [t], Pending(rest, o));
    }
  }

  lemma PopPending(rest: seq<seq<MoveDir>>, t: seq<MoveDir>, o: seq<MoveDir> -> MoveResult)
    requires Candidates(rest + [t])
    requires forall u :: |u| == 5 ==> !o(u).MoreJumpsRequired?
    ensures Candidates(rest) && 1 <= |t| <= 5
    ensures Pending(rest + [t], o) == Rules.Search(t, o) + Pending(rest, o)
    ensures StackWeight(rest + [t]) == StackWeight(rest) + TreeWeight(|t|)
  {
    var s := rest + [t];
    assert s[..|s| - 1] == rest;
    assert s[|s| - 1] == t;
    assert forall i :: 0 <= i < |rest| ==> rest[i] == s[i];
  }

  lemma PushPending(rest: seq<seq<MoveDir>>, t: seq<MoveDir>, o: seq<MoveDir> -> MoveResult)
    requires Candidates(rest) && 1 <= |t| <= 5
    requires forall u :: |u| == 5 ==> !o(u).MoreJumpsRequired?
    requires o(t).MoreJumpsRequired?
    ensures |t| < 5
    ensures var pushed := rest + [t + [MoveDir.Left], t + [MoveDir.Right]];
      && Candidates(pushed)
      && Pending(pushed, o) == Rules.Search(t, o) + Pending(rest, o)
      && StackWeight(pushed) < StackWeight(rest) + TreeWeight(|t|)
  {
    var left, right := t + [MoveDir.Left], t + [MoveDir.Right];
    PushTwo(rest, left, right, o);
    ConcatAssoc(Rules.Search(right, o), Rules.Search(left, o), Pending(rest, o));
    PushTwoWeight(rest, left, right);
  }

  /** Pushing `x` then `y`: `y` is popped first. */
  lemma PushTwo(rest: seq<seq<MoveDir>>, x: seq<MoveDir>, y: seq<MoveDir>, o: seq<MoveDir> -> MoveResult)
    requires Candidates(rest) && 1 <= |x| <= 5 && 1 <= |y| <= 5
    requires forall u :: |u| == 5 ==> !o(u).MoreJumpsRequired?
    ensures Candidates(rest + [x, y])
    ensures Pending(rest + [x, y], o) == Rules.Search(y, o) + (Rules.Search(x, o) + Pending(rest, o))
  {
    var pushed := rest + [x, y];
    assert pushed[..|pushed| - 1] == rest + [x];
    assert (rest + [x])[..|rest|] == rest;
  }

  lemma PushTwoWeight(rest: seq<seq<MoveDir>>, x: seq<MoveDir>, y: seq<MoveDir>)
    ensures StackWeight(rest + [x, y]) == StackWeight(rest) + TreeWeight(|x|) + TreeWeight(|y|)
  {
    var pushed := rest + [x, y];
    assert pushed[..|pushed| - 1] == rest + [x];
    assert (rest + [x])[..|rest|] == rest;
  }

  /** The number of candidates a search from one of length `n` can visit. */
  function TreeWeight(n: nat): nat
    ensures TreeWeight(n) >= 1
    decreases if n >= 5 then 0 else 5 - n
  {
    if n >= 5 then 1 else 2 * TreeWeight(n + 1) + 1
  }

  /** The number of candidates the work list can still visit: replacing a
      candidate by its two extensions lowers it by one. */
  function StackWeight(stack: seq<seq<MoveDir>>): nat
  {
    if stack == [] then 0
    else StackWeight(stack[..|stack| - 1]) + TreeWeight(|stack[|stack| - 1]|)
  }

  /** Tries Left then Right and keeps the directions DoSimpleMove accepts. */
  method PossibleSimpleMoves(l: Location, p: Player, b: Board) returns (validMoves: seq<MoveDir>)
    ensures validMoves == Rules.PossibleSimpleMoves(l, p, b)
  {
    validMoves := [];
    var movesToTry := [MoveDir.Left, MoveDir.Right];
    for i := 0 to |movesToTry|
      invariant validMoves == Rules.Accepted(movesToTry[..i], Rules.SimpleMoveOk(l, p, b))
    {
      var move := movesToTry[i];
      assert movesToTry[..i + 1][..i] == movesToTry[..i];
      var r := DoSimpleMove(move, l, p, b);
      if r.Moved? {
        validMoves := validMoves + [move];
      }
    }
    assert movesToTry[..|movesToTry|] == movesToTry;
  }

  /** The per-piece gate, in the source's order of checks. */
  method CanMovePieceAtLocation(loc: Option<Location>, p: Player, b: Board) returns (r: bool)
    requires loc.Some? ==> InBounds(loc.value)
    ensures r == Rules.CanMovePieceAtLocation(loc, p, b)
  {
    if loc.None? {
      return false;
    }
    var l := loc.value;
    if b[l.y][l.x] == Square.Empty {
      return false;
    }
    if b[l.y][l.x] != MySquare(p) {
      return false;
    }
    var mustJump := BoardHasPotentialJumps(b, p);
    var thisPieceJumps := PossibleJumps(l, p, b);
    if mustJump && thisPieceJumps == [] {
      return false;
    }
    var thisPieceSimpleMoves := PossibleSimpleMoves(l, p, b);
    if thisPieceSimpleMoves == [] && thisPieceJumps == [] {
      return false;
    }
    return true;
  }

  /** Collects the piece's capture lists, or its simple moves when it has
      none, each tagged with the location and the player. */
  method PossibleMoves(l: Location, p: Player, b: Board) returns (results: seq<Rules.TaggedMove>)
    ensures results == Rules.PossibleMoves(l, p, b)
  {
    var jumps := PossibleJumps(l, p, b);
    if jumps != [] {
      results := TagJumps(l, p, jumps);
    } else {
      var moves := PossibleSimpleMoves(l, p, b);
      results := TagSteps(l, p, moves);
    }
  }

  /** The loop that tags each capture list in turn. */
  method TagJumps(l: Location, p: Player, jumps: seq<seq<MoveDir>>) returns (results: seq<Rules.TaggedMove>)
    ensures results == Rules.TagJumps(l, p, jumps)
  {
    results := [];
    for i := 0 to |jumps|
      invariant |results| == i
      invariant forall k :: 0 <= k < i ==> results[k] == Rules.TaggedMove(l, p, Rules.Jumps(jumps[k]))
    {
      results := results + [Rules.TaggedMove(l, p, Rules.Jumps(jumps[i]))];
    }
  }

  /** The loop that tags each simple-move direction in turn. */
  method TagSteps(l: Location, p: Player, moves: seq<MoveDir>) returns (results: seq<Rules.TaggedMove>)
    ensures results == Rules.TagSteps(l, p, moves)
  {
    results := [];
    for i := 0 to |moves|
      invariant |results| == i
      invariant forall k :: 0 <= k < i ==> results[k] == Rules.TaggedMove(l, p, Rules.Simple(moves[k]))
    {
      results := results + [Rules.TaggedMove(l, p, Rules.Simple(moves[i]))];
    }
  }

  /** Dispatches a move to the simple move or the capture loop. */
  method DoMove(m: Rules.Move, origin: Location, p: Player, b: Board) returns (r: MoveResult)
    ensures r == Rules.DoMove(m, origin, p, b)
  {
    match m {
      case Simple(d) =>
        r := DoSimpleMove(d, origin, p, b);
      case Jumps(dirs) =>
        r := DoJumps(dirs, origin, p, b);
    }
  }
}
