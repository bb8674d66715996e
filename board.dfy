/** Pieces, players, the 8x8 board, its starting layout and the two board
    primitives every rule uses: the bounds-checked lookup and the rebuild. */
module Checkerboard {

  datatype Option<T> = None | Some(value: T)

  /** Horizontal component of a diagonal step. */
  datatype MoveDir = Left | Right

  /** The content of one cell. */
  datatype Square = Empty | Red | Black

  datatype Player = Red | Black

  /** The signed value of a direction: Left is -1, Right is +1. */
  function Dx(d: MoveDir): int
  {
    match d
    case Left => -1
    case Right => 1
  }

  /** The row step of a player's forward direction: Red plays toward row 0,
      Black toward row 7. */
  function Forward(p: Player): int
  {
    match p
    case Red => -1
    case Black => 1
  }

  /** The row `n` forward steps of player `p` away from row `y`. */
  function RowAhead(y: int, p: Player, n: int): int
  {
    match p
    case Red => y - n
    case Black => y + n
  }

  function Enemy(p: Player): Player
  {
    match p
    case Red => Player.Black
    case Black => Player.Red
  }

  /** The kind of square that holds one of `p`'s men. */
  function MySquare(p: Player): Square
  {
    match p
    case Red => Square.Red
    case Black => Square.Black
  }

  lemma PlayerSquares(p: Player)
    ensures MySquare(p) != Square.Empty
    ensures MySquare(Enemy(p)) != MySquare(p) && MySquare(Enemy(p)) != Square.Empty
    ensures Enemy(Enemy(p)) == p && Enemy(p) != p
    ensures RowAhead(0, p, 1) == Forward(p)
  {
  }

  /** A (column, row) pair; it carries no validity of its own. */
  datatype Location = Loc(x: int, y: int)

  predicate InBounds(l: Location)
  {
    0 <= l.x < 8 && 0 <= l.y < 8
  }

  predicate IsBoard(b: seq<seq<Square>>)
  {
    |b| == 8 && forall y :: 0 <= y < 8 ==> |b[y]| == 8
  }

  /** Eight rows of eight squares, indexed board[y][x]. */
  type Board = b: seq<seq<Square>> | IsBoard(b) witness seq(8, _ => seq(8, _ => Square.Empty))

  function At(b: Board, l: Location): Square
    requires InBounds(l)
  {
    b[l.y][l.x]
  }

  /** The content of (x, y) in the starting position. */
  function StartingSquare(x: int, y: int): Square
  {
    if (x + y) % 2 == 0 then Square.Empty
    else if y < 3 then Square.Black
    else if y > 4 then Square.Red
    else Square.Empty
  }

  const StartingBoard: Board := seq(8, y => seq(8, x => StartingSquare(x, y)))

  /** Only the dark squares, those where x + y is odd, may hold a man. */
  predicate DarkSquaresOnly(b: Board)
  {
    forall x, y :: 0 <= x < 8 && 0 <= y < 8 && (x + y) % 2 == 0 ==> b[y][x] == Square.Empty
  }

  /** Builds a board of the same shape as `b` whose square (x, y) is f(x, y). */
  function NextBoard(f: (int, int) --> Square, b: Board): (r: Board)
    requires forall x, y :: 0 <= x < 8 && 0 <= y < 8 ==> f.requires(x, y)
    ensures forall x, y :: 0 <= x < 8 && 0 <= y < 8 ==> r[y][x] == f(x, y)
  {
    seq(|b|, y requires 0 <= y < |b| => seq(|b[y]|, x requires 0 <= x < |b[y]| => f(x, y)))
  }

  /** Whether the square at `l` equals `query`; false whenever `l` is off the
      board, whatever the query, Empty included. */
  function SquareIs(l: Location, query: Square, b: Board): (r: bool)
    ensures r ==> InBounds(l)
    ensures InBounds(l) ==> (r <==> At(b, l) == query)
  {
    if l.y < 0 || l.y >= |b| then false
    else if l.x < 0 || l.x >= |b[l.y]| then false
    else b[l.y][l.x] == query
  }

  /** The locations on `b` that hold `s`. */
  function PieceSet(b: Board, s: Square): (r: set<Location>)
    ensures forall l :: l in r <==> InBounds(l) && At(b, l) == s
  {
    var r := set x, y | 0 <= x < 8 && 0 <= y < 8 && b[y][x] == s :: Loc(x, y);
    assert forall l :: InBounds(l) && At(b, l) == s ==> l in r by {
      forall l | InBounds(l) && At(b, l) == s ensures l in r {
        assert l == Loc(l.x, l.y);
      }
    }
    r
  }

  /** The number of squares of `b` that hold `s`. */
  function Count(b: Board, s: Square): nat
  {
    |PieceSet(b, s)|
  }

  /** The number of `p`'s enemy's men on `b`: the measure that every accepted
      capture decreases. */
  function EnemyCount(b: Board, p: Player): nat
  {
    Count(b, MySquare(Enemy(p)))
  }

  lemma StartingLayout()
    ensures DarkSquaresOnly(StartingBoard)
    ensures forall x, y :: 0 <= x < 8 && 3 <= y <= 4 ==> StartingBoard[y][x] == Square.Empty
    ensures forall x, y :: 0 <= x < 8 && 0 <= y < 3 && (x + y) % 2 == 1 ==> StartingBoard[y][x] == Square.Black
    ensures forall x, y :: 0 <= x < 8 && 5 <= y < 8 && (x + y) % 2 == 1 ==> StartingBoard[y][x] == Square.Red
  {
  }

  /** Each side starts with twelve men. */
  lemma StartingCounts()
    ensures Count(StartingBoard, Square.Black) == 12
    ensures Count(StartingBoard, Square.Red) == 12
  {
    StartingBlacks();
    StartingReds();
  }

  lemma StartingBlacks()
    ensures Count(StartingBoard, Square.Black) == 12
  {
    var blacks := DarkRow(0) + DarkRow(1) + DarkRow(2);
    ThreeRows(0);
    StartingPieces(Square.Black, 0, blacks);
  }

  lemma StartingReds()
    ensures Count(StartingBoard, Square.Red) == 12
  {
    var reds := DarkRow(5) + DarkRow(6) + DarkRow(7);
    ThreeRows(5);
    StartingPieces(Square.Red, 5, reds);
  }

  /** The four dark squares of row `y`. */
  function DarkRow(y: int): (r: set<Location>)
    ensures forall l: Location :: l in r <==> 0 <= l.x < 8 && l.y == y && (l.x + l.y) % 2 == 1
  {
    var first := if y % 2 == 0 then 1 else 0;
    var r := {Loc(first, y), Loc(first + 2, y), Loc(first + 4, y), Loc(first + 6, y)};
    assert forall l: Location :: 0 <= l.x < 8 && l.y == y && (l.x + l.y) % 2 == 1 ==> l in r by {
      forall l: Location | 0 <= l.x < 8 && l.y == y && (l.x + l.y) % 2 == 1 ensures l in r {
        assert l.x == first || l.x == first + 2 || l.x == first + 4 || l.x == first + 6;
        assert l == Loc(l.x, l.y);
      }
    }
    r
  }

  /** Three consecutive rows hold twelve dark squares. */
  lemma ThreeRows(y: int)
    ensures |DarkRow(y) + DarkRow(y + 1) + DarkRow(y + 2)| == 12
  {
    var a, b, c := DarkRow(y), DarkRow(y + 1), DarkRow(y + 2);
    assert |a| == 4 && |b| == 4 && |c| == 4;
    assert a * b == {};
    assert (a + b) * c == {};
  }

  /** The men of kind `s` in the starting position are the dark squares of
      the three rows from `row`. */
  lemma StartingPieces(s: Square, row: int, expected: set<Location>)
    requires (s == Square.Black && row == 0) || (s == Square.Red && row == 5)
    requires forall l :: l in expected <==> InBounds(l) && row <= l.y < row + 3 && (l.x + l.y) % 2 == 1
    ensures PieceSet(StartingBoard, s) == expected
  {
    forall l | InBounds(l)
      ensures At(StartingBoard, l) == s <==> row <= l.y < row + 3 && (l.x + l.y) % 2 == 1
    {
      assert At(StartingBoard, l) == StartingSquare(l.x, l.y);
    }
  }

  lemma SubsetCount<T>(a: set<T>, b: set<T>)
    requires a <= b
    ensures |a| <= |b|
    ensures a < b ==> |a| < |b|
  {
    assert b == a + (b - a);
    assert a * (b - a) == {};
  }
}
