# Simplified checkers: the rules engine and the square notation

This project models the rules engine of SimpleCheckers, a small terminal
checkers game. Men move one square diagonally forward, or capture by jumping
diagonally over an enemy man onto an empty square. A move may chain several
captures. Red plays toward row 0 and Black toward row 7. There are no kings.
The engine works on an immutable 8×8 board and raises `InvalidMove` or
`MoreJumpsRequired` when it refuses a move.

The Dafny model has five modules:

- `Checkerboard` (board.dfy) holds:
  - the pieces, the players and the 8×8 board;
  - the starting layout;
  - the bounds-checked lookup `square_is` and the rebuild `next_board`;
  - piece counts.
- `Moves` (moves.dfy) holds:
  - the one-step diagonal move;
  - the hop loop of a capture list, together with its closed-form geometry;
  - the board that a capture list rebuilds.
- `Rules` (rules.dfy) states every rule as a pure function. This includes the
  four functions that call each other:
  - `DoJumps` runs the board-wide continuation check;
  - `BoardHasPotentialJumps` is the forced-capture test;
  - `PossibleJumps` is the capture search;
  - `Search` explores the capture lists that `PossibleJumps` starts from.

  Termination goes by the number of enemy men, then the call level, then the
  room left for a longer capture list. The same module holds the per-piece
  gate, the move enumeration and the lemmas relating them.
- `Engine` (engine.dfy) writes the source's loops as methods, each proved
  equal to its `Rules` function:
  - the hop loop of `do_jumps`;
  - the work list of `possible_jumps`, whose termination is proved;
  - the nested scan of `board_has_potential_jumps`;
  - the loops of `possible_simple_moves` and `possible_moves`.

  Three helper methods split the source's single functions. `WalkHops` holds
  the hop loop of `do_jumps`, and `TagJumps` and `TagSteps` hold the two
  loops of `possible_moves`.
- `Notation` (notation.dfy) is the square and move notation:
  - `parse_location_from_str` is `ParseLocation`, with Python's whitespace
    strip;
  - `pretty_location_str` is `PrettyLocation`;
  - `pretty_move_str` is `PrettyMoveStr`, a method with the source's loop.

Exceptions become values:

- `InvalidMove` and `MoreJumpsRequired` are constructors of `MoveResult`;
- `InvalidLocationString` is `None`.

Python's `is` comparisons of enum members are modelled as equality.

The engine is written twice in the repository:

- main.py:53-67 repeats game.py:49-63 (add 4 to a line number);
- main.py:94-232 repeats game.py:65-203 (add 29);
- main.py:69-84 repeats player_interfaces.py:54-69 (add 15);
- main.py:234-253 repeats player_interfaces.py:18-37 (add 216).

Each copy is modelled once. The table cites the game.py and
player_interfaces.py lines.

## Model

| member | source | states |
|---|---|---|
| Checkerboard.PlayerSquares | game.py:28-40 | The enemy of a player's enemy is the player. The two sides' men are different squares, and neither is Empty. |
| Checkerboard.StartingLayout | game.py:49-60 | At the start, every light square (x+y even) is empty and rows 3-4 are empty. Black men fill the dark squares of rows 0-2 and Red men those of rows 5-7. |
| Checkerboard.StartingCounts | game.py:49-60 | Each side starts with exactly twelve men. |
| Checkerboard.NextBoard | game.py:62-63 | Each square (x, y) of the rebuilt board is the square function's value at (x, y). The 8×8 shape is kept. |
| Checkerboard.SquareIs | game.py:65-72 | The test is false for every off-board location, whatever the query, Empty included. On the board it holds exactly when the square equals the query. |
| Moves.DoSimpleMove | game.py:74-90 | The move is refused exactly when the diagonal target is not an on-board Empty square. It never asks for more captures. On success the target holds the mover's man and an on-board origin is Empty. Every other square is unchanged. |
| Moves.SimpleMoveCounts | game.py:74-90 | A simple move by one of the mover's men keeps both sides' piece counts. |
| Moves.SimpleMoveDarkSquares | game.py:74-90 | A simple move by a man on a dark square keeps every light square empty. |
| Moves.HopWalkGeometry | game.py:95-106 | The hop loop succeeds exactly when every hop jumps an enemy man onto an empty square, both read on the input board. It lands, and records the jumped squares in order, where the closed-form geometry says. |
| Moves.HopFacts | game.py:95-106 | A legal hop walk has at most four hops. Its jumped squares are on the board, hold enemy men and are distinct. It ends on a square of the origin's colour, and a non-empty walk ends on an empty square other than the origin. |
| Moves.JumpedBoardGeometry | game.py:108-118 | After a legal non-empty capture list the landing square holds the mover's man. The origin and every jumped square are Empty. Any other changed square is a jumped square. |
| Moves.JumpedBoardEnemies | game.py:108-119 | The rebuild never adds an enemy man, and a non-empty capture list removes at least one. This is the measure that ends the recursion. |
| Moves.JumpCounts | game.py:108-118 | When the origin holds the mover's man, the enemy count drops by the number of hops and the mover's count is unchanged. |
| Moves.JumpDarkSquares | game.py:108-118 | Captures by a man on a dark square keep every light square empty. |
| Rules.DoJumps | game.py:92-121 | A capture list is refused exactly when its hop walk fails. Only lists of at most four hops are ever accepted. |
| Rules.DoJumpsLegal | game.py:95-106 | A capture list is refused exactly when some hop does not jump an enemy man onto an empty square of the input board. |
| Rules.DoJumpsMoved | game.py:118-121 | An accepted list's board is the rebuilt board. On it no man of the mover can capture. |
| Rules.DoJumpsBoard | game.py:108-121 | The board of an accepted list: the mover's man on the last landing square, the origin and every jumped square Empty, nothing else changed. |
| Rules.CompletedJumpsLeaveNoCapture | game.py:119-121 | After an accepted capture list, every man of the mover on the new board has an empty capture list. |
| Rules.MustJumpIffSomeJumper | game.py:162-167 | The forced-capture test holds exactly when some on-board man of the player has a non-empty capture list. |
| Rules.PossibleSimpleMoves | game.py:130-143 | The result holds exactly the directions that `do_simple_move` accepts, with Left before Right. |
| Rules.SearchFinds | game.py:149-159 | A candidate's search returns exactly the accepted extensions of the candidate all of whose intermediate prefixes were refused as incomplete. |
| Rules.PossibleJumpsFinds | game.py:145-160 | A list is found exactly when it is non-empty, `do_jumps` accepts it, and `do_jumps` answers MoreJumpsRequired for each shorter non-empty prefix. |
| Rules.PossibleJumpsSound | game.py:145-160 | Every found list has one to four hops, each one legal, and `do_jumps` accepts it. |
| Rules.NoAdjacentEnemyNoJumps | game.py:145-160 | A man with no enemy man diagonally ahead has no capture list. |
| Rules.StartingNoCaptures | game.py:162-167 | In the starting position neither side is forced to capture. |
| Rules.CanMovePieceAtLocation | game.py:169-191 | The gate passes exactly when a square is given and holds the player's man, and that man has a capture, or it has a simple move while no man of the player can capture. |
| Rules.GateMatchesMoves | game.py:169-203 | The gate passes exactly when the square holds the player's man with a non-empty move list, and that list holds only captures whenever the player must capture. |
| Rules.PossibleMovesSound | game.py:193-203 | Every offered move carries the given location and player, and `do_move` accepts it. The offer is captures exactly when the piece has a capture. |
| Rules.PossibleMovesComplete | game.py:193-203 | Every capture list of the piece is offered. When it has none, every simple move `do_simple_move` accepts is offered. |
| Rules.MoveCounts | game.py:123-128 | A move by one of the player's men keeps the player's count. It lowers the enemy count by the number of hops, or by zero for a simple move. |
| Rules.MovePreservesDarkSquares | game.py:123-128 | A move by one of the player's men keeps every light square empty. |
| Engine.DoJumps | game.py:92-121 | The method runs the hop loop, rebuilds the board and runs the continuation check. It returns exactly the outcome `Rules.DoJumps` specifies. |
| Engine.WalkHops | game.py:93-106 | The hop loop's result is the hop walk: the landing square and the jumped squares, or a refusal. |
| Engine.BoardHasPotentialJumps | game.py:162-167 | The nested row-major scan with early return answers the forced-capture test. |
| Engine.PossibleJumps | game.py:145-160 | The work list, popped from the end and extended on MoreJumpsRequired, empties. The lists it keeps are `Rules.PossibleJumps`, in order. |
| Engine.PossibleSimpleMoves | game.py:130-143 | The loop over Left then Right keeps exactly `Rules.PossibleSimpleMoves`. |
| Engine.CanMovePieceAtLocation | game.py:169-191 | The gate's early returns give `Rules.CanMovePieceAtLocation`. |
| Engine.PossibleMoves | game.py:193-203 | The result is the piece's tagged captures if it has any, else its tagged simple moves, as `Rules.PossibleMoves` says. |
| Engine.TagJumps | game.py:196-198 | The loop tags each capture list, in order, with the location and the player. |
| Engine.TagSteps | game.py:199-202 | The loop tags each simple move, in order, with the location and the player. |
| Engine.DoMove | game.py:123-128 | A single direction goes to the simple move and a list to the capture move. |
| Notation.Strip | player_interfaces.py:56 | The result is empty exactly when the text is all whitespace. Otherwise it neither starts nor ends with whitespace. |
| Notation.ParseLocation | player_interfaces.py:54-69 | The text is accepted exactly when it strips to two characters, a letter of "hgfedcba" and a digit 1-8. The letter's index is x, the digit minus one is y, and the result is always on the board. |
| Notation.PrettyLocation | player_interfaces.py:18-20 | The name of an on-board square is its column letter followed by the digit y+1. |
| Notation.ParsePretty | player_interfaces.py:18-20 | Every on-board square's name parses back to the square. |
| Notation.ParsePadded | player_interfaces.py:54-58 | Whitespace around a square's name does not change what it parses to. |
| Notation.PrettyParse | player_interfaces.py:54-69 | An accepted text strips to the name of the square it parses to. |
| Notation.PrettyMoveStr | player_interfaces.py:22-37 | The loop builds the origin's name followed by " -> " and a name for each rendered square. |
| Notation.MoveTextLayout | player_interfaces.py:22-37 | A move's text is 2 + 6n characters long. Its first two parse back to the origin, and each following group of six is " -> " and a name that parses back to the next rendered square. |
| Notation.SimpleMoveRendered | player_interfaces.py:24-27 | An accepted simple move renders the square the man moves to. |
| Notation.JumpsRenderable | player_interfaces.py:29-37 | Every square named for a legal capture list from an on-board square is on the board. |
| Notation.OfferedMovesRenderable | player_interfaces.py:22-37 | Every move the engine offers for an on-board square can be rendered. |
| Notation.RenderedJumpMisplaced | player_interfaces.py:34-35 | As written, for an accepted capture list the last rendered square is not the square where the man lands. |
| Notation.RenderedJumpExample | player_interfaces.py:34-35 | As written, a Black man on f5 capturing Right over e6 lands on d7, but the move is rendered "f5 -> d6". |
| Notation.CorrectedJumpTrack | player_interfaces.py:29-37 | With two rows per hop, the text names each landing square in turn, each empty beforehand. The last one holds the man afterwards. |

## Left out

- The I/O functions are not part of this model: `print_board`, `get_choice_from_stdin`, `get_move_from_stdin` and the `main` loop. They read stdin and print (player_interfaces.py:10-16, 39-80; main.py:86-92, 255-299).
- Rules.CanMovePieceAtLocation: the `print_reasons` messages are not modelled, only the boolean answer.
- Engine.CanMovePieceAtLocation: a given location must be on the board. The source would wrap negative indices or fail on larger ones. Its only caller passes the parser's result, which is always on the board.
- tests.py is not part of this model. It drives random games through names that none of the shown files define.
- `Square.__str__` and `Player.__str__` are display only.
- Notation.ParseLocation: only the ASCII digits 0-9 are read as digits. Python's `int` also accepts other Unicode decimal digits.
- Notation.PrettyLocation: modelled for on-board squares only. The source would wrap a negative column index, and would print several digits for a large row.
- Notation.PrettyMoveStr: requires every rendered square on the board, for the same reason. Notation.OfferedMovesRenderable shows that every move the engine offers meets this.
- Boards of other sizes are not modelled. The only board the source builds is 8×8, and the `Board` type fixes that shape.

## Findings

| source | as written | input that shows it | evidently intended | confidence | as-written member | corrected member |
|---|---|---|---|---|---|---|
| player_interfaces.py:35 (main.py:251 is the same line) | Each hop of a rendered capture list advances the row by `player.value`, one row. The column advances by two. | A Black man on f5 (x=2, y=4) captures Right over e6 (3,5) and lands on d7 (4,6). The text reads "f5 -> d6". | Each hop advances the row by `2 * player.value`, as `do_jumps` moves the man (game.py:104). | not executed | Notation.RenderedJumpMisplaced | Notation.CorrectedJumpTrack |
