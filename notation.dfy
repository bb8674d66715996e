/** The text form of squares and moves: "h6"-style square names, their
    parser, and the rendering of a move as its origin followed by one
    " -> square" per step. */
module Notation {
  import opened Checkerboard
  import opened Moves
  import Rules

  /** Column letters: 'h' names column 0 and 'a' column 7. */
  const XChars: string := "hgfedcba"

  /** The characters a whitespace strip removes: the ASCII controls tab to
      carriage return, the four separator controls, the space, and the
      Unicode spaces and line separators. */
  predicate IsSpace(c: char)
  {
    var n := c as int;
    || 0x09 <= n <= 0x0D || 0x1C <= n <= 0x20 || n == 0x85 || n == 0xA0 || n == 0x1680
    || 0x2000 <= n <= 0x200A || n == 0x2028 || n == 0x2029 || n == 0x202F || n == 0x205F || n == 0x3000
  }

  /** The number of whitespace characters that open `s`. */
  function LeadingSpaces(s: string): (n: nat)
    ensures n <= |s|
    ensures forall k :: 0 <= k < n ==> IsSpace(s[k])
    ensures n < |s| ==> !IsSpace(s[n])
  {
    if s == [] || !IsSpace(s[0]) then 0 else 1 + LeadingSpaces(s[1..])
  }

  /** The number of whitespace characters that close `s`. */
  function TrailingSpaces(s: string): (n: nat)
    ensures n <= |s|
    ensures forall k :: |s| - n <= k < |s| ==> IsSpace(s[k])
    ensures n < |s| ==> !IsSpace(s[|s| - 1 - n])
  {
    if s == [] || !IsSpace(s[|s| - 1]) then 0 else 1 + TrailingSpaces(s[..|s| - 1])
  }

  /** `s` without its leading and trailing whitespace. */
  function Strip(s: string): (r: string)
    ensures |r| <= |s|
    ensures r == [] <==> forall k :: 0 <= k < |s| ==> IsSpace(s[k])
    ensures r != [] ==> !IsSpace(r[0]) && !IsSpace(r[|r| - 1])
  {
    var lead, trail := LeadingSpaces(s), TrailingSpaces(s);
    if lead == |s| then []
    else
      assert !IsSpace(s[lead]);
      s[lead .. |s| - trail]
  }

  /** A text whose ends are not whitespace is left as it is. */
  lemma StripUnpadded(s: string)
    requires s != [] && !IsSpace(s[0]) && !IsSpace(s[|s| - 1])
    ensures Strip(s) == s
  {
    assert LeadingSpaces(s) == 0 && TrailingSpaces(s) == 0;
  }

  /** Whitespace around a text whose ends are not whitespace is exactly
      what the strip removes. */
  lemma StripPadded(pre: string, core: string, post: string)
    requires forall k :: 0 <= k < |pre| ==> IsSpace(pre[k])
    requires forall k :: 0 <= k < |post| ==> IsSpace(post[k])
    requires core != [] && !IsSpace(core[0]) && !IsSpace(core[|core| - 1])
    ensures Strip(pre + core + post) == core
  {
    var s := pre + core + post;
    var lead, trail := LeadingSpaces(s), TrailingSpaces(s);
    assert s[|pre|] == core[0];
    assert forall k :: 0 <= k < |pre| ==> s[k] == pre[k];
    assert lead == |pre|;
    assert s[|pre| + |core| - 1] == core[|core| - 1];
    assert forall k :: |pre| + |core| <= k < |s| ==> s[k] == post[k - |pre| - |core|];
    assert trail == |post|;
    assert s[lead .. |s| - trail] == core;
  }

  /** The position of the first `c` in `s`. */
  function IndexOf(s: string, c: char): (i: nat)
    requires c in s
    ensures i < |s| && s[i] == c
    ensures forall k :: 0 <= k < i ==> s[k] != c
  {
    if s[0] == c then 0 else 1 + IndexOf(s[1..], c)
  }

  /** The value of an ASCII decimal digit; None for any other character. */
  function DigitValue(c: char): (r: Option<int>)
    ensures r.Some? <==> '0' <= c <= '9'
    ensures r.Some? ==> 0 <= r.value <= 9 && r.value == c as int - '0' as int
  {
    if '0' <= c <= '9' then Some(c as int - '0' as int) else None
  }

  /** Reads a square name such as "h6": after stripping whitespace exactly
      two characters must remain, a column letter and a row digit 1 to 8;
      None stands for the rejection of the input. */
  function ParseLocation(s: string): (r: Option<Location>)
    ensures r.Some? ==> InBounds(r.value)
    ensures |Strip(s)| != 2 ==> r.None?
    ensures r.Some? <==> |Strip(s)| == 2 && Strip(s)[0] in XChars && '1' <= Strip(s)[1] <= '8'
    ensures r.Some? ==>
      && XChars[r.value.x] == Strip(s)[0]
      && r.value.y + 1 == Strip(s)[1] as int - '0' as int
  {
    var t := Strip(s);
    if |t| != 2 then None
    else if t[0] !in XChars then None
    else
      var x := IndexOf(XChars, t[0]);
      match DigitValue(t[1])
      case None => None
      case Some(n) =>
        var y := n - 1;
        if y < 0 || y > 7 then None else Some(Loc(x, y))
  }

  /** The name of an on-board square: its column letter, then its row
      number y + 1. */
  function PrettyLocation(l: Location): (r: string)
    requires InBounds(l)
    ensures |r| == 2 && r[0] == XChars[l.x] && r[1] as int == '1' as int + l.y
    ensures !IsSpace(r[0]) && !IsSpace(r[1])
  {
    [XChars[l.x], ('1' as int + l.y) as char]
  }

  lemma ColumnsDistinct()
    ensures forall i, j :: 0 <= i < j < 8 ==> XChars[i] != XChars[j]
  {
  }

  /** Every on-board square's name parses back to the square. */
  lemma ParsePretty(l: Location)
    requires InBounds(l)
    ensures ParseLocation(PrettyLocation(l)) == Some(l)
  {
    var s := PrettyLocation(l);
    StripUnpadded(s);
    ColumnsDistinct();
    assert IndexOf(XChars, s[0]) == l.x;
  }

  /** Whitespace around a square's name does not change what it parses to. */
  lemma ParsePadded(pre: string, l: Location, post: string)
    requires InBounds(l)
    requires forall k :: 0 <= k < |pre| ==> IsSpace(pre[k])
    requires forall k :: 0 <= k < |post| ==> IsSpace(post[k])
    ensures ParseLocation(pre + PrettyLocation(l) + post) == Some(l)
  {
    StripPadded(pre, PrettyLocation(l), post);
    ParsePretty(l);
    StripUnpadded(PrettyLocation(l));
  }

  /** An accepted input is, once stripped, the name of the square it
      parses to: no two names denote one square. */
  lemma PrettyParse(s: string, l: Location)
    requires ParseLocation(s) == Some(l)
    ensures PrettyLocation(l) == Strip(s)
  {
    var t := Strip(s);
    assert PrettyLocation(l)[0] == t[0];
    assert PrettyLocation(l)[1] == t[1];
  }

  /** The squares a move's text names after its origin, as rendered: a
      simple move names its target; a capture list names one square per
      hop, whose column follows the hops' two-column steps but whose row
      advances one row per hop. */
  function RenderedSquares(m: Rules.TaggedMove): (r: seq<Location>)
    ensures m.move.Simple? ==> |r| == 1
    ensures m.move.Jumps? ==> |r| == |m.move.dirs|
  {
    match m.move
    case Simple(d) => [Step(m.location, d, m.player)]
    case Jumps(dirs) => seq(|dirs|, k requires 0 <= k < |dirs| => RenderedHop(m.location, m.player, dirs, k + 1))
  }

  /** The square rendered after the first `k` hops. */
  function RenderedHop(origin: Location, p: Player, dirs: seq<MoveDir>, k: nat): Location
    requires k <= |dirs|
  {
    Loc(origin.x + 2 * XShift(dirs[..k]), RowAhead(origin.y, p, k))
  }

  /** Each rendered hop moves two columns and one row on. */
  lemma RenderedHopNext(origin: Location, p: Player, dirs: seq<MoveDir>, i: nat)
    requires i < |dirs|
    ensures RenderedHop(origin, p, dirs, i + 1) ==
      Loc(RenderedHop(origin, p, dirs, i).x + Dx(dirs[i]) * 2, RenderedHop(origin, p, dirs, i).y + Forward(p))
  {
    assert dirs[..i + 1][..i] == dirs[..i];
    assert dirs[..i + 1][i] == dirs[i];
  }

  /** The origin and every rendered square are on the board. */
  predicate Renderable(m: Rules.TaggedMove)
  {
    InBounds(m.location) && AllOnBoard(RenderedSquares(m))
  }

  predicate AllOnBoard(squares: seq<Location>)
  {
    forall k :: 0 <= k < |squares| ==> InBounds(squares[k])
  }

  /** " -> " and the square's name, for each square in turn. */
  function PathText(squares: seq<Location>): string
    requires AllOnBoard(squares)
  {
    if squares == [] then ""
    else PathText(squares[..|squares| - 1]) + " -> " + PrettyLocation(squares[|squares| - 1])
  }

  /** Each further square adds " -> " and its name to the path text. */
  lemma PathTextNext(squares: seq<Location>, i: nat)
    requires AllOnBoard(squares) && i < |squares|
    ensures PathText(squares[..i + 1]) == PathText(squares[..i]) + " -> " + PrettyLocation(squares[i])
  {
    assert squares[..i + 1][..i] == squares[..i];
    assert squares[..0] == [];
  }

  /** The text of a move: the origin's name, then " -> " and a name for
      each rendered square. */
  function MoveText(m: Rules.TaggedMove): string
    requires Renderable(m)
  {
    PrettyLocation(m.location) + PathText(RenderedSquares(m))
  }

  /** Renders a move: a simple move as its origin and target, a capture
      list as its origin followed by the square after each hop. */
  method PrettyMoveStr(m: Rules.TaggedMove) returns (s: string)
    requires Renderable(m)
    ensures s == MoveText(m)
  {
    var location, player := m.location, m.player;
    match m.move {
      case Simple(d) =>
        var newX := location.x + Dx(d);
        var newY := location.y + Forward(player);
        assert Loc(newX, newY) == RenderedSquares(m)[0];
        s := PrettyLocation(location) + " -> " + PrettyLocation(Loc(newX, newY));
        PathTextNext(RenderedSquares(m), 0);
        assert RenderedSquares(m)[..1] == RenderedSquares(m);
      case Jumps(dirs) =>
        ghost var squares := RenderedSquares(m);
        s := PrettyLocation(location);
        var x, y := location.x, location.y;
        assert dirs[..0] == [];
        for i := 0 to |dirs|
          invariant Loc(x, y) == RenderedHop(location, player, dirs, i)
          invariant s == PrettyLocation(location) + PathText(squares[..i])
        {
          RenderedHopNext(location, player, dirs, i);
          x := x + Dx(dirs[i]) * 2;
          y := y + Forward(player);
          assert Loc(x, y) == squares[i];
          PathTextNext(squares, i);
          s := s + " -> " + PrettyLocation(Loc(x, y));
        }
        assert squares[..|dirs|] == squares;
    }
  }

  /** The path text is six characters per square: " -> " and the
      square's name. */
  lemma {:induction false} PathTextLayout(squares: seq<Location>)
    requires AllOnBoard(squares)
    ensures |PathText(squares)| == 6 * |squares|
    ensures forall k :: 0 <= k < |squares| ==>
      && PathText(squares)[6 * k .. 6 * k + 4] == " -> "
      && PathText(squares)[6 * k + 4 .. 6 * k + 6] == PrettyLocation(squares[k])
    decreases |squares|
  {
    if squares != [] {
      var n := |squares|;
      var init := squares[..n - 1];
      assert AllOnBoard(init);
      PathTextLayout(init);
      var head := PathText(init);
      var t := PathText(squares);
      assert t == head + " -> " + PrettyLocation(squares[n - 1]);
      forall k | 0 <= k < n
        ensures t[6 * k .. 6 * k + 4] == " -> "
        ensures t[6 * k + 4 .. 6 * k + 6] == PrettyLocation(squares[k])
      {
        if k < n - 1 {
          assert t[6 * k .. 6 * k + 4] == head[6 * k .. 6 * k + 4];
          assert t[6 * k + 4 .. 6 * k + 6] == head[6 * k + 4 .. 6 * k + 6];
          assert init[k] == squares[k];
        }
      }
    }
  }

  /** A text made of an origin's name and a path can be read back: the
      first two characters name the origin, and each following group of six
      is " -> " and the name of the next square. */
  lemma TextLayout(origin: Location, squares: seq<Location>)
    requires InBounds(origin) && AllOnBoard(squares)
    ensures var t := PrettyLocation(origin) + PathText(squares);
      && |t| == 2 + 6 * |squares|
      && ParseLocation(t[..2]) == Some(origin)
      && forall k :: 0 <= k < |squares| ==>
           && t[2 + 6 * k .. 6 + 6 * k] == " -> "
           && ParseLocation(t[6 + 6 * k .. 8 + 6 * k]) == Some(squares[k])
  {
    var head, path := PrettyLocation(origin), PathText(squares);
    var t := head + path;
    PathTextLayout(squares);
    assert t[..2] == head;
    ParsePretty(origin);
    forall k | 0 <= k < |squares|
      ensures t[2 + 6 * k .. 6 + 6 * k] == " -> "
      ensures ParseLocation(t[6 + 6 * k .. 8 + 6 * k]) == Some(squares[k])
    {
      GroupAfterHead(head, path, k);
      ParsePretty(squares[k]);
    }
  }

  /** Slices of a two-character head followed by a path. */
  lemma GroupAfterHead(head: string, path: string, k: nat)
    requires |head| == 2 && 6 * k + 6 <= |path|
    ensures (head + path)[2 + 6 * k .. 6 + 6 * k] == path[6 * k .. 6 * k + 4]
    ensures (head + path)[6 + 6 * k .. 8 + 6 * k] == path[6 * k + 4 .. 6 * k + 6]
  {
  }

  /** A move's text can be read back: the origin, then " -> " and each
      rendered square in turn. */
  lemma MoveTextLayout(m: Rules.TaggedMove)
    requires Renderable(m)
    ensures var t, squares := MoveText(m), RenderedSquares(m);
      && |t| == 2 + 6 * |squares|
      && ParseLocation(t[..2]) == Some(m.location)
      && forall k :: 0 <= k < |squares| ==>
           && t[2 + 6 * k .. 6 + 6 * k] == " -> "
           && ParseLocation(t[6 + 6 * k .. 8 + 6 * k]) == Some(squares[k])
  {
    TextLayout(m.location, RenderedSquares(m));
  }

  /** A simple move that DoSimpleMove accepts is renderable, and the square
      its text names is the one the man moves to. */
  lemma SimpleMoveRendered(m: Rules.TaggedMove, b: Board)
    requires m.move.Simple? && InBounds(m.location)
    requires DoSimpleMove(m.move.dir, m.location, m.player, b).Moved?
    ensures Renderable(m)
    ensures var target := RenderedSquares(m)[0];
      At(DoSimpleMove(m.move.dir, m.location, m.player, b).board, target) == MySquare(m.player)
  {
  }

  /** Every square a capture list's text names lies between the origin and
      the landing square the hops reach, so a legal capture list from an
      on-board square is renderable. */
  lemma JumpsRenderable(m: Rules.TaggedMove, b: Board)
    requires m.move.Jumps? && InBounds(m.location)
    requires HopsLegal(m.move.dirs, m.location, m.player, b)
    ensures Renderable(m)
  {
    var dirs, o, p := m.move.dirs, m.location, m.player;
    var squares := RenderedSquares(m);
    forall k | 0 <= k < |squares| ensures InBounds(squares[k]) {
      assert HopLegal(dirs, o, p, b, k);
      var landing := LandingAfter(o, p, dirs, k + 1);
      assert InBounds(landing);
      assert squares[k] == RenderedHop(o, p, dirs, k + 1);
    }
  }

  /** Every move the engine offers for an on-board square can be rendered. */
  lemma OfferedMovesRenderable(l: Location, p: Player, b: Board, m: Rules.TaggedMove)
    requires InBounds(l)
    requires m in Rules.PossibleMoves(l, p, b)
    ensures Renderable(m)
  {
    Rules.PossibleMovesSound(l, p, b, m);
    match m.move {
      case Simple(d) =>
        SimpleMoveRendered(m, b);
      case Jumps(dirs) =>
        Rules.DoJumpsLegal(dirs, l, p, b);
        JumpsRenderable(m, b);
    }
  }

  /** As written, a capture list's text names, for its last hop, a square
      other than the one the man lands on: the row advances one row per hop
      where the man advances two. */
  lemma RenderedJumpMisplaced(m: Rules.TaggedMove, b: Board)
    requires m.move.Jumps? && m.move.dirs != [] && InBounds(m.location)
    requires Rules.DoJumps(m.move.dirs, m.location, m.player, b).Moved?
    ensures Renderable(m)
    ensures var dirs := m.move.dirs;
      var landing := LandingAfter(m.location, m.player, dirs, |dirs|);
      && InBounds(landing)
      && At(Rules.DoJumps(dirs, m.location, m.player, b).board, landing) == MySquare(m.player)
      && RenderedSquares(m)[|dirs| - 1] != landing
  {
    var dirs := m.move.dirs;
    Rules.DoJumpsLegal(dirs, m.location, m.player, b);
    JumpsRenderable(m, b);
    Rules.DoJumpsBoard(dirs, m.location, m.player, b);
    assert RenderedSquares(m)[|dirs| - 1] == RenderedHop(m.location, m.player, dirs, |dirs|);
  }

  /** The concrete case: a Black man on f5 capturing to the Right over e6
      lands on d7, but the text reads "f5 -> d6". */
  lemma RenderedJumpExample()
    ensures var m := Rules.TaggedMove(Loc(2, 4), Player.Black, Rules.Jumps([MoveDir.Right]));
      && Renderable(m)
      && MoveText(m) == "f5 -> d6"
      && CapturedAt(Loc(2, 4), Player.Black, [MoveDir.Right], 0) == Loc(3, 5)
      && PrettyLocation(LandingAfter(Loc(2, 4), Player.Black, [MoveDir.Right], 1)) == "d7"
  {
    var m := Rules.TaggedMove(Loc(2, 4), Player.Black, Rules.Jumps([MoveDir.Right]));
    var dirs := [MoveDir.Right];
    assert dirs[..1] == dirs && dirs[..0] == [];
    assert XShift(dirs) == 1;
    assert RenderedHop(Loc(2, 4), Player.Black, dirs, 1) == Loc(4, 5);
    assert RenderedSquares(m)[0] == Loc(4, 5);
    assert RenderedSquares(m) == [Loc(4, 5)];
    assert RenderedSquares(m)[..0] == [];
  }

  /** The squares the text should name: a simple move's target, and for a
      capture list the square the man stands on after each hop. */
  function CorrectedSquares(m: Rules.TaggedMove): (r: seq<Location>)
    ensures m.move.Simple? ==> |r| == 1
    ensures m.move.Jumps? ==> |r| == |m.move.dirs|
  {
    match m.move
    case Simple(d) => [Step(m.location, d, m.player)]
    case Jumps(dirs) => seq(|dirs|, k requires 0 <= k < |dirs| => LandingAfter(m.location, m.player, dirs, k + 1))
  }

  /** The text of a move with each hop advancing two rows, as it moves the
      man. */
  function CorrectedMoveText(m: Rules.TaggedMove): string
    requires InBounds(m.location) && AllOnBoard(CorrectedSquares(m))
  {
    PrettyLocation(m.location) + PathText(CorrectedSquares(m))
  }

  /** With the corrected row step, the text of every completed capture list
      names, after the origin, each square the man lands on, every one of
      them empty on the board the move starts from, the last holding the
      man afterwards. */
  lemma CorrectedJumpTrack(m: Rules.TaggedMove, b: Board)
    requires m.move.Jumps? && m.move.dirs != [] && InBounds(m.location)
    requires Rules.DoJumps(m.move.dirs, m.location, m.player, b).Moved?
    ensures AllOnBoard(CorrectedSquares(m))
    ensures var dirs, t, squares := m.move.dirs, CorrectedMoveText(m), CorrectedSquares(m);
      && |t| == 2 + 6 * |dirs|
      && ParseLocation(t[..2]) == Some(m.location)
      && (forall k :: 0 <= k < |dirs| ==>
            && ParseLocation(t[6 + 6 * k .. 8 + 6 * k]) == Some(squares[k])
            && At(b, squares[k]) == Square.Empty)
      && At(Rules.DoJumps(dirs, m.location, m.player, b).board, squares[|dirs| - 1]) == MySquare(m.player)
  {
    var dirs := m.move.dirs;
    Rules.DoJumpsLegal(dirs, m.location, m.player, b);
    CorrectedSquaresEmpty(m, b);
    TextLayout(m.location, CorrectedSquares(m));
    Rules.DoJumpsBoard(dirs, m.location, m.player, b);
  }

  /** The squares a legal capture list lands on are on the board and empty
      on the board it starts from. */
  lemma CorrectedSquaresEmpty(m: Rules.TaggedMove, b: Board)
    requires m.move.Jumps?
    requires HopsLegal(m.move.dirs, m.location, m.player, b)
    ensures AllOnBoard(CorrectedSquares(m))
    ensures forall k :: 0 <= k < |m.move.dirs| ==> At(b, CorrectedSquares(m)[k]) == Square.Empty
  {
    var dirs := m.move.dirs;
    forall k | 0 <= k < |dirs|
      ensures InBounds(CorrectedSquares(m)[k]) && At(b, CorrectedSquares(m)[k]) == Square.Empty
    {
      assert HopLegal(dirs, m.location, m.player, b, k);
    }
  }
}
