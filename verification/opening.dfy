/** The legal moves of the standard start position: four for each side. */
module Opening {
  import opened BoardState
  import opened Legality
  import opened Enumeration

  /** Black's opening moves, in scan order. */
  function BlackOpening(): seq<Move> {
    [Move(2, 3), Move(3, 2), Move(4, 5), Move(5, 4)]
  }

  /** White's opening moves, in scan order. */
  function WhiteOpening(): seq<Move> {
    [Move(2, 4), Move(3, 5), Move(4, 2), Move(5, 3)]
  }

  /** Both lists are in scan order: positions 19, 26, 37, 44 for Black and
      20, 29, 34, 43 for White. */
  lemma OpeningIncreasing()
    ensures Increasing(BlackOpening()) && Increasing(WhiteOpening())
  {
    var bs, ws := BlackOpening(), WhiteOpening();
    assert forall i | 0 <= i < 4 :: ScanPos(bs[i]) == [19, 26, 37, 44][i];
    assert forall i | 0 <= i < 4 :: ScanPos(ws[i]) == [20, 29, 34, 43][i];
  }

  /** Two increasing lists of on-board squares with the same members are the
      same list. */
  lemma {:induction false} IncreasingUnique(r: seq<Move>, s: seq<Move>)
    requires Increasing(r) && Increasing(s)
    requires forall m :: m in r ==> OnBoard(m.x, m.y)
    requires forall m :: m in r <==> m in s
    ensures r == s
    decreases |r|
  {
    if r == [] {
      assert forall m :: m !in s;
    } else {
      SameHead(r, s);
      SameTail(r, s);
      IncreasingUnique(r[1..], s[1..]);
      assert r == [r[0]] + r[1..] && s == [s[0]] + s[1..];
    }
  }

  /** The head of an increasing list is its least member, so two such lists
      with the same members start alike. */
  lemma SameHead(r: seq<Move>, s: seq<Move>)
    requires Increasing(r) && Increasing(s) && r != []
    requires forall m :: m in r ==> OnBoard(m.x, m.y)
    requires forall m :: m in r <==> m in s
    ensures s != [] && r[0] == s[0]
  {
    assert r[0] in r;
    assert s[0] in s;
    var i :| 0 <= i < |r| && r[i] == s[0];
    var j :| 0 <= j < |s| && s[j] == r[0];
    assert ScanPos(r[0]) <= ScanPos(r[i]);
    assert ScanPos(s[0]) <= ScanPos(s[j]);
    ScanPosInjective(r[0], s[0]);
  }

  /** Dropping the common head keeps the members equal and the lists
      increasing. */
  lemma SameTail(r: seq<Move>, s: seq<Move>)
    requires Increasing(r) && Increasing(s) && r != [] && s != [] && r[0] == s[0]
    requires forall m :: m in r ==> OnBoard(m.x, m.y)
    requires forall m :: m in r <==> m in s
    ensures Increasing(r[1..]) && Increasing(s[1..])
    ensures forall m :: m in r[1..] ==> OnBoard(m.x, m.y)
    ensures forall m :: m in r[1..] <==> m in s[1..]
  {
    forall m ensures m in r[1..] <==> m in s[1..] {
      TailMembers(r, m);
      TailMembers(s, m);
    }
    forall m | m in r[1..] ensures OnBoard(m.x, m.y) {
      TailMembers(r, m);
    }
  }

  /** The tail of an increasing list holds every member except the head. */
  lemma TailMembers(r: seq<Move>, m: Move)
    requires Increasing(r) && r != []
    ensures m in r[1..] <==> m in r && m != r[0]
  {
    if m in r[1..] {
      var k :| 0 <= k < |r| - 1 && r[1..][k] == m;
      assert ScanPos(r[0]) < ScanPos(r[k + 1]);
    }
    if m in r && m != r[0] {
      var k :| 0 <= k < |r| && r[k] == m;
      assert m == r[1..][k - 1];
    }
  }

  /** The discs of the start position: white on (3,3) and (4,4), black on
      (4,3) and (3,4). */
  predicate StartDisc(s: Side, x: int, y: int) {
    if s == White then (x, y) == (3, 3) || (x, y) == (4, 4)
    else (x, y) == (4, 3) || (x, y) == (3, 4)
  }

  lemma InitialDisc(s: Side, x: int, y: int)
    ensures HasDisc(Initial(), s, x, y) <==> StartDisc(s, x, y)
  {
    if OnBoard(x, y) {
      assert Owned(Initial(), s) == if s == White then {27, 36} else {28, 35};
    }
  }

  /** An explicit form of a step along a ray. */
  lemma ShiftLinear(v: int, dv: int, k: int)
    requires -1 <= dv <= 1
    ensures Shift(v, dv, k) == v + k * dv
  {
  }

  /** The k-th square of a ray, read in the start position. */
  lemma DiscAtStart(s: Side, x: int, y: int, d: Dir, k: int)
    requires IsDir(d)
    ensures DiscAt(Initial(), s, x, y, d, k) <==> StartDisc(s, x + k * d.dx, y + k * d.dy)
  {
    ShiftLinear(x, d.dx, k);
    ShiftLinear(y, d.dy, k);
    InitialDisc(s, Shift(x, d.dx, k), Shift(y, d.dy, k));
  }

  /** The step from (x, y) along d reaches the square diagonally opposite
      across the centre. */
  predicate Diagonal(x: int, y: int, d: Dir) {
    (x + d.dx, y + d.dy) == (7 - x, 7 - y)
  }

  /** The runs from the four centre discs: one disc long, except towards the
      diagonal partner of the same colour, where the run is two discs long. */
  lemma CentreRun(s: Side, x: int, y: int, d: Dir)
    requires IsDir(d) && StartDisc(s, x, y)
    ensures RunLength(Initial(), s, x, y, d) == if Diagonal(x, y, d) then 2 else 1
  {
    var b := Initial();
    var n := if Diagonal(x, y, d) then 2 else 1;
    DiscAtStart(s, x, y, d, 0);
    DiscAtStart(s, x, y, d, 1);
    DiscAtStart(s, x, y, d, 2);
    RunLengthUnique(b, s, x, y, d, n);
  }

  /** A square next to an opponent centre disc captures in the direction of
      that disc exactly when it is one of the side's opening moves. */
  lemma CentreCaptures(X: int, Y: int, side: Side, d: Dir)
    requires IsDir(d) && StartDisc(Other(side), X + d.dx, Y + d.dy)
    ensures DirCaptures(Initial(), X, Y, side, d) <==> Opening(side, X, Y)
  {
    var x, y := X + d.dx, Y + d.dy;
    InitialDisc(Other(side), x, y);
    CentreRun(Other(side), x, y, d);
    PastCentreRun(X, Y, side, d);
    if Diagonal(x, y, d) {
      CapturesPastRun(Initial(), X, Y, side, d, 2);
    } else {
      CapturesPastRun(Initial(), X, Y, side, d, 1);
    }
  }

  /** The square just past the opponent's run from a centre disc holds a
      disc of the side exactly for the opening moves. */
  lemma PastCentreRun(X: int, Y: int, side: Side, d: Dir)
    requires IsDir(d) && StartDisc(Other(side), X + d.dx, Y + d.dy)
    ensures Diagonal(X + d.dx, Y + d.dy, d) ==>
              !DiscAt(Initial(), side, X + d.dx, Y + d.dy, d, 2) && !Opening(side, X, Y)
    ensures !Diagonal(X + d.dx, Y + d.dy, d) ==>
              (DiscAt(Initial(), side, X + d.dx, Y + d.dy, d, 1) <==> Opening(side, X, Y))
  {
    var x, y := X + d.dx, Y + d.dy;
    if Diagonal(x, y, d) {
      DiscAtStart(side, x, y, d, 2);
      DiagonalGeometry(X, Y, x, y, side, d);
    } else {
      DiscAtStart(side, x, y, d, 1);
      StraightGeometry(X, Y, x, y, side, d);
    }
  }

  /** Next to an opponent disc whose run is n discs long, a direction
      captures exactly when a disc of the mover lies just past the run. */
  lemma CapturesPastRun(b: Board, X: int, Y: int, side: Side, d: Dir, n: nat)
    requires IsDir(d) && HasDisc(b, Other(side), X + d.dx, Y + d.dy)
    requires RunLength(b, Other(side), X + d.dx, Y + d.dy, d) == n
    ensures DirCaptures(b, X, Y, side, d) <==> DiscAt(b, side, X + d.dx, Y + d.dy, d, n)
  {
  }

  /** Towards the diagonal partner the opponent's run is two discs long and
      is followed by an empty square, and such a square is no opening move. */
  lemma DiagonalGeometry(X: int, Y: int, x: int, y: int, side: Side, d: Dir)
    requires IsDir(d) && x == X + d.dx && y == Y + d.dy && StartDisc(Other(side), x, y)
    requires Diagonal(x, y, d)
    ensures !StartDisc(side, x + 2 * d.dx, y + 2 * d.dy) && !Opening(side, X, Y)
  {
  }

  /** In any other direction the run is one disc long, and the square past it
      holds a disc of the side exactly for the opening moves. */
  lemma StraightGeometry(X: int, Y: int, x: int, y: int, side: Side, d: Dir)
    requires IsDir(d) && x == X + d.dx && y == Y + d.dy && StartDisc(Other(side), x, y)
    requires !Diagonal(x, y, d)
    ensures StartDisc(side, x + 1 * d.dx, y + 1 * d.dy) <==> Opening(side, X, Y)
  {
  }

  /** (X, Y) is one of the side's four opening moves. */
  predicate Opening(side: Side, X: int, Y: int) {
    Move(X, Y) in (if side == Black then BlackOpening() else WhiteOpening())
  }

  /** The direction in which a listed opening move captures: towards the
      adjacent centre disc of the opponent. */
  function OpeningDir(X: int, Y: int, side: Side): (d: Dir)
    requires Opening(side, X, Y)
    ensures d in Directions() && IsDir(d) && StartDisc(Other(side), X + d.dx, Y + d.dy)
  {
    var c := if side == Black then (if X + Y < 7 then (3, 3) else (4, 4))
             else (if X < Y then (3, 4) else (4, 3));
    Dir(c.0 - X, c.1 - Y)
  }

  /** Some direction captures from (X, Y) in the start position exactly when
      (X, Y) is an opening move of the side. */
  lemma OpeningCaptures(X: int, Y: int, side: Side)
    ensures (exists d | d in Directions() :: DirCaptures(Initial(), X, Y, side, d)) <==> Opening(side, X, Y)
  {
    DirectionsFacts();
    forall d | d in Directions() && DirCaptures(Initial(), X, Y, side, d)
      ensures Opening(side, X, Y)
    {
      InitialDisc(Other(side), X + d.dx, Y + d.dy);
      CentreCaptures(X, Y, side, d);
    }
    if Opening(side, X, Y) {
      var d := OpeningDir(X, Y, side);
      CentreCaptures(X, Y, side, d);
    }
  }

  /** A square of the start position passes the test for `side` exactly when
      it is one of that side's four opening moves. */
  lemma OpeningSquare(X: int, Y: int, side: Side)
    requires OnBoard(X, Y)
    ensures CheckSquare(Initial(), X, Y, side) <==> Opening(side, X, Y)
  {
    CheckSquareDirs(Initial(), X, Y, side);
    OpeningCaptures(X, Y, side);
  }

  /** Each side has exactly its four opening moves in the start position,
      listed in scan order. */
  lemma OpeningMoves()
    ensures Moves(Initial(), Black) == BlackOpening()
    ensures Moves(Initial(), White) == WhiteOpening()
  {
    OpeningList(Initial(), Black);
    OpeningList(Initial(), White);
  }

  /** One side's half of `OpeningMoves`, for a board equal to the start
      position. */
  lemma OpeningList(b: Board, side: Side)
    requires b == Initial()
    ensures Moves(b, side) == if side == Black then BlackOpening() else WhiteOpening()
  {
    var ms := Moves(b, side);
    var want := if side == Black then BlackOpening() else WhiteOpening();
    forall m ensures m in ms <==> m in want {
      if OnBoard(m.x, m.y) {
        OpeningSquare(m.x, m.y, side);
      }
    }
    assert forall m :: m in want ==> OnBoard(m.x, m.y);
    OpeningIncreasing();
    IncreasingUnique(ms, want);
  }
}
