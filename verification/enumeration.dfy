/** Move enumeration (`return_moves`, `isDone`): the legal squares of a side
    in scan order, which visits (x, y) at step 8x + y: x outer and y inner. */
module Enumeration {
  import opened BoardState
  import opened Legality

  /** The position of a square in the scan: the scan visits (x, y) at step 8x + y. */
  function ScanPos(m: Move): int {
    8 * m.x + m.y
  }

  /** The square the scan visits at step t. */
  function ScanSquare(t: int): (m: Move)
    requires 0 <= t < 64
    ensures OnBoard(m.x, m.y) && ScanPos(m) == t
  {
    Move(t / 8, t % 8)
  }

  /** Distinct squares have distinct scan positions. */
  lemma ScanPosInjective(m: Move, m': Move)
    requires OnBoard(m.x, m.y) && OnBoard(m'.x, m'.y)
    ensures ScanPos(m) == ScanPos(m') <==> m == m'
  {
  }

  predicate Increasing(ms: seq<Move>) {
    forall i, j :: 0 <= i < j < |ms| ==> ScanPos(ms[i]) < ScanPos(ms[j])
  }

  /** The moves the scan has collected before step t, in the order
      `push_back` appended them. */
  function ScanTo(b: Board, side: Side, t: int): (r: seq<Move>)
    requires 0 <= t <= 64
    ensures forall m: Move {:trigger m in r} :: m in r <==> OnBoard(m.x, m.y) && ScanPos(m) < t && CheckSquare(b, m.x, m.y, side)
    ensures forall i :: 0 <= i < |r| ==> ScanPos(r[i]) < t
    ensures Increasing(r)
    ensures |r| <= t
    // `b` never decreases: listing it only keeps the solver from unrolling
    // calls whose arguments are literals.
    decreases t, b
  {
    if t == 0 then []
    else
      var m := ScanSquare(t - 1);
      var init := ScanTo(b, side, t - 1);
      assert forall m': Move :: OnBoard(m'.x, m'.y) && ScanPos(m') == t - 1 ==> m' == m by {
        forall m': Move | OnBoard(m'.x, m'.y) && ScanPos(m') == t - 1 ensures m' == m {
          ScanPosInjective(m', m);
        }
      }
      if CheckSquare(b, m.x, m.y, side) then init + [m] else init
  }

  /** `return_moves`: every legal square of `side`, each once, in scan order. */
  function Moves(b: Board, side: Side): (r: seq<Move>)
    ensures forall m: Move {:trigger m in r} :: m in r <==> OnBoard(m.x, m.y) && CheckSquare(b, m.x, m.y, side)
    ensures Increasing(r)
    ensures |r| <= 64
  {
    ScanTo(b, side, 64)
  }

  /** Increasing scan positions mean no square is listed twice. */
  lemma IncreasingDistinct(ms: seq<Move>)
    requires Increasing(ms)
    ensures forall i, j :: 0 <= i < j < |ms| ==> ms[i] != ms[j]
  {
  }

  /** The listed moves are exactly the squares the sandwich rule allows. */
  lemma MovesAreLegal(b: Board, side: Side, m: Move)
    ensures m in Moves(b, side) <==> OnBoard(m.x, m.y) && Legal(b, m.x, m.y, side)
    ensures m in Moves(b, side) ==> CheckMove(b, Some(m), side)
  {
    if OnBoard(m.x, m.y) {
      CheckSquareIsLegal(b, m.x, m.y, side);
    }
  }

  /** A legal square the scan has passed is collected. */
  lemma ScanListed(b: Board, side: Side, x: int, y: int, t: int)
    requires OnBoard(x, y) && CheckSquare(b, x, y, side) && ScanPos(Move(x, y)) < t <= 64
    ensures Move(x, y) in ScanTo(b, side, t)
  {
  }

  /** Every legal square is listed. */
  lemma MoveListed(b: Board, side: Side, x: int, y: int)
    requires OnBoard(x, y) && CheckSquare(b, x, y, side)
    ensures Move(x, y) in Moves(b, side)
  {
    ScanListed(b, side, x, y, 64);
  }

  /** A non-empty list witnesses `hasMoves`. */
  lemma ListedHasMoves(b: Board, side: Side)
    requires |Moves(b, side)| > 0
    ensures HasMoves(b, side)
  {
    var m := Moves(b, side)[0];
    assert m in Moves(b, side);
    assert 0 <= m.x < 8 && 0 <= m.y < 8 && CheckSquare(b, m.x, m.y, side);
  }

  /** `hasMoves` holds iff `return_moves` is non-empty. */
  lemma HasMovesIffMoves(b: Board, side: Side)
    ensures HasMoves(b, side) <==> |Moves(b, side)| > 0
  {
    if HasMoves(b, side) {
      var x, y :| 0 <= x < 8 && 0 <= y < 8 && CheckSquare(b, x, y, side);
      MoveListed(b, side, x, y);
    }
    if |Moves(b, side)| > 0 {
      ListedHasMoves(b, side);
    }
  }

  /** A pass is legal exactly when there is nothing to list. */
  lemma PassIffNoMoves(b: Board, side: Side)
    ensures CheckMove(b, None, side) <==> Moves(b, side) == []
  {
    HasMovesIffMoves(b, side);
  }

  /** `isDone`: the game is over when neither side has a legal move. */
  function IsDone(b: Board): (r: bool)
    ensures r <==> Moves(b, Black) == [] && Moves(b, White) == []
  {
    HasMovesIffMoves(b, Black);
    HasMovesIffMoves(b, White);
    !(HasMoves(b, Black) || HasMoves(b, White))
  }

  /** The game is over exactly when both sides would have to pass. */
  lemma DoneIffBothPass(b: Board)
    ensures IsDone(b) <==> CheckMove(b, None, Black) && CheckMove(b, None, White)
  {
    PassIffNoMoves(b, Black);
    PassIffNoMoves(b, White);
  }
}
