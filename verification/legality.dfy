/** Legality of a move (`checkMove`, `hasMoves`): the sandwich rule scanned
    along the eight compass directions. */
module Legality {
  import opened BoardState

  /** One compass step (dx, dy). */
  datatype Dir = Dir(dx: int, dy: int)

  predicate IsDir(d: Dir) {
    -1 <= d.dx <= 1 && -1 <= d.dy <= 1 && (d.dx != 0 || d.dy != 0)
  }

  /** The eight directions, in the order of the nested dx/dy loops (dx outer,
      dy inner, (0, 0) skipped). */
  function Directions(): seq<Dir> {
    [Dir(-1, -1), Dir(-1, 0), Dir(-1, 1), Dir(0, -1), Dir(0, 1), Dir(1, -1), Dir(1, 0), Dir(1, 1)]
  }

  predicate AllDirs(ds: seq<Dir>) {
    forall d | d in ds :: IsDir(d)
  }

  predicate DistinctDirs(ds: seq<Dir>) {
    forall i, j :: 0 <= i < j < |ds| ==> ds[i] != ds[j]
  }

  lemma DirectionsFacts()
    ensures AllDirs(Directions()) && DistinctDirs(Directions())
  {
  }

  /** The list holds every compass direction. */
  lemma DirectionsComplete(d: Dir)
    requires IsDir(d)
    ensures d in Directions()
  {
  }

  /** The coordinate reached from v after k steps of dv (dv is -1, 0 or 1). */
  function Shift(v: int, dv: int, k: int): int {
    if dv > 0 then v + k else if dv < 0 then v - k else v
  }

  lemma ShiftStep(v: int, dv: int, k: int)
    requires -1 <= dv <= 1
    ensures Shift(v + dv, dv, k) == Shift(v, dv, k + 1)
    ensures Shift(v, dv, 0) == v
  {
  }

  /** The ray from the next square is the ray from (x, y) one step on. */
  lemma DiscAtStep(b: Board, s: Side, x: int, y: int, d: Dir, k: int)
    requires IsDir(d)
    ensures DiscAt(b, s, x + d.dx, y + d.dy, d, k) == DiscAt(b, s, x, y, d, k + 1)
  {
    ShiftStep(x, d.dx, k);
    ShiftStep(y, d.dy, k);
  }

  lemma RayIdxStep(x: int, y: int, d: Dir, k: int)
    requires IsDir(d)
    ensures RayIdx(x + d.dx, y + d.dy, d, k) == RayIdx(x, y, d, k + 1)
    ensures RayOn(x + d.dx, y + d.dy, d, k) == RayOn(x, y, d, k + 1)
  {
    ShiftStep(x, d.dx, k);
    ShiftStep(y, d.dy, k);
  }

  /** The square k steps from (x, y) in direction d is on the board. */
  predicate RayOn(x: int, y: int, d: Dir, k: int) {
    OnBoard(Shift(x, d.dx, k), Shift(y, d.dy, k))
  }

  /** The bit of the square k steps from (x, y) in direction d. */
  function RayIdx(x: int, y: int, d: Dir, k: int): int {
    Idx(Shift(x, d.dx, k), Shift(y, d.dy, k))
  }

  /** (x, y) is on the board and holds a disc of side s. */
  predicate HasDisc(b: Board, s: Side, x: int, y: int) {
    OnBoard(x, y) && Get(b, s, x, y)
  }

  /** HasDisc at the square k steps from (x, y) in direction d. */
  predicate DiscAt(b: Board, s: Side, x: int, y: int, d: Dir, k: int) {
    HasDisc(b, s, Shift(x, d.dx, k), Shift(y, d.dy, k))
  }

  /** Remaining on-board steps along one axis: the termination measure of a walk. */
  function Span(v: int, dv: int): nat {
    if dv > 0 then (if v < 8 then 8 - v else 0)
    else if dv < 0 then (if v >= 0 then v + 1 else 0)
    else 0
  }

  /** The number of steps a walk from (x, y) along d takes while each square
      it stands on holds a disc of s: the length of the maximal run of s discs
      starting at (x, y). */
  function RunLength(b: Board, s: Side, x: int, y: int, d: Dir): (r: nat)
    requires IsDir(d)
    ensures forall k :: 0 <= k < r ==> DiscAt(b, s, x, y, d, k)
    ensures !DiscAt(b, s, x, y, d, r)
    // `b` never decreases: listing it only keeps the solver from unrolling
    // calls whose arguments are literals.
    decreases Span(x, d.dx) + Span(y, d.dy), b
  {
    if HasDisc(b, s, x, y) then
      var n := RunLength(b, s, x + d.dx, y + d.dy, d);
      ShiftStep(x, d.dx, 0);
      ShiftStep(y, d.dy, 0);
      DiscAtStep(b, s, x, y, d, n);
      assert forall k :: 1 <= k < n + 1 ==> DiscAt(b, s, x, y, d, k) by {
        forall k | 1 <= k < n + 1 ensures DiscAt(b, s, x, y, d, k) {
          DiscAtStep(b, s, x, y, d, k - 1);
        }
      }
      1 + n
    else
      0
  }

  /** A run that starts on a disc is one longer than the run from the next square. */
  lemma RunLengthStep(b: Board, s: Side, x: int, y: int, d: Dir)
    requires IsDir(d) && HasDisc(b, s, x, y)
    ensures RunLength(b, s, x, y, d) == 1 + RunLength(b, s, x + d.dx, y + d.dy, d)
  {
  }

  /** Any prefix of `s` discs closed by a square without one is the run. */
  lemma RunLengthUnique(b: Board, s: Side, x: int, y: int, d: Dir, n: nat)
    requires IsDir(d)
    requires forall k :: 0 <= k < n ==> DiscAt(b, s, x, y, d, k)
    requires !DiscAt(b, s, x, y, d, n)
    ensures RunLength(b, s, x, y, d) == n
  {
  }

  /** The square ending the opponent run after (X, Y) in direction d holds
      a disc of the mover. */
  predicate Closed(b: Board, X: int, Y: int, side: Side, d: Dir)
    requires IsDir(d)
  {
    var x, y := X + d.dx, Y + d.dy;
    var n := RunLength(b, Other(side), x, y, d);
    HasDisc(b, side, Shift(x, d.dx, n), Shift(y, d.dy, n))
  }

  /** The capture test of one direction in `checkMove`: the adjacent square
      holds an opponent disc, and the run it starts is closed. */
  predicate DirCaptures(b: Board, X: int, Y: int, side: Side, d: Dir)
    requires IsDir(d)
  {
    HasDisc(b, Other(side), X + d.dx, Y + d.dy) && Closed(b, X, Y, side, d)
  }

  /** `checkMove` for a non-pass move (X, Y): the square is empty and one of
      the eight directions, tried in the loop's order, captures. */
  predicate CheckSquare(b: Board, X: int, Y: int, side: Side)
    requires OnBoard(X, Y)
  {
    && !Occupied(b, X, Y)
    && (|| DirCaptures(b, X, Y, side, Dir(-1, -1)) || DirCaptures(b, X, Y, side, Dir(-1, 0))
        || DirCaptures(b, X, Y, side, Dir(-1, 1)) || DirCaptures(b, X, Y, side, Dir(0, -1))
        || DirCaptures(b, X, Y, side, Dir(0, 1)) || DirCaptures(b, X, Y, side, Dir(1, -1))
        || DirCaptures(b, X, Y, side, Dir(1, 0)) || DirCaptures(b, X, Y, side, Dir(1, 1)))
  }

  /** A square passes `checkMove` iff it is empty and some direction captures. */
  lemma CheckSquareDirs(b: Board, X: int, Y: int, side: Side)
    requires OnBoard(X, Y)
    ensures CheckSquare(b, X, Y, side) <==> !Occupied(b, X, Y) && exists d | d in Directions() :: DirCaptures(b, X, Y, side, d)
  {
  }

  /** `hasMoves`: some square of the board is a legal move. */
  predicate HasMoves(b: Board, side: Side) {
    exists x: int, y: int | 0 <= x < 8 && 0 <= y < 8 :: CheckSquare(b, x, y, side)
  }

  /** The sandwich rule as Othello states it: the n >= 1 squares after (X, Y)
      in direction d hold opponent discs and the square after them holds a
      disc of the mover. */
  ghost predicate Sandwich(b: Board, X: int, Y: int, side: Side, d: Dir, n: int) {
    && IsDir(d)
    && n >= 1
    && (forall k :: 1 <= k <= n ==> DiscAt(b, Other(side), X, Y, d, k))
    && DiscAt(b, side, X, Y, d, n + 1)
  }

  /** The legality rule for a non-pass move, independent of any walk. */
  ghost predicate Legal(b: Board, X: int, Y: int, side: Side)
    requires OnBoard(X, Y)
  {
    !Occupied(b, X, Y) && exists d, n :: d in Directions() && Sandwich(b, X, Y, side, d, n)
  }

  /** A direction's walk-based capture test yields a sandwich whose opponent
      run is the walk's run. */
  lemma CapturesGiveSandwich(b: Board, X: int, Y: int, side: Side, d: Dir)
    requires IsDir(d) && DirCaptures(b, X, Y, side, d)
    ensures Sandwich(b, X, Y, side, d, RunLength(b, Other(side), X + d.dx, Y + d.dy, d))
  {
    var x, y := X + d.dx, Y + d.dy;
    var other := Other(side);
    var n := RunLength(b, other, x, y, d);
    ShiftStep(x, d.dx, 0);
    ShiftStep(y, d.dy, 0);
    assert n >= 1;
    forall k | 1 <= k <= n ensures DiscAt(b, other, X, Y, d, k) {
      DiscAtStep(b, other, X, Y, d, k - 1);
    }
    DiscAtStep(b, side, X, Y, d, n);
  }

  /** A sandwich passes the walk-based test, and its run is the walk's run. */
  lemma SandwichGivesCaptures(b: Board, X: int, Y: int, side: Side, d: Dir, m: int)
    requires Sandwich(b, X, Y, side, d, m)
    ensures m == RunLength(b, Other(side), X + d.dx, Y + d.dy, d)
    ensures DirCaptures(b, X, Y, side, d)
  {
    var x, y := X + d.dx, Y + d.dy;
    var other := Other(side);
    forall k | 0 <= k < m ensures DiscAt(b, other, x, y, d, k) {
      DiscAtStep(b, other, X, Y, d, k);
    }
    DiscAtStep(b, side, X, Y, d, m);
    ShiftStep(X, d.dx, m);
    ShiftStep(Y, d.dy, m);
    var ex, ey := Shift(x, d.dx, m), Shift(y, d.dy, m);
    assert HasDisc(b, side, ex, ey);
    GetExclusive(b, side, ex, ey);
    RunLengthUnique(b, other, x, y, d, m);
    ShiftStep(X, d.dx, 0);
    ShiftStep(Y, d.dy, 0);
    assert DiscAt(b, other, X, Y, d, 1);
  }

  /** The walk-based capture test of a direction is the sandwich rule. */
  lemma DirCapturesIsSandwich(b: Board, X: int, Y: int, side: Side, d: Dir)
    requires IsDir(d)
    ensures DirCaptures(b, X, Y, side, d) <==> exists n :: Sandwich(b, X, Y, side, d, n)
  {
    if DirCaptures(b, X, Y, side, d) {
      CapturesGiveSandwich(b, X, Y, side, d);
    }
    forall m | Sandwich(b, X, Y, side, d, m) ensures DirCaptures(b, X, Y, side, d) {
      SandwichGivesCaptures(b, X, Y, side, d, m);
    }
  }

  /** `checkMove` on a square accepts exactly the moves the sandwich rule allows. */
  lemma CheckSquareIsLegal(b: Board, X: int, Y: int, side: Side)
    requires OnBoard(X, Y)
    ensures CheckSquare(b, X, Y, side) <==> Legal(b, X, Y, side)
  {
    DirectionsFacts();
    CheckSquareDirs(b, X, Y, side);
    forall d | d in Directions()
      ensures DirCaptures(b, X, Y, side, d) <==> exists n :: Sandwich(b, X, Y, side, d, n)
    {
      DirCapturesIsSandwich(b, X, Y, side, d);
    }
  }

  /** `checkMove`: a pass is legal iff the side has no legal square; a move
      on a square is legal iff the sandwich rule allows it. */
  function CheckMove(b: Board, m: Option<Move>, side: Side): (r: bool)
    requires m.Some? ==> OnBoard(m.value.x, m.value.y)
    ensures m.None? ==> (r <==> forall x, y :: OnBoard(x, y) ==> !Legal(b, x, y, side))
    ensures m.Some? ==> (r <==> Legal(b, m.value.x, m.value.y, side))
    ensures m.Some? && r ==> !Occupied(b, m.value.x, m.value.y)
  {
    match m
    case None =>
      assert forall x, y :: OnBoard(x, y) ==> (CheckSquare(b, x, y, side) <==> Legal(b, x, y, side)) by {
        forall x, y | OnBoard(x, y) ensures CheckSquare(b, x, y, side) <==> Legal(b, x, y, side) {
          CheckSquareIsLegal(b, x, y, side);
        }
      }
      !HasMoves(b, side)
    case Some(mv) =>
      CheckSquareIsLegal(b, mv.x, mv.y, side);
      CheckSquare(b, mv.x, mv.y, side)
  }
}
