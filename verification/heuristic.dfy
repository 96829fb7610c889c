/** The one-ply move heuristic (`return_best_move_heuristic`): every legal
    move is scored by the disc difference after it, the mover's least
    mobility over the opponent's replies, and two corner terms; the first
    move with the strictly greatest score above the floor is chosen. */
module Heuristic {
  import opened BoardState
  import opened Legality
  import opened Application
  import opened Enumeration

  /** The score a move must beat to be chosen at all. */
  const Floor: int := -999
  /** The mobility assumed before any reply has been examined. */
  const NoReply: int := 999
  const MobilityWeight: int := 10
  const CornerWeight: int := 1000

  predicate IsCorner(m: Move) {
    (m.x == 0 && m.y == 0) || (m.x == 0 && m.y == 7) || (m.x == 7 && m.y == 0) || (m.x == 7 && m.y == 7)
  }

  /** Some move of the list is a corner. */
  predicate AnyCorner(ms: seq<Move>) {
    exists i :: 0 <= i < |ms| && IsCorner(ms[i])
  }

  /** The mover's disc count minus the opponent's. */
  function DiscDiff(b: Board, side: Side): (r: int)
    ensures r == Count(b, side) - Count(b, Other(side))
    ensures Valid(b) ==> r == |Owned(b, side)| - |Owned(b, Other(side))|
  {
    var white, black := CountWhite(b), CountBlack(b);
    if side == White then white - black else black - white
  }

  // ---------------------------------------------------------------------
  // The two folds of the heuristic, over plain integers.

  /** The reply loop's running minimum: `acc` is replaced only by a strictly
      smaller value. */
  function MinFold(vals: seq<int>, acc: int): (r: int)
    ensures r <= acc
    ensures forall i :: 0 <= i < |vals| ==> r <= vals[i]
    ensures r == acc || exists i :: 0 <= i < |vals| && r == vals[i]
    decreases |vals|
  {
    if vals == [] then acc
    else
      var acc' := if vals[0] < acc then vals[0] else acc;
      var r := MinFold(vals[1..], acc');
      assert forall i :: 1 <= i < |vals| ==> vals[i] == vals[1..][i - 1];
      assert r != acc' ==> exists i :: 1 <= i < |vals| && r == vals[i] by {
        if r != acc' {
          var j :| 0 <= j < |vals[1..]| && r == vals[1..][j];
          assert r == vals[j + 1];
        }
      }
      r
  }

  /** The selection loop: a move replaces the current choice only when its
      score is strictly greater than the best score so far. */
  function ArgMaxFold(ms: seq<Move>, sc: seq<int>, best: int, choice: Option<Move>): (r: (int, Option<Move>))
    requires |ms| == |sc|
    ensures r.0 >= best
    ensures forall i :: 0 <= i < |sc| ==> sc[i] <= r.0
    ensures (forall i :: 0 <= i < |sc| ==> sc[i] <= best) ==> r == (best, choice)
    ensures r.0 > best ==>
              exists i :: 0 <= i < |sc| && r.1 == Some(ms[i]) && r.0 == sc[i] &&
                forall j :: 0 <= j < i ==> sc[j] < sc[i]
    decreases |ms|
  {
    if ms == [] then (best, choice)
    else if sc[0] > best then
      var r := ArgMaxFold(ms[1..], sc[1..], sc[0], Some(ms[0]));
      assert forall i :: 1 <= i < |sc| ==> sc[i] == sc[1..][i - 1];
      if r.0 > sc[0] then
        var j :| 0 <= j < |sc[1..]| && r.1 == Some(ms[1..][j]) && r.0 == sc[1..][j] &&
                  forall k :: 0 <= k < j ==> sc[1..][k] < sc[1..][j];
        assert r.1 == Some(ms[j + 1]) && r.0 == sc[j + 1];
        assert forall k :: 0 <= k < j + 1 ==> sc[k] < sc[j + 1] by {
          forall k | 0 <= k < j + 1 ensures sc[k] < sc[j + 1] {
            if k > 0 {
              assert sc[k] == sc[1..][k - 1];
            }
          }
        }
        r
      else
        r
    else
      var r := ArgMaxFold(ms[1..], sc[1..], best, choice);
      assert forall i :: 1 <= i < |sc| ==> sc[i] == sc[1..][i - 1];
      if r.0 > best then
        var j :| 0 <= j < |sc[1..]| && r.1 == Some(ms[1..][j]) && r.0 == sc[1..][j] &&
                  forall k :: 0 <= k < j ==> sc[1..][k] < sc[1..][j];
        assert r.1 == Some(ms[j + 1]) && r.0 == sc[j + 1];
        assert forall k :: 0 <= k < j + 1 ==> sc[k] < sc[j + 1] by {
          forall k | 0 <= k < j + 1 ensures sc[k] < sc[j + 1] {
            if k > 0 {
              assert sc[k] == sc[1..][k - 1];
            }
          }
        }
        r
      else
        r
  }

  // ---------------------------------------------------------------------
  // Scoring one move.

  /** How many moves `side` has after the opponent answers with `reply`. */
  function ReplyMobility(nb: Board, side: Side, reply: Move): (r: int)
    requires OnBoard(reply.x, reply.y)
    ensures 0 <= r <= 64
  {
    |Moves(DoMove(nb, Some(reply), Other(side)), side)|
  }

  /** The mobility of `side` after each reply of the list. */
  function Mobilities(nb: Board, side: Side, replies: seq<Move>): (r: seq<int>)
    requires forall i :: 0 <= i < |replies| ==> OnBoard(replies[i].x, replies[i].y)
    ensures |r| == |replies|
    ensures forall i :: 0 <= i < |r| ==> r[i] == ReplyMobility(nb, side, replies[i])
  {
    seq(|replies|, i requires 0 <= i < |replies| => ReplyMobility(nb, side, replies[i]))
  }

  /** Every listed move is a square of the board. */
  predicate MovesOnBoardFact(b: Board, side: Side) {
    forall i :: 0 <= i < |Moves(b, side)| ==> OnBoard(Moves(b, side)[i].x, Moves(b, side)[i].y)
  }

  lemma MovesOnBoard(b: Board, side: Side)
    ensures MovesOnBoardFact(b, side)
  {
    var ms := Moves(b, side);
    forall i | 0 <= i < |ms| ensures OnBoard(ms[i].x, ms[i].y) {
      assert ms[i] in ms;
    }
  }

  /** The reply loop of the heuristic on the board nb after the mover's
      move: the least mobility any reply of the opponent leaves the mover
      with, or 999 when the opponent has no reply. */
  function LeastMobility(nb: Board, side: Side): (v: int)
    ensures 0 <= v <= NoReply
    ensures Moves(nb, Other(side)) == [] ==> v == NoReply
    ensures forall m :: m in Moves(nb, Other(side)) ==> v <= ReplyMobility(nb, side, m)
    ensures Moves(nb, Other(side)) != [] ==>
              exists m :: m in Moves(nb, Other(side)) && v == ReplyMobility(nb, side, m)
  {
    var replies := Moves(nb, Other(side));
    MovesOnBoard(nb, Other(side));
    var vals := Mobilities(nb, side, replies);
    var v := MinFold(vals, NoReply);
    LeastMobilityFacts(nb, side, replies, vals, v);
    v
  }

  lemma LeastMobilityFacts(nb: Board, side: Side, replies: seq<Move>, vals: seq<int>, v: int)
    requires forall i :: 0 <= i < |replies| ==> OnBoard(replies[i].x, replies[i].y)
    requires vals == Mobilities(nb, side, replies)
    requires v == MinFold(vals, NoReply)
    ensures forall m :: m in replies ==> v <= ReplyMobility(nb, side, m)
    ensures replies != [] ==> exists m :: m in replies && v == ReplyMobility(nb, side, m)
  {
    forall m | m in replies ensures v <= ReplyMobility(nb, side, m) {
      var j :| 0 <= j < |replies| && replies[j] == m;
      assert v <= vals[j];
    }
    if replies != [] {
      var i :| 0 <= i < |vals| && v == vals[i];
      assert replies[i] in replies;
    }
  }

  /** The score of the move m of `side`: ten times the least mobility the
      opponent can leave the mover with, plus the disc difference after m,
      plus a bonus if m takes a corner, minus a penalty if some reply does. */
  function Score(b: Board, side: Side, m: Move): int
    requires OnBoard(m.x, m.y)
  {
    var nb := DoMove(Copy(b), Some(m), side);
    var total := LeastMobility(nb, side) * MobilityWeight + DiscDiff(nb, side);
    var total' := if IsCorner(m) then total + CornerWeight else total;
    if AnyCorner(Moves(nb, Other(side))) then total' - CornerWeight else total'
  }

  // ---------------------------------------------------------------------
  // Choosing the move.

  function Scores(b: Board, side: Side, ms: seq<Move>): (r: seq<int>)
    requires forall i :: 0 <= i < |ms| ==> OnBoard(ms[i].x, ms[i].y)
    ensures |r| == |ms|
    ensures forall i :: 0 <= i < |r| ==> r[i] == Score(b, side, ms[i])
  {
    seq(|ms|, i requires 0 <= i < |ms| => Score(b, side, ms[i]))
  }

  /** The selection loop started from the floor and no choice passes exactly
      when no score beats the floor. */
  lemma ArgMaxPass(ms: seq<Move>, sc: seq<int>)
    requires |ms| == |sc|
    ensures ArgMaxFold(ms, sc, Floor, None).1.None? <==> forall i :: 0 <= i < |sc| ==> sc[i] <= Floor
  {
  }

  /** Otherwise it picks a greatest score above the floor, and no earlier
      move in scan order ties it. */
  ghost function ArgMaxChoice(ms: seq<Move>, sc: seq<int>): (i: int)
    requires |ms| == |sc| && Increasing(ms)
    requires ArgMaxFold(ms, sc, Floor, None).1.Some?
    ensures 0 <= i < |ms| && ArgMaxFold(ms, sc, Floor, None).1.value == ms[i] && sc[i] > Floor
    ensures forall j :: 0 <= j < |sc| ==> sc[j] <= sc[i]
    ensures forall j :: 0 <= j < |ms| && ScanPos(ms[j]) < ScanPos(ms[i]) ==> sc[j] < sc[i]
  {
    var p := ArgMaxFold(ms, sc, Floor, None);
    var i :| 0 <= i < |sc| && p.1 == Some(ms[i]) && p.0 == sc[i] &&
             forall j :: 0 <= j < i ==> sc[j] < sc[i];
    i
  }

  /** A listed move's score sits at its index in the score list. */
  lemma ScoreListed(b: Board, side: Side, ms: seq<Move>, m: Move) returns (j: int)
    requires forall i :: 0 <= i < |ms| ==> OnBoard(ms[i].x, ms[i].y)
    requires m in ms
    ensures 0 <= j < |ms| && ms[j] == m && Scores(b, side, ms)[j] == Score(b, side, m)
  {
    j :| 0 <= j < |ms| && ms[j] == m;
  }

  /** `return_best_move_heuristic`: the first legal move, in scan order, whose
      score is the greatest and above the floor; `None` (a pass) when no
      score exceeds the floor, in particular when there is no legal move. */
  function BestMove(b: Board, side: Side): (r: Option<Move>)
    ensures r.None? <==> forall m :: m in Moves(b, side) ==> Score(b, side, m) <= Floor
    ensures r.Some? ==> r.value in Moves(b, side) && Score(b, side, r.value) > Floor
    ensures r.Some? ==> forall m :: m in Moves(b, side) ==> Score(b, side, m) <= Score(b, side, r.value)
    ensures r.Some? ==> forall m :: m in Moves(b, side) && ScanPos(m) < ScanPos(r.value) ==>
                          Score(b, side, m) < Score(b, side, r.value)
  {
    MovesOnBoard(b, side);
    BestMovePass(b, side);
    BestMoveChoice(b, side);
    ArgMaxFold(Moves(b, side), Scores(b, side, Moves(b, side)), Floor, None).1
  }

  /** The selection passes exactly when no listed move scores above the floor. */
  lemma BestMovePass(b: Board, side: Side)
    ensures MovesOnBoardFact(b, side)
    ensures var ms := Moves(b, side);
            ArgMaxFold(ms, Scores(b, side, ms), Floor, None).1.None? <==>
              forall m :: m in ms ==> Score(b, side, m) <= Floor
  {
    var ms := Moves(b, side);
    MovesOnBoard(b, side);
    var sc := Scores(b, side, ms);
    ArgMaxPass(ms, sc);
    BestNone(b, side, ms, sc);
  }

  /** A chosen move is listed, beats the floor, scores highest, and is the
      first in scan order with that score. */
  lemma BestMoveChoice(b: Board, side: Side)
    ensures MovesOnBoardFact(b, side)
    ensures var ms := Moves(b, side);
            var r := ArgMaxFold(ms, Scores(b, side, ms), Floor, None).1;
            r.Some? ==>
              && r.value in ms && Score(b, side, r.value) > Floor
              && (forall m :: m in ms ==> Score(b, side, m) <= Score(b, side, r.value))
              && (forall m :: m in ms && ScanPos(m) < ScanPos(r.value) ==>
                    Score(b, side, m) < Score(b, side, r.value))
  {
    var ms := Moves(b, side);
    MovesOnBoard(b, side);
    var sc := Scores(b, side, ms);
    if ArgMaxFold(ms, sc, Floor, None).1.Some? {
      var i := ArgMaxChoice(ms, sc);
      BestSome(b, side, ms, sc, i);
    }
  }

  lemma BestNone(b: Board, side: Side, ms: seq<Move>, sc: seq<int>)
    requires forall i :: 0 <= i < |ms| ==> OnBoard(ms[i].x, ms[i].y)
    requires sc == Scores(b, side, ms)
    ensures (forall i :: 0 <= i < |sc| ==> sc[i] <= Floor) <==> forall m :: m in ms ==> Score(b, side, m) <= Floor
  {
    if forall i :: 0 <= i < |sc| ==> sc[i] <= Floor {
      forall m | m in ms ensures Score(b, side, m) <= Floor {
        var j := ScoreListed(b, side, ms, m);
      }
    } else {
      var i :| 0 <= i < |sc| && sc[i] > Floor;
      assert ms[i] in ms;
    }
  }

  lemma BestSome(b: Board, side: Side, ms: seq<Move>, sc: seq<int>, i: int)
    requires forall k :: 0 <= k < |ms| ==> OnBoard(ms[k].x, ms[k].y)
    requires sc == Scores(b, side, ms)
    requires 0 <= i < |ms| && sc[i] > Floor
    requires forall j :: 0 <= j < |sc| ==> sc[j] <= sc[i]
    requires forall j :: 0 <= j < |ms| && ScanPos(ms[j]) < ScanPos(ms[i]) ==> sc[j] < sc[i]
    ensures ms[i] in ms && Score(b, side, ms[i]) > Floor
    ensures forall m :: m in ms ==> Score(b, side, m) <= Score(b, side, ms[i])
    ensures forall m :: m in ms && ScanPos(m) < ScanPos(ms[i]) ==> Score(b, side, m) < Score(b, side, ms[i])
  {
    forall m | m in ms ensures Score(b, side, m) <= Score(b, side, ms[i]) {
      var j := ScoreListed(b, side, ms, m);
    }
    forall m | m in ms && ScanPos(m) < ScanPos(ms[i]) ensures Score(b, side, m) < Score(b, side, ms[i]) {
      var j := ScoreListed(b, side, ms, m);
    }
  }

  /** Of two moves whose mobility, disc and reply-corner terms agree, the one
      that takes a corner scores higher. */
  lemma CornerPreferred(b: Board, side: Side, m: Move, m': Move)
    requires OnBoard(m.x, m.y) && OnBoard(m'.x, m'.y)
    requires IsCorner(m) && !IsCorner(m')
    requires var nb, nb' := DoMove(b, Some(m), side), DoMove(b, Some(m'), side);
             && LeastMobility(nb, side) == LeastMobility(nb', side)
             && DiscDiff(nb, side) == DiscDiff(nb', side)
             && AnyCorner(Moves(nb, Other(side))) == AnyCorner(Moves(nb', Other(side)))
    ensures Score(b, side, m) == Score(b, side, m') + CornerWeight
  {
    assert Copy(b) == b;
  }

  // ---------------------------------------------------------------------
  // When the heuristic passes.

  /** A legal move that leaves the opponent no corner reply scores above the
      floor: its mobility term is at least 0 and its disc difference at
      least -64. */
  lemma ScoreAboveFloor(b: Board, side: Side, m: Move)
    requires Valid(b) && m in Moves(b, side)
    requires !AnyCorner(Moves(DoMove(b, Some(m), side), Other(side)))
    ensures Score(b, side, m) > Floor
  {
    assert Copy(b) == b;
    AfterMoveValid(b, side, m);
    var nb := DoMove(b, Some(m), side);
    DiscDiffBound(nb, side);
  }

  /** A legal move scores at most the floor exactly when it is not a corner,
      some reply takes a corner, and ten times the mobility plus the disc
      difference is at most 1. */
  lemma AtFloorExactly(b: Board, side: Side, m: Move)
    requires Valid(b) && m in Moves(b, side)
    ensures var nb := DoMove(b, Some(m), side);
            Score(b, side, m) <= Floor <==>
              && !IsCorner(m)
              && AnyCorner(Moves(nb, Other(side)))
              && MobilityWeight * LeastMobility(nb, side) + DiscDiff(nb, side) <= 1
  {
    assert Copy(b) == b;
    AfterMoveValid(b, side, m);
    DiscDiffBound(DoMove(b, Some(m), side), side);
  }

  /** The heuristic passes on a valid board exactly when every legal move is
      at the floor in the sense of `AtFloorExactly`. */
  lemma PassExactly(b: Board, side: Side)
    requires Valid(b)
    ensures BestMove(b, side).None? <==>
              forall m :: m in Moves(b, side) ==>
                var nb := DoMove(b, Some(m), side);
                && !IsCorner(m)
                && AnyCorner(Moves(nb, Other(side)))
                && MobilityWeight * LeastMobility(nb, side) + DiscDiff(nb, side) <= 1
  {
    forall m | m in Moves(b, side)
      ensures var nb := DoMove(b, Some(m), side);
              Score(b, side, m) <= Floor <==>
                && !IsCorner(m)
                && AnyCorner(Moves(nb, Other(side)))
                && MobilityWeight * LeastMobility(nb, side) + DiscDiff(nb, side) <= 1
    {
      AtFloorExactly(b, side, m);
    }
  }

  /** A legal move keeps the ownership invariant. */
  lemma AfterMoveValid(b: Board, side: Side, m: Move)
    requires Valid(b) && m in Moves(b, side)
    ensures OnBoard(m.x, m.y) && Valid(DoMove(b, Some(m), side))
  {
    MovesAreLegal(b, side, m);
    DoMoveCounts(b, m.x, m.y, side);
  }

  /** On a valid board the opponent holds at most 64 discs more than the mover. */
  lemma DiscDiffBound(b: Board, side: Side)
    requires Valid(b)
    ensures -64 <= DiscDiff(b, side) <= 64
  {
    CountBounds(b, side);
    CountBounds(b, Other(side));
  }

  /** The heuristic passes although the side may have legal moves, but only
      when every legal move hands the opponent a corner reply. */
  lemma PassNeedsCornerReplies(b: Board, side: Side)
    requires Valid(b) && BestMove(b, side).None?
    ensures forall m :: m in Moves(b, side) ==> AnyCorner(Moves(DoMove(b, Some(m), side), Other(side)))
  {
    forall m | m in Moves(b, side) ensures AnyCorner(Moves(DoMove(b, Some(m), side), Other(side))) {
      if !AnyCorner(Moves(DoMove(b, Some(m), side), Other(side))) {
        ScoreAboveFloor(b, side, m);
      }
    }
  }
}
