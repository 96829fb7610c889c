/** Move application (`doMove`): flip every captured run, then place the
    mover's disc. */
module Application {
  import opened BoardState
  import opened Legality

  /** The inner flip loop of `doMove`: sets every square of the opponent run
      starting at (x, y) to `side`, one square at a time. */
  function FlipRun(b: Board, side: Side, x: int, y: int, d: Dir): Board
    requires IsDir(d)
    decreases Span(x, d.dx) + Span(y, d.dy)
  {
    if HasDisc(b, Other(side), x, y) then
      FlipRun(Set(b, side, x, y), side, x + d.dx, y + d.dy, d)
    else
      b
  }

  /** One iteration of the direction loop of `doMove`: walk past the opponent
      run; if a disc of the mover ends it, flip the run. */
  function ApplyDir(b: Board, X: int, Y: int, side: Side, d: Dir): Board
    requires IsDir(d)
  {
    if Closed(b, X, Y, side, d) then FlipRun(b, side, X + d.dx, Y + d.dy, d) else b
  }

  /** The direction loop of `doMove` over the directions ds, in order. */
  function DoDirs(b: Board, X: int, Y: int, side: Side, ds: seq<Dir>): Board
    requires AllDirs(ds)
    // `b` never decreases: listing it only keeps the solver from unrolling
    // calls whose arguments are literals.
    decreases |ds|, b
  {
    if ds == [] then b
    else DoDirs(ApplyDir(b, X, Y, side, ds[0]), X, Y, side, ds[1..])
  }

  /** `doMove`: a pass or an illegal move changes nothing; a legal move flips
      the captured runs and then places the mover's disc. */
  function DoMove(b: Board, m: Option<Move>, side: Side): (r: Board)
    requires m.Some? ==> OnBoard(m.value.x, m.value.y)
    ensures m.None? || !CheckMove(b, m, side) ==> r == b
    ensures m.Some? && CheckMove(b, m, side) ==> Get(r, side, m.value.x, m.value.y)
  {
    match m
    case None => b
    case Some(mv) =>
      if !CheckSquare(b, mv.x, mv.y, side) then b
      else
        DirectionsFacts();
        SetEffect(DoDirs(b, mv.x, mv.y, side, Directions()), side, mv.x, mv.y);
        Set(DoDirs(b, mv.x, mv.y, side, Directions()), side, mv.x, mv.y)
  }

  // ---------------------------------------------------------------------
  // The flip set, read off the original board.

  /** The bits of the run of `s` discs the walk from (x, y) passes. */
  ghost function RunCells(b: Board, s: Side, x: int, y: int, d: Dir): set<int>
    requires IsDir(d)
  {
    set k | 0 <= k < RunLength(b, s, x, y, d) :: RayIdx(x, y, d, k)
  }

  /** The bits flipped by direction d. */
  ghost function Captured(b: Board, X: int, Y: int, side: Side, d: Dir): set<int>
    requires IsDir(d)
  {
    if Closed(b, X, Y, side, d) then RunCells(b, Other(side), X + d.dx, Y + d.dy, d) else {}
  }

  /** The bits flipped by the directions ds. */
  ghost function CapturedAll(b: Board, X: int, Y: int, side: Side, ds: seq<Dir>): set<int>
    requires AllDirs(ds)
    // `b` never decreases: listing it only keeps the solver from unrolling
    // calls whose arguments are literals.
    decreases |ds|, b
  {
    if ds == [] then {} else Captured(b, X, Y, side, ds[0]) + CapturedAll(b, X, Y, side, ds[1..])
  }

  /** All bits a move on (X, Y) flips. */
  ghost function Flips(b: Board, X: int, Y: int, side: Side): set<int> {
    DirectionsFacts();
    CapturedAll(b, X, Y, side, Directions())
  }

  // ---------------------------------------------------------------------
  // Rays and frames.

  /** No square of the ray from (x, y) in direction d carries a bit of s. */
  ghost predicate OffRay(s: set<int>, x: int, y: int, d: Dir) {
    forall k {:trigger RayIdx(x, y, d, k)} :: 0 <= k && RayOn(x, y, d, k) ==> RayIdx(x, y, d, k) !in s
  }

  /** Square c is k steps from (x, y) in direction d. */
  ghost predicate Cell(c: int, x: int, y: int, d: Dir, k: int) {
    RayOn(x, y, d, k) && c == RayIdx(x, y, d, k)
  }

  /** Every bit of s is a square of the ray from (x, y) in direction d. */
  ghost predicate OnRay(s: set<int>, x: int, y: int, d: Dir) {
    forall c | c in s :: exists k :: 0 <= k && Cell(c, x, y, d, k)
  }

  lemma OffRayStep(s: set<int>, x: int, y: int, d: Dir)
    requires IsDir(d) && OffRay(s, x, y, d)
    ensures OffRay(s, x + d.dx, y + d.dy, d)
    ensures OnBoard(x, y) ==> Idx(x, y) !in s
  {
    ShiftStep(x, d.dx, 0);
    ShiftStep(y, d.dy, 0);
    assert RayIdx(x, y, d, 0) == Idx(x, y);
    var x1, y1 := x + d.dx, y + d.dy;
    forall k | 0 <= k && RayOn(x1, y1, d, k)
      ensures RayIdx(x1, y1, d, k) !in s
    {
      ShiftStep(x, d.dx, k);
      ShiftStep(y, d.dy, k);
      assert RayIdx(x1, y1, d, k) == RayIdx(x, y, d, k + 1);
    }
  }

  /** A walk only reads its own ray, so painting squares off that ray does
      not change it. */
  lemma {:induction false} RunFrame(b: Board, side: Side, s: set<int>, who: Side, x: int, y: int, d: Dir)
    requires IsDir(d) && OffRay(s, x, y, d)
    ensures RunLength(Paint(b, side, s), who, x, y, d) == RunLength(b, who, x, y, d)
    decreases Span(x, d.dx) + Span(y, d.dy)
  {
    OffRayStep(s, x, y, d);
    var pb := Paint(b, side, s);
    assert HasDisc(pb, who, x, y) == HasDisc(b, who, x, y) by {
      if OnBoard(x, y) {
        PaintFrame(b, side, s, who, x, y);
      }
    }
    if HasDisc(b, who, x, y) {
      RunFrame(b, side, s, who, x + d.dx, y + d.dy, d);
      RunLengthStep(b, who, x, y, d);
      RunLengthStep(pb, who, x, y, d);
    }
  }

  /** The same for the squares of the run. */
  lemma RunCellsFrame(b: Board, side: Side, s: set<int>, who: Side, x: int, y: int, d: Dir)
    requires IsDir(d) && OffRay(s, x, y, d)
    ensures RunCells(Paint(b, side, s), who, x, y, d) == RunCells(b, who, x, y, d)
  {
    RunFrame(b, side, s, who, x, y, d);
  }

  /** A run that starts on a disc is that disc's square followed by the run
      from the next square. */
  lemma RunCellsStep(b: Board, s: Side, x: int, y: int, d: Dir)
    requires IsDir(d) && HasDisc(b, s, x, y)
    ensures RunCells(b, s, x, y, d) == {Idx(x, y)} + RunCells(b, s, x + d.dx, y + d.dy, d)
  {
    RunCellsShrink(b, s, x, y, d);
    RunCellsGrow(b, s, x, y, d);
  }

  lemma RunCellsShrink(b: Board, s: Side, x: int, y: int, d: Dir)
    requires IsDir(d) && HasDisc(b, s, x, y)
    ensures RunCells(b, s, x, y, d) <= {Idx(x, y)} + RunCells(b, s, x + d.dx, y + d.dy, d)
  {
    var n := RunLength(b, s, x + d.dx, y + d.dy, d);
    assert RunLength(b, s, x, y, d) == n + 1;
    forall c | c in RunCells(b, s, x, y, d) ensures c in {Idx(x, y)} + RunCells(b, s, x + d.dx, y + d.dy, d) {
      var k :| 0 <= k < n + 1 && c == RayIdx(x, y, d, k);
      if k > 0 {
        RayIdxStep(x, y, d, k - 1);
      }
    }
  }

  lemma RunCellsGrow(b: Board, s: Side, x: int, y: int, d: Dir)
    requires IsDir(d) && HasDisc(b, s, x, y)
    ensures {Idx(x, y)} + RunCells(b, s, x + d.dx, y + d.dy, d) <= RunCells(b, s, x, y, d)
  {
    var n := RunLength(b, s, x + d.dx, y + d.dy, d);
    assert RunLength(b, s, x, y, d) == n + 1;
    ShiftStep(x, d.dx, 0);
    ShiftStep(y, d.dy, 0);
    assert Idx(x, y) == RayIdx(x, y, d, 0);
    forall c | c in RunCells(b, s, x + d.dx, y + d.dy, d) ensures c in RunCells(b, s, x, y, d) {
      var k :| 0 <= k < n && c == RayIdx(x + d.dx, y + d.dy, d, k);
      RayIdxStep(x, y, d, k);
    }
  }

  /** The ray beyond a square never comes back to it. */
  lemma NextOffRay(x: int, y: int, d: Dir)
    requires IsDir(d) && OnBoard(x, y)
    ensures OffRay({Idx(x, y)}, x + d.dx, y + d.dy, d)
  {
    var x1, y1 := x + d.dx, y + d.dy;
    forall k | 0 <= k && RayOn(x1, y1, d, k)
      ensures RayIdx(x1, y1, d, k) != Idx(x, y)
    {
      IdxInjective(Shift(x1, d.dx, k), Shift(y1, d.dy, k), x, y);
    }
  }

  /** The flip loop gives the whole run to the mover. */
  lemma {:induction false} FlipRunPaints(b: Board, side: Side, x: int, y: int, d: Dir)
    requires IsDir(d)
    ensures FlipRun(b, side, x, y, d) == Paint(b, side, RunCells(b, Other(side), x, y, d))
    decreases Span(x, d.dx) + Span(y, d.dy)
  {
    if HasDisc(b, Other(side), x, y) {
      FlipRunPaints(Set(b, side, x, y), side, x + d.dx, y + d.dy, d);
      FlipRunStep(b, side, x, y, d);
    } else {
      assert RunCells(b, Other(side), x, y, d) == {};
    }
  }

  /** One turn of the flip loop: flipping (x, y) and then the rest of the
      run paints the whole run. */
  lemma FlipRunStep(b: Board, side: Side, x: int, y: int, d: Dir)
    requires IsDir(d) && HasDisc(b, Other(side), x, y)
    requires var sb := Set(b, side, x, y);
             FlipRun(sb, side, x + d.dx, y + d.dy, d) ==
               Paint(sb, side, RunCells(sb, Other(side), x + d.dx, y + d.dy, d))
    ensures FlipRun(b, side, x, y, d) == Paint(b, side, RunCells(b, Other(side), x, y, d))
  {
    var other := Other(side);
    var i := Idx(x, y);
    var rest := RunCells(b, other, x + d.dx, y + d.dy, d);
    SetRest(b, side, x, y, d);
    RunCellsStep(b, other, x, y, d);
    PaintTwice(b, side, {i}, rest);
  }

  /** Flipping (x, y) leaves the rest of the run where it was. */
  lemma SetRest(b: Board, side: Side, x: int, y: int, d: Dir)
    requires IsDir(d) && OnBoard(x, y)
    ensures Set(b, side, x, y) == Paint(b, side, {Idx(x, y)})
    ensures RunCells(Set(b, side, x, y), Other(side), x + d.dx, y + d.dy, d) == RunCells(b, Other(side), x + d.dx, y + d.dy, d)
  {
    NextOffRay(x, y, d);
    SetIsPaint(b, side, x, y);
    RunCellsFrame(b, side, {Idx(x, y)}, Other(side), x + d.dx, y + d.dy, d);
  }

  /** One direction's step of `doMove` on a board that differs from the
      original only off that direction's ray. */
  lemma ApplyDirPaints(b: Board, u: set<int>, X: int, Y: int, side: Side, d: Dir)
    requires IsDir(d) && OffRay(u, X + d.dx, Y + d.dy, d)
    ensures ApplyDir(Paint(b, side, u), X, Y, side, d) == Paint(b, side, u + Captured(b, X, Y, side, d))
  {
    var x, y := X + d.dx, Y + d.dy;
    var pb := Paint(b, side, u);
    ClosedFrame(b, u, X, Y, side, d);
    if Closed(b, X, Y, side, d) {
      FlipRunPaints(pb, side, x, y, d);
      PaintTwice(b, side, u, RunCells(b, Other(side), x, y, d));
    } else {
      assert u + {} == u;
    }
  }

  /** Painting squares off a direction's ray changes neither whether its
      run is closed nor the squares of the run. */
  lemma ClosedFrame(b: Board, u: set<int>, X: int, Y: int, side: Side, d: Dir)
    requires IsDir(d) && OffRay(u, X + d.dx, Y + d.dy, d)
    ensures Closed(Paint(b, side, u), X, Y, side, d) == Closed(b, X, Y, side, d)
    ensures RunCells(Paint(b, side, u), Other(side), X + d.dx, Y + d.dy, d) == RunCells(b, Other(side), X + d.dx, Y + d.dy, d)
  {
    var x, y := X + d.dx, Y + d.dy;
    RunFrame(b, side, u, Other(side), x, y, d);
    RunCellsFrame(b, side, u, Other(side), x, y, d);
    EndFrame(b, u, side, x, y, d, RunLength(b, Other(side), x, y, d));
  }

  /** Painting off the ray keeps the n-th square of the ray as it was. */
  lemma EndFrame(b: Board, u: set<int>, side: Side, x: int, y: int, d: Dir, n: nat)
    requires IsDir(d) && OffRay(u, x, y, d)
    ensures DiscAt(Paint(b, side, u), side, x, y, d, n) == DiscAt(b, side, x, y, d, n)
  {
    var ex, ey := Shift(x, d.dx, n), Shift(y, d.dy, n);
    if OnBoard(ex, ey) {
      assert RayIdx(x, y, d, n) == Idx(ex, ey);
      PaintFrame(b, side, u, side, ex, ey);
    }
  }

  /** Rays from one square in two different directions share no square. */
  lemma RaysDisjoint(X: int, Y: int, d1: Dir, d2: Dir, k1: int, k2: int)
    requires IsDir(d1) && IsDir(d2) && k1 >= 0 && k2 >= 0
    requires Shift(X + d1.dx, d1.dx, k1) == Shift(X + d2.dx, d2.dx, k2)
    requires Shift(Y + d1.dy, d1.dy, k1) == Shift(Y + d2.dy, d2.dy, k2)
    ensures d1 == d2
  {
  }

  /** Squares on the rays of two different directions from one square
      carry different bits. */
  lemma RayCellsDiffer(X: int, Y: int, d1: Dir, d2: Dir, k: int, m: int)
    requires IsDir(d1) && IsDir(d2) && d1 != d2 && k >= 0 && m >= 0
    requires RayOn(X + d1.dx, Y + d1.dy, d1, k) && RayOn(X + d2.dx, Y + d2.dy, d2, m)
    ensures RayIdx(X + d1.dx, Y + d1.dy, d1, k) != RayIdx(X + d2.dx, Y + d2.dy, d2, m)
  {
    var x1, y1 := X + d1.dx, Y + d1.dy;
    var x2, y2 := X + d2.dx, Y + d2.dy;
    if RayIdx(x1, y1, d1, k) == RayIdx(x2, y2, d2, m) {
      IdxInjective(Shift(x1, d1.dx, k), Shift(y1, d1.dy, k), Shift(x2, d2.dx, m), Shift(y2, d2.dy, m));
      RaysDisjoint(X, Y, d1, d2, k, m);
      assert false;
    }
  }

  lemma RaysApart(s: set<int>, X: int, Y: int, d1: Dir, d2: Dir)
    requires IsDir(d1) && IsDir(d2) && d1 != d2
    requires OnRay(s, X + d2.dx, Y + d2.dy, d2)
    ensures OffRay(s, X + d1.dx, Y + d1.dy, d1)
  {
    var x1, y1 := X + d1.dx, Y + d1.dy;
    forall k | 0 <= k && RayOn(x1, y1, d1, k)
      ensures RayIdx(x1, y1, d1, k) !in s
    {
      RayApartAt(s, X, Y, d1, d2, k);
    }
  }

  lemma RayApartAt(s: set<int>, X: int, Y: int, d1: Dir, d2: Dir, k: int)
    requires IsDir(d1) && IsDir(d2) && d1 != d2 && k >= 0
    requires OnRay(s, X + d2.dx, Y + d2.dy, d2) && RayOn(X + d1.dx, Y + d1.dy, d1, k)
    ensures RayIdx(X + d1.dx, Y + d1.dy, d1, k) !in s
  {
    var c := RayIdx(X + d1.dx, Y + d1.dy, d1, k);
    if c in s {
      var m :| 0 <= m && Cell(c, X + d2.dx, Y + d2.dy, d2, m);
      RayCellsDiffer(X, Y, d1, d2, k, m);
      assert false;
    }
  }

  /** Every flipped bit of direction d lies on the ray of d. */
  lemma CapturedOnRay(b: Board, X: int, Y: int, side: Side, d: Dir)
    requires IsDir(d)
    ensures OnRay(Captured(b, X, Y, side, d), X + d.dx, Y + d.dy, d)
  {
    var x1, y1 := X + d.dx, Y + d.dy;
    forall c | c in Captured(b, X, Y, side, d) ensures exists k :: 0 <= k && Cell(c, x1, y1, d, k) {
      var m :| 0 <= m < RunLength(b, Other(side), x1, y1, d) && c == RayIdx(x1, y1, d, m);
      assert DiscAt(b, Other(side), x1, y1, d, m);
      assert Cell(c, x1, y1, d, m);
    }
  }

  lemma OffRayUnion(s: set<int>, t: set<int>, x: int, y: int, d: Dir)
    requires OffRay(s, x, y, d) && OffRay(t, x, y, d)
    ensures OffRay(s + t, x, y, d)
  {
  }

  lemma DistinctTail(ds: seq<Dir>)
    requires |ds| > 0 && DistinctDirs(ds)
    ensures DistinctDirs(ds[1..])
    ensures ds[0] !in ds[1..]
  {
    var rest := ds[1..];
    forall i, j | 0 <= i < j < |rest| ensures rest[i] != rest[j] {
      assert rest[i] == ds[i + 1] && rest[j] == ds[j + 1];
    }
  }

  /** The direction loop on a board that differs from the original only
      off the rays still to be scanned gives each of them its captures. */
  lemma {:induction false} DoDirsPaints(b: Board, u: set<int>, X: int, Y: int, side: Side, ds: seq<Dir>)
    requires AllDirs(ds) && DistinctDirs(ds)
    requires forall d | d in ds :: OffRay(u, X + d.dx, Y + d.dy, d)
    ensures DoDirs(Paint(b, side, u), X, Y, side, ds) == Paint(b, side, u + CapturedAll(b, X, Y, side, ds))
    decreases |ds|
  {
    if ds != [] {
      var d0, rest := ds[0], ds[1..];
      var cap := Captured(b, X, Y, side, d0);
      ApplyDirPaints(b, u, X, Y, side, d0);
      DistinctTail(ds);
      OffRestRays(b, u, X, Y, side, d0, rest);
      DoDirsPaints(b, u + cap, X, Y, side, rest);
      assert u + cap + CapturedAll(b, X, Y, side, rest) == u + CapturedAll(b, X, Y, side, ds);
    }
  }

  /** The flips of one direction lie off the rays of every other direction. */
  lemma OffRestRays(b: Board, u: set<int>, X: int, Y: int, side: Side, d0: Dir, rest: seq<Dir>)
    requires IsDir(d0) && AllDirs(rest) && d0 !in rest
    requires forall d | d in rest :: OffRay(u, X + d.dx, Y + d.dy, d)
    ensures forall d | d in rest :: OffRay(u + Captured(b, X, Y, side, d0), X + d.dx, Y + d.dy, d)
  {
    var cap := Captured(b, X, Y, side, d0);
    CapturedOnRay(b, X, Y, side, d0);
    forall d | d in rest ensures OffRay(u + cap, X + d.dx, Y + d.dy, d) {
      RaysApart(cap, X, Y, d, d0);
      OffRayUnion(u, cap, X + d.dx, Y + d.dy, d);
    }
  }

  /** A legal move paints exactly its flips and its own square with the mover's colour. */
  lemma DoMoveIsPaint(b: Board, X: int, Y: int, side: Side)
    requires OnBoard(X, Y) && CheckSquare(b, X, Y, side)
    ensures DoMove(b, Some(Move(X, Y)), side) == Paint(b, side, Flips(b, X, Y, side) + {Idx(X, Y)})
  {
    var f := Flips(b, X, Y, side);
    DirectionsFacts();
    DoDirsPaints(b, {}, X, Y, side, Directions());
    PaintEmpty(b, side);
    assert {} + f == f;
    SetIsPaint(Paint(b, side, f), side, X, Y);
    PaintTwice(b, side, f, {Idx(X, Y)});
  }

  // ---------------------------------------------------------------------
  // The flip set in the terms of the rules.

  /** A bit is flipped by direction d iff it is one of the squares a
      sandwich in d encloses. */
  lemma CapturedIsSandwiched(b: Board, X: int, Y: int, side: Side, d: Dir, c: int)
    requires IsDir(d)
    ensures c in Captured(b, X, Y, side, d) <==>
              exists n, k :: Sandwich(b, X, Y, side, d, n) && 1 <= k <= n && c == RayIdx(X, Y, d, k)
  {
    if c in Captured(b, X, Y, side, d) {
      CapturedInSandwich(b, X, Y, side, d, c);
    }
    forall n, k | Sandwich(b, X, Y, side, d, n) && 1 <= k <= n && c == RayIdx(X, Y, d, k)
      ensures c in Captured(b, X, Y, side, d)
    {
      SandwichedIsCaptured(b, X, Y, side, d, n, k);
    }
  }

  lemma CapturedInSandwich(b: Board, X: int, Y: int, side: Side, d: Dir, c: int)
    requires IsDir(d) && c in Captured(b, X, Y, side, d)
    ensures exists n, k :: Sandwich(b, X, Y, side, d, n) && 1 <= k <= n && c == RayIdx(X, Y, d, k)
  {
    var x, y := X + d.dx, Y + d.dy;
    var other := Other(side);
    var n := RunLength(b, other, x, y, d);
    var m :| 0 <= m < n && c == RayIdx(x, y, d, m);
    ShiftStep(x, d.dx, 0);
    ShiftStep(y, d.dy, 0);
    assert DiscAt(b, other, x, y, d, 0);
    assert DirCaptures(b, X, Y, side, d);
    CapturesGiveSandwich(b, X, Y, side, d);
    ShiftStep(X, d.dx, m);
    ShiftStep(Y, d.dy, m);
    assert c == RayIdx(X, Y, d, m + 1);
  }

  lemma SandwichedIsCaptured(b: Board, X: int, Y: int, side: Side, d: Dir, n: int, k: int)
    requires Sandwich(b, X, Y, side, d, n) && 1 <= k <= n
    ensures RayIdx(X, Y, d, k) in Captured(b, X, Y, side, d)
  {
    var x, y := X + d.dx, Y + d.dy;
    SandwichGivesCaptures(b, X, Y, side, d, n);
    ShiftStep(X, d.dx, k - 1);
    ShiftStep(Y, d.dy, k - 1);
    assert RayIdx(X, Y, d, k) == RayIdx(x, y, d, k - 1);
  }

  lemma {:induction false} CapturedAllIsUnion(b: Board, X: int, Y: int, side: Side, ds: seq<Dir>, c: int)
    requires AllDirs(ds)
    ensures c in CapturedAll(b, X, Y, side, ds) <==> exists d :: d in ds && c in Captured(b, X, Y, side, d)
    decreases |ds|
  {
    if ds != [] {
      CapturedAllIsUnion(b, X, Y, side, ds[1..], c);
      assert forall d :: d in ds <==> d == ds[0] || d in ds[1..];
    }
  }

  /** The flipped squares are exactly the opponent discs enclosed by some
      sandwich from the move square: strictly between it and a disc of the
      mover, along one of the eight directions. */
  lemma FlipsAreSandwiched(b: Board, X: int, Y: int, side: Side, c: int)
    ensures c in Flips(b, X, Y, side) <==>
              exists d, n, k :: d in Directions() && Sandwich(b, X, Y, side, d, n) && 1 <= k <= n && c == RayIdx(X, Y, d, k)
  {
    DirectionsFacts();
    CapturedAllIsUnion(b, X, Y, side, Directions(), c);
    forall d | d in Directions()
      ensures c in Captured(b, X, Y, side, d) <==>
                exists n, k :: Sandwich(b, X, Y, side, d, n) && 1 <= k <= n && c == RayIdx(X, Y, d, k)
    {
      CapturedIsSandwiched(b, X, Y, side, d, c);
    }
  }

  /** Every flipped bit belonged to an opponent disc on the board. */
  lemma CapturedOwned(b: Board, X: int, Y: int, side: Side, d: Dir, c: int)
    requires IsDir(d) && c in Captured(b, X, Y, side, d)
    ensures c in Owned(b, Other(side)) && c in Indices
  {
    var x, y := X + d.dx, Y + d.dy;
    var m :| 0 <= m < RunLength(b, Other(side), x, y, d) && c == RayIdx(x, y, d, m);
    assert DiscAt(b, Other(side), x, y, d, m);
    IdxInjective(Shift(x, d.dx, m), Shift(y, d.dy, m), 0, 0);
  }

  lemma FlipsOwned(b: Board, X: int, Y: int, side: Side)
    ensures Flips(b, X, Y, side) <= Owned(b, Other(side)) * Indices
  {
    DirectionsFacts();
    forall c | c in Flips(b, X, Y, side) ensures c in Owned(b, Other(side)) * Indices {
      CapturedAllIsUnion(b, X, Y, side, Directions(), c);
      var d :| d in Directions() && c in Captured(b, X, Y, side, d);
      CapturedOwned(b, X, Y, side, d, c);
    }
  }

  /** A capturing direction flips at least the adjacent square. */
  lemma CapturesFlipAdjacent(b: Board, X: int, Y: int, side: Side, d: Dir)
    requires IsDir(d) && DirCaptures(b, X, Y, side, d)
    ensures Idx(X + d.dx, Y + d.dy) in Captured(b, X, Y, side, d)
  {
    var x, y := X + d.dx, Y + d.dy;
    ShiftStep(x, d.dx, 0);
    ShiftStep(y, d.dy, 0);
    assert RayIdx(x, y, d, 0) == Idx(x, y);
  }

  /** A legal move flips at least one disc. */
  lemma FlipsNonEmpty(b: Board, X: int, Y: int, side: Side)
    requires OnBoard(X, Y) && CheckSquare(b, X, Y, side)
    ensures Flips(b, X, Y, side) != {}
  {
    CheckSquareDirs(b, X, Y, side);
    var d :| d in Directions() && DirCaptures(b, X, Y, side, d);
    DirectionsFacts();
    CapturesFlipAdjacent(b, X, Y, side, d);
    CapturedAllIsUnion(b, X, Y, side, Directions(), Idx(X + d.dx, Y + d.dy));
  }

  // ---------------------------------------------------------------------
  // What a legal move does to the position.

  /** A legal move gives the mover the move square and every flipped disc,
      takes the flipped discs from the opponent, and fills exactly one
      empty square. */
  lemma DoMoveOwners(b: Board, X: int, Y: int, side: Side)
    requires OnBoard(X, Y) && CheckMove(b, Some(Move(X, Y)), side)
    ensures Flips(b, X, Y, side) != {} && Flips(b, X, Y, side) <= Owned(b, Other(side)) * Indices
    ensures Idx(X, Y) !in b.taken
    ensures DoMove(b, Some(Move(X, Y)), side).taken == b.taken + {Idx(X, Y)}
    ensures Owned(DoMove(b, Some(Move(X, Y)), side), side) == Owned(b, side) + Flips(b, X, Y, side) + {Idx(X, Y)}
    ensures Owned(DoMove(b, Some(Move(X, Y)), side), Other(side)) == Owned(b, Other(side)) - Flips(b, X, Y, side)
  {
    var f := Flips(b, X, Y, side);
    DoMoveIsPaint(b, X, Y, side);
    FlipsNonEmpty(b, X, Y, side);
    FlipsOwned(b, X, Y, side);
  }

  /** The disc counts after a legal move: one more disc on the board, the
      mover gains the placed disc and the flipped ones, the opponent loses
      the flipped ones; the ownership invariant is kept. */
  lemma DoMoveCounts(b: Board, X: int, Y: int, side: Side)
    requires Valid(b) && OnBoard(X, Y) && CheckMove(b, Some(Move(X, Y)), side)
    ensures Valid(DoMove(b, Some(Move(X, Y)), side))
    ensures |DoMove(b, Some(Move(X, Y)), side).taken| == |b.taken| + 1
    ensures Count(DoMove(b, Some(Move(X, Y)), side), side) == Count(b, side) + |Flips(b, X, Y, side)| + 1
    ensures Count(DoMove(b, Some(Move(X, Y)), side), Other(side)) == Count(b, Other(side)) - |Flips(b, X, Y, side)|
    ensures |Flips(b, X, Y, side)| >= 1
  {
    var f := Flips(b, X, Y, side);
    var i := Idx(X, Y);
    var r := DoMove(b, Some(Move(X, Y)), side);
    DoMoveOwners(b, X, Y, side);
    DoMoveIsPaint(b, X, Y, side);
    IdxInjective(X, Y, X, Y);
    assert Valid(r);
    var mine, theirs := Owned(b, side), Owned(b, Other(side));
    assert mine * theirs == {};
    assert (mine + f) * {i} == {};
    assert |mine + f| == |mine| + |f|;
    CardDifference(theirs, f);
  }

  /** Square by square: the move square becomes the mover's, a flipped square
      changes from the opponent's to the mover's, and every other square is
      as it was. */
  lemma DoMoveSquare(b: Board, X: int, Y: int, side: Side, x: int, y: int, who: Side)
    requires OnBoard(X, Y) && OnBoard(x, y) && CheckMove(b, Some(Move(X, Y)), side)
    ensures (x, y) == (X, Y) ==> Get(DoMove(b, Some(Move(X, Y)), side), side, x, y) && !Occupied(b, x, y)
    ensures Idx(x, y) in Flips(b, X, Y, side) ==>
              Get(b, Other(side), x, y) && Get(DoMove(b, Some(Move(X, Y)), side), side, x, y)
    ensures (x, y) != (X, Y) && Idx(x, y) !in Flips(b, X, Y, side) ==>
              Get(DoMove(b, Some(Move(X, Y)), side), who, x, y) == Get(b, who, x, y)
  {
    var f := Flips(b, X, Y, side);
    DoMoveOwners(b, X, Y, side);
    DoMoveIsPaint(b, X, Y, side);
    IdxInjective(x, y, X, Y);
    if (x, y) != (X, Y) && Idx(x, y) !in f {
      PaintFrame(b, side, f + {Idx(X, Y)}, who, x, y);
    }
  }
}
