# Othello board engine — a Dafny model

This project models the rules engine of an Othello player, `board.cpp`, and the
player's one-ply move heuristic. It proves properties of that model.

The position is the pair of 64-bit sets `taken` and `black`. Square (x, y) has
bit `x + 8*y`. A square is black when its bit is in both sets, white when it is
in `taken` only, and empty otherwise.

The modules follow the structure of the source:

- `BoardState` (`board.dfy`) covers the board and its primitives: the initial
  position, `copy`, `occupied`, `get`, `set`, `onBoard`, the disc counters and
  the test loader `setBoard`. It also states the ownership invariant
  `black ⊆ taken ⊆ {0..63}`.
- `Legality` (`legality.dfy`) covers `checkMove` and `hasMoves`. The ray walk
  `while (onBoard(x, y) && get(other, x, y))` becomes the function `RunLength`.
  The check of the eight directions is the source's dx-outer/dy-inner loop.
  Walk-based legality is proved equal to the sandwich rule of Othello
  (`Legal`): the adjacent squares hold n ≥ 1 opponent discs and the square
  after them holds a disc of the mover.
- `Application` (`apply.dfy`) covers `doMove`, written as the source runs it.
  The eight directions are folded in loop order, and each flip loop reads the
  board as the previous loops left it. The move square is set last. This
  sequential procedure is proved equal to painting the flip set `Flips` in one
  step. `Flips` is the union of every direction's sandwiched run, read off the
  original board. The counts and the square-by-square effect follow from that.
- `Enumeration` (`enumeration.dfy`) covers `return_moves` and `isDone`. The
  nested x-outer/y-inner scan becomes one counter `8x + y`.
- `Heuristic` (`heuristic.dfy`) covers `return_best_move_heuristic`. It models
  the reply loop (a running minimum that starts at 999 and is replaced only by
  a strictly smaller value) and the selection loop (a running best that starts
  at −999 and is replaced only by a strictly greater score). Both are stated
  over plain integer sequences and then tied to the scores of the legal moves.

`Move*` and `Board*` become values: a pass (`NULL`) is `None` of an `Option<Move>`. A copy
of a board is a value that shares nothing with its original. The source
reads square (x, y) as bit `x + 8*y` without checking the coordinates. Only an
index outside 0..63 is undefined behaviour. An off-board square whose index is
in range reads another square: (8, 0) reads bit 8, which is (0, 1). The model
requires `0 <= x, y < 8` wherever the source indexes the bitset. Every caller
in the source passes such squares (board.cpp:61-64, 151-156).

`return_best_move_heuristic` can return `NULL` (a pass) even when the side has
legal moves. A legal move scores at most −999 exactly when three things hold:
it is not a corner, some reply of the opponent takes a corner, and ten times
the mobility term plus the disc difference is at most 1 (`AtFloorExactly`).
The heuristic passes exactly when every legal move is in that state
(`PassExactly`). The model keeps this behaviour. `BestMove` states the pass as
an if-and-only-if over the scores, and `PassNeedsCornerReplies` draws the
consequence that a pass only happens when every legal move gives the opponent
a corner reply.

Some helpers have no row of their own, because a lemma about them carries the
contract:

- `BoardState.Set` (board.cpp:39-42) is covered by `SetEffect`.
- `BoardState.Occupied` (board.cpp:31-33) is covered by `GetExclusive` and `Get`.
- `Legality.HasMoves` (board.cpp:60-68) is covered by `Enumeration.HasMovesIffMoves`.
- `Legality.CheckSquare` (board.cpp:77-101) is covered by `CheckSquareDirs` and
  `CheckSquareIsLegal`.
- `Application.FlipRun`, `ApplyDir` and `DoDirs` (board.cpp:117-140) are covered by
  `FlipRunPaints`, `ApplyDirPaints` and `DoMoveIsPaint`.

`Opening` (`opening.dfy`) works out the moves of the start position. Each side
has exactly four, listed in scan order by `return_moves`.

## Model

| member | source | states |
|---|---|---|
| BoardState.Initial | board.cpp:6-13 | the start position is taken = {27, 28, 35, 36}, black = {28, 35}: white on (3,3) and (4,4), black on (4,3) and (3,4), two discs each, invariant holds |
| BoardState.Copy | board.cpp:24-29 | the copy has the same `taken` and `black` sets as the original |
| BoardState.Get | board.cpp:35-37 | a square reads as a side's iff its bit is among that side's discs (black: in `taken` and `black`; white: in `taken` only), and such a square is occupied |
| BoardState.GetExclusive | board.cpp:31-37 | an occupied square belongs to exactly one side and an empty square to neither |
| BoardState.SetEffect | board.cpp:39-42 | after `set` the square is the side's and not the opponent's, every other square reads as before for both colours, and the invariant is kept |
| BoardState.CountBlack | board.cpp:275-277 | on a board with black ⊆ taken, the black count is the number of black discs |
| BoardState.CountWhite | board.cpp:282-284 | on a board with black ⊆ taken, the size of `taken` minus the size of `black` is the number of white discs |
| BoardState.Count | board.cpp:268-270 | `count` dispatches to the black or white counter and yields the number of the side's discs |
| BoardState.CountBounds | board.cpp:268-284 | on a valid board a side's count lies between 0 and the number of discs, which is at most 64 |
| BoardState.SetBoard | board.cpp:290-301 | the loaded board drops the old contents: bit i is taken iff character i is 'b' or 'w', and black iff it is 'b'; the invariant holds |
| Legality.RunLength | board.cpp:91-95 | the walk's step count n is the length of the maximal run: the first n squares hold discs of the side and the n-th square after the start does not |
| Legality.DirectionsComplete | board.cpp:84-86 | the direction list holds every non-zero step (dx, dy) with dx, dy in {−1, 0, 1} |
| Legality.CheckSquareDirs | board.cpp:81-101 | a square passes the test iff it is empty and some direction captures |
| Legality.DirCapturesIsSandwich | board.cpp:88-98 | a direction captures iff some n ≥ 1 squares after the move hold opponent discs and the next square holds a disc of the mover, so an edge or an empty square never closes a run |
| Legality.CheckSquareIsLegal | board.cpp:77-101 | the walk-based test of a square is equivalent to the sandwich rule |
| Legality.CheckMove | board.cpp:73-102 | a pass is legal iff no square is legal for the side; a move is legal iff the sandwich rule allows it; a legal move is on an empty square |
| Application.DoMove | board.cpp:107-112 | a pass or a move that fails `checkMove` leaves the board unchanged; after a legal move the move square is the mover's |
| Application.FlipRunPaints | board.cpp:133-137 | the flip loop gives the whole opponent run to the mover and nothing else |
| Application.ApplyDirPaints | board.cpp:121-138 | one direction's pass, run after earlier directions changed only squares off its ray, adds exactly that direction's captures |
| Application.DoMoveIsPaint | board.cpp:114-141 | the sequential flip-and-place equals painting the flip set plus the move square in the mover's colour |
| Application.FlipsAreSandwiched | board.cpp:117-140 | a square is flipped iff some direction holds a sandwich that encloses it |
| Application.FlipsNonEmpty | board.cpp:112-140 | a legal move flips at least one disc |
| Application.DoMoveOwners | board.cpp:114-141 | a legal move adds exactly the move square to `taken`; the mover gains the flips and the move square, and the opponent loses exactly the flips, all of which were opponent discs |
| Application.DoMoveCounts | board.cpp:114-141 | after a legal move there is one more disc, the mover's count rises by the flips plus one, the opponent's falls by the flips, and the invariant is kept |
| Application.DoMoveSquare | board.cpp:121-141 | square by square: the move square becomes the mover's, a flipped square changes from opponent to mover, and every other square is unchanged for both colours |
| Enumeration.ScanTo | board.cpp:151-161 | the scan up to step t lists exactly the legal squares before t, in strictly increasing scan order |
| Enumeration.Moves | board.cpp:148-163 | `return_moves` lists exactly the squares that pass `checkMove`, in x-outer/y-inner order, at most 64 of them |
| Enumeration.IncreasingDistinct | board.cpp:151-161 | no square appears twice in the list |
| Enumeration.MovesAreLegal | board.cpp:155-158 | a move is listed iff it is on the board and legal by the sandwich rule; every listed move passes `checkMove` |
| Enumeration.HasMovesIffMoves | board.cpp:60-68 | `hasMoves` holds iff the move list is non-empty |
| Enumeration.PassIffNoMoves | board.cpp:74-75 | a pass passes `checkMove` iff the move list is empty |
| Enumeration.IsDone | board.cpp:53-55 | the game is over iff neither side has a listed move |
| Enumeration.DoneIffBothPass | board.cpp:49-55 | the game is over iff a pass is legal for both sides |
| Heuristic.DiscDiff | board.cpp:203-217 | the disc term is the mover's count minus the opponent's, which on a valid board is the difference of the owned sets' sizes |
| Heuristic.DiscDiffBound | board.cpp:203-217 | on a valid board the disc term lies between −64 and 64 |
| Heuristic.MinFold | board.cpp:237-240 | the running minimum is at most its start and every value, and equals the start or one of the values |
| Heuristic.ReplyMobility | board.cpp:228-239 | the mover's move count after a reply lies between 0 and 64 |
| Heuristic.LeastMobility | board.cpp:189-241 | the mobility term is 999 when the opponent has no reply; otherwise it is the least move count over the replies and is attained by one of them |
| Heuristic.ArgMaxFold | board.cpp:255-259 | the running best never falls; it is at least every score; it stays put when no score beats it; otherwise the choice is a move whose score strictly beats every earlier one |
| Heuristic.ArgMaxPass | board.cpp:184-185 | started from −999 with no choice, the selection ends without a choice iff no score exceeds −999 |
| Heuristic.ArgMaxChoice | board.cpp:184-259 | a choice from the floor is a listed move above −999 with a greatest score, and every earlier move in scan order scores strictly less |
| Heuristic.BestMove | board.cpp:180-263 | the result is a pass iff every legal move scores at most −999; otherwise it is a legal move above −999 with the greatest score, and it is the first in scan order with that score |
| Heuristic.CornerPreferred | board.cpp:243-253 | of two moves with equal mobility, disc and reply-corner terms, the corner move scores 1000 more |
| Heuristic.ScoreAboveFloor | board.cpp:243-253 | on a valid board, a legal move that leaves the opponent no corner reply scores above −999 |
| Heuristic.PassNeedsCornerReplies | board.cpp:184-262 | the heuristic passes on a valid board only when every legal move gives the opponent a corner reply |
| Heuristic.AtFloorExactly | board.cpp:243-253 | a legal move scores at most −999 iff it is not a corner, some reply takes a corner, and 10 × mobility + disc difference ≤ 1 |
| Heuristic.PassExactly | board.cpp:184-262 | the heuristic passes on a valid board iff every legal move is not a corner, has a corner reply, and has 10 × mobility + disc difference ≤ 1 |
| Opening.OpeningSquare | board.cpp:77-101 | in the start position, a square passes `checkMove` for a side iff it is one of that side's four opening squares |
| Opening.OpeningMoves | board.cpp:148-163 | from the start position `return_moves` lists (2,3), (3,2), (4,5), (5,4) for Black and (2,4), (3,5), (4,2), (5,3) for White, in that order |

## Left out

- `return_minmax_move_better` (board.cpp:581-799) and `return_alphabeta_move` (board.cpp:309-375) do not compute a minimax or alpha-beta value. Propagation assigns constants. One lookup indexes the parent level `move_levels[depth-2]` with the child index `j` instead of the parent index `i` (board.cpp:708). The recursion never applies the child move. No coherent contract exists, so they are not part of this model.
- The commented-out `return_minmax_move` (board.cpp:381-580) and the commented-out corner/edge tables in board.h are dead code.
- player.cpp is not part of this model. `Player::doMove` is a driver that prints to stderr and ignores its time budget (player.cpp:43-62). Below 55 discs it calls `return_best_move_heuristic`, which is modelled here. From 55 discs on it calls `return_minmax_move_better(my_side, 7)`, which is left out above. The call to `return_alphabeta_move` is commented out (player.cpp:57).
- Heap allocation and the ownership of `Move*` and `Board*` are replaced by values, and the leaks of the source are not modelled. A copy is a separate value, so a change to the copy can never be observed through the original. `Copy` therefore states equality of contents only.
- `onBoard` is the predicate `OnBoard` itself and has no further contract. `occupied`, `get` and `set` require on-board coordinates. `occupied` and `get` read the bitset with the unchecked `operator[]`. `set` uses `bitset::set`, which throws `std::out_of_range` only for an index of 64 or more.
- Legality.CheckMove: requires an on-board move. The source never tests `onBoard(X, Y)`, so a move such as (8, 0) reads the square (0, 1) as its own. It passes `checkMove` when (0, 1) is empty and a run captures from (8, 0), for example White on (7, 0) and Black on (6, 0). This aliasing is not modelled, because every caller enumerates on-board squares (board.cpp:61-64, 151-156).
- Application.DoMove: requires an on-board move, for the same reason. Given the move (8, 0) above, the source flips (7, 0) and then `set` puts the mover's disc on (0, 1) instead of on the move square. This is not modelled.
- Heuristic.Score: has no contract of its own. It is the sum given at board.cpp:243-253, and its terms are stated by `LeastMobility`, `DiscDiff` and `IsCorner`/`AnyCorner`. What selection does with the scores is stated by `BestMove`.
- The comment above the heuristic gives the mobility weight as 100. The code multiplies by 10 (board.cpp:243), and the model follows the code.
- Machine integers: every count is at most 64, the mobility term at most 999 and the disc term at most 64 in absolute value, so a score is at most 999·10 + 64 + 1000 = 11054 in absolute value. `int` arithmetic in the source therefore never overflows, and the model uses unbounded integers.
