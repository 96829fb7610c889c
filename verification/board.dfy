/** The Othello position: two 64-bit sets `taken` and `black`, indexed by
    x + 8*y. A square is black when it is in both sets, white when it is in
    `taken` only, and empty otherwise. */
module BoardState {

  datatype Option<+T> = None | Some(value: T)

  datatype Side = Black | White

  /** A non-pass move; a pass is `None` wherever an `Option<Move>` is taken. */
  datatype Move = Move(x: int, y: int)

  datatype Board = Board(taken: set<int>, black: set<int>)

  function Other(side: Side): (r: Side)
    ensures r != side
  {
    if side == Black then White else Black
  }

  /** The bit index of square (x, y). */
  function Idx(x: int, y: int): int {
    x + 8 * y
  }

  /** The 64 bit positions of a `bitset<64>`. */
  const Indices: set<int> := set i | 0 <= i < 64

  predicate OnBoard(x: int, y: int) {
    0 <= x < 8 && 0 <= y < 8
  }

  /** Distinct squares have distinct bits, and every square's bit is one of the 64. */
  lemma IdxInjective(x: int, y: int, x': int, y': int)
    requires OnBoard(x, y) && OnBoard(x', y')
    ensures Idx(x, y) in Indices
    ensures Idx(x, y) == Idx(x', y') <==> x == x' && y == y'
  {
  }

  /** The ownership invariant: every black bit is also a taken bit, and no
      bit lies outside the 64 squares. */
  ghost predicate Valid(b: Board) {
    b.black <= b.taken <= Indices
  }

  /** The bits that hold a disc of `side`. */
  ghost function Owned(b: Board, side: Side): set<int> {
    if side == Black then b.taken * b.black else b.taken - b.black
  }

  function Occupied(b: Board, x: int, y: int): bool
    requires OnBoard(x, y)
  {
    Idx(x, y) in b.taken
  }

  /** True iff square (x, y) holds a disc of `side`. */
  function Get(b: Board, side: Side, x: int, y: int): (r: bool)
    requires OnBoard(x, y)
    ensures r ==> Occupied(b, x, y)
    ensures r <==> Idx(x, y) in Owned(b, side)
  {
    Occupied(b, x, y) && ((Idx(x, y) in b.black) == (side == Black))
  }

  /** An occupied square belongs to exactly one side; an empty one to neither. */
  lemma GetExclusive(b: Board, side: Side, x: int, y: int)
    requires OnBoard(x, y)
    ensures Occupied(b, x, y) <==> Get(b, side, x, y) || Get(b, Other(side), x, y)
    ensures !(Get(b, side, x, y) && Get(b, Other(side), x, y))
  {
  }

  /** Places a disc of `side` on (x, y), overwriting whatever was there. */
  function Set(b: Board, side: Side, x: int, y: int): Board
    requires OnBoard(x, y)
  {
    var i := Idx(x, y);
    Board(b.taken + {i}, if side == Black then b.black + {i} else b.black - {i})
  }

  /** After `set`, the square is the side's and no other square changed;
      the ownership invariant survives. */
  lemma SetEffect(b: Board, side: Side, x: int, y: int)
    requires OnBoard(x, y)
    ensures Get(Set(b, side, x, y), side, x, y) && !Get(Set(b, side, x, y), Other(side), x, y)
    ensures forall x', y' :: OnBoard(x', y') && (x', y') != (x, y) ==>
              Get(Set(b, side, x, y), Black, x', y') == Get(b, Black, x', y') &&
              Get(Set(b, side, x, y), White, x', y') == Get(b, White, x', y')
    ensures Valid(b) ==> Valid(Set(b, side, x, y))
  {
    IdxInjective(x, y, x, y);
    forall x', y' | OnBoard(x', y') && (x', y') != (x, y)
      ensures Idx(x', y') != Idx(x, y)
    {
      IdxInjective(x', y', x, y);
    }
  }

  /** Gives every bit of `s` to `side`: the combined effect of several `Set`s. */
  ghost function Paint(b: Board, side: Side, s: set<int>): Board {
    Board(b.taken + s, if side == Black then b.black + s else b.black - s)
  }

  lemma SetIsPaint(b: Board, side: Side, x: int, y: int)
    requires OnBoard(x, y)
    ensures Set(b, side, x, y) == Paint(b, side, {Idx(x, y)})
  {
  }

  lemma PaintTwice(b: Board, side: Side, s: set<int>, t: set<int>)
    ensures Paint(Paint(b, side, s), side, t) == Paint(b, side, s + t)
  {
  }

  lemma PaintEmpty(b: Board, side: Side)
    ensures Paint(b, side, {}) == b
  {
  }

  /** Painting leaves every square outside the painted bits as it was. */
  lemma PaintFrame(b: Board, side: Side, s: set<int>, who: Side, x: int, y: int)
    requires OnBoard(x, y) && Idx(x, y) !in s
    ensures Get(Paint(b, side, s), who, x, y) == Get(b, who, x, y)
  {
  }

  /** The standard starting position: white on (3,3) and (4,4), black on
      (4,3) and (3,4). */
  function Initial(): (r: Board)
    ensures r.taken == {27, 28, 35, 36} && r.black == {28, 35}
    ensures Valid(r)
    ensures CountBlack(r) == 2 && CountWhite(r) == 2
    ensures Get(r, White, 3, 3) && Get(r, White, 4, 4)
    ensures Get(r, Black, 4, 3) && Get(r, Black, 3, 4)
  {
    var r := Board({Idx(3, 3), Idx(3, 4), Idx(4, 3), Idx(4, 4)}, {Idx(4, 3), Idx(3, 4)});
    assert r.taken - r.black == {27, 36};
    r
  }

  /** In a value model a copy shares nothing with its original, so changing
      one can never be observed through the other. */
  function Copy(b: Board): (r: Board)
    ensures r.taken == b.taken && r.black == b.black
  {
    Board(b.taken, b.black)
  }

  function CountBlack(b: Board): (r: int)
    ensures b.black <= b.taken ==> r == |Owned(b, Black)|
  {
    assert b.black <= b.taken ==> b.taken * b.black == b.black;
    |b.black|
  }

  function CountWhite(b: Board): (r: int)
    ensures b.black <= b.taken ==> r == |Owned(b, White)|
  {
    CardDifference(b.taken, b.black);
    |b.taken| - |b.black|
  }

  function Count(b: Board, side: Side): (r: int)
    ensures b.black <= b.taken ==> r == |Owned(b, side)|
    ensures side == Black ==> r == CountBlack(b)
    ensures side == White ==> r == CountWhite(b)
  {
    if side == Black then CountBlack(b) else CountWhite(b)
  }

  lemma CardDifference(a: set<int>, s: set<int>)
    ensures s <= a ==> |a - s| == |a| - |s|
  {
    if s <= a {
      assert a == (a - s) + s;
    }
  }

  /** The bits below n. */
  ghost function Prefix(n: int): set<int> {
    set i | i in Indices && i < n
  }

  lemma {:induction false} PrefixSize(n: nat)
    requires n <= 64
    ensures |Prefix(n)| == n
  {
    if n > 0 {
      PrefixSize(n - 1);
      assert Prefix(n) == Prefix(n - 1) + {n - 1};
    } else {
      assert Prefix(0) == {};
    }
  }

  /** On a valid board a side holds between 0 and 64 discs, and never more
      than the board has discs. */
  lemma CountBounds(b: Board, side: Side)
    requires Valid(b)
    ensures 0 <= Count(b, side) <= |b.taken| <= 64
  {
    PrefixSize(64);
    assert Indices == Prefix(64);
    assert Indices == b.taken + (Indices - b.taken);
    assert b.taken == Owned(b, side) + (b.taken - Owned(b, side));
  }

  /** Loads a position from 64 characters: 'b' is a black disc, 'w' a white
      disc, anything else an empty square. The previous contents are dropped. */
  method SetBoard(data: seq<char>) returns (r: Board)
    requires |data| == 64
    ensures Valid(r)
    ensures forall i :: 0 <= i < 64 ==> (i in r.taken <==> data[i] == 'b' || data[i] == 'w')
    ensures forall i :: 0 <= i < 64 ==> (i in r.black <==> data[i] == 'b')
  {
    var taken: set<int> := {};
    var black: set<int> := {};
    var i := 0;
    while i < 64
      invariant 0 <= i <= 64
      invariant taken <= Indices && black <= taken
      invariant forall j :: j in taken <==> 0 <= j < i && (data[j] == 'b' || data[j] == 'w')
      invariant forall j :: j in black <==> 0 <= j < i && data[j] == 'b'
    {
      if data[i] == 'b' {
        taken := taken + {i};
        black := black + {i};
      }
      if data[i] == 'w' {
        taken := taken + {i};
      }
      i := i + 1;
    }
    r := Board(taken, black);
  }
}
