/**
 * The Go grid: occupant codes, coordinates, the four orthogonal directions
 * and the elementary updates that the rules engine performs on a grid.
 */
module GoGrid {

  /** Occupant code of one intersection: 0 empty, 1 Black, 2 White. */
  type Cell = x: int | 0 <= x <= 2

  /** The side to move, and the colour of a stone. */
  type Player = x: int | x == 1 || x == 2 witness 1

  type Pos = (int, int)

  /** Row-major grid of occupant codes; `Square` says it is n by n. */
  type Grid = seq<seq<Cell>>

  const EMPTY: Cell := 0
  const BLACK: Cell := 1
  const WHITE: Cell := 2

  /** Side of the board in board.py (GRID_SIZE of config.py). */
  const FULL_SIZE: nat := 19
  /** Side of the board in the Minimax module, which carries its own configuration. */
  const SMALL_SIZE: nat := 9
  /** Points added to White's score. */
  const KOMI: real := 6.5

  /**
   * The two copies of the board logic. `Classic` is board.py (19 by 19, one
   * eye keeps a group alive, territory may touch the edge); `Mini` is the copy
   * inside the Minimax module (9 by 9, two eyes or one eye of four cells,
   * territory never touches the edge).
   */
  datatype Variant = Classic | Mini

  function Size(v: Variant): nat
  {
    match v
    case Classic => FULL_SIZE
    case Mini => SMALL_SIZE
  }

  function Opponent(p: Player): (q: Player)
    ensures q != p && 3 - q == p
  {
    3 - p
  }

  predicate Square(g: Grid)
  {
    forall i | 0 <= i < |g| :: |g[i]| == |g|
  }

  predicate InBounds(g: Grid, p: Pos)
  {
    0 <= p.0 < |g| && 0 <= p.1 < |g|
  }

  /** The occupant of p, or -1 (no colour at all) off the board. */
  function At(g: Grid, p: Pos): int
  {
    if 0 <= p.0 < |g| && 0 <= p.1 < |g[p.0]| then g[p.0][p.1] else -1
  }

  /** The four orthogonal steps, in the source's order: right, down, left, up. */
  const DIRECTIONS: seq<(int, int)> := [(0, 1), (1, 0), (0, -1), (-1, 0)]

  /** The orthogonal neighbours of p, in the order of DIRECTIONS. */
  function Nbrs(p: Pos): (r: seq<Pos>)
    ensures |r| == 4
  {
    [(p.0, p.1 + 1), (p.0 + 1, p.1), (p.0, p.1 - 1), (p.0 - 1, p.1)]
  }

  /** The d-th neighbour is one step along the d-th direction. */
  lemma NbrStep(p: Pos, d: nat)
    requires d < 4
    ensures Nbrs(p)[d] == (p.0 + DIRECTIONS[d].0, p.1 + DIRECTIONS[d].1)
  {
  }

  predicate Adj(p: Pos, q: Pos)
  {
    q in Nbrs(p)
  }

  lemma AdjSymmetric(p: Pos, q: Pos)
    ensures Adj(p, q) <==> Adj(q, p)
  {
  }

  /** Every intersection of an n by n board. */
  function AllCells(n: nat): set<Pos>
  {
    set i, j | 0 <= i < n && 0 <= j < n :: (i, j)
  }

  lemma InAllCells(n: nat, p: Pos)
    ensures p in AllCells(n) <==> 0 <= p.0 < n && 0 <= p.1 < n
  {
    if 0 <= p.0 < n && 0 <= p.1 < n {
      assert p == (p.0, p.1);
    }
  }

  /** Adding a fresh cell of the board to `seen` leaves fewer cells unseen. */
  lemma FewerUnseen(n: nat, seen: set<Pos>, p: Pos)
    requires 0 <= p.0 < n && 0 <= p.1 < n && p !in seen
    ensures |AllCells(n) - (seen + {p})| < |AllCells(n) - seen|
  {
    InAllCells(n, p);
    assert AllCells(n) - (seen + {p}) == (AllCells(n) - seen) - {p};
  }

  /** A fresh n by n board: every cell empty. */
  function EmptyGrid(n: nat): (g: Grid)
    ensures |g| == n && Square(g)
    ensures forall p :: InBounds(g, p) ==> At(g, p) == EMPTY
  {
    seq(n, i => seq(n, j => EMPTY))
  }

  /** `board[row][col] = v` */
  function SetCell(g: Grid, p: Pos, v: Cell): (r: Grid)
    requires Square(g) && InBounds(g, p)
    ensures Square(r) && |r| == |g|
    ensures forall q :: At(r, q) == if q == p then v else At(g, q)
  {
    var row: seq<Cell> := g[p.0][p.1 := v];
    g[p.0 := row]
  }

  /** `for r, c in cells: board[r][c] = 0` */
  function ClearSet(g: Grid, cells: set<Pos>): (r: Grid)
    requires Square(g)
    ensures Square(r) && |r| == |g|
    ensures forall q :: At(r, q) == if q in cells && InBounds(g, q) then EMPTY else At(g, q)
  {
    seq(|g|, i requires 0 <= i < |g| =>
      seq(|g[i]|, j requires 0 <= j < |g[i]| => if (i, j) in cells then EMPTY else g[i][j]))
  }

  /** Two square grids of one size with the same occupants are the same grid. */
  lemma {:induction false} SameGrid(a: Grid, b: Grid)
    requires Square(a) && Square(b) && |a| == |b|
    requires forall p :: InBounds(a, p) ==> At(a, p) == At(b, p)
    ensures a == b
  {
    forall i | 0 <= i < |a|
      ensures a[i] == b[i]
    {
      forall j | 0 <= j < |a|
        ensures a[i][j] == b[i][j]
      {
        assert InBounds(a, (i, j));
        assert At(a, (i, j)) == At(b, (i, j));
      }
    }
  }

  /** The cells holding colour c. */
  function Stones(g: Grid, c: int): set<Pos>
  {
    set p | p in AllCells(|g|) && At(g, p) == c
  }

  lemma StonesMembers(g: Grid, c: int, p: Pos)
    requires Square(g)
    ensures p in Stones(g, c) <==> InBounds(g, p) && At(g, p) == c
  {
    InAllCells(|g|, p);
  }

  /** True when p lies on the first or last row or column of an n by n board. */
  predicate OnEdge(n: nat, p: Pos)
  {
    p.0 == 0 || p.0 == n - 1 || p.1 == 0 || p.1 == n - 1
  }
}
