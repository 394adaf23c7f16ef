/** The board of the tank game: a fixed 15 x 15 grid of integer cells.

    The game stores its maze row-major, so the cell at column `x` and row `y`
    is `maze[y][x]`; `x` grows to the right and `y` grows downwards.
 */
module Grid {

  const ROWS: int := 15
  const COLS: int := 15

  /** The three cell values the game uses. */
  const EMPTY: int := 0
  const BRICK: int := 1   // destructible
  const STEEL: int := 2   // indestructible

  datatype Pos = Pos(x: int, y: int)

  datatype Direction = Up | Down | Left | Right

  /** Column offset of one step in direction `d`. */
  function Dx(d: Direction): (dx: int)
    ensures dx != 0 <==> d == Left || d == Right
  {
    match d
    case Left => -1
    case Right => 1
    case _ => 0
  }

  /** Row offset of one step in direction `d` (up is towards row 0). */
  function Dy(d: Direction): (dy: int)
    ensures dy != 0 <==> d == Up || d == Down
  {
    match d
    case Up => -1
    case Down => 1
    case _ => 0
  }

  /** The direction that undoes a step in direction `d`. */
  function Opposite(d: Direction): (e: Direction)
    ensures e != d
    ensures Dx(e) == -Dx(d) && Dy(e) == -Dy(d)
  {
    match d
    case Up => Down
    case Down => Up
    case Left => Right
    case Right => Left
  }

  /** The neighbouring cell of `p` in direction `d`. */
  function Next(p: Pos, d: Direction): (q: Pos)
    ensures (d == Up || d == Down) <==> q.x == p.x
    ensures (d == Up <==> q.y < p.y) && (d == Down <==> q.y > p.y)
    ensures (d == Left <==> q.x < p.x) && (d == Right <==> q.x > p.x)
  {
    Pos(p.x + Dx(d), p.y + Dy(d))
  }

  /** A step reaches one of the four orthogonal neighbours, one cell away. */
  lemma NextIsNeighbour(p: Pos, d: Direction)
    ensures var q := Next(p, d);
      || (q.x == p.x && (q.y == p.y - 1 || q.y == p.y + 1))
      || (q.y == p.y && (q.x == p.x - 1 || q.x == p.x + 1))
  {
  }

  /** Stepping back in the opposite direction undoes a step. */
  lemma NextOpposite(p: Pos, d: Direction)
    ensures Next(Next(p, d), Opposite(d)) == p
  {
  }

  predicate InBounds(p: Pos) {
    0 <= p.x < COLS && 0 <= p.y < ROWS
  }

  predicate OnBorder(p: Pos) {
    p.x == 0 || p.x == COLS - 1 || p.y == 0 || p.y == ROWS - 1
  }

  predicate IsGrid(m: seq<seq<int>>) {
    |m| == ROWS && forall y | 0 <= y < ROWS :: |m[y]| == COLS
  }

  /** A maze always has exactly ROWS rows of COLS cells. */
  type Maze = m: seq<seq<int>> | IsGrid(m) witness Blank()

  function Blank(): (m: seq<seq<int>>) {
    seq(ROWS, _ => seq(COLS, _ => EMPTY))
  }

  /** The value of cell `p`; rows are indexed by `y`, columns by `x`. */
  function At(m: Maze, p: Pos): (v: int)
    requires InBounds(p)
  {
    m[p.y][p.x]
  }

  /** Two mazes that agree on every cell are the same maze. */
  lemma MazeExtensionality(a: Maze, b: Maze)
    requires forall p | InBounds(p) :: At(a, p) == At(b, p)
    ensures a == b
  {
    forall y | 0 <= y < ROWS
      ensures a[y] == b[y]
    {
      forall x | 0 <= x < COLS
        ensures a[y][x] == b[y][x]
      {
        assert At(a, Pos(x, y)) == At(b, Pos(x, y));
      }
    }
  }

  /** Writing EMPTY into one cell, as a bullet does to a brick it hits. */
  function Clear(m: Maze, p: Pos): (r: Maze)
    requires InBounds(p)
    ensures At(r, p) == EMPTY
    ensures forall q | InBounds(q) && q != p :: At(r, q) == At(m, q)
  {
    m[p.y := m[p.y][p.x := EMPTY]]
  }

  /** Writing EMPTY into every in-bounds cell of `cells` at once. */
  function ClearAll(m: Maze, cells: set<Pos>): (r: Maze)
    ensures forall q | InBounds(q) && q in cells :: At(r, q) == EMPTY
    ensures forall q | InBounds(q) && q !in cells :: At(r, q) == At(m, q)
  {
    seq(ROWS, y requires 0 <= y < ROWS =>
      seq(COLS, x requires 0 <= x < COLS =>
        if Pos(x, y) in cells then EMPTY else m[y][x]))
  }

  /** Clearing cells one by one is clearing them all at once; clearing a
      cell twice is clearing it once. */
  lemma ClearThenClearAll(m: Maze, cells: set<Pos>, p: Pos)
    requires InBounds(p)
    ensures Clear(ClearAll(m, cells), p) == ClearAll(m, cells + {p})
  {
    MazeExtensionality(Clear(ClearAll(m, cells), p), ClearAll(m, cells + {p}));
  }

  lemma ClearAllNothing(m: Maze)
    ensures ClearAll(m, {}) == m
  {
    MazeExtensionality(ClearAll(m, {}), m);
  }

  /** The layout the game starts from: steel all round the border, and the
      same when mirrored left to right. */
  const INITIAL_MAZE: Maze := [
    [2, 2, 2, 2, 2, 2, 2, 2, 2, 2, 2, 2, 2, 2, 2],
    [2, 0, 0, 0, 1, 1, 0, 2, 0, 1, 1, 0, 0, 0, 2],
    [2, 0, 2, 0, 1, 1, 0, 2, 0, 1, 1, 0, 2, 0, 2],
    [2, 0, 0, 0, 1, 1, 0, 0, 0, 1, 1, 0, 0, 0, 2],
    [2, 1, 1, 0, 0, 0, 0, 2, 0, 0, 0, 0, 1, 1, 2],
    [2, 1, 1, 0, 2, 2, 0, 2, 0, 2, 2, 0, 1, 1, 2],
    [2, 0, 0, 0, 0, 0, 0, 0, 0, 0, 0, 0, 0, 0, 2],
    [2, 2, 2, 0, 2, 2, 0, 0, 0, 2, 2, 0, 2, 2, 2],
    [2, 0, 0, 0, 0, 0, 0, 2, 0, 0, 0, 0, 0, 0, 2],
    [2, 1, 1, 0, 2, 2, 0, 2, 0, 2, 2, 0, 1, 1, 2],
    [2, 1, 1, 0, 0, 0, 0, 2, 0, 0, 0, 0, 1, 1, 2],
    [2, 0, 0, 0, 1, 1, 0, 0, 0, 1, 1, 0, 0, 0, 2],
    [2, 0, 2, 0, 1, 1, 0, 2, 0, 1, 1, 0, 2, 0, 2],
    [2, 0, 0, 0, 1, 1, 0, 2, 0, 1, 1, 0, 0, 0, 2],
    [2, 2, 2, 2, 2, 2, 2, 2, 2, 2, 2, 2, 2, 2, 2]
  ]

  /** The initial layout uses only the three cell values. */
  lemma InitialMazeValues()
    ensures forall p | InBounds(p) :: At(INITIAL_MAZE, p) in {EMPTY, BRICK, STEEL}
  {
  }

  /** The initial layout has steel all round the border. */
  lemma InitialMazeBorder()
    ensures forall p | InBounds(p) && OnBorder(p) :: At(INITIAL_MAZE, p) == STEEL
  {
  }

  /** The initial layout is its own left-to-right mirror image. */
  lemma InitialMazeMirror()
    ensures forall p | InBounds(p) :: At(INITIAL_MAZE, p) == At(INITIAL_MAZE, Pos(COLS - 1 - p.x, p.y))
  {
  }

  /** The layout is not symmetric under a half turn: the centre column is open
      in row 6 but steel in row 8. */
  lemma InitialMazeNotHalfTurnSymmetric()
    ensures At(INITIAL_MAZE, Pos(7, 6)) == EMPTY
    ensures At(INITIAL_MAZE, Pos(COLS - 1 - 7, ROWS - 1 - 6)) == STEEL
  {
  }
}
