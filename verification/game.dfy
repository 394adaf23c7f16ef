/** The game's state and the two player-driven transitions: moving a tank
    one cell and firing a bullet.

    The component keeps the maze, the two tanks and the bullet list in three
    pieces of mutable state; here they are one immutable `GameState` value and
    every handler is a pure function from the old state to the new one.
 */
module Game {
  import opened Grid

  datatype Player = Player1 | Player2

  /** The other player. */
  function Opponent(p: Player): (q: Player)
    ensures q != p
  {
    match p
    case Player1 => Player2
    case Player2 => Player1
  }

  datatype Tank = Tank(x: int, y: int, direction: Direction, alive: bool) {
    function Position(): (p: Pos) {
      Pos(x, y)
    }
  }

  /** A bullet remembers which player fired it. */
  datatype Bullet = Bullet(x: int, y: int, direction: Direction, player: Player) {
    function Position(): (p: Pos) {
      Pos(x, y)
    }

    /** The cell this bullet tries to enter on the next tick. */
    function Ahead(): (q: Pos) {
      Next(Position(), direction)
    }

    /** This bullet one cell further on, with its heading and owner kept. */
    function Advanced(): (b: Bullet) {
      this.(x := Ahead().x, y := Ahead().y)
    }
  }

  datatype Tanks = Tanks(player1: Tank, player2: Tank) {
    function Get(p: Player): (t: Tank) {
      match p
      case Player1 => player1
      case Player2 => player2
    }

    /** Replaces the tank of player `p`, keeping the other one. */
    function With(p: Player, t: Tank): (r: Tanks)
      ensures r.Get(p) == t
      ensures r.Get(Opponent(p)) == Get(Opponent(p))
    {
      match p
      case Player1 => this.(player1 := t)
      case Player2 => this.(player2 := t)
    }
  }

  datatype GameState = GameState(maze: Maze, tanks: Tanks, bullets: seq<Bullet>)

  const INITIAL_TANKS: Tanks := Tanks(
    Tank(1, 1, Down, true),
    Tank(COLS - 2, ROWS - 2, Up, true))

  /** The state the game starts in: the fixed layout, both tanks alive in
      opposite corners, each the half-turn image of the other and facing the
      other way, no bullets. */
  function Initial(): (s: GameState)
    ensures s.maze == INITIAL_MAZE && s.bullets == []
    ensures s.tanks.player1.alive && s.tanks.player2.alive
    ensures s.tanks.player2.Position() == Pos(COLS - 1 - s.tanks.player1.x, ROWS - 1 - s.tanks.player1.y)
    ensures s.tanks.player2.direction == Opposite(s.tanks.player1.direction)
  {
    GameState(INITIAL_MAZE, INITIAL_TANKS, [])
  }

  /** The cell a move of player `p` in direction `d` would enter. */
  function MoveTarget(s: GameState, p: Player, d: Direction): (q: Pos) {
    Next(s.tanks.Get(p).Position(), d)
  }

  /** A move happens only for a live tank whose target cell is on the board
      and empty. The other tank is not an obstacle. */
  predicate CanMove(s: GameState, p: Player, d: Direction) {
    var q := MoveTarget(s, p, d);
    s.tanks.Get(p).alive && InBounds(q) && At(s.maze, q) == EMPTY
  }

  /** Moves the tank of player `p` one cell in direction `d`. A move that is
      not possible changes nothing at all: the tank does not even turn. */
  function MoveTank(s: GameState, p: Player, d: Direction): (r: GameState)
    ensures r.maze == s.maze && r.bullets == s.bullets
    ensures r.tanks.Get(Opponent(p)) == s.tanks.Get(Opponent(p))
    ensures CanMove(s, p, d) ==>
      && r.tanks.Get(p).Position() == MoveTarget(s, p, d)
      && r.tanks.Get(p).direction == d
      && r.tanks.Get(p).alive
    ensures CanMove(s, p, d) ==>
      InBounds(r.tanks.Get(p).Position()) && At(r.maze, r.tanks.Get(p).Position()) == EMPTY
    ensures !CanMove(s, p, d) ==> r == s
  {
    var t := s.tanks.Get(p);
    if !t.alive then s
    else
      var q := Next(t.Position(), d);
      if InBounds(q) && At(s.maze, q) == EMPTY then
        s.(tanks := s.tanks.With(p, t.(x := q.x, y := q.y, direction := d)))
      else
        s
  }

  /** Player `p` fires: a live tank appends one bullet at its own cell,
      heading the way the tank faces. There is no limit on bullets in flight. */
  function FireBullet(s: GameState, p: Player): (r: GameState)
    ensures r.maze == s.maze && r.tanks == s.tanks
    ensures !s.tanks.Get(p).alive ==> r == s
    ensures s.tanks.Get(p).alive ==>
      var t := s.tanks.Get(p);
      && |r.bullets| == |s.bullets| + 1
      && r.bullets[..|s.bullets|] == s.bullets
      && r.bullets[|s.bullets|] == Bullet(t.x, t.y, t.direction, p)
  {
    var t := s.tanks.Get(p);
    if !t.alive then s
    else s.(bullets := s.bullets + [Bullet(t.x, t.y, t.direction, p)])
  }

  /** A successful move is undone by a move the opposite way, except that the
      tank is left facing the opposite way: the cell it left is still empty. */
  lemma MoveThenMoveBack(s: GameState, p: Player, d: Direction)
    requires CanMove(s, p, d)
    requires InBounds(s.tanks.Get(p).Position())
    requires At(s.maze, s.tanks.Get(p).Position()) == EMPTY
    ensures var back := MoveTank(MoveTank(s, p, d), p, Opposite(d));
      && back.tanks.Get(p) == s.tanks.Get(p).(direction := Opposite(d))
      && back.tanks.Get(Opponent(p)) == s.tanks.Get(Opponent(p))
      && back.maze == s.maze && back.bullets == s.bullets
  {
    var s1 := MoveTank(s, p, d);
    NextOpposite(s.tanks.Get(p).Position(), d);
    assert CanMove(s1, p, Opposite(d));
  }

  /** A dead tank neither moves nor fires, whatever its player does. */
  lemma DeadTankIsInert(s: GameState, p: Player, d: Direction)
    requires !s.tanks.Get(p).alive
    ensures MoveTank(s, p, d) == s
    ensures FireBullet(s, p) == s
  {
  }
}
