/** The game as a state machine: the events that drive it, runs of events,
    and the invariants every reachable state keeps.

    Key presses (moves and fires) and timer ticks are handled one at a time,
    each to completion, so a run is a left fold of `Step` over a sequence of
    events.
 */
module Engine {
  import opened Grid
  import opened Game
  import opened Bullets

  datatype Event = Move(player: Player, direction: Direction) | Fire(player: Player) | Tick

  /** Handles one event. Only a tick touches the maze, only a move touches
      a tank's position, and a move leaves the bullets alone. */
  function Step(s: GameState, e: Event): (r: GameState)
    ensures !e.Tick? ==> r.maze == s.maze
    ensures e.Move? ==> r.bullets == s.bullets
    ensures !e.Move? ==> forall p: Player :: r.tanks.Get(p).Position() == s.tanks.Get(p).Position()
  {
    match e
    case Move(p, d) => MoveTank(s, p, d)
    case Fire(p) => FireBullet(s, p)
    case Tick => UpdateBullets(s)
  }

  /** The state reached from `s` by handling the events of `es` in order. */
  function Run(s: GameState, es: seq<Event>): (r: GameState)
    ensures (forall i | 0 <= i < |es| :: !es[i].Tick?) ==> r.maze == s.maze
    ensures (forall i | 0 <= i < |es| :: es[i].Move?) ==> r.bullets == s.bullets
    decreases |es|
  {
    if es == [] then s
    else
      assert forall i | 0 <= i < |es| - 1 :: es[1..][i] == es[i + 1];
      Run(Step(s, es[0]), es[1..])
  }

  /** Handling `a` and then `b` is handling `a + b`. */
  lemma {:induction false} RunAppend(s: GameState, a: seq<Event>, b: seq<Event>)
    ensures Run(s, a + b) == Run(Run(s, a), b)
    decreases |a|
  {
    if a != [] {
      assert (a + b)[0] == a[0] && (a + b)[1..] == a[1..] + b;
      RunAppend(Step(s, a[0]), a[1..], b);
    } else {
      assert a + b == b;
    }
  }

  lemma RunSingle(s: GameState, e: Event)
    ensures Run(s, [e]) == Step(s, e)
  {
    assert [e][1..] == [];
  }

  lemma RunThree(s: GameState, a: Event, b: Event, c: Event)
    ensures Run(s, [a, b, c]) == Step(Step(Step(s, a), b), c)
  {
    assert [a, b, c][1..] == [b, c];
    assert [b, c][1..] == [c];
    RunSingle(Step(Step(s, a), b), c);
  }

  /** Every cell holds one of the three cell values. */
  ghost predicate ValidCells(m: Maze) {
    forall p | InBounds(p) :: At(m, p) in {EMPTY, BRICK, STEEL}
  }

  /** Every border cell is steel. */
  ghost predicate SteelBorder(m: Maze) {
    forall p | InBounds(p) && OnBorder(p) :: At(m, p) == STEEL
  }

  /** `p` is an empty cell of the board. */
  predicate OpenCell(m: Maze, p: Pos) {
    InBounds(p) && At(m, p) == EMPTY
  }

  /** What holds in every state the game can reach: the maze has valid
      cells and a steel border, both tanks (alive or not) stand on empty
      cells, and every bullet is on an empty cell of the board. */
  ghost predicate Inv(s: GameState) {
    && ValidCells(s.maze)
    && SteelBorder(s.maze)
    && OpenCell(s.maze, s.tanks.player1.Position())
    && OpenCell(s.maze, s.tanks.player2.Position())
    && forall i | 0 <= i < |s.bullets| :: OpenCell(s.maze, s.bullets[i].Position())
  }

  /** `m'` arises from `m` by bricks turning empty and nothing else. */
  ghost predicate Erodes(m: Maze, m': Maze) {
    forall p | InBounds(p) :: At(m', p) == At(m, p) || (At(m, p) == BRICK && At(m', p) == EMPTY)
  }

  lemma InitialInv()
    ensures Inv(Initial())
  {
    InitialMazeValues();
    InitialMazeBorder();
  }

  /** The bullet step keeps the invariant: survivors land on cells that were
      open and stay open, and tanks do not move. */
  lemma UpdateBulletsInv(s: GameState)
    requires Inv(s)
    ensures Inv(UpdateBullets(s))
  {
    var r := UpdateBullets(s);
    var idx := Flyers(s, s.bullets);
    forall i | 0 <= i < |r.bullets|
      ensures OpenCell(r.maze, r.bullets[i].Position())
    {
      var b := s.bullets[idx[i]];
      assert Advances(s, b) && r.bullets[i] == b.Advanced();
      assert At(s.maze, b.Ahead()) == EMPTY;
    }
    assert r.tanks.player1 == r.tanks.Get(Player1);
    assert r.tanks.player2 == r.tanks.Get(Player2);
  }

  lemma StepInv(s: GameState, e: Event)
    requires Inv(s)
    ensures Inv(Step(s, e))
  {
    match e
    case Move(p, d) =>
      var r := MoveTank(s, p, d);
      assert r.tanks.player1 == r.tanks.Get(Player1) && r.tanks.player2 == r.tanks.Get(Player2);
      assert s.tanks.player1 == s.tanks.Get(Player1) && s.tanks.player2 == s.tanks.Get(Player2);
    case Fire(p) =>
      var r := FireBullet(s, p);
      if s.tanks.Get(p).alive {
        assert OpenCell(s.maze, s.tanks.Get(p).Position());
        forall i | 0 <= i < |r.bullets|
          ensures OpenCell(r.maze, r.bullets[i].Position())
        {
          if i < |s.bullets| {
            assert r.bullets[i] == r.bullets[..|s.bullets|][i];
          }
        }
      }
    case Tick =>
      UpdateBulletsInv(s);
  }

  /** Invariant of every run: starting from a state that satisfies it, any
      sequence of moves, fires and ticks keeps it. */
  lemma {:induction false} RunInv(s: GameState, es: seq<Event>)
    requires Inv(s)
    ensures Inv(Run(s, es))
    decreases |es|
  {
    if es != [] {
      StepInv(s, es[0]);
      RunInv(Step(s, es[0]), es[1..]);
    }
  }

  /** Every state reachable from the initial state satisfies the invariant. */
  lemma ReachableInv(es: seq<Event>)
    ensures Inv(Run(Initial(), es))
  {
    InitialInv();
    RunInv(Initial(), es);
  }

  /** Under the invariant no bullet has an off-board cell ahead: it stands on
      an empty cell, so not on the steel border, and one step from an inner
      cell stays on the board. */
  lemma NoBulletLeavesTheBoard(s: GameState)
    requires Inv(s)
    ensures forall i | 0 <= i < |s.bullets| :: InBounds(s.bullets[i].Ahead())
  {
    forall i | 0 <= i < |s.bullets|
      ensures InBounds(s.bullets[i].Ahead())
    {
      var p := s.bullets[i].Position();
      assert OpenCell(s.maze, p);
      assert !OnBorder(p);
      NextIsNeighbour(p, s.bullets[i].direction);
    }
  }

  /** So in play the off-board check of a tick never fires: from the initial
      state, no bullet ever leaves the board. */
  lemma BoundsCheckNeverFires(es: seq<Event>)
    ensures var s := Run(Initial(), es);
      forall i | 0 <= i < |s.bullets| :: Resolve(s, s.bullets[i]) != OffBoard
  {
    ReachableInv(es);
    NoBulletLeavesTheBoard(Run(Initial(), es));
  }

  /** One event changes the maze only by turning bricks into empty cells. */
  lemma StepErodes(s: GameState, e: Event)
    ensures Erodes(s.maze, Step(s, e).maze)
  {
  }

  lemma ErodesTransitive(a: Maze, b: Maze, c: Maze)
    requires Erodes(a, b) && Erodes(b, c)
    ensures Erodes(a, c)
  {
  }

  /** Over any run the maze only loses bricks: steel, empty cells and every
      other value stay as they were, and a brick can only become empty. */
  lemma {:induction false} RunErodes(s: GameState, es: seq<Event>)
    ensures Erodes(s.maze, Run(s, es).maze)
    decreases |es|
  {
    if es != [] {
      StepErodes(s, es[0]);
      RunErodes(Step(s, es[0]), es[1..]);
      ErodesTransitive(s.maze, Step(s, es[0]).maze, Run(s, es).maze);
    }
  }

  /** The steel border of the initial layout is never touched. */
  lemma BorderNeverChanges(es: seq<Event>, p: Pos)
    requires InBounds(p) && OnBorder(p)
    ensures At(Run(Initial(), es).maze, p) == At(INITIAL_MAZE, p) == STEEL
  {
    InitialMazeBorder();
    RunErodes(Initial(), es);
  }

  /** No event brings a dead tank back, moves a dead tank or turns it. */
  lemma StepNeverRevives(s: GameState, e: Event, p: Player)
    requires !s.tanks.Get(p).alive
    ensures Step(s, e).tanks.Get(p) == s.tanks.Get(p)
  {
    match e
    case Move(q, d) =>
      if q != p {
        assert p == Opponent(q);
      }
    case Fire(q) =>
    case Tick =>
      var r := UpdateBullets(s).tanks.Get(p);
      assert r.Position() == s.tanks.Get(p).Position();
  }

  /** Once a tank is dead it stays dead, where it was, for the rest of the game. */
  lemma {:induction false} DeadStaysDead(s: GameState, es: seq<Event>, p: Player)
    requires !s.tanks.Get(p).alive
    ensures Run(s, es).tanks.Get(p) == s.tanks.Get(p)
    decreases |es|
  {
    if es != [] {
      StepNeverRevives(s, es[0], p);
      DeadStaysDead(Step(s, es[0]), es[1..], p);
    }
  }

  /** `k` timer ticks with no key pressed. */
  function Ticks(k: nat): (es: seq<Event>) {
    seq(k, _ => Tick)
  }

  lemma TicksSucc(k: nat)
    ensures Ticks(k + 1) == Ticks(k) + [Tick]
  {
  }

  /** Running `k + 1` ticks is one tick followed by `k` more. */
  lemma TicksFront(s: GameState, k: nat)
    requires k >= 1
    ensures Run(s, Ticks(k)) == Run(UpdateBullets(s), Ticks(k - 1))
  {
    assert Ticks(k)[0] == Tick && Ticks(k)[1..] == Ticks(k - 1);
  }

  /** The cell `j` steps ahead of bullet `b`. */
  function Downrange(b: Bullet, j: int): (q: Pos) {
    Pos(b.x + j * Dx(b.direction), b.y + j * Dy(b.direction))
  }

  /** A cell a bullet can pass through: on the board, empty, no live tank. */
  predicate Passable(s: GameState, q: Pos) {
    InBounds(q) && At(s.maze, q) == EMPTY && !AliveTankAt(s.tanks, q)
  }

  /** One cell further on, the downrange cells are those one step further. */
  lemma DownrangeAdvanced(b: Bullet, j: int)
    ensures Downrange(b.Advanced(), j) == Downrange(b, j + 1)
    ensures Downrange(b, 1) == b.Ahead()
  {
    match b.direction
    case Up =>
    case Down =>
    case Left =>
    case Right =>
  }

  /** A lone bullet whose next cell is passable just moves there. */
  lemma LoneBulletAdvances(s: GameState, b: Bullet)
    requires s.bullets == [b]
    requires Passable(s, b.Ahead())
    ensures UpdateBullets(s) == s.(bullets := [b.Advanced()])
  {
    assert Advances(s, b);
    LoneFlyer(s, b);
    LoneFlyerKeepsMaze(s, b);
    LoneFlyerKeepsTanks(s, b);
  }

  lemma LoneFlyer(s: GameState, b: Bullet)
    requires s.bullets == [b]
    requires Advances(s, b)
    ensures Flyers(s, s.bullets) == [0]
  {
    assert AdvanceMask(s, s.bullets) == [true];
    assert [true][..0] == [];
  }

  lemma LoneFlyerKeepsMaze(s: GameState, b: Bullet)
    requires s.bullets == [b]
    requires Advances(s, b)
    ensures UpdateBullets(s).maze == s.maze
  {
    var s1 := UpdateBullets(s);
    forall q | InBounds(q)
      ensures At(s1.maze, q) == At(s.maze, q)
    {
      if Targeted(s.bullets, q) {
        assert q == b.Ahead();
      }
    }
    MazeExtensionality(s1.maze, s.maze);
  }

  lemma LoneFlyerKeepsTanks(s: GameState, b: Bullet)
    requires s.bullets == [b]
    requires Advances(s, b)
    ensures UpdateBullets(s).tanks == s.tanks
  {
    var s1 := UpdateBullets(s);
    assert !ShotDown(s, Player1) && !ShotDown(s, Player2);
    assert s1.tanks.Get(Player1) == s.tanks.Get(Player1);
    assert s1.tanks.Get(Player2) == s.tanks.Get(Player2);
  }

  /** A lone bullet that runs into a live tank vanishes and kills the
      opponent of its owner; nothing else changes. */
  lemma LoneBulletStrikes(s: GameState, b: Bullet)
    requires s.bullets == [b]
    requires StrikesTank(s, b)
    ensures var r := UpdateBullets(s);
      && r.bullets == []
      && r.maze == s.maze
      && r.tanks.Get(b.player) == s.tanks.Get(b.player)
      && r.tanks.Get(Opponent(b.player)) == s.tanks.Get(Opponent(b.player)).(alive := false)
  {
    LoneStrikerVanishes(s, b);
    LoneStrikerKeepsMaze(s, b);
    LoneStrikerKills(s, b);
  }

  lemma LoneStrikerVanishes(s: GameState, b: Bullet)
    requires s.bullets == [b]
    requires StrikesTank(s, b)
    ensures UpdateBullets(s).bullets == []
  {
    assert AdvanceMask(s, s.bullets) == [false];
    assert [false][..0] == [];
    assert Flyers(s, s.bullets) == [];
  }

  lemma LoneStrikerKeepsMaze(s: GameState, b: Bullet)
    requires s.bullets == [b]
    requires StrikesTank(s, b)
    ensures UpdateBullets(s).maze == s.maze
  {
    var s1 := UpdateBullets(s);
    forall q | InBounds(q)
      ensures At(s1.maze, q) == At(s.maze, q)
    {
      if Targeted(s.bullets, q) {
        assert q == b.Ahead();
      }
    }
    MazeExtensionality(s1.maze, s.maze);
  }

  lemma LoneStrikerKills(s: GameState, b: Bullet)
    requires s.bullets == [b]
    requires StrikesTank(s, b)
    ensures UpdateBullets(s).tanks.Get(b.player) == s.tanks.Get(b.player)
    ensures UpdateBullets(s).tanks.Get(Opponent(b.player)) == s.tanks.Get(Opponent(b.player)).(alive := false)
  {
    var v := Opponent(b.player);
    assert s.bullets[0].player == Opponent(v);
    assert ShotDown(s, v);
    assert !ShotDown(s, b.player);
  }

  /** A lone bullet that runs into a brick vanishes and empties that cell;
      nothing else changes. */
  lemma LoneBulletHitsBrick(s: GameState, b: Bullet)
    requires s.bullets == [b]
    requires InBounds(b.Ahead()) && At(s.maze, b.Ahead()) == BRICK
    ensures var r := UpdateBullets(s);
      && r.bullets == []
      && r.maze == Clear(s.maze, b.Ahead())
      && r.tanks == s.tanks
  {
    BrickHitterVanishes(s, b);
    BrickHitterClears(s, b);
    BrickHitterKeepsTanks(s, b);
  }

  lemma BrickHitterVanishes(s: GameState, b: Bullet)
    requires s.bullets == [b]
    requires InBounds(b.Ahead()) && At(s.maze, b.Ahead()) == BRICK
    ensures UpdateBullets(s).bullets == []
  {
    assert AdvanceMask(s, s.bullets) == [false];
    assert [false][..0] == [];
    assert Flyers(s, s.bullets) == [];
  }

  lemma BrickHitterClears(s: GameState, b: Bullet)
    requires s.bullets == [b]
    requires InBounds(b.Ahead()) && At(s.maze, b.Ahead()) == BRICK
    ensures UpdateBullets(s).maze == Clear(s.maze, b.Ahead())
  {
    var m := UpdateBullets(s).maze;
    var c := Clear(s.maze, b.Ahead());
    forall q | InBounds(q)
      ensures At(m, q) == At(c, q)
    {
      if q == b.Ahead() {
        assert s.bullets[0].Ahead() == q;
      }
    }
    MazeExtensionality(m, c);
  }

  lemma BrickHitterKeepsTanks(s: GameState, b: Bullet)
    requires s.bullets == [b]
    requires InBounds(b.Ahead()) && At(s.maze, b.Ahead()) == BRICK
    ensures UpdateBullets(s).tanks == s.tanks
  {
    var s1 := UpdateBullets(s);
    assert !ShotDown(s, Player1) && !ShotDown(s, Player2);
    assert s1.tanks.Get(Player1) == s.tanks.Get(Player1);
    assert s1.tanks.Get(Player2) == s.tanks.Get(Player2);
  }

  /** A passable cell stays passable over a tick: a tick only turns bricks
      into empty cells and only kills tanks, it never moves one. */
  lemma PassableAfterTick(s: GameState, q: Pos)
    requires Passable(s, q)
    ensures Passable(UpdateBullets(s), q)
  {
    var r := UpdateBullets(s);
    assert r.tanks.Get(Player1).Position() == s.tanks.Get(Player1).Position();
    assert r.tanks.Get(Player2).Position() == s.tanks.Get(Player2).Position();
    assert r.tanks.Get(Player1).alive ==> s.tanks.Get(Player1).alive;
    assert r.tanks.Get(Player2).alive ==> s.tanks.Get(Player2).alive;
  }

  /** A bullet with a passable cell ahead moves there on the next tick,
      whatever the other bullets do. */
  lemma BulletAdvancesAmongOthers(s: GameState, i: int)
    requires 0 <= i < |s.bullets|
    requires Passable(s, s.bullets[i].Ahead())
    ensures s.bullets[i].Advanced() in UpdateBullets(s).bullets
  {
    assert Advances(s, s.bullets[i]);
    var idx := Flyers(s, s.bullets);
    assert i in idx;
    var k :| 0 <= k < |idx| && idx[k] == i;
    assert UpdateBullets(s).bullets[k] == s.bullets[i].Advanced();
  }

  /** What one tick guarantees a bullet in flight: a bullet with a passable
      cell ahead is carried there, and passable cells stay passable. */
  ghost predicate Carries(s: GameState, s1: GameState) {
    && (forall b | b in s.bullets && Passable(s, b.Ahead()) :: b.Advanced() in s1.bullets)
    && (forall q | Passable(s, q) :: Passable(s1, q))
  }

  /** Every tick carries its state's bullets and passable cells forward. */
  lemma TickCarries(s: GameState)
    ensures Carries(s, UpdateBullets(s))
  {
    forall b | b in s.bullets && Passable(s, b.Ahead())
      ensures b.Advanced() in UpdateBullets(s).bullets
    {
      var i :| 0 <= i < |s.bullets| && s.bullets[i] == b;
      BulletAdvancesAmongOthers(s, i);
    }
    forall q | Passable(s, q)
      ensures Passable(UpdateBullets(s), q)
    {
      PassableAfterTick(s, q);
    }
  }

  /** The states of `k` ticks, the first being `s`. */
  function Trace(s: GameState, k: nat): (t: seq<GameState>)
    ensures |t| == k + 1 && t[0] == s
    ensures forall i | 0 <= i < k :: t[i + 1] == UpdateBullets(t[i])
    decreases k
  {
    if k == 0 then [s] else [s] + Trace(UpdateBullets(s), k - 1)
  }

  /** The last state of a trace is the state the run of `k` ticks reaches. */
  lemma {:induction false} TraceIsRun(s: GameState, k: nat)
    ensures Trace(s, k)[k] == Run(s, Ticks(k))
    decreases k
  {
    if k == 0 {
      assert Ticks(0) == [];
    } else {
      TraceShift(s, k);
      TraceIsRun(UpdateBullets(s), k - 1);
      TicksFront(s, k);
    }
  }

  /** A trace from `s` continues as the trace from the state one tick later. */
  lemma TraceShift(s: GameState, k: nat)
    requires k >= 1
    ensures Trace(s, k)[k] == Trace(UpdateBullets(s), k - 1)[k - 1]
  {
  }

  /** Along any sequence of states each carrying the next, a bullet with `k`
      passable cells ahead at the start has flown `k` cells at the end. */
  lemma {:induction false} FlightAlong(t: seq<GameState>, b: Bullet, k: nat)
    requires |t| == k + 1
    requires forall i | 0 <= i < k :: Carries(t[i], t[i + 1])
    requires b in t[0].bullets
    requires forall j | 1 <= j <= k :: Passable(t[0], Downrange(b, j))
    ensures Flown(b, k) in t[k].bullets
    decreases k
  {
    if k == 0 {
      assert Flown(b, 0) == b;
    } else {
      FlightAlong(t[..k], b, k - 1);
      assert Carries(t[k - 1], t[k]);
      PassableAlong(t, k - 1, Downrange(b, k));
      FlownAhead(b, k - 1);
    }
  }

  /** A cell passable at the start of such a sequence stays passable. */
  lemma {:induction false} PassableAlong(t: seq<GameState>, m: nat, q: Pos)
    requires m < |t|
    requires forall i | 0 <= i < |t| - 1 :: Carries(t[i], t[i + 1])
    requires Passable(t[0], q)
    ensures Passable(t[m], q)
    decreases m
  {
    if m > 0 {
      PassableAlong(t, m - 1, q);
      assert Carries(t[m - 1], t[m]);
    }
  }

  lemma FlownAhead(b: Bullet, k: int)
    ensures Flown(b, k).Ahead() == Downrange(b, k + 1)
    ensures Flown(b, k).Advanced() == Flown(b, k + 1)
  {
    match b.direction
    case Up =>
    case Down =>
    case Left =>
    case Right =>
  }

  /** Any bullet with `k` passable cells ahead of it is, after `k` ticks,
      `k` cells further on, with its heading and owner kept, however many
      other bullets are in flight. */
  lemma FlightPath(s: GameState, b: Bullet, k: nat)
    requires b in s.bullets
    requires forall j | 1 <= j <= k :: Passable(s, Downrange(b, j))
    ensures Flown(b, k) in Trace(s, k)[k].bullets
    ensures Flown(b, k) in Run(s, Ticks(k)).bullets
  {
    var t := Trace(s, k);
    forall i | 0 <= i < k
      ensures Carries(t[i], t[i + 1])
    {
      TickCarries(t[i]);
    }
    FlightAlong(t, b, k);
    TraceIsRun(s, k);
  }

  /** Bullet `b` moved `k` cells along its heading. */
  function Flown(b: Bullet, k: int): (r: Bullet)
    ensures r.Position() == Downrange(b, k)
    ensures r.direction == b.direction && r.player == b.player
  {
    b.(x := Downrange(b, k).x, y := Downrange(b, k).y)
  }

  lemma FlownAdvanced(b: Bullet, k: int)
    ensures Flown(b.Advanced(), k) == Flown(b, k + 1)
  {
    DownrangeAdvanced(b, k);
  }

  /** A lone bullet with `k` passable cells ahead of it is, after `k` ticks,
      `k` cells further on, with the rest of the state untouched. */
  lemma {:induction false} LoneFlightPath(s: GameState, b: Bullet, k: nat)
    requires s.bullets == [b]
    requires forall j | 1 <= j <= k :: Passable(s, Downrange(b, j))
    ensures Run(s, Ticks(k)) == s.(bullets := [Flown(b, k)])
    decreases k
  {
    if k == 0 {
      assert Ticks(0) == [];
      assert Flown(b, 0) == b;
    } else {
      var s1 := s.(bullets := [b.Advanced()]);
      FirstLegOfFlight(s, b, k);
      LoneFlightPath(s1, b.Advanced(), k - 1);
      TicksFront(s, k);
      FlownAdvanced(b, k - 1);
    }
  }

  /** The first tick of a flight: the bullet moves one cell and the cells
      still ahead of it are the remaining passable ones. */
  lemma FirstLegOfFlight(s: GameState, b: Bullet, k: nat)
    requires s.bullets == [b] && k >= 1
    requires forall j | 1 <= j <= k :: Passable(s, Downrange(b, j))
    ensures UpdateBullets(s) == s.(bullets := [b.Advanced()])
    ensures forall j | 1 <= j <= k - 1 :: Passable(s.(bullets := [b.Advanced()]), Downrange(b.Advanced(), j))
  {
    DownrangeAdvanced(b, 0);
    assert Passable(s, Downrange(b, 1));
    LoneBulletAdvances(s, b);
    forall j | 1 <= j <= k - 1
      ensures Passable(s.(bullets := [b.Advanced()]), Downrange(b.Advanced(), j))
    {
      DownrangeAdvanced(b, j);
      assert Passable(s, Downrange(b, j + 1));
    }
  }
}
