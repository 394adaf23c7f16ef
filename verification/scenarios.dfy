/** Concrete plays of the game and the situations they illustrate. */
module Scenarios {
  import opened Grid
  import opened Game
  import opened Bullets
  import opened Engine

  /** A bullet whose next cell is off the board disappears on the next tick
      and changes nothing else. */
  lemma LeavingBulletVanishes(s: GameState, b: Bullet)
    requires s.bullets == [b]
    requires !InBounds(b.Ahead())
    ensures UpdateBullets(s) == s.(bullets := [])
  {
    var r := UpdateBullets(s);
    forall q | InBounds(q)
      ensures At(r.maze, q) == At(s.maze, q)
    {
    }
    MazeExtensionality(r.maze, s.maze);
    assert !ShotDown(s, Player1) && !ShotDown(s, Player2);
    assert r.tanks.Get(Player1) == s.tanks.Get(Player1);
    assert r.tanks.Get(Player2) == s.tanks.Get(Player2);
  }

  /** Player 1 fires at player 2 standing right in front of it: after one
      tick player 2 is dead, player 1 is alive and the bullet is gone. */
  lemma PointBlankShot(s: GameState)
    requires Inv(s)
    requires s.bullets == []
    requires s.tanks.player1.alive && s.tanks.player2.alive
    requires s.tanks.player2.Position() == Next(s.tanks.player1.Position(), s.tanks.player1.direction)
    ensures var r := Run(s, [Fire(Player1), Tick]);
      !r.tanks.player2.alive && r.tanks.player1.alive && r.bullets == []
  {
    var s1 := FireBullet(s, Player1);
    var t := s.tanks.player1;
    var b := Bullet(t.x, t.y, t.direction, Player1);
    assert s1.bullets == [b];
    assert OpenCell(s.maze, s.tanks.player2.Position());
    assert StrikesTank(s1, b);
    LoneBulletStrikes(s1, b);
    var r := UpdateBullets(s1);
    assert r.tanks.Get(Player2) == r.tanks.player2;
    assert r.tanks.Get(Player1) == r.tanks.player1;
    assert [Fire(Player1), Tick] == [Fire(Player1)] + [Tick];
    RunAppend(s, [Fire(Player1)], [Tick]);
    RunSingle(s, Fire(Player1));
    RunSingle(s1, Tick);
  }

  /** The state two ticks after player 1's opening shot straight down. */
  function OpeningShotInFlight(): (s: GameState) {
    Initial().(bullets := [Bullet(1, 3, Down, Player1)])
  }

  /** Player 1's opening shot flies down two open cells. */
  lemma OpeningShotFlies()
    ensures Run(Initial(), [Fire(Player1)] + Ticks(2)) == OpeningShotInFlight()
  {
    var s1 := FireBullet(Initial(), Player1);
    var b := Bullet(1, 1, Down, Player1);
    assert s1.bullets == [b];
    assert Run(Initial(), [Fire(Player1)]) == s1 by {
      assert [Fire(Player1)][1..] == [];
    }
    forall j | 1 <= j <= 2
      ensures Passable(s1, Downrange(b, j))
    {
    }
    LoneFlightPath(s1, b, 2);
    RunAppend(Initial(), [Fire(Player1)], Ticks(2));
  }

  /** On the third tick the shot knocks out the brick in column 1, row 4. */
  lemma OpeningShotHitsBrick()
    ensures var r := UpdateBullets(OpeningShotInFlight());
      && r.bullets == []
      && (forall q | InBounds(q) ::
            At(r.maze, q) == if q == Pos(1, 4) then EMPTY else At(INITIAL_MAZE, q))
      && r.tanks == INITIAL_TANKS
  {
    var s3 := OpeningShotInFlight();
    var b := Bullet(1, 3, Down, Player1);
    assert b.Ahead() == Pos(1, 4);
    LoneBulletHitsBrick(s3, b);
  }

  /** The opening shot of player 1 straight down: the bullet flies two cells,
      then knocks out the brick in column 1, row 4, and vanishes; no other
      cell changes. */
  lemma OpeningShotClearsBrick()
    ensures var r := Run(Initial(), [Fire(Player1)] + Ticks(3));
      && r.bullets == []
      && At(INITIAL_MAZE, Pos(1, 4)) == BRICK
      && At(r.maze, Pos(1, 4)) == EMPTY
      && (forall q | InBounds(q) && q != Pos(1, 4) :: At(r.maze, q) == At(INITIAL_MAZE, q))
      && r.tanks == INITIAL_TANKS
  {
    ThirdTick();
    OpeningShotHitsBrick();
    assert At(INITIAL_MAZE, Pos(1, 4)) == BRICK;
  }

  /** Fire and three ticks is the third tick applied to the shot in flight. */
  lemma ThirdTick()
    ensures Run(Initial(), [Fire(Player1)] + Ticks(3)) == UpdateBullets(OpeningShotInFlight())
  {
    var pre := [Fire(Player1)] + Ticks(2);
    OpeningShotFlies();
    TicksSucc(2);
    assert [Fire(Player1)] + Ticks(3) == pre + [Tick];
    RunAppend(Initial(), pre, [Tick]);
    RunSingle(OpeningShotInFlight(), Tick);
  }

  /** A tank hit kills the opponent of the bullet's owner, which need not be
      the tank standing in that cell: player 1 fires, steps into its own
      bullet's path, and on the next tick player 2, far away, dies while
      player 1 lives. */
  lemma OwnBulletKillsOpponent()
    ensures var r := Run(Initial(), [Fire(Player1), Move(Player1, Down), Tick]);
      && r.tanks.player1 == Tank(1, 2, Down, true)
      && r.tanks.player2 == Tank(13, 13, Up, false)
      && r.bullets == []
  {
    var b := Bullet(1, 1, Down, Player1);
    var s2 := MoveTank(FireBullet(Initial(), Player1), Player1, Down);
    FireThenStepDown();
    OwnTankAhead(s2);
    RunThree(Initial(), Fire(Player1), Move(Player1, Down), Tick);
    LoneBulletStrikes(s2, b);
  }

  /** Player 1 fires downwards and then steps down after its own bullet. */
  lemma FireThenStepDown()
    ensures var s := MoveTank(FireBullet(Initial(), Player1), Player1, Down);
      && s.maze == INITIAL_MAZE
      && At(s.maze, Pos(1, 2)) == EMPTY
      && s.tanks == Tanks(Tank(1, 2, Down, true), INITIAL_TANKS.player2)
      && s.bullets == [Bullet(1, 1, Down, Player1)]
  {
    var s1 := FireBullet(Initial(), Player1);
    assert s1.bullets == [Bullet(1, 1, Down, Player1)];
    assert CanMove(s1, Player1, Down);
  }

  /** The bullet left behind has player 1's own tank straight ahead. */
  lemma OwnTankAhead(s: GameState)
    requires At(s.maze, Pos(1, 2)) == EMPTY
    requires s.tanks.player1 == Tank(1, 2, Down, true)
    ensures StrikesTank(s, Bullet(1, 1, Down, Player1))
  {
    assert Bullet(1, 1, Down, Player1).Ahead() == Pos(1, 2);
  }
}
