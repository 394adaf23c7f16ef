/** The per-tick bullet step.

    Every bullet is judged against the same snapshot of the maze and the
    tanks, taken when the tick starts. For the cell ahead of it the checks run
    in this order: off the board, destructible brick, indestructible steel,
    live tank; a bullet that passes all four moves on. A brick that is hit
    becomes empty; a tank hit kills the opponent of the bullet's owner, which
    need not be the tank standing in that cell.

    `UpdateBullets` computes the surviving bullets, the set of cleared cells
    and the set of killed players from the snapshot and applies them at once.
    `Sequential` instead folds the bullets' effects in list order, one state
    update per bullet, the way the component's setters apply them;
    `SequentialIsBatch` proves the two agree.
 */
module Bullets {
  import opened Grid
  import opened Game

  /** What a tick does with one bullet. */
  datatype Outcome =
    | OffBoard
    | BrickHit(cell: Pos)
    | SteelHit
    | TankHit(victim: Player)
    | Flies(moved: Bullet)

  /** Some live tank stands on cell `q`. */
  predicate AliveTankAt(t: Tanks, q: Pos) {
    || (t.player1.Position() == q && t.player1.alive)
    || (t.player2.Position() == q && t.player2.alive)
  }

  /** The cell ahead of `b` is on the board and holds neither a brick nor steel. */
  predicate OpenAhead(s: GameState, b: Bullet) {
    InBounds(b.Ahead()) && At(s.maze, b.Ahead()) != BRICK && At(s.maze, b.Ahead()) != STEEL
  }

  /** `b` runs into a live tank on this tick. */
  predicate StrikesTank(s: GameState, b: Bullet) {
    OpenAhead(s, b) && AliveTankAt(s.tanks, b.Ahead())
  }

  /** `b` survives this tick and moves on. */
  predicate Advances(s: GameState, b: Bullet) {
    OpenAhead(s, b) && !AliveTankAt(s.tanks, b.Ahead())
  }

  /** Some bullet of `bs` has cell `q` ahead of it. */
  predicate Targeted(bs: seq<Bullet>, q: Pos) {
    exists i | 0 <= i < |bs| :: bs[i].Ahead() == q
  }

  /** Some bullet of `bs` belongs to `p`'s opponent and strikes a live tank,
      whichever tank that is. */
  predicate Fells(s: GameState, bs: seq<Bullet>, p: Player) {
    exists i | 0 <= i < |bs| :: StrikesTank(s, bs[i]) && bs[i].player == Opponent(p)
  }

  /** Player `p` is shot down on this tick: a bullet of the opponent hits a
      live tank, whichever tank that is. */
  predicate ShotDown(s: GameState, p: Player) {
    exists i | 0 <= i < |s.bullets| ::
      StrikesTank(s, s.bullets[i]) && s.bullets[i].player == Opponent(p)
  }

  /** The fate of bullet `b` against snapshot `s`, checking bounds, brick,
      steel and tank in that order. */
  function Resolve(s: GameState, b: Bullet): (o: Outcome)
    ensures o.OffBoard? <==> !InBounds(b.Ahead())
    ensures o.BrickHit? <==> InBounds(b.Ahead()) && At(s.maze, b.Ahead()) == BRICK
    ensures o.BrickHit? ==> o.cell == b.Ahead()
    ensures o.SteelHit? <==> InBounds(b.Ahead()) && At(s.maze, b.Ahead()) == STEEL
    ensures o.TankHit? <==> StrikesTank(s, b)
    ensures o.TankHit? ==> o.victim == Opponent(b.player)
    ensures o.Flies? <==> Advances(s, b)
    ensures o.Flies? ==> o.moved == b.Advanced()
  {
    var q := b.Ahead();
    if !InBounds(q) then OffBoard
    else if At(s.maze, q) == BRICK then BrickHit(q)
    else if At(s.maze, q) == STEEL then SteelHit
    else if AliveTankAt(s.tanks, q) then TankHit(Opponent(b.player))
    else Flies(b.Advanced())
  }

  /** The bullets of `bs` that survive the tick, moved one cell, in order. */
  function Survivors(s: GameState, bs: seq<Bullet>): (r: seq<Bullet>)
    ensures |r| <= |bs|
    ensures forall i | 0 <= i < |r| :: InBounds(r[i].Position())
    decreases |bs|
  {
    if bs == [] then []
    else
      var n := |bs| - 1;
      var rest := Survivors(s, bs[..n]);
      if Advances(s, bs[n]) then rest + [bs[n].Advanced()] else rest
  }

  /** Positions, in increasing order, of the `true` entries of `mask`. */
  function TrueIndices(mask: seq<bool>): (idx: seq<int>)
    ensures forall k | 0 <= k < |idx| :: 0 <= idx[k] < |mask| && mask[idx[k]]
    ensures forall k, l | 0 <= k < l < |idx| :: idx[k] < idx[l]
    ensures forall i | 0 <= i < |mask| && mask[i] :: i in idx
    decreases |mask|
  {
    if mask == [] then []
    else
      var n := |mask| - 1;
      var front := TrueIndices(mask[..n]);
      assert forall i | 0 <= i < n :: mask[..n][i] == mask[i];
      front + (if mask[n] then [n] else [])
  }

  /** Which bullets of `bs` advance. */
  function AdvanceMask(s: GameState, bs: seq<Bullet>): (mask: seq<bool>) {
    seq(|bs|, i requires 0 <= i < |bs| => Advances(s, bs[i]))
  }

  /** Indices, in increasing order, of the bullets of `bs` that advance. */
  function Flyers(s: GameState, bs: seq<Bullet>): (idx: seq<int>)
    ensures forall k | 0 <= k < |idx| :: 0 <= idx[k] < |bs| && Advances(s, bs[idx[k]])
    ensures forall k, l | 0 <= k < l < |idx| :: idx[k] < idx[l]
    ensures forall i | 0 <= i < |bs| && Advances(s, bs[i]) :: i in idx
  {
    TrueIndices(AdvanceMask(s, bs))
  }

  /** The cells of `bs`'s brick hits. */
  function Cleared(s: GameState, bs: seq<Bullet>): (cells: set<Pos>)
    ensures forall q | q in cells :: InBounds(q) && At(s.maze, q) == BRICK
    decreases |bs|
  {
    if bs == [] then {}
    else
      var n := |bs| - 1;
      Cleared(s, bs[..n]) + (match Resolve(s, bs[n]) case BrickHit(q) => {q} case _ => {})
  }

  /** The victims of `bs`'s tank hits. */
  function Killed(s: GameState, bs: seq<Bullet>): (victims: set<Player>)
    ensures forall p | p in victims :: Fells(s, bs, p)
    decreases |bs|
  {
    if bs == [] then {}
    else
      var n := |bs| - 1;
      Killed(s, bs[..n]) + (match Resolve(s, bs[n]) case TankHit(v) => {v} case _ => {})
  }

  /** Marks every player of `k` dead, keeping positions and headings. */
  function KillAll(t: Tanks, k: set<Player>): (r: Tanks)
    ensures forall p :: r.Get(p) == t.Get(p).(alive := t.Get(p).alive && p !in k)
  {
    Tanks(
      t.player1.(alive := t.player1.alive && Player1 !in k),
      t.player2.(alive := t.player2.alive && Player2 !in k))
  }

  /** A cell is cleared exactly when it held a brick in the snapshot and some
      bullet had it ahead. Several bullets on one brick clear it once. */
  lemma {:induction false} ClearedExactly(s: GameState, bs: seq<Bullet>, q: Pos)
    ensures q in Cleared(s, bs) <==> InBounds(q) && At(s.maze, q) == BRICK && Targeted(bs, q)
    decreases |bs|
  {
    if bs != [] {
      var n := |bs| - 1;
      ClearedExactly(s, bs[..n], q);
      if Targeted(bs[..n], q) {
        var i :| 0 <= i < n && bs[..n][i].Ahead() == q;
        assert bs[i].Ahead() == q;
      }
      if Targeted(bs, q) {
        var i :| 0 <= i < |bs| && bs[i].Ahead() == q;
        if i < n {
          assert bs[..n][i] == bs[i];
        }
      }
    }
  }

  /** A player is killed exactly when some opponent bullet strikes a live tank. */
  lemma {:induction false} KilledExactly(s: GameState, bs: seq<Bullet>, p: Player)
    ensures p in Killed(s, bs) <==> Fells(s, bs, p)
    decreases |bs|
  {
    if bs != [] {
      var n := |bs| - 1;
      var front := bs[..n];
      KilledExactly(s, front, p);
      KilledLast(s, bs, p);
      if Fells(s, bs, p) {
        var i :| 0 <= i < |bs| && StrikesTank(s, bs[i]) && bs[i].player == Opponent(p);
        if i < n {
          assert front[i] == bs[i];
        }
      }
    }
  }

  /** Player `p` is killed by `bs` exactly when it is killed by all but the
      last bullet, or the last bullet is an opponent's that strikes a tank. */
  lemma KilledLast(s: GameState, bs: seq<Bullet>, p: Player)
    requires bs != []
    ensures var n := |bs| - 1;
      p in Killed(s, bs) <==>
        p in Killed(s, bs[..n]) || (StrikesTank(s, bs[n]) && bs[n].player == Opponent(p))
  {
    var b := bs[|bs| - 1];
    assert Opponent(b.player) == p <==> b.player == Opponent(p) by {
      match p
      case Player1 =>
      case Player2 =>
    }
  }

  lemma {:induction false} SurvivorsAreFlyers(s: GameState, bs: seq<Bullet>)
    ensures |Survivors(s, bs)| == |Flyers(s, bs)|
    ensures forall k | 0 <= k < |Flyers(s, bs)| ::
      Survivors(s, bs)[k] == bs[Flyers(s, bs)[k]].Advanced()
    decreases |bs|
  {
    if bs != [] {
      var n := |bs| - 1;
      SurvivorsAreFlyers(s, bs[..n]);
      FlyersLast(s, bs);
      var front := Flyers(s, bs[..n]);
      var rest := Survivors(s, bs[..n]);
      var idx := Flyers(s, bs);
      var r := Survivors(s, bs);
      forall k | 0 <= k < |idx|
        ensures r[k] == bs[idx[k]].Advanced()
      {
        if k < |front| {
          assert idx[k] == front[k] && r[k] == rest[k];
          assert bs[..n][front[k]] == bs[front[k]];
        }
      }
    }
  }

  /** The last bullet adds its own index to the flyers exactly when it
      advances. */
  lemma FlyersLast(s: GameState, bs: seq<Bullet>)
    requires bs != []
    ensures var n := |bs| - 1;
      Flyers(s, bs) == Flyers(s, bs[..n]) + (if Advances(s, bs[n]) then [n] else [])
  {
    var n := |bs| - 1;
    assert AdvanceMask(s, bs)[..n] == AdvanceMask(s, bs[..n]);
  }

  /** One tick of the bullet simulation, all bullets judged against the
      state at the start of the tick. */
  function UpdateBullets(s: GameState): (r: GameState)
    ensures |r.bullets| <= |s.bullets|
    ensures var idx := Flyers(s, s.bullets);
      && |r.bullets| == |idx|
      && forall k | 0 <= k < |idx| :: r.bullets[k] == s.bullets[idx[k]].Advanced()
    ensures forall i | 0 <= i < |r.bullets| :: InBounds(r.bullets[i].Position())
    ensures forall q | InBounds(q) ::
      At(r.maze, q) == (if At(s.maze, q) == BRICK && Targeted(s.bullets, q) then EMPTY else At(s.maze, q))
    ensures forall p ::
      && r.tanks.Get(p).Position() == s.tanks.Get(p).Position()
      && r.tanks.Get(p).direction == s.tanks.Get(p).direction
    ensures forall p :: r.tanks.Get(p).alive <==> s.tanks.Get(p).alive && !ShotDown(s, p)
  {
    ClearedMaze(s);
    KilledTanks(s);
    SurvivorsAreFlyers(s, s.bullets);
    GameState(
      ClearAll(s.maze, Cleared(s, s.bullets)),
      KillAll(s.tanks, Killed(s, s.bullets)),
      Survivors(s, s.bullets))
  }

  lemma ClearedMaze(s: GameState)
    ensures forall q | InBounds(q) ::
      At(ClearAll(s.maze, Cleared(s, s.bullets)), q)
      == (if At(s.maze, q) == BRICK && Targeted(s.bullets, q) then EMPTY else At(s.maze, q))
  {
    forall q | InBounds(q) {
      ClearedExactly(s, s.bullets, q);
    }
  }

  lemma KilledTanks(s: GameState)
    ensures forall p ::
      KillAll(s.tanks, Killed(s, s.bullets)).Get(p).alive <==> s.tanks.Get(p).alive && !ShotDown(s, p)
  {
    forall p {
      KilledExactly(s, s.bullets, p);
    }
  }

  /** One bullet's effect on the state being built, as the component's
      setters apply it: clear the brick, kill the victim, or keep the moved
      bullet. */
  function ApplyOutcome(acc: GameState, o: Outcome): (r: GameState)
    requires o.BrickHit? ==> InBounds(o.cell)
    ensures |acc.bullets| <= |r.bullets| <= |acc.bullets| + 1 && r.bullets[..|acc.bullets|] == acc.bullets
    ensures forall q | InBounds(q) :: At(r.maze, q) == At(acc.maze, q) || At(r.maze, q) == EMPTY
    ensures forall p: Player :: r.tanks.Get(p).Position() == acc.tanks.Get(p).Position()
    ensures forall p: Player :: r.tanks.Get(p).alive ==> acc.tanks.Get(p).alive
  {
    match o
    case BrickHit(q) => acc.(maze := Clear(acc.maze, q))
    case TankHit(v) => acc.(tanks := acc.tanks.With(v, acc.tanks.Get(v).(alive := false)))
    case Flies(m) => acc.(bullets := acc.bullets + [m])
    case _ => acc
  }

  /** The bullets of `bs` applied one after another, in list order, each
      judged against the snapshot `s`. */
  function Sequential(s: GameState, bs: seq<Bullet>): (r: GameState)
    ensures |r.bullets| <= |bs|
    ensures forall q | InBounds(q) :: At(r.maze, q) == At(s.maze, q) || At(r.maze, q) == EMPTY
    ensures forall p: Player :: r.tanks.Get(p).Position() == s.tanks.Get(p).Position()
    ensures forall p: Player :: r.tanks.Get(p).alive ==> s.tanks.Get(p).alive
    decreases |bs|
  {
    if bs == [] then s.(bullets := [])
    else
      var n := |bs| - 1;
      ApplyOutcome(Sequential(s, bs[..n]), Resolve(s, bs[n]))
  }

  /** Applying the bullets one at a time gives the same state as the batch
      step: clearing a cell twice is clearing it once, and killing a player
      twice is killing them once. */
  lemma {:induction false} SequentialMatchesBatch(s: GameState, bs: seq<Bullet>)
    ensures Sequential(s, bs) ==
      GameState(ClearAll(s.maze, Cleared(s, bs)), KillAll(s.tanks, Killed(s, bs)), Survivors(s, bs))
    decreases |bs|
  {
    if bs == [] {
      ClearAllNothing(s.maze);
      assert KillAll(s.tanks, {}) == s.tanks;
    } else {
      var n := |bs| - 1;
      SequentialMatchesBatch(s, bs[..n]);
      match Resolve(s, bs[n])
      case BrickHit(q) =>
        ClearThenClearAll(s.maze, Cleared(s, bs[..n]), q);
      case TankHit(v) =>
        var t := KillAll(s.tanks, Killed(s, bs[..n]));
        var t' := t.With(v, t.Get(v).(alive := false));
        assert t'.Get(Player1) == KillAll(s.tanks, Killed(s, bs)).Get(Player1);
        assert t'.Get(Player2) == KillAll(s.tanks, Killed(s, bs)).Get(Player2);
        assert t' == KillAll(s.tanks, Killed(s, bs));
        assert Cleared(s, bs) == Cleared(s, bs[..n]);
        assert Survivors(s, bs) == Survivors(s, bs[..n]);
      case Flies(m) =>
        assert Cleared(s, bs) == Cleared(s, bs[..n]);
        assert Killed(s, bs) == Killed(s, bs[..n]);
      case OffBoard =>
        assert Cleared(s, bs) == Cleared(s, bs[..n]);
        assert Killed(s, bs) == Killed(s, bs[..n]);
      case SteelHit =>
        assert Cleared(s, bs) == Cleared(s, bs[..n]);
        assert Killed(s, bs) == Killed(s, bs[..n]);
    }
  }

  /** The whole tick computed bullet by bullet, as the component does, equals
      the batch step. */
  lemma SequentialIsBatch(s: GameState)
    ensures Sequential(s, s.bullets) == UpdateBullets(s)
  {
    SequentialMatchesBatch(s, s.bullets);
  }
}
