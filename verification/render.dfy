/** The colour each board cell is drawn in.

    Layers are drawn by priority: steel over brick over a live player-1 tank
    over a live player-2 tank over any bullet over the empty background.
 */
module Render {
  import opened Grid
  import opened Game
  import opened Bullets
  import opened Engine

  datatype Color = Gray | Orange | Blue | Red | Yellow | Background

  /** Some bullet of `s` is on cell `q`. */
  predicate BulletAt(s: GameState, q: Pos) {
    exists i | 0 <= i < |s.bullets| :: s.bullets[i].Position() == q
  }

  /** The live tank of player `p` is on cell `q`. */
  predicate TankShownAt(s: GameState, p: Player, q: Pos) {
    s.tanks.Get(p).Position() == q && s.tanks.Get(p).alive
  }

  /** The colour of cell `q`. Each colour is drawn exactly when its layer is
      present and no layer of higher priority is. */
  function CellColor(s: GameState, q: Pos): (c: Color)
    requires InBounds(q)
    ensures c == Gray <==> At(s.maze, q) == STEEL
    ensures c == Orange <==> At(s.maze, q) == BRICK
    ensures c == Blue <==>
      At(s.maze, q) != STEEL && At(s.maze, q) != BRICK && TankShownAt(s, Player1, q)
    ensures c == Red <==>
      && At(s.maze, q) != STEEL && At(s.maze, q) != BRICK
      && !TankShownAt(s, Player1, q) && TankShownAt(s, Player2, q)
    ensures c == Yellow <==>
      && At(s.maze, q) != STEEL && At(s.maze, q) != BRICK
      && !AliveTankAt(s.tanks, q) && BulletAt(s, q)
    ensures c == Background <==>
      At(s.maze, q) != STEEL && At(s.maze, q) != BRICK && !AliveTankAt(s.tanks, q) && !BulletAt(s, q)
  {
    var cell := At(s.maze, q);
    if cell == STEEL then Gray
    else if cell == BRICK then Orange
    else if TankShownAt(s, Player1, q) then Blue
    else if TankShownAt(s, Player2, q) then Red
    else if BulletAt(s, q) then Yellow
    else Background
  }

  /** A wall hides whatever else is on its cell: states that agree on a wall
      cell draw it the same, whatever their tanks and bullets. */
  lemma WallsHideEverything(s: GameState, s': GameState, q: Pos)
    requires InBounds(q)
    requires At(s.maze, q) == At(s'.maze, q)
    requires At(s.maze, q) in {BRICK, STEEL}
    ensures CellColor(s, q) == CellColor(s', q)
  {
  }

  /** In any state the game can reach, a live tank is always visible: walls
      never cover a tank, and player 1 is drawn over player 2 on a shared cell. */
  lemma LiveTanksAreVisible(s: GameState, p: Player)
    requires Inv(s)
    requires s.tanks.Get(p).alive
    ensures var c := CellColor(s, s.tanks.Get(p).Position());
      && (p == Player1 ==> c == Blue)
      && (p == Player2 ==> c == (if TankShownAt(s, Player1, s.tanks.Get(p).Position()) then Blue else Red))
  {
    assert s.tanks.Get(p) == s.tanks.player1 || s.tanks.Get(p) == s.tanks.player2;
  }

  /** In any state the game can reach, every bullet is drawn unless a live
      tank stands on its cell. */
  lemma BulletsAreVisible(s: GameState, i: int)
    requires Inv(s)
    requires 0 <= i < |s.bullets|
    requires !AliveTankAt(s.tanks, s.bullets[i].Position())
    ensures CellColor(s, s.bullets[i].Position()) == Yellow
  {
    assert OpenCell(s.maze, s.bullets[i].Position());
  }
}
