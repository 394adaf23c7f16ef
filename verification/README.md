# Tank battle game engine in Dafny

This project models the game engine of a two-player tank game played on a
15 × 15 grid, and proves properties of that model. The game itself is one
React component (`app/page.tsx`). Its state has three parts:

- a maze of integer cells: 0 is empty, 1 is a destructible brick, 2 is indestructible steel;
- two tanks, each with a position, a facing and an alive flag;
- an ordered list of bullets.

Four handlers change the state:

- `moveTank` moves a tank one cell;
- `fireBullet` appends a bullet;
- `updateBullets` advances every bullet once per timer tick;
- `handleKeyDown` maps ten keys onto moves and fires.

The render colours each cell by a fixed priority.

The model turns the three pieces of component state into one immutable
`GameState` value. Each handler becomes a pure function. Key presses and ticks
are handled one at a time, so a game is a run of `Step` over a sequence of
events.

- `Grid` holds the board geometry, the cell values, the initial layout and the
  cell writes.
- `Game` holds the tanks, the bullets, `MoveTank` and `FireBullet`.
- `Bullets` holds the tick. Every bullet is judged against the snapshot taken at
  the start of the tick. The checks run in this order: off the board, brick,
  steel, live tank. `UpdateBullets` computes the surviving bullets, the cleared
  cells and the killed players from that snapshot, then applies them together.
  `Sequential` applies each bullet's effect in list order, as the component's
  state setters do. `SequentialIsBatch` proves that the two give the same state.
- `Engine` holds events, runs and the invariant that every reachable state
  keeps:
  - every cell holds 0, 1 or 2;
  - the border is steel;
  - both tanks stand on empty cells;
  - every bullet is on an empty cell of the board.

  It also shows that the maze only ever loses bricks and that a dead tank stays
  dead.
- `Input` holds the key table.
- `Render` holds the colour of a cell.
- `Scenarios` holds concrete plays.

Three facts about the code that the model makes explicit:

- A tank hit kills the opponent of the bullet's owner. That is the tank hit
  only when the tank hit belongs to the opponent (`app/page.tsx:139`). When a
  player runs into their own bullet, the other player dies.
  `Scenarios.OwnBulletKillsOpponent` shows a reachable case. Player 1 fires,
  then steps into the bullet's path. On the next tick player 2 dies on the far
  side of the board.
- The initial layout is mirror-symmetric left to right
  (`Grid.InitialMazeMirror`) but not under a half turn. Column 7 is open in
  row 6 and steel in row 8 (`Grid.InitialMazeNotHalfTurnSymmetric`).
- The off-board check of a tick (`app/page.tsx:113-115`) never fires in play.
  The border is steel and bullets only stand on empty cells, so the cell ahead
  of a bullet is always on the board (`Engine.BoundsCheckNeverFires`). The
  model still keeps that branch. `Scenarios.LeavingBulletVanishes` shows it on
  states that play never reaches.

## Model

| member | source | states |
|---|---|---|
| Grid.Next | app/page.tsx:52-57 | up and down keep the column, left and right keep the row; up decreases the row index, down increases it, left decreases the column index and right increases it |
| Grid.NextIsNeighbour | app/page.tsx:52-57 | a step reaches an orthogonal neighbour exactly one cell away |
| Grid.NextOpposite | app/page.tsx:52-57 | a step followed by a step in the opposite direction returns to the start cell |
| Grid.InitialMazeValues | app/page.tsx:9-26 | the initial layout uses only the values 0, 1 and 2 |
| Grid.InitialMazeBorder | app/page.tsx:10-26 | every border cell of the initial layout is steel |
| Grid.InitialMazeMirror | app/page.tsx:10-26 | the initial layout equals its own left-to-right mirror image |
| Grid.InitialMazeNotHalfTurnSymmetric | app/page.tsx:17-19 | cell (7,6) is empty and its half-turn image (7,8) is steel, so the layout is not symmetric under a half turn |
| Grid.Clear | app/page.tsx:119-123 | the brick-hit write empties the hit cell and leaves every other cell as it was |
| Grid.ClearAll | app/page.tsx:119-123 | clearing a set of cells at once empties exactly the in-bounds cells of the set and keeps every other cell |
| Grid.ClearThenClearAll | app/page.tsx:119-123 | clearing cells one at a time equals clearing the whole set at once, and clearing a cell again changes nothing |
| Game.Opponent | app/page.tsx:139 | the opponent of a player is the other player |
| Game.Initial | app/page.tsx:47-50 | the game starts on the fixed layout with no bullets and both tanks alive; the initial tanks `INITIAL_TANKS` stand at each other's half-turn image and face opposite ways |
| Game.MoveTank | app/page.tsx:64-88 | when the tank is alive and the target cell is on the board and empty, the tank moves there and faces the requested way; otherwise the state is unchanged, with no turn; the maze, the bullets and the other tank never change, and the other tank does not block a move |
| Game.FireBullet | app/page.tsx:90-104 | a live tank appends exactly one bullet at the end of the list, carrying its cell, its facing and its owner, with earlier bullets unchanged; a dead tank changes nothing |
| Game.MoveThenMoveBack | app/page.tsx:64-85 | from an empty cell on the board, a successful move followed by the opposite move puts the tank back on its cell, now facing the opposite way, with everything else unchanged |
| Game.DeadTankIsInert | app/page.tsx:66-92 | a dead tank neither moves, turns nor fires |
| Bullets.Resolve | app/page.tsx:109-147 | each bullet's fate follows the check order bounds, brick, steel, live tank; a brick hit names the cell ahead; a tank hit names the owner's opponent; a surviving bullet is moved one cell |
| Bullets.Survivors | app/page.tsx:107-149 | there are never more survivors than bullets, and every survivor is on the board |
| Bullets.Flyers | app/page.tsx:147-149 | lists, in strictly increasing order, exactly the indices of the bullets that advance |
| Bullets.SurvivorsAreFlyers | app/page.tsx:107-149 | the survivors are exactly the advancing bullets, each moved one cell with its direction and owner unchanged, in their original relative order |
| Bullets.Cleared | app/page.tsx:117-125 | every cell a tick clears is on the board and held a brick at the start of the tick |
| Bullets.Killed | app/page.tsx:132-145 | every player a tick kills is the opponent of the owner of some bullet that strikes a live tank |
| Bullets.ClearedExactly | app/page.tsx:117-125 | a cell is cleared exactly when it held a brick at the start of the tick and some bullet had it ahead; several hits on one brick clear it once |
| Bullets.KilledExactly | app/page.tsx:132-145 | a player is killed exactly when some opponent's bullet runs into a live tank after passing the wall checks, whichever tank that is |
| Bullets.KillAll | app/page.tsx:137-143 | a kill only clears alive flags: positions and facings are kept, and a dead tank stays dead |
| Bullets.UpdateBullets | app/page.tsx:106-151 | the bullet count never grows; survivors are the advancing bullets in order, each one cell further on and on the board; exactly the targeted brick cells become empty and no other cell changes; tanks keep position and facing; a tank is alive afterwards iff it was alive and no opponent bullet struck a live tank |
| Bullets.ApplyOutcome | app/page.tsx:117-143 | one bullet's setter call keeps the earlier survivors as a prefix and adds at most one bullet; a cell either keeps its value or becomes empty; tanks keep their positions; no tank is revived |
| Bullets.Sequential | app/page.tsx:106-151 | applying the bullets' setter calls in list order never yields more bullets than there were, only empties cells, never moves a tank and never revives one |
| Bullets.SequentialMatchesBatch | app/page.tsx:106-151 | applying the bullets' effects one after another in list order, all judged against the tick-start snapshot, gives the batch result for any bullet list |
| Bullets.SequentialIsBatch | app/page.tsx:106-151 | the tick as the component computes it, one setter call per bullet, equals the batch tick |
| Engine.Step | app/page.tsx:153-200 | a move or fire leaves the maze alone, a move leaves the bullets alone, and a fire or tick moves no tank |
| Engine.Run | app/page.tsx:193-200 | a run without ticks leaves the maze alone, and a run of moves only leaves the bullets alone |
| Engine.InitialInv | app/page.tsx:10-50 | the initial state satisfies the game invariant |
| Engine.UpdateBulletsInv | app/page.tsx:106-151 | a tick keeps the invariant: survivors land on open cells that stay open, and tanks stay on empty cells |
| Engine.StepInv | app/page.tsx:64-151 | every move, fire and tick keeps the invariant |
| Engine.RunInv | app/page.tsx:64-151 | any sequence of moves, fires and ticks keeps the invariant |
| Engine.ReachableInv | app/page.tsx:10-151 | every state reachable from the initial state has tanks on empty in-bounds cells, bullets on empty in-bounds cells, cell values in {0,1,2} and a steel border |
| Engine.NoBulletLeavesTheBoard | app/page.tsx:108-115 | in every state satisfying the invariant, the cell ahead of each bullet is on the board |
| Engine.BoundsCheckNeverFires | app/page.tsx:113-115 | in every state reachable from the initial state, no bullet is resolved as leaving the board |
| Engine.StepErodes | app/page.tsx:117-130 | one event changes the maze only by turning bricks into empty cells |
| Engine.RunErodes | app/page.tsx:117-130 | over any run, a cell either keeps its value or goes from brick to empty; steel and empty cells never change |
| Engine.BorderNeverChanges | app/page.tsx:10-26 | in every reachable state the border cells are still the steel of the initial layout |
| Engine.StepNeverRevives | app/page.tsx:137-143 | no event revives, moves or turns a dead tank |
| Engine.DeadStaysDead | app/page.tsx:137-143 | a dead tank stays dead where it died, whatever happens afterwards |
| Engine.LoneBulletAdvances | app/page.tsx:109-147 | a lone bullet whose next cell is on the board, empty and free of live tanks just moves there, and nothing else changes |
| Engine.LoneBulletStrikes | app/page.tsx:132-145 | a lone bullet that runs into a live tank vanishes and kills the opponent of its owner; the owner's tank and the maze are unchanged |
| Engine.LoneBulletHitsBrick | app/page.tsx:117-125 | a lone bullet that runs into a brick vanishes and empties exactly that cell; the tanks are unchanged |
| Engine.PassableAfterTick | app/page.tsx:117-145 | a cell that is on the board, empty and free of live tanks stays so over a tick |
| Engine.BulletAdvancesAmongOthers | app/page.tsx:109-147 | a bullet with a passable cell ahead is, after one tick, in the bullet list one cell further on, whatever the other bullets do |
| Engine.TraceIsRun | app/page.tsx:198-200 | the state after k ticks, taken one tick at a time, is the run of k tick events |
| Engine.FlightPath | app/page.tsx:106-150 | any bullet, among any others, with k passable cells ahead is, after k tick events, still in the bullet list at its start plus k times its direction vector, with its heading and owner kept |
| Engine.LoneFlightPath | app/page.tsx:106-150 | a lone bullet with k passable cells ahead is, after k ticks, at its start plus k times its direction vector, and the maze and tanks are unchanged |
| Input.HandleKeyDown | app/page.tsx:153-191 | w, s, a and d move player 1 up, down, left and right; space fires for player 1; the four arrow keys move player 2 the same way; Enter fires for player 2; any other key name leaves the state unchanged |
| Input.KeyOf | app/page.tsx:155-187 | a key name is recognised as one of the ten keys exactly when it is one of the ten case strings; every other name is the default |
| Input.Dispatch | app/page.tsx:155-187 | exactly the ten keys have an action, and no key triggers a tick |
| Input.KeyNamesRoundTrip | app/page.tsx:155-185 | each of the ten key names is recognised as its own key, and no other name is |
| Input.DispatchIsBijective | app/page.tsx:155-188 | each of the ten keys triggers exactly one (player, action) pair, each pair has exactly one key, no key triggers a tick, and every other key does nothing |
| Input.KeysActForTheirPlayer | app/page.tsx:155-185 | w, s, a, d and space act for player 1; the arrow keys and Enter act for player 2 |
| Input.HandleKeyDownInv | app/page.tsx:153-191 | a key press keeps the game invariant |
| Render.CellColor | app/page.tsx:234-263 | a cell is drawn steel-gray iff it is steel and brick-orange iff it is brick; otherwise blue iff live player 1 is there, then red iff live player 2 is there, then yellow iff a bullet is there, else the background colour |
| Render.WallsHideEverything | app/page.tsx:252-256 | the colour of a wall cell does not depend on tanks or bullets |
| Render.LiveTanksAreVisible | app/page.tsx:234-260 | in a state satisfying the invariant, a live tank is always drawn, and player 1 is drawn over player 2 on a shared cell |
| Render.BulletsAreVisible | app/page.tsx:242-262 | in a state satisfying the invariant, a bullet is drawn yellow unless a live tank stands on its cell |
| Scenarios.LeavingBulletVanishes | app/page.tsx:113-115 | a lone bullet heading off the board is removed on the next tick, and no cell or tank changes |
| Scenarios.PointBlankShot | app/page.tsx:90-145 | in a state satisfying the invariant, with no bullet in flight, both tanks alive and player 2 directly in front of player 1, fire then one tick kills player 2, keeps player 1 alive and leaves no bullet |
| Scenarios.OpeningShotFlies | app/page.tsx:90-150 | player 1's opening shot downwards flies through the two open cells below its tank |
| Scenarios.OpeningShotHitsBrick | app/page.tsx:117-125 | on the third tick the shot clears the brick in column 1, row 4, disappears, and changes no other cell and no tank |
| Scenarios.OpeningShotClearsBrick | app/page.tsx:90-150 | fire followed by three ticks from the initial state removes exactly that brick and the bullet |
| Scenarios.OwnBulletKillsOpponent | app/page.tsx:132-145 | after fire, a step down into the bullet's path, and a tick, player 2 is dead and player 1 is alive at (1,2) |

## Left out

- React state hooks and setters are left out. The three state cells become one value, and each handler becomes a function on it.
- The stale closures that the dependency arrays can leave between a state update and the next render are left out. Every handler reads the current state. The one timing rule kept is that a whole tick reads one snapshot.
- React strict mode may run state updaters twice. This is not modelled. The brick and tank writes are idempotent, as `Grid.ClearThenClearAll` and `Bullets.SequentialMatchesBatch` show.
- The 100 ms `setInterval` timer and its teardown are left out. A tick is an explicit `Tick` event.
- Registering and removing the `keydown` listener is left out. A key press is an explicit call of `Input.HandleKeyDown` with the event's key name.
- The JSX layout, CSS styles, the `GRID_SIZE` pixel size and the colour strings are left out. Colours are the enum `Render.Color`.
- JavaScript numbers are unbounded integers here. All coordinates stay between -1 and 15, so there is no overflow to model.
