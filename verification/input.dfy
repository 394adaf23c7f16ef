/** Keyboard dispatch: a fixed table from ten keys to (player, action)
    pairs. Player 1 uses w/a/s/d and space, player 2 the arrow keys and
    Enter; every other key does nothing.
 */
module Input {
  import opened Grid
  import opened Game
  import opened Engine

  datatype Key =
    | KeyW | KeyS | KeyA | KeyD | Space
    | ArrowUp | ArrowDown | ArrowLeft | ArrowRight | Enter
    | OtherKey

  datatype Option<T> = None | Some(value: T)

  /** The key-event name of each key the game listens to. */
  function KeyName(k: Key): (name: string)
    requires k != OtherKey
  {
    match k
    case KeyW => "w"
    case KeyS => "s"
    case KeyA => "a"
    case KeyD => "d"
    case Space => " "
    case ArrowUp => "ArrowUp"
    case ArrowDown => "ArrowDown"
    case ArrowLeft => "ArrowLeft"
    case ArrowRight => "ArrowRight"
    case Enter => "Enter"
  }

  /** Classifies a key-event name; names the game does not listen to,
      including upper-case "W", are `OtherKey`. */
  function KeyOf(name: string): (k: Key)
    ensures k == OtherKey <==>
      name !in {"w", "s", "a", "d", " ", "ArrowUp", "ArrowDown", "ArrowLeft", "ArrowRight", "Enter"}
  {
    if name == "w" then KeyW
    else if name == "s" then KeyS
    else if name == "a" then KeyA
    else if name == "d" then KeyD
    else if name == " " then Space
    else if name == "ArrowUp" then ArrowUp
    else if name == "ArrowDown" then ArrowDown
    else if name == "ArrowLeft" then ArrowLeft
    else if name == "ArrowRight" then ArrowRight
    else if name == "Enter" then Enter
    else OtherKey
  }

  /** The action bound to a key, if any. */
  function Dispatch(k: Key): (r: Option<Event>)
    ensures r.None? <==> k == OtherKey
    ensures r.Some? ==> !r.value.Tick?
  {
    match k
    case KeyW => Some(Move(Player1, Up))
    case KeyS => Some(Move(Player1, Down))
    case KeyA => Some(Move(Player1, Left))
    case KeyD => Some(Move(Player1, Right))
    case Space => Some(Fire(Player1))
    case ArrowUp => Some(Move(Player2, Up))
    case ArrowDown => Some(Move(Player2, Down))
    case ArrowLeft => Some(Move(Player2, Left))
    case ArrowRight => Some(Move(Player2, Right))
    case Enter => Some(Fire(Player2))
    case OtherKey => None
  }

  /** The key bound to a move or fire action. */
  function KeyFor(e: Event): (k: Key)
    requires !e.Tick?
    ensures k != OtherKey
  {
    match e
    case Move(Player1, Up) => KeyW
    case Move(Player1, Down) => KeyS
    case Move(Player1, Left) => KeyA
    case Move(Player1, Right) => KeyD
    case Fire(Player1) => Space
    case Move(Player2, Up) => ArrowUp
    case Move(Player2, Down) => ArrowDown
    case Move(Player2, Left) => ArrowLeft
    case Move(Player2, Right) => ArrowRight
    case Fire(Player2) => Enter
  }

  /** Handles one key press on state `s`: w, s, a, d move player 1 up,
      down, left, right and space fires for player 1; the arrow keys move
      player 2 and Enter fires for player 2; any other key does nothing. */
  function HandleKeyDown(s: GameState, name: string): (r: GameState)
    ensures name == "w" ==> r == MoveTank(s, Player1, Up)
    ensures name == "s" ==> r == MoveTank(s, Player1, Down)
    ensures name == "a" ==> r == MoveTank(s, Player1, Left)
    ensures name == "d" ==> r == MoveTank(s, Player1, Right)
    ensures name == " " ==> r == FireBullet(s, Player1)
    ensures name == "ArrowUp" ==> r == MoveTank(s, Player2, Up)
    ensures name == "ArrowDown" ==> r == MoveTank(s, Player2, Down)
    ensures name == "ArrowLeft" ==> r == MoveTank(s, Player2, Left)
    ensures name == "ArrowRight" ==> r == MoveTank(s, Player2, Right)
    ensures name == "Enter" ==> r == FireBullet(s, Player2)
    ensures name !in {"w", "s", "a", "d", " ", "ArrowUp", "ArrowDown", "ArrowLeft", "ArrowRight", "Enter"} ==> r == s
  {
    var k := KeyOf(name);
    if k == OtherKey then s else Step(s, Dispatch(k).value)
  }

  /** Each key name is recognised as its own key, and only its own name is. */
  lemma KeyNamesRoundTrip(k: Key, name: string)
    requires k != OtherKey
    ensures KeyOf(KeyName(k)) == k
    ensures KeyOf(name) == k <==> name == KeyName(k)
  {
  }

  /** The table is a bijection between the ten keys and the ten
      (player, action) pairs: a key triggers an action exactly when it is that
      action's key, and no key triggers a tick. */
  lemma DispatchIsBijective(k: Key, e: Event)
    ensures Dispatch(k) == Some(e) <==> !e.Tick? && k == KeyFor(e)
    ensures Dispatch(k) == None <==> k == OtherKey
  {
    match e {
      case Move(p, d) =>
        match p {
          case Player1 => match d { case Up => case Down => case Left => case Right => }
          case Player2 => match d { case Up => case Down => case Left => case Right => }
        }
      case Fire(p) =>
      case Tick =>
    }
  }

  /** The keys of player 1 act only on player 1's tank, those of player 2
      only on player 2's; a key press never advances the bullets. */
  lemma KeysActForTheirPlayer(k: Key)
    requires k != OtherKey
    ensures Dispatch(k).Some? && !Dispatch(k).value.Tick?
    ensures Dispatch(k).value.player == Player1 <==> k in {KeyW, KeyS, KeyA, KeyD, Space}
  {
  }

  /** A key press keeps the game invariant. */
  lemma HandleKeyDownInv(s: GameState, name: string)
    requires Inv(s)
    ensures Inv(HandleKeyDown(s, name))
  {
    if Dispatch(KeyOf(name)).Some? {
      StepInv(s, Dispatch(KeyOf(name)).value);
    }
  }
}
