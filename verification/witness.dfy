/** The witness protocol of the game: a token says which kind of
    interaction the game is in (running, a menu, aiming a weapon, over or
    won), and every operation consumes a token and hands back the next
    one. Tokens are plain values here; that the game's tokens can only be
    moved, never copied or forged, is a guarantee of the type system that
    this model does not restate. */
module WitnessProtocol {
  import opened Wrappers
  import opened Geometry
  import opened Data
  import opened GameWorld
  import Ints
  import Query
  import Spawn
  import GameState

  /** The witness tokens: `Running`, `GameOver(reason)`, `Win`, `Menu`
      carrying the menu shown, `FireEquipped` and `FireBody`. */
  datatype Witness =
    | Running
    | GameOver(reason: GameState.GameOverReason)
    | Win
    | Menu(menu: GameState.Menu)
    | FireEquipped
    | FireBody

  /** The inputs the witness layer sends to the game. This file is of a
      revision whose input enum also has `Unequip`, `Reload` and
      `FireBody`. */
  datatype Input =
    | Walk(direction: CardinalDirection)
    | Wait
    | Unequip
    | Reload
    | Get
    | FireEquipped(target: Coord)
    | FireBody(target: Coord)

  /** `witness::Game`, a wrapper around the game state. */
  datatype Game = Game(inner: GameState.Game)

  /** `RunningGame`, the form in which a running game is stored. */
  datatype RunningGame = RunningGame(game: GameState.Game)

  /** `handle_control_flow`: no control flow keeps the game running, and
      each control flow leads to the token of the same name. */
  function HandleControlFlow(controlFlow: Option<GameState.GameControlFlow>): (w: Witness)
    ensures w.Running? <==> controlFlow.None?
    ensures !w.FireEquipped? && !w.FireBody?
  {
    match controlFlow
    case None => Running
    case Some(GameOver(reason)) => GameOver(reason)
    case Some(Win) => Win
    case Some(Menu(menu)) => Menu(menu)
  }

  /** The control flow a token stands for; the inverse of
      `HandleControlFlow` on the tokens it produces. */
  function ControlFlowOf(w: Witness): (r: Option<GameState.GameControlFlow>)
    requires !w.FireEquipped? && !w.FireBody?
    ensures r.None? <==> w.Running?
  {
    match w
    case Running => None
    case GameOver(reason) => Some(GameState.GameOver(reason))
    case Win => Some(GameState.Win)
    case Menu(menu) => Some(GameState.GameControlFlow.Menu(menu))
  }

  /** `handle_control_flow` loses nothing: the control flow can be read
      back from the token, and every token but the aiming ones comes from
      exactly one control flow. */
  lemma ControlFlowRoundTrip(controlFlow: Option<GameState.GameControlFlow>, w: Witness)
    ensures ControlFlowOf(HandleControlFlow(controlFlow)) == controlFlow
    ensures !w.FireEquipped? && !w.FireBody? ==> HandleControlFlow(ControlFlowOf(w)) == w
  {
    match controlFlow {
      case None =>
      case Some(cf) =>
        match cf {
          case GameOver(_) =>
          case Win =>
          case Menu(_) =>
        }
    }
  }

  /** `witness_handle_input` once the game has answered `result`: an
      action error keeps the game running and is passed on; otherwise the
      control flow decides the token and the action succeeded. */
  function HandleInputOutcome(result: Result<Option<GameState.GameControlFlow>, GameState.ActionError>): (r: (Witness, Result<Unit, GameState.ActionError>))
    ensures r.1.Err? <==> result.Err?
    ensures result.Err? ==> r.0 == Running && r.1.error == result.error
    ensures result.Ok? ==> r.0 == HandleControlFlow(result.value)
  {
    match result
    case Err(e) => (Running, Err(e))
    case Ok(None) => (Running, Ok(Unit))
    case Ok(Some(GameOver(reason))) => (GameOver(reason), Ok(Unit))
    case Ok(Some(Menu(menu))) => (Menu(menu), Ok(Unit))
    case Ok(Some(Win)) => (Win, Ok(Unit))
  }

  /** An action error never leaves the running state, and an answer
      without control flow is a success that keeps the game running. */
  lemma ErrorsKeepRunning(result: Result<Option<GameState.GameControlFlow>, GameState.ActionError>)
    ensures result.Err? ==> HandleInputOutcome(result) == (Running, Err(result.error))
    ensures result == Ok(None) ==> HandleInputOutcome(result) == (Running, Ok(Unit))
  {
  }

  /** `Menu::cancel`, `FireEquipped::cancel` and `FireBody::cancel`: back
      to the running state. */
  function Cancel(w: Witness): (r: Witness)
    requires w.Menu? || w.FireEquipped? || w.FireBody?
    ensures r.Running?
  {
    Running
  }

  /** `Win::into_running`. */
  function IntoRunning(w: Witness): (r: Witness)
    requires w.Win?
    ensures r.Running?
  {
    Running
  }

  /** `Running::fire_equipped`: the running token becomes the token for
      aiming the equipped weapon. No game is involved. */
  function StartFireEquipped(w: Witness): (r: Witness)
    requires w.Running?
    ensures r.FireEquipped? && Cancel(r) == w
  {
    Witness.FireEquipped
  }

  /** `Running::fire_body`: the running token becomes the token for
      aiming with the body. */
  function StartFireBody(w: Witness): (r: Witness)
    requires w.Running?
    ensures r.FireBody? && Cancel(r) == w
  {
    Witness.FireBody
  }

  /** `Running::menu`: the running token becomes a menu token carrying
      `menu`. */
  function OpenMenu(w: Witness, menu: GameState.Menu): (r: Witness)
    requires w.Running?
    ensures r.Menu? && r.menu == menu && Cancel(r) == w
  {
    Menu(menu)
  }

  /** The input each operation of a token sends to the game: the running
      token's walk, wait, unequip, reload and get, and the commit of an
      aiming token at `target`. */
  function CommitInput(w: Witness, target: Coord): (r: Input)
    requires w.FireEquipped? || w.FireBody?
    ensures w.FireEquipped? <==> r.FireEquipped?
    ensures (r.FireEquipped? || r.FireBody?) && r.target == target
  {
    if w.FireEquipped? then Input.FireEquipped(target) else Input.FireBody(target)
  }

  /** `RunningGame::new`: the running token is consumed and the inner game
      is kept. */
  function NewRunningGame(g: Game, running: Witness): (r: RunningGame)
    requires running.Running?
    ensures r.game == g.inner
  {
    RunningGame(g.inner)
  }

  /** `RunningGame::into_game`: the game comes back with a fresh running
      token. */
  function IntoGame(rg: RunningGame): (r: (Game, Witness))
    ensures r.0.inner == rg.game && r.1.Running?
  {
    (Game(rg.game), Running)
  }

  /** Storing a running game and taking it back returns the same game and
      a running token, and the other way round. */
  lemma RunningGameRoundTrip(g: Game, rg: RunningGame)
    ensures IntoGame(NewRunningGame(g, Running)) == (g, Running)
    ensures NewRunningGame(IntoGame(rg).0, IntoGame(rg).1) == rg
  {
  }

  /** `Menu::commit`: the game's answer to the choice, which in this
      revision is no control flow, decides the token. */
  function CommitMenu(w: Witness, choice: GameState.MenuChoice): (r: Witness)
    requires w.Menu?
    ensures r == HandleControlFlow(None) && r.Running?
  {
    HandleControlFlow(HandleChoice(choice))
  }

  /** `handle_choice` of the game: no choice leads anywhere yet. */
  function HandleChoice(choice: GameState.MenuChoice): (r: Option<GameState.GameControlFlow>)
    ensures r.None?
  {
    None
  }

  /** The input the game of the revision modelled knows, for those of
      the witness layer that it has. */
  function GameInput(input: Input): (r: Option<GameState.Input>)
    ensures r.Some? <==> input.Walk? || input.Wait? || input.Get? || input.FireEquipped?
  {
    match input
    case Walk(d) => Some(GameState.Walk(d))
    case Wait => Some(GameState.Input.Wait)
    case Get => Some(GameState.Get)
    case FireEquipped(t) => Some(GameState.FireEquipped(t))
    case _ => None
  }

  /** `new_game`: a new game and a running token. */
  method NewGame(levels: seq<World>) returns (g: Game, w: Witness)
    requires |levels| == GameState.NUM_LEVELS && GameState.WorldOk(levels[0]) && GameState.Distinct(levels)
    requires var spawn := Query.StairsUpOrExitCoord(levels[0]);
      spawn.Some? && !Spawn.Occupied(levels[0], Location(spawn.value, Some(Layer.Character)))
    modifies levels[0]
    ensures w.Running? && fresh(g.inner) && g.inner.Valid()
  {
    var inner := GameState.NewGame(levels);
    g, w := Game(inner), Running;
  }

  /** `witness_handle_input` for an input the game knows: the game
      handles it, and since no input of this revision ends the game or
      opens a menu, the game stays running, failing exactly when the
      walk is refused. */
  method HandleInput(g: Game, input: GameState.Input, decide: Entity -> Option<GameState.Input>, canTraverse: (Coord, Entity) -> bool)
    returns (w: Witness, r: Result<Unit, GameState.ActionError>)
    requires g.inner.Valid()
    requires input.Walk? ==> g.inner.WalkSafe(input.direction)
    requires input.Get? ==> g.inner.GetSafe()
    modifies g.inner, g.inner.worlds
    ensures g.inner.Valid() && w.Running?
    ensures r.Err? <==> input.Walk? && old(g.inner.WalkPlanOf(input.direction)) in {GameState.OffMap, GameState.Blocked}
    ensures r.Err? ==> r.error == GameState.InvalidMove
  {
    var result := g.inner.HandleInput(input, decide, canTraverse);
    w, r := HandleInputOutcome(result).0, HandleInputOutcome(result).1;
  }

  /** `witness_handle_tick`, after the animation step: a tick never ends
      the game. */
  method Tick(g: Game, initiallyBlocked: bool, decide: Entity -> Option<GameState.Input>, canTraverse: (Coord, Entity) -> bool)
    returns (w: Witness)
    requires g.inner.Valid()
    modifies g.inner, g.inner.world
    ensures g.inner.Valid() && w.Running?
  {
    var controlFlow := g.inner.FinishTick(initiallyBlocked, decide, canTraverse);
    w := HandleControlFlow(controlFlow);
  }
}
