/** The game loop of the app: the source of seeds for new games, the
    scrolling message log, the screen shake and music track state kept
    between frames, the dispatch of inputs to the game, the aiming cursor,
    and the menus built from the inventory. Rendering, audio, storage and
    the control-flow combinators of the terminal library are not part of
    this model. */
module GameLoop {
  import opened Wrappers
  import opened Ints
  import opened Geometry
  import Random
  import Controls
  import GameState
  import GameInstance

  // ----- seeds -----

  /** How the first seed is chosen: given, or drawn from the seed
      generator. */
  datatype InitialRngSeed = U64(seed: u64) | RandomSeed

  /** `RngSeedSource`: the seed the next game will use, and the generator
      that draws the one after it. The generator, seeded from entropy in
      the app, is passed in. */
  class RngSeedSource {
    var nextSeed: u64
    const seedRng: Random.Rng

    /** `RngSeedSource::new`: a given seed is stored as it is; otherwise
        the first seed is drawn from the generator. */
    constructor (initial: InitialRngSeed, seedRng: Random.Rng)
      modifies seedRng
      ensures this.seedRng == seedRng
      ensures initial.U64? ==> nextSeed == initial.seed && seedRng.position == old(seedRng.position)
      ensures initial.RandomSeed? ==> nextSeed as int == old(seedRng.Peek()) % (U64_MAX + 1) && seedRng.position == old(seedRng.position) + 1
    {
      var s: u64;
      if initial.U64? {
        s := initial.seed;
      } else {
        var r := seedRng.GenRange(0, U64_MAX + 1);
        s := r as u64;
      }
      this.seedRng := seedRng;
      nextSeed := s;
    }

    /** `next_seed`: hands out the stored seed and draws the next one. */
    method NextSeed() returns (seed: u64)
      modifies this, seedRng
      ensures seed == old(nextSeed)
      ensures nextSeed as int == old(seedRng.Peek()) % (U64_MAX + 1)
      ensures seedRng.position == old(seedRng.position) + 1
    {
      seed := nextSeed;
      var r := seedRng.GenRange(0, U64_MAX + 1);
      nextSeed := r as u64;
    }
  }

  /** With a given seed, the first game is played with exactly that seed,
      whatever the generator holds. */
  method FirstSeed(s: u64, seedRng: Random.Rng) returns (seed: u64)
    modifies seedRng
    ensures seed == s
  {
    var source := new RngSeedSource(U64(s), seedRng);
    seed := source.NextSeed();
  }

  // ----- the message log -----

  function SatSub(a: nat, b: nat): (r: nat)
  {
    if a < b then 0 else a - b
  }

  /** The first message shown: the log is drawn from `len - height` back
      by the scroll, saturating at the start of the log. */
  function LogStart(numMessages: nat, height: nat, scroll: nat): (start: nat)
    requires scroll <= SatSub(numMessages, height)
    ensures start + scroll == SatSub(numMessages, height)
    ensures start <= numMessages
  {
    SatSub(numMessages, height) - scroll
  }

  /** The scroll after one more Up as `MessageLog::update` is written: it
      moves only while the new scroll stays strictly below
      `num_messages - height`. */
  function ScrollUpAsWritten(scroll: nat, numMessages: nat, height: nat): (r: nat)
    ensures r == ScrollUp(scroll, numMessages, height) <==> !(numMessages > height && scroll + 1 == numMessages - height)
  {
    if numMessages > height && scroll + 1 < numMessages - height then scroll + 1 else scroll
  }

  /** The scroll after one more Up, allowed to reach `num_messages -
      height`, where the oldest message is the first shown. */
  function ScrollUp(scroll: nat, numMessages: nat, height: nat): (r: nat)
    ensures scroll <= SatSub(numMessages, height) ==> r <= SatSub(numMessages, height)
    ensures r == scroll || r == scroll + 1
    ensures r == scroll + 1 <==> scroll < SatSub(numMessages, height)
  {
    if numMessages > height && scroll + 1 <= numMessages - height then scroll + 1 else scroll
  }

  /** As written, the scroll never reaches `num_messages - height`, so
      when the log is longer than the view the first message shown is
      never the oldest one: with 23 messages and a view of 22 lines the
      log cannot scroll at all and the oldest message stays hidden. */
  lemma OldestHiddenAsWritten(scroll: nat, numMessages: nat, height: nat)
    requires numMessages > height
    requires scroll == 0 || scroll < numMessages - height
    ensures var up := ScrollUpAsWritten(scroll, numMessages, height);
      (up == 0 || up < numMessages - height) && LogStart(numMessages, height, up) >= 1
    ensures ScrollUpAsWritten(0, 23, 22) == 0 && LogStart(23, 22, 0) == 1
  {
  }

  /** Up pressed `k` times from the bottom. */
  function UpTimes(k: nat, numMessages: nat, height: nat): (scroll: nat)
  {
    if k == 0 then 0 else ScrollUp(UpTimes(k - 1, numMessages, height), numMessages, height)
  }

  lemma {:induction false} UpTimesCounts(k: nat, numMessages: nat, height: nat)
    requires k <= SatSub(numMessages, height)
    ensures UpTimes(k, numMessages, height) == k
  {
    if k > 0 {
      UpTimesCounts(k - 1, numMessages, height);
    }
  }

  /** With the corrected bound every message of the log can be brought
      into a view of at least one line by pressing Up often enough. */
  lemma EveryMessageReachable(numMessages: nat, height: nat, i: nat)
    requires 0 < height && i < numMessages
    ensures exists k :: (
      && 0 <= k <= SatSub(numMessages, height)
      && UpTimes(k, numMessages, height) == k
      && LogStart(numMessages, height, k) <= i < LogStart(numMessages, height, k) + height)
  {
    var top := SatSub(numMessages, height);
    var start := if i < top then i else top;
    var k := top - start;
    UpTimesCounts(k, numMessages, height);
    assert LogStart(numMessages, height, k) == start;
  }

  /** The events the app hands to a component. */
  datatype Event = Input(input: Controls.Input) | Tick | Other

  /** `MessageLog`: the scroll position of the message log screen,
      counted in lines from the bottom. */
  class MessageLogView {
    var scrollFromBottom: nat

    /** `message_log()`: the screen opens at the bottom. */
    constructor ()
      ensures scrollFromBottom == 0
    {
      scrollFromBottom := 0;
    }

    /** The scroll leaves `LogStart` defined. */
    predicate ScrollOk(numMessages: nat, height: nat)
      reads this
    {
      scrollFromBottom <= SatSub(numMessages, height)
    }

    /** `MessageLog::update`: Up scrolls towards older messages while there
        are some out of view, Down scrolls back, saturating at the bottom,
        every other key leaves the screen, and other events do nothing. */
    method Update(event: Event, numMessages: nat, height: nat) returns (exit: bool)
      modifies this
      ensures exit <==> event.Input? && event.input.Keyboard? && event.input.key != Controls.Up && event.input.key != Controls.Down
      ensures event == Input(Controls.Keyboard(Controls.Up)) ==> scrollFromBottom == ScrollUp(old(scrollFromBottom), numMessages, height)
      ensures event == Input(Controls.Keyboard(Controls.Down)) ==> scrollFromBottom == SatSub(old(scrollFromBottom), 1)
      ensures event != Input(Controls.Keyboard(Controls.Up)) && event != Input(Controls.Keyboard(Controls.Down)) ==> scrollFromBottom == old(scrollFromBottom)
      ensures old(ScrollOk(numMessages, height)) ==> ScrollOk(numMessages, height)
    {
      exit := false;
      if event.Input? && event.input.Keyboard? {
        match event.input.key {
          case Up =>
            scrollFromBottom := ScrollUp(scrollFromBottom, numMessages, height);
          case Down =>
            scrollFromBottom := SatSub(scrollFromBottom, 1);
          case _ =>
            exit := true;
        }
      }
    }
  }

  // ----- screen shake and music -----

  /** A screen shake: frames left and the offset applied to the view. */
  datatype ScreenShake = ScreenShake(countdown: nat, offset: Coord)

  /** The music tracks. */
  datatype Track = MenuTrack | Level1 | Level2

  /** `LEVEL_TRACKS`. */
  const LEVEL_TRACKS: seq<Track> := [Level1, Level2]

  /** The level track for a given count of level changes. */
  function TrackFor(levelTrackIndex: nat): (t: Track)
    ensures t in LEVEL_TRACKS
  {
    LEVEL_TRACKS[levelTrackIndex % |LEVEL_TRACKS|]
  }

  /** Each level change switches to the other level track. */
  lemma TracksAlternate(i: nat)
    ensures TrackFor(i + 1) != TrackFor(i)
    ensures TrackFor(i + 2) == TrackFor(i)
    ensures TrackFor(i) == Level1 <==> i % 2 == 0
  {
  }

  /** One tick of a screen shake: it ends after its last frame and
      otherwise counts down, keeping its offset. */
  function StepShake(s: Option<ScreenShake>): (r: Option<ScreenShake>)
    ensures r.None? <==> s.None? || s.value.countdown == 0
    ensures r.Some? ==> r.value.offset == s.value.offset && r.value.countdown + 1 == s.value.countdown
  {
    match s
    case None => None
    case Some(shake) => if shake.countdown == 0 then None else Some(ScreenShake(shake.countdown - 1, shake.offset))
  }

  function StepShakeTimes(s: Option<ScreenShake>, n: nat): Option<ScreenShake>
  {
    if n == 0 then s else StepShake(StepShakeTimes(s, n - 1))
  }

  /** A shake with countdown `c` lasts exactly `c` more ticks with the same
      offset, and is gone after the next one. */
  lemma {:induction false} ShakeEnds(shake: ScreenShake, n: nat)
    ensures n <= shake.countdown ==> StepShakeTimes(Some(shake), n) == Some(ScreenShake(shake.countdown - n, shake.offset))
    ensures n > shake.countdown ==> StepShakeTimes(Some(shake), n).None?
  {
    if n > 0 {
      ShakeEnds(shake, n - 1);
    }
  }

  predicate Exploded(events: seq<GameState.ExternalEvent>)
  {
    exists i :: 0 <= i < |events| && events[i].Explosion?
  }

  function CountLevelChanges(events: seq<GameState.ExternalEvent>): (n: nat)
    ensures n <= |events|
  {
    if events == [] then 0
    else CountLevelChanges(events[..|events| - 1]) + (if events[|events| - 1].ChangeLevel? then 1 else 0)
  }

  /** What a step of the app may change or read of `GameLoopData` beyond
      the game itself: the cursor, the screen shake, the count of level
      changes and the track playing. */
  class GameLoopData {
    var cursor: Option<Coord>
    var screenShake: Option<ScreenShake>
    var levelTrackIndex: nat
    var track: Option<Track>

    /** `GameLoopData::new`, as far as this state goes: no cursor, no
        shake, no level change yet, and the first level's track when a
        game is running. */
    constructor (hasInstance: bool)
      ensures cursor.None? && screenShake.None? && levelTrackIndex == 0
      ensures track == Some(if hasInstance then Level1 else MenuTrack)
    {
      cursor := None;
      screenShake := None;
      levelTrackIndex := 0;
      track := Some(if hasInstance then Level1 else MenuTrack);
    }

    /** The events taken from the game after a walk: each level change
        counts one more and switches to that count's level track. */
    method AfterWalk(events: seq<GameState.ExternalEvent>)
      modifies this
      ensures levelTrackIndex == old(levelTrackIndex) + CountLevelChanges(events)
      ensures CountLevelChanges(events) == 0 ==> track == old(track)
      ensures CountLevelChanges(events) > 0 ==> track == Some(TrackFor(levelTrackIndex))
      ensures cursor == old(cursor) && screenShake == old(screenShake)
    {
      for i := 0 to |events|
        invariant levelTrackIndex == old(levelTrackIndex) + CountLevelChanges(events[..i])
        invariant CountLevelChanges(events[..i]) == 0 ==> track == old(track)
        invariant CountLevelChanges(events[..i]) > 0 ==> track == Some(TrackFor(levelTrackIndex))
        invariant cursor == old(cursor) && screenShake == old(screenShake)
      {
        assert events[..i + 1][..i] == events[..i];
        if events[i].ChangeLevel? {
          levelTrackIndex := levelTrackIndex + 1;
          track := Some(TrackFor(levelTrackIndex));
        }
      }
      assert events[..|events|] == events;
    }

    /** The tick branch of `GameLoopData::update`, after the game's own
        tick: the shake counts down, then every explosion among the events
        starts a new shake of two more frames, offset one cell left or
        right by a coin drawn from `rng`. */
    method AfterTick(events: seq<GameState.ExternalEvent>, rng: Random.Rng)
      modifies this, rng
      ensures !Exploded(events) ==> screenShake == StepShake(old(screenShake)) && rng.position == old(rng.position)
      ensures Exploded(events) ==> (
        && screenShake.Some? && screenShake.value.countdown == 2
        && (screenShake.value.offset == Coord(-1, 0) || screenShake.value.offset == Coord(1, 0)))
      ensures cursor == old(cursor) && levelTrackIndex == old(levelTrackIndex) && track == old(track)
    {
      screenShake := StepShake(screenShake);
      for i := 0 to |events|
        invariant !Exploded(events[..i]) ==> screenShake == StepShake(old(screenShake)) && rng.position == old(rng.position)
        invariant Exploded(events[..i]) ==> (
          && screenShake.Some? && screenShake.value.countdown == 2
          && (screenShake.value.offset == Coord(-1, 0) || screenShake.value.offset == Coord(1, 0)))
        invariant cursor == old(cursor) && levelTrackIndex == old(levelTrackIndex) && track == old(track)
      {
        if events[i].Explosion? {
          var left := rng.Coin();
          screenShake := Some(ScreenShake(2, if left then Coord(-1, 0) else Coord(1, 0)));
          assert events[..i + 1][i].Explosion?;
        } else {
          assert Exploded(events[..i + 1]) ==> Exploded(events[..i]) by {
            if Exploded(events[..i + 1]) {
              var k :| 0 <= k < i + 1 && events[..i + 1][k].Explosion?;
              assert events[..i][k].Explosion?;
            }
          }
        }
      }
      assert events[..|events|] == events;
    }

    /** The input branch of `GameLoopData::update`: the cursor is cleared;
        a bound input passes the running token on while gameplay is
        blocked and otherwise goes to its action, aiming from the player's
        cell; an unbound mouse move, press or release moves the cursor to
        the mouse, and an unbound '?' opens the help screen. */
    method OnInput(input: Controls.Input, controls: Controls.Controls, blocked: bool, playerCoord: Coord) returns (o: Outcome)
      modifies this
      ensures var app := controls.Get(input);
        && (app.Some? ==> o == Dispatch(app.value, blocked))
        && (app.Some? ==> cursor == (if o.AimEquipped? || o.AimBody? then Some(playerCoord) else None))
        && (app.None? ==> cursor == MouseCursor(input))
        && (app.None? ==> o == (if input == Controls.Keyboard(Controls.Char('?')) then Help else PassThrough))
      ensures screenShake == old(screenShake) && levelTrackIndex == old(levelTrackIndex) && track == old(track)
    {
      cursor := None;
      var app := controls.Get(input);
      if app.Some? {
        o := Dispatch(app.value, blocked);
        if o.AimEquipped? || o.AimBody? {
          cursor := Some(playerCoord);
        }
      } else {
        cursor := MouseCursor(input);
        o := if input == Controls.Keyboard(Controls.Char('?')) then Help else PassThrough;
      }
    }

    /** The cursor is on the map, if there is one. */
    predicate CursorOk(size: Size)
      reads this
    {
      cursor.Some? ==> IsValid(cursor.value, size)
    }

    /** `update` of the aiming components (for the equipped weapon and for
        the body alike): escape cancels; a mouse move onto the map moves the
        cursor; return fires at the cursor, when there is one; a mouse
        press fires at the pressed cell; an arrow moves the cursor one cell
        when that stays on the map. Nothing else changes the cursor, and a
        cursor on the map stays on it. */
    method AimUpdate(event: Event, size: Size) returns (r: Option<Result<Coord, Unit>>)
      modifies this
      ensures event == Input(Controls.Keyboard(ESCAPE)) ==> r == Some(Err(Unit)) && cursor == old(cursor)
      ensures event.Input? && event.input.Mouse? && event.input.mouse.MousePress? ==> r == Some(Ok(event.input.mouse.coord))
      ensures event == Input(Controls.Keyboard(RETURN)) && old(cursor).Some? ==> r == Some(Ok(old(cursor).value))
      ensures r.None? && event.Input? && event.input.Mouse? ==> cursor == MoveCursorTo(old(cursor), event.input.mouse, size)
      ensures r.None? && event.Input? && event.input.Keyboard? ==> cursor == StepCursor(old(cursor), event.input.key, size)
      ensures !event.Input? ==> r.None? && cursor == old(cursor)
      ensures old(CursorOk(size)) ==> CursorOk(size)
      ensures screenShake == old(screenShake) && levelTrackIndex == old(levelTrackIndex) && track == old(track)
    {
      if event == Input(Controls.Keyboard(ESCAPE)) {
        return Some(Err(Unit));
      }
      r := None;
      if event.Input? {
        var input := event.input;
        if input.Mouse? && input.mouse.MouseMove? && IsValid(input.mouse.coord, size) {
          cursor := Some(input.mouse.coord);
        }
        if input == Controls.Keyboard(RETURN) && cursor.Some? {
          return Some(Ok(cursor.value));
        }
        if input.Mouse? && input.mouse.MousePress? {
          return Some(Ok(input.mouse.coord));
        }
        if input.Keyboard? {
          cursor := StepCursor(cursor, input.key, size);
        }
      }
    }
  }

  /** The escape and return keys of the terminal library. */
  const ESCAPE: Controls.KeyboardInput := Controls.Char(27 as char)
  const RETURN: Controls.KeyboardInput := Controls.Char(13 as char)

  /** What the app does with an input. */
  datatype Outcome =
    | PassThrough
    | Walk(direction: CardinalDirection)
    | Wait
    | Get
    | AimEquipped
    | AimBody
    | OpenMessageLog
    | OpenViewOrgans
    | DropMenu
    | ApplyMenu
    | Unequip
    | Reload
    | Help

  /** The action a bound input leads to: nothing while gameplay is
      blocked, and otherwise the game action, aiming mode or screen named
      by the binding. */
  function Dispatch(app: Controls.AppInput, blocked: bool): (o: Outcome)
    ensures blocked <==> o.PassThrough?
    ensures !o.Help?
  {
    if blocked then PassThrough
    else
      match app
      case Direction(d) => Walk(d)
      case Wait => Outcome.Wait
      case Get => Outcome.Get
      case FireEquipped => AimEquipped
      case FireBody => AimBody
      case MessageLog => OpenMessageLog
      case ViewOrgans => OpenViewOrgans
      case DropItem => DropMenu
      case ApplyItem => ApplyMenu
      case UnequipItem => Unequip
      case Reload => Outcome.Reload
  }

  /** When gameplay is not blocked, different actions lead to different
      outcomes. */
  lemma DispatchInjective(a: Controls.AppInput, b: Controls.AppInput)
    requires Dispatch(a, false) == Dispatch(b, false)
    ensures a == b
  {
  }

  /** Where the cursor goes on an unbound input: to the mouse for a move,
      press or release, and nowhere otherwise. */
  function MouseCursor(input: Controls.Input): (c: Option<Coord>)
    ensures c.Some? <==> input.Mouse? && !input.mouse.MouseScroll?
    ensures c.Some? ==> c.value == input.mouse.coord
  {
    if input.Mouse? && !input.mouse.MouseScroll? then Some(input.mouse.coord) else None
  }

  /** The one-cell step of an arrow key; other keys do not move. */
  function KeyDelta(key: Controls.KeyboardInput): (d: Coord)
    ensures (key.Left? || key.Right? || key.Up? || key.Down?) <==> d != Coord(0, 0)
    ensures ManhattanDistance(d, Coord(0, 0)) <= 1
  {
    if key.Left? then Coord(-1, 0)
    else if key.Right? then Coord(1, 0)
    else if key.Up? then Coord(0, -1)
    else if key.Down? then Coord(0, 1)
    else Coord(0, 0)
  }

  /** The cursor after a key in aiming mode: moved by the key's step when
      the result is on the map. */
  function StepCursor(cursor: Option<Coord>, key: Controls.KeyboardInput, size: Size): (r: Option<Coord>)
    ensures r.Some? <==> cursor.Some?
    ensures r.Some? && r != cursor ==> IsValid(r.value, size) && ManhattanDistance(r.value, cursor.value) == 1
    ensures cursor.Some? && IsValid(cursor.value, size) ==> IsValid(r.value, size)
  {
    if cursor.Some? && IsValid(cursor.value.Add(KeyDelta(key)), size) then Some(cursor.value.Add(KeyDelta(key)))
    else cursor
  }

  /** The cursor after a mouse event in aiming mode: a move onto the map
      places it there. */
  function MoveCursorTo(cursor: Option<Coord>, mouse: Controls.MouseInput, size: Size): (r: Option<Coord>)
    ensures r != cursor ==> mouse.MouseMove? && r == Some(mouse.coord) && IsValid(mouse.coord, size)
  {
    if mouse.MouseMove? && IsValid(mouse.coord, size) then Some(mouse.coord) else cursor
  }

  // ----- menus -----

  datatype WhichHand = LeftHand | RightHand

  /** The menu choices the app shows. */
  datatype MenuChoice =
    | Dummy
    | DropItem(index: nat)
    | ApplyItem(index: nat)
    | HarvestOrgan(organ: GameInstance.Organ)
    | EquipWeaponInHand(whichHand: WhichHand)
    | UnequipWhichHand(hand: WhichHand)

  datatype Menu = Menu(text: string, choices: seq<MenuChoice>)

  /** `drop_menu_witness`'s menu: one choice per inventory slot, in slot
      order, and nothing else. */
  function DropMenuOf(inventorySize: nat): (m: Menu)
    ensures |m.choices| == inventorySize
    ensures forall i :: 0 <= i < inventorySize ==> m.choices[i] == DropItem(i)
    ensures forall c :: c in m.choices ==> c.DropItem? && c.index < inventorySize
  {
    Menu("Select an item to drop (escape to cancel):", seq(inventorySize, i requires 0 <= i => DropItem(i)))
  }

  /** `apply_menu_witness`'s menu: one choice per inventory slot. */
  function ApplyMenuOf(inventorySize: nat): (m: Menu)
    ensures |m.choices| == inventorySize
    ensures forall i :: 0 <= i < inventorySize ==> m.choices[i] == ApplyItem(i)
    ensures forall c :: c in m.choices ==> c.ApplyItem? && c.index < inventorySize
  {
    Menu("Select an item to apply (escape to cancel):", seq(inventorySize, i requires 0 <= i => ApplyItem(i)))
  }

  /** `apply_item_description`. */
  function ApplyItemDescription(item: GameInstance.Item): (s: string)
  {
    match item
    case Stimpack => "Consume to increase health"
    case Antidote => "Consume to decrease poison"
    case BloodVialEmpty => "Fill with blood (must be standing on corpse)"
    case BloodVialFull => "Consume to increase oxygen"
    case Battery => "Consume to increase power (requires CyberCore™)"
    case Food => "Consume to gain food"
    case AntiRads => "Consume to reduce radiation"
    case OrganContainer(Some(_)) => "Dump contents"
    case OrganContainer(None) => "Harvest organ (must be standing on corpse)"
    case Pistol => "Equip weapon (requires non-claw hand)"
    case Shotgun => "Equip weapon (requires two non-claw hands)"
    case RocketLauncher => "Equip weapon (requires two non-claw hands)"
    case PistolAmmo => "Load into current weapon"
    case ShotgunAmmo => "Load into current weapon"
    case Rocket => "Load into current weapon"
  }

  /** The consumables are described as consumed, the weapons as equipped,
      and the three kinds of ammunition share one description. */
  lemma ApplyDescriptionKinds(item: GameInstance.Item)
    ensures item in {GameInstance.Stimpack, GameInstance.Antidote, GameInstance.BloodVialFull, GameInstance.Battery, GameInstance.Food, GameInstance.AntiRads}
      ==> ApplyItemDescription(item)[..11] == "Consume to "
    ensures item in {GameInstance.Pistol, GameInstance.Shotgun, GameInstance.RocketLauncher}
      ==> ApplyItemDescription(item)[..14] == "Equip weapon ("
    ensures item in {GameInstance.PistolAmmo, GameInstance.ShotgunAmmo, GameInstance.Rocket}
      ==> ApplyItemDescription(item) == ApplyItemDescription(GameInstance.Rocket)
  {
    match item {
      case Stimpack => ConsumeDescription(item);
      case Antidote => ConsumeDescription(item);
      case BloodVialFull => ConsumeDescription(item);
      case Battery => ConsumeDescription(item);
      case Food => ConsumeDescription(item);
      case AntiRads => ConsumeDescription(item);
      case Pistol => EquipDescription(item);
      case Shotgun => EquipDescription(item);
      case RocketLauncher => EquipDescription(item);
      case _ =>
    }
  }

  lemma ConsumeDescription(item: GameInstance.Item)
    requires item.Stimpack? || item.Antidote? || item.BloodVialFull? || item.Battery? || item.Food? || item.AntiRads?
    ensures ApplyItemDescription(item)[..11] == "Consume to "
  {
  }

  lemma EquipDescription(item: GameInstance.Item)
    requires item.Pistol? || item.Shotgun? || item.RocketLauncher?
    ensures ApplyItemDescription(item)[..14] == "Equip weapon ("
  {
  }

  /** `inventory_item`: the item in a slot, if the slot exists and holds
      one. */
  function InventoryItem(inventory: seq<Option<GameInstance.Item>>, i: nat): (r: Option<GameInstance.Item>)
    ensures r.Some? ==> i < |inventory| && inventory[i] == r
  {
    if i < |inventory| then inventory[i] else None
  }

  /** `menu_choice_string`; the dummy choice makes the app panic. */
  function MenuChoiceString(inventory: seq<Option<GameInstance.Item>>, choice: MenuChoice): (s: string)
    requires !choice.Dummy?
    ensures |s| > 0 && (s[0] == '(' || 'A' <= s[0] <= 'Z')
  {
    match choice
    case DropItem(i) =>
      if InventoryItem(inventory, i).Some? then GameInstance.ItemStringForMenu(InventoryItem(inventory, i).value) else "(empty)"
    case ApplyItem(i) =>
      if InventoryItem(inventory, i).Some?
      then
        var item := InventoryItem(inventory, i).value;
        GameInstance.ItemStringForMenu(item) + " - " + ApplyItemDescription(item)
      else "(empty)"
    case HarvestOrgan(organ) => GameInstance.OrganStringForMenu(organ)
    case EquipWeaponInHand(hand) => HandName(hand)
    case UnequipWhichHand(hand) => HandName(hand)
  }

  function HandName(hand: WhichHand): (s: string)
    ensures |s| > 5 && s[|s| - 5..] == " Hand"
  {
    match hand
    case LeftHand => "Left Hand"
    case RightHand => "Right Hand"
  }

  /** An apply choice names the same item as the drop choice of its slot,
      followed by what applying it does; both read "(empty)" for an empty
      slot. */
  lemma ApplyExtendsDrop(inventory: seq<Option<GameInstance.Item>>, i: nat)
    ensures var item := InventoryItem(inventory, i);
      && (item.None? ==> MenuChoiceString(inventory, DropItem(i)) == MenuChoiceString(inventory, ApplyItem(i)) == "(empty)")
      && (item.Some? ==> MenuChoiceString(inventory, ApplyItem(i)) == MenuChoiceString(inventory, DropItem(i)) + " - " + ApplyItemDescription(item.value))
  {
  }

  /** `ALPHABET`, the hotkeys of menu entries. */
  const ALPHABET: string := "abcdefghijklmnopqrstuvwxyz"

  /** The alphabet is the 26 lower-case letters in order. */
  lemma AlphabetLetters()
    ensures |ALPHABET| == 26
    ensures forall i :: 0 <= i < 26 ==> ALPHABET[i] as int == 'a' as int + i
  {
  }

  /** A menu entry: its choice, its hotkey and its label. */
  datatype Entry = Entry(choice: MenuChoice, hotkey: char, text: string)

  /** The entries of `game_menu`: the choices zipped with the alphabet, so
      at most 26; each entry is labelled with its hotkey, ") " and the
      choice's string. */
  function MenuEntries(inventory: seq<Option<GameInstance.Item>>, choices: seq<MenuChoice>): (es: seq<Entry>)
    requires forall c :: c in choices ==> !c.Dummy?
    ensures |es| == if |choices| < |ALPHABET| then |choices| else |ALPHABET|
    ensures forall i :: 0 <= i < |es| ==> es[i].choice == choices[i] && es[i].hotkey == ALPHABET[i]
    ensures forall i :: 0 <= i < |es| ==> es[i].text == [ALPHABET[i]] + ") " + MenuChoiceString(inventory, choices[i])
  {
    var n := if |choices| < |ALPHABET| then |choices| else |ALPHABET|;
    seq(n, i requires 0 <= i < n => Entry(choices[i], ALPHABET[i], [ALPHABET[i]] + ") " + MenuChoiceString(inventory, choices[i])))
  }

  /** No two entries of a menu share a hotkey. */
  lemma HotkeysDistinct(inventory: seq<Option<GameInstance.Item>>, choices: seq<MenuChoice>, i: nat, j: nat)
    requires forall c :: c in choices ==> !c.Dummy?
    requires i < j < |MenuEntries(inventory, choices)|
    ensures MenuEntries(inventory, choices)[i].hotkey != MenuEntries(inventory, choices)[j].hotkey
  {
    AlphabetLetters();
  }
}
