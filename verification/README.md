# Electric Organ — a Dafny model of the game's core

Electric Organ is a turn-based roguelike set in a ruined city. A game goes through a handful of levels. Each level is generated procedurally, loaded into a world of entities, and then played turn by turn, with realtime animation between turns. This project models that core in Dafny and proves properties of the model.

- **City generation** (`procgen/src/city.rs`) runs as a pipeline of five maps. Each map is a class holding its grid, and each pass is a method proved against a specification function of the old grid:
  - Map1 (`CityStreets`): street builders walk the grid and lay out streets and alleys.
  - Map2 (`CityFootpaths`): footpaths are laid along the streets.
  - Map3 (`CityBlocks`): the space between streets is split into blocks, which are divided into floors and walled corridors.
  - Map4 (`CityRooms`): rooms are found, joined by doors along a spanning tree plus extra doors, and debris is scattered.
  - Map5 (`CityFeatures`): tentacles, stairs and debris are placed. The path between the stairs is checked before the debris edge is laid, so that edge can still cut it (see `CityFeatures.EdgePathCut`).
- **River and town generation** (`procgen/src/lib.rs`, module `River`): the integer-grid half of the generator. This covers town candidate positions, town placement, and the river's passage through the map.
- **Terrain** (`game/src/terrain.rs`): how a generated map, or a level written as text, becomes entities in the world.
- **The game state** (`game/src/lib.rs`, module `GameState`): the levels, the player, the agents of each level and the message log. It also covers walking, doors, stairs, items, turns of the non-player characters and the input handler.
- **The world** (`game/src/world/`):
  - Spawning entities (`Spawn`).
  - Projectile actions (`Action`).
  - Queries (`Query`).
  - Component data (`Data`).
  - Realtime animation (`Realtime`) and particle emitters (`Particle`).
- **The witness protocol** (`game/src/witness.rs`): the tokens that force the app to respond to every state of the game in turn.
- **The app** (`app/src/`):
  - The key bindings (`Controls`).
  - The rendering logic of the game instance: meters, message grouping and descriptions of organs and items (`GameInstance`).
  - The state machine of the game loop: menus, aiming and the message log view (`GameLoop`).

Conventions used throughout:

- The game's world is a spatial table, an entity allocator and component tables, all built on external crates. The `GameWorld.World` class stands for them: a map from cells and layers to entities, a map from entities to locations, and a map from entities to their components. Its methods state exactly how each table changes.
- A random number generator passed as `&mut R` is the `Random.Rng` class. It is an infinite sequence of draws and a position in it, so each draw is a deterministic function of the draws.
- `Geometry` models `coord_2d`, `grid_2d`, `direction` and `line_2d`. `Wrappers` holds `Option` and `Result`. `Reach` defines reachability for the flood fills and breadth-first searches.
- A panic the game treats as impossible becomes a `requires` clause. A spawn that can fail on an occupied cell returns an error, so that "fails exactly when occupied" can be stated.
- A non-player character's choice of action (`decide`) is a parameter of the turn. So is the pathfinding predicate `can_npc_traverse`.

## Model

| member | source | states |
|---|---|---|
| Action.CollidesWithOf | game/src/world/action.rs:20-28 | A projectile without a `collides_with` component collides with solid entities only, never with characters; one with the component uses it as given. |
| Action.EntityInCell | game/src/world/action.rs:45 | The entity a projectile runs into is the cell's feature when there is one, otherwise its character. |
| Action.EmptyCellNeverStops | game/src/world/action.rs:45-58 | A cell with no feature and no character never stops a projectile. |
| Action.FeatureTakesPrecedence | game/src/world/action.rs:45-55 | When the cell has a feature, only the feature decides whether the projectile stops; a character below it plays no part. |
| Action.ParticlesPassDebris | game/src/world/action.rs:46-55 | A particle that collides with solids passes through a feature that is solid but not solid for particles; an ordinary projectile stops there. |
| Action.ProjectileStop | game/src/world/action.rs:86-112 | A placed projectile with `on_collision == Remove` leaves every table and is freed. One with `RemoveRealtime` loses its realtime components and its realtime and blocks-gameplay flags. Every projectile loses its movement component. Nothing else in the world changes. |
| Action.ProjectileMove | game/src/world/action.rs:10-72 | An unplaced projectile is deleted from every table. A step off the grid, or into an entity it collides with, stops it in place as `projectile_stop` does. Otherwise it moves to the next cell if the layer there is free and stays put if not. No other entity moves. |
| Controls.Controls.Get | app/src/controls.rs:49-54 | A keyboard input yields its bound action exactly when it is a key of the map. A mouse input never yields an action. |
| Controls.DefaultBinding | app/src/controls.rs:28-46 | Only arrow keys and characters are bound by the default controls. |
| Controls.DefaultControls | app/src/controls.rs:28-46 | The default map binds a key exactly when the default binding table has an entry for it, and to that entry's action. |
| Controls.DefaultKeyFor | app/src/controls.rs:28-46 | Every action's default key is one of the fourteen keys listed. |
| Controls.DefaultControlsKeys | app/src/controls.rs:28-46 | The default controls bind exactly the fourteen listed keys: four arrows, space and nine letters. |
| Controls.BindingInverse | app/src/controls.rs:28-46 | The key given to an action is bound to that action, and every bound key is the key given to its action. Each direction is proved. |
| Controls.BoundKeys | app/src/controls.rs:28-46 | A key is bound by default if and only if it is in the list of fourteen keys. |
| Controls.DefaultControlsCoverActions | app/src/controls.rs:28-46 | Every action, each of the four walking directions included, can be reached by some key of the default controls. |
| Controls.DefaultControlsInjective | app/src/controls.rs:28-46 | No two keys of the default controls share an action. |
| Controls.DefaultGet | app/src/controls.rs:28-54 | `get` on the default controls returns an action for every listed key, and for no other input, mouse inputs included. The arrow keys yield walking directions. |
| Data.Overlay | game/src/world/data.rs:7-18 | Inserting an entity's data replaces each slot whose new value is present and keeps the old value otherwise. The contract states this for the tile and solid slots. |
| Data.OverlayOnEmpty | game/src/world/data.rs:7-18 | Inserting into an entity with no components yields exactly the data inserted. |
| Data.Meter.constructor | game/src/world/data.rs:52-54 | A new meter stores both values as given. |
| Data.Meter.CurrentAndMax | game/src/world/data.rs:55-57 | Returns both fields. A valid meter's current value is at most its maximum. |
| Data.Meter.Current | game/src/world/data.rs:58-60 | Agrees with the first half of `current_and_max`. |
| Data.Meter.Max | game/src/world/data.rs:61-63 | Agrees with the second half of `current_and_max`. |
| Data.Meter.IsEmpty | game/src/world/data.rs:77-79 | True exactly when the current value is zero. |
| Data.Meter.IsFull | game/src/world/data.rs:80-82 | True exactly when the current value equals the maximum. A full valid meter with a positive maximum is not empty. |
| Data.Meter.SetCurrent | game/src/world/data.rs:64-66 | The current value becomes `to` clamped to the maximum, which is unchanged. The meter is valid afterwards. |
| Data.Meter.Decrease | game/src/world/data.rs:67-69 | Subtracts with saturation at zero. The value never grows and validity is kept. |
| Data.Meter.Increase | game/src/world/data.rs:70-72 | Adds, then clamps to the maximum. The meter is valid afterwards, and the value of a valid meter never shrinks. |
| Data.Meter.SetMax | game/src/world/data.rs:73-76 | The maximum becomes `to` and the current value is re-clamped to it, so the meter is valid. |
| Data.Meter.Fill | game/src/world/data.rs:83-85 | The current value becomes the maximum; the meter is full and valid. |
| Data.NewMayBreakInvariant | game/src/world/data.rs:52-54 | `Meter::new(2, 1)` builds a meter whose current value exceeds its maximum: the constructor does not enforce the invariant that every mutator keeps. |
| GameState.OpenedDoor | game/src/lib.rs:345-356 | Opening a door sets its state to open and its tile to the open door. The door stops being solid, solid for particles and opaque. Every other component is kept. |
| GameState.ClosedDoor | game/src/lib.rs:383-394 | Closing a door sets its state to closed and its tile to the closed door. The door becomes solid, solid for particles and fully opaque. Every other component is kept. |
| GameState.OpenThenCloseIsSpawnedDoor | game/src/world/spawn.rs:205-216 | Opening the door that `spawn_door` makes and then closing it gives back exactly the spawned door's data. |
| GameState.DoorToggle | game/src/lib.rs:345-394 | Opening undoes closing and closing undoes opening: each result depends only on the slots the other leaves alone. |
| GameState.DoorCandidate | game/src/lib.rs:358-381 | The candidate from direction `k` is the open door in that neighbour of `coord`, when the neighbour is within one king's move of the destination. Conversely, every such open door is found as a candidate. |
| GameState.FirstOpenDoorFrom | game/src/lib.rs:358-381 | The result is `None` exactly when no direction from `k` on has a candidate. Otherwise it is the candidate of the first direction that has one, in the order of `Direction::all()`. |
| GameState.DoorsOpenedTrans | game/src/lib.rs:453-551 | Several NPC door openings in a row are again only door openings. They never change the NPC or blocks-gameplay flag of any entity. |
| GameState.DoorsOpenedMinus | game/src/lib.rs:553-587 | Taking the same entities out of both tables keeps a door opening a door opening, and no entity's removal mark changes. |
| GameState.CardinalStep | game/src/lib.rs:462 | A cardinal step moves a location by one cell on its layer. |
| GameState.NpcsActedNone | game/src/lib.rs:538-548 | An NPC that does nothing has acted within the bounds of an NPC act. |
| GameState.NpcsActedOpen | game/src/lib.rs:471-478 | An NPC opening a door on the feature layer is within the bounds of an NPC act. |
| GameState.NpcsActedStep | game/src/lib.rs:500-503 | An NPC taking one cardinal step is an act in which only it moves. |
| GameState.NpcsKept | game/src/lib.rs:471-478 | Opening doors keeps which entities are NPCs and which are marked for removal. |
| GameState.SameNpcs | game/src/lib.rs:526-551 | After doors are opened the NPCs are the same entities as before, so the turn's agents stay the world's NPCs. |
| GameState.BlockingKept | game/src/lib.rs:566-587 | Opening doors neither starts nor ends a gameplay block. |
| GameState.NpcsActedWiden | game/src/lib.rs:529-549 | An act of some movers is an act of any larger set of movers. |
| GameState.NpcsActedTrans | game/src/lib.rs:529-549 | Two acts by disjoint sets of movers add up to one act by their union: each entity has still taken at most one step. |
| GameState.NpcsActedMinus | game/src/lib.rs:566-587 | Removing the same entities from the tables before and after keeps an NPC act. |
| GameState.NpcsActedKeeps | game/src/lib.rs:526-551 | A placed entity that does not move and is not a feature, such as the player during the NPC turn, keeps its place and its row. |
| GameState.AddMissing | game/src/lib.rs:510-514 | After the first loop of `npc_setup_agents`, the agent table holds exactly the old agents plus every NPC. |
| GameState.Stale | game/src/lib.rs:515-520 | The second loop collects exactly the agents whose entity is not an NPC. |
| GameState.RemoveAll | game/src/lib.rs:521-523 | The third loop leaves exactly the agents that were not listed for removal. |
| GameState.OpenOneDoor | game/src/lib.rs:345-356 | One `open_door` on an entity of the table is a door opening in the sense of the NPC turn's frame. |
| GameState.StashView | game/src/lib.rs:231-245 | The stashed levels have one slot per level. The slot of the current level is empty, and every other slot holds that level's world and agent table. |
| GameState.StashSwap | game/src/lib.rs:284-289 | Stashing the current level's agents and making level `t` current fills the old current slot with the old level and empties slot `t`. |
| GameState.TakeOutAll | game/src/lib.rs:553-563 | After the loop of `cleanup`, exactly the listed entities are gone from the spatial and component tables. |
| GameState.PlaceCharacter | game/src/world/spawn.rs:32-37 | Inserting entity data at a free character slot places a new entity there with exactly the given components. |
| GameState.TakeOut | game/src/lib.rs:283 | `remove_entity` returns the entity's components, and the entity leaves both the spatial and the component table. |
| GameState.SetDoorOpen | game/src/lib.rs:345-356 | `open_door` replaces only the door's row of the component table with its opened form; positions and other rows stay as they were. |
| GameState.SetDoorClosed | game/src/lib.rs:383-394 | `close_door` replaces only the door's row with its closed form. |
| GameState.MoveCharacter | game/src/lib.rs:428-431 | A character moved by `update_coord` to a free character slot is there afterwards. Nothing else moves, and the feature at the target is untouched. |
| GameState.NewGame | game/src/lib.rs:231-275 | The new game is on level 0 with an empty agent table, and every other level is stashed with an empty agent table. The player is made by `make_player` and placed at level 0's up staircase or exit. The message log and external events start empty. |
| GameState.Game.OtherLevels | game/src/lib.rs:231-245 | There is one stash slot per level. |
| GameState.Game.constructor | game/src/lib.rs:246-275 | With the spawn point known, the new game is on level 0 and the player made by `make_player` stands at the spawn. The other levels are stashed with empty agent tables, and the log and events start empty. |
| GameState.Game.PlayerCoord | game/src/lib.rs:338-343 | The player's coordinate is where the spatial table places it, and it is on the grid. |
| GameState.Game.TakeExternalEvents | game/src/lib.rs:690-693 | Returns the buffered events, oldest first, and leaves the buffer empty. Nothing else changes. |
| GameState.Game.IsGameplayBlocked | game/src/lib.rs:591-593 | Gameplay is blocked exactly when some entity has the `blocks_gameplay` component. |
| GameState.Game.LeaveLevel | game/src/lib.rs:283 | The player's components are returned, and the player leaves the current world's spatial and component tables. |
| GameState.Game.ArriveAt | game/src/lib.rs:284-304 | The current level and its agents are stashed in the old slot, and the target level becomes current with its slot emptied. The player is placed at `c` with its old components. One `ChangeLevel` event is added, and the message log is unchanged. |
| GameState.Game.SwitchLevel | game/src/lib.rs:284-304 | The target level becomes current with its stashed agent table, and the old level is stashed. The already placed entity becomes the player, and one `ChangeLevel` event is added. |
| GameState.Game.SetCurrent | game/src/lib.rs:284-300 | The level fields take the values given; the message log is unchanged. |
| GameState.Game.MoveToLevel | game/src/lib.rs:277-305 | The old level is stashed with its agents and the target level becomes current. The player leaves the old world and is placed at `c` in the new one with its components. A `ChangeLevel` event is reported. |
| GameState.Game.EnterLevel | game/src/lib.rs:277-305 | As `MoveToLevel`: going down, the player arrives at the new level's up staircase or exit; going up, at its down staircase. |
| GameState.Game.WalkPlanOf | game/src/lib.rs:396-435 | A walk goes off the map exactly when the target is outside the grid. A step always goes to the adjacent cell in that direction. |
| GameState.Game.StairsTarget | game/src/lib.rs:437-451 | A staircase under the player leads to the level one deeper or one higher than the current level. |
| GameState.Game.ChangeLevelIfPlayerIsOnStairs | game/src/lib.rs:437-451 | Without a staircase under the player, nothing changes. On a down staircase the game enters the next level at its arrival point, and on an up staircase the previous one. |
| GameState.Game.WalkOpensDoor | game/src/lib.rs:410-414 | Bumping into a closed door only opens it and logs `OpenDoor`. |
| GameState.Game.WalkClosesDoor | game/src/lib.rs:416-424 | A blocked walk next to an open door only closes that door and logs `CloseDoor`. |
| GameState.Game.WalkSteps | game/src/lib.rs:428-433 | Without a staircase at the target, the player steps there and nothing is logged. Otherwise the game arrives at the level the staircase leads to. |
| GameState.Game.StepPlayer | game/src/lib.rs:428-431 | The player stands at `t`, which is still on the same staircase leading to the same arrival point. |
| GameState.Game.PlayerWalk | game/src/lib.rs:396-435 | The walk fails with `InvalidMove`, changing nothing, exactly when it leaves the map or is blocked (`WalkPlanOf`). Otherwise `WalkDone` holds: a closed door is opened, or a door next to the player is closed, each logged and changing only that door's row. A plain step moves only the player, and a step onto stairs arrives at the level they lead to. |
| GameState.Game.OpenDoorEntityAdjacentToCoord | game/src/lib.rs:358-381 | Returns the first open door in the order of `Direction::all()` among the neighbours of `coord` within one king's move of the destination, or `None` when there is none. |
| GameState.Game.NpcPlanOf | game/src/lib.rs:453-505 | An NPC stays when the target is off the map. It opens a closed door there, and bumps into a character there. It moves only to a free, traversable cell on the grid. |
| GameState.Game.NpcWalk | game/src/lib.rs:453-505 | An NPC that stays or bumps changes nothing, one that meets a closed door only opens it, and one that moves steps to the target. The result says whether the NPC bumped into the player. |
| GameState.Game.NpcOpensDoor | game/src/lib.rs:470-477 | Only the door's row changes, to its opened form. |
| GameState.Game.NpcSteps | game/src/lib.rs:497-503 | The NPC stands at `t` and nothing else moves. |
| GameState.Game.NpcSetupAgents | game/src/lib.rs:507-524 | Afterwards the agent table holds exactly the NPCs of the world; nothing else of the game changes. |
| GameState.Game.NpcAct | game/src/lib.rs:535-547 | A walk input has exactly the outcome of the NPC's walk plan. If the NPC stays or bumps, the world is unchanged. A closed door is only opened. A move steps the NPC to the target cell. Any other input leaves the world unchanged. In every case only this NPC may move, and by at most one cardinal step; only feature-layer rows may change, and only by opening a door (`NpcsActed`). |
| GameState.Game.NpcActAll | game/src/lib.rs:529-549 | After every NPC in the order has acted, only the given movers have moved, each by at most one cardinal step. Only doors in the feature layer have changed, and only by opening. Every other entity keeps its place. |
| GameState.Game.NpcActNext | game/src/lib.rs:535-547 | One more NPC's act extends what the earlier acts did: the movers so far plus this NPC. |
| GameState.Game.NpcActAgents | game/src/lib.rs:529-549 | Letting every agent act keeps the game well-formed and keeps the agent table equal to the NPCs. Only NPCs move, each by at most one cardinal step. Only doors are opened, and whether gameplay is blocked is unchanged. |
| GameState.Game.NpcTurn | game/src/lib.rs:526-551 | The agent table ends up holding exactly the NPCs. Only the NPCs of the turn's start move, each by at most one cardinal step, and doors are only opened. The player keeps its place and its data, and the turn never returns a control flow. |
| GameState.Game.Cleanup | game/src/lib.rs:553-563 | Exactly the entities marked for removal leave the world, and none remains marked afterwards. |
| GameState.Game.PlayerGetItem | game/src/lib.rs:643-660 | With no item under the player the result is `NothingToGet` and nothing changes. A money item adds exactly one to the player's money, and the item leaves the spatial and the component table (`GetDone`). Any other item leaves the world unchanged. |
| GameState.Game.CollectMoney | game/src/lib.rs:649-656 | The player's money goes up by exactly one and the item leaves both tables; no other row changes. |
| GameState.Game.Richer | game/src/lib.rs:649-656 | The player's data with one more unit of money, and otherwise the same. |
| GameState.Game.FinishTick | game/src/lib.rs:566-587 | When the animation step has just unblocked gameplay, the NPCs take their turn. Measured against the tables less the marked entities, only the NPCs move, each by at most one cardinal step, only doors are opened, and every NPC has an agent. Otherwise the agents are kept and exactly the marked entities leave the spatial and component tables. Either way nothing stays marked and no control flow is returned. |
| GameState.Game.ApplyInput | game/src/lib.rs:600-627 | A walk fails exactly when it leaves the map or is blocked; the failure is logged and returned, and nothing else changes. A successful walk has the effects of `PlayerWalk` (`WalkDone`) and a get those of `PlayerGetItem` (`GetDone`), logging `NothingToGet` when there is no item. A wait only logs `Wait`. Firing reports `FirePistol`. A get, a wait and firing never change the level, the stash or the player entity. |
| GameState.Game.HandleInput | game/src/lib.rs:596-641 | The action succeeds or fails as in `ApplyInput`, with the same log. A door walk, a step without stairs, a get, a wait or firing ends in the state the player's action gives (`WalkThenNpcs`, `GetThenNpcs`). If gameplay is blocked, nothing more happens. Otherwise every NPC may then move by at most one cardinal step and open doors, while every other entity keeps its place (`ThenNpcs`). With gameplay unblocked, the agent table ends up holding exactly the NPCs. |
| GameState.Game.NpcTurnUnlessBlocked | game/src/lib.rs:633-638 | While gameplay is blocked nothing changes. Otherwise the NPCs take their turn: only they move, doors only open, the player keeps its place and data, and the agent table holds exactly the NPCs. |
| GameInstance.LayerToDepth | app/src/game_instance.rs:126-133 | Depths run from 0 to 3: the character is drawn deepest-first at 3 and the floor at 0. |
| GameInstance.DepthOrder | app/src/game_instance.rs:126-133 | Depth falls strictly along the top-down layer order, so distinct layers have distinct depths. |
| GameInstance.VisibleEntityOnTop | app/src/game_instance.rs:40-54 | The entity returned has a tile and belongs to the layer named with it. Every layer drawn above it has no tile. The result is `None` exactly when no layer of the cell has a tile. |
| GameInstance.VisibleEntityOnTopExcludingCharacter | app/src/game_instance.rs:56-69 | The same choice made among the item, feature and floor layers: never the character. The result is `None` exactly when none of those three has a tile. |
| GameInstance.ExcludingCharacterIsOnTopWithoutCharacter | app/src/game_instance.rs:40-69 | The variant that excludes the character equals the plain choice on the cell with its character layer emptied. On a cell whose character has no tile, the two functions agree. |
| GameInstance.MeterFill | app/src/game_instance.rs:77-82 | A bar has no filled cell exactly when the meter is empty. A valid meter never fills more than the width of 15, and a full non-empty meter fills all 15. |
| GameInstance.MeterFillMonotone | app/src/game_instance.rs:77-82 | A fuller meter never fills fewer cells of its bar. |
| GameInstance.MeterAlphas | app/src/game_instance.rs:83-88 | The bar has 15 cells. A cell is opaque (alpha 255) exactly when its index is below the filled width, and faint (alpha 63) otherwise. |
| GameInstance.MeterBarShowsContent | app/src/game_instance.rs:77-88 | The first cell of a bar is opaque exactly when the meter is not empty, and a full meter's bar is opaque throughout. |
| GameInstance.Push | app/src/game_instance.rs:624-630 | A message equal to the last group's joins that group, whose count goes up by one. Any other message starts a new group of one, and all earlier groups are kept. |
| GameInstance.PushKeepsGrouped | app/src/game_instance.rs:624-630 | Adding a message keeps a grouping well formed: counts stay positive and neighbouring groups hold different messages. The old groups survive as a prefix. |
| GameInstance.Groups | app/src/game_instance.rs:619-631 | Grouping never yields more groups than messages, and yields none only for an empty log. |
| GameInstance.GroupsGrouped | app/src/game_instance.rs:619-631 | Every group counts at least one message, and neighbouring groups hold different messages. |
| GameInstance.GroupsRoundTrip | app/src/game_instance.rs:619-631 | Grouping loses nothing: expanding each group into its count of copies gives the messages back. |
| GameInstance.ExpandPush | app/src/game_instance.rs:624-630 | Adding a message to a grouping adds exactly that message to its expansion. |
| GameInstance.GroupsOfPrefix | app/src/game_instance.rs:619-631 | Grouping a longer log keeps the earlier groups, all but the last unchanged. |
| GameInstance.ShownGroups | app/src/game_instance.rs:618-631 | At most four groups are shown. They are the newest groups of the log, each with its full count, and all of them when there are fewer than four. |
| GameInstance.Reversed | app/src/game_instance.rs:620 | The log is read newest first. |
| GameInstance.GroupMessagesAsWritten | app/src/game_instance.rs:618-631 | The loop as written computes `ShownGroupsAsWritten`: it stops as soon as four groups exist, even while the fourth is still growing. |
| GameInstance.StoppedAsWritten | app/src/game_instance.rs:618-631 | Where the loop as written stops, its result is the newest three groups followed by the fourth group counted as one. |
| GameInstance.GroupMessages | app/src/game_instance.rs:618-631 | The corrected loop computes exactly the groups meant to be shown. |
| GameInstance.GroupNewest | app/src/game_instance.rs:618-631 | The capped loop stops at index `j`. Its groups are those of the first `j` messages, and there are at most four. When it stops early, four groups exist and message `j` would start a fifth. |
| GameInstance.StoppedCapped | app/src/game_instance.rs:618-631 | Where the capped loop stops, its groups are exactly the groups shown. |
| GameInstance.ShownWhenFew | app/src/game_instance.rs:618-631 | A log of at most four groups is shown whole. |
| GameInstance.ShownWhenCapped | app/src/game_instance.rs:618-631 | Once four groups are complete and the next message would start a fifth, those four groups are shown. |
| GameInstance.FourthGroupUndercounted | app/src/game_instance.rs:621-623 | For the log `[Wait, Wait, OpenDoor, CloseDoor, ActionError]`, oldest first, the loop as written shows the two waits as one. The intended grouping shows them with a count of 2. |
| GameInstance.GroupStyle | app/src/game_instance.rs:641-642 | The `i`-th group shown has alpha 255 - 50·i, never below 105, and is drawn on row 3 - i of the four. |
| GameInstance.GroupStylesDistinct | app/src/game_instance.rs:641-642 | Older groups are drawn fainter and higher, so no two groups share a row or an alpha. |
| GameInstance.OrganTypeName | app/src/game_instance.rs:2402-2417 | Every organ type has a non-empty name. |
| GameInstance.Capitalised | app/src/game_instance.rs:2419-2434 | Capitalising keeps the length and every letter after the first. |
| GameInstance.OrganTypeNameCapAsWritten | app/src/game_instance.rs:2419-2434 | Except for the tumour, the table as written gives each organ's name capitalised. |
| GameInstance.TumourNotCapitalised | app/src/game_instance.rs:2427 | The tumour's capitalised name as written is not the capitalised form of its name. |
| GameInstance.OrganTypeNameCap | app/src/game_instance.rs:2419-2434 | Each capitalised name, the tumour's included, is the plain name with its first letter in upper case. |
| GameInstance.OrganTraitName | app/src/game_instance.rs:2436-2446 | Every trait has a non-empty name. |
| GameInstance.TraitNames | app/src/game_instance.rs:2448-2465 | One name per trait. |
| GameInstance.JoinSnoc | app/src/game_instance.rs:2455-2462 | Joining one more name appends ", " and that name. |
| GameInstance.TraitsStringShape | app/src/game_instance.rs:2448-2465 | The traits string is empty exactly for an organ without traits. Otherwise it opens with " (", closes with ")" and holds each trait's name in order, with ", " between neighbours. |
| GameInstance.OrganTraitsString | app/src/game_instance.rs:2448-2465 | The loop builds exactly the traits string described by `TraitsStringShape`. |
| GameInstance.TraitsString | app/src/game_instance.rs:2448-2465 | The traits string is empty exactly when the organ has no traits. Otherwise it starts with " (" and ends with ")". |
| GameInstance.JoinParenthesised | app/src/game_instance.rs:2453-2464 | Pushing each name, followed by ", " or, after the last one, by ")", gives " (", the joined names and ")". |
| GameInstance.JoinPrefixStep | app/src/game_instance.rs:2455-2462 | The first `i + 1` names, joined, extend the first `i` by a separator and name `i`. |
| GameInstance.CyberneticAppendixArticle | app/src/game_instance.rs:2467-2478 | The description as written of a cybernetic appendix starts "an cybernetic a". |
| GameInstance.OrganDescriptionShape | app/src/game_instance.rs:2467-2478 | A description is the article, a space and the next word, then the organ's name after "cybernetic" when cybernetic, then the traits string. The article is "an" exactly when the next word starts with a vowel. |
| GameInstance.OrganDescriptionAsWritten | app/src/game_instance.rs:2467-2478 | The description as written, whose article depends on the organ type alone, differs from the corrected `OrganDescription` exactly for a cybernetic appendix. |
| GameInstance.OrganDescription | app/src/game_instance.rs:2467-2478 | A description starts with the article "a" or "an" and ends with the organ's traits string. |
| GameInstance.ArticleByVowel | app/src/game_instance.rs:2467-2478 | The word after the article starts with a vowel exactly for a plain appendix. |
| GameInstance.DescriptionLayout | app/src/game_instance.rs:2467-2478 | The corrected description is laid out as `OrganDescriptionShape` states. |
| GameInstance.NameInitialVowel | app/src/game_instance.rs:2402-2417 | Of the organ names, only "appendix" starts with a vowel. |
| GameInstance.MenuStringCapitalised | app/src/game_instance.rs:2480-2487 | An organ's menu string is its name and traits capitalised, preceded by "Cybernetic " when the organ is cybernetic. |
| GameInstance.OrganStringForMenu | app/src/game_instance.rs:2480-2487 | An organ's menu string starts with a capital letter. |
| GameInstance.ItemStringForMenu | app/src/game_instance.rs:2585-2606 | Every item's menu string starts with a capital letter. |
| GameInstance.ItemMenuStringRoundTrip | app/src/game_instance.rs:2585-2606 | Every item's menu string can be read back to the item, except that of a full organ container. A full container's string is that of no other item, so different items never share a menu string. |
| GameInstance.ItemReadBack | app/src/game_instance.rs:2585-2606 | The menu string of every item other than a full organ container reads back to that item. |
| GameInstance.FullContainerNotRead | app/src/game_instance.rs:2594-2597 | The menu string of a full organ container is not the string of any item without an organ. |
| GameLoop.RngSeedSource.constructor | app/src/game_loop.rs:104-114 | A given seed is stored as the next seed and nothing is drawn. Otherwise the next seed is the generator's first draw, taken as a `u64`. |
| GameLoop.RngSeedSource.NextSeed | app/src/game_loop.rs:116-124 | Returns the stored seed and stores the generator's next draw in its place, consuming exactly one draw. |
| GameLoop.FirstSeed | app/src/game_loop.rs:104-124 | With a given seed, the first game is played with exactly that seed, whatever the generator holds. |
| GameLoop.LogStart | app/src/game_loop.rs:993-996 | The first message shown plus the scroll is the log length less the view height, saturating at zero. The start never passes the end of the log. |
| GameLoop.ScrollUp | app/src/game_loop.rs:1010-1017 | Up raises the scroll by one exactly while it is below the log length less the view height, and otherwise leaves it. It never exceeds that bound. |
| GameLoop.ScrollUpAsWritten | app/src/game_loop.rs:1010-1017 | Up as written, with `<`, agrees with the corrected `ScrollUp` except exactly when the log is longer than the view and the new scroll would equal the log length less the view height. |
| GameLoop.OldestHiddenAsWritten | app/src/game_loop.rs:1010-1017 | As written, Up never lets the scroll reach the log length less the view height. A log longer than the view therefore never shows its first message; 23 messages in a 22-line view are an example. |
| GameLoop.UpTimesCounts | app/src/game_loop.rs:1010-1017 | With the corrected bound, pressing Up `k` times from the bottom scrolls by exactly `k`, up to the bound. |
| GameLoop.EveryMessageReachable | app/src/game_loop.rs:973-1017 | With the corrected bound, every message of the log can be shown in a view of at least one line by pressing Up often enough. |
| GameLoop.MessageLogView.constructor | app/src/game_loop.rs:1035-1039 | The message log screen opens at the bottom. |
| GameLoop.MessageLogView.Update | app/src/game_loop.rs:1003-1028 | Any key other than Up and Down closes the screen. Up scrolls as `ScrollUp` says, and Down scrolls back with saturation at the bottom. Other events change nothing, and a scroll within bounds stays within bounds. |
| GameLoop.TrackFor | app/src/game_loop.rs:455-459 | The track after a number of level changes is one of the level tracks. |
| GameLoop.TracksAlternate | app/src/game_loop.rs:455-459 | Each level change switches to the other level track, and every second change comes back to the same one. An even count of changes plays the first track. |
| GameLoop.StepShake | app/src/game_loop.rs:514-521 | A screen shake ends after its last frame. Otherwise its countdown drops by one and its offset is kept. |
| GameLoop.ShakeEnds | app/src/game_loop.rs:514-521 | A shake with countdown `c` lasts exactly `c` more ticks with the same offset, and is gone after the next tick. |
| GameLoop.CountLevelChanges | app/src/game_loop.rs:452-462 | There are never more level changes than events. |
| GameLoop.GameLoopData.constructor | app/src/game_loop.rs:306-370 | A new game loop starts with no cursor, no shake and no level change. It plays the first level's track when a game is loaded, and the menu track otherwise. |
| GameLoop.GameLoopData.AfterWalk | app/src/game_loop.rs:450-464 | Each `ChangeLevel` event among those taken after a walk counts one more level change. After at least one, the track is the level track for the new count; otherwise the track is kept. Cursor and shake are untouched. |
| GameLoop.GameLoopData.AfterTick | app/src/game_loop.rs:512-539 | Without an explosion among the events, the shake counts down and no random draw is used. An explosion starts a two-tick shake one cell to the left or right. The cursor and the music state are kept. |
| GameLoop.GameLoopData.OnInput | app/src/game_loop.rs:442-510 | A bound input leads to `Dispatch` of its action. The cursor goes to the player when aiming starts and is cleared otherwise. An unbound input moves the cursor to the mouse and leads to help for '?'; any other passes the running token on. |
| GameLoop.GameLoopData.AimUpdate | app/src/game_loop.rs:622-664 | Escape cancels. A mouse press commits at the pointer, and Return commits at the cursor when there is one. Otherwise a mouse move or an arrow key moves the cursor, which stays on the map. Ticks leave the cursor alone. |
| GameLoop.Dispatch | app/src/game_loop.rs:445-491 | A bound input does nothing while gameplay is blocked, and otherwise leads to the action, aiming mode or screen its binding names. |
| GameLoop.DispatchInjective | app/src/game_loop.rs:445-491 | When gameplay is not blocked, different actions lead to different outcomes. |
| GameLoop.MouseCursor | app/src/game_loop.rs:493-501 | An unbound mouse move, press or release puts the cursor at the pointer; any other unbound input clears it. |
| GameLoop.KeyDelta | app/src/game_loop.rs:648-654 | The arrow keys step one cell and no other key moves. |
| GameLoop.StepCursor | app/src/game_loop.rs:647-661 | An arrow key moves an existing cursor one cell when the result is on the map and leaves it otherwise. A cursor on the map stays on the map. |
| GameLoop.MoveCursorTo | app/src/game_loop.rs:629-633 | The cursor changes only on a mouse move, and then to the pointer, which is on the map. |
| GameLoop.DropMenuOf | app/src/game_loop.rs:549-559 | The drop menu has one choice per inventory slot, dropping that slot, in slot order, and nothing else. |
| GameLoop.ApplyMenuOf | app/src/game_loop.rs:561-571 | The apply menu has one choice per inventory slot, applying that slot, in slot order, and nothing else. |
| GameLoop.ApplyDescriptionKinds | app/src/game_loop.rs:1265-1281 | Consumables are described as things to consume and weapons as things to equip. The three kinds of ammunition share one description. |
| GameLoop.ConsumeDescription | app/src/game_loop.rs:1265-1281 | The description of each consumable begins "Consume to ". |
| GameLoop.EquipDescription | app/src/game_loop.rs:1265-1281 | The description of each weapon begins "Equip weapon (". |
| GameLoop.InventoryItem | app/src/game_loop.rs:1287 | An item comes only from an existing slot that holds it. |
| GameLoop.ApplyExtendsDrop | app/src/game_loop.rs:1283-1303 | An apply choice's label is the drop choice's label for the same slot, followed by " - " and what applying the item does. Both read "(empty)" for an empty slot. |
| GameLoop.MenuChoiceString | app/src/game_loop.rs:1283-1314 | Every menu choice other than the dummy, which panics, has a non-empty label. The label starts with "(" or a capital letter, given the corrected organ and item tables; see Findings and Left out. |
| GameLoop.HandName | app/src/game_loop.rs:1305-1312 | A hand's label ends in " Hand". |
| GameLoop.AlphabetLetters | app/src/game_loop.rs:1316 | The hotkey alphabet is the 26 lower-case letters in order. |
| GameLoop.MenuEntries | app/src/game_loop.rs:1332-1338 | There is one entry per choice, up to 26. Each entry keeps its choice, takes the next letter as hotkey and is labelled with the letter, ") " and the choice's string. |
| GameLoop.HotkeysDistinct | app/src/game_loop.rs:1332-1338 | No two entries of a menu share a hotkey. |
| GameWorld.World.constructor | game/src/world/mod.rs:27-39 | A new world has empty entity, component, realtime and spatial tables over a grid of the given size. |
| GameWorld.World.UpdateRefusal | game/src/world/spawn.rs:34 | A placement is refused with `DestinationOutOfBounds` exactly when the target cell is off the grid. It is accepted exactly when the target is on the grid and, for a layered entity, its slot there is empty or already the entity's own. |
| GameWorld.World.Update | game/src/world/spawn.rs:34 | Placing an entity fails exactly when `UpdateRefusal` gives an error, and then nothing changes. Otherwise the entity moves to the new slot, leaving its old one, and its location is recorded. Components, realtime components and the live entities are kept. |
| GameWorld.World.UpdateCoord | game/src/lib.rs:428-431 | Moving a placed entity to a cell keeps its layer. It fails exactly when that placement is refused, and then nothing changes; otherwise the entity moves there and nothing else changes. |
| GameWorld.World.RemoveLocation | game/src/world/action.rs:70 | The entity leaves the spatial table and its slot is emptied; the other tables are kept. |
| GameWorld.World.Alloc | game/src/world/spawn.rs:33 | The next entity number is allocated and made live. It has no location, no components and no realtime components, and the tables are kept. |
| GameWorld.World.Free | game/src/world/action.rs:100 | The entity is no longer live; the tables are kept. |
| GameWorld.World.InsertData | game/src/world/spawn.rs:35 | The entity's row becomes the given data laid over its old row (`Overlay`); every other row and table is kept. |
| GameWorld.World.SetData | game/src/lib.rs:345-356 | The entity's row is replaced by the data given; every other row and table is kept. |
| GameWorld.World.RemoveComponents | game/src/world/action.rs:68 | The entity's row leaves the component table, so its data reads as empty; the other tables are kept. |
| GameWorld.World.RemoveRealtimeComponents | game/src/world/action.rs:69 | All the entity's realtime components are removed; everything else is kept. |
| GameWorld.World.InsertRealtime | game/src/world/spawn.rs:88 | The given kind of realtime component is added to the entity's; everything else is kept. |
| GameWorld.World.RemoveRealtime | game/src/world/action.rs:111 | The given kind of realtime component is removed from the entity's, and every other entity's are kept; everything else is kept. |
| GameWorld.World.EntitiesWith | game/src/lib.rs:553-563 | The set holds exactly the entities whose component row satisfies the predicate. |
| GameWorld.World.RemoveEntity | game/src/lib.rs:284 | Returns the entity's old data. The entity leaves the spatial, component and realtime tables and is no longer live. |
| Query.FirstCoord | game/src/world/query.rs:6-10 | A coordinate is found only for the first entity of the set, and it is where the spatial table places that entity. An empty set finds nothing. |
| Query.StairsUpOrExitCoord | game/src/world/query.rs:5-18 | If the first up staircase is placed, its coordinate is returned. Otherwise the first exit's coordinate is returned if that is placed, and `None` if not. A returned coordinate holds an up staircase or an exit and lies on the grid. |
| Query.StairsDownCoord | game/src/world/query.rs:19-25 | Returns the coordinate of the first down staircase when it is placed, and `None` otherwise. A returned coordinate holds a down staircase and lies on the grid. |
| Query.SingleStairsUp | game/src/world/query.rs:5-18 | A world whose only up staircase is placed at `c` yields `c`, whatever its exits. |
| Realtime.FrameDurationValue | game/src/realtime/mod.rs:34 | A frame lasts 1 000 000 / 60 whole microseconds: 16 666 000 nanoseconds. |
| Realtime.AnimationContext.constructor | game/src/realtime/mod.rs:36-39 | The default context has an empty buffer. |
| Realtime.AnimationContext.Tick | game/src/realtime/mod.rs:53-61 | The buffer is extended by the realtime entities in iteration order and then drained. Each buffered entity, in order, is handed one frame, and the buffer ends empty. |
| Realtime.Deserialize | game/src/realtime/mod.rs:46-51 | Deserialisation ignores its input and yields a context with an empty buffer. |
| Realtime.TickProcessesEachOnce | game/src/realtime/mod.rs:53-61 | Starting from an empty buffer, as between ticks, a tick hands a frame to exactly the realtime entities, and to each of them once. |
| Realtime.ProcessedInOrder | game/src/realtime/mod.rs:56-60 | Frames handed out along a strictly increasing order name each entity of the order once, and no other. |
| Reach.Flood | procgen/src/city.rs:606-622 | The breadth-first flood fill from `start` finds exactly the cells reachable from it, `start` included. No step leads out of what it finds. |
| Reach.Components | procgen/src/city.rs:598-627 | The scan partitions the open cells into their connected components. Each part is a component, no two parts share a cell, and together they hold every open cell. |
| Reach.ComponentConnected | procgen/src/city.rs:598-627 | The cells of one component are open and reach each other. |
| Reach.ComponentsMeet | procgen/src/city.rs:598-627 | Two components that share a cell are the same. |
| Reach.Bridge | procgen/src/city.rs:1004-1047 | Opening a cell one step from a cell of each of two components joins the two. |
| Reach.PartitionCount | procgen/src/lib.rs:203-229 | Any two partitions of the same open cells into components have the same number of parts, so the region count does not depend on the order of the scan. |
| Reach.ReachTrans | procgen/src/city.rs:1295-1319 | Reachability is transitive. |
| Reach.ReachReverse | procgen/src/city.rs:1295-1319 | From an open cell, reachability with reversible steps runs both ways. |
| Reach.ClosedContainsReachable | procgen/src/city.rs:606-622 | A set that no step leaves contains everything reachable from its members. |
| CityStreets.Rect.BottomRight | procgen/src/city.rs:41-43 | The bottom-right cell of a non-empty rectangle belongs to it, and no cell of the rectangle lies right of or below it. |
| CityStreets.AppendBuilder | procgen/src/city.rs:96-112 | Keeping a builder that is not too close to any kept builder keeps the builders spaced. The earlier builders are kept in order, and every candidate already considered is either kept or too close to a kept builder. |
| CityStreets.CandidateFacesInward | procgen/src/city.rs:57-92 | Every proposed builder stands at least 12 columns or 9 rows away from the corners, and its first step leads into the grid. |
| CityStreets.Fuel | procgen/src/city.rs:116-131 | A builder has no steps left exactly when it stands off the grid. |
| CityStreets.FuelStep | procgen/src/city.rs:116-131 | A step of a builder on the grid uses up exactly one of its steps left. |
| CityStreets.WorkAppend | procgen/src/city.rs:133-137 | The work left to a list of builders is the sum over its parts. |
| CityStreets.SwapRemoveWork | procgen/src/city.rs:116-131 | `swap_remove` of a builder takes exactly that builder's work out of the total. |
| CityStreets.ReplaceWork | procgen/src/city.rs:116-131 | Replacing one builder changes the total work by the difference of their steps left. |
| CityStreets.TickShrinksWork | procgen/src/city.rs:116-137 | Every tick strictly reduces the builders' total work, so `build_streets` ends. |
| CityStreets.Tick | procgen/src/city.rs:116-131 | A tick keeps the grid valid and of the same size, and either keeps every builder or removes exactly one. |
| CityStreets.BuiltAdvance | procgen/src/city.rs:133-137 | One tick with the draws at the current position leaves the final `Built` result unchanged and strictly reduces the work left, so looping ticks computes `Built`. |
| CityStreets.BuiltOnlyPaves | procgen/src/city.rs:116-137 | Building streets to the end only paves: every cell of the `Built` grid is unchanged or is street. |
| CityStreets.TickOnlyPaves | procgen/src/city.rs:116-131 | A tick keeps the grid's size and only ever paves: every cell is unchanged or is now street. |
| CityStreets.TrimWalkUnfold | procgen/src/city.rs:209-242 | One step of a trim walk from a cell on the grid with no alley around it. One street diagonally ahead ends the run there, and two abandon it. Otherwise the walk goes on one cell further. |
| CityStreets.TrimWalkSound | procgen/src/city.rs:197-244 | Whatever the trim walk finds is a trim run starting at its start cell. |
| CityStreets.TrimWalkComplete | procgen/src/city.rs:197-244 | Every trim run is exactly what the trim walk from its first cell finds. |
| CityStreets.TrimWalk | procgen/src/city.rs:197-244 | A run the trim walk finds is non-empty, starts at the start cell and lies on the grid. |
| CityStreets.NextRowClear | procgen/src/city.rs:268-286 | After a row with no junction, every junction lies in a later row. |
| CityStreets.Widened | procgen/src/city.rs:288-345 | Widening keeps the grid's size. |
| CityStreets.PavingMakesSquares | procgen/src/city.rs:290-311 | The two paving passes turn every street cell into the top-left corner of a two-by-two square of street, cut off at the grid's edge. |
| CityStreets.ExtendedKeepsStreets | procgen/src/city.rs:290-300 | A paving pass leaves every street in place. |
| CityStreets.ExtendedPaves | procgen/src/city.rs:290-300 | A paving pass paves the cell one step past a street in its direction, when that cell is on the grid. |
| CityStreets.ExtendedMeaning | procgen/src/city.rs:290-300 | A paving pass keeps the grid's size. The cell one step past a street in the pass's direction becomes street, and any cell that changes becomes street. |
| CityStreets.ThinningKeeps | procgen/src/city.rs:312-343 | A street survives a thinning pass exactly when it had more than the limit of non-wall neighbours. No other cell changes. |
| CityStreets.ThinnedMeaning | procgen/src/city.rs:312-343 | A thinning pass keeps the grid's size. A cell changes only from street to wall, and a street with at most the limit of non-wall neighbours becomes wall. |
| CityStreets.SplitRectMeaning | procgen/src/city.rs:166-191 | Splitting a rectangle wider than half the grid paves its middle column, and one taller than half the grid its middle row, which wins where the two cross. Each takes the tile of its own coin: alley on an even draw, street otherwise. Every other cell is unchanged, and one draw is used per split made. |
| CityStreets.WalledByMeaning | procgen/src/city.rs:259-265 | A cell is walled up by the trimming exactly when some run holding it has its coin come up even. |
| CityStreets.WallRunsMeaning | procgen/src/city.rs:259-265 | After the runs are walled up, a cell is wall when some run holding it had an even coin, and otherwise keeps its tile. |
| CityStreets.TrimmedOnlyWalls | procgen/src/city.rs:246-266 | Trimming changes a cell only into wall, and only when it lay on a trim run proposed from an edge cell of the old grid. |
| CityStreets.Map1.constructor | procgen/src/city.rs:47-53 | A new map is a 50 by 25 grid of wall with no builders. |
| CityStreets.Map1.Candidates | procgen/src/city.rs:57-93 | The candidates are exactly the builders proposed at the grid's edge cells. |
| CityStreets.Map1.AddStreetBuilders | procgen/src/city.rs:55-114 | The grid is unchanged and the old builders are kept in front. Every builder added is a candidate, spacing is kept, and every candidate ends up kept or too close to a kept builder. |
| CityStreets.Map1.CloseToAny | procgen/src/city.rs:97-110 | True exactly when the candidate is too close to some builder already kept. |
| CityStreets.Map1.BuildStreetsTick | procgen/src/city.rs:116-131 | Draws a builder index, then a coin when that builder stands on ground. The new grid and builders are the `Tick` of the old ones with those draws. |
| CityStreets.Map1.BuildStreets | procgen/src/city.rs:133-137 | The grid and the draw position become `Built` of the old grid and builders: ticks repeated until no builder is left. No builder remains, and every cell is unchanged or now street (`OnlyPaved`). |
| CityStreets.Map1.BuildStreetsLoop | procgen/src/city.rs:133-137 | The loop ends with no builders left, with the grid and draw position equal to `Built` of the old ones. |
| CityStreets.Map1.BuildStreetsStep | procgen/src/city.rs:134-136 | One iteration keeps the final `Built` result and strictly reduces the builders' work. |
| CityStreets.Map1.WallRun | procgen/src/city.rs:146-159 | Returns the length of the wall run from `c` rightwards or downwards: the run's cells are walls on the grid, and the next cell is not a wall. |
| CityStreets.Map1.PaveRun | procgen/src/city.rs:174-191 | Exactly the `n` cells of the run take the tile given, and every other cell is unchanged. |
| CityStreets.Map1.SplitRectangles | procgen/src/city.rs:139-194 | The grid and the draw position become `Split` of the old grid: the cells are scanned in row-major order, and each wall cell not yet seen starts a rectangle of walls that is split. The builders are kept, and every cell is unchanged or now ground. |
| CityStreets.Map1.SplitFrom | procgen/src/city.rs:141-193 | For one wall cell of the scan not yet seen, the grid, the seen grid and the draw position become `SplitStep` of the old ones: the rectangle of walls starting there is marked seen and split. |
| CityStreets.Map1.SplitRect | procgen/src/city.rs:166-191 | The grid and the draw position become `SplitRectResult` of the old ones; `SplitRectMeaning` states that result cell by cell. |
| CityStreets.Map1.SplitByColumn | procgen/src/city.rs:167-178 | The grid and draw position become `ColumnSplit` of the old ones: the middle column paved with the coin's tile when the rectangle is wider than half the grid. |
| CityStreets.Map1.SplitByRow | procgen/src/city.rs:179-191 | The grid and draw position become `RowSplit` of the old ones: the middle row paved with the coin's tile when the rectangle is taller than half the grid. |
| CityStreets.Map1.MarkSeen | procgen/src/city.rs:164-166 | Exactly the cells of the rectangle become seen; the rest of the seen grid is unchanged. |
| CityStreets.Map1.CheckTrimCandidate | procgen/src/city.rs:197-244 | The loop returns exactly what the trim walk from the edge cell finds, in the direction away from its edge. |
| CityStreets.Map1.TrimStreets | procgen/src/city.rs:246-266 | The grid and the draw position become `Trimmed` of the old grid: the trim runs proposed from the edge cells, shuffled, each walled up when its coin comes up even. The builders are kept. |
| CityStreets.Map1.CollectTrimCandidates | procgen/src/city.rs:247-257 | The candidates are `TrimRows` of the grid: the trim run of every edge ground cell that has one, scanned row by row. |
| CityStreets.Map1.CollectTrimRow | procgen/src/city.rs:247-257 | One row of the scan appends exactly that row's trim runs. |
| CityStreets.Map1.WallUpRuns | procgen/src/city.rs:259-265 | The grid becomes `WallRuns` of the old grid with one coin drawn per run, so the draw position advances by the number of runs. |
| CityStreets.Map1.WallUpRun | procgen/src/city.rs:261-263 | Exactly the cells of the run become wall; every other cell keeps its tile. |
| CityStreets.Map1.IsBoringBeforeTrimming | procgen/src/city.rs:268-286 | True exactly when no ground cell has three ground neighbours. |
| CityStreets.Map1.FindJunctionInRow | procgen/src/city.rs:269-285 | Returns the first junction of row `y`, or the width when the row has none. |
| CityStreets.Map1.IsBoring | procgen/src/city.rs:360-367 | True exactly when no cell of the grid is alley. |
| CityStreets.Map1.WidenStreets | procgen/src/city.rs:288-345 | The grid becomes `Widened` of the old grid: the two paving passes, then the two thinning passes. The builders are kept. |
| CityStreets.GenerateAttempt | procgen/src/city.rs:369-389 | A successful round yields a valid 50 by 25 map with no builders left. Its grid is `Accepted`: the widening of a trimmed split grid that had a junction before trimming (`is_boring_before_trimming` false) and still has an alley after it (`is_boring` false). |
| CityStreets.Extend | procgen/src/city.rs:290-311 | The paving loop builds exactly the paved grid `Extended`. |
| CityFootpaths.FromTile1 | procgen/src/city.rs:405-414 | Converting a first-map tile never yields a footpath and loses nothing: converting back gives the original tile. |
| CityFootpaths.FromGrid1 | procgen/src/city.rs:405-414 | The second map has the size of the first, and every cell holds the first map's tile under the conversion, never a footpath. |
| CityFootpaths.CornersAround | procgen/src/city.rs:428-457 | The count of notched footpath corners around a cell is positive exactly when one of the given neighbours is such a corner (four footpath neighbours, three street or alley neighbours and one wall). |
| CityFootpaths.Paved | procgen/src/city.rs:417-427 | The first footpath pass keeps the grid's size. |
| CityFootpaths.WithFootpath | procgen/src/city.rs:416-459 | Both footpath passes together keep the grid's size. |
| CityFootpaths.FootpathOnlyReplacesWalls | procgen/src/city.rs:416-459 | Adding the footpath changes a cell only by turning a wall into a footpath; streets and alleys stay where they were. |
| CityFootpaths.StreetsAreLined | procgen/src/city.rs:417-427 | After the footpath is added, no street cell has a wall on any of its eight sides within the grid. |
| CityFootpaths.Map2.FromMap1 | procgen/src/city.rs:405-414 | The second map is the tile-by-tile conversion of the first map's grid. |
| CityFootpaths.Map2.AddFootpath | procgen/src/city.rs:416-459 | The new grid is the result of both footpath passes on the old grid, each reading the grid before it. |
| CityFootpaths.Generate | procgen/src/city.rs:475-480 | A generated second map is new, well-formed and of the street map's fixed size. |
| CityBlocks.FromTile2 | procgen/src/city.rs:586-596 | Converting a second-map tile never yields a floor and loses nothing: converting back gives the original tile. |
| CityBlocks.FromGrid2 | procgen/src/city.rs:586-596 | The third map has the size of the second, and every cell holds the second map's tile under the conversion, never a floor. |
| CityBlocks.SplitHorizontal | procgen/src/city.rs:525-553 | Cutting along a row divides the block's cells into three disjoint parts: those above the row, those below it and those on it. |
| CityBlocks.SplitVertical | procgen/src/city.rs:555-583 | Cutting along a column divides the block's cells into three disjoint parts: those left of the column, those right of it and those on it. |
| CityBlocks.BoundingBox | procgen/src/city.rs:507-523 | The rectangle holds every cell of the block, and for a non-empty block each of its four sides touches a cell. For an empty block the extremes stay at the 32-bit limits and the size wraps round to two by two. |
| CityBlocks.ExtentAdd | procgen/src/city.rs:512-517 | Taking one more cell into account keeps the running extremes the true minimum and maximum of the cells seen. |
| CityBlocks.BoxMeaning | procgen/src/city.rs:507-523 | The bounding box holds every cell of the block, and for a non-empty block each of its four sides touches a cell. The box of an empty block is the wrapped-around two by two rectangle at the 32-bit maximum. |
| CityBlocks.ExtentUnique | procgen/src/city.rs:508-518 | The least and greatest column and row of a set of cells are unique. |
| CityBlocks.DrawInclusive | procgen/src/city.rs:667-699 | A draw for `gen_range(lo..=hi)` lies between `lo` and `hi` inclusive. |
| CityBlocks.CorridorCutMeaning | procgen/src/city.rs:664-686 | A corridor cut at line `k` walls exactly the block's cells on lines `k` and `k + 2`, the first part is the cells before `k` and the second the cells after `k + 2`, all within the block. |
| CityBlocks.WallCutMeaning | procgen/src/city.rs:687-704 | A wall cut at line `k` walls exactly the block's cells on line `k`, and the two parts are the cells before and after it, all within the block. |
| CityBlocks.CutOfThin | procgen/src/city.rs:657-660 | A block whose box is one cell wide or high is not cut, and no draw is used. |
| CityBlocks.CutOfCoin | procgen/src/city.rs:661-686 | A box more than 7 high and 11 wide draws a coin: an even coin at depth above 0 makes a corridor cut, anything else a wall cut; the line is the next draw. |
| CityBlocks.CutOfNoCoin | procgen/src/city.rs:687-707 | A smaller box more than 6 high or 10 wide gets a wall cut at the next draw, without a coin; otherwise nothing is cut. |
| CityBlocks.CutOfSmaller | procgen/src/city.rs:656-710 | Each part of a cut is strictly smaller than the block and lies within it, as does the wall, so the recursion ends. |
| CityBlocks.SplitBlockCut | procgen/src/city.rs:656-710 | When the block is cut, splitting it is walling up the cut and then splitting its two parts one level deeper. |
| CityBlocks.SplitBlockOnlyWalls | procgen/src/city.rs:656-710 | Splitting a floor block changes only cells of the block, and each only into wall. |
| CityBlocks.Extent | procgen/src/city.rs:508-518 | The loop's four results are the least and greatest column and row of the block's cells, or the 32-bit limits for an empty block. |
| CityBlocks.WallSet | procgen/src/city.rs:598-627 | The set holds exactly the grid's wall cells. |
| CityBlocks.Cells | procgen/src/city.rs:598-627 | The list holds each block's cells, in the blocks' order. |
| CityBlocks.Floored | procgen/src/city.rs:629-654 | Adding the floor keeps the grid's size. |
| CityBlocks.FloorCarving | procgen/src/city.rs:629-654 | A cell changes when the floor is added exactly when it is a wall with walls on all eight sides, and it then becomes floor. |
| CityBlocks.FloorEnclosed | procgen/src/city.rs:638-648 | Every neighbour of a new floor cell is inside the grid and is wall or floor afterwards, so rooms never open onto the street. |
| CityBlocks.FloorsFromBlocks | procgen/src/city.rs:629-654 | When the blocks partition the wall cells into connected components, the floor blocks are the interiors of those components. |
| CityBlocks.FloorsAreOfComponents | procgen/src/city.rs:629-654 | Every floor block is the set of interior cells of one connected component of walls. |
| CityBlocks.InteriorsCovered | procgen/src/city.rs:629-654 | Every wall cell with eight wall neighbours belongs to some floor block. |
| CityBlocks.Cleaned | procgen/src/city.rs:712-727 | Cleaning the corridors keeps the grid's size. |
| CityBlocks.CornerCleaning | procgen/src/city.rs:712-727 | A cell changes when the corridors are cleaned exactly when it is a wall with walls on all four diagonals, and it then becomes floor. |
| CityBlocks.Map3.FromMap2 | procgen/src/city.rs:586-596 | The third map is the tile-by-tile conversion of the second map's grid. |
| CityBlocks.Map3.Blocks | procgen/src/city.rs:598-627 | The blocks are the connected components of the wall cells under the eight directions: disjoint, together all the walls, each connected and closed. |
| CityBlocks.Map3.FloorOf | procgen/src/city.rs:633-650 | The floor block of a block is the set of its cells with eight wall neighbours. |
| CityBlocks.Map3.FloorBlocks | procgen/src/city.rs:629-654 | There is exactly one floor block per wall component (`InteriorsOfBlocks`): the components partition the walls, and each floor block is the interior of its component. |
| CityBlocks.Map3.FloorsOf | procgen/src/city.rs:632-651 | One floor block per block, in the same order, each the block's interior. |
| CityBlocks.Map3.AddFloor | procgen/src/city.rs:629-654 | The new grid is the floor-carved old grid. The returned floor blocks are the interiors of the old grid's wall components, exactly one per component. |
| CityBlocks.Map3.WallUp | procgen/src/city.rs:683-688 | The given cells become wall and every other cell keeps its tile. |
| CityBlocks.Map3.SplitFloorBlock | procgen/src/city.rs:656-710 | The grid and the draw position become `SplitBlock` of the old ones: cut the block as its bounding box and coin say, wall up the cut, and split both parts one level deeper. By `SplitBlockOnlyWalls` only cells of the block turn into wall. |
| CityBlocks.Map3.CutCorridor | procgen/src/city.rs:664-686 | One draw picks the line `k`. Exactly the block's cells on lines `k` and `k + 2` become wall, and the parts returned are the cells before line `k` and after line `k + 2` (`CorridorCut`, stated cell by cell in `CorridorCutMeaning`). |
| CityBlocks.Map3.CutOnce | procgen/src/city.rs:687-704 | One draw picks the line `k`. Exactly the block's cells on line `k` become wall, and the parts returned are the cells before and after it (`WallCut`, stated cell by cell in `WallCutMeaning`). |
| CityBlocks.Map3.CorridorAndSplit | procgen/src/city.rs:661-686 | After the coin, a corridor cut and both recursive splits give the grid and draw position of `SplitBlock`. |
| CityBlocks.Map3.WallAndSplit | procgen/src/city.rs:687-707 | A wall cut and both recursive splits give the grid and draw position of `SplitBlock`. |
| CityBlocks.Map3.SplitBoth | procgen/src/city.rs:684-707 | Splitting the two parts in turn gives the grid and draw position of `SplitParts`. |
| CityBlocks.Map3.CleanCorridors | procgen/src/city.rs:712-727 | The new grid is the corridor-cleaned old grid, computed from a copy. |
| CityBlocks.ProperPart | procgen/src/city.rs:656-710 | A part of a block that misses a column or row the block touches has fewer cells than the block. |
| CityBlocks.Generate | procgen/src/city.rs:744-753 | A generated third map is new, well-formed and of the street map's fixed size. |
| CityFeatures.FromTile4 | procgen/src/city.rs:1114-1127 | Converting a room-map tile loses nothing (converting back gives it again), and the converted tile is solid exactly when the original was. |
| CityFeatures.FromGrid4 | procgen/src/city.rs:1114-1127 | The feature map has the room map's size, and every cell holds the room map's tile under the conversion. |
| CityFeatures.CornerCoord | procgen/src/city.rs:1204-1210 | The corner's coordinate is 0 or the grid's width across and 0 or its height down, by which of the four corners is named. |
| CityFeatures.RingClearedKept | procgen/src/city.rs:1236-1265 | Clearing more tiles never undoes a cleared ring: once a cell's neighbours hold no wall, door or debris, they still hold none. |
| CityFeatures.ClearedTrans | procgen/src/city.rs:1236-1265 | Two rounds of clearing, one after the other, are themselves a clearing of the first grid. |
| CityFeatures.FirstRingStep | procgen/src/city.rs:1238-1250 | A cell cleared next to a tentacle, while it was still a wall, door or debris, is in the first ring. |
| CityFeatures.SecondRingStep | procgen/src/city.rs:1251-1264 | Clearing round one more cell of the border keeps the grid a clearing of the original, keeps the earlier border rings cleared, and changes only cells in the rings. |
| CityFeatures.EdgeDebris | procgen/src/city.rs:1267-1273 | Putting debris round the edge keeps the grid's size. |
| CityFeatures.EdgeDebrisSeals | procgen/src/city.rs:1267-1273 | Afterwards every edge cell is solid and every inner cell is unchanged; a cell changes exactly when it is an open edge cell. |
| CityFeatures.EdgeDebrisIdempotent | procgen/src/city.rs:1267-1273 | Putting debris round the edge twice gives the same grid as doing it once. |
| CityFeatures.OpenSet | procgen/src/city.rs:1096-1098 | The set holds exactly the grid's open cells: those that are not wall, debris or tentacle. |
| CityFeatures.InBounds | procgen/src/city.rs:1184-1189 | The list keeps exactly the listed coordinates that lie on the grid, and never grows. |
| CityFeatures.Map5.FromMap4 | procgen/src/city.rs:1114-1127 | The feature map is the room map's grid converted tile by tile, with no tentacle cells yet. |
| CityFeatures.Map5.PlaceTentacles | procgen/src/city.rs:1182-1190 | The given cells that lie on the grid become tentacle and are appended to the tentacle list in order; every other cell is unchanged. |
| CityFeatures.Map5.StampTentacle | procgen/src/city.rs:1184-1189 | One cell becomes tentacle and is recorded, when it lies on the grid; nothing else changes. |
| CityFeatures.Map5.AddStairs | procgen/src/city.rs:1198-1234 | No stairs are placed exactly when no floor cell at Manhattan distance less than 10 from the corner is free of wall neighbours; otherwise one such cell, and only it, becomes the given stairs tile and its coordinate is returned. |
| CityFeatures.Map5.ClearAroundTentacle | procgen/src/city.rs:1236-1265 | Only walls, doors and debris are turned into floor. Afterwards no neighbour of a tentacle cell, and no neighbour of a cell cleared in the first round, holds a wall, door or debris. Every cell that changed is in the first ring round the tentacle (`InFirstRing`) or next to a cell of it (`ChangedInRings`). |
| CityFeatures.Map5.ClearFirstRing | procgen/src/city.rs:1237-1250 | The first loop clears every tentacle's neighbours, only changes cells in the rings, and returns a border holding every cell it cleared, each in the first ring. |
| CityFeatures.Map5.ClearSecondRing | procgen/src/city.rs:1251-1264 | The second loop clears the neighbours of every border cell, keeping the grid a clearing of the original and the changes within the rings. |
| CityFeatures.Map5.ClearNeighbours | procgen/src/city.rs:1239-1251 | Clearing round one cell leaves no wall, door or debris among its neighbours and changes no other cell. Every cell it cleared is returned; each is a neighbour that was a wall, door or debris and is now floor. |
| CityFeatures.Map5.AddDebrisAroundEdge | procgen/src/city.rs:1267-1273 | The new grid is the old one with debris on every open edge cell. |
| CityFeatures.Map5.IsPathBetween | procgen/src/city.rs:1295-1319 | The answer is true exactly when the two cells are equal or the end can be reached from the start through open cells by the four cardinal steps. |
| CityFeatures.InBoundsSnoc | procgen/src/city.rs:1184-1189 | Filtering a list with one more coordinate appends that coordinate exactly when it lies on the grid. |
| CityFeatures.StairsAlone | procgen/src/city.rs:1226-1228 | Placing stairs on a candidate changes only that cell, which was floor. |
| CityFeatures.InteriorPathSurvives | procgen/src/city.rs:1342-1346 | A path through open cells that stays off the grid's edge is still open after the debris edge is laid. |
| CityFeatures.OneRowPasses | procgen/src/city.rs:1341-1345 | On a one-row grid with both staircases at the ends of three open cells, the stairs are distinct and joined by a path. |
| CityFeatures.EdgePathCut | procgen/src/city.rs:1341-1346 | On that grid the path check passes, yet after the debris edge is laid the staircases are no longer joined: the check runs before the edge, so it does not promise a path in the finished map. |
| CityFeatures.Generate | procgen/src/city.rs:1321-1350 | A generated feature map is new, well-formed and of the street map's fixed size. Its grid is the debris-edged form of a grid that passed the checks: a down and an up staircase on different cells, joined by a path through open cells (`PassedChecks`). |
| CityRooms.FromTile3 | procgen/src/city.rs:856-866 | Converting a third-map tile never yields debris or a door and loses nothing; the converted tile is open exactly when the original is not a wall. |
| CityRooms.FromGrid3 | procgen/src/city.rs:856-866 | The room map has the third map's size, and every cell holds the third map's tile under the conversion, never debris or a door. |
| CityRooms.OpenSet | procgen/src/city.rs:774-776 | The set holds exactly the grid's open cells: those that are not wall or debris. |
| CityRooms.BoundaryOf | procgen/src/city.rs:940-953 | An area's boundary is exactly the walls one cardinal step from one of its cells that continue straight through, east-west or north-south. |
| CityRooms.Key | procgen/src/city.rs:796-807 | The key of a pair of area indices holds the same two indices, the smaller first. |
| CityRooms.KeySymmetric | procgen/src/city.rs:796-807 | The key ignores the order in which the pair is given. |
| CityRooms.SharedBoundaries | procgen/src/city.rs:970-981 | The shared-boundary grid is square, one row and one column per area. |
| CityRooms.SharedBoundaryMeaning | procgen/src/city.rs:796-807 | The shared boundary of two areas is the same whichever way round they are asked for: the walls on both boundaries, and nothing for an area with itself. |
| CityRooms.NeighboursFrom | procgen/src/city.rs:982-996 | An area's neighbours are exactly the areas it shares a boundary wall with. |
| CityRooms.ConsIncreasing | procgen/src/city.rs:982-996 | A strictly increasing list stays strictly increasing with a smaller index in front. |
| CityRooms.NeighboursIncreasing | procgen/src/city.rs:982-996 | Each area's neighbours are listed in strictly increasing index order, so none is listed twice. |
| CityRooms.SharedBoundaryIsSharedWall | procgen/src/city.rs:968-1002 | A wall in the shared boundary of two areas lies on the boundaries of two disjoint components of the open cells. |
| CityRooms.BoundaryNeighbour | procgen/src/city.rs:940-953 | Every boundary wall is one cardinal step from a cell of its area. |
| CityRooms.DoorOpens | procgen/src/city.rs:1029 | Putting a door in a cell makes it open and closes no other cell. |
| CityRooms.DoorJoins | procgen/src/city.rs:1004-1047 | A door in a wall two areas share joins them: afterwards every cell of one can be reached from every cell of the other. |
| CityRooms.DisconnectedRooms.AllDisconnected | procgen/src/city.rs:819-833 | The pairs kept are exactly the pairs of different areas that share a boundary, each under its key. |
| CityRooms.DisconnectedRooms.Connect | procgen/src/city.rs:835-842 | Connecting two areas removes their pair, given in either order, and keeps every other pair. |
| CityRooms.DisconnectedRooms.Pairs | procgen/src/city.rs:844-848 | The listed pairs are exactly the pairs kept. |
| CityRooms.Map4.FromMap3 | procgen/src/city.rs:856-866 | The room map is the third map's grid converted tile by tile. |
| Geometry.CoordsWhere | procgen/src/city.rs:869-883 | The collected cells are exactly the grid's cells that pass the filter. |
| Geometry.CoordsWhereRowMajor | procgen/src/city.rs:869-883 | They are listed in row-major order, as `enumerate` visits the grid, which fixes the list the shuffle starts from. |
| CityRooms.WalkStarts | procgen/src/city.rs:869-883 | The list holds exactly the outdoor cells of the centre: column above 10 and below the width less 10, row above 7 and below the height less 7. |
| CityRooms.DebrisSpots | procgen/src/city.rs:899-913 | The list holds exactly the open cells that are indoors or, when outdoors, in the centre. |
| CityRooms.WalkStep | procgen/src/city.rs:890-895 | A walk moves one step in the drawn direction when that cell is on the grid and outdoors, and otherwise stays. |
| CityRooms.WalkOutdoors | procgen/src/city.rs:886-898 | A walk from an outdoor cell only ever turns outdoor cells into debris. |
| CityRooms.WalkLeavesDebris | procgen/src/city.rs:888-889 | A walk of at least one step leaves debris at its start, and never removes debris. |
| CityRooms.ScatterMeaning | procgen/src/city.rs:916-920 | Scattering turns exactly the popped spots into debris; every other cell keeps its tile. |
| CityRooms.StartWalksMeaning | procgen/src/city.rs:885-899 | Walks from outdoor starts only put debris on outdoor cells, and each of the last four starts, popped in turn, becomes debris. |
| CityRooms.WalkPhaseMeaning | procgen/src/city.rs:869-900 | The walk phase only puts debris on outdoor cells, and the last four of the shuffled starts are outdoor centre cells that become debris. |
| CityRooms.ScatterPhaseMeaning | procgen/src/city.rs:901-921 | After the scatter phase a cell is debris exactly when it is among the last twenty shuffled debris spots, and otherwise keeps its tile; each such cell was a debris spot. |
| CityRooms.DebrisOnlyOpen | procgen/src/city.rs:868-922 | Adding debris changes only open cells, each into debris. |
| CityRooms.Map4.AddDebris | procgen/src/city.rs:868-922 | The grid and draw position become `Debrised` of the old ones: the walk phase and then the scatter phase. By `DebrisOnlyOpen` only open cells change, each into debris. |
| CityRooms.Map4.DebrisWalks | procgen/src/city.rs:869-900 | The grid and draw position become `WalkPhase` of the old ones: the outdoor centre cells shuffled, and walks of eight steps from the last four. |
| CityRooms.Map4.ScatterDebris | procgen/src/city.rs:901-921 | The grid and draw position become `ScatterPhase` of the old ones: exactly the last twenty of the shuffled debris spots become debris, and the shuffle's draws are used. |
| CityRooms.Map4.DebrisWalk | procgen/src/city.rs:889-898 | The grid becomes `Walk` of the old grid from the start cell with the next eight draws, and the draw position advances by eight. |
| CityRooms.Map4.ShuffleStarts | procgen/src/city.rs:869-884 | The walk starts are `ShuffledStarts` of the grid with the draws from the current position, all on the grid. |
| CityRooms.Map4.WalksFrom | procgen/src/city.rs:885-899 | The four walks give the grid and draw position of `StartWalks`. |
| CityRooms.Map4.NextWalk | procgen/src/city.rs:886-898 | One more walk from a popped start uses eight draws and keeps the final `Walks` result. |
| CityRooms.Map4.ShuffleSpots | procgen/src/city.rs:899-914 | The debris spots are `ShuffledSpots` of the grid with the draws from the current position, all on the grid. |
| CityRooms.Map4.ScatterFrom | procgen/src/city.rs:915-920 | The grid becomes `Scatter` of the old grid over the last twenty spots. |
| CityRooms.Map4.NextStep | procgen/src/city.rs:888-897 | One step of a walk uses one draw and keeps the final `Walk` result. |
| CityRooms.Map4.DebrisStep | procgen/src/city.rs:889-896 | The walk's cell becomes debris, and the next cell is the `WalkStep` in the drawn direction. |
| CityRooms.Map4.Areas | procgen/src/city.rs:924-966 | The areas are the connected components of the open cells under cardinal steps, each recorded by its boundary walls. |
| CityRooms.Map4.GetAdjacencies | procgen/src/city.rs:968-1002 | The adjacencies hold the areas, the walls each pair of areas shares, and each area's list of neighbours. |
| CityRooms.Map4.AddDoors | procgen/src/city.rs:1004-1047 | Only walls shared by two different areas change, each into a door. The areas form a spanning tree from the drawn start: along every walk through neighbouring areas from the start, the areas are linked by doors (`Spanned`). |
| CityRooms.Map4.PlaceDoors | procgen/src/city.rs:1004-1047 | Doors go only in planned shared walls. The spanning-tree phase leaves every area reachable from the start linked to it by doors (`Spanned`). The remaining pairs are real neighbouring areas, and the last two thirds of them, as shuffled, are each joined by a door. |
| CityRooms.Map4.ExtraDoors | procgen/src/city.rs:1033-1046 | Doors go only in planned shared walls, and no door is removed. The last `2 * n / 3` of the `n` shuffled pairs are each joined by a door when their shared boundary is not empty. |
| CityRooms.Map4.SpanningTreeDoors | procgen/src/city.rs:1004-1032 | The start area is the first draw modulo the number of areas. Doors go only in planned shared walls, the disconnected-room set stays well-formed, and afterwards the start is linked by doors to every area reachable from it (`Spanned`). |
| CityRooms.Map4.VisitNeighbours | procgen/src/city.rs:1013-1031 | Visiting an area adds its unseen neighbours to the seen set and the queue and nothing else (`Visited`). Each newly seen area is joined to the visited one by a door (`JoinedNew`), and no door is removed. |
| CityRooms.Map4.PlaceDoor | procgen/src/city.rs:1017-1030 | No door is placed exactly when the shared boundary of the two areas is empty, and the grid is then unchanged. Otherwise exactly one cell of that shared boundary becomes a door, which joins the two areas. |
| CityRooms.Map4.ShuffledPairs | procgen/src/city.rs:1033-1034 | The remaining pairs, shuffled, are real pairs of areas with a non-empty shared boundary, the smaller index first. |
| CityRooms.Map4.ExtraDoor | procgen/src/city.rs:1035-1045 | One more pair popped is joined by a door when its shared boundary is not empty, and every pair joined before stays joined. |
| CityRooms.Map4.VisitNext | procgen/src/city.rs:1012-1031 | One turn of the spanning-tree loop keeps the tree invariant (`TreeInv`): queued areas are seen, every seen area is visited or queued and linked to the start by doors, and every neighbour of a visited area is seen. The unseen areas or the queue shrink. |
| CityRooms.Map4.JoinNeighbour | procgen/src/city.rs:1016-1029 | Joining a newly seen neighbour puts a door in their shared boundary, so the two areas are joined, and removes no door. |
| CityRooms.JoinedKept | procgen/src/city.rs:1004-1047 | Two areas joined by a door stay joined while no door is removed. |
| CityRooms.DoorLinkedStep | procgen/src/city.rs:1004-1032 | An area linked to the start and joined to another links that other area to the start. |
| CityRooms.SpannedKept | procgen/src/city.rs:1033-1046 | A spanning tree of doors stays one while no door is removed, so the extra doors keep it. |
| CityRooms.ClosedSpans | procgen/src/city.rs:1012-1032 | When every neighbour of a seen area is seen and every seen area is linked to the start, the doors span everything reachable from the start. |
| CityRooms.TreeStep | procgen/src/city.rs:1012-1031 | Visiting one queued area keeps the spanning-tree invariant. |
| CityRooms.DoorsInShared | procgen/src/city.rs:1004-1047 | Doors placed only in the planned walls are doors in shared walls. |
| CityRooms.SharedWallValid | procgen/src/city.rs:1004-1047 | A shared wall is a cell of the grid. |
| CityRooms.Indices | procgen/src/city.rs:1007-1011 | The index set holds exactly the area indices. |
| CityRooms.IndicesShrink | procgen/src/city.rs:1014-1015 | Seeing a new area leaves fewer areas unseen. |
| CityRooms.PlanFromAdjacencies | procgen/src/city.rs:968-1047 | The adjacencies give a usable door plan: neighbours are real areas and every shared boundary consists of shared walls of the grid. |
| CityRooms.NonEmptyAreas | procgen/src/city.rs:1007 | A map with an open cell has at least one area, so drawing the starting area cannot fail. |
| CityRooms.Generate | procgen/src/city.rs:1066-1072 | A generated room map is new, well-formed and of the street map's fixed size. |
| River.ValidateRiver | procgen/src/lib.rs:136-158 | The river is accepted exactly when no nine consecutive cells make four equal steps followed by four equal steps in another direction. |
| River.SameSteps | procgen/src/lib.rs:139-145 | One inner loop reports whether the given number of steps from a window position all equal the first of them. |
| River.ShortRiverValid | procgen/src/lib.rs:136-158 | A river of fewer than nine cells has no window and is always accepted. |
| River.StraightRiverValid | procgen/src/lib.rs:136-158 | A river that repeats one step throughout is accepted. |
| River.BendRefused | procgen/src/lib.rs:136-158 | A river with four equal steps followed by four equal steps in a different direction anywhere along it is refused. |
| River.FromRiver | procgen/src/lib.rs:182-188 | The grid has the given size, and a cell is water exactly when it is on the river. |
| River.Widened | procgen/src/lib.rs:190-201 | Widening keeps the grid's size. |
| River.WidenRiver | procgen/src/lib.rs:190-201 | The result is the widened grid, computed from a copy of the input. |
| River.WidenMeaning | procgen/src/lib.rs:190-201 | Widening only adds water: water stays water, and land becomes water exactly when one of its eight neighbours was water. |
| River.LandSet | procgen/src/lib.rs:203-229 | The set holds exactly the land cells. |
| River.ValidateNoLoops | procgen/src/lib.rs:203-229 | The land can be split into connected regions by cardinal steps, and the answer is true exactly when every such split has two regions. |
| River.EdgePoint | procgen/src/lib.rs:247-258 | Each position of the border walk is a cell on the rectangle's edge. |
| River.EdgeWalk | procgen/src/lib.rs:247-258 | The border walk has one position per edge cell, two widths plus two heights less the four corners, each the corresponding border point. |
| River.EdgeWalkCovers | procgen/src/lib.rs:247-258 | Every edge cell of the rectangle is on the border walk. |
| River.LandToWaterSnoc | procgen/src/lib.rs:250-255 | Walking one more cell adds a land-to-water transition exactly when the walk was on land and the new cell is water, and the walk then ends on the new cell. |
| River.TransitionsBalance | procgen/src/lib.rs:246-260 | A walk that starts on land enters the water as often as it leaves it, plus one when it ends in water. |
| River.EdgeCells | procgen/src/lib.rs:247-258 | The cells along the town border walk, one per border position. |
| River.TownPointInBounds | procgen/src/lib.rs:233-261 | Every cell of the town square around an accepted point lies in the grid. |
| River.IsPointValidForRiverTown | procgen/src/lib.rs:233-261 | A point is accepted exactly when it is water, the town square around it fits in the grid, its top-left corner is land, and walking its border from there crosses from land into water exactly twice. |
| River.CellsAlong | procgen/src/lib.rs:247-258 | The grid cells under a walk, one per position. |
| River.WalkTownEdge | procgen/src/lib.rs:246-260 | The walk reports whether the whole town border lies in the grid, and if so counts its land-to-water transitions. |
| River.WalkCells | procgen/src/lib.rs:246-260 | The walk stays in the grid exactly when every position does, and then counts the land-to-water transitions along it. |
| River.OffGridWalk | procgen/src/lib.rs:256-258 | A border position off the grid means the town square does not fit. |
| River.WalkReachesCorner | procgen/src/lib.rs:246-260 | A border walk that stays in the grid means the town square fits. |
| River.TownCandidates | procgen/src/lib.rs:263-280 | Every candidate is a river cell that is a valid town point. |
| River.TownCandidatesComplete | procgen/src/lib.rs:263-280 | Every river cell in the range that is a valid town point is a candidate. |
| River.GetTownCandidatePositions | procgen/src/lib.rs:263-280 | There are two candidate lists, one for ten cells either side of a quarter of the way along the river and one for four fifths of the way, each holding its range's valid town points in river order. |
| River.CandidatesIn | procgen/src/lib.rs:269-277 | The search of one range finds exactly its candidates, in river order. |
| River.InSomeTownSnoc | procgen/src/lib.rs:285-296 | A cell lies in one of the towns placed so far plus one more exactly when it lies in an earlier town or in the new one. |
| River.MakeTowns | procgen/src/lib.rs:282-298 | One centre is drawn from each candidate list, and the output is the input with every cell of each centre's town square turned to water. |
| River.StampTown | procgen/src/lib.rs:289-295 | Every cell of one town square becomes water and every other cell keeps its value. |
| Spawn.MakePlayer | game/src/world/spawn.rs:15-29 | The player's data is a character with the player tile and a light, and nothing else: not an NPC, not solid, no money. |
| Spawn.InsertEntityData | game/src/world/spawn.rs:32-37 | Into a free location, a newly allocated entity is placed and given exactly the data; nothing else in the world changes. |
| Spawn.SpawnEntity | game/src/world/spawn.rs:39-47 | The spawn fails exactly when the location is off the grid or its layer slot is taken, and then places nothing; otherwise a newly allocated entity takes the slot with exactly the data and nothing else changes. |
| Spawn.SpawnAt | game/src/world/spawn.rs:39-47 | A spawn on one layer of one cell fails exactly when that slot is taken; on success the new entity is in the slot with the data and has no realtime components. |
| Spawn.SpawnWall | game/src/world/spawn.rs:49-59 | A wall goes on the feature layer, fails exactly when that slot is taken, and is solid, stops particles and is fully opaque. |
| Spawn.SpawnDebris | game/src/world/spawn.rs:61-69 | Debris goes on the feature layer, fails exactly when that slot is taken, and is solid but lets particles through. |
| Spawn.SpawnDebrisBurning | game/src/world/spawn.rs:71-139 | Burning debris goes on the feature layer, fails exactly when that slot is taken, is solid and lit, and gets flicker and particle-emitter realtime components. |
| Spawn.SpawnTentacle | game/src/world/spawn.rs:141-149 | A tentacle goes on the feature layer, fails exactly when that slot is taken, and is solid. |
| Spawn.SpawnTentacleGlow | game/src/world/spawn.rs:151-167 | A glowing tentacle goes on the feature layer, fails exactly when that slot is taken, and is solid and lit. |
| Spawn.SpawnGround | game/src/world/spawn.rs:169-203 | Floor, street, alley and footpath go on the floor layer, fail exactly when that slot is taken, carry their tile and block neither walking nor particles. |
| Spawn.SpawnDoor | game/src/world/spawn.rs:205-216 | A door goes on the feature layer, fails exactly when that slot is taken, and starts closed: solid, opaque and with the closed-door tile. |
| Spawn.SpawnStairsDown | game/src/world/spawn.rs:218-234 | Stairs down go on the feature layer, fail exactly when that slot is taken, are marked as stairs down and can be walked onto. |
| Spawn.SpawnStairsUp | game/src/world/spawn.rs:236-253 | Stairs up go on the feature layer, fail exactly when that slot is taken, are marked as stairs up and can be walked onto. |
| Spawn.SpawnExit | game/src/world/spawn.rs:255-272 | The exit goes on the feature layer, fails exactly when that slot is taken, is marked as the exit and can be walked onto. |
| Spawn.SpawnZombie | game/src/world/spawn.rs:274-283 | A zombie goes on the character layer, fails exactly when that slot is taken, and is an NPC character. |
| Spawn.SpawnTwiceFails | game/src/world/spawn.rs:39-47 | Spawning twice at the same location always fails the second time, and a successful first spawn holds the slot. |
| Terrain.TilesBefore | game/src/terrain.rs:58-60 | The set holds exactly the cells of the given tile enumerated before a position, in row-major order. |
| Terrain.TilesBeforeStep | game/src/terrain.rs:58-108 | Moving one cell on in the enumeration adds one to the count of a tile exactly when the cell passed holds it. |
| Terrain.TilesBeforeRowEnd | game/src/terrain.rs:58-108 | The end of a row and the start of the next have the same cells before them. |
| Terrain.FloorTileOf | game/src/terrain.rs:61-91 | A floor entity is spawned exactly for streets, alleys, footpaths, walls, floors and doors. |
| Terrain.GrewTrans | game/src/terrain.rs:58-108 | Two rounds of spawning that only add entities are together one such round. |
| Terrain.GrowthKeepsSlot | game/src/terrain.rs:58-108 | Spawning elsewhere keeps what an already filled layer slot holds. |
| Terrain.GrowthKeepsCellAt | game/src/terrain.rs:58-108 | Spawning the next cell keeps an earlier cell's floor and feature entities. |
| Terrain.GrowthKeepsCell | game/src/terrain.rs:58-108 | Spawning elsewhere keeps both layer slots of a built cell. |
| Terrain.SpawnFloorOf | game/src/terrain.rs:61-91 | The floor slot of the cell holds the floor entity its map tile calls for, or nothing, and only that slot is added. |
| Terrain.SpawnFeatureOf | game/src/terrain.rs:70-104 | The feature slot of the cell holds the feature its map tile calls for, with burning debris and glowing tentacles picked by their counts so far, and only that slot is added. |
| Terrain.SpawnFixedFeatureOf | game/src/terrain.rs:70-104 | Walls, doors and staircases put their own feature in the slot; other tiles leave it empty. |
| Terrain.SpawnCountedFeatureOf | game/src/terrain.rs:78-96 | Every fifth debris tile, counting from the first, burns and every tenth tentacle tile glows; the others are plain. |
| Terrain.SpawnCell | game/src/terrain.rs:60-105 | After a cell is spawned, both its layer slots hold what its map tile calls for, and only those two slots are added. |
| Terrain.LastStairsUpStep | game/src/terrain.rs:100-103 | Enumerating a cell makes it the last up staircase seen when it is one, and keeps the previous one otherwise. |
| Terrain.RowEnd | game/src/terrain.rs:58-108 | What holds after the last cell of a row holds at the start of the next row. |
| Terrain.RowEndStairs | game/src/terrain.rs:58-108 | The last up staircase seen at the end of a row is the last seen at the start of the next. |
| Terrain.BuiltStep | game/src/terrain.rs:58-108 | After one more cell, every slot filled lies at or before it and every cell up to it is built. |
| Terrain.EnumeratedStep | game/src/terrain.rs:58-108 | One more cell keeps the running state exact: every earlier cell built, the debris and tentacle counts and the last up staircase. |
| Terrain.BuildCell | game/src/terrain.rs:59-105 | Spawning the next cell in the loop keeps the running state exact one cell further on. |
| Terrain.SpawnNextCell | game/src/terrain.rs:59-105 | Spawning a cell moves the running state one cell further on. |
| Terrain.EnumerationStart | game/src/terrain.rs:54-58 | Before any cell, the world is empty, both counts are zero and no player spawn is known. |
| Terrain.EnumerationEnd | game/src/terrain.rs:58-108 | After the last row every cell is built, and no spawn is known exactly when the map has no up staircase. |
| Terrain.RowDone | game/src/terrain.rs:58-108 | A finished row leaves the world valid and the running state exact at the next row. |
| Terrain.BuildRow | game/src/terrain.rs:58-108 | Spawning one row keeps the running state exact at the start of the next row. |
| Terrain.BuildRowCells | game/src/terrain.rs:58-108 | Spawning the cells of a row brings the running state to the row's end. |
| Terrain.BuildRows | game/src/terrain.rs:58-108 | Spawning every row leaves every cell built, the counts right and the last up staircase known. |
| Terrain.Generate | game/src/terrain.rs:47-111 | Generation fails exactly when the map has no up staircase. Otherwise the new world has the map's size, every cell holds the floor and feature its tile calls for, and the player starts on the last up staircase in row-major order. |
| Terrain.NewlineIndex | game/src/terrain.rs:15 | The index found is that of the first newline. |
| Terrain.Lines | game/src/terrain.rs:15 | Splitting at newlines gives at least one piece and no piece holds a newline. |
| Terrain.UnlinesLines | game/src/terrain.rs:15 | Joining the pieces with newlines gives back the text. |
| Terrain.SplitAtNewline | game/src/terrain.rs:15 | A text is the part before a newline, the newline and the part after it. |
| Terrain.LinesUnlines | game/src/terrain.rs:15 | Splitting pieces without newlines after joining them gives back the pieces. |
| Terrain.FirstNewline | game/src/terrain.rs:15 | A line followed by a newline splits into that line and the pieces of the rest. |
| Terrain.TextSize | game/src/terrain.rs:16 | The text world is as wide as the first line and as tall as the number of lines. |
| Terrain.FirstLongRow | game/src/terrain.rs:18-38 | No row is found exactly when no line is longer than the first; otherwise the row found is the first that is. |
| Terrain.FirstLongRowFrom | game/src/terrain.rs:18-38 | From a row on, no row is found exactly when none is longer than the first; otherwise the first such row is found. |
| Terrain.FirstLongRowAt | game/src/terrain.rs:18-38 | A row longer than the first, with none before it, is the first long row. |
| Terrain.SpawnTextFeature | game/src/terrain.rs:22-36 | Each character puts its feature in the feature slot: a wall for `#`, a door for `+`, stairs down for `>`, nothing otherwise; only that slot is added. |
| Terrain.SpawnTextCell | game/src/terrain.rs:20-36 | Every character's cell gets a floor and its feature, and only those two slots are added. |
| Terrain.TextStep | game/src/terrain.rs:18-38 | One more character keeps the running state of the text loop exact, with `@` becoming the player spawn. |
| Terrain.TextRowEnd | game/src/terrain.rs:18-38 | What holds after the last character of a line holds at the start of the next. |
| Terrain.BuildTextRow | game/src/terrain.rs:18-38 | A line longer than the first is an error naming that line; otherwise the running state is exact at the start of the next line. |
| Terrain.BuildTextCell | game/src/terrain.rs:19-37 | Spawning one character keeps the running state exact one character further on. |
| Terrain.TextRowDone | game/src/terrain.rs:18-38 | A finished line leaves the running state exact at the next line. |
| Terrain.TextEnumerationEnd | game/src/terrain.rs:18-39 | After the last line every cell holds its floor and feature, and no spawn is known exactly when the text has no `@`. |
| Terrain.GenerateText | game/src/terrain.rs:13-45 | A line longer than the first is an error; otherwise loading fails exactly when the text has no `@`. A loaded world is as wide as the first line and as tall as the text, every character has its floor and feature, and the player starts on the last `@`. |
| Terrain.BuildTextRows | game/src/terrain.rs:18-38 | The loop fails exactly when some line is longer than the first, naming the first such line; otherwise every cell holds its floor and feature. |
| Particle.Choose | game/src/realtime/particle.rs:99-106 | A possible value is chosen exactly when the chance roll succeeds, and it is then the value itself. |
| Particle.FadeRatio | game/src/realtime/particle.rs:146 | While fading, the ratio is the elapsed time times 256 divided by the total, capped at 255, so it fits a byte. |
| Particle.FadeRatioMonotonic | game/src/realtime/particle.rs:141-149 | The fade ratio never decreases as the elapsed time grows. |
| Particle.FadeOutState.constructor | game/src/realtime/particle.rs:129-132 | A new fade-out starts with nothing elapsed and the given total. |
| Particle.FadeOutState.Progress | game/src/realtime/particle.rs:141-149 | The fade is complete exactly when the elapsed time exceeds the total; otherwise the ratio is the capped proportion elapsed. |
| Particle.FadeOutState.Fade | game/src/realtime/particle.rs:141-149 | Fading adds the duration to the elapsed time, keeps the total, and reports completion exactly when the elapsed time now exceeds the total, or else the capped ratio. |
| Particle.FadeTwice | game/src/realtime/particle.rs:141-149 | Once a fade-out is complete it stays complete, and while it is fading the ratio never goes down. |
| Particle.ParticleEmitterState.constructor | game/src/realtime/particle.rs:127-137 | A new emitter holds the given period, particle description and fade-out. |
| Particle.ParticleEmitterState.Tick | game/src/realtime/particle.rs:152-214 | The next event is due after the emit period. Without a fade-out the particle's fades start fresh; with one the fade-out advances by the period and the particle's fades start from its progress. The particle gets the described tile, a movement and colour exactly when described, a light when its roll succeeds, and a new emitter exactly when that roll succeeds. |
| Particle.MapFade | game/src/realtime/particle.rs:157-182 | A particle fades exactly when a fade duration is described, for that duration, starting fresh exactly when there is no fade-out progress. |
| Particle.MapLightFade | game/src/realtime/particle.rs:159-189 | A particle's light colour fades exactly when a light fade is described, between the described colours, for its duration. |
| Particle.Build | game/src/realtime/particle.rs:127-137 | A built emitter is new, has the described period and particle, and has a fade-out exactly when a fade-out duration is described, starting at zero. |
| Particle.ParticleRealtime | game/src/realtime/particle.rs:224-289 | A spawned particle gets movement, fade, light-colour-fade and emitter realtime components exactly when the event carries them, and never a flicker. |
| Particle.ParticleData | game/src/realtime/particle.rs:236-278 | A spawned particle is marked as a particle and as realtime, carries the event's tile, colour hint and light, and is neither solid nor a character. |
| Particle.InsertParticleRealtime | game/src/realtime/particle.rs:224-289 | Only the new particle's realtime components are set, to those its event carries; nothing else in the world changes. |
| Particle.ApplyEvent | game/src/realtime/particle.rs:218-291 | An emitter that has no location spawns nothing and the world is unchanged. Otherwise a newly allocated particle is placed on the emitter's cell with no layer, gets exactly the particle's data and realtime components, and nothing else changes. |
| WitnessProtocol.HandleControlFlow | game/src/witness.rs:188-199 | No control flow keeps the game running, and each control flow gives the token of the same name, never an aiming token. |
| WitnessProtocol.ControlFlowOf | game/src/witness.rs:188-199 | A token comes from no control flow exactly when it is the running token. |
| WitnessProtocol.ControlFlowRoundTrip | game/src/witness.rs:188-199 | The control flow can be read back from the token it gives, and every token other than the aiming ones is given by its own control flow. |
| WitnessProtocol.HandleInputOutcome | game/src/witness.rs:172-186 | The result is an error exactly when the game refused the input, and the game then stays running with that error; otherwise the token is the one the control flow gives. |
| WitnessProtocol.ErrorsKeepRunning | game/src/witness.rs:177-179 | A refused input and an input with no control flow both leave the running token. |
| WitnessProtocol.Cancel | game/src/witness.rs:75-78 | Cancelling a menu or an aim gives the running token. |
| WitnessProtocol.IntoRunning | game/src/witness.rs:101-104 | A won game continues with the running token. |
| WitnessProtocol.StartFireEquipped | game/src/witness.rs:155-157 | Starting to aim the equipped weapon gives its aiming token, and cancelling that gives back the running token. |
| WitnessProtocol.StartFireBody | game/src/witness.rs:159-161 | Starting to aim with the body gives its aiming token, and cancelling that gives back the running token. |
| WitnessProtocol.OpenMenu | game/src/witness.rs:163-168 | Opening a menu gives a menu token carrying that menu, and cancelling it gives back the running token. |
| WitnessProtocol.CommitInput | game/src/witness.rs:229-246 | Committing an aim sends a fire input at the target, of the equipped weapon exactly when the equipped weapon was being aimed. |
| WitnessProtocol.NewRunningGame | game/src/witness.rs:19-25 | Storing a running game consumes the running token and keeps the game. |
| WitnessProtocol.IntoGame | game/src/witness.rs:27-34 | Taking a stored game back gives the same game and a running token. |
| WitnessProtocol.RunningGameRoundTrip | game/src/witness.rs:19-34 | Storing a running game and taking it back gives the same game and a running token, and the other way round. |
| WitnessProtocol.CommitMenu | game/src/witness.rs:79-82 | Committing a menu choice leaves the game running, since no choice has an effect yet. |
| WitnessProtocol.HandleChoice | game/src/lib.rs:662-664 | The game's answer to any menu choice is no control flow. |
| WitnessProtocol.GameInput | game/src/witness.rs:126-153 | The game receives walk, wait, get and fire-equipped inputs; unequip, reload and fire-body have no counterpart in the game's input of the revision modelled. |
| WitnessProtocol.NewGame | game/src/witness.rs:90-99 | A new game is new and well-formed and comes with the running token. |
| WitnessProtocol.HandleInput | game/src/witness.rs:126-153 | Handling an input keeps the game well-formed and running. It fails exactly when a walk goes off the map or into something solid, and the error is then `InvalidMove`. |
| WitnessProtocol.Tick | game/src/witness.rs:201-209 | A tick keeps the game well-formed and running. |

## Left out

- Release and debug builds differ in a few places. The model follows release semantics. For example, the bounding box of an empty block is the wrapped-around rectangle rather than a debug-build overflow panic.
- `generate` in `procgen/src/city.rs` retries until an attempt succeeds. Each `Generate` is modelled as one attempt returning `Option`. The retry loop and its termination depend on the random draws and are not modelled.
- Iterating a hash set or hash map visits elements in an unspecified order. Where that order reaches the output, it is a parameter of the model.
- CityFeatures.Map5.PlaceTentacles: `add_tentacles` computes tentacle curves in floating point. The model takes the cells those curves cover as a parameter, and `Map5.Generate` takes them as `tentacleCells`.
- CityStreets.Map1.Candidates and CityStreets.Map1.CollectTrimCandidates take `edge_enumerate` to visit the edge cells in row-major order. The crate's own order is not part of this model. It decides which of two close candidates is kept as a street builder, and the order in which trim runs enter the shuffle.
- Every random coin `gen::<f64>() < p` is modelled as the parity of one draw, whatever `p` is (0.5 for the street and trim coins, 0.75 for the corridor coin in `split_floor_block`). The model fixes which draws each step consumes and what each outcome does, not the probabilities.
- `is_path_between` is modelled by a flood fill over the walkable cells (`Map5.IsPathBetween`). Its reachability result is the same.
- The floating-point half of `procgen/src/lib.rs` is not part of this model: `land_and_river`, Perlin noise, `plot_river`, `blob`, `convex_hull` and the top-level `generate`. The model covers only its integer-grid steps.
- River.GetTownCandidatePositions requires the river to have at least 40 cells. Below that, the `usize` subtraction that starts the first candidate range would underflow and the source would panic.
- River.MakeTowns: two of the source's panics are preconditions. Every candidate list must be non-empty, because the chosen candidate is unwrapped. Every town square must lie in the grid, because the grid is indexed with it.
- The game-over reason, the menu image and the menu choice are empty enums in the game. The model has a single placeholder value for each.
- Visibility (`update_visibility`, the light and vision maps) and all rendering to the screen are left out. Rendering is modelled only as far as its logic goes: meter lengths, message grouping and texts.
- `damage_player`, `spawn_bullet`, the AI context and the game's own random number generator are not modelled in the game state.
- GameState.Game.NpcWalk returns whether the character bumped into the player, where the source returns nothing. A caller needs that flag to state the effect.
- GameState.Game.NpcAct leaves the world unchanged when an NPC bumps into the player. The source then calls `damage_player`, which is not part of this model, so the player's health is not modelled.
- GameState.Game.constructor takes the generated worlds of every level as a parameter rather than generating them. The per-level agent stash is modelled as a sequence of sets of entities.
- GameState.Game.PlayerGetItem requires `GetSafe`: when the item under the player is a money item, the player carries a money counter below the 32-bit maximum. Only in that branch does the source unwrap the counter and add one to it; it would panic on a player without a counter, or in a debug build at the maximum. With no item, or an item that is not money, nothing is required. `ApplyInput`, `HandleInput` and `WitnessProtocol.HandleInput` require the same for a get.
- GameState.Game.PlayerWalk requires `WalkSafe`: a step lands on a free character slot, and any staircase there can be taken. The source unwraps both results.
- GameState.Game.FinishTick: the realtime animation step inside `handle_tick` is not modelled. Only the blocking state it reports is.
- GameState.Game.WalkSteps ensures only that the player arrived on the new level. The full relation between the old and new agent tables is proved by `EnterLevel` but not restated here.
- GameState.Game.PlayerWalk ensures only that the player arrived on the new level when the step takes stairs. The full agent-table relation is not restated, as for `WalkSteps`.
- GameState.Game.ApplyInput states the world unchanged when firing. The source's `fire_equipped` spawns a bullet, but bullet spawning is not part of this model.
- WitnessProtocol: witness tokens are plain values. The source makes them move-only so that each can be used once. The model gives each state its own token type but does not restate single use.
- WitnessProtocol.GameInput carries `Unequip`, `Reload` and `FireBody`, as `game/src/witness.rs` declares them. Other files of the source are from a version with a different set of inputs, and each file is modelled by its own text.
- Controls: keys other than the arrows and characters (function keys, Home, End, Page Up and Down, Delete) are kept as values but never bound.
- GameInstance.MeterFill requires `current * 15` not to overflow 32 bits. The offset that centres the meter's text is not modelled.
- GameInstance: the colour and health of a visible entity are left out. Organ traits are a sequence rather than a bit set.
- GameLoop: firing from the body uses the same aiming flow as firing the equipped weapon. The game tick that runs while aiming is not modelled.
- GameLoop: the entropy source of the random number generator is a parameter. The generator that seeds each game is drawn from it.
- GameLoop: music is a field naming the current track, and the explosion sound effect is left out.
- GameLoop: the return and escape keys are the terminal library's key characters.
- GameLoop: the level track index is set by the constructor and not reset on later levels.
- The spatial table, the entity allocator and the component tables of `game/src/world/mod.rs` come from external crates and are modelled by `GameWorld.World`. `remove_entity` and the spatial table's own code are not part of this model.
- Data.Overlay's contract states only the tile and solid slots. Its body treats every other slot the same way, but the contract does not restate them.
- GameInstance.OrganStringForMenu uses the corrected `OrganTypeNameCap`, so a tumour is listed as "Tumour". The source as written gives "tumour" (see Findings); `OrganTypeNameCapAsWritten` models that table.
- GameLoop.MenuChoiceString labels a harvest choice with the corrected `GameInstance.OrganStringForMenu`, so a tumour reads "Tumour" where the source gives "tumour". It labels drop and apply choices with the corrected `GameInstance.ItemStringForMenu`, so it reads "a cybernetic appendix" where the source gives "an cybernetic appendix". Its ensures that a label starts with "(" or a capital letter holds of these corrected tables, not of the source as written (see Findings).
- GameLoop.MenuEntries inherits the corrected labels of `GameLoop.MenuChoiceString`.
- GameInstance.MenuStringCapitalised states the capitalised menu string of the corrected table. For a tumour the source as written does not capitalise the name.
- GameInstance.ItemStringForMenu describes a full organ container with the corrected `OrganDescription`, so a cybernetic appendix reads "a cybernetic appendix". The source as written gives "an cybernetic appendix" (see Findings); `OrganDescriptionAsWritten` models that.
- GameLoop.MessageLogView.Update scrolls up with the corrected `ScrollUp` (`<=`). The source as written compares with `<` and cannot show the oldest message (see Findings); `ScrollUpAsWritten` models that.
- CityBlocks.Map3.Blocks states that the blocks are the connected components of the walls, but not that they are listed in row-major order of their first cell, as the source's scan lists them. The order of the floor blocks, and so the order in which they are split and draw random numbers, follows it.
- CityRooms.Generate returns `None` when the room map has no open cell. The source would panic there, drawing the spanning tree's start from an empty range.
- CityFeatures.Generate does not draw the random numbers `add_tentacles` uses, as the tentacle cells are a parameter. The draws that follow it are therefore not those of the source.
- CityFeatures.Generate checks the path between the staircases before the debris edge is laid, as the source does. `CityFeatures.EdgePathCut` shows that the finished map need not keep that path, so no path is promised for it.
- Realtime.AnimationContext.Serialize has no contract: it serialises the unit value, so there is nothing about its result to state. `Realtime.Deserialize` states what reading it back gives.
- The library crates (`coord_2d`, `grid_2d`, `rand`, `line_2d`) are represented by `Geometry`, `Random` and `Wrappers`, not modelled from their source.
- CityRooms.Map4.PlaceDoor places nothing when the shared boundary of two rooms is empty, where the source would panic. Callers never pass an empty boundary.
- Spawn.SpawnDebrisBurning records only that the flicker and particle emitter components exist, not their ranges, and draws no random numbers.
- Spawn: every spawn returns an error when its cell is occupied, where the game panics on that error.
- Terrain.GenerateText takes the level's text as a parameter. It counts characters where the source counts bytes, which is the same for the ASCII levels. The warning logged for an unexpected character is dropped.
- Particle.ParticleEmitterState.Tick requires the emitter's total period to be positive, as the source divides by it. The random draws are parameters (`TickDraws`). The trigonometry of `Movement::choose` is not modelled.

## Findings

| source | as written | input that shows it | evidently intended | confidence | as-written member | corrected member |
|---|---|---|---|---|---|---|
| app/src/game_instance.rs:620-630 | `render_messages` stops when four groups exist, before checking whether the next message repeats the fourth group | log (oldest first) `Wait, Wait, OpenDoor, CloseDoor, ActionError`: the fourth group is shown as one wait, not two | a repeat of the last shown group is still merged into its count, so every shown count is exact | medium, not executed | `GameInstance.GroupMessagesAsWritten`, `GameInstance.FourthGroupUndercounted` | `GameInstance.GroupMessages` |
| app/src/game_instance.rs:2467-2478 | the article is "an" for every appendix, and " cybernetic" comes after it | a cybernetic appendix is described as "an cybernetic appendix" | the article agrees with the word that follows it | high, not executed | `GameInstance.OrganDescriptionAsWritten`, `GameInstance.CyberneticAppendixArticle` | `GameInstance.OrganDescription`, `GameInstance.OrganDescriptionShape` |
| app/src/game_instance.rs:2427 | the capitalised name of `Tumour` is `"tumour"` | `organ_type_name_cap(Tumour)` | "Tumour", like every other capitalised name | high, not executed | `GameInstance.OrganTypeNameCapAsWritten`, `GameInstance.TumourNotCapitalised` | `GameInstance.OrganTypeNameCap` |
| app/src/game_loop.rs:1012-1018 | scrolling up is allowed only while the new scroll is strictly below `num_messages - height` | 23 messages in a 22-line view: the view cannot scroll, and the oldest message is never shown | `<=`, so that the oldest message can be brought into view | high, not executed | `GameLoop.ScrollUpAsWritten`, `GameLoop.OldestHiddenAsWritten` | `GameLoop.ScrollUp`, `GameLoop.EveryMessageReachable` (used by `GameLoop.MessageLogView.Update`) |
