/** The game state machine: the current level's world, the stash of the
    other levels, the NPC agent table, the message log and the buffer of
    events for the io layer. Visibility, the AI's decisions and the random
    number generators are not part of this model; the AI's choices arrive
    as parameters. */
module GameState {
  import opened Wrappers
  import opened Ints
  import opened Geometry
  import opened Data
  import opened GameWorld
  import opened Spawn
  import opened Query

  /** `NUM_LEVELS`. */
  const NUM_LEVELS: nat := 6

  /** Events reported to the io layer for sound and visual effects. */
  datatype ExternalEvent = FirePistol | FireShotgun | FireRocket | Explosion(at: Coord) | ChangeLevel

  /** The kinds of NPC; only the zombie is spawned anywhere in the model. */
  datatype NpcType = Zombie

  datatype ActionError = InvalidMove | NothingToGet | InventoryIsFull

  /** Entries of the message log. */
  datatype Message =
    | Wait
    | OpenDoor
    | CloseDoor
    | ActionError(error: ActionError)
    | NpcHit(npcType: NpcType, damage: u32)
    | NpcDies(dead: NpcType)
    | PlayerHit(attacker: NpcType, damage: u32)

  /** The game-over reason and the menu image are empty enums in the game;
      a single placeholder value stands for each here. */
  datatype GameOverReason = GameOverReason
  datatype MenuImage = MenuImage
  datatype MenuChoice = Dummy
  datatype Menu = Menu(choices: seq<MenuChoice>, text: string, image: MenuImage)

  datatype GameControlFlow = GameOver(reason: GameOverReason) | Win | Menu(menu: Menu)

  /** The inputs this revision of the game handles. */
  datatype Input = Walk(direction: CardinalDirection) | Wait | FireEquipped(target: Coord) | Get

  /** A stashed level: its world and its agent table (the agents' own state
      belongs to the AI and is not modelled, only which entities have one). */
  datatype Level = Level(world: World, agents: set<Entity>)

  predicate IsNpc(d: EntityData) { d.npc }
  predicate IsToRemove(d: EntityData) { d.toRemove }
  predicate BlocksGameplay(d: EntityData) { d.blocksGameplay }

  /** What the game relies on in every world beyond the spatial table's own
      consistency: every NPC is placed on the character layer, so that it
      has a coordinate to walk from and walks within that layer. */
  predicate WorldOk(w: World)
    reads w
  {
    && w.Valid()
    && forall e :: e in w.components && w.components[e].npc ==>
         e in w.locations && w.locations[e].layer == Some(Layer.Character)
  }

  /** `open_door`: the door state becomes open with the open-door tile, and
      the door stops being solid, solid for particles and opaque. */
  function OpenedDoor(d: EntityData): (r: EntityData)
    ensures r.doorState == Some(Open) && r.tile == Some(Tile.DoorOpen)
    ensures !r.solid && !r.solidForParticles && r.opacity.None?
    ensures r.(doorState := d.doorState, tile := d.tile, solid := d.solid,
               solidForParticles := d.solidForParticles, opacity := d.opacity) == d
  {
    d.(doorState := Some(Open), tile := Some(Tile.DoorOpen), solid := false, solidForParticles := false, opacity := None)
  }

  /** `close_door`: the components of a closed door are inserted over the
      entity's others. */
  function ClosedDoor(d: EntityData): (r: EntityData)
    ensures r.doorState == Some(Closed) && r.tile == Some(Tile.DoorClosed)
    ensures r.solid && r.solidForParticles && r.opacity == Some(255)
    ensures r.(doorState := d.doorState, tile := d.tile, solid := d.solid,
               solidForParticles := d.solidForParticles, opacity := d.opacity) == d
  {
    Overlay(d, NO_DATA.(doorState := Some(Closed), tile := Some(Tile.DoorClosed), solid := true,
                        solidForParticles := true, opacity := Some(255)))
  }

  /** Closing an opened door puts back exactly what `spawn_door` created. */
  lemma OpenThenCloseIsSpawnedDoor()
    ensures ClosedDoor(OpenedDoor(DoorData())) == DoorData()
  {
  }

  /** Opening and closing only ever touch the five door components, and
      each undoes the other on them. */
  lemma DoorToggle(d: EntityData)
    ensures OpenedDoor(ClosedDoor(d)) == OpenedDoor(d)
    ensures ClosedDoor(OpenedDoor(d)) == ClosedDoor(d)
  {
  }

  /** One step of `open_door_entity_adjacent_to_coord`: the feature in the
      `k`-th neighbour of `coord`, when that cell is at most one king's
      move from `dest` and the feature is an open door. */
  function DoorCandidate(w: World, coord: Coord, dest: Coord, k: nat): (r: Option<Entity>)
    requires k < 8
    reads w
    ensures r.Some? ==> var p := coord.Add(ALL_DELTAS[k]);
      && Abs(dest.x - p.x) <= 1 && Abs(dest.y - p.y) <= 1
      && w.At(p, Layer.Feature) == r && w.Data(r.value).doorState == Some(Open)
    ensures var p := coord.Add(ALL_DELTAS[k]);
      ((KingAdjacent(p, dest) || p == dest) && IsValid(p, w.size) && w.At(p, Layer.Feature).Some?
       && w.Data(w.At(p, Layer.Feature).value).doorState == Some(Open)) ==> r.Some?
  {
    var p := coord.Add(ALL_DELTAS[k]);
    var delta := dest.Sub(p);
    if Abs(delta.x) <= 1 && Abs(delta.y) <= 1 && IsValid(p, w.size) && w.At(p, Layer.Feature).Some?
       && w.Data(w.At(p, Layer.Feature).value).doorState == Some(Open)
    then w.At(p, Layer.Feature)
    else None
  }

  /** The first door candidate from the `k`-th direction on, in the order
      of `Direction::all()`. */
  function FirstOpenDoorFrom(w: World, coord: Coord, dest: Coord, k: nat): (r: Option<Entity>)
    requires k <= 8
    reads w
    ensures r.None? <==> forall j :: k <= j < 8 ==> DoorCandidate(w, coord, dest, j).None?
    ensures r.Some? ==> exists j :: (k <= j < 8 && DoorCandidate(w, coord, dest, j) == r
      && forall i :: k <= i < j ==> DoorCandidate(w, coord, dest, i).None?)
    decreases 8 - k
  {
    if k == 8 then None
    else if DoorCandidate(w, coord, dest, k).Some? then DoorCandidate(w, coord, dest, k)
    else FirstOpenDoorFrom(w, coord, dest, k + 1)
  }

  /** How a walk of the player in one direction turns out, decided on the
      state before it. */
  datatype WalkPlan = OffMap | OpensDoor(door: Entity) | ClosesDoor(door: Entity) | Blocked | Steps(to: Coord)

  /** How `npc_walk` of one NPC turns out, decided on the state before it:
      nothing happens (off the map, or a feature it cannot traverse); a
      closed door is opened; it bumps into a character; or it steps. */
  datatype NpcPlan = Stays | Opens(door: Entity) | Bumps(character: Entity) | Moves(to: Coord)

  /** Between two component tables only doors were opened: no row appeared
      or disappeared, and each row is as it was or `OpenedDoor` of it. */
  ghost predicate DoorsOpened(before: map<Entity, EntityData>, after: map<Entity, EntityData>) {
    && after.Keys == before.Keys
    && forall x :: x in after ==> after[x] == before[x] || after[x] == OpenedDoor(before[x])
  }

  /** Opening doors keeps every removal mark, and survives removing the
      same entities on both sides. */
  lemma DoorsOpenedMinus(a: map<Entity, EntityData>, b: map<Entity, EntityData>, gone: set<Entity>)
    requires DoorsOpened(a, b)
    ensures forall x :: x in b ==> b[x].toRemove == a[x].toRemove
    ensures DoorsOpened(a - gone, b - gone)
  {
    assert (b - gone).Keys == (a - gone).Keys;
  }

  /** Opening doors is transitive, and keeps the NPC and gameplay-blocking
      flags of every row. */
  lemma DoorsOpenedTrans(a: map<Entity, EntityData>, b: map<Entity, EntityData>, c: map<Entity, EntityData>)
    requires DoorsOpened(a, b) && DoorsOpened(b, c)
    ensures DoorsOpened(a, c)
    ensures forall x :: x in c ==> c[x].npc == a[x].npc && c[x].blocksGameplay == a[x].blocksGameplay
  {
    forall x | x in c
      ensures c[x] == a[x] || c[x] == OpenedDoor(a[x])
    {
      assert OpenedDoor(OpenedDoor(a[x])) == OpenedDoor(a[x]);
    }
  }

  /** `after` is `before`, or one cardinal step away from it on the same
      layer. */
  ghost predicate AtMostOneStep(before: Location, after: Location) {
    || after == before
    || (after.layer == before.layer && Abs(after.coord.x - before.coord.x) + Abs(after.coord.y - before.coord.y) == 1)
  }

  /** A cardinal step is one step. */
  lemma CardinalStep(c: Coord, d: CardinalDirection, layer: Option<Layer>)
    ensures AtMostOneStep(Location(c, layer), Location(c.Add(CardinalDelta(d)), layer))
  {
  }

  /** What NPCs may do to a world's tables (`locs0`, `comps0` before,
      `locs1`, `comps1` after): open doors, and only rows of entities on
      the feature layer change; no entity appears or leaves the spatial
      table; every entity stays or takes one cardinal step on its layer,
      and only the entities of `movers` move at all. */
  ghost predicate NpcsActed(locs0: map<Entity, Location>, comps0: map<Entity, EntityData>,
                            locs1: map<Entity, Location>, comps1: map<Entity, EntityData>, movers: set<Entity>)
  {
    && DoorsOpened(comps0, comps1)
    && (forall x :: x in comps1 && comps1[x] != comps0[x] ==> x in locs0 && locs0[x].layer == Some(Layer.Feature))
    && locs1.Keys == locs0.Keys
    && (forall x :: x in locs0 ==> AtMostOneStep(locs0[x], locs1[x]))
    && (forall x :: x in locs0 && x !in movers ==> locs1[x] == locs0[x])
  }

  /** Nothing happening is an NPC act of nobody. */
  lemma NpcsActedNone(locs: map<Entity, Location>, comps: map<Entity, EntityData>, movers: set<Entity>)
    ensures NpcsActed(locs, comps, locs, comps, movers)
  {
  }

  /** An NPC opening the door `d`, a feature, is an NPC act. */
  lemma NpcsActedOpen(locs: map<Entity, Location>, comps: map<Entity, EntityData>, d: Entity, movers: set<Entity>)
    requires d in comps && d in locs && locs[d].layer == Some(Layer.Feature)
    ensures NpcsActed(locs, comps, locs, comps[d := OpenedDoor(comps[d])], movers)
  {
    OpenOneDoor(comps, d);
  }

  /** An NPC taking a cardinal step on its layer is an NPC act of it. */
  lemma NpcsActedStep(locs: map<Entity, Location>, comps: map<Entity, EntityData>, e: Entity, d: CardinalDirection)
    requires e in locs
    ensures NpcsActed(locs, comps, locs[e := Location(locs[e].coord.Add(CardinalDelta(d)), locs[e].layer)], comps, {e})
  {
    CardinalStep(locs[e].coord, d, locs[e].layer);
  }

  /** Opening doors keeps which rows are NPCs and which are marked for
      removal. */
  lemma NpcsKept(before: map<Entity, EntityData>, after: map<Entity, EntityData>)
    requires DoorsOpened(before, after)
    ensures forall x :: x in after && IsNpc(after[x]) <==> x in before && IsNpc(before[x])
    ensures forall x :: x in after && IsToRemove(after[x]) <==> x in before && IsToRemove(before[x])
  {
    DoorsOpenedTrans(before, after, after);
    DoorsOpenedMinus(before, after, {});
  }

  /** The NPCs of two component tables between which only doors were
      opened are the same. */
  lemma SameNpcs(before: map<Entity, EntityData>, after: map<Entity, EntityData>, npcs0: set<Entity>, npcs1: set<Entity>)
    requires DoorsOpened(before, after)
    requires forall x :: x in npcs0 <==> x in before && IsNpc(before[x])
    requires forall x :: x in npcs1 <==> x in after && IsNpc(after[x])
    ensures npcs0 == npcs1
  {
    NpcsKept(before, after);
  }

  /** Opening doors neither starts nor ends a gameplay block. */
  lemma BlockingKept(before: map<Entity, EntityData>, after: map<Entity, EntityData>)
    requires DoorsOpened(before, after)
    ensures (exists e :: e in before && before[e].blocksGameplay) <==> (exists e :: e in after && after[e].blocksGameplay)
  {
    DoorsOpenedTrans(before, after, after);
  }

  /** An NPC act of some movers is one of any more movers. */
  lemma NpcsActedWiden(locs0: map<Entity, Location>, comps0: map<Entity, EntityData>,
                       locs1: map<Entity, Location>, comps1: map<Entity, EntityData>, movers: set<Entity>, more: set<Entity>)
    requires NpcsActed(locs0, comps0, locs1, comps1, movers) && movers <= more
    ensures NpcsActed(locs0, comps0, locs1, comps1, more)
  {
  }

  /** Two NPC acts by disjoint sets of movers make one: each entity still
      takes at most one step. */
  lemma NpcsActedTrans(l0: map<Entity, Location>, c0: map<Entity, EntityData>,
                       l1: map<Entity, Location>, c1: map<Entity, EntityData>,
                       l2: map<Entity, Location>, c2: map<Entity, EntityData>, m1: set<Entity>, m2: set<Entity>)
    requires NpcsActed(l0, c0, l1, c1, m1) && NpcsActed(l1, c1, l2, c2, m2) && m1 !! m2
    ensures NpcsActed(l0, c0, l2, c2, m1 + m2)
  {
    DoorsOpenedTrans(c0, c1, c2);
    forall x | x in c2 && c2[x] != c0[x]
      ensures x in l0 && l0[x].layer == Some(Layer.Feature)
    {
      if c1[x] == c0[x] {
        assert l1[x].layer == Some(Layer.Feature);
        assert AtMostOneStep(l0[x], l1[x]);
      }
    }
    forall x | x in l0
      ensures AtMostOneStep(l0[x], l2[x])
    {
      if x in m1 {
        assert l2[x] == l1[x];
      } else {
        assert l1[x] == l0[x];
      }
    }
  }

  /** Removing the same entities before and after keeps an NPC act. */
  lemma NpcsActedMinus(l0: map<Entity, Location>, c0: map<Entity, EntityData>,
                       l1: map<Entity, Location>, c1: map<Entity, EntityData>, movers: set<Entity>, gone: set<Entity>)
    requires NpcsActed(l0, c0, l1, c1, movers)
    ensures NpcsActed(l0 - gone, c0 - gone, l1 - gone, c1 - gone, movers)
  {
    DoorsOpenedMinus(c0, c1, gone);
    assert (l1 - gone).Keys == (l0 - gone).Keys;
  }

  /** A placed entity that does not move and is not a feature comes out
      of an NPC act with its place and its row. */
  lemma NpcsActedKeeps(l0: map<Entity, Location>, c0: map<Entity, EntityData>,
                       l1: map<Entity, Location>, c1: map<Entity, EntityData>, movers: set<Entity>, x: Entity)
    requires NpcsActed(l0, c0, l1, c1, movers)
    requires x in l0 && x !in movers && l0[x].layer != Some(Layer.Feature)
    ensures x in l1 && l1[x] == l0[x]
    ensures x in c1 <==> x in c0
    ensures x in c0 ==> c1[x] == c0[x]
  {
  }

  /** The first loop of `npc_setup_agents`: an agent for every entity of
      `npcs` that lacks one. */
  method AddMissing(agents: set<Entity>, npcs: seq<Entity>) returns (r: set<Entity>)
    ensures forall x :: x in r <==> x in agents || x in npcs
  {
    r := agents;
    var i := 0;
    while i < |npcs|
      invariant 0 <= i <= |npcs|
      invariant forall x :: x in r <==> x in agents || x in npcs[..i]
    {
      if npcs[i] !in r {
        r := r + {npcs[i]};
      }
      i := i + 1;
    }
    assert npcs[..i] == npcs;
  }

  /** The second loop of `npc_setup_agents`: the agents, in order, whose
      entity is not an NPC. */
  method Stale(agents: seq<Entity>, npcs: set<Entity>) returns (r: seq<Entity>)
    ensures forall x :: x in r <==> x in agents && x !in npcs
  {
    r := [];
    var i := 0;
    while i < |agents|
      invariant 0 <= i <= |agents|
      invariant forall x :: x in r <==> x in agents[..i] && x !in npcs
    {
      if agents[i] !in npcs {
        r := r + [agents[i]];
      }
      i := i + 1;
    }
    assert agents[..i] == agents;
  }

  /** The third loop of `npc_setup_agents`: drop the listed agents. */
  method RemoveAll(agents: set<Entity>, toRemove: seq<Entity>) returns (r: set<Entity>)
    ensures forall x :: x in r <==> x in agents && x !in toRemove
  {
    r := agents;
    var i := 0;
    while i < |toRemove|
      invariant 0 <= i <= |toRemove|
      invariant forall x :: x in r <==> x in agents && x !in toRemove[..i]
    {
      r := r - {toRemove[i]};
      i := i + 1;
    }
    assert toRemove[..i] == toRemove;
  }

  /** Opening one door is opening doors. */
  lemma OpenOneDoor(a: map<Entity, EntityData>, d: Entity)
    requires d in a
    ensures DoorsOpened(a, a[d := OpenedDoor(a[d])])
  {
  }

  /** The level stash as the game keeps it, built from the world of every
      level and the agent table last stored for every level: one slot per
      level, empty at the current level. */
  ghost function StashView(worlds: seq<World>, stash: seq<set<Entity>>, current: nat): (r: seq<Option<Level>>)
    requires |stash| == |worlds|
    ensures |r| == |worlds|
    ensures forall i :: 0 <= i < |r| ==> (r[i].None? <==> i == current)
    ensures forall i :: 0 <= i < |r| && i != current ==> r[i] == Some(Level(worlds[i], stash[i]))
  {
    seq(|worlds|, i requires 0 <= i < |worlds| => if i == current then None else Some(Level(worlds[i], stash[i])))
  }

  /** Storing `agents` as level `current`'s table and making `t` current
      stashes level `current` in its slot and empties slot `t`. */
  lemma StashSwap(worlds: seq<World>, stash: seq<set<Entity>>, current: nat, agents: set<Entity>, t: nat)
    requires |stash| == |worlds| && current < |worlds| && t < |worlds| && t != current
    ensures StashView(worlds, stash[current := agents], t)
         == StashView(worlds, stash, current)[current := Some(Level(worlds[current], agents))][t := None]
  {
    var lhs := StashView(worlds, stash[current := agents], t);
    var rhs := StashView(worlds, stash, current)[current := Some(Level(worlds[current], agents))][t := None];
    assert forall i :: 0 <= i < |lhs| ==> lhs[i] == rhs[i];
  }

  /** No two levels share a world. */
  ghost predicate Distinct(worlds: seq<World>) {
    forall i, j :: 0 <= i < j < |worlds| ==> worlds[i] != worlds[j]
  }

  /** The loop of `cleanup`: each listed entity is removed in turn. */
  method TakeOutAll(w: World, toRemove: seq<Entity>, ghost gone: set<Entity>)
    requires WorldOk(w) && forall x :: x in gone <==> x in toRemove
    modifies w
    ensures WorldOk(w)
    ensures w.locations == old(w.locations) - gone && w.components == old(w.components) - gone
  {
    ghost var removed: set<Entity> := {};
    var i := 0;
    while i < |toRemove|
      invariant 0 <= i <= |toRemove|
      invariant removed == set x | x in toRemove[..i]
      invariant WorldOk(w)
      invariant w.locations == old(w.locations) - removed
      invariant w.components == old(w.components) - removed
    {
      var _ := TakeOut(w, toRemove[i]);
      assert toRemove[..i + 1] == toRemove[..i] + [toRemove[i]];
      removed := removed + {toRemove[i]};
      i := i + 1;
    }
    assert toRemove[..i] == toRemove;
    assert removed == gone;
  }

  /** `insert_entity_data` of a character at `c`, in a world the game
      relies on; the placement is unwrapped, so the slot must be free. */
  method PlaceCharacter(w: World, c: Coord, data: EntityData) returns (e: Entity)
    requires WorldOk(w) && !Occupied(w, Location(c, Some(Layer.Character)))
    modifies w
    ensures WorldOk(w)
    ensures e in w.locations && w.locations[e] == Location(c, Some(Layer.Character))
    ensures w.Data(e) == data
  {
    e := InsertEntityData(w, Location(c, Some(Layer.Character)), data);
  }

  /** `remove_entity` in a world the game relies on: the entity leaves the
      spatial and component tables, and its components are returned. */
  method TakeOut(w: World, e: Entity) returns (data: EntityData)
    requires WorldOk(w)
    modifies w
    ensures WorldOk(w) && data == old(w.Data(e))
    ensures w.locations == old(w.locations) - {e} && w.components == old(w.components) - {e}
  {
    data := w.RemoveEntity(e);
  }

  /** Only the component row of `d` changed, to `data`. */
  twostate predicate RowSet(w: World, d: Entity, data: EntityData)
    reads w
  {
    && w.components == old(w.components)[d := data]
    && w.locations == old(w.locations) && w.cells == old(w.cells)
  }

  /** Only the location of `e` changed, to `c` on the character layer;
      the feature layer is as it was. */
  twostate predicate Stepped(w: World, e: Entity, c: Coord)
    reads w
  {
    && w.locations == old(w.locations)[e := Location(c, Some(Layer.Character))]
    && w.components == old(w.components)
    && forall x :: w.At(x, Layer.Feature) == old(w.At(x, Layer.Feature))
  }

  /** `open_door` on a feature of a world the game relies on. */
  method SetDoorOpen(w: World, d: Entity)
    requires WorldOk(w) && d in w.locations
    modifies w
    ensures WorldOk(w) && RowSet(w, d, OpenedDoor(old(w.Data(d))))
  {
    w.SetData(d, OpenedDoor(w.Data(d)));
  }

  /** `close_door` on a feature of a world the game relies on. */
  method SetDoorClosed(w: World, d: Entity)
    requires WorldOk(w) && d in w.locations
    modifies w
    ensures WorldOk(w) && RowSet(w, d, ClosedDoor(old(w.Data(d))))
  {
    w.InsertData(d, NO_DATA.(doorState := Some(Closed), tile := Some(Tile.DoorClosed), solid := true,
                             solidForParticles := true, opacity := Some(255)));
  }

  /** `spatial_table.update_coord(..).unwrap()` of a character onto a
      character slot that is free (or its own). */
  method MoveCharacter(w: World, e: Entity, c: Coord)
    requires WorldOk(w) && e in w.locations && w.locations[e].layer == Some(Layer.Character)
    requires IsValid(c, w.size) && (w.At(c, Layer.Character).None? || w.At(c, Layer.Character) == Some(e))
    modifies w
    ensures WorldOk(w) && Stepped(w, e, c)
    ensures w.At(c, Layer.Feature) == old(w.At(c, Layer.Feature))
  {
    var r := w.UpdateCoord(e, c);
    assert r.Ok?;
  }

  /** `Game::new` given the generated worlds (terrain generation is
      modelled separately): the player starts at the first level's up
      staircase or exit. */
  method NewGame(levels: seq<World>) returns (g: Game)
    requires |levels| == NUM_LEVELS && WorldOk(levels[0]) && Distinct(levels)
    requires var spawn := StairsUpOrExitCoord(levels[0]);
      spawn.Some? && !Occupied(levels[0], Location(spawn.value, Some(Layer.Character)))
    modifies levels[0]
    ensures fresh(g) && g.Valid()
    ensures g.currentLevelIndex == 0 && g.world == levels[0] && g.agents == {}
    ensures g.OtherLevels() == [None] + seq(NUM_LEVELS - 1, i requires 0 <= i < NUM_LEVELS - 1 => Some(Level(levels[i + 1], {})))
    ensures g.world.Data(g.playerEntity) == MakePlayer()
    ensures g.world.locations[g.playerEntity].coord == old(StairsUpOrExitCoord(levels[0])).value
    ensures g.messageLog == [] && g.externalEvents == []
  {
    var spawn := StairsUpOrExitCoord(levels[0]);
    g := new Game(levels, spawn.value);
  }

  class Game {
    /** The world of every level, by index. The game moves worlds between
        its current slot and the stash; the model keeps each level's world
        in place and tracks which one is current. */
    const worlds: seq<World>
    var currentLevelIndex: nat
    var world: World
    var agents: set<Entity>
    /** The agent table last stored for every level; the entry of the
        current level is not in use. */
    var stash: seq<set<Entity>>
    var playerEntity: Entity
    var messageLog: seq<Message>
    var externalEvents: seq<ExternalEvent>

    /** The player entity is placed in the current world. */
    predicate PlayerPlaced()
      reads this, world
    {
      playerEntity in world.locations
    }

    /** The game's invariant: one world per level, no two alike, the
        current one consistent and holding the player on the character
        layer (not marked for removal, and not an NPC). */
    ghost predicate Valid()
      reads this, world
    {
      && |worlds| == NUM_LEVELS && Distinct(worlds) && |stash| == NUM_LEVELS
      && currentLevelIndex < NUM_LEVELS && world == worlds[currentLevelIndex]
      && WorldOk(world)
      && PlayerPlaced() && world.locations[playerEntity].layer == Some(Layer.Character)
      && !world.Data(playerEntity).toRemove && !world.Data(playerEntity).npc
    }

    /** `other_levels`: the stashed levels, `None` at the current one. */
    ghost function OtherLevels(): (r: seq<Option<Level>>)
      requires |stash| == |worlds|
      reads this
      ensures |r| == |worlds|
    {
      StashView(worlds, stash, currentLevelIndex)
    }

    /** The state `Game::new` builds once the spawn point is known: the
        player is made and placed at `spawn` in the first level, and the
        other levels are stashed with empty agent tables. */
    constructor (levels: seq<World>, spawn: Coord)
      requires |levels| == NUM_LEVELS && WorldOk(levels[0]) && Distinct(levels)
      requires !Occupied(levels[0], Location(spawn, Some(Layer.Character)))
      modifies levels[0]
      ensures Valid()
      ensures worlds == levels && currentLevelIndex == 0 && world == levels[0] && agents == {}
      ensures OtherLevels() == [None] + seq(NUM_LEVELS - 1, i requires 0 <= i < NUM_LEVELS - 1 => Some(Level(levels[i + 1], {})))
      ensures world.Data(playerEntity) == MakePlayer()
      ensures world.locations[playerEntity].coord == spawn
      ensures messageLog == [] && externalEvents == []
    {
      worlds := levels;
      currentLevelIndex := 0;
      world := levels[0];
      agents := {};
      stash := seq(NUM_LEVELS, _ => {});
      messageLog := [];
      externalEvents := [];
      new;
      playerEntity := PlaceCharacter(levels[0], spawn, MakePlayer());
      assert OtherLevels() == [None] + seq(NUM_LEVELS - 1, i requires 0 <= i < NUM_LEVELS - 1 => Some(Level(levels[i + 1], {})));
    }

    /** `player_coord`. */
    function PlayerCoord(): (c: Coord)
      requires PlayerPlaced()
      reads this, world
      ensures world.CoordOf(playerEntity) == Some(c)
      ensures world.Valid() ==> IsValid(c, world.size)
    {
      world.locations[playerEntity].coord
    }

    /** `take_external_events`: the buffered events, oldest first; the
        buffer is left empty. */
    method TakeExternalEvents() returns (events: seq<ExternalEvent>)
      modifies this
      ensures events == old(externalEvents) && externalEvents == []
      ensures world == old(world) && stash == old(stash) && agents == old(agents)
      ensures currentLevelIndex == old(currentLevelIndex) && playerEntity == old(playerEntity)
      ensures messageLog == old(messageLog)
    {
      events := externalEvents;
      externalEvents := [];
    }

    /** `is_gameplay_blocked`: some entity has the `blocks_gameplay`
        component. */
    function IsGameplayBlocked(): (b: bool)
      reads this, world
      ensures b <==> exists e :: e in world.components && world.components[e].blocksGameplay
    {
      world.EntitiesWith(BlocksGameplay) != {}
    }

    /** Where the player arrives on level `levelIndex`: going down, at the
        up staircase or exit; going up, at the down staircase. */
    function Arrival(levelIndex: nat): Option<Coord>
      requires levelIndex < |worlds|
      reads this, worlds[levelIndex]
    {
      var w := worlds[levelIndex];
      if levelIndex == currentLevelIndex + 1 then StairsUpOrExitCoord(w) else StairsDownCoord(w)
    }

    /** The level `levelIndex` can take the player at `c`: it is next to
        the current one and exists, its world is consistent, and `c` is a
        free character slot there. */
    ghost predicate CanMoveTo(levelIndex: nat, c: Coord)
      reads this, if levelIndex < |worlds| then {worlds[levelIndex]} else {}
    {
      && (levelIndex == currentLevelIndex + 1 || levelIndex + 1 == currentLevelIndex)
      && levelIndex < |worlds|
      && WorldOk(worlds[levelIndex])
      && !Occupied(worlds[levelIndex], Location(c, Some(Layer.Character)))
    }

    /** What `enter_level` demands: the arrival point exists and the level
        can take the player there. */
    ghost predicate CanEnter(levelIndex: nat)
      reads this, if levelIndex < |worlds| then {worlds[levelIndex]} else {}
    {
      && levelIndex < |worlds|
      && var arrival := Arrival(levelIndex);
         arrival.Some? && CanMoveTo(levelIndex, arrival.value)
    }

    /** The player is now on level `levelIndex`, at `c`, with the same
        components; a `ChangeLevel` event is reported and the log is kept. */
    twostate predicate Arrived(levelIndex: nat, c: Coord)
      reads this, world
    {
      && levelIndex < |worlds| && currentLevelIndex == levelIndex && world == worlds[levelIndex]
      && playerEntity in world.locations && world.locations[playerEntity].coord == c
      && world.Data(playerEntity) == old(world.Data(playerEntity))
      && messageLog == old(messageLog) && externalEvents == old(externalEvents) + [ChangeLevel]
    }

    /** The state change of `enter_level` into level `levelIndex`, the
        player arriving at `c`: besides `Arrived`, the player left the old
        world with its components, the old level is stashed in its slot
        and the new one's slot emptied. */
    twostate predicate Entered(levelIndex: nat, c: Coord)
      reads this, worlds
    {
      && |old(stash)| == |worlds| == |stash| && levelIndex < |worlds|
      && old(currentLevelIndex) < |worlds| && old(world) == worlds[old(currentLevelIndex)]
      && world == worlds[levelIndex] && Arrived(levelIndex, c)
      && agents == old(stash[levelIndex])
      && OtherLevels() == old(OtherLevels())[old(currentLevelIndex) := Some(Level(old(world), old(agents)))][levelIndex := None]
      && old(world).locations == old(world.locations) - {old(playerEntity)}
      && old(world).components == old(world.components) - {old(playerEntity)}
    }

    /** The first half of `enter_level`: the player leaves the current
        world, taking its components along. */
    method LeaveLevel() returns (playerData: EntityData)
      requires Valid()
      modifies world
      ensures WorldOk(world) && playerData == old(world.Data(playerEntity))
      ensures world.locations == old(world.locations) - {playerEntity}
      ensures world.components == old(world.components) - {playerEntity}
    {
      playerData := TakeOut(world, playerEntity);
    }

    /** The second half of `enter_level`: the current level's agent table is
        stashed, level `levelIndex` becomes current, the player is placed
        there at `c` with `playerData`, and a `ChangeLevel` event is
        reported. */
    method ArriveAt(levelIndex: nat, c: Coord, playerData: EntityData)
      requires |worlds| == NUM_LEVELS && Distinct(worlds) && |stash| == NUM_LEVELS
      requires currentLevelIndex < NUM_LEVELS && world == worlds[currentLevelIndex]
      requires CanMoveTo(levelIndex, c) && !playerData.toRemove && !playerData.npc
      modifies this, worlds[levelIndex]
      ensures Valid()
      ensures currentLevelIndex == levelIndex && world == worlds[levelIndex] && agents == old(stash[levelIndex])
      ensures OtherLevels() == old(OtherLevels())[old(currentLevelIndex) := Some(Level(old(world), old(agents)))][levelIndex := None]
      ensures world.Data(playerEntity) == playerData
      ensures world.locations[playerEntity].coord == c
      ensures messageLog == old(messageLog) && externalEvents == old(externalEvents) + [ChangeLevel]
    {
      var e := PlaceCharacter(worlds[levelIndex], c, playerData);
      SwitchLevel(levelIndex, e);
    }

    /** Level `levelIndex`, where the player is already placed as `e`,
        becomes current; the current level's agent table is stashed and a
        `ChangeLevel` event is reported. */
    method SwitchLevel(levelIndex: nat, e: Entity)
      requires |worlds| == NUM_LEVELS && Distinct(worlds) && |stash| == NUM_LEVELS
      requires currentLevelIndex < NUM_LEVELS && world == worlds[currentLevelIndex]
      requires levelIndex < NUM_LEVELS && levelIndex != currentLevelIndex && WorldOk(worlds[levelIndex])
      requires e in worlds[levelIndex].locations && worlds[levelIndex].locations[e].layer == Some(Layer.Character)
      requires !worlds[levelIndex].Data(e).toRemove && !worlds[levelIndex].Data(e).npc
      modifies this
      ensures Valid() && playerEntity == e
      ensures currentLevelIndex == levelIndex && world == worlds[levelIndex] && agents == old(stash[levelIndex])
      ensures OtherLevels() == old(OtherLevels())[old(currentLevelIndex) := Some(Level(old(world), old(agents)))][levelIndex := None]
      ensures messageLog == old(messageLog) && externalEvents == old(externalEvents) + [ChangeLevel]
    {
      StashSwap(worlds, stash, currentLevelIndex, agents, levelIndex);
      SetCurrent(stash[currentLevelIndex := agents], levelIndex, stash[levelIndex], e, externalEvents + [ChangeLevel]);
    }

    /** Level `levelIndex` becomes current, with the fields given. */
    method SetCurrent(stash': seq<set<Entity>>, levelIndex: nat, agents': set<Entity>, e: Entity, events: seq<ExternalEvent>)
      requires levelIndex < |worlds|
      modifies this
      ensures stash == stash' && currentLevelIndex == levelIndex && world == worlds[levelIndex] && agents == agents'
      ensures playerEntity == e && externalEvents == events && messageLog == old(messageLog)
    {
      stash, world, agents, currentLevelIndex, playerEntity, externalEvents :=
        stash', worlds[levelIndex], agents', levelIndex, e, events;
    }

    /** `enter_level` once the arrival point `c` is known: the player
        leaves the current world with its components, the current level is
        stashed in its slot, the target level becomes current (its slot
        emptied), the player is placed at `c` and a `ChangeLevel` event is
        reported. */
    method MoveToLevel(levelIndex: nat, c: Coord)
      requires Valid() && CanMoveTo(levelIndex, c)
      modifies this, world, worlds[levelIndex]
      ensures Valid() && Entered(levelIndex, c) && WorldOk(old(world))
    {
      var playerData := LeaveLevel();
      ArriveAt(levelIndex, c, playerData);
    }

    /** `enter_level`: as `MoveToLevel`, arriving going down at the up
        staircase or exit, going up at the down staircase. */
    method EnterLevel(levelIndex: nat)
      requires Valid() && CanEnter(levelIndex)
      modifies this, world, worlds[levelIndex]
      ensures Valid() && Entered(levelIndex, old(Arrival(levelIndex)).value) && WorldOk(old(world))
    {
      var arrival := Arrival(levelIndex);
      MoveToLevel(levelIndex, arrival.value);
    }

    /** Nothing of the game changed but the entries appended to the log. */
    twostate predicate OnlyLog(entries: seq<Message>)
      reads this
    {
      LevelLog(entries) && agents == old(agents)
    }

    /** The level, its world object, the stash, the player entity and the
        events are as they were, and `entries` were appended to the log;
        the agent table may have been renewed. */
    twostate predicate LevelLog(entries: seq<Message>)
      reads this
    {
      && currentLevelIndex == old(currentLevelIndex) && world == old(world)
      && stash == old(stash) && playerEntity == old(playerEntity)
      && externalEvents == old(externalEvents) && messageLog == old(messageLog) + entries
    }

    /** The world's tables are `locs` and `comps`, as an action left them,
        followed by the NPCs' turn unless gameplay is blocked. */
    ghost predicate ThenNpcs(locs: map<Entity, Location>, comps: map<Entity, EntityData>)
      reads this, world
    {
      if IsGameplayBlocked() then world.locations == locs && world.components == comps
      else NpcsActed(locs, comps, world.locations, world.components, set e | e in comps && IsNpc(comps[e]))
    }

    /** How `player_walk` in `direction` turns out, decided on the state
        before it: off the map; into a closed door, which opens; into
        another solid feature, which closes an open door next to both the
        player and the target when there is one and is refused otherwise;
        or a step onto the target. */
    function WalkPlanOf(direction: CardinalDirection): (plan: WalkPlan)
      requires PlayerPlaced()
      reads this, world
      ensures var t := PlayerCoord().Add(CardinalDelta(direction));
        && (plan.OffMap? <==> !IsValid(t, world.size))
        && (plan.Steps? ==> plan.to == t)
    {
      var p := PlayerCoord();
      var t := p.Add(CardinalDelta(direction));
      if !IsValid(t, world.size) then OffMap
      else match world.At(t, Layer.Feature)
        case None => Steps(t)
        case Some(f) =>
          if world.Data(f).doorState == Some(Closed) then OpensDoor(f)
          else if world.Data(f).solid then
            match FirstOpenDoorFrom(world, p, t, 0)
            case Some(d) => ClosesDoor(d)
            case None => Blocked
          else Steps(t)
    }

    /** The level `change_level_if_player_is_on_stairs` enters when the
        player stands at `c`: one deeper on a down staircase, else one
        higher on an up staircase. */
    function StairsTarget(c: Coord): (r: Option<int>)
      reads this, world
      ensures r.Some? ==> r.value == currentLevelIndex + 1 || r.value == currentLevelIndex - 1
    {
      match world.At(c, Layer.Feature)
      case None => None
      case Some(f) =>
        if world.Data(f).stairsDown then Some(currentLevelIndex + 1)
        else if world.Data(f).stairsUp then Some(currentLevelIndex - 1)
        else None
    }

    /** What `change_level_if_player_is_on_stairs` demands at `c`: the
        level it would enter exists and can take the player (a level below
        the first is an index underflow in the game). */
    ghost predicate StairsSafe(c: Coord)
      reads this, world, worlds
    {
      var target := StairsTarget(c);
      target.Some? ==> 0 <= target.value && CanEnter(target.value)
    }

    /** What `player_walk` demands: a step lands on a free character slot
        (the move is unwrapped) and any staircase there can be taken. */
    ghost predicate WalkSafe(direction: CardinalDirection)
      requires PlayerPlaced()
      reads this, world, worlds
    {
      var plan := WalkPlanOf(direction);
      plan.Steps? ==> world.At(plan.to, Layer.Character).None? && StairsSafe(plan.to)
    }

    /** `change_level_if_player_is_on_stairs`. */
    method ChangeLevelIfPlayerIsOnStairs()
      requires Valid() && StairsSafe(PlayerCoord())
      modifies this, worlds
      ensures Valid()
      ensures var target := old(StairsTarget(PlayerCoord()));
        && (target.None? ==> unchanged(this, world))
        && (target.Some? ==> Entered(target.value, old(Arrival(target.value)).value))
    {
      var target := StairsTarget(PlayerCoord());
      if target.Some? {
        EnterLevel(target.value);
      }
    }

    /** The door-opening outcome of `player_walk`. */
    method WalkOpensDoor(d: Entity)
      requires Valid() && d in world.locations && world.locations[d].layer == Some(Layer.Feature)
      modifies this, world
      ensures Valid()
      ensures RowSet(world, d, OpenedDoor(old(world.Data(d)))) && OnlyLog([Message.OpenDoor])
    {
      SetDoorOpen(world, d);
      messageLog := messageLog + [Message.OpenDoor];
    }

    /** The door-closing outcome of `player_walk`. */
    method WalkClosesDoor(d: Entity)
      requires Valid() && d in world.locations && world.locations[d].layer == Some(Layer.Feature)
      modifies this, world
      ensures Valid()
      ensures RowSet(world, d, ClosedDoor(old(world.Data(d)))) && OnlyLog([Message.CloseDoor])
    {
      SetDoorClosed(world, d);
      messageLog := messageLog + [Message.CloseDoor];
    }

    /** The stepping outcome of `player_walk`: the player moves to `t` and
        takes any staircase there. */
    method WalkSteps(t: Coord)
      requires Valid() && IsValid(t, world.size) && world.At(t, Layer.Character).None? && StairsSafe(t)
      modifies this, worlds
      ensures Valid()
      ensures var target := old(StairsTarget(t));
        && (target.None? ==> Stepped(world, playerEntity, t) && OnlyLog([]))
        && (target.Some? ==> Arrived(target.value, old(Arrival(target.value)).value))
    {
      StepPlayer(t);
      ChangeLevelIfPlayerIsOnStairs();
    }

    /** The player's step onto `t`, which keeps what any staircase there
        leads to. */
    method StepPlayer(t: Coord)
      requires Valid() && IsValid(t, world.size) && world.At(t, Layer.Character).None? && StairsSafe(t)
      modifies world
      ensures Valid() && Stepped(world, playerEntity, t) && PlayerCoord() == t
      ensures StairsTarget(t) == old(StairsTarget(t)) && StairsSafe(t)
      ensures StairsTarget(t).Some? ==> Arrival(StairsTarget(t).value) == old(Arrival(StairsTarget(t).value))
    {
      ghost var target := StairsTarget(t);
      if target.Some? {
        assert worlds[target.value] != world;
      }
      MoveCharacter(world, playerEntity, t);
    }

    /** The state a walk in `direction` leaves, by its plan: a door opened
        or closed and logged, one cardinal step, or the arrival on another
        level by the stairs. */
    twostate predicate WalkDone(direction: CardinalDirection)
      requires old(Valid()) && old(WalkSafe(direction))
      reads this, world
    {
      var plan := old(WalkPlanOf(direction));
      && (plan.OpensDoor? ==> OnlyLog([Message.OpenDoor]) && RowSet(world, plan.door, OpenedDoor(old(world.Data(plan.door)))))
      && (plan.ClosesDoor? ==> OnlyLog([Message.CloseDoor]) && RowSet(world, plan.door, ClosedDoor(old(world.Data(plan.door)))))
      && (plan.Steps? ==>
            var target := old(StairsTarget(plan.to));
            && (target.None? ==> OnlyLog([]) && Stepped(world, playerEntity, plan.to))
            && (target.Some? ==> Arrived(target.value, old(Arrival(target.value)).value)))
    }

    /** What a walk in `direction` leaves once the NPCs have had their turn
        (`WalkDone` followed by `ThenNpcs`): the door opened or closed and
        logged, or the player's step, with the NPCs' acts after it; or the
        arrival on another level by the stairs. */
    twostate predicate WalkThenNpcs(direction: CardinalDirection)
      requires old(Valid()) && old(WalkSafe(direction))
      reads this, world
    {
      var plan := old(WalkPlanOf(direction));
      && (plan.OpensDoor? ==>
            && LevelLog([Message.OpenDoor])
            && ThenNpcs(old(world.locations), old(world.components)[plan.door := OpenedDoor(old(world.Data(plan.door)))]))
      && (plan.ClosesDoor? ==>
            && LevelLog([Message.CloseDoor])
            && ThenNpcs(old(world.locations), old(world.components)[plan.door := ClosedDoor(old(world.Data(plan.door)))]))
      && (plan.Steps? ==>
            var target := old(StairsTarget(plan.to));
            && (target.None? ==>
                  && LevelLog([])
                  && ThenNpcs(old(world.locations)[old(playerEntity) := Location(plan.to, Some(Layer.Character))], old(world.components)))
            && (target.Some? ==> Arrived(target.value, old(Arrival(target.value)).value)))
    }

    /** `player_walk`: see `WalkPlanOf` for the outcomes. A refused walk
        changes nothing; opening or closing a door logs it; the player
        otherwise takes one cardinal step. */
    method PlayerWalk(direction: CardinalDirection) returns (r: Result<Option<GameControlFlow>, ActionError>)
      requires Valid() && WalkSafe(direction)
      modifies this, worlds
      ensures Valid()
      ensures var plan := old(WalkPlanOf(direction));
        && (r.Err? <==> plan.OffMap? || plan.Blocked?)
        && (r.Err? ==> r.error == InvalidMove && unchanged(this, world))
        && (r.Ok? ==> r.value.None?)
      ensures WalkDone(direction)
    {
      var plan := WalkPlanOf(direction);
      match plan {
        case OffMap =>
          r := Err(InvalidMove);
        case Blocked =>
          r := Err(InvalidMove);
        case OpensDoor(d) =>
          WalkOpensDoor(d);
          r := Ok(None);
        case ClosesDoor(d) =>
          WalkClosesDoor(d);
          r := Ok(None);
        case Steps(t) =>
          WalkSteps(t);
          r := Ok(None);
      }
    }

    /** `open_door_entity_adjacent_to_coord`, the loop over the eight
        directions in the order of `Direction::all()`. */
    method OpenDoorEntityAdjacentToCoord(coord: Coord, dest: Coord) returns (r: Option<Entity>)
      ensures r == FirstOpenDoorFrom(world, coord, dest, 0)
    {
      var k := 0;
      while k < 8
        invariant 0 <= k <= 8
        invariant FirstOpenDoorFrom(world, coord, dest, 0) == FirstOpenDoorFrom(world, coord, dest, k)
      {
        var p := coord.Add(ALL_DELTAS[k]);
        var delta := dest.Sub(p);
        if Abs(delta.x) <= 1 && Abs(delta.y) <= 1 {
          var layers := world.LayersAt(p);
          if layers.Some? && layers.value.feature.Some? {
            var f := layers.value.feature.value;
            if world.Data(f).doorState == Some(Open) {
              return Some(f);
            }
          }
        }
        k := k + 1;
      }
      return None;
    }
  
    /** How `npc_walk` of `e` in `direction` turns out (see `NpcPlan`);
        `canTraverse` is the world's verdict on the feature at the target,
        which is not part of this model. */
    function NpcPlanOf(e: Entity, direction: CardinalDirection, canTraverse: bool): (plan: NpcPlan)
      requires e in world.locations
      reads this, world
      ensures var t := world.locations[e].coord.Add(CardinalDelta(direction));
        && (!IsValid(t, world.size) ==> plan.Stays?)
        && (plan.Opens? ==> world.At(t, Layer.Feature) == Some(plan.door) && world.Data(plan.door).doorState == Some(Closed))
        && (plan.Bumps? ==> world.At(t, Layer.Character) == Some(plan.character))
        && (plan.Moves? ==> plan.to == t && IsValid(t, world.size) && world.At(t, Layer.Character).None? && canTraverse)
    {
      var t := world.locations[e].coord.Add(CardinalDelta(direction));
      if !IsValid(t, world.size) then Stays
      else
        var f := world.At(t, Layer.Feature);
        if f.Some? && world.Data(f.value).doorState == Some(Closed) then Opens(f.value)
        else if world.At(t, Layer.Character).Some? then Bumps(world.At(t, Layer.Character).value)
        else if !canTraverse then Stays
        else Moves(t)
    }

    /** `npc_walk`: see `NpcPlanOf` for the outcomes. The NPC never moves
        onto a character; `bumpedPlayer` tells whether it bumped into the
        player, where the game damages the player. */
    method NpcWalk(e: Entity, direction: CardinalDirection, canTraverse: bool) returns (bumpedPlayer: bool)
      requires Valid() && e in world.locations && world.locations[e].layer == Some(Layer.Character)
      modifies world
      ensures Valid()
      ensures var plan := old(NpcPlanOf(e, direction, canTraverse));
        && (plan.Stays? || plan.Bumps? ==> unchanged(world))
        && (plan.Opens? ==> RowSet(world, plan.door, OpenedDoor(old(world.Data(plan.door)))))
        && (plan.Moves? ==> Stepped(world, e, plan.to))
        && (bumpedPlayer <==> plan.Bumps? && old(world.Data(plan.character)).player)
    {
      bumpedPlayer := false;
      match NpcPlanOf(e, direction, canTraverse) {
        case Stays =>
        case Opens(door) =>
          NpcOpensDoor(door);
        case Bumps(character) =>
          bumpedPlayer := world.Data(character).player;
        case Moves(t) =>
          NpcSteps(e, t);
      }
    }

    /** An NPC opens the closed door in its way. */
    method NpcOpensDoor(door: Entity)
      requires Valid() && door in world.locations && world.Data(door).doorState == Some(Closed)
      modifies world
      ensures Valid() && RowSet(world, door, OpenedDoor(old(world.Data(door))))
    {
      SetDoorOpen(world, door);
    }

    /** An NPC steps onto the free cell `t`. */
    method NpcSteps(e: Entity, t: Coord)
      requires Valid() && e in world.locations && world.locations[e].layer == Some(Layer.Character)
      requires IsValid(t, world.size) && world.At(t, Layer.Character).None?
      modifies world
      ensures Valid() && Stepped(world, e, t)
    {
      MoveCharacter(world, e, t);
    }

    /** `npc_setup_agents`: an agent is created for every NPC lacking one
        and dropped for every agent whose NPC is gone, so that afterwards
        the agent table holds exactly the NPCs. */
    method NpcSetupAgents()
      modifies this
      ensures agents == world.EntitiesWith(IsNpc)
      ensures currentLevelIndex == old(currentLevelIndex) && world == old(world) && stash == old(stash)
      ensures playerEntity == old(playerEntity) && messageLog == old(messageLog) && externalEvents == old(externalEvents)
    {
      var npcs := world.EntitiesWith(IsNpc);
      var table := AddMissing(agents, InOrder(npcs));
      var agentsToRemove := Stale(InOrder(table), npcs);
      table := RemoveAll(table, agentsToRemove);
      assert forall x :: x in table <==> x in npcs;
      agents := table;
    }

    /** One NPC's move in `npc_turn`: a walk when the AI chose one, with
        the outcome `NpcPlanOf` gives; the AI's other choices, and no
        choice, do nothing. Either way only `e` may move, by one step. */
    method NpcAct(e: Entity, input: Option<Input>, canTraverse: (Coord, Entity) -> bool)
      requires Valid() && e in world.components && world.components[e].npc
      modifies world
      ensures Valid()
      ensures NpcsActed(old(world.locations), old(world.components), world.locations, world.components, {e})
      ensures input.Some? && input.value.Walk? ==>
        var t := old(world.locations[e].coord).Add(CardinalDelta(input.value.direction));
        var plan := old(NpcPlanOf(e, input.value.direction, canTraverse(t, e)));
        && (plan.Stays? || plan.Bumps? ==> unchanged(world))
        && (plan.Opens? ==> RowSet(world, plan.door, OpenedDoor(old(world.Data(plan.door)))))
        && (plan.Moves? ==> Stepped(world, e, plan.to))
      ensures !(input.Some? && input.value.Walk?) ==> unchanged(world)
    {
      ghost var l, c := world.locations, world.components;
      if input.Some? && input.value.Walk? {
        var t := world.locations[e].coord.Add(CardinalDelta(input.value.direction));
        ghost var plan := NpcPlanOf(e, input.value.direction, canTraverse(t, e));
        var _ := NpcWalk(e, input.value.direction, canTraverse(t, e));
        if plan.Opens? {
          NpcsActedOpen(l, c, plan.door, {e});
        } else if plan.Moves? {
          NpcsActedStep(l, c, e, input.value.direction);
        } else {
          NpcsActedNone(l, c, {e});
        }
      } else {
        NpcsActedNone(l, c, {e});
      }
    }

    /** The loop of `npc_turn`: each entity of `order`, all of them
        distinct NPCs and among `movers`, acts in turn on the AI's choice
        for it, so each takes at most one step and nothing else moves. */
    method NpcActAll(order: seq<Entity>, decide: Entity -> Option<Input>, canTraverse: (Coord, Entity) -> bool, ghost movers: set<Entity>)
      requires Valid() && forall e :: e in order ==> e in world.components && world.components[e].npc
      requires forall i, j :: 0 <= i < j < |order| ==> order[i] != order[j]
      requires forall e :: e in order ==> e in movers
      modifies world
      ensures Valid()
      ensures NpcsActed(old(world.locations), old(world.components), world.locations, world.components, movers)
    {
      ghost var l0, c0 := world.locations, world.components;
      ghost var moved: set<Entity> := {};
      NpcsActedNone(l0, c0, {});
      var i := 0;
      while i < |order|
        invariant 0 <= i <= |order|
        invariant Valid()
        invariant forall x :: x in moved ==> x in order
        invariant forall j :: i <= j < |order| ==> order[j] !in moved
        invariant NpcsActed(l0, c0, world.locations, world.components, moved)
      {
        var e := order[i];
        NpcActNext(e, decide(e), canTraverse, l0, c0, moved);
        moved := moved + {e};
        i := i + 1;
      }
      NpcsActedWiden(l0, c0, world.locations, world.components, moved, movers);
    }

    /** One round of the loop of `npc_turn`: the NPC `e`, which has not
        acted yet, acts, and the NPCs' acts since `locs0`, `comps0` now
        include its own. */
    method NpcActNext(e: Entity, input: Option<Input>, canTraverse: (Coord, Entity) -> bool,
                      ghost locs0: map<Entity, Location>, ghost comps0: map<Entity, EntityData>, ghost moved: set<Entity>)
      requires Valid() && e in comps0 && comps0[e].npc && e !in moved
      requires NpcsActed(locs0, comps0, world.locations, world.components, moved)
      modifies world
      ensures Valid() && NpcsActed(locs0, comps0, world.locations, world.components, moved + {e})
    {
      ghost var l1, c1 := world.locations, world.components;
      DoorsOpenedTrans(comps0, c1, c1);
      NpcAct(e, input, canTraverse);
      NpcsActedTrans(locs0, comps0, l1, c1, world.locations, world.components, moved, {e});
    }

    /** The loop of `npc_turn` over the agent table, which holds exactly
        the NPCs: every NPC acts once, in table order. */
    method NpcActAgents(decide: Entity -> Option<Input>, canTraverse: (Coord, Entity) -> bool)
      requires Valid() && agents == world.EntitiesWith(IsNpc)
      modifies world
      ensures Valid() && agents == world.EntitiesWith(IsNpc)
      ensures NpcsActed(old(world.locations), old(world.components), world.locations, world.components, agents)
      ensures IsGameplayBlocked() == old(IsGameplayBlocked())
    {
      ghost var c0 := world.components;
      var order := InOrder(agents);
      NpcActAll(order, decide, canTraverse, agents);
      NpcsKept(c0, world.components);
      SameNpcs(c0, world.components, agents, world.EntitiesWith(IsNpc));
      BlockingKept(c0, world.components);
    }

    /** `npc_turn`: the agent table is brought in line with the NPCs, then
        every agent, in table order, acts on the AI's choice for it. Walks
        of NPCs never end the game, so the turn returns no control flow.
        NPCs only open doors and step: each NPC moves at most one cardinal
        step, and every other entity, the player among them, stays. */
    method NpcTurn(decide: Entity -> Option<Input>, canTraverse: (Coord, Entity) -> bool) returns (r: Option<GameControlFlow>)
      requires Valid()
      modifies this, world
      ensures Valid() && r.None?
      ensures agents == world.EntitiesWith(IsNpc)
      ensures NpcsActed(old(world.locations), old(world.components), world.locations, world.components, old(world.EntitiesWith(IsNpc)))
      ensures IsGameplayBlocked() == old(IsGameplayBlocked())
      ensures currentLevelIndex == old(currentLevelIndex) && world == old(world) && stash == old(stash)
      ensures playerEntity == old(playerEntity) && messageLog == old(messageLog) && externalEvents == old(externalEvents)
      ensures world.locations[playerEntity] == old(world.locations[playerEntity]) && world.Data(playerEntity) == old(world.Data(playerEntity))
    {
      NpcSetupAgents();
      NpcActAgents(decide, canTraverse);
      assert playerEntity !in old(world.EntitiesWith(IsNpc));
      r := None;
    }

    /** `cleanup`: every entity marked for removal is removed from the
        world, and nothing else is. */
    method Cleanup()
      requires Valid()
      modifies world
      ensures Valid() && world.EntitiesWith(IsToRemove) == {}
      ensures var gone := old(world.EntitiesWith(IsToRemove));
        world.locations == old(world.locations) - gone && world.components == old(world.components) - gone
    {
      var gone := world.EntitiesWith(IsToRemove);
      TakeOutAll(world, InOrder(gone), gone);
    }

    /** What `player_get_item` demands: when the item under the player is
        money, the player has a money count (it is unwrapped) that one
        more coin does not overflow (a `u32`). */
    ghost predicate GetSafe()
      requires Valid()
      reads this, world
    {
      var item := world.At(PlayerCoord(), Layer.Item);
      item.Some? && world.Data(item.value).moneyItem ==>
        world.Data(playerEntity).money.Some? && world.Data(playerEntity).money.value < U32_MAX
    }

    /** The state picking up leaves: a money item under the player adds
        one to the player's money and leaves the world; otherwise the
        world is unchanged. */
    twostate predicate GetDone()
      requires old(Valid()) && old(GetSafe())
      reads this, world
    {
      var item := old(world.At(PlayerCoord(), Layer.Item));
      && world == old(world)
      && (item.None? || !old(world.Data(item.value)).moneyItem ==> unchanged(world))
      && (item.Some? && old(world.Data(item.value)).moneyItem ==>
            && world.locations == old(world.locations) - {item.value}
            && world.components == old(world.components)[playerEntity := Richer(old(world.Data(playerEntity)))] - {item.value})
    }

    /** The player's components with one more coin. */
    static function Richer(p: EntityData): (r: EntityData)
      requires p.money.Some? && p.money.value < U32_MAX
      ensures r.money == Some(p.money.value + 1)
      ensures r.(money := p.money) == p
    {
      p.(money := Some(p.money.value + 1))
    }

    /** What picking up leaves once the NPCs have had their turn
        (`GetDone` followed by `ThenNpcs`). */
    twostate predicate GetThenNpcs()
      requires old(Valid()) && old(GetSafe())
      reads this, world
    {
      var item := old(world.At(PlayerCoord(), Layer.Item));
      && LevelLog(if item.None? then [Message.ActionError(NothingToGet)] else [])
      && (item.None? || !old(world.Data(item.value)).moneyItem ==> ThenNpcs(old(world.locations), old(world.components)))
      && (item.Some? && old(world.Data(item.value)).moneyItem ==>
            ThenNpcs(old(world.locations) - {item.value},
                     old(world.components)[old(playerEntity) := Richer(old(world.Data(playerEntity)))] - {item.value}))
    }

    /** `player_get_item`: with no item under the player, the error
        `NothingToGet`; a money item adds one to the player's money and is
        removed; any other item stays where it is. */
    method PlayerGetItem() returns (r: Result<Unit, ActionError>)
      requires Valid() && GetSafe()
      modifies world
      ensures Valid()
      ensures var item := old(world.At(PlayerCoord(), Layer.Item));
        && (r.Err? <==> item.None?)
        && (r.Err? ==> r.error == NothingToGet)
      ensures GetDone()
    {
      var layers := world.LayersAt(PlayerCoord());
      match layers.value.item
      case None =>
        r := Err(NothingToGet);
      case Some(item) =>
        if world.Data(item).moneyItem {
          CollectMoney(item);
        }
        r := Ok(Unit);
    }

    /** Picking up a money item: the player's money goes up by one and the
        item leaves the world. */
    method CollectMoney(item: Entity)
      requires Valid() && item != playerEntity
      requires world.Data(playerEntity).money.Some? && world.Data(playerEntity).money.value < U32_MAX
      modifies world
      ensures Valid()
      ensures world.locations == old(world.locations) - {item}
      ensures world.components == old(world.components)[playerEntity := Richer(old(world.Data(playerEntity)))] - {item}
    {
      world.SetData(playerEntity, Richer(world.Data(playerEntity)));
      var _ := TakeOut(world, item);
    }

    /** What `handle_tick` does once the animation step has run (that step
        is not part of this model): `initiallyBlocked` is whether gameplay
        was blocked before it. The NPCs take their turn exactly when the
        animation has just unblocked gameplay, and then the entities marked
        for removal are removed. No tick ends the game, since no NPC turn
        does. */
    method FinishTick(initiallyBlocked: bool, decide: Entity -> Option<Input>, canTraverse: (Coord, Entity) -> bool)
      returns (r: Option<GameControlFlow>)
      requires Valid()
      modifies this, world
      ensures Valid() && r.None? && world.EntitiesWith(IsToRemove) == {}
      ensures var turn := initiallyBlocked && !old(IsGameplayBlocked());
        && (turn ==> world.EntitiesWith(IsNpc) <= agents)
        && (turn ==> NpcsActed(old(world.locations) - old(world.EntitiesWith(IsToRemove)),
                               old(world.components) - old(world.EntitiesWith(IsToRemove)),
                               world.locations, world.components, old(world.EntitiesWith(IsNpc))))
        && (!turn ==> (
              && agents == old(agents)
              && world.locations == old(world.locations) - old(world.EntitiesWith(IsToRemove))
              && world.components == old(world.components) - old(world.EntitiesWith(IsToRemove))))
      ensures currentLevelIndex == old(currentLevelIndex) && world == old(world) && stash == old(stash)
      ensures playerEntity == old(playerEntity) && messageLog == old(messageLog) && externalEvents == old(externalEvents)
    {
      ghost var l0, c0, gone := world.locations, world.components, world.EntitiesWith(IsToRemove);
      ghost var npcs := world.EntitiesWith(IsNpc);
      if initiallyBlocked && !IsGameplayBlocked() {
        var _ := NpcTurn(decide, canTraverse);
        NpcsActedMinus(l0, c0, world.locations, world.components, npcs, gone);
        DoorsOpenedMinus(c0, world.components, gone);
        assert world.EntitiesWith(IsToRemove) == gone;
      }
      Cleanup();
      r := None;
    }

    /** The action part of `handle_input`: a walk, whose refusal is logged
        as an action error and returned; a wait, logged; firing the
        equipped weapon, reported as a `FirePistol` event; or picking up an
        item, whose refusal is logged. */
    method ApplyInput(input: Input) returns (r: Result<Option<GameControlFlow>, ActionError>)
      requires Valid()
      requires input.Walk? ==> WalkSafe(input.direction)
      requires input.Get? ==> GetSafe()
      modifies this, worlds
      ensures Valid() && (r.Ok? ==> r.value.None?)
      ensures r.Err? <==> input.Walk? && old(WalkPlanOf(input.direction)) in {OffMap, Blocked}
      ensures r.Err? ==> r.error == InvalidMove && unchanged(world) && OnlyLog([Message.ActionError(InvalidMove)])
      ensures input.Walk? && r.Ok? ==> WalkDone(input.direction)
      ensures input.Get? ==> GetDone()
      ensures input.Wait? ==> OnlyLog([Message.Wait]) && unchanged(world)
      ensures input.FireEquipped? ==> unchanged(world) && messageLog == old(messageLog) && externalEvents == old(externalEvents) + [FirePistol]
      ensures input.FireEquipped? ==> currentLevelIndex == old(currentLevelIndex) && world == old(world) && stash == old(stash) && playerEntity == old(playerEntity)
      ensures input.Get? ==> OnlyLog(if old(world.At(PlayerCoord(), Layer.Item)).None? then [Message.ActionError(NothingToGet)] else [])
    {
      match input
      case Walk(direction) =>
        r := PlayerWalk(direction);
        if r.Err? {
          messageLog := messageLog + [Message.ActionError(r.error)];
        }
      case Wait =>
        messageLog := messageLog + [Message.Wait];
        r := Ok(None);
      case FireEquipped(target) =>
        externalEvents := externalEvents + [FirePistol];
        r := Ok(None);
      case Get =>
        var got := PlayerGetItem();
        if got.Err? {
          messageLog := messageLog + [Message.ActionError(got.error)];
        }
        r := Ok(None);
    }

    /** `handle_input`: the action, then, unless it was refused or gameplay
        is blocked, the NPCs' turn. No input ends the game. A walk or a
        pick-up has the effect `WalkThenNpcs` or `GetThenNpcs` states, and a
        wait or a shot leaves the world to the NPCs. */
    method HandleInput(input: Input, decide: Entity -> Option<Input>, canTraverse: (Coord, Entity) -> bool)
      returns (r: Result<Option<GameControlFlow>, ActionError>)
      requires Valid()
      requires input.Walk? ==> WalkSafe(input.direction)
      requires input.Get? ==> GetSafe()
      modifies this, worlds
      ensures Valid() && (r.Ok? ==> r.value.None?)
      ensures r.Err? <==> input.Walk? && old(WalkPlanOf(input.direction)) in {OffMap, Blocked}
      ensures r.Err? ==> r.error == InvalidMove && unchanged(world) && OnlyLog([Message.ActionError(InvalidMove)])
      ensures input.Walk? && r.Ok? ==> WalkThenNpcs(input.direction)
      ensures IsGameplayBlocked() && input.Walk? && r.Ok? ==> WalkDone(input.direction)
      ensures input.Get? ==> GetThenNpcs()
      ensures IsGameplayBlocked() && input.Get? ==> GetDone()
      ensures input.Wait? ==> LevelLog([Message.Wait]) && ThenNpcs(old(world.locations), old(world.components))
      ensures input.FireEquipped? ==> messageLog == old(messageLog) && externalEvents == old(externalEvents) + [FirePistol]
      ensures input.FireEquipped? ==> ThenNpcs(old(world.locations), old(world.components))
      ensures r.Ok? && !IsGameplayBlocked() ==> agents == world.EntitiesWith(IsNpc)
    {
      r := ApplyInput(input);
      if r.Err? {
        return;
      }
      NpcTurnUnlessBlocked(decide, canTraverse);
    }

    /** The end of `handle_input`: the NPCs' turn, unless gameplay is
        blocked, in which case nothing changes. The player stays put. */
    method NpcTurnUnlessBlocked(decide: Entity -> Option<Input>, canTraverse: (Coord, Entity) -> bool)
      requires Valid()
      modifies this, world
      ensures Valid() && LevelLog([]) && IsGameplayBlocked() == old(IsGameplayBlocked())
      ensures ThenNpcs(old(world.locations), old(world.components))
      ensures IsGameplayBlocked() ==> unchanged(this, world)
      ensures !IsGameplayBlocked() ==> agents == world.EntitiesWith(IsNpc)
      ensures world.locations[playerEntity] == old(world.locations[playerEntity]) && world.Data(playerEntity) == old(world.Data(playerEntity))
    {
      ghost var l1, c1 := world.locations, world.components;
      if !IsGameplayBlocked() {
        ghost var npcs := world.EntitiesWith(IsNpc);
        var _ := NpcTurn(decide, canTraverse);
        NpcsActedWiden(l1, c1, world.locations, world.components, npcs, set e | e in c1 && IsNpc(c1[e]));
      }
    }
}
}
