/** Entity construction: the player's component row and the `spawn_*`
    functions that allocate an entity, place it in one layer slot and give
    it its components. */
module Spawn {
  import opened Wrappers
  import opened Ints
  import opened Geometry
  import opened Data
  import opened GameWorld

  /** The light every light-giving feature carries, in the given colour,
      with a squared vision distance of 200 and a diminish of 1/40. */
  function FeatureLight(colour: Rgb24): Light {
    Light(colour, 200, 1, 40)
  }

  /** `make_player`: a character with the player tile and a grey light. */
  function MakePlayer(): (d: EntityData)
    ensures d.character && d.tile == Some(Tile.Player) && d.light.Some?
    ensures !d.npc && !d.solid && !d.player && d.money.None?
  {
    NO_DATA.(character := true, tile := Some(Tile.Player), light := Some(Light(Rgb24(150, 150, 150), 200, 1, 100)))
  }

  function WallData(): EntityData {
    NO_DATA.(tile := Some(Tile.Wall), solid := true, solidForParticles := true, opacity := Some(255))
  }

  function DebrisData(): EntityData {
    NO_DATA.(tile := Some(Tile.Debris), solid := true)
  }

  function DebrisBurningData(): EntityData {
    NO_DATA.(realtime := true, tile := Some(Tile.DebrisBurning), solid := true, light := Some(Light(Rgb24(255, 87, 0), 200, 1, 40)))
  }

  function TentacleData(): EntityData {
    NO_DATA.(tile := Some(Tile.Tentacle), solid := true)
  }

  function TentacleGlowData(): EntityData {
    NO_DATA.(tile := Some(Tile.TentacleGlow), solid := true, light := Some(FeatureLight(Rgb24(0, 255, 0))))
  }

  /** The row of a floor-layer tile: the tile alone. */
  function GroundData(t: Tile): EntityData {
    NO_DATA.(tile := Some(t))
  }

  function DoorData(): EntityData {
    NO_DATA.(tile := Some(Tile.DoorClosed), solid := true, solidForParticles := true, doorState := Some(Closed), opacity := Some(255))
  }

  function StairsDownData(): EntityData {
    NO_DATA.(tile := Some(Tile.StairsDown), stairsDown := true, light := Some(FeatureLight(Rgb24(0, 255, 255))))
  }

  function StairsUpData(): EntityData {
    NO_DATA.(tile := Some(Tile.StairsUp), stairsUp := true, light := Some(FeatureLight(Rgb24(0, 255, 255))))
  }

  function ExitData(): EntityData {
    NO_DATA.(tile := Some(Tile.Exit), exit := true, light := Some(FeatureLight(Rgb24(0, 0, 255))))
  }

  function ZombieData(): EntityData {
    NO_DATA.(tile := Some(Tile.Zombie), npc := true, character := true)
  }

  /** A location is taken: outside the grid, or a layer slot already held. */
  predicate Occupied(w: World, loc: Location)
    reads w
  {
    !IsValid(loc.coord, w.size) || (loc.layer.Some? && (loc.coord, loc.layer.value) in w.cells)
  }

  /** The state change of a successful spawn of `e` at `loc` with `data`:
      a fresh entity takes the slot and gets exactly `data`; nothing else
      changes but the realtime components named in `kinds`. */
  twostate predicate Spawned(w: World, e: Entity, loc: Location, data: EntityData, kinds: set<RealtimeKind>)
    reads w
  {
    && e == old(w.nextEntity) && w.nextEntity == e + 1 && w.live == old(w.live) + {e}
    && w.cells == (if loc.layer.Some? then old(w.cells)[(loc.coord, loc.layer.value) := e] else old(w.cells))
    && w.locations == old(w.locations)[e := loc]
    && w.components == old(w.components)[e := data]
    && w.realtime == (if kinds == {} then old(w.realtime) else old(w.realtime)[e := kinds])
  }

  /** `insert_entity_data`: allocate, place and fill in an entity. The
      placement is unwrapped, so the location must be free. */
  method InsertEntityData(w: World, loc: Location, data: EntityData) returns (e: Entity)
    requires w.Valid() && !Occupied(w, loc)
    modifies w
    ensures w.Valid() && Spawned(w, e, loc, data, {})
    ensures w.CoordOf(e) == Some(loc.coord) && w.Data(e) == data
  {
    e := w.Alloc();
    var r := w.Update(e, loc);
    assert r.Ok?;
    w.InsertData(e, data);
    OverlayOnEmpty(data);
  }

  /** `spawn_entity`: as `insert_entity_data`, except that a taken location
      is an error (a panic in the game). */
  method SpawnEntity(w: World, loc: Location, data: EntityData) returns (r: Result<Entity, UpdateError>)
    requires w.Valid()
    modifies w
    ensures w.Valid()
    ensures r.Err? <==> old(Occupied(w, loc))
    ensures r.Err? ==> w.cells == old(w.cells) && w.components == old(w.components)
    ensures r.Ok? ==> Spawned(w, r.value, loc, data, {})
  {
    var e := w.Alloc();
    var u := w.Update(e, loc);
    if u.Err? {
      return Err(u.error);
    }
    w.InsertData(e, data);
    OverlayOnEmpty(data);
    r := Ok(e);
  }

  /** A spawn on one layer of one coordinate. */
  method SpawnAt(w: World, c: Coord, layer: Layer, data: EntityData) returns (r: Result<Entity, UpdateError>)
    requires w.Valid()
    modifies w
    ensures w.Valid()
    ensures r.Err? <==> old(Occupied(w, Location(c, Some(layer))))
    ensures r.Ok? ==> Spawned(w, r.value, Location(c, Some(layer)), data, {})
    ensures r.Ok? ==> r.value !in w.realtime
    ensures r.Ok? ==> w.At(c, layer) == Some(r.value) && w.Data(r.value) == data
  {
    r := SpawnEntity(w, Location(c, Some(layer)), data);
  }

  /** `spawn_wall`: a solid, opaque wall feature that also stops particles. */
  method SpawnWall(w: World, c: Coord) returns (r: Result<Entity, UpdateError>)
    requires w.Valid()
    modifies w
    ensures w.Valid()
    ensures r.Err? <==> old(Occupied(w, Location(c, Some(Layer.Feature))))
    ensures r.Ok? ==> Spawned(w, r.value, Location(c, Some(Layer.Feature)), WallData(), {})
    ensures r.Ok? ==> var d := w.Data(r.value);
      d.tile == Some(Tile.Wall) && d.solid && d.solidForParticles && d.opacity == Some(255)
  {
    r := SpawnAt(w, c, Layer.Feature, WallData());
  }

  /** `spawn_debris`: a solid feature that lets particles through. */
  method SpawnDebris(w: World, c: Coord) returns (r: Result<Entity, UpdateError>)
    requires w.Valid()
    modifies w
    ensures w.Valid()
    ensures r.Err? <==> old(Occupied(w, Location(c, Some(Layer.Feature))))
    ensures r.Ok? ==> Spawned(w, r.value, Location(c, Some(Layer.Feature)), DebrisData(), {})
    ensures r.Ok? ==> var d := w.Data(r.value);
      d.tile == Some(Tile.Debris) && d.solid && !d.solidForParticles
  {
    r := SpawnAt(w, c, Layer.Feature, DebrisData());
  }

  /** `spawn_debris_burning`: a solid, lit, realtime feature that flickers
      and emits particles. */
  method SpawnDebrisBurning(w: World, c: Coord) returns (r: Result<Entity, UpdateError>)
    requires w.Valid()
    modifies w
    ensures w.Valid()
    ensures r.Err? <==> old(Occupied(w, Location(c, Some(Layer.Feature))))
    ensures r.Ok? ==> Spawned(w, r.value, Location(c, Some(Layer.Feature)), DebrisBurningData(), {Flicker, ParticleEmitter})
    ensures r.Ok? ==> var d := w.Data(r.value);
      d.tile == Some(Tile.DebrisBurning) && d.solid && d.realtime && d.light.Some?
  {
    r := SpawnAt(w, c, Layer.Feature, DebrisBurningData());
    if r.Ok? {
      ghost var before := w.realtime;
      assert w.RealtimeOf(r.value) == {};
      w.InsertRealtime(r.value, Flicker);
      assert w.RealtimeOf(r.value) == {Flicker};
      w.InsertRealtime(r.value, ParticleEmitter);
      assert w.RealtimeOf(r.value) == {Flicker, ParticleEmitter};
      assert w.realtime == before[r.value := {Flicker, ParticleEmitter}];
    }
  }

  /** `spawn_tentacle`. */
  method SpawnTentacle(w: World, c: Coord) returns (r: Result<Entity, UpdateError>)
    requires w.Valid()
    modifies w
    ensures w.Valid()
    ensures r.Err? <==> old(Occupied(w, Location(c, Some(Layer.Feature))))
    ensures r.Ok? ==> Spawned(w, r.value, Location(c, Some(Layer.Feature)), TentacleData(), {})
    ensures r.Ok? ==> var d := w.Data(r.value); d.tile == Some(Tile.Tentacle) && d.solid
  {
    r := SpawnAt(w, c, Layer.Feature, TentacleData());
  }

  /** `spawn_tentacle_glow`: a tentacle that gives green light. */
  method SpawnTentacleGlow(w: World, c: Coord) returns (r: Result<Entity, UpdateError>)
    requires w.Valid()
    modifies w
    ensures w.Valid()
    ensures r.Err? <==> old(Occupied(w, Location(c, Some(Layer.Feature))))
    ensures r.Ok? ==> Spawned(w, r.value, Location(c, Some(Layer.Feature)), TentacleGlowData(), {})
    ensures r.Ok? ==> var d := w.Data(r.value); d.tile == Some(Tile.TentacleGlow) && d.solid && d.light.Some?
  {
    r := SpawnAt(w, c, Layer.Feature, TentacleGlowData());
  }

  /** `spawn_floor`, `spawn_street`, `spawn_alley` and `spawn_footpath`:
      a non-solid entity on the floor layer carrying the tile only. */
  method SpawnGround(w: World, c: Coord, t: Tile) returns (r: Result<Entity, UpdateError>)
    requires w.Valid() && t in {Tile.Floor, Tile.Street, Tile.Alley, Tile.Footpath}
    modifies w
    ensures w.Valid()
    ensures r.Err? <==> old(Occupied(w, Location(c, Some(Layer.Floor))))
    ensures r.Ok? ==> Spawned(w, r.value, Location(c, Some(Layer.Floor)), GroundData(t), {})
    ensures r.Ok? ==> var d := w.Data(r.value); d.tile == Some(t) && !d.solid && !d.solidForParticles
  {
    r := SpawnAt(w, c, Layer.Floor, GroundData(t));
  }

  /** `spawn_door`: a closed door, solid and opaque. */
  method SpawnDoor(w: World, c: Coord) returns (r: Result<Entity, UpdateError>)
    requires w.Valid()
    modifies w
    ensures w.Valid()
    ensures r.Err? <==> old(Occupied(w, Location(c, Some(Layer.Feature))))
    ensures r.Ok? ==> Spawned(w, r.value, Location(c, Some(Layer.Feature)), DoorData(), {})
    ensures r.Ok? ==> var d := w.Data(r.value);
      d.tile == Some(Tile.DoorClosed) && d.doorState == Some(Closed) && d.solid && d.opacity == Some(255)
  {
    r := SpawnAt(w, c, Layer.Feature, DoorData());
  }

  /** `spawn_stairs_down`. */
  method SpawnStairsDown(w: World, c: Coord) returns (r: Result<Entity, UpdateError>)
    requires w.Valid()
    modifies w
    ensures w.Valid()
    ensures r.Err? <==> old(Occupied(w, Location(c, Some(Layer.Feature))))
    ensures r.Ok? ==> Spawned(w, r.value, Location(c, Some(Layer.Feature)), StairsDownData(), {})
    ensures r.Ok? ==> var d := w.Data(r.value); d.tile == Some(Tile.StairsDown) && d.stairsDown && !d.solid
  {
    r := SpawnAt(w, c, Layer.Feature, StairsDownData());
  }

  /** `spawn_stairs_up`. */
  method SpawnStairsUp(w: World, c: Coord) returns (r: Result<Entity, UpdateError>)
    requires w.Valid()
    modifies w
    ensures w.Valid()
    ensures r.Err? <==> old(Occupied(w, Location(c, Some(Layer.Feature))))
    ensures r.Ok? ==> Spawned(w, r.value, Location(c, Some(Layer.Feature)), StairsUpData(), {})
    ensures r.Ok? ==> var d := w.Data(r.value); d.tile == Some(Tile.StairsUp) && d.stairsUp && !d.solid
  {
    r := SpawnAt(w, c, Layer.Feature, StairsUpData());
  }

  /** `spawn_exit`. */
  method SpawnExit(w: World, c: Coord) returns (r: Result<Entity, UpdateError>)
    requires w.Valid()
    modifies w
    ensures w.Valid()
    ensures r.Err? <==> old(Occupied(w, Location(c, Some(Layer.Feature))))
    ensures r.Ok? ==> Spawned(w, r.value, Location(c, Some(Layer.Feature)), ExitData(), {})
    ensures r.Ok? ==> var d := w.Data(r.value); d.tile == Some(Tile.Exit) && d.exit && !d.solid
  {
    r := SpawnAt(w, c, Layer.Feature, ExitData());
  }

  /** `spawn_zombie`: an npc character. */
  method SpawnZombie(w: World, c: Coord) returns (r: Result<Entity, UpdateError>)
    requires w.Valid()
    modifies w
    ensures w.Valid()
    ensures r.Err? <==> old(Occupied(w, Location(c, Some(Layer.Character))))
    ensures r.Ok? ==> Spawned(w, r.value, Location(c, Some(Layer.Character)), ZombieData(), {})
    ensures r.Ok? ==> var d := w.Data(r.value); d.tile == Some(Tile.Zombie) && d.npc && d.character
  {
    r := SpawnAt(w, c, Layer.Character, ZombieData());
  }

  /** Each spawn fills exactly one slot: spawning twice at the same
      location always fails the second time. */
  method SpawnTwiceFails(w: World, loc: Location, a: EntityData, b: EntityData)
      returns (first: Result<Entity, UpdateError>, second: Result<Entity, UpdateError>)
    requires w.Valid() && loc.layer.Some?
    modifies w
    ensures w.Valid()
    ensures second.Err?
    ensures first.Ok? ==> w.At(loc.coord, loc.layer.value) == Some(first.value)
  {
    first := SpawnEntity(w, loc, a);
    second := SpawnEntity(w, loc, b);
  }
}
