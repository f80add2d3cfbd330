/** Level construction: turning a generated city map, or a text map, into
    a populated world. */
module Terrain {
  import opened Wrappers
  import opened Geometry
  import opened Data
  import opened GameWorld
  import opened Spawn
  import C = CityFeatures

  /** `Terrain`: a built world and where the player starts. */
  datatype Terrain = Terrain(world: World, playerSpawn: Coord)

  /** The panics of level construction. */
  datatype TerrainError = NoPlayerSpawn | RowTooLong(y: nat)

  /** The cells of tile `t` enumerated before `p` (row-major order). */
  function TilesBefore(g: Grid<C.Tile5>, t: C.Tile5, p: Coord): (r: set<Coord>)
    requires g.Valid()
    ensures forall c :: c in r <==> IsValid(c, g.size) && Before(c, p) && g.At(c) == t
  {
    set c | c in AllCoords(g.size) && Before(c, p) && g.At(c) == t
  }

  /** Enumerating one more cell adds it to the count of its tile. */
  lemma TilesBeforeStep(g: Grid<C.Tile5>, t: C.Tile5, p: Coord)
    requires g.Valid() && IsValid(p, g.size)
    ensures p !in TilesBefore(g, t, p)
    ensures |TilesBefore(g, t, Coord(p.x + 1, p.y))| == |TilesBefore(g, t, p)| + (if g.At(p) == t then 1 else 0)
  {
    var before := TilesBefore(g, t, p);
    var next := TilesBefore(g, t, Coord(p.x + 1, p.y));
    var added: set<Coord> := if g.At(p) == t then {p} else {};
    forall c ensures c in next <==> c in before + added {
    }
    assert next == before + added;
    assert before !! added;
  }

  /** The end of a row is the start of the next. */
  lemma TilesBeforeRowEnd(g: Grid<C.Tile5>, t: C.Tile5, y: int)
    requires g.Valid()
    ensures TilesBefore(g, t, Coord(g.size.width, y)) == TilesBefore(g, t, Coord(0, y + 1))
  {
  }

  /** The floor-layer tile the game spawns for a map tile, if any: the
      outdoor tiles keep their kind, and walls, floors and doors stand on
      plain floor. */
  function FloorTileOf(t: C.Tile5): (r: Option<Tile>)
    ensures r.Some? <==> t in {C.Street, C.Alley, C.Footpath, C.Wall, C.Floor, C.Door}
  {
    match t
    case Street => Some(Tile.Street)
    case Alley => Some(Tile.Alley)
    case Footpath => Some(Tile.Footpath)
    case Wall => Some(Tile.Floor)
    case Floor => Some(Tile.Floor)
    case Door => Some(Tile.Floor)
    case _ => None
  }

  /** The floor entity the game spawns at `c`. */
  function FloorDataOf(g: Grid<C.Tile5>, c: Coord): Option<EntityData>
    requires g.Valid() && IsValid(c, g.size)
  {
    match FloorTileOf(g.At(c))
    case None => None
    case Some(t) => Some(GroundData(t))
  }

  /** The feature the game spawns at `c`: debris burns on every fifth
      debris tile and tentacles glow on every tenth tentacle tile, counting
      from the first in enumeration order. */
  function FeatureDataOf(g: Grid<C.Tile5>, c: Coord): Option<EntityData>
    requires g.Valid() && IsValid(c, g.size)
  {
    match g.At(c)
    case Debris => CountedFeatureDataOf(C.Debris, |TilesBefore(g, C.Debris, c)|)
    case Tentacle => CountedFeatureDataOf(C.Tentacle, |TilesBefore(g, C.Tentacle, c)|)
    case _ => FixedFeatureDataOf(g.At(c))
  }

  /** The feature spawned for a debris or tentacle tile with `count` tiles
      of its kind before it: every fifth debris tile burns and every tenth
      tentacle glows, counting from the first. */
  function CountedFeatureDataOf(t: C.Tile5, count: nat): Option<EntityData>
  {
    match t
    case Debris => if count % 5 == 0 then Some(DebrisBurningData()) else Some(DebrisData())
    case Tentacle => if count % 10 == 0 then Some(TentacleGlowData()) else Some(TentacleData())
    case _ => None
  }

  /** The feature spawned for the map tiles whose feature does not depend
      on a count: walls, doors and staircases. */
  function FixedFeatureDataOf(t: C.Tile5): Option<EntityData>
  {
    match t
    case Wall => Some(WallData())
    case Door => Some(DoorData())
    case StairsDown => Some(StairsDownData())
    case StairsUp => Some(StairsUpData())
    case _ => None
  }

  /** The entity data in one layer slot of the tables `cells` and
      `components` matches `expected`: absent when nothing is expected,
      present with exactly that row otherwise. */
  predicate SlotHolds(cells: map<(Coord, Layer), Entity>, components: map<Entity, EntityData>,
                      c: Coord, layer: Layer, expected: Option<EntityData>)
  {
    match expected
    case None => (c, layer) !in cells
    case Some(d) => (c, layer) in cells && cells[(c, layer)] in components && components[cells[(c, layer)]] == d
  }

  /** Cell `c` of the tables holds exactly the expected floor and feature
      and nothing in the item and character layers. */
  predicate CellHolds(cells: map<(Coord, Layer), Entity>, components: map<Entity, EntityData>,
                      c: Coord, floor: Option<EntityData>, feature: Option<EntityData>)
  {
    && SlotHolds(cells, components, c, Layer.Floor, floor)
    && SlotHolds(cells, components, c, Layer.Feature, feature)
    && (c, Layer.Item) !in cells && (c, Layer.Character) !in cells
  }

  /** Cell `c` of the tables holds what the map says it should. */
  predicate CellBuiltIn(cells: map<(Coord, Layer), Entity>, components: map<Entity, EntityData>, g: Grid<C.Tile5>, c: Coord)
    requires g.Valid() && IsValid(c, g.size)
  {
    CellHolds(cells, components, c, FloorDataOf(g, c), FeatureDataOf(g, c))
  }

  /** Cell `c` of the world holds what the map says it should. */
  predicate CellBuilt(w: World, g: Grid<C.Tile5>, c: Coord)
    reads w
    requires g.Valid() && IsValid(c, g.size)
  {
    CellBuiltIn(w.cells, w.components, g, c)
  }

  /** From (`cells0`, `components0`) to (`cells1`, `components1`) entities
      were only added, all of them numbered from `next0` on, and the only
      new slots are `added`. */
  predicate Grew(cells0: map<(Coord, Layer), Entity>, components0: map<Entity, EntityData>, next0: nat,
                 cells1: map<(Coord, Layer), Entity>, components1: map<Entity, EntityData>,
                 added: set<(Coord, Layer)>)
  {
    && (forall k :: k in cells0 ==> k in cells1 && cells1[k] == cells0[k])
    && (forall k :: k in cells1 ==> k in cells0 || k in added)
    && (forall e :: e in components0 ==> e in components1 && components1[e] == components0[e])
    && (forall e :: e in components1 && e !in components0 ==> e >= next0)
  }

  /** Growth composes. */
  lemma GrewTrans(cells0: map<(Coord, Layer), Entity>, components0: map<Entity, EntityData>, next0: nat,
                  cells1: map<(Coord, Layer), Entity>, components1: map<Entity, EntityData>, next1: nat,
                  cells2: map<(Coord, Layer), Entity>, components2: map<Entity, EntityData>,
                  added01: set<(Coord, Layer)>, added12: set<(Coord, Layer)>)
    requires Grew(cells0, components0, next0, cells1, components1, added01)
    requires Grew(cells1, components1, next1, cells2, components2, added12)
    requires next0 <= next1
    ensures Grew(cells0, components0, next0, cells2, components2, added01 + added12)
  {
  }

  /** A filled slot keeps its entity and that entity's data through growth. */
  lemma GrowthKeepsSlot(cells0: map<(Coord, Layer), Entity>, components0: map<Entity, EntityData>, next0: nat,
                        cells1: map<(Coord, Layer), Entity>, components1: map<Entity, EntityData>,
                        added: set<(Coord, Layer)>, c: Coord, layer: Layer, d: EntityData)
    requires Grew(cells0, components0, next0, cells1, components1, added)
    requires SlotHolds(cells0, components0, c, layer, Some(d))
    ensures SlotHolds(cells1, components1, c, layer, Some(d))
  {
  }

  /** Adding the feature of cell `p` keeps its floor and completes it. */
  lemma GrowthKeepsCellAt(cells1: map<(Coord, Layer), Entity>, components1: map<Entity, EntityData>, next1: nat,
                          cells2: map<(Coord, Layer), Entity>, components2: map<Entity, EntityData>,
                          g: Grid<C.Tile5>, p: Coord)
    requires g.Valid() && IsValid(p, g.size)
    requires Grew(cells1, components1, next1, cells2, components2, {(p, Layer.Feature)})
    requires SlotHolds(cells1, components1, p, Layer.Floor, FloorDataOf(g, p))
    requires (p, Layer.Item) !in cells1 && (p, Layer.Character) !in cells1
    requires SlotHolds(cells2, components2, p, Layer.Feature, FeatureDataOf(g, p))
    ensures CellBuiltIn(cells2, components2, g, p)
  {
    if FloorDataOf(g, p).Some? {
      GrowthKeepsSlot(cells1, components1, next1, cells2, components2, {(p, Layer.Feature)}, p, Layer.Floor, FloorDataOf(g, p).value);
    }
  }

  /** A cell filled before some growth elsewhere still holds the same. */
  lemma GrowthKeepsCell(cells0: map<(Coord, Layer), Entity>, components0: map<Entity, EntityData>, next0: nat,
                        cells1: map<(Coord, Layer), Entity>, components1: map<Entity, EntityData>,
                        added: set<(Coord, Layer)>, c: Coord, floor: Option<EntityData>, feature: Option<EntityData>)
    requires Grew(cells0, components0, next0, cells1, components1, added)
    requires forall k :: k in cells0 ==> cells0[k] < next0
    requires forall k :: k in added ==> k.0 != c
    requires CellHolds(cells0, components0, c, floor, feature)
    ensures CellHolds(cells1, components1, c, floor, feature)
  {
  }

  /** The floor-layer spawn for one map cell. */
  method SpawnFloorOf(w: World, g: Grid<C.Tile5>, p: Coord)
    requires w.Valid() && g.Valid() && w.size == g.size && IsValid(p, g.size)
    requires (p, Layer.Floor) !in w.cells
    modifies w
    ensures w.Valid() && Grew(old(w.cells), old(w.components), old(w.nextEntity), w.cells, w.components, {(p, Layer.Floor)})
    ensures SlotHolds(w.cells, w.components, p, Layer.Floor, FloorDataOf(g, p))
    ensures w.nextEntity >= old(w.nextEntity)
  {
    var floor := FloorTileOf(g.At(p));
    if floor.Some? {
      var r := SpawnGround(w, p, floor.value);
      assert r.Ok?;
    }
  }

  /** The feature-layer spawn for one map cell, given the running counts
      of debris and tentacle tiles before it. */
  method SpawnFeatureOf(w: World, g: Grid<C.Tile5>, p: Coord, debrisCount: nat, tentacleCount: nat)
    requires w.Valid() && g.Valid() && w.size == g.size && IsValid(p, g.size)
    requires (p, Layer.Feature) !in w.cells
    requires debrisCount == |TilesBefore(g, C.Debris, p)|
    requires tentacleCount == |TilesBefore(g, C.Tentacle, p)|
    modifies w
    ensures w.Valid() && Grew(old(w.cells), old(w.components), old(w.nextEntity), w.cells, w.components, {(p, Layer.Feature)})
    ensures SlotHolds(w.cells, w.components, p, Layer.Feature, FeatureDataOf(g, p))
    ensures w.nextEntity >= old(w.nextEntity)
  {
    match g.At(p) {
      case Street =>
      case Alley =>
      case Footpath =>
      case Floor =>
      case Debris =>
        SpawnCountedFeatureOf(w, C.Debris, p, debrisCount);
      case Tentacle =>
        SpawnCountedFeatureOf(w, C.Tentacle, p, tentacleCount);
      case _ =>
        SpawnFixedFeatureOf(w, g.At(p), p);
    }
  }

  /** The feature spawn for walls, doors and staircases. */
  method SpawnFixedFeatureOf(w: World, t: C.Tile5, p: Coord)
    requires w.Valid() && IsValid(p, w.size)
    requires t == C.Wall || t == C.Door || t == C.StairsDown || t == C.StairsUp
    requires (p, Layer.Feature) !in w.cells
    modifies w
    ensures w.Valid() && Grew(old(w.cells), old(w.components), old(w.nextEntity), w.cells, w.components, {(p, Layer.Feature)})
    ensures SlotHolds(w.cells, w.components, p, Layer.Feature, FixedFeatureDataOf(t))
    ensures w.nextEntity >= old(w.nextEntity)
  {
    var r: Result<Entity, UpdateError>;
    match t {
      case Wall =>
        r := SpawnWall(w, p);
      case Door =>
        r := SpawnDoor(w, p);
      case StairsDown =>
        r := SpawnStairsDown(w, p);
      case StairsUp =>
        r := SpawnStairsUp(w, p);
    }
    assert r.Ok?;
  }

  /** The feature spawn for debris and tentacle cells: every fifth debris
      tile burns and every tenth tentacle glows, counting from the first. */
  method SpawnCountedFeatureOf(w: World, t: C.Tile5, p: Coord, count: nat)
    requires w.Valid() && IsValid(p, w.size)
    requires t == C.Debris || t == C.Tentacle
    requires (p, Layer.Feature) !in w.cells
    modifies w
    ensures w.Valid() && Grew(old(w.cells), old(w.components), old(w.nextEntity), w.cells, w.components, {(p, Layer.Feature)})
    ensures SlotHolds(w.cells, w.components, p, Layer.Feature, CountedFeatureDataOf(t, count))
    ensures w.nextEntity >= old(w.nextEntity)
  {
    var r: Result<Entity, UpdateError>;
    if t == C.Debris {
      if count % 5 == 0 {
        r := SpawnDebrisBurning(w, p);
      } else {
        r := SpawnDebris(w, p);
      }
    } else {
      if count % 10 == 0 {
        r := SpawnTentacleGlow(w, p);
      } else {
        r := SpawnTentacle(w, p);
      }
    }
    assert r.Ok?;
  }

  /** The spawns for one map cell: its floor, then its feature. */
  method SpawnCell(w: World, g: Grid<C.Tile5>, p: Coord, debrisCount: nat, tentacleCount: nat)
    requires w.Valid() && g.Valid() && w.size == g.size && IsValid(p, g.size)
    requires forall k :: k in w.cells ==> k.0 != p
    requires debrisCount == |TilesBefore(g, C.Debris, p)|
    requires tentacleCount == |TilesBefore(g, C.Tentacle, p)|
    modifies w
    ensures w.Valid() && Grew(old(w.cells), old(w.components), old(w.nextEntity), w.cells, w.components, {(p, Layer.Floor), (p, Layer.Feature)})
    ensures w.nextEntity >= old(w.nextEntity)
    ensures CellBuilt(w, g, p)
  {
    ghost var cells0, components0, next0 := w.cells, w.components, w.nextEntity;
    SpawnFloorOf(w, g, p);
    ghost var cells1, components1, next1 := w.cells, w.components, w.nextEntity;
    assert (p, Layer.Feature) !in cells1;
    SpawnFeatureOf(w, g, p, debrisCount, tentacleCount);
    GrewTrans(cells0, components0, next0, cells1, components1, next1, w.cells, w.components,
              {(p, Layer.Floor)}, {(p, Layer.Feature)});
    GrowthKeepsCellAt(cells1, components1, next1, w.cells, w.components, g, p);
  }

  /** `spawn` is the last up staircase enumerated before `p`, or `None`
      when there is none. */
  ghost predicate LastStairsUpBefore(g: Grid<C.Tile5>, spawn: Option<Coord>, p: Coord)
    requires g.Valid()
  {
    match spawn
    case None => forall c :: IsValid(c, g.size) && Before(c, p) ==> g.At(c) != C.StairsUp
    case Some(s) =>
      && IsValid(s, g.size) && Before(s, p) && g.At(s) == C.StairsUp
      && forall c :: IsValid(c, g.size) && Before(c, p) && g.At(c) == C.StairsUp ==> !Before(s, c)
  }

  /** Enumerating cell `p` makes it the last up staircase when it is one. */
  lemma LastStairsUpStep(g: Grid<C.Tile5>, spawn: Option<Coord>, p: Coord)
    requires g.Valid() && IsValid(p, g.size)
    requires LastStairsUpBefore(g, spawn, p)
    ensures LastStairsUpBefore(g, if g.At(p) == C.StairsUp then Some(p) else spawn, Coord(p.x + 1, p.y))
  {
    var q := Coord(p.x + 1, p.y);
    forall c | IsValid(c, g.size)
      ensures Before(c, q) <==> Before(c, p) || c == p
    {
    }
  }

  /** The running state of the enumeration before `p`, on the tables:
      exactly the cells before `p` are filled, each as the map says, and
      the counts and the spawn are those of the cells before `p`. */
  ghost predicate EnumeratedIn(cells: map<(Coord, Layer), Entity>, components: map<Entity, EntityData>,
                               g: Grid<C.Tile5>, p: Coord, debris: nat, tentacles: nat, spawn: Option<Coord>)
    requires g.Valid()
  {
    && (forall k :: k in cells ==> Before(k.0, p))
    && (forall c :: IsValid(c, g.size) && Before(c, p) ==> CellBuiltIn(cells, components, g, c))
    && debris == |TilesBefore(g, C.Debris, p)|
    && tentacles == |TilesBefore(g, C.Tentacle, p)|
    && LastStairsUpBefore(g, spawn, p)
  }

  /** The running state of the enumeration before `p`. */
  ghost predicate Enumerated(w: World, g: Grid<C.Tile5>, p: Coord, debris: nat, tentacles: nat, spawn: Option<Coord>)
    reads w
    requires g.Valid()
  {
    && w.Valid() && w.size == g.size
    && EnumeratedIn(w.cells, w.components, g, p, debris, tentacles, spawn)
  }

  /** The end of a row is the start of the next. */
  lemma RowEnd(cells: map<(Coord, Layer), Entity>, components: map<Entity, EntityData>,
               g: Grid<C.Tile5>, y: int, debris: nat, tentacles: nat, spawn: Option<Coord>)
    requires g.Valid()
    requires forall k :: k in cells ==> IsValid(k.0, g.size)
    requires EnumeratedIn(cells, components, g, Coord(g.size.width, y), debris, tentacles, spawn)
    ensures EnumeratedIn(cells, components, g, Coord(0, y + 1), debris, tentacles, spawn)
  {
    TilesBeforeRowEnd(g, C.Debris, y);
    TilesBeforeRowEnd(g, C.Tentacle, y);
    RowEndStairs(g, spawn, y);
  }

  /** The last up staircase before the end of a row is the last one
      before the start of the next. */
  lemma RowEndStairs(g: Grid<C.Tile5>, spawn: Option<Coord>, y: int)
    requires g.Valid()
    requires LastStairsUpBefore(g, spawn, Coord(g.size.width, y))
    ensures LastStairsUpBefore(g, spawn, Coord(0, y + 1))
  {
  }

  /** Building cell `p` on top of the cells before it yields the cells
      before the next one. */
  lemma BuiltStep(cells0: map<(Coord, Layer), Entity>, components0: map<Entity, EntityData>, next0: nat,
                  cells1: map<(Coord, Layer), Entity>, components1: map<Entity, EntityData>,
                  g: Grid<C.Tile5>, p: Coord)
    requires g.Valid() && IsValid(p, g.size)
    requires forall k :: k in cells0 ==> Before(k.0, p) && cells0[k] < next0
    requires forall c :: IsValid(c, g.size) && Before(c, p) ==> CellBuiltIn(cells0, components0, g, c)
    requires Grew(cells0, components0, next0, cells1, components1, {(p, Layer.Floor), (p, Layer.Feature)})
    requires CellBuiltIn(cells1, components1, g, p)
    ensures forall k :: k in cells1 ==> Before(k.0, Coord(p.x + 1, p.y))
    ensures forall c :: IsValid(c, g.size) && Before(c, Coord(p.x + 1, p.y)) ==> CellBuiltIn(cells1, components1, g, c)
  {
    forall c | IsValid(c, g.size) && Before(c, Coord(p.x + 1, p.y))
      ensures CellBuiltIn(cells1, components1, g, c)
    {
      if c != p {
        GrowthKeepsCell(cells0, components0, next0, cells1, components1, {(p, Layer.Floor), (p, Layer.Feature)},
                        c, FloorDataOf(g, c), FeatureDataOf(g, c));
      }
    }
  }

  /** The enumeration state after cell `p` has been built. */
  lemma EnumeratedStep(cells0: map<(Coord, Layer), Entity>, components0: map<Entity, EntityData>, next0: nat,
                       cells1: map<(Coord, Layer), Entity>, components1: map<Entity, EntityData>,
                       g: Grid<C.Tile5>, p: Coord, debris: nat, tentacles: nat, spawn: Option<Coord>)
    requires g.Valid() && IsValid(p, g.size)
    requires EnumeratedIn(cells0, components0, g, p, debris, tentacles, spawn)
    requires forall k :: k in cells0 ==> cells0[k] < next0
    requires Grew(cells0, components0, next0, cells1, components1, {(p, Layer.Floor), (p, Layer.Feature)})
    requires CellBuiltIn(cells1, components1, g, p)
    ensures EnumeratedIn(cells1, components1, g, Coord(p.x + 1, p.y),
                         debris + if g.At(p) == C.Debris then 1 else 0,
                         tentacles + if g.At(p) == C.Tentacle then 1 else 0,
                         if g.At(p) == C.StairsUp then Some(p) else spawn)
  {
    BuiltStep(cells0, components0, next0, cells1, components1, g, p);
    TilesBeforeStep(g, C.Debris, p);
    TilesBeforeStep(g, C.Tentacle, p);
    LastStairsUpStep(g, spawn, p);
  }

  /** One step of the enumeration: build cell `p` and update the running
      counts and the player spawn. */
  method BuildCell(w: World, g: Grid<C.Tile5>, x: int, y: int, debris: nat, tentacles: nat, spawn: Option<Coord>)
    returns (debris': nat, tentacles': nat, spawn': Option<Coord>)
    requires g.Valid() && IsValid(Coord(x, y), g.size)
    requires Enumerated(w, g, Coord(x, y), debris, tentacles, spawn)
    modifies w
    ensures Enumerated(w, g, Coord(x + 1, y), debris', tentacles', spawn')
  {
    var p := Coord(x, y);
    SpawnNextCell(w, g, p, debris, tentacles, spawn);
    debris' := debris + if g.At(p) == C.Debris then 1 else 0;
    tentacles' := tentacles + if g.At(p) == C.Tentacle then 1 else 0;
    spawn' := if g.At(p) == C.StairsUp then Some(p) else spawn;
    assert Coord(p.x + 1, p.y) == Coord(x + 1, y);
  }

  /** Building cell `p` takes the enumeration one cell further. */
  method SpawnNextCell(w: World, g: Grid<C.Tile5>, p: Coord, debris: nat, tentacles: nat, spawn: Option<Coord>)
    requires g.Valid() && IsValid(p, g.size)
    requires Enumerated(w, g, p, debris, tentacles, spawn)
    modifies w
    ensures Enumerated(w, g, Coord(p.x + 1, p.y),
                       debris + if g.At(p) == C.Debris then 1 else 0,
                       tentacles + if g.At(p) == C.Tentacle then 1 else 0,
                       if g.At(p) == C.StairsUp then Some(p) else spawn)
  {
    ghost var cells0, components0, next0 := w.cells, w.components, w.nextEntity;
    w.CellsBelowNext();
    SpawnCell(w, g, p, debris, tentacles);
    EnumeratedStep(cells0, components0, next0, w.cells, w.components, g, p, debris, tentacles, spawn);
  }

  /** An empty world is the state before the first cell. */
  lemma EnumerationStart(g: Grid<C.Tile5>)
    requires g.Valid()
    ensures EnumeratedIn(map[], map[], g, Coord(0, 0), 0, 0, None)
  {
    assert TilesBefore(g, C.Debris, Coord(0, 0)) == {};
    assert TilesBefore(g, C.Tentacle, Coord(0, 0)) == {};
  }

  /** The state after the last row covers the whole map. */
  lemma EnumerationEnd(cells: map<(Coord, Layer), Entity>, components: map<Entity, EntityData>,
                       g: Grid<C.Tile5>, debris: nat, tentacles: nat, spawn: Option<Coord>)
    requires g.Valid()
    requires EnumeratedIn(cells, components, g, Coord(0, g.size.height), debris, tentacles, spawn)
    ensures forall c :: IsValid(c, g.size) ==> CellBuiltIn(cells, components, g, c)
    ensures spawn.None? <==> forall c :: IsValid(c, g.size) ==> g.At(c) != C.StairsUp
  {
    if spawn.Some? {
      assert g.At(spawn.value) == C.StairsUp;
    }
  }

  /** A finished row of the world is the start of the next one. */
  lemma RowDone(w: World, g: Grid<C.Tile5>, y: nat, debris: nat, tentacles: nat, spawn: Option<Coord>)
    requires g.Valid()
    requires Enumerated(w, g, Coord(g.size.width, y), debris, tentacles, spawn)
    ensures w.Valid() && w.size == g.size
    ensures EnumeratedIn(w.cells, w.components, g, Coord(0, y + 1), debris, tentacles, spawn)
  {
    assert forall k :: k in w.cells ==> IsValid(k.0, g.size) by {
      forall k | k in w.cells ensures IsValid(k.0, g.size) {
        assert w.cells[k] in w.locations;
      }
    }
    RowEnd(w.cells, w.components, g, y, debris, tentacles, spawn);
  }

  /** One row of the enumeration. */
  method BuildRow(w: World, g: Grid<C.Tile5>, y: nat, debris: nat, tentacles: nat, spawn: Option<Coord>)
    returns (debris': nat, tentacles': nat, spawn': Option<Coord>)
    requires g.Valid() && y < g.size.height
    requires w.Valid() && w.size == g.size
    requires EnumeratedIn(w.cells, w.components, g, Coord(0, y), debris, tentacles, spawn)
    modifies w
    ensures w.Valid() && w.size == g.size
    ensures EnumeratedIn(w.cells, w.components, g, Coord(0, y + 1), debris', tentacles', spawn')
  {
    debris', tentacles', spawn' := BuildRowCells(w, g, y, debris, tentacles, spawn);
    RowDone(w, g, y, debris', tentacles', spawn');
  }

  /** The cells of one row, left to right. */
  method BuildRowCells(w: World, g: Grid<C.Tile5>, y: nat, debris: nat, tentacles: nat, spawn: Option<Coord>)
    returns (debris': nat, tentacles': nat, spawn': Option<Coord>)
    requires g.Valid() && y < g.size.height
    requires Enumerated(w, g, Coord(0, y), debris, tentacles, spawn)
    modifies w
    ensures Enumerated(w, g, Coord(g.size.width, y), debris', tentacles', spawn')
  {
    debris', tentacles', spawn' := debris, tentacles, spawn;
    var x := 0;
    while x < g.size.width
      invariant 0 <= x <= g.size.width
      invariant Enumerated(w, g, Coord(x, y), debris', tentacles', spawn')
    {
      debris', tentacles', spawn' := BuildCell(w, g, x, y, debris', tentacles', spawn');
      x := x + 1;
    }
  }

  /** The rows of the enumeration, top to bottom. */
  method BuildRows(w: World, g: Grid<C.Tile5>) returns (debris: nat, tentacles: nat, spawn: Option<Coord>)
    requires g.Valid()
    requires w.Valid() && w.size == g.size
    requires EnumeratedIn(w.cells, w.components, g, Coord(0, 0), 0, 0, None)
    modifies w
    ensures w.Valid() && w.size == g.size
    ensures EnumeratedIn(w.cells, w.components, g, Coord(0, g.size.height), debris, tentacles, spawn)
  {
    debris, tentacles, spawn := 0, 0, None;
    var y := 0;
    while y < g.size.height
      invariant 0 <= y <= g.size.height
      invariant w.Valid() && w.size == g.size
      invariant EnumeratedIn(w.cells, w.components, g, Coord(0, y), debris, tentacles, spawn)
    {
      debris, tentacles, spawn := BuildRow(w, g, y, debris, tentacles, spawn);
      y := y + 1;
    }
  }

  /** `Terrain::generate`, given the generated city map: every cell is
      translated into its floor and feature entities, the burning debris
      and glowing tentacles are picked by their running counts, and the
      player starts on the last up staircase. A map without one is an
      error. */
  method Generate(g: Grid<C.Tile5>) returns (r: Result<Terrain, TerrainError>)
    requires g.Valid()
    ensures r.Err? <==> forall c :: IsValid(c, g.size) ==> g.At(c) != C.StairsUp
    ensures r.Err? ==> r.error == NoPlayerSpawn
    ensures r.Ok? ==> fresh(r.value.world) && r.value.world.Valid() && r.value.world.size == g.size
    ensures r.Ok? ==> forall c :: IsValid(c, g.size) ==> CellBuilt(r.value.world, g, c)
    ensures r.Ok? ==> LastStairsUpBefore(g, Some(r.value.playerSpawn), Coord(0, g.size.height))
  {
    var w := new World(g.size);
    EnumerationStart(g);
    var debris, tentacles, spawn := BuildRows(w, g);
    EnumerationEnd(w.cells, w.components, g, debris, tentacles, spawn);
    if spawn.None? {
      return Err(NoPlayerSpawn);
    }
    r := Ok(Terrain(w, spawn.value));
  }

  // ---------------------------------------------------------------------
  // The text level (`generate_text`)

  /** The index of the first newline of `s`. */
  function NewlineIndex(s: string): (i: nat)
    requires '\n' in s
    ensures i < |s| && s[i] == '\n' && '\n' !in s[..i]
  {
    if s[0] == '\n' then 0
    else
      var i := 1 + NewlineIndex(s[1..]);
      assert s[..i] == [s[0]] + s[1..][..i - 1];
      i
  }

  /** `str::split('\n')`: the pieces between newlines, one more than
      there are newlines. */
  function Lines(s: string): (r: seq<string>)
    ensures |r| >= 1
    ensures forall i :: 0 <= i < |r| ==> '\n' !in r[i]
    decreases |s|
  {
    if '\n' in s then
      var i := NewlineIndex(s);
      [s[..i]] + Lines(s[i + 1..])
    else [s]
  }

  /** Joining lines with newlines, the inverse of `Lines`. */
  function Unlines(r: seq<string>): (s: string)
    requires |r| >= 1
  {
    if |r| == 1 then r[0] else r[0] + "\n" + Unlines(r[1..])
  }

  lemma {:induction false} UnlinesLines(s: string)
    ensures Unlines(Lines(s)) == s
    decreases |s|
  {
    if '\n' in s {
      var i := NewlineIndex(s);
      UnlinesLines(s[i + 1..]);
      SplitAtNewline(s, i);
    }
  }

  lemma SplitAtNewline(s: string, i: nat)
    requires i < |s| && s[i] == '\n'
    ensures s == s[..i] + "\n" + s[i + 1..]
  {
  }

  lemma {:induction false} LinesUnlines(r: seq<string>)
    requires |r| >= 1
    requires forall i :: 0 <= i < |r| ==> '\n' !in r[i]
    ensures Lines(Unlines(r)) == r
  {
    if |r| > 1 {
      FirstNewline(r[0], Unlines(r[1..]));
      LinesUnlines(r[1..]);
    } else {
      assert '\n' !in r[0];
    }
  }

  /** The first newline of a line followed by a newline is the one after
      the line. */
  lemma FirstNewline(line: string, rest: string)
    requires '\n' !in line
    ensures var s := line + "\n" + rest;
      '\n' in s && NewlineIndex(s) == |line| && s[..|line|] == line && s[|line| + 1..] == rest
  {
    var s := line + "\n" + rest;
    assert s[|line|] == '\n';
    var i := NewlineIndex(s);
    assert s[..|line|] == line;
  }

  /** The size of a text level: the first row's length by the number of rows. */
  function TextSize(rows: seq<string>): (s: Size)
    requires |rows| >= 1
    ensures s.width == |rows[0]| && s.height == |rows|
  {
    Size(|rows[0]|, |rows|)
  }

  /** Whether the text has a character at `c`. */
  predicate HasChar(rows: seq<string>, c: Coord) {
    0 <= c.y < |rows| && 0 <= c.x < |rows[c.y]|
  }

  /** A text cell holds a floor whenever it has a character. */
  function TextFloor(rows: seq<string>, c: Coord): Option<EntityData> {
    if HasChar(rows, c) then Some(GroundData(Tile.Floor)) else None
  }

  /** The feature of a text cell: a wall for `#`, a closed door for `+`,
      stairs down for `>`, none otherwise. */
  function TextFeature(rows: seq<string>, c: Coord): Option<EntityData> {
    if !HasChar(rows, c) then None
    else match rows[c.y][c.x]
      case '#' => Some(WallData())
      case '+' => Some(DoorData())
      case '>' => Some(StairsDownData())
      case _ => None
  }

  /** The first row longer than the first row: spawning past the world's
      right edge panics there. */
  function FirstLongRow(rows: seq<string>): (r: Option<nat>)
    requires |rows| >= 1
    ensures r.None? <==> forall y :: 0 <= y < |rows| ==> |rows[y]| <= |rows[0]|
    ensures r.Some? ==>
      (r.value < |rows| && |rows[r.value]| > |rows[0]| && forall y :: 0 <= y < r.value ==> |rows[y]| <= |rows[0]|)
  {
    FirstLongRowFrom(rows, 0)
  }

  function FirstLongRowFrom(rows: seq<string>, from: nat): (r: Option<nat>)
    requires 1 <= |rows| && from <= |rows|
    ensures r.None? <==> forall y :: from <= y < |rows| ==> |rows[y]| <= |rows[0]|
    ensures r.Some? ==>
      (from <= r.value < |rows| && |rows[r.value]| > |rows[0]| && forall y :: from <= y < r.value ==> |rows[y]| <= |rows[0]|)
    decreases |rows| - from
  {
    if from == |rows| then None
    else if |rows[from]| > |rows[0]| then Some(from)
    else FirstLongRowFrom(rows, from + 1)
  }

  /** A long row with none before it is the first long row. */
  lemma FirstLongRowAt(rows: seq<string>, y: nat)
    requires |rows| >= 1 && y < |rows| && |rows[y]| > |rows[0]|
    requires forall y' :: 0 <= y' < y ==> |rows[y']| <= |rows[0]|
    ensures FirstLongRow(rows) == Some(y)
  {
  }

  /** `spawn` is the last `@` before `p`, or `None` when there is none. */
  ghost predicate LastPlayerBefore(rows: seq<string>, spawn: Option<Coord>, p: Coord) {
    match spawn
    case None => forall c :: HasChar(rows, c) && Before(c, p) ==> rows[c.y][c.x] != '@'
    case Some(s) =>
      && HasChar(rows, s) && Before(s, p) && rows[s.y][s.x] == '@'
      && forall c :: HasChar(rows, c) && Before(c, p) && rows[c.y][c.x] == '@' ==> !Before(s, c)
  }

  /** The running state of the text enumeration before `p`. */
  ghost predicate TextEnumeratedIn(cells: map<(Coord, Layer), Entity>, components: map<Entity, EntityData>,
                                   rows: seq<string>, p: Coord, spawn: Option<Coord>)
    requires |rows| >= 1
  {
    && (forall k :: k in cells ==> Before(k.0, p))
    && (forall c :: IsValid(c, TextSize(rows)) && Before(c, p) ==>
          CellHolds(cells, components, c, TextFloor(rows, c), TextFeature(rows, c)))
    && LastPlayerBefore(rows, spawn, p)
  }

  /** The feature-layer spawn for one character. */
  method SpawnTextFeature(w: World, rows: seq<string>, p: Coord)
    requires |rows| >= 1 && w.Valid() && w.size == TextSize(rows)
    requires IsValid(p, w.size) && HasChar(rows, p)
    requires (p, Layer.Feature) !in w.cells
    modifies w
    ensures w.Valid() && Grew(old(w.cells), old(w.components), old(w.nextEntity), w.cells, w.components, {(p, Layer.Feature)})
    ensures SlotHolds(w.cells, w.components, p, Layer.Feature, TextFeature(rows, p))
    ensures w.nextEntity >= old(w.nextEntity)
  {
    var r: Result<Entity, UpdateError>;
    match rows[p.y][p.x] {
      case '#' =>
        r := SpawnWall(w, p);
      case '+' =>
        r := SpawnDoor(w, p);
      case '>' =>
        r := SpawnStairsDown(w, p);
      case _ =>
        // `.` and `@` add nothing; any other character is only logged.
        return;
    }
    assert r.Ok?;
  }

  /** The spawns for one character: a floor, then the feature it names. */
  method SpawnTextCell(w: World, rows: seq<string>, p: Coord)
    requires |rows| >= 1 && w.Valid() && w.size == TextSize(rows)
    requires IsValid(p, w.size) && HasChar(rows, p)
    requires forall k :: k in w.cells ==> k.0 != p
    modifies w
    ensures w.Valid()
    ensures Grew(old(w.cells), old(w.components), old(w.nextEntity), w.cells, w.components, {(p, Layer.Floor), (p, Layer.Feature)})
    ensures w.nextEntity >= old(w.nextEntity)
    ensures CellHolds(w.cells, w.components, p, TextFloor(rows, p), TextFeature(rows, p))
  {
    ghost var cells0, components0, next0 := w.cells, w.components, w.nextEntity;
    var r := SpawnGround(w, p, Tile.Floor);
    assert r.Ok?;
    ghost var cells1, components1, next1 := w.cells, w.components, w.nextEntity;
    assert (p, Layer.Feature) !in cells1;
    SpawnTextFeature(w, rows, p);
    GrewTrans(cells0, components0, next0, cells1, components1, next1, w.cells, w.components,
              {(p, Layer.Floor)}, {(p, Layer.Feature)});
    GrowthKeepsSlot(cells1, components1, next1, w.cells, w.components, {(p, Layer.Feature)},
                    p, Layer.Floor, GroundData(Tile.Floor));
  }

  /** The text enumeration state after the character at `p`. */
  lemma TextStep(cells0: map<(Coord, Layer), Entity>, components0: map<Entity, EntityData>, next0: nat,
                 cells1: map<(Coord, Layer), Entity>, components1: map<Entity, EntityData>,
                 rows: seq<string>, p: Coord, spawn: Option<Coord>)
    requires |rows| >= 1 && IsValid(p, TextSize(rows)) && HasChar(rows, p)
    requires TextEnumeratedIn(cells0, components0, rows, p, spawn)
    requires forall k :: k in cells0 ==> cells0[k] < next0
    requires Grew(cells0, components0, next0, cells1, components1, {(p, Layer.Floor), (p, Layer.Feature)})
    requires CellHolds(cells1, components1, p, TextFloor(rows, p), TextFeature(rows, p))
    ensures TextEnumeratedIn(cells1, components1, rows, Coord(p.x + 1, p.y),
                             if rows[p.y][p.x] == '@' then Some(p) else spawn)
  {
    var q := Coord(p.x + 1, p.y);
    forall c | IsValid(c, TextSize(rows)) && Before(c, q)
      ensures CellHolds(cells1, components1, c, TextFloor(rows, c), TextFeature(rows, c))
    {
      if c != p {
        GrowthKeepsCell(cells0, components0, next0, cells1, components1, {(p, Layer.Floor), (p, Layer.Feature)},
                        c, TextFloor(rows, c), TextFeature(rows, c));
      }
    }
    forall c | HasChar(rows, c)
      ensures Before(c, q) <==> Before(c, p) || c == p
    {
    }
  }

  /** The end of a row of text is the start of the next: the cells past
      a short row's end stay empty. */
  lemma TextRowEnd(cells: map<(Coord, Layer), Entity>, components: map<Entity, EntityData>,
                   rows: seq<string>, y: nat, spawn: Option<Coord>)
    requires |rows| >= 1 && y < |rows| && |rows[y]| <= |rows[0]|
    requires forall k :: k in cells ==> IsValid(k.0, TextSize(rows))
    requires TextEnumeratedIn(cells, components, rows, Coord(|rows[y]|, y), spawn)
    ensures TextEnumeratedIn(cells, components, rows, Coord(0, y + 1), spawn)
  {
    forall c | IsValid(c, TextSize(rows)) && Before(c, Coord(0, y + 1)) && !Before(c, Coord(|rows[y]|, y))
      ensures CellHolds(cells, components, c, TextFloor(rows, c), TextFeature(rows, c))
    {
      assert !HasChar(rows, c);
    }
  }

  /** One row of the text: a floor and a feature per character; a
      character past the first row's length panics. */
  method BuildTextRow(w: World, rows: seq<string>, y: nat, spawn: Option<Coord>) returns (r: Result<Option<Coord>, TerrainError>)
    requires |rows| >= 1 && y < |rows| && w.Valid() && w.size == TextSize(rows)
    requires TextEnumeratedIn(w.cells, w.components, rows, Coord(0, y), spawn)
    modifies w
    ensures w.Valid() && w.size == TextSize(rows)
    ensures r.Err? <==> |rows[y]| > |rows[0]|
    ensures r.Err? ==> r.error == RowTooLong(y)
    ensures r.Ok? ==> TextEnumeratedIn(w.cells, w.components, rows, Coord(0, y + 1), r.value)
  {
    var spawn' := spawn;
    var x := 0;
    while x < |rows[y]|
      invariant 0 <= x <= |rows[y]| && x <= |rows[0]|
      invariant w.Valid() && w.size == TextSize(rows)
      invariant TextEnumeratedIn(w.cells, w.components, rows, Coord(x, y), spawn')
    {
      if x >= |rows[0]| {
        return Err(RowTooLong(y));
      }
      spawn' := BuildTextCell(w, rows, x, y, spawn');
      x := x + 1;
    }
    TextRowDone(w, rows, y, spawn');
    r := Ok(spawn');
  }

  /** The character at (`x`, `y`): its spawns, and the player's spawn
      when it is `@`. */
  method BuildTextCell(w: World, rows: seq<string>, x: int, y: int, spawn: Option<Coord>) returns (spawn': Option<Coord>)
    requires |rows| >= 1 && 0 <= y < |rows| && 0 <= x < |rows[y]| && x < |rows[0]|
    requires w.Valid() && w.size == TextSize(rows)
    requires TextEnumeratedIn(w.cells, w.components, rows, Coord(x, y), spawn)
    modifies w
    ensures w.Valid() && w.size == TextSize(rows)
    ensures TextEnumeratedIn(w.cells, w.components, rows, Coord(x + 1, y), spawn')
  {
    var p := Coord(x, y);
    ghost var cells0, components0, next0 := w.cells, w.components, w.nextEntity;
    assert forall k :: k in cells0 ==> cells0[k] < next0 by {
      forall k | k in cells0 ensures cells0[k] < next0 {
        assert cells0[k] in w.locations;
      }
    }
    SpawnTextCell(w, rows, p);
    TextStep(cells0, components0, next0, w.cells, w.components, rows, p, spawn);
    spawn' := if rows[y][x] == '@' then Some(p) else spawn;
    assert Coord(p.x + 1, p.y) == Coord(x + 1, y);
  }

  /** A finished row of the text is the start of the next one. */
  lemma TextRowDone(w: World, rows: seq<string>, y: nat, spawn: Option<Coord>)
    requires |rows| >= 1 && y < |rows| && |rows[y]| <= |rows[0]|
    requires w.Valid() && w.size == TextSize(rows)
    requires TextEnumeratedIn(w.cells, w.components, rows, Coord(|rows[y]|, y), spawn)
    ensures TextEnumeratedIn(w.cells, w.components, rows, Coord(0, y + 1), spawn)
  {
    assert forall k :: k in w.cells ==> IsValid(k.0, TextSize(rows)) by {
      forall k | k in w.cells ensures IsValid(k.0, TextSize(rows)) {
        assert w.cells[k] in w.locations;
      }
    }
    TextRowEnd(w.cells, w.components, rows, y, spawn);
  }

  /** The whole text enumerated: every cell filled as the text says. */
  lemma TextEnumerationEnd(cells: map<(Coord, Layer), Entity>, components: map<Entity, EntityData>,
                           rows: seq<string>, spawn: Option<Coord>)
    requires |rows| >= 1
    requires TextEnumeratedIn(cells, components, rows, Coord(0, |rows|), spawn)
    ensures forall c :: IsValid(c, TextSize(rows)) ==> CellHolds(cells, components, c, TextFloor(rows, c), TextFeature(rows, c))
    ensures spawn.None? <==> forall c :: HasChar(rows, c) ==> rows[c.y][c.x] != '@'
  {
    if spawn.Some? {
      assert rows[spawn.value.y][spawn.value.x] == '@';
    }
  }

  /** `Terrain::generate_text` on the level text `txt`: the world is as
      wide as the first line and as tall as the number of lines; every
      character spawns a floor, `#`, `+` and `>` add a wall, a door and
      stairs down, and the last `@` is the player spawn. A line longer
      than the first panics at its first character past the edge, and a
      text without `@` panics at the end. */
  method GenerateText(txt: string) returns (r: Result<Terrain, TerrainError>)
    ensures var rows := Lines(txt);
      FirstLongRow(rows).Some? ==> r == Err(RowTooLong(FirstLongRow(rows).value))
    ensures var rows := Lines(txt);
      FirstLongRow(rows).None? ==>
        (r.Err? <==> forall c :: HasChar(rows, c) ==> rows[c.y][c.x] != '@')
    ensures r.Err? ==> r.error == NoPlayerSpawn || r.error.RowTooLong?
    ensures var rows := Lines(txt);
      r.Ok? ==>
        && fresh(r.value.world) && r.value.world.Valid() && r.value.world.size == TextSize(rows)
        && (forall c :: IsValid(c, TextSize(rows)) ==>
              CellHolds(r.value.world.cells, r.value.world.components, c, TextFloor(rows, c), TextFeature(rows, c)))
        && LastPlayerBefore(rows, Some(r.value.playerSpawn), Coord(0, |rows|))
  {
    var rows := Lines(txt);
    var w := new World(TextSize(rows));
    var built := BuildTextRows(w, rows);
    if built.Err? {
      return Err(built.error);
    }
    var spawn := built.value;
    TextEnumerationEnd(w.cells, w.components, rows, spawn);
    if spawn.None? {
      return Err(NoPlayerSpawn);
    }
    r := Ok(Terrain(w, spawn.value));
  }

  /** The rows of the text, top to bottom, stopping at the first row longer
      than the first. */
  method BuildTextRows(w: World, rows: seq<string>) returns (r: Result<Option<Coord>, TerrainError>)
    requires |rows| >= 1 && w.Valid() && w.size == TextSize(rows)
    requires w.cells == map[]
    modifies w
    ensures w.Valid() && w.size == TextSize(rows)
    ensures r.Err? <==> FirstLongRow(rows).Some?
    ensures r.Err? ==> r.error == RowTooLong(FirstLongRow(rows).value)
    ensures r.Ok? ==> TextEnumeratedIn(w.cells, w.components, rows, Coord(0, |rows|), r.value)
  {
    var spawn: Option<Coord> := None;
    var y := 0;
    while y < |rows|
      invariant 0 <= y <= |rows|
      invariant w.Valid() && w.size == TextSize(rows)
      invariant forall y' :: 0 <= y' < y ==> |rows[y']| <= |rows[0]|
      invariant TextEnumeratedIn(w.cells, w.components, rows, Coord(0, y), spawn)
    {
      var row := BuildTextRow(w, rows, y, spawn);
      if row.Err? {
        FirstLongRowAt(rows, y);
        return Err(row.error);
      }
      spawn := row.value;
      y := y + 1;
    }
    r := Ok(spawn);
  }
}
