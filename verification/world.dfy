/** The game world: the entity allocator, the component table, the
    realtime component table and the spatial table, kept together in one
    object as the game's `World` struct keeps them. The foreign tables are
    specified abstractly by maps. */
module GameWorld {
  import opened Wrappers
  import opened Geometry
  import opened Data

  /** Entities are identified by allocation number; an allocator never hands
      out the same entity twice (generations make freed indices distinct). */
  type Entity = nat

  /** The realtime components an entity may carry; their states are not
      part of this model. */
  datatype RealtimeKind = Flicker | ParticleEmitter | Movement | Fade | LightColourFade

  /** Why a spatial-table update was refused. */
  datatype UpdateError = OccupiedBy(occupant: Entity) | DestinationOutOfBounds

  /** The four layer slots of one cell (`Layers`). */
  datatype Layers = Layers(floor: Option<Entity>, feature: Option<Entity>, item: Option<Entity>, character: Option<Entity>)

  /** The slot of `layer` in `layers`. */
  function Slot(layers: Layers, layer: Layer): Option<Entity> {
    match layer
    case Floor => layers.floor
    case Feature => layers.feature
    case Item => layers.item
    case Character => layers.character
  }

  class World {
    /** The grid size of the spatial table. */
    const size: Size
    /** Occupied layer slots: at most one entity per (coordinate, layer). */
    var cells: map<(Coord, Layer), Entity>
    /** The location of every entity the spatial table knows. */
    var locations: map<Entity, Location>
    /** The component table, one row per entity that has components. */
    var components: map<Entity, EntityData>
    /** The realtime component table. */
    var realtime: map<Entity, set<RealtimeKind>>
    /** The next entity the allocator hands out. */
    var nextEntity: nat
    /** Entities allocated and not freed. */
    var live: set<Entity>

    /** The spatial table is consistent: `cells` and `locations` describe
        each other, every location is inside the grid, and every entity the
        tables mention was allocated. */
    predicate Valid()
      reads this
    {
      (forall k {:trigger cells[k]} :: k in cells ==> cells[k] in locations && locations[cells[k]] == Location(k.0, Some(k.1)))
      && (forall e :: e in locations ==> IsValid(locations[e].coord, size))
      && (forall e :: e in locations && locations[e].layer.Some? ==>
            (locations[e].coord, locations[e].layer.value) in cells
            && cells[(locations[e].coord, locations[e].layer.value)] == e)
      && (forall e :: e in locations ==> e < nextEntity)
      && (forall e :: e in components ==> e < nextEntity)
      && (forall e :: e in realtime ==> e < nextEntity)
      && (forall e :: e in live ==> e < nextEntity)
    }

    /** Every entity in the spatial table was allocated. */
    lemma CellsBelowNext()
      requires Valid()
      ensures forall k :: k in cells ==> cells[k] < nextEntity
    {
      forall k | k in cells ensures cells[k] < nextEntity {
        assert cells[k] in locations;
      }
    }

    /** `World::new`: empty tables over a grid of the given size. */
    constructor (size: Size)
      ensures this.size == size && Valid()
      ensures cells == map[] && locations == map[] && components == map[] && realtime == map[]
      ensures nextEntity == 0 && live == {}
    {
      this.size := size;
      cells := map[];
      locations := map[];
      components := map[];
      realtime := map[];
      nextEntity := 0;
      live := {};
    }

    /** The component row of an entity; an entity without a row has none. */
    function Data(e: Entity): (d: EntityData)
      reads this
      ensures e !in components ==> d == NO_DATA
    {
      if e in components then components[e] else NO_DATA
    }

    /** `spatial_table.coord_of`. */
    function CoordOf(e: Entity): (r: Option<Coord>)
      reads this
      ensures r.Some? <==> e in locations
      ensures Valid() && r.Some? ==> IsValid(r.value, size)
    {
      if e in locations then Some(locations[e].coord) else None
    }

    /** The entity in one layer slot, if any. */
    function At(c: Coord, layer: Layer): (r: Option<Entity>)
      reads this
      ensures Valid() && r.Some? ==> CoordOf(r.value) == Some(c) && locations[r.value].layer == Some(layer)
    {
      if (c, layer) in cells then Some(cells[(c, layer)]) else None
    }

    /** `spatial_table.layers_at`: the four slots of an in-bounds cell, or
        `None` outside the grid. */
    function LayersAt(c: Coord): (r: Option<Layers>)
      reads this
      ensures r.Some? <==> IsValid(c, size)
      ensures r.Some? ==> forall l :: Slot(r.value, l) == At(c, l)
    {
      if IsValid(c, size) then Some(Layers(At(c, Layer.Floor), At(c, Layer.Feature), At(c, Layer.Item), At(c, Layer.Character)))
      else None
    }

    /** Whether an update of `e` to `loc` is refused, and why. */
    function UpdateRefusal(e: Entity, loc: Location): (r: Option<UpdateError>)
      reads this
      ensures r == Some(DestinationOutOfBounds) <==> !IsValid(loc.coord, size)
      ensures r.None? <==> IsValid(loc.coord, size) && (loc.layer.None? || At(loc.coord, loc.layer.value) in {None, Some(e)})
    {
      if !IsValid(loc.coord, size) then Some(DestinationOutOfBounds)
      else if loc.layer.Some? && (loc.coord, loc.layer.value) in cells && cells[(loc.coord, loc.layer.value)] != e
      then Some(OccupiedBy(cells[(loc.coord, loc.layer.value)]))
      else None
    }

    /** `cells` with the slot `e` occupies, if any, vacated. */
    function Vacated(e: Entity): map<(Coord, Layer), Entity>
      reads this
    {
      if e in locations && locations[e].layer.Some? then cells - {(locations[e].coord, locations[e].layer.value)}
      else cells
    }

    /** `cells` after `e` moves to `loc`. */
    function Moved(e: Entity, loc: Location): map<(Coord, Layer), Entity>
      reads this
    {
      if loc.layer.Some? then Vacated(e)[(loc.coord, loc.layer.value) := e] else Vacated(e)
    }

    /** `spatial_table.update`: move (or place) `e` to `loc`, refusing a
        location outside the grid or a slot another entity holds. */
    method Update(e: Entity, loc: Location) returns (r: Result<Unit, UpdateError>)
      requires Valid() && e < nextEntity
      modifies this
      ensures Valid()
      ensures r.Err? <==> old(UpdateRefusal(e, loc)).Some?
      ensures r.Err? ==> r.error == old(UpdateRefusal(e, loc)).value && unchanged(this)
      ensures r.Ok? ==> cells == old(Moved(e, loc)) && locations == old(locations)[e := loc]
      ensures components == old(components) && realtime == old(realtime)
      ensures nextEntity == old(nextEntity) && live == old(live)
    {
      var refusal := UpdateRefusal(e, loc);
      if refusal.Some? {
        return Err(refusal.value);
      }
      cells := Moved(e, loc);
      locations := locations[e := loc];
      r := Ok(Unit);
    }

    /** `spatial_table.update_coord`: move `e` to `c`, keeping its layer; an
        entity the table does not know is placed without a layer. */
    method UpdateCoord(e: Entity, c: Coord) returns (r: Result<Unit, UpdateError>)
      requires Valid() && e < nextEntity
      modifies this
      ensures Valid()
      ensures var loc := Location(c, if e in old(locations) then old(locations)[e].layer else None);
        && (r.Err? <==> old(UpdateRefusal(e, loc)).Some?)
        && (r.Err? ==> unchanged(this))
        && (r.Ok? ==> cells == old(Moved(e, loc)) && locations == old(locations)[e := loc])
      ensures components == old(components) && realtime == old(realtime)
      ensures nextEntity == old(nextEntity) && live == old(live)
    {
      var layer := if e in locations then locations[e].layer else None;
      r := Update(e, Location(c, layer));
    }

    /** `spatial_table.remove`: `e` leaves the spatial table. */
    method RemoveLocation(e: Entity)
      requires Valid()
      modifies this
      ensures Valid()
      ensures cells == old(Vacated(e)) && locations == old(locations) - {e}
      ensures components == old(components) && realtime == old(realtime)
      ensures nextEntity == old(nextEntity) && live == old(live)
    {
      cells := Vacated(e);
      locations := locations - {e};
    }

    /** `entity_allocator.alloc`: an entity never handed out before. */
    method Alloc() returns (e: Entity)
      requires Valid()
      modifies this
      ensures Valid()
      ensures e == old(nextEntity) && nextEntity == e + 1 && live == old(live) + {e}
      ensures e !in locations && e !in components && e !in realtime && e !in old(live)
      ensures cells == old(cells) && locations == old(locations)
      ensures components == old(components) && realtime == old(realtime)
    {
      e := nextEntity;
      nextEntity := nextEntity + 1;
      live := live + {e};
    }

    /** `entity_allocator.free`. */
    method Free(e: Entity)
      requires Valid()
      modifies this
      ensures Valid() && live == old(live) - {e}
      ensures cells == old(cells) && locations == old(locations)
      ensures components == old(components) && realtime == old(realtime) && nextEntity == old(nextEntity)
    {
      live := live - {e};
    }

    /** `components.insert_entity_data`: overlay `data` on the entity's row. */
    method InsertData(e: Entity, data: EntityData)
      requires Valid() && e < nextEntity
      modifies this
      ensures Valid()
      ensures components == old(components)[e := Overlay(old(Data(e)), data)]
      ensures cells == old(cells) && locations == old(locations) && realtime == old(realtime)
      ensures nextEntity == old(nextEntity) && live == old(live)
    {
      components := components[e := Overlay(Data(e), data)];
    }

    /** Replace an entity's whole component row (the effect of a component
        update that inserts some components and removes others). */
    method SetData(e: Entity, data: EntityData)
      requires Valid() && e < nextEntity
      modifies this
      ensures Valid()
      ensures components == old(components)[e := data]
      ensures cells == old(cells) && locations == old(locations) && realtime == old(realtime)
      ensures nextEntity == old(nextEntity) && live == old(live)
    {
      components := components[e := data];
    }

    /** `components.remove_entity`: drop the entity's whole row. */
    method RemoveComponents(e: Entity)
      requires Valid()
      modifies this
      ensures Valid()
      ensures components == old(components) - {e} && Data(e) == NO_DATA
      ensures cells == old(cells) && locations == old(locations) && realtime == old(realtime)
      ensures nextEntity == old(nextEntity) && live == old(live)
    {
      components := components - {e};
    }

    /** `realtime_components.remove_entity`: drop every realtime component. */
    method RemoveRealtimeComponents(e: Entity)
      requires Valid()
      modifies this
      ensures Valid()
      ensures realtime == old(realtime) - {e}
      ensures cells == old(cells) && locations == old(locations) && components == old(components)
      ensures nextEntity == old(nextEntity) && live == old(live)
    {
      realtime := realtime - {e};
    }

    /** The realtime components of an entity. */
    function RealtimeOf(e: Entity): (r: set<RealtimeKind>)
      reads this
      ensures e !in realtime ==> r == {}
    {
      if e in realtime then realtime[e] else {}
    }

    /** Insert one realtime component for `e`. */
    method InsertRealtime(e: Entity, kind: RealtimeKind)
      requires Valid() && e < nextEntity
      modifies this
      ensures Valid()
      ensures realtime == old(realtime)[e := old(RealtimeOf(e)) + {kind}]
      ensures cells == old(cells) && locations == old(locations) && components == old(components)
      ensures nextEntity == old(nextEntity) && live == old(live)
    {
      realtime := realtime[e := RealtimeOf(e) + {kind}];
    }

    /** Remove one realtime component of `e`, if it has it. */
    method RemoveRealtime(e: Entity, kind: RealtimeKind)
      requires Valid()
      modifies this
      ensures Valid()
      ensures RealtimeOf(e) == old(RealtimeOf(e)) - {kind}
      ensures forall x :: x != e ==> RealtimeOf(x) == old(RealtimeOf(x))
      ensures cells == old(cells) && locations == old(locations) && components == old(components)
      ensures nextEntity == old(nextEntity) && live == old(live)
    {
      if e in realtime {
        realtime := realtime[e := realtime[e] - {kind}];
      }
    }

    /** The entities whose component row satisfies `p`. */
    function EntitiesWith(p: EntityData -> bool): (r: set<Entity>)
      reads this
      ensures forall e :: e in r <==> e in components && p(components[e])
    {
      set e | e in components && p(components[e])
    }

    /** `world.remove_entity`: the entity leaves the spatial table, the
        component table and the realtime table, and is freed; its component
        row is returned. */
    method RemoveEntity(e: Entity) returns (data: EntityData)
      requires Valid()
      modifies this
      ensures Valid()
      ensures data == old(Data(e))
      ensures cells == old(Vacated(e)) && locations == old(locations) - {e}
      ensures components == old(components) - {e} && realtime == old(realtime) - {e}
      ensures nextEntity == old(nextEntity) && live == old(live) - {e}
    {
      data := Data(e);
      RemoveLocation(e);
      RemoveComponents(e);
      RemoveRealtimeComponents(e);
      Free(e);
    }
  }

  /** The least entity of a non-empty set: the first one an entity table
      iterates over. */
  function Least(s: set<Entity>): (m: Entity)
    requires s != {}
    ensures m in s && forall x :: x in s ==> m <= x
  {
    LeastExists(s);
    var m :| m in s && forall x :: x in s ==> m <= x; m
  }

  lemma LeastExists(s: set<Entity>)
    requires s != {}
    ensures exists m :: m in s && forall x :: x in s ==> m <= x
  {
    var m := LeastWitness(s);
  }

  /** A least element, found by removing an arbitrary element and
      comparing it with the least of the rest. */
  ghost function LeastWitness(s: set<Entity>): (m: Entity)
    requires s != {}
    ensures m in s && forall x :: x in s ==> m <= x
    decreases |s|
  {
    var y :| y in s;
    var rest := s - {y};
    if rest == {} then
      assert forall x :: x in s ==> x == y || x in rest;
      y
    else
      var m := LeastWitness(rest);
      assert forall x :: x in s ==> x == y || x in rest;
      if y < m then y else m
  }

  /** The first entity of a set in iteration order, or `None` when empty. */
  function First(s: set<Entity>): (r: Option<Entity>)
    ensures r.None? <==> s == {}
    ensures r.Some? ==> r.value in s && forall x :: x in s ==> r.value <= x
  {
    if s == {} then None else Some(Least(s))
  }

  /** A set of entities in iteration order (ascending allocation order). */
  function InOrder(s: set<Entity>): (r: seq<Entity>)
    ensures |r| == |s|
    ensures forall e :: e in r <==> e in s
    ensures forall i, j :: 0 <= i < j < |r| ==> r[i] < r[j]
    decreases |s|
  {
    if s == {} then []
    else
      var m := Least(s);
      var rest := InOrder(s - {m});
      ConsAscending(m, rest);
      [m] + rest
  }

  /** An ascending sequence stays ascending with a smaller entity in
      front. */
  lemma ConsAscending(m: Entity, rest: seq<Entity>)
    requires forall i, j :: 0 <= i < j < |rest| ==> rest[i] < rest[j]
    requires forall e :: e in rest ==> m < e
    ensures forall i, j :: 0 <= i < j < |[m] + rest| ==> ([m] + rest)[i] < ([m] + rest)[j]
  {
    var r := [m] + rest;
    forall i, j | 0 <= i < j < |r| ensures r[i] < r[j] {
      assert r[j] == rest[j - 1] && rest[j - 1] in rest;
      if 0 < i {
        assert r[i] == rest[i - 1];
      }
    }
  }
}
