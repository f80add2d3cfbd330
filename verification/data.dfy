/** The world's data vocabulary: tiles, door states and the clamped
    `Meter` used for the player's statistics. */
module Data {
  import opened Wrappers
  import opened Ints
  import opened Geometry

  /** The tiles of the world. `Exit` and `Zombie` are used by the spawn
      functions of a later revision than the tile list itself. */
  datatype Tile =
    | Player | Floor | Wall | Street | Alley | Footpath | DoorClosed | DoorOpen
    | StairsDown | StairsUp | Debris | DebrisBurning | Tentacle | TentacleGlow
    | Exit | Zombie

  datatype DoorState = Open | Closed

  /** Spatial layers; each cell holds at most one entity per layer. */
  datatype Layer = Floor | Feature | Item | Character

  /** Where an entity is: its coordinate and, optionally, the layer it occupies. */
  datatype Location = Location(coord: Coord, layer: Option<Layer>)

  datatype Rgb24 = Rgb24(r: u8, g: u8, b: u8)
  datatype Rgba32 = Rgba32(r: u8, g: u8, b: u8, a: u8)

  /** A light source: colour, squared vision distance and the diminish
      ratio `numerator / denominator`. */
  datatype Light = Light(colour: Rgb24, visionDistanceSquared: nat, diminishNumerator: nat, diminishDenominator: nat)

  /** What a projectile stops at. */
  datatype CollidesWith = CollidesWith(solid: bool, character: bool)

  /** What happens to a projectile when it stops. */
  datatype OnCollision = Remove | RemoveRealtime

  /** The damage a projectile deals; its contents are not part of this model. */
  datatype ProjectileDamage = ProjectileDamage

  /** One entity's row of the component table. Unit components are flags;
      valued components are options. The components are those the game
      code of every revision shown uses, not only those the component
      declaration lists. */
  datatype EntityData = EntityData(
    realtime: bool,
    tile: Option<Tile>,
    solid: bool,
    solidForParticles: bool,
    doorState: Option<DoorState>,
    opacity: Option<u8>,
    stairsDown: bool,
    stairsUp: bool,
    exit: bool,
    colourHint: Option<Rgba32>,
    light: Option<Light>,
    npc: bool,
    character: bool,
    player: bool,
    money: Option<u32>,
    moneyItem: bool,
    particle: bool,
    blocksGameplay: bool,
    collidesWith: Option<CollidesWith>,
    onCollision: Option<OnCollision>,
    projectileDamage: Option<ProjectileDamage>,
    toRemove: bool)

  /** The row of an entity with no components (`EntityData::default()`). */
  const NO_DATA: EntityData := EntityData(
    false, None, false, false, None, None, false, false, false, None, None,
    false, false, false, None, false, false, false, None, None, None, false)

  /** A component slot after an insert of `new_`: the new value when present. */
  function Replace<T>(old_: Option<T>, new_: Option<T>): Option<T> {
    if new_.Some? then new_ else old_
  }

  /** `Components::insert_entity_data`: every component present in `data`
      is inserted, replacing the old value; the others are kept. */
  function Overlay(old_: EntityData, data: EntityData): (r: EntityData)
    ensures r.tile == (Replace(old_.tile, data.tile))
    ensures r.solid == (old_.solid || data.solid)
  {
    EntityData(
      old_.realtime || data.realtime,
      Replace(old_.tile, data.tile),
      old_.solid || data.solid,
      old_.solidForParticles || data.solidForParticles,
      Replace(old_.doorState, data.doorState),
      Replace(old_.opacity, data.opacity),
      old_.stairsDown || data.stairsDown,
      old_.stairsUp || data.stairsUp,
      old_.exit || data.exit,
      Replace(old_.colourHint, data.colourHint),
      Replace(old_.light, data.light),
      old_.npc || data.npc,
      old_.character || data.character,
      old_.player || data.player,
      Replace(old_.money, data.money),
      old_.moneyItem || data.moneyItem,
      old_.particle || data.particle,
      old_.blocksGameplay || data.blocksGameplay,
      Replace(old_.collidesWith, data.collidesWith),
      Replace(old_.onCollision, data.onCollision),
      Replace(old_.projectileDamage, data.projectileDamage),
      old_.toRemove || data.toRemove)
  }

  /** Inserting into an entity with no components yields exactly the data inserted. */
  lemma OverlayOnEmpty(data: EntityData)
    ensures Overlay(NO_DATA, data) == data
  {
  }

  /** A bounded quantity such as health; `current` should never exceed `max`,
      and every mutator re-establishes that, but the constructor does not
      check it. */
  class Meter {
    var current: u32
    var max: u32

    predicate Valid()
      reads this
    {
      current <= max
    }

    /** `Meter::new`: stores both values as given. */
    constructor (current: u32, max: u32)
      ensures this.current == current && this.max == max
    {
      this.current := current;
      this.max := max;
    }

    /** `current_and_max`: both fields, read without changing anything. */
    function CurrentAndMax(): (r: (u32, u32))
      reads this
      ensures r.0 == current && r.1 == max
      ensures Valid() ==> r.0 <= r.1
    {
      (current, max)
    }

    function Current(): (r: u32)
      reads this
      ensures r == CurrentAndMax().0
    {
      current
    }

    function Max(): (r: u32)
      reads this
      ensures r == CurrentAndMax().1
    {
      max
    }

    function IsEmpty(): (r: bool)
      reads this
      ensures r <==> Current() == 0
    {
      current == 0
    }

    function IsFull(): (r: bool)
      reads this
      ensures r <==> Current() == Max()
      ensures Valid() && r && max > 0 ==> !IsEmpty()
    {
      current == max
    }

    /** `set_current`: stores `to` clamped to the maximum; establishes `Valid`. */
    method SetCurrent(to: u32)
      modifies this
      ensures current == Min(to, max) && max == old(max)
      ensures Valid()
    {
      current := if to <= max then to else max;
    }

    /** `decrease`: saturating subtraction; keeps `Valid`. */
    method Decrease(amount: u32)
      modifies this
      ensures current == SaturatingSub(old(current), amount) && max == old(max)
      ensures current <= old(current)
      ensures old(Valid()) ==> Valid()
    {
      current := SaturatingSub(current, amount);
    }

    /** `increase`: the sum, clamped to the maximum. The sum must not
        overflow 32 bits, which would panic in a debug build. */
    method Increase(amount: u32)
      requires current + amount <= U32_MAX
      modifies this
      ensures current == Min(old(current) + amount, max) && max == old(max)
      ensures Valid()
      ensures old(Valid()) ==> current >= old(current)
    {
      SetCurrent(current + amount);
    }

    /** `set_max`: the new maximum, with the current value re-clamped to it. */
    method SetMax(to: u32)
      modifies this
      ensures max == to && current == Min(old(current), to)
      ensures Valid()
    {
      max := to;
      SetCurrent(current);
    }

    /** `fill`: the meter becomes full. */
    method Fill()
      modifies this
      ensures current == max && max == old(max)
      ensures IsFull() && Valid()
    {
      current := max;
    }
  }

  /** `Meter::new` does not enforce the invariant: a meter can be built
      with more than its maximum. */
  method NewMayBreakInvariant() returns (m: Meter)
    ensures m.current == 2 && m.max == 1
    ensures !m.Valid()
  {
    m := new Meter(2, 1);
  }
}
