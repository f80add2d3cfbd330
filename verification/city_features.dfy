/** The last stage of city generation (`Map5`): tentacles, the cleared
    border around them, stairs near two corners, the connectivity check
    between the stairs and the debris edge. */
module CityFeatures {
  import opened Wrappers
  import opened Ints
  import opened Geometry
  import opened Random
  import opened Reach
  import CityStreets
  import CityRooms

  /** `Tile5`, the final city tile (exported by the generator as `Tile`). */
  datatype Tile5 = Wall | Street | Alley | Footpath | Floor | Debris | Door | Tentacle | StairsDown | StairsUp {
    /** `is_solid`: walls, debris and tentacles block movement. */
    predicate IsSolid() {
      this == Wall || this == Debris || this == Tentacle
    }
    predicate IsOpen() {
      !IsSolid()
    }
    /** The tiles `clear_around_tentactle` turns into floor. */
    predicate Clearable() {
      this == Wall || this == Door || this == Debris
    }
  }

  /** The tile `from_map4` gives a cell of the room map. */
  function FromTile4(t: CityRooms.Tile4): (r: Tile5)
    ensures ToTile4(r) == Some(t)
    ensures r.IsSolid() <==> t.IsSolid()
  {
    match t
    case Wall => Wall
    case Street => Street
    case Alley => Alley
    case Footpath => Footpath
    case Floor => Floor
    case Debris => Debris
    case Door => Door
  }

  /** The room-map tile a final tile came from, if any: the last three
      tiles only appear in this stage. */
  function ToTile4(t: Tile5): Option<CityRooms.Tile4> {
    match t
    case Wall => Some(CityRooms.Wall)
    case Street => Some(CityRooms.Street)
    case Alley => Some(CityRooms.Alley)
    case Footpath => Some(CityRooms.Footpath)
    case Floor => Some(CityRooms.Floor)
    case Debris => Some(CityRooms.Debris)
    case Door => Some(CityRooms.Door)
    case Tentacle => None
    case StairsDown => None
    case StairsUp => None
  }

  /** `from_map4`: the room map, cell for cell. */
  function FromGrid4(g: Grid<CityRooms.Tile4>): (r: Grid<Tile5>)
    requires g.Valid()
    ensures r.Valid() && r.size == g.size
    ensures forall c :: IsValid(c, g.size) ==> ToTile4(r.At(c)) == Some(g.At(c))
  {
    MapGrid(g, FromTile4)
  }

  /** `OrdinalDirection`, the four corners of the map. */
  datatype Corner = NorthEast | SouthEast | SouthWest | NorthWest

  /** The corner's coordinate, taking the bottom right as `size.to_coord()`,
      one past the last cell in both directions. */
  function CornerCoord(corner: Corner, s: Size): (r: Coord)
    ensures r.x == if corner == SouthWest || corner == NorthWest then 0 else s.width
    ensures r.y == if corner == NorthEast || corner == NorthWest then 0 else s.height
  {
    match corner
    case NorthEast => Coord(s.width, 0)
    case SouthEast => Coord(s.width, s.height)
    case SouthWest => Coord(0, s.height)
    case NorthWest => Coord(0, 0)
  }

  /** A cell `add_stairs` may pick near corner coordinate `cc`: floor,
      fewer than ten steps from the corner, and with no wall among its
      eight neighbours (a neighbour off the map is no wall). */
  predicate StairsCandidate(g: Grid<Tile5>, cc: Coord, c: Coord)
    requires g.Valid()
  {
    && IsValid(c, g.size) && g.At(c) == Floor
    && ManhattanDistance(c, cc) < 10
    && forall k :: 0 <= k < 8 ==> g.Get(c.Add(ALL_DELTAS[k])) != Some(Wall)
  }

  /** No cell adjacent to `c`, in any of the eight directions, is left
      clearable. */
  predicate RingCleared(g: Grid<Tile5>, c: Coord)
    requires g.Valid()
  {
    forall k :: 0 <= k < 8 && IsValid(c.Add(ALL_DELTAS[k]), g.size) ==> !g.At(c.Add(ALL_DELTAS[k])).Clearable()
  }

  /** `g` is `g0` with some clearable cells turned into floor. */
  ghost predicate ClearedFrom(g0: Grid<Tile5>, g: Grid<Tile5>)
    requires g0.Valid()
  {
    && g.Valid() && g.size == g0.size
    && forall c :: IsValid(c, g.size) ==> g.At(c) == g0.At(c) || (g0.At(c).Clearable() && g.At(c) == Floor)
  }

  /** A ring cleared stays cleared while only clearable cells change. */
  lemma RingClearedKept(g0: Grid<Tile5>, g: Grid<Tile5>, c: Coord)
    requires g0.Valid() && ClearedFrom(g0, g) && RingCleared(g0, c)
    ensures RingCleared(g, c)
  {
  }

  /** `x` is a cell of the first ring: clearable in `g0` and next to a
      tentacle cell. */
  ghost predicate InFirstRing(g0: Grid<Tile5>, ts: seq<Coord>, x: Coord)
    requires g0.Valid()
  {
    IsValid(x, g0.size) && g0.At(x).Clearable() && exists t :: t in ts && KingAdjacent(t, x)
  }

  /** `x` is in the first ring or next to a cell of it: the only cells
      `clear_around_tentactle` may touch. */
  ghost predicate InRings(g0: Grid<Tile5>, ts: seq<Coord>, x: Coord)
    requires g0.Valid()
  {
    InFirstRing(g0, ts, x) || exists y :: InFirstRing(g0, ts, y) && KingAdjacent(y, x)
  }

  /** Every cell changed from `g0` to `g` lies in the rings. */
  ghost predicate ChangedInRings(g0: Grid<Tile5>, g: Grid<Tile5>, ts: seq<Coord>)
    requires g0.Valid() && g.Valid() && g.size == g0.size
  {
    forall x :: IsValid(x, g.size) && g.At(x) != g0.At(x) ==> InRings(g0, ts, x)
  }

  /** The first ring around tentacle cell `t`: what one call clears is
      in the first ring. */
  lemma FirstRingStep(g0: Grid<Tile5>, before: Grid<Tile5>, ts: seq<Coord>, t: Coord, cleared: seq<Coord>, x: Coord)
    requires g0.Valid() && ClearedFrom(g0, before) && t in ts
    requires x in cleared && IsValid(x, g0.size) && KingAdjacent(t, x) && before.At(x).Clearable()
    ensures InFirstRing(g0, ts, x)
  {
  }

  /** The second ring around first-ring cell `border[k]`: what the call
      there changes is in the rings, and every ring cleared so far stays
      cleared. */
  lemma SecondRingStep(g0: Grid<Tile5>, g1: Grid<Tile5>, before: Grid<Tile5>, after: Grid<Tile5>, ts: seq<Coord>,
                       border: seq<Coord>, k: nat)
    requires g0.Valid() && g1.Valid() && ClearedFrom(g0, before) && ClearedFrom(g1, before) && ClearedFrom(before, after)
    requires k < |border| && (forall j :: 0 <= j < k ==> RingCleared(before, border[j])) && RingCleared(after, border[k])
    requires ChangedInRings(g0, before, ts) && InFirstRing(g0, ts, border[k])
    requires forall x :: IsValid(x, after.size) && after.At(x) != before.At(x) ==> KingAdjacent(border[k], x)
    ensures ClearedFrom(g0, after) && ClearedFrom(g1, after)
    ensures forall j :: 0 <= j < k + 1 ==> RingCleared(after, border[j])
    ensures ChangedInRings(g0, after, ts)
  {
    ClearedTrans(g0, before, after);
    ClearedTrans(g1, before, after);
    forall j | 0 <= j < k
      ensures RingCleared(after, border[j])
    {
      RingClearedKept(before, after, border[j]);
    }
    forall x | IsValid(x, after.size) && after.At(x) != g0.At(x)
      ensures InRings(g0, ts, x)
    {
      if after.At(x) != before.At(x) {
        assert KingAdjacent(border[k], x);
      }
    }
  }

  /** Clearing is transitive. */
  lemma ClearedTrans(g0: Grid<Tile5>, g1: Grid<Tile5>, g2: Grid<Tile5>)
    requires g0.Valid() && ClearedFrom(g0, g1) && ClearedFrom(g1, g2)
    ensures ClearedFrom(g0, g2)
  {
  }

  /** The cell `add_debris_around_edge` leaves at `c`: open tiles on the
      border become debris. */
  function EdgeDebrisCell(g: Grid<Tile5>, c: Coord): Tile5
    requires g.Valid()
  {
    if IsValid(c, g.size) && OnEdge(c, g.size) && g.At(c).IsOpen() then Debris
    else if IsValid(c, g.size) then g.At(c) else Wall
  }

  function EdgeDebrisRule(g: Grid<Tile5>): Coord -> Tile5
    requires g.Valid()
  {
    (c: Coord) => EdgeDebrisCell(g, c)
  }

  ghost function EdgeDebris(g: Grid<Tile5>): (r: Grid<Tile5>)
    requires g.Valid()
    ensures r.Valid() && r.size == g.size
  {
    Tabulate(g.size, EdgeDebrisRule(g))
  }

  /** After the debris edge the whole border is solid, and nothing inside
      the border changes. */
  lemma EdgeDebrisSeals(g: Grid<Tile5>, c: Coord)
    requires g.Valid() && IsValid(c, g.size)
    ensures OnEdge(c, g.size) ==> EdgeDebris(g).At(c).IsSolid()
    ensures !OnEdge(c, g.size) ==> EdgeDebris(g).At(c) == g.At(c)
    ensures EdgeDebris(g).At(c) != g.At(c) <==> OnEdge(c, g.size) && g.At(c).IsOpen()
  {
    assert EdgeDebris(g).At(c) == EdgeDebrisCell(g, c);
  }

  /** A second debris edge changes nothing. */
  lemma EdgeDebrisIdempotent(g: Grid<Tile5>)
    requires g.Valid()
    ensures EdgeDebris(EdgeDebris(g)) == EdgeDebris(g)
  {
    var e := EdgeDebris(g);
    forall c | IsValid(c, g.size)
      ensures EdgeDebris(e).At(c) == e.At(c)
    {
      EdgeDebrisSeals(g, c);
      EdgeDebrisSeals(e, c);
    }
    GridExt(EdgeDebris(e), e);
  }

  /** The open cells of the final map. */
  function OpenSet(g: Grid<Tile5>): (r: set<Coord>)
    requires g.Valid()
    ensures forall c :: c in r <==> IsValid(c, g.size) && g.At(c).IsOpen()
  {
    set c | c in AllCoords(g.size) && g.At(c).IsOpen()
  }

  /** The in-bounds coordinates of `cs`, in order: the cells a tentacle
      stamp writes. */
  function InBounds(cs: seq<Coord>, s: Size): (r: seq<Coord>)
    ensures forall c :: c in r <==> c in cs && IsValid(c, s)
    ensures |r| <= |cs|
  {
    if cs == [] then []
    else if IsValid(cs[0], s) then [cs[0]] + InBounds(cs[1..], s)
    else InBounds(cs[1..], s)
  }

  /** The final city map. */
  class Map5 {
    var grid: Grid<Tile5>
    var tentacleCoords: seq<Coord>

    /** The grid is well formed, its bottom right corner is an `i32`
        coordinate, and the tentacle coordinates are its cells. */
    predicate Valid()
      reads this
    {
      && grid.Valid() && grid.size.width <= I32_MAX && grid.size.height <= I32_MAX
      && forall c :: c in tentacleCoords ==> IsValid(c, grid.size)
    }

    /** `Map5::from_map4`: the room map and no tentacles yet. */
    constructor FromMap4(m4: CityRooms.Map4)
      requires m4.Valid() && m4.grid.size.width <= I32_MAX && m4.grid.size.height <= I32_MAX
      ensures Valid() && grid == FromGrid4(m4.grid) && tentacleCoords == []
    {
      grid := FromGrid4(m4.grid);
      tentacleCoords := [];
    }

    /** The stamping half of `add_tentacles`: every in-bounds cell of the
        tentacle squares becomes tentacle and is recorded, in order. */
    method PlaceTentacles(cells: seq<Coord>)
      requires Valid()
      modifies this
      ensures Valid() && grid.size == old(grid.size)
      ensures tentacleCoords == old(tentacleCoords) + InBounds(cells, grid.size)
      ensures forall c :: IsValid(c, grid.size) ==> grid.At(c) == if c in cells then Tentacle else old(grid.At(c))
    {
      var i := 0;
      while i < |cells|
        invariant 0 <= i <= |cells|
        invariant Valid() && grid.size == old(grid.size)
        invariant tentacleCoords == old(tentacleCoords) + InBounds(cells[..i], grid.size)
        invariant forall c :: IsValid(c, grid.size) ==> grid.At(c) == if c in cells[..i] then Tentacle else old(grid.At(c))
      {
        InBoundsSnoc(cells[..i], cells[i], grid.size);
        assert cells[..i + 1] == cells[..i] + [cells[i]];
        StampTentacle(cells[i]);
        i := i + 1;
      }
      assert cells[..i] == cells;
    }

    /** One cell of a tentacle square: when in bounds it becomes tentacle
        and is recorded. */
    method StampTentacle(c: Coord)
      requires Valid()
      modifies this
      ensures Valid() && grid.size == old(grid.size)
      ensures tentacleCoords == old(tentacleCoords) + InBounds([c], grid.size)
      ensures forall d :: IsValid(d, grid.size) ==> grid.At(d) == if d == c then Tentacle else old(grid.At(d))
    {
      if IsValid(c, grid.size) {
        grid := grid.Set(c, Tentacle);
        tentacleCoords := tentacleCoords + [c];
      }
    }

    /** `add_stairs`: a drawn candidate near the corner becomes `tile`;
        `None`, with the grid unchanged, when there is no candidate. */
    method AddStairs(corner: Corner, tile: Tile5, rng: Rng) returns (r: Option<Coord>)
      requires Valid()
      modifies this, rng
      ensures Valid() && tentacleCoords == old(tentacleCoords)
      ensures r.None? <==> forall c :: !StairsCandidate(old(grid), CornerCoord(corner, old(grid.size)), c)
      ensures r.None? ==> grid == old(grid)
      ensures r.Some? ==> StairsCandidate(old(grid), CornerCoord(corner, old(grid.size)), r.value)
                          && grid == old(grid).Set(r.value, tile)
    {
      var cc := CornerCoord(corner, grid.size);
      var g := grid;
      var candidates := CoordsWhere(grid.size, (c: Coord) => StairsCandidate(g, cc, c));
      assert forall c :: StairsCandidate(g, cc, c) ==> c in candidates;
      var choice := rng.Choose(candidates);
      if choice.None? {
        return None;
      }
      grid := grid.Set(choice.value, tile);
      return choice;
    }

    /** `clear_around_tentactle`: the walls, doors and debris next to a
        tentacle become floor and are remembered, then the same is done
        next to each remembered cell. Afterwards nothing clearable is left
        next to a tentacle cell, nor next to a cell that was clearable and
        next to one; and only clearable cells have changed, into floor. */
    method ClearAroundTentacle()
      requires Valid()
      modifies this
      ensures Valid() && tentacleCoords == old(tentacleCoords)
      ensures ClearedFrom(old(grid), grid)
      ensures forall t :: t in tentacleCoords ==> RingCleared(grid, t)
      ensures forall t, k ::
                (t in tentacleCoords && 0 <= k < 8 && IsValid(t.Add(ALL_DELTAS[k]), grid.size) &&
                 old(grid).At(t.Add(ALL_DELTAS[k])).Clearable()) ==> RingCleared(grid, t.Add(ALL_DELTAS[k]))
      ensures ChangedInRings(old(grid), grid, tentacleCoords)
    {
      ghost var g0 := grid;
      var border := ClearFirstRing();
      ghost var g1 := grid;
      ClearSecondRing(border, g0);
      forall t | t in tentacleCoords
        ensures RingCleared(grid, t)
      {
        var j :| 0 <= j < |tentacleCoords| && tentacleCoords[j] == t;
        RingClearedKept(g1, grid, t);
      }
      forall t, k | t in tentacleCoords && 0 <= k < 8 && IsValid(t.Add(ALL_DELTAS[k]), grid.size)
          && g0.At(t.Add(ALL_DELTAS[k])).Clearable()
        ensures RingCleared(grid, t.Add(ALL_DELTAS[k]))
      {
        var n := t.Add(ALL_DELTAS[k]);
        assert RingCleared(g1, t);
        assert !g1.At(n).Clearable();
        var j :| 0 <= j < |border| && border[j] == n;
      }
    }

    /** The first loop of `clear_around_tentactle`: the rings around the
        tentacle cells, with the cells cleared there in `border`. */
    method ClearFirstRing() returns (border: seq<Coord>)
      requires Valid()
      modifies this
      ensures Valid() && tentacleCoords == old(tentacleCoords)
      ensures ClearedFrom(old(grid), grid)
      ensures forall j :: 0 <= j < |tentacleCoords| ==> RingCleared(grid, tentacleCoords[j])
      ensures forall x :: IsValid(x, grid.size) && old(grid).At(x).Clearable() && !grid.At(x).Clearable() ==> x in border
      ensures forall x :: x in border ==> IsValid(x, grid.size) && InFirstRing(old(grid), tentacleCoords, x)
      ensures ChangedInRings(old(grid), grid, tentacleCoords)
    {
      ghost var g0 := grid;
      border := [];
      var i := 0;
      while i < |tentacleCoords|
        invariant 0 <= i <= |tentacleCoords|
        invariant Valid() && tentacleCoords == old(tentacleCoords)
        invariant ClearedFrom(g0, grid)
        invariant forall j :: 0 <= j < i ==> RingCleared(grid, tentacleCoords[j])
        invariant forall x :: IsValid(x, grid.size) && g0.At(x).Clearable() && !grid.At(x).Clearable() ==> x in border
        invariant forall x :: x in border ==> IsValid(x, grid.size) && InFirstRing(g0, tentacleCoords, x)
      {
        ghost var before := grid;
        var cleared := ClearNeighbours(tentacleCoords[i]);
        forall x | x in cleared
          ensures InFirstRing(g0, tentacleCoords, x)
        {
          FirstRingStep(g0, before, tentacleCoords, tentacleCoords[i], cleared, x);
        }
        ClearedTrans(g0, before, grid);
        forall j | 0 <= j < i
          ensures RingCleared(grid, tentacleCoords[j])
        {
          RingClearedKept(before, grid, tentacleCoords[j]);
        }
        border := border + cleared;
        i := i + 1;
      }
      forall x | IsValid(x, grid.size) && grid.At(x) != g0.At(x)
        ensures InRings(g0, tentacleCoords, x)
      {
        assert x in border;
      }
    }

    /** The second loop of `clear_around_tentactle`: the rings around the
        cells of `border`. */
    method ClearSecondRing(border: seq<Coord>, ghost g0: Grid<Tile5>)
      requires Valid() && g0.Valid() && ClearedFrom(g0, grid) && ChangedInRings(g0, grid, tentacleCoords)
      requires forall x :: x in border ==> InFirstRing(g0, tentacleCoords, x)
      modifies this
      ensures Valid() && tentacleCoords == old(tentacleCoords)
      ensures ClearedFrom(g0, grid) && ClearedFrom(old(grid), grid)
      ensures forall j :: 0 <= j < |border| ==> RingCleared(grid, border[j])
      ensures ChangedInRings(g0, grid, tentacleCoords)
    {
      ghost var g1 := grid;
      var k := 0;
      while k < |border|
        invariant 0 <= k <= |border|
        invariant Valid() && tentacleCoords == old(tentacleCoords)
        invariant ClearedFrom(g0, grid) && ClearedFrom(g1, grid)
        invariant forall j :: 0 <= j < k ==> RingCleared(grid, border[j])
        invariant ChangedInRings(g0, grid, tentacleCoords)
      {
        ghost var before := grid;
        var _ := ClearNeighbours(border[k]);
        SecondRingStep(g0, g1, before, grid, tentacleCoords, border, k);
        k := k + 1;
      }
    }

    /** One ring of `clear_around_tentactle`: the clearable cells among
        the eight neighbours of `c` become floor; they are returned. */
    method ClearNeighbours(c: Coord) returns (cleared: seq<Coord>)
      requires Valid()
      modifies this
      ensures Valid() && tentacleCoords == old(tentacleCoords)
      ensures ClearedFrom(old(grid), grid) && RingCleared(grid, c)
      ensures forall x :: IsValid(x, grid.size) && old(grid).At(x).Clearable() && !grid.At(x).Clearable() ==> x in cleared
      ensures forall x :: x in cleared ==> IsValid(x, grid.size)
      ensures forall x :: x in cleared ==> KingAdjacent(c, x) && old(grid).At(x).Clearable() && grid.At(x) == Floor
      ensures forall x :: IsValid(x, grid.size) && grid.At(x) != old(grid).At(x) ==> KingAdjacent(c, x)
    {
      ghost var g0 := grid;
      cleared := [];
      var k := 0;
      while k < 8
        invariant 0 <= k <= 8
        invariant Valid() && tentacleCoords == old(tentacleCoords)
        invariant ClearedFrom(g0, grid)
        invariant forall j :: 0 <= j < k && IsValid(c.Add(ALL_DELTAS[j]), grid.size) ==> !grid.At(c.Add(ALL_DELTAS[j])).Clearable()
        invariant forall x :: IsValid(x, grid.size) && g0.At(x).Clearable() && !grid.At(x).Clearable() ==> x in cleared
        invariant forall x :: x in cleared ==> IsValid(x, grid.size)
        invariant forall x :: x in cleared ==> KingAdjacent(c, x) && g0.At(x).Clearable() && grid.At(x) == Floor
      {
        var n := c.Add(ALL_DELTAS[k]);
        AllDeltasAreKingMoves(c, ALL_DELTAS[k]);
        if IsValid(n, grid.size) && grid.At(n).Clearable() {
          grid := grid.Set(n, Floor);
          cleared := cleared + [n];
        }
        k := k + 1;
      }
    }

    /** `add_debris_around_edge`. */
    method AddDebrisAroundEdge()
      requires Valid()
      modifies this
      ensures Valid() && tentacleCoords == old(tentacleCoords)
      ensures grid == EdgeDebris(old(grid))
    {
      var g := grid;
      grid := Rebuild(g, EdgeDebrisRule(g));
    }

    /** `is_path_between`: a breadth-first search by cardinal steps
        through open cells. */
    method IsPathBetween(start: Coord, end: Coord) returns (b: bool)
      requires Valid()
      ensures b <==> start == end || Reachable(OpenSet(grid), CARDINAL_DELTAS, start, end)
    {
      if start == end {
        return true;
      }
      var seen := Flood(OpenSet(grid), CARDINAL_DELTAS, start);
      b := end in seen;
    }
  }

  lemma InBoundsSnoc(cs: seq<Coord>, c: Coord, s: Size)
    ensures InBounds(cs + [c], s) == InBounds(cs, s) + if IsValid(c, s) then [c] else []
  {
    if cs != [] {
      assert (cs + [c])[1..] == cs[1..] + [c];
      InBoundsSnoc(cs[1..], c, s);
    }
  }

  /** A cell holds `t` after the stairs pass only where the stairs went,
      unless it held `t` before. */
  lemma StairsAlone(g: Grid<Tile5>, cc: Coord, s: Coord, t: Tile5, c: Coord)
    requires g.Valid() && StairsCandidate(g, cc, s) && IsValid(c, g.size)
    ensures g.Set(s, t).At(c) != g.At(c) ==> c == s && g.At(c) == Floor
  {
  }

  /** The stairs checks of `Map5::generate` passed on `pre`: two
      different cells hold the down and the up stairs, and a walk by
      cardinal steps through open cells leads from one to the other. */
  ghost predicate PassedChecks(pre: Grid<Tile5>, down: Coord, up: Coord) {
    && pre.Valid() && down != up && IsValid(down, pre.size) && IsValid(up, pre.size)
    && pre.At(down) == StairsDown && pre.At(up) == StairsUp
    && Reachable(OpenSet(pre), CARDINAL_DELTAS, down, up)
  }

  /** The path check runs before the debris edge is laid: a path that
      stays off the border survives the debris. */
  lemma {:induction false} InteriorPathSurvives(pre: Grid<Tile5>, deltas: seq<Coord>, p: seq<Coord>)
    requires pre.Valid() && IsPath(OpenSet(pre), deltas, p)
    requires forall i :: 0 <= i < |p| ==> !OnEdge(p[i], pre.size)
    ensures IsPath(OpenSet(EdgeDebris(pre)), deltas, p)
    decreases |p|
  {
    if |p| > 1 {
      EdgeDebrisSeals(pre, p[1]);
      InteriorPathSurvives(pre, deltas, p[1..]);
    }
  }

  /** On a map one row high every cell is border, so after the debris
      edge no cell is open. */
  lemma OneRowSealed(g: Grid<Tile5>)
    requires g.Valid() && g.size.height == 1
    ensures OpenSet(EdgeDebris(g)) == {}
  {
    forall c | c in OpenSet(EdgeDebris(g))
      ensures false
    {
      EdgeDebrisSeals(g, c);
    }
  }

  /** Without open cells no walk leads anywhere else. */
  lemma NoOpenNoPath(deltas: seq<Coord>, a: Coord, b: Coord)
    requires a != b
    ensures !Reachable({}, deltas, a, b)
  {
    forall p | IsPath({}, deltas, p) && p[0] == a
      ensures p[|p| - 1] != b
    {
    }
  }

  /** A map one row high: down stairs, floor, up stairs. */
  const ONE_ROW: Grid<Tile5> := Grid(Size(3, 1), [[StairsDown, Floor, StairsUp]])

  /** Two steps make a walk. */
  lemma TwoSteps(open: set<Coord>, deltas: seq<Coord>, a: Coord, b: Coord, c: Coord)
    requires Step(open, deltas, a, b) && Step(open, deltas, b, c)
    ensures Reachable(open, deltas, a, c)
  {
    var path := [a, b, c];
    assert IsPath(open, deltas, path[1..]);
    assert IsPath(open, deltas, path);
  }

  /** The stairs checks pass on `ONE_ROW`. */
  lemma OneRowPasses()
    ensures PassedChecks(ONE_ROW, Coord(0, 0), Coord(2, 0))
  {
    assert ONE_ROW.Valid();
    var open := OpenSet(ONE_ROW);
    assert ONE_ROW.At(Coord(1, 0)) == Floor && ONE_ROW.At(Coord(2, 0)) == StairsUp;
    assert Coord(1, 0) in open && Coord(2, 0) in open;
    TwoSteps(open, CARDINAL_DELTAS, Coord(0, 0), Coord(1, 0), Coord(2, 0));
  }

  /** ... but a path along the border need not survive the debris: on
      `ONE_ROW` the check passes, and the debris then covers both stairs
      and the floor between them, so no path is left. */
  lemma EdgePathCut()
    ensures PassedChecks(ONE_ROW, Coord(0, 0), Coord(2, 0))
    ensures !Reachable(OpenSet(EdgeDebris(ONE_ROW)), CARDINAL_DELTAS, Coord(0, 0), Coord(2, 0))
  {
    OneRowPasses();
    OneRowSealed(ONE_ROW);
    NoOpenNoPath(CARDINAL_DELTAS, Coord(0, 0), Coord(2, 0));
  }

  /** `Map5::generate`, one round of it (`None` where the source would
      start over). The tentacle squares, which the source draws with
      floating-point geometry from a shuffled corner, are given. */
  method Generate(tentacleCells: seq<Coord>, rng: Rng) returns (r: Option<Map5>)
    modifies rng
    ensures r.Some? ==> fresh(r.value) && r.value.Valid() && r.value.grid.size == CityStreets.MAP1_SIZE
    ensures r.Some? ==> exists pre, down, up :: PassedChecks(pre, down, up) && r.value.grid == EdgeDebris(pre)
  {
    var m4 := CityRooms.Generate(rng);
    if m4.None? {
      return None;
    }
    var map5 := new Map5.FromMap4(m4.value);
    var corners := rng.Shuffle([NorthEast, SouthEast, SouthWest, NorthWest]);
    map5.PlaceTentacles(tentacleCells);
    map5.ClearAroundTentacle();
    var down := map5.AddStairs(corners[2], StairsDown, rng);
    if down.None? {
      return None;
    }
    var up := map5.AddStairs(corners[1], StairsUp, rng);
    if up.None? || up.value == down.value {
      return None;
    }
    var path := map5.IsPathBetween(down.value, up.value);
    if !path {
      return None;
    }
    assert PassedChecks(map5.grid, down.value, up.value);
    map5.AddDebrisAroundEdge();
    return Some(map5);
  }
}
