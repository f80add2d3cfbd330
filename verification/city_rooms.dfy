/** The fourth stage of city generation (`Map4`): debris is scattered
    over the streets and rooms, the open areas are found, and doors are
    cut in the walls two areas share, first along a random spanning tree
    of the areas and then for two thirds of the pairs left over. */
module CityRooms {
  import opened Wrappers
  import opened Ints
  import opened Geometry
  import opened Random
  import opened Reach
  import CityStreets
  import CityBlocks

  datatype Tile4 = Wall | Street | Alley | Footpath | Floor | Debris | Door {
    /** `is_solid`: walls and debris block movement. */
    predicate IsSolid() {
      this == Wall || this == Debris
    }
    predicate IsOpen() {
      !IsSolid()
    }
    /** `is_outside`: the tiles of the street network. */
    predicate IsOutside() {
      this == Street || this == Alley || this == Footpath
    }
  }

  /** The tile `from_map3` gives a cell of the block map. */
  function FromTile3(t: CityBlocks.Tile3): (r: Tile4)
    ensures r != Debris && r != Door && ToTile3(r) == t
    ensures r.IsOpen() <==> t != CityBlocks.Wall
  {
    match t
    case Wall => Wall
    case Street => Street
    case Alley => Alley
    case Footpath => Footpath
    case Floor => Floor
  }

  function ToTile3(t: Tile4): CityBlocks.Tile3
    requires t != Debris && t != Door
  {
    match t
    case Wall => CityBlocks.Wall
    case Street => CityBlocks.Street
    case Alley => CityBlocks.Alley
    case Footpath => CityBlocks.Footpath
    case Floor => CityBlocks.Floor
  }

  /** `from_map3`: the block map, cell for cell. */
  function FromGrid3(g: Grid<CityBlocks.Tile3>): (r: Grid<Tile4>)
    requires g.Valid()
    ensures r.Valid() && r.size == g.size
    ensures forall c :: IsValid(c, g.size) ==> r.At(c) != Debris && r.At(c) != Door && ToTile3(r.At(c)) == g.At(c)
  {
    MapGrid(g, FromTile3)
  }

  /** More than 10 cells from the left and right edges and more than 7
      from the top and bottom: where outdoor debris may go. */
  predicate InCentre(c: Coord, s: Size) {
    c.x > 10 && c.x < s.width - 10 && c.y > 7 && c.y < s.height - 7
  }

  /** The starting cells of the debris walks. */
  predicate WalkStart(g: Grid<Tile4>, c: Coord)
    requires g.Valid()
  {
    IsValid(c, g.size) && g.At(c).IsOutside() && InCentre(c, g.size)
  }

  /** The cells single pieces of debris may fall on: open, and in the
      centre if outdoors. */
  predicate DebrisSpot(g: Grid<Tile4>, c: Coord)
    requires g.Valid()
  {
    IsValid(c, g.size) && g.At(c).IsOpen() && (!g.At(c).IsOutside() || InCentre(c, g.size))
  }

  /** `g` is `g0` with some open cells turned to debris. */
  ghost predicate OnlyDebris(g0: Grid<Tile4>, g: Grid<Tile4>) {
    && g0.Valid() && g.Valid() && g.size == g0.size
    && forall c :: IsValid(c, g.size) ==> g.At(c) == g0.At(c) || (g0.At(c).IsOpen() && g.At(c) == Debris)
  }

  /** The open cells of a grid. */
  function OpenSet(g: Grid<Tile4>): (r: set<Coord>)
    requires g.Valid()
    ensures forall c :: c in r <==> IsValid(c, g.size) && g.At(c).IsOpen()
  {
    set c | c in AllCoords(g.size) && g.At(c).IsOpen()
  }

  const NORTH := Coord(0, -1)
  const EAST := Coord(1, 0)
  const SOUTH := Coord(0, 1)
  const WEST := Coord(-1, 0)

  /** A wall that runs straight through its cell, east-west or
      north-south: the walls an area's boundary holds, and so the cells a
      door may replace. */
  predicate ThroughWall(g: Grid<Tile4>, n: Coord)
    requires g.Valid()
  {
    && g.Get(n) == Some(Wall)
    && ((g.Get(n.Add(EAST)) == Some(Wall) && g.Get(n.Add(WEST)) == Some(Wall))
        || (g.Get(n.Add(NORTH)) == Some(Wall) && g.Get(n.Add(SOUTH)) == Some(Wall)))
  }

  /** The boundary `areas` records for the cells `S` of an area: the
      through walls one cardinal step from one of them. */
  function BoundaryOf(g: Grid<Tile4>, S: set<Coord>): (r: set<Coord>)
    requires g.Valid()
    ensures forall n :: n in r ==> IsValid(n, g.size) && g.At(n) == Wall && ThroughWall(g, n)
    ensures forall n :: n in r <==> ThroughWall(g, n) && exists c, k :: c in S && 0 <= k < 4 && n == c.Add(CARDINAL_DELTAS[k])
  {
    set c, k | c in S && 0 <= k < 4 && ThroughWall(g, c.Add(CARDINAL_DELTAS[k])) :: c.Add(CARDINAL_DELTAS[k])
  }

  /** An open area, as the source keeps it: its boundary alone. */
  datatype Area = Area(boundary: set<Coord>)

  /** `areas` in terms of the components of the open cells. */
  ghost predicate AreasOf(g: Grid<Tile4>, areas: seq<Area>, comps: seq<set<Coord>>)
    requires g.Valid()
  {
    && Partitioned(OpenSet(g), CARDINAL_DELTAS, comps)
    && |areas| == |comps|
    && forall i :: 0 <= i < |areas| ==> areas[i].boundary == BoundaryOf(g, comps[i])
  }

  /** The key of an unordered pair of area indices: the smaller first. */
  function Key(a: nat, b: nat): (r: Coord)
    ensures 0 <= r.x <= r.y
    ensures multiset{r.x, r.y} == multiset{a, b}
  {
    if a < b then Coord(a, b) else Coord(b, a)
  }

  /** The key ignores the order of the pair. */
  lemma KeySymmetric(a: nat, b: nat)
    ensures Key(a, b) == Key(b, a)
  {
    var r, s := Key(a, b), Key(b, a);
    assert multiset{r.x, r.y} == multiset{s.x, s.y};
    if r.x != s.x {
      assert r.x in multiset{s.x, s.y};
    }
  }

  /** The `shared_boundaries` grid of `adjacencies`: at `(a, b)` with
      `a < b`, the walls both areas hold; elsewhere nothing. */
  function SharedBoundaries(areas: seq<Area>): (r: Grid<set<Coord>>)
    ensures r.Valid() && r.size == Size(|areas|, |areas|)
  {
    var n := |areas|;
    Grid(Size(n, n), seq(n, y requires 0 <= y < n => seq(n, x requires 0 <= x < n =>
      if x < y then areas[x].boundary * areas[y].boundary else {})))
  }

  /** `Adjacencies::shared_boundary`: the entry under the pair's key. */
  function SharedBoundary(sb: Grid<set<Coord>>, a: nat, b: nat): set<Coord>
    requires sb.Valid() && a < sb.size.width && b < sb.size.width && sb.size.height == sb.size.width
  {
    sb.At(Key(a, b))
  }

  /** The shared boundary of two areas is the walls both hold, whichever
      way round they are asked for; an area shares nothing with itself. */
  lemma SharedBoundaryMeaning(areas: seq<Area>, a: nat, b: nat)
    requires a < |areas| && b < |areas|
    ensures SharedBoundary(SharedBoundaries(areas), a, b) == SharedBoundary(SharedBoundaries(areas), b, a)
    ensures SharedBoundary(SharedBoundaries(areas), a, b) ==
      if a == b then {} else areas[a].boundary * areas[b].boundary
  {
    KeySymmetric(a, b);
  }

  /** `Adjacencies::neighbours(i)`, from index `j` on: the indices whose
      shared boundary with `i` is not empty, in increasing order. */
  function NeighboursFrom(sb: Grid<set<Coord>>, i: nat, j: nat): (r: seq<nat>)
    requires sb.Valid() && i < sb.size.width && sb.size.height == sb.size.width
    ensures forall x :: x in r <==> j <= x < sb.size.width && SharedBoundary(sb, i, x) != {}
    decreases sb.size.width - j
  {
    if j >= sb.size.width then []
    else
      var rest := NeighboursFrom(sb, i, j + 1);
      if SharedBoundary(sb, i, j) != {} then [j] + rest else rest
  }

  predicate Increasing(s: seq<nat>) {
    forall p, q :: 0 <= p < q < |s| ==> s[p] < s[q]
  }

  /** An increasing sequence stays increasing with a smaller element in
      front. */
  lemma ConsIncreasing(j: nat, rest: seq<nat>)
    requires Increasing(rest) && forall x :: x in rest ==> j < x
    ensures Increasing([j] + rest)
  {
    var r := [j] + rest;
    forall p, q | 0 <= p < q < |r| ensures r[p] < r[q] {
      assert r[q] == rest[q - 1] && rest[q - 1] in rest;
      if 0 < p {
        assert r[p] == rest[p - 1];
      }
    }
  }

  /** The neighbours come in increasing order. */
  lemma {:induction false} NeighboursIncreasing(sb: Grid<set<Coord>>, i: nat, j: nat)
    requires sb.Valid() && i < sb.size.width && sb.size.height == sb.size.width
    ensures Increasing(NeighboursFrom(sb, i, j))
    decreases sb.size.width - j
  {
    if j < sb.size.width {
      NeighboursIncreasing(sb, i, j + 1);
      var rest := NeighboursFrom(sb, i, j + 1);
      if SharedBoundary(sb, i, j) != {} {
        assert NeighboursFrom(sb, i, j) == [j] + rest;
        ConsIncreasing(j, rest);
      } else {
        assert NeighboursFrom(sb, i, j) == rest;
      }
    }
  }

  /** What `adjacencies` computes. */
  datatype Adjacencies = Adjacencies(areas: seq<Area>, sharedBoundaries: Grid<set<Coord>>, neighbours: seq<seq<nat>>)

  ghost predicate AdjacenciesOf(g: Grid<Tile4>, adj: Adjacencies, comps: seq<set<Coord>>)
    requires g.Valid()
  {
    && AreasOf(g, adj.areas, comps)
    && adj.sharedBoundaries == SharedBoundaries(adj.areas)
    && |adj.neighbours| == |adj.areas|
    && forall i :: 0 <= i < |adj.areas| ==> adj.neighbours[i] == NeighboursFrom(adj.sharedBoundaries, i, 0)
  }

  /** A wall on the boundaries of two different open areas: where a door
      may go. */
  ghost predicate SharedWall(g: Grid<Tile4>, n: Coord)
    requires g.Valid()
  {
    exists S1, S2 ::
      && IsComponent(OpenSet(g), CARDINAL_DELTAS, S1) && IsComponent(OpenSet(g), CARDINAL_DELTAS, S2)
      && S1 !! S2 && n in BoundaryOf(g, S1) && n in BoundaryOf(g, S2)
  }

  /** A wall shared by two areas of the partition is a `SharedWall`. */
  lemma SharedBoundaryIsSharedWall(g: Grid<Tile4>, adj: Adjacencies, comps: seq<set<Coord>>, a: nat, b: nat, n: Coord)
    requires g.Valid() && AdjacenciesOf(g, adj, comps)
    requires a < |adj.areas| && b < |adj.areas|
    requires n in SharedBoundary(adj.sharedBoundaries, a, b)
    ensures SharedWall(g, n)
  {
    SharedBoundaryMeaning(adj.areas, a, b);
    var S1, S2 := comps[a], comps[b];
    assert n in BoundaryOf(g, S1) && n in BoundaryOf(g, S2);
    assert IsComponent(OpenSet(g), CARDINAL_DELTAS, S1) && IsComponent(OpenSet(g), CARDINAL_DELTAS, S2);
    if a < b {
      assert S1 !! S2;
    } else {
      assert S2 !! S1;
    }
  }

  /** A boundary wall is one cardinal step from a cell of its area. */
  lemma BoundaryNeighbour(g: Grid<Tile4>, S: set<Coord>, n: Coord) returns (c: Coord)
    requires g.Valid() && n in BoundaryOf(g, S)
    ensures c in S && n.Sub(c) in CARDINAL_DELTAS
  {
    var k :| 0 <= k < 4 && exists c' :: c' in S && n == c'.Add(CARDINAL_DELTAS[k]);
    c :| c in S && n == c.Add(CARDINAL_DELTAS[k]);
    assert n.Sub(c) == CARDINAL_DELTAS[k];
  }

  /** A door opens its cell and closes none. */
  lemma DoorOpens(g: Grid<Tile4>, n: Coord)
    requires g.Valid() && IsValid(n, g.size)
    ensures OpenSet(g) + {n} <= OpenSet(g.Set(n, Door))
  {
  }

  /** A door in a wall two areas share joins them: afterwards every cell
      of one reaches every cell of the other. */
  lemma DoorJoins(g: Grid<Tile4>, S1: set<Coord>, S2: set<Coord>, n: Coord, a: Coord, b: Coord)
    requires g.Valid()
    requires IsComponent(OpenSet(g), CARDINAL_DELTAS, S1) && IsComponent(OpenSet(g), CARDINAL_DELTAS, S2)
    requires n in BoundaryOf(g, S1) && n in BoundaryOf(g, S2)
    requires a in S1 && b in S2
    ensures Reachable(OpenSet(g.Set(n, Door)), CARDINAL_DELTAS, a, b)
  {
    var c1 := BoundaryNeighbour(g, S1, n);
    var c2 := BoundaryNeighbour(g, S2, n);
    DoorOpens(g, n);
    CardinalMovesSymmetric();
    Bridge(OpenSet(g), OpenSet(g.Set(n, Door)), CARDINAL_DELTAS, S1, S2, n, c1, c2, a, b);
  }

  /** The starting cells of the debris walks, in row-major order. */
  function WalkStarts(g: Grid<Tile4>): (r: seq<Coord>)
    requires g.Valid()
    ensures forall c :: c in r <==> WalkStart(g, c)
  {
    CoordsWhere(g.size, (c: Coord) => WalkStart(g, c))
  }

  /** The cells single pieces of debris may fall on, in row-major order. */
  function DebrisSpots(g: Grid<Tile4>): (r: seq<Coord>)
    requires g.Valid()
    ensures forall c :: c in r <==> DebrisSpot(g, c)
  {
    CoordsWhere(g.size, (c: Coord) => DebrisSpot(g, c))
  }

  /** The cell a walk at `c` moves to in direction `delta`: that
      neighbour when it is an outdoor cell of the grid, else `c` itself. */
  function WalkStep(g: Grid<Tile4>, c: Coord, delta: Coord): (r: Coord)
    requires g.Valid() && IsValid(c, g.size)
    ensures IsValid(r, g.size)
    ensures r == c || (r == c.Add(delta) && g.At(r).IsOutside())
  {
    var next := c.Add(delta);
    if IsValid(next, g.size) && g.At(next).IsOutside() then next else c
  }

  /** The direction `gen::<Direction>()` yields from draw `pos`, as a
      step: one of the eight neighbours. */
  function DirectionAt(draws: nat -> nat, pos: nat): (r: Coord)
  {
    ALL_DELTAS[Draw(draws, pos) % 8]
  }

  /** A debris walk from `c` with the draws `pos` up to `end`, one step
      per draw: each step leaves debris on its cell and then moves. */
  function Walk(g: Grid<Tile4>, c: Coord, draws: nat -> nat, pos: nat, end: nat): (r: Grid<Tile4>)
    requires g.Valid() && IsValid(c, g.size)
    ensures r.Valid() && r.size == g.size
    decreases end - pos
  {
    if end <= pos then g
    else
      var g1 := g.Set(c, Debris);
      Walk(g1, WalkStep(g1, c, DirectionAt(draws, pos)), draws, pos + 1, end)
  }

  /** Walks of eight steps from the starts popped off the end of
      `starts[..k]`, each with the next eight draws from `pos` on, until
      only `starts[..lo]` is left. */
  function Walks(g: Grid<Tile4>, starts: seq<Coord>, k: nat, lo: nat, draws: nat -> nat, pos: nat): (r: Grid<Tile4>)
    requires g.Valid() && forall c :: c in starts ==> IsValid(c, g.size)
    requires lo <= k <= |starts|
    ensures r.Valid() && r.size == g.size
    decreases k
  {
    if k == lo then g
    else Walks(Walk(g, starts[k - 1], draws, pos, pos + 8), starts, k - 1, lo, draws, pos + 8)
  }

  /** Single pieces of debris on `spots[..k]`, each on the cell popped
      off its end, until only `spots[..lo]` is left. */
  function Scatter(g: Grid<Tile4>, spots: seq<Coord>, k: nat, lo: nat): (r: Grid<Tile4>)
    requires g.Valid() && forall c :: c in spots ==> IsValid(c, g.size)
    requires lo <= k <= |spots|
    ensures r.Valid() && r.size == g.size
    decreases k
  {
    if k == lo then g
    else Scatter(g.Set(spots[k - 1], Debris), spots, k - 1, lo)
  }

  /** Where popping `n` times off a list of length `len` stops. */
  function PopsTo(len: nat, n: nat): (r: nat)
    ensures r <= len && (r == 0 || r == len - n)
  {
    if n < len then len - n else 0
  }

  /** The walk starts of `g` shuffled with the draws from `pos` on. */
  function ShuffledStarts(g: Grid<Tile4>, draws: nat -> nat, pos: nat): (r: seq<Coord>)
    requires g.Valid()
    ensures forall c :: c in r <==> WalkStart(g, c)
    ensures |r| == |WalkStarts(g)|
  {
    var starts := WalkStarts(g);
    ShuffledPermutes(starts, |starts|, draws, pos);
    var s := Shuffled(starts, draws, pos);
    assert forall c :: c in s <==> c in multiset(s);
    s
  }

  /** The debris spots of `g` shuffled with the draws from `pos` on. */
  function ShuffledSpots(g: Grid<Tile4>, draws: nat -> nat, pos: nat): (r: seq<Coord>)
    requires g.Valid()
    ensures forall c :: c in r <==> DebrisSpot(g, c)
    ensures |r| == |DebrisSpots(g)|
  {
    var spots := DebrisSpots(g);
    ShuffledPermutes(spots, |spots|, draws, pos);
    var s := Shuffled(spots, draws, pos);
    assert forall c :: c in s <==> c in multiset(s);
    s
  }

  /** The walk phase of `add_debris`: the walk starts shuffled, then four
      walks (fewer if there are fewer starts). The grid afterwards and the
      next draw position. */
  function WalkPhase(g: Grid<Tile4>, draws: nat -> nat, pos: nat): (r: (Grid<Tile4>, nat))
    requires g.Valid()
    ensures r.0.Valid() && r.0.size == g.size
  {
    var s := ShuffledStarts(g, draws, pos);
    StartWalks(g, s, draws, pos + ShuffleDraws(|s|))
  }

  /** The walks popped off the end of the starts `s` (four, fewer if
      there are fewer starts) with the draws from `pos` on: the grid
      afterwards and the next draw position. */
  function StartWalks(g: Grid<Tile4>, s: seq<Coord>, draws: nat -> nat, pos: nat): (r: (Grid<Tile4>, nat))
    requires g.Valid() && forall c :: c in s ==> IsValid(c, g.size)
    ensures r.0.Valid() && r.0.size == g.size
  {
    var lo := PopsTo(|s|, 4);
    (Walks(g, s, |s|, lo, draws, pos), pos + 8 * (|s| - lo))
  }

  /** The scatter phase of `add_debris`: the debris spots of the grid the
      walks left, shuffled, then twenty pieces. */
  function ScatterPhase(g: Grid<Tile4>, draws: nat -> nat, pos: nat): (r: (Grid<Tile4>, nat))
    requires g.Valid()
    ensures r.0.Valid() && r.0.size == g.size
  {
    var s := ShuffledSpots(g, draws, pos);
    (Scatter(g, s, |s|, PopsTo(|s|, 20)), pos + ShuffleDraws(|s|))
  }

  /** `add_debris` on a grid, with the draws from `pos` on. */
  function Debrised(g: Grid<Tile4>, draws: nat -> nat, pos: nat): (r: (Grid<Tile4>, nat))
    requires g.Valid()
    ensures r.0.Valid() && r.0.size == g.size
  {
    var w := WalkPhase(g, draws, pos);
    ScatterPhase(w.0, draws, w.1)
  }

  /** One step of a walk: debris at `c`, then the move; the rest of the
      walk goes on from there. */
  lemma WalkAdvance(g: Grid<Tile4>, c: Coord, draws: nat -> nat, pos: nat, end: nat, target: Grid<Tile4>)
    requires g.Valid() && IsValid(c, g.size) && pos < end && Walk(g, c, draws, pos, end) == target
    ensures var g1 := g.Set(c, Debris);
      Walk(g1, WalkStep(g1, c, DirectionAt(draws, pos)), draws, pos + 1, end) == target
  {
  }

  /** One walk of `Walks`: the one from the last start; the rest go on
      from the grid `w` it leaves. */
  lemma WalksAdvance(g: Grid<Tile4>, starts: seq<Coord>, k: nat, lo: nat, draws: nat -> nat, pos: nat, target: Grid<Tile4>, w: Grid<Tile4>)
    requires g.Valid() && forall c :: c in starts ==> IsValid(c, g.size)
    requires lo < k <= |starts| && Walks(g, starts, k, lo, draws, pos) == target
    requires w == Walk(g, starts[k - 1], draws, pos, pos + 8)
    ensures Walks(w, starts, k - 1, lo, draws, pos + 8) == target
  {
  }

  /** `g` is `g0` with some outdoor cells turned to debris. */
  ghost predicate OutdoorDebris(g0: Grid<Tile4>, g: Grid<Tile4>) {
    && g0.Valid() && g.Valid() && g.size == g0.size
    && forall c :: IsValid(c, g.size) ==> g.At(c) == g0.At(c) || (g0.At(c).IsOutside() && g.At(c) == Debris)
  }

  /** A walk from a cell outdoors in `g0`, over a grid that differs from
      `g0` only by debris on outdoor cells, keeps it so. */
  lemma {:induction false} WalkOutdoors(g0: Grid<Tile4>, g: Grid<Tile4>, c: Coord, draws: nat -> nat, pos: nat, end: nat)
    requires OutdoorDebris(g0, g) && IsValid(c, g0.size) && g0.At(c).IsOutside()
    ensures OutdoorDebris(g0, Walk(g, c, draws, pos, end))
    decreases end - pos
  {
    if pos < end {
      var g1 := g.Set(c, Debris);
      var c1 := WalkStep(g1, c, DirectionAt(draws, pos));
      assert g1.At(c1) == g0.At(c1) || g1.At(c1) == Debris;
      WalkOutdoors(g0, g1, c1, draws, pos + 1, end);
    }
  }

  /** Walks from cells outdoors in `g0` keep a grid differing from `g0`
      only by debris on outdoor cells so. */
  lemma {:induction false} WalksOutdoors(g0: Grid<Tile4>, g: Grid<Tile4>, starts: seq<Coord>, k: nat, lo: nat, draws: nat -> nat, pos: nat)
    requires OutdoorDebris(g0, g) && forall c :: c in starts ==> IsValid(c, g0.size) && g0.At(c).IsOutside()
    requires lo <= k <= |starts|
    ensures OutdoorDebris(g0, Walks(g, starts, k, lo, draws, pos))
    decreases k
  {
    if k > lo {
      var w := Walk(g, starts[k - 1], draws, pos, pos + 8);
      WalkOutdoors(g0, g, starts[k - 1], draws, pos, pos + 8);
      WalksOutdoors(g0, w, starts, k - 1, lo, draws, pos + 8);
    }
  }

  /** A walk leaves debris where there was debris, and on its start. */
  lemma {:induction false} WalkLeavesDebris(g: Grid<Tile4>, c: Coord, draws: nat -> nat, pos: nat, end: nat, d: Coord)
    requires g.Valid() && IsValid(c, g.size) && IsValid(d, g.size)
    requires g.At(d) == Debris || (d == c && pos < end)
    ensures Walk(g, c, draws, pos, end).At(d) == Debris
    decreases end - pos
  {
    if pos < end {
      var g1 := g.Set(c, Debris);
      WalkLeavesDebris(g1, WalkStep(g1, c, DirectionAt(draws, pos)), draws, pos + 1, end, d);
    }
  }

  /** Walks leave debris where there was debris, and on every start they
      pop: `starts[j]` for `lo <= j < k`. */
  lemma {:induction false} WalksLeaveDebris(g: Grid<Tile4>, starts: seq<Coord>, k: nat, lo: nat, draws: nat -> nat, pos: nat, d: Coord, j: nat)
    requires g.Valid() && forall c :: c in starts ==> IsValid(c, g.size)
    requires lo <= k <= |starts| && IsValid(d, g.size)
    requires g.At(d) == Debris || (lo <= j < k && d == starts[j])
    ensures Walks(g, starts, k, lo, draws, pos).At(d) == Debris
    decreases k
  {
    if k > lo {
      var w := Walk(g, starts[k - 1], draws, pos, pos + 8);
      if g.At(d) == Debris || j == k - 1 {
        WalkLeavesDebris(g, starts[k - 1], draws, pos, pos + 8, d);
      }
      WalksLeaveDebris(w, starts, k - 1, lo, draws, pos + 8, d, j);
    }
  }

  /** The scatter turns exactly the popped spots, `spots[lo..k]`, to
      debris and leaves every other cell alone. */
  lemma {:induction false} ScatterMeaning(g: Grid<Tile4>, spots: seq<Coord>, k: nat, lo: nat, d: Coord)
    requires g.Valid() && forall c :: c in spots ==> IsValid(c, g.size)
    requires lo <= k <= |spots| && IsValid(d, g.size)
    ensures Scatter(g, spots, k, lo).At(d) == if d in spots[lo..k] then Debris else g.At(d)
    decreases k
  {
    if k > lo {
      ScatterMeaning(g.Set(spots[k - 1], Debris), spots, k - 1, lo, d);
      assert spots[lo..k] == spots[lo..k - 1] + [spots[k - 1]];
    }
  }

  /** The walks from outdoor starts turn only outdoor cells to debris, and
      every start they pop (the last four, or all of them if fewer) is
      debris afterwards. */
  lemma StartWalksMeaning(g: Grid<Tile4>, s: seq<Coord>, draws: nat -> nat, pos: nat)
    requires g.Valid() && forall c :: c in s ==> IsValid(c, g.size) && g.At(c).IsOutside()
    ensures OutdoorDebris(g, StartWalks(g, s, draws, pos).0)
    ensures forall i :: PopsTo(|s|, 4) <= i < |s| ==> StartWalks(g, s, draws, pos).0.At(s[i]) == Debris
  {
    WalksOutdoors(g, g, s, |s|, PopsTo(|s|, 4), draws, pos);
    forall i | PopsTo(|s|, 4) <= i < |s|
      ensures StartWalks(g, s, draws, pos).0.At(s[i]) == Debris
    {
      WalksLeaveDebris(g, s, |s|, PopsTo(|s|, 4), draws, pos, s[i], i);
    }
  }

  /** The walk phase turns only outdoor cells to debris, and the start of
      each of its walks (the last four shuffled starts, or all of them if
      fewer) is debris afterwards. */
  lemma WalkPhaseMeaning(g: Grid<Tile4>, draws: nat -> nat, pos: nat)
    requires g.Valid()
    ensures OutdoorDebris(g, WalkPhase(g, draws, pos).0)
    ensures var s := ShuffledStarts(g, draws, pos);
      forall i :: PopsTo(|s|, 4) <= i < |s| ==> WalkStart(g, s[i]) && WalkPhase(g, draws, pos).0.At(s[i]) == Debris
  {
    var s := ShuffledStarts(g, draws, pos);
    StartWalksMeaning(g, s, draws, pos + ShuffleDraws(|s|));
    forall i | PopsTo(|s|, 4) <= i < |s|
      ensures WalkStart(g, s[i])
    {
      assert s[i] in s;
    }
  }

  /** The scatter phase turns exactly the last twenty shuffled debris
      spots (all of them if fewer) to debris, and nothing else. */
  lemma ScatterPhaseMeaning(g: Grid<Tile4>, draws: nat -> nat, pos: nat, d: Coord)
    requires g.Valid() && IsValid(d, g.size)
    ensures var s := ShuffledSpots(g, draws, pos);
      && ScatterPhase(g, draws, pos).0.At(d) == (if d in s[PopsTo(|s|, 20)..] then Debris else g.At(d))
      && (d in s[PopsTo(|s|, 20)..] ==> DebrisSpot(g, d))
  {
    var s := ShuffledSpots(g, draws, pos);
    ScatterMeaning(g, s, |s|, PopsTo(|s|, 20), d);
    if d in s[PopsTo(|s|, 20)..] {
      assert d in s;
    }
  }

  /** `add_debris` turns only open cells to debris. */
  lemma DebrisOnlyOpen(g: Grid<Tile4>, draws: nat -> nat, pos: nat)
    requires g.Valid()
    ensures OnlyDebris(g, Debrised(g, draws, pos).0)
  {
    WalkPhaseMeaning(g, draws, pos);
    var w := WalkPhase(g, draws, pos);
    var r := Debrised(g, draws, pos).0;
    forall d | IsValid(d, g.size)
      ensures r.At(d) == g.At(d) || (g.At(d).IsOpen() && r.At(d) == Debris)
    {
      ScatterPhaseMeaning(w.0, draws, w.1, d);
      assert w.0.At(d) == g.At(d) || (g.At(d).IsOutside() && w.0.At(d) == Debris);
    }
  }

  /** The pairs of areas `DisconnectedRooms` keeps, as keys. */
  class DisconnectedRooms {
    var asCoords: set<Coord>

    /** Every key names two different areas with a shared boundary. */
    predicate Valid(sb: Grid<set<Coord>>)
      reads this
      requires sb.Valid()
    {
      forall c :: c in asCoords ==> IsValid(c, sb.size) && c.x < c.y && sb.At(c) != {}
    }

    /** `all_disconnected`: every pair of areas with a shared boundary. */
    constructor AllDisconnected(areas: seq<Area>)
      ensures Valid(SharedBoundaries(areas))
      ensures forall a: nat, b: nat :: a < b < |areas| ==> (Coord(a, b) in asCoords <==> areas[a].boundary * areas[b].boundary != {})
    {
      var sb := SharedBoundaries(areas);
      asCoords := set c | c in AllCoords(sb.size) && sb.At(c) != {};
    }

    /** `connect`: the pair, in either order, is no longer disconnected. */
    method Connect(a: nat, b: nat)
      modifies this
      ensures asCoords == old(asCoords) - {Key(a, b)}
    {
      asCoords := asCoords - {Key(a, b)};
    }

    /** `iter`: the pairs, in the set's iteration order. */
    method Pairs() returns (r: seq<(nat, nat)>)
      requires forall c :: c in asCoords ==> 0 <= c.x && 0 <= c.y
      ensures forall a: nat, b: nat :: (a, b) in r <==> Coord(a, b) in asCoords
    {
      var cs := HashOrder(asCoords);
      r := seq(|cs|, i requires 0 <= i < |cs| => (cs[i].x as nat, cs[i].y as nat));
      forall a: nat, b: nat | Coord(a, b) in asCoords
        ensures (a, b) in r
      {
        var i :| 0 <= i < |cs| && cs[i] == Coord(a, b);
        assert r[i] == (a, b);
      }
    }
  }

  /** The fourth city map. */
  class Map4 {
    var grid: Grid<Tile4>

    predicate Valid()
      reads this
    {
      grid.Valid()
    }

    /** `Map4::from_map3`. */
    constructor FromMap3(m3: CityBlocks.Map3)
      requires m3.Valid()
      ensures Valid() && grid == FromGrid3(m3.grid)
    {
      grid := FromGrid3(m3.grid);
    }

    /** `add_debris`: four walks of eight steps from shuffled outdoor
        cells in the centre, each step leaving debris and moving in a drawn
        direction when that leads outdoors; then twenty single pieces on
        the shuffled debris spots of the grid the walks left. */
    method AddDebris(rng: Rng)
      requires Valid()
      modifies this, rng
      ensures Valid() && (grid, rng.position) == Debrised(old(grid), rng.draws, old(rng.position))
    {
      DebrisWalks(rng);
      ScatterDebris(rng);
    }

    /** The four debris walks of `add_debris`. */
    method DebrisWalks(rng: Rng)
      requires Valid()
      modifies this, rng
      ensures Valid()
      ensures (grid, rng.position) == WalkPhase(old(grid), rng.draws, old(rng.position))
    {
      var outside := ShuffleStarts(rng);
      WalksFrom(outside, rng);
    }

    /** The shuffled walk starts of `add_debris`. */
    method ShuffleStarts(rng: Rng) returns (outside: seq<Coord>)
      requires Valid()
      modifies rng
      ensures outside == ShuffledStarts(grid, rng.draws, old(rng.position))
      ensures rng.position == old(rng.position) + ShuffleDraws(|outside|)
      ensures forall c :: c in outside ==> IsValid(c, grid.size)
    {
      ghost var s := ShuffledStarts(grid, rng.draws, rng.position);
      outside := rng.Shuffle(WalkStarts(grid));
      assert outside == s;
    }

    /** The walks of `add_debris` from the shuffled starts `outside`:
        up to four of them, each from the start popped off the end. */
    method WalksFrom(outside: seq<Coord>, rng: Rng)
      requires Valid() && forall c :: c in outside ==> IsValid(c, grid.size)
      modifies this, rng
      ensures Valid()
      ensures (grid, rng.position) == StartWalks(old(grid), outside, rng.draws, old(rng.position))
    {
      ghost var lo := PopsTo(|outside|, 4);
      ghost var target := Walks(grid, outside, |outside|, lo, rng.draws, rng.position);
      ghost var end := rng.position + 8 * (|outside| - lo);
      var k: nat := |outside|;
      var n: nat := 0;
      while n < 4
        invariant 0 <= n <= 4 && k <= |outside| && Valid() && grid.size == old(grid.size)
        invariant lo == PopsTo(k, 4 - n) && rng.position + 8 * (k - lo) == end
        invariant Walks(grid, outside, k, lo, rng.draws, rng.position) == target
      {
        k := NextWalk(outside, k, lo, target, rng);
        n := n + 1;
      }
    }

    /** One pop of `WalksFrom`: when a start is left, the walk from
        `outside[k - 1]`, after which what is left of the walks is the
        walks from the rest; the number of starts left is returned. */
    method NextWalk(outside: seq<Coord>, k: nat, ghost lo: nat, ghost target: Grid<Tile4>, rng: Rng) returns (k': nat)
      requires Valid() && forall c :: c in outside ==> IsValid(c, grid.size)
      requires lo <= k <= |outside| && (k > 0 ==> lo < k)
      requires Walks(grid, outside, k, lo, rng.draws, rng.position) == target
      modifies this, rng
      ensures k' == (if k > 0 then k - 1 else 0)
      ensures Valid() && grid.size == old(grid.size) && rng.position == old(rng.position) + 8 * (k - k')
      ensures Walks(grid, outside, k', lo, rng.draws, rng.position) == target
    {
      k' := k;
      if k > 0 {
        ghost var g0, p0 := grid, rng.position;
        DebrisWalk(outside[k - 1], rng);
        WalksAdvance(g0, outside, k, lo, rng.draws, p0, target, grid);
        k' := k - 1;
      }
    }

    /** The twenty single pieces of debris of `add_debris`. */
    method ScatterDebris(rng: Rng)
      requires Valid()
      modifies this, rng
      ensures Valid()
      ensures var s := ShuffledSpots(old(grid), rng.draws, old(rng.position));
        grid == Scatter(old(grid), s, |s|, PopsTo(|s|, 20)) && rng.position == old(rng.position) + ShuffleDraws(|s|)
      ensures (grid, rng.position) == ScatterPhase(old(grid), rng.draws, old(rng.position))
    {
      var open := ShuffleSpots(rng);
      ScatterFrom(open);
    }

    /** The shuffled debris spots of `add_debris`. */
    method ShuffleSpots(rng: Rng) returns (open: seq<Coord>)
      requires Valid()
      modifies rng
      ensures open == ShuffledSpots(grid, rng.draws, old(rng.position))
      ensures rng.position == old(rng.position) + ShuffleDraws(|open|)
      ensures forall c :: c in open ==> IsValid(c, grid.size)
    {
      ghost var s := ShuffledSpots(grid, rng.draws, rng.position);
      open := rng.Shuffle(DebrisSpots(grid));
      assert open == s;
    }

    /** Twenty pops off the end of `open` (fewer if it runs out), each
        turning the popped cell to debris; the first `k` spots are the
        ones not yet popped. */
    method ScatterFrom(open: seq<Coord>)
      requires Valid() && forall c :: c in open ==> IsValid(c, grid.size)
      modifies this
      ensures Valid() && grid == Scatter(old(grid), open, |open|, PopsTo(|open|, 20))
    {
      ghost var lo := PopsTo(|open|, 20);
      ghost var target := Scatter(grid, open, |open|, lo);
      var k: nat := |open|;
      var n: nat := 0;
      while n < 20
        invariant 0 <= n <= 20 && k <= |open| && Valid() && grid.size == old(grid.size)
        invariant lo == PopsTo(k, 20 - n)
        invariant Scatter(grid, open, k, lo) == target
      {
        if k > 0 {
          grid := grid.Set(open[k - 1], Debris);
          k := k - 1;
        }
        n := n + 1;
      }
    }

    /** One debris walk of eight steps from `start`. */
    method DebrisWalk(start: Coord, rng: Rng)
      requires Valid() && IsValid(start, grid.size)
      modifies this, rng
      ensures Valid() && grid == Walk(old(grid), start, rng.draws, old(rng.position), old(rng.position) + 8)
      ensures rng.position == old(rng.position) + 8
    {
      ghost var end := rng.position + 8;
      ghost var target := Walk(grid, start, rng.draws, rng.position, end);
      var c := start;
      var i := 0;
      while i < 8
        invariant 0 <= i <= 8 && Valid() && IsValid(c, grid.size) && rng.position + 8 - i == end
        invariant Walk(grid, c, rng.draws, rng.position, end) == target
      {
        c := NextStep(c, end, target, rng);
        i := i + 1;
      }
    }

    /** The next step of `DebrisWalk`, from `c`: what is left of the walk
        is then the walk from where the step led. */
    method NextStep(c: Coord, ghost end: nat, ghost target: Grid<Tile4>, rng: Rng) returns (next: Coord)
      requires Valid() && IsValid(c, grid.size) && rng.position < end
      requires Walk(grid, c, rng.draws, rng.position, end) == target
      modifies this, rng
      ensures Valid() && grid.size == old(grid.size) && IsValid(next, grid.size)
      ensures rng.position == old(rng.position) + 1
      ensures Walk(grid, next, rng.draws, rng.position, end) == target
    {
      WalkAdvance(grid, c, rng.draws, rng.position, end, target);
      next := DebrisStep(c, rng);
    }

    /** One step of a debris walk: debris at `c`, then a drawn direction,
        followed when it leads to an outdoor cell of the grid. */
    method DebrisStep(c: Coord, rng: Rng) returns (next: Coord)
      requires Valid() && IsValid(c, grid.size)
      modifies this, rng
      ensures Valid() && grid == old(grid).Set(c, Debris)
      ensures next == WalkStep(grid, c, DirectionAt(rng.draws, old(rng.position)))
      ensures rng.position == old(rng.position) + 1
    {
      var k := rng.GenDirection();
      grid := grid.Set(c, Debris);
      next := c.Add(ALL_DELTAS[k]);
      if !(IsValid(next, grid.size) && grid.At(next).IsOutside()) {
        next := c;
      }
    }

    /** `areas`: the open cells grouped by cardinal steps, scanned in
        row-major order, each area with the through walls beside it. */
    method Areas() returns (areas: seq<Area>, ghost comps: seq<set<Coord>>)
      requires Valid()
      ensures AreasOf(grid, areas, comps)
    {
      CardinalMovesSymmetric();
      var g := grid;
      var cs := Components(OpenSet(g), CARDINAL_DELTAS, g.size);
      comps := cs;
      areas := seq(|cs|, i requires 0 <= i < |cs| => Area(BoundaryOf(g, cs[i])));
    }

    /** `adjacencies`. */
    method GetAdjacencies() returns (adj: Adjacencies, ghost comps: seq<set<Coord>>)
      requires Valid()
      ensures AdjacenciesOf(grid, adj, comps)
    {
      var areas;
      areas, comps := Areas();
      var sb := SharedBoundaries(areas);
      var neighbours := seq(|areas|, i requires 0 <= i < |areas| => NeighboursFrom(sb, i, 0));
      adj := Adjacencies(areas, sb, neighbours);
    }

    /** `add_doors`: from a drawn area, areas are visited in a random
        order along the shared walls; each newly reached area gets a door
        in a drawn wall it shares with the area it was reached from. Then
        two thirds of the remaining adjacent pairs, shuffled, get a door
        too. The map must have an open cell. Only walls two areas share
        change, and they become doors; every area the adjacency graph
        links to the drawn one is linked to it by doors. */
    method AddDoors(rng: Rng)
      requires Valid() && OpenSet(grid) != {}
      modifies this, rng
      ensures Valid() && DoorsOnly(old(grid), grid)
      ensures exists adj: Adjacencies, comps: seq<set<Coord>>, start: nat ::
        && AdjacenciesOf(old(grid), adj, comps) && start < |adj.areas|
        && Spanned(grid, adj, start)
    {
      ghost var g0 := grid;
      ghost var walls := SharedWalls(grid);
      var adj;
      ghost var comps;
      adj, comps := GetAdjacencies();
      NonEmptyAreas(grid, adj, comps);
      PlanFromAdjacencies(grid, adj, comps, walls);
      var start;
      ghost var extra;
      start, extra := PlaceDoors(adj, rng, g0, walls);
      DoorsInShared(g0, grid, walls);
    }

    /** The doors of `add_doors`, both phases: the spanning tree from the
        drawn area `start`, then doors for the last two thirds of the
        other adjacent pairs, `extra`, in the order they were shuffled. */
    method PlaceDoors(adj: Adjacencies, rng: Rng, ghost g0: Grid<Tile4>, ghost walls: set<Coord>)
      returns (start: nat, ghost extra: seq<(nat, nat)>)
      requires g0.Valid() && DoorPlan(adj, walls, g0.size) && |adj.areas| > 0
      requires Valid() && DoorsIn(g0, grid, walls)
      modifies this, rng
      ensures Valid() && DoorsIn(g0, grid, walls)
      ensures start < |adj.areas| && Spanned(grid, adj, start)
      ensures forall p :: p in extra ==> p.0 < p.1 < |adj.areas| && SharedBoundary(adj.sharedBoundaries, p.0, p.1) != {}
      ensures forall k :: |extra| - 2 * |extra| / 3 <= k < |extra| ==> Joined(grid, adj, extra[k].0, extra[k].1)
    {
      var rooms := new DisconnectedRooms.AllDisconnected(adj.areas);
      start := SpanningTreeDoors(adj, rooms, rng, g0, walls);
      var pairs := ShuffledPairs(adj, rooms, rng);
      extra := pairs;
      ghost var g1 := grid;
      ExtraDoors(adj, pairs, rng, g0, walls);
      SpannedKept(g1, grid, adj, start);
    }

    /** The pairs the spanning tree left unconnected, in drawn order. */
    method ShuffledPairs(adj: Adjacencies, rooms: DisconnectedRooms, rng: Rng) returns (pairs: seq<(nat, nat)>)
      requires adj.sharedBoundaries == SharedBoundaries(adj.areas) && rooms.Valid(adj.sharedBoundaries)
      modifies rng
      ensures forall p :: p in pairs ==> p.0 < p.1 < |adj.areas| && SharedBoundary(adj.sharedBoundaries, p.0, p.1) != {}
    {
      var remaining := rooms.Pairs();
      forall p | p in remaining
        ensures p.0 < p.1 < |adj.areas| && SharedBoundary(adj.sharedBoundaries, p.0, p.1) != {}
      {
        assert (p.0, p.1) in remaining;
        assert Key(p.0, p.1) == Coord(p.0, p.1);
      }
      pairs := rng.Shuffle<(nat, nat)>(remaining);
      assert forall p :: p in pairs ==> p in multiset(remaining);
    }

    /** The second phase of `add_doors`: doors between the first two
        thirds of the pairs, taken from the end of the shuffled list. */
    method ExtraDoors(adj: Adjacencies, pairs0: seq<(nat, nat)>, rng: Rng, ghost g0: Grid<Tile4>, ghost walls: set<Coord>)
      requires g0.Valid() && DoorPlan(adj, walls, g0.size)
      requires forall p :: p in pairs0 ==> p.0 < |adj.areas| && p.1 < |adj.areas|
      requires Valid() && DoorsIn(g0, grid, walls)
      modifies this, rng
      ensures Valid() && DoorsIn(g0, grid, walls) && DoorsKept(old(grid), grid)
      ensures forall k :: |pairs0| - 2 * |pairs0| / 3 <= k < |pairs0| ==>
        SharedBoundary(adj.sharedBoundaries, pairs0[k].0, pairs0[k].1) != {} ==> Joined(grid, adj, pairs0[k].0, pairs0[k].1)
    {
      var pairs := pairs0;
      var count := 2 * |pairs| / 3;
      var m := 0;
      while m < count
        invariant 0 <= m <= count && pairs == pairs0[..|pairs0| - m]
        invariant Valid() && DoorsIn(g0, grid, walls) && DoorsKept(old(grid), grid)
        invariant forall k :: |pairs0| - m <= k < |pairs0| ==>
          SharedBoundary(adj.sharedBoundaries, pairs0[k].0, pairs0[k].1) != {} ==> Joined(grid, adj, pairs0[k].0, pairs0[k].1)
      {
        if pairs != [] {
          var p := pairs[|pairs| - 1];
          pairs := pairs[..|pairs| - 1];
          assert p == pairs0[|pairs0| - m - 1] && p in pairs0;
          ExtraDoor(adj, pairs0, m, rng, g0, walls);
        }
        m := m + 1;
      }
    }

    /** One door of the second phase: the pair `m + 1` from the end. */
    method ExtraDoor(adj: Adjacencies, pairs0: seq<(nat, nat)>, m: nat, rng: Rng, ghost g0: Grid<Tile4>, ghost walls: set<Coord>)
      requires g0.Valid() && DoorPlan(adj, walls, g0.size) && m < |pairs0|
      requires forall p :: p in pairs0 ==> p.0 < |adj.areas| && p.1 < |adj.areas|
      requires Valid() && DoorsIn(g0, grid, walls)
      modifies this, rng
      ensures Valid() && DoorsIn(g0, grid, walls) && DoorsKept(old(grid), grid)
      ensures forall k :: |pairs0| - m - 1 <= k < |pairs0| ==>
        SharedBoundary(adj.sharedBoundaries, pairs0[k].0, pairs0[k].1) != {} ==>
          (Joined(old(grid), adj, pairs0[k].0, pairs0[k].1) || k == |pairs0| - m - 1) ==> Joined(grid, adj, pairs0[k].0, pairs0[k].1)
    {
      var p := pairs0[|pairs0| - m - 1];
      assert p in pairs0;
      ghost var g1 := grid;
      var door := PlaceDoor(adj, p.0, p.1, rng, g0, walls);
      forall k | |pairs0| - m - 1 <= k < |pairs0| && Joined(g1, adj, pairs0[k].0, pairs0[k].1)
        ensures Joined(grid, adj, pairs0[k].0, pairs0[k].1)
      {
        assert pairs0[k] in pairs0;
        JoinedKept(g1, grid, adj, pairs0[k].0, pairs0[k].1);
      }
    }

    /** The first phase of `add_doors`: the random spanning tree. Areas
        are taken from the list to visit at drawn positions, and each
        neighbour not yet seen is queued and joined by a door. Every area
        the adjacency graph links to the drawn start is linked to it by
        doors when the list runs out. */
    method SpanningTreeDoors(adj: Adjacencies, rooms: DisconnectedRooms, rng: Rng, ghost g0: Grid<Tile4>, ghost walls: set<Coord>)
      returns (start: nat)
      requires g0.Valid() && DoorPlan(adj, walls, g0.size) && |adj.areas| > 0
      requires Valid() && DoorsIn(g0, grid, walls) && rooms.Valid(adj.sharedBoundaries)
      modifies this, rng, rooms
      ensures Valid() && DoorsIn(g0, grid, walls) && rooms.Valid(adj.sharedBoundaries)
      ensures start < |adj.areas| && start == Draw(rng.draws, old(rng.position)) % |adj.areas|
      ensures Spanned(grid, adj, start)
    {
      var n := |adj.areas|;
      var s := rng.GenRange(0, n);
      start := s;
      var toVisit: seq<nat> := [start];
      var seen: set<nat> := {start};
      ghost var visited: set<nat> := {};
      DoorLinkedRefl(grid, adj, start);
      while toVisit != []
        invariant Valid() && DoorsIn(g0, grid, walls) && rooms.Valid(adj.sharedBoundaries)
        invariant TreeInv(grid, adj, start, toVisit, seen, visited)
        decreases |Indices(n) - seen|, |toVisit|
      {
        seen, toVisit, visited := VisitNext(adj, rooms, rng, g0, walls, start, seen, toVisit, visited);
      }
      TreeDone(grid, adj, start, seen, visited);
    }

    /** One round of the spanning tree: an area is taken from a drawn
        position of the list to visit, and its neighbours visited. */
    method VisitNext(adj: Adjacencies, rooms: DisconnectedRooms, rng: Rng, ghost g0: Grid<Tile4>, ghost walls: set<Coord>,
                     ghost start: nat, seen0: set<nat>, toVisit0: seq<nat>, ghost visited0: set<nat>)
      returns (seen: set<nat>, toVisit: seq<nat>, ghost visited: set<nat>)
      requires g0.Valid() && DoorPlan(adj, walls, g0.size)
      requires Valid() && DoorsIn(g0, grid, walls) && rooms.Valid(adj.sharedBoundaries)
      requires toVisit0 != [] && TreeInv(grid, adj, start, toVisit0, seen0, visited0)
      modifies this, rng, rooms
      ensures Valid() && DoorsIn(g0, grid, walls) && rooms.Valid(adj.sharedBoundaries)
      ensures TreeInv(grid, adj, start, toVisit, seen, visited)
      ensures |Indices(|adj.areas|) - seen| < |Indices(|adj.areas|) - seen0|
        || (|Indices(|adj.areas|) - seen| == |Indices(|adj.areas|) - seen0| && |toVisit| < |toVisit0|)
    {
      ghost var g1 := grid;
      var k := rng.GenRange(0, |toVisit0|);
      var index := toVisit0[k];
      assert index in toVisit0;
      var toVisit2 := SwapRemove(toVisit0, k);
      SwapRemoveKeeps(toVisit0, k);
      seen, toVisit := VisitNeighbours(adj, rooms, rng, g0, walls, index, seen0, toVisit2);
      visited := visited0 + {index};
      TreeStep(g1, grid, adj, start, index, seen0, seen, visited0, toVisit0, toVisit2, toVisit);
    }

    /** One visit of the spanning tree: every neighbour of area `index`
        not yet seen is seen, queued, and joined to it by a door. */
    method VisitNeighbours(adj: Adjacencies, rooms: DisconnectedRooms, rng: Rng, ghost g0: Grid<Tile4>, ghost walls: set<Coord>,
                           index: nat, seen0: set<nat>, toVisit0: seq<nat>) returns (seen: set<nat>, toVisit: seq<nat>)
      requires g0.Valid() && DoorPlan(adj, walls, g0.size) && index < |adj.areas|
      requires Valid() && DoorsIn(g0, grid, walls) && rooms.Valid(adj.sharedBoundaries)
      requires forall i :: i in toVisit0 ==> 0 <= i < |adj.areas|
      modifies this, rng, rooms
      ensures Valid() && DoorsIn(g0, grid, walls) && rooms.Valid(adj.sharedBoundaries) && DoorsKept(old(grid), grid)
      ensures forall i :: i in toVisit ==> 0 <= i < |adj.areas|
      ensures (seen == seen0 && toVisit == toVisit0) || |Indices(|adj.areas|) - seen| < |Indices(|adj.areas|) - seen0|
      ensures Visited(adj, index, seen0, toVisit0, seen, toVisit, |adj.neighbours[index]|)
      ensures JoinedNew(grid, adj, index, seen0, seen)
    {
      var n := |adj.areas|;
      seen, toVisit := seen0, toVisit0;
      var neighbours := adj.neighbours[index];
      var j := 0;
      while j < |neighbours|
        invariant 0 <= j <= |neighbours|
        invariant Valid() && DoorsIn(g0, grid, walls) && rooms.Valid(adj.sharedBoundaries) && DoorsKept(old(grid), grid)
        invariant forall i :: i in toVisit ==> 0 <= i < n
        invariant (seen == seen0 && toVisit == toVisit0) || |Indices(n) - seen| < |Indices(n) - seen0|
        invariant Visited(adj, index, seen0, toVisit0, seen, toVisit, j)
        invariant JoinedNew(grid, adj, index, seen0, seen)
      {
        var next := neighbours[j];
        assert next in adj.neighbours[index];
        ghost var seen1, toVisit1, g1 := seen, toVisit, grid;
        if next !in seen {
          IndicesShrink(n, seen, next);
          seen := seen + {next};
          toVisit := toVisit + [next];
          JoinNeighbour(adj, rooms, rng, g0, walls, index, next);
        }
        VisitStep(g1, grid, adj, index, seen0, toVisit0, seen1, toVisit1, seen, toVisit, j);
        j := j + 1;
      }
    }

    /** A neighbour newly seen: a door to it, and the pair connected. */
    method JoinNeighbour(adj: Adjacencies, rooms: DisconnectedRooms, rng: Rng, ghost g0: Grid<Tile4>, ghost walls: set<Coord>,
                         index: nat, next: nat)
      requires g0.Valid() && DoorPlan(adj, walls, g0.size) && index < |adj.areas| && next in adj.neighbours[index]
      requires Valid() && DoorsIn(g0, grid, walls) && rooms.Valid(adj.sharedBoundaries)
      modifies this, rng, rooms
      ensures Valid() && DoorsIn(g0, grid, walls) && rooms.Valid(adj.sharedBoundaries) && DoorsKept(old(grid), grid)
      ensures next < |adj.areas| && Joined(grid, adj, index, next)
    {
      var door := PlaceDoor(adj, index, next, rng, g0, walls);
      rooms.Connect(index, next);
    }

    /** A door in a drawn cell of the wall areas `a` and `b` share, when
        they share one; the cell is returned. */
    method PlaceDoor(adj: Adjacencies, a: nat, b: nat, rng: Rng, ghost g0: Grid<Tile4>, ghost walls: set<Coord>)
      returns (door: Option<Coord>)
      requires g0.Valid() && DoorPlan(adj, walls, g0.size)
      requires a < |adj.areas| && b < |adj.areas|
      requires Valid() && DoorsIn(g0, grid, walls)
      modifies this, rng
      ensures Valid() && DoorsIn(g0, grid, walls) && DoorsKept(old(grid), grid)
      ensures door.None? <==> SharedBoundary(adj.sharedBoundaries, a, b) == {}
      ensures door.None? ==> grid == old(grid)
      ensures door.Some? ==> door.value in SharedBoundary(adj.sharedBoundaries, a, b) && grid == old(grid).Set(door.value, Door)
      ensures door.Some? ==> Joined(grid, adj, a, b)
    {
      var shared := HashOrder(SharedBoundary(adj.sharedBoundaries, a, b));
      door := rng.Choose(shared);
      if door.Some? {
        assert door.value in walls;
        grid := grid.Set(door.value, Door);
        assert grid.Get(door.value) == Some(Door);
      } else {
        assert forall c :: c !in SharedBoundary(adj.sharedBoundaries, a, b);
      }
    }
  }

  /** Some wall areas `a` and `b` share is a door in `g`. */
  ghost predicate Joined(g: Grid<Tile4>, adj: Adjacencies, a: nat, b: nat)
    requires adj.sharedBoundaries == SharedBoundaries(adj.areas) && a < |adj.areas| && b < |adj.areas|
  {
    g.Valid() && exists c :: c in SharedBoundary(adj.sharedBoundaries, a, b) && g.Get(c) == Some(Door)
  }

  /** `g` is `h` or more: every door of `g` is still a door in `h`. */
  ghost predicate DoorsKept(g: Grid<Tile4>, h: Grid<Tile4>) {
    && g.Valid() && h.Valid() && h.size == g.size
    && forall c :: g.Get(c) == Some(Door) ==> h.Get(c) == Some(Door)
  }

  lemma DoorsKeptTrans(g: Grid<Tile4>, h: Grid<Tile4>, k: Grid<Tile4>)
    requires DoorsKept(g, h) && DoorsKept(h, k)
    ensures DoorsKept(g, k)
  {
  }

  /** Doors that join two areas keep joining them. */
  lemma JoinedKept(g: Grid<Tile4>, h: Grid<Tile4>, adj: Adjacencies, a: nat, b: nat)
    requires adj.sharedBoundaries == SharedBoundaries(adj.areas) && a < |adj.areas| && b < |adj.areas|
    requires DoorsKept(g, h) && Joined(g, adj, a, b)
    ensures Joined(h, adj, a, b)
  {
    var c :| c in SharedBoundary(adj.sharedBoundaries, a, b) && g.Get(c) == Some(Door);
    assert h.Get(c) == Some(Door);
  }

  /** A walk through areas in which each step crosses a door. */
  ghost predicate DoorPath(g: Grid<Tile4>, adj: Adjacencies, path: seq<nat>)
    requires adj.sharedBoundaries == SharedBoundaries(adj.areas)
  {
    && (forall k :: 0 <= k < |path| ==> path[k] < |adj.areas|)
    && forall k :: 0 <= k < |path| - 1 ==> JoinedStep(g, adj, path, k)
  }

  /** Steps `k` and `k + 1` of `path` are areas joined by a door. */
  ghost predicate JoinedStep(g: Grid<Tile4>, adj: Adjacencies, path: seq<nat>, k: nat)
    requires adj.sharedBoundaries == SharedBoundaries(adj.areas)
  {
    k + 1 < |path| && path[k] < |adj.areas| && path[k + 1] < |adj.areas| && Joined(g, adj, path[k], path[k + 1])
  }

  /** Area `b` can be reached from area `a` through doors. */
  ghost predicate DoorLinked(g: Grid<Tile4>, adj: Adjacencies, a: nat, b: nat)
    requires adj.sharedBoundaries == SharedBoundaries(adj.areas)
  {
    exists path :: |path| > 0 && path[0] == a && path[|path| - 1] == b && DoorPath(g, adj, path)
  }

  /** A walk through areas in which each step goes to a neighbour. */
  ghost predicate AdjPath(adj: Adjacencies, path: seq<nat>) {
    forall k :: 0 <= k < |path| - 1 ==> path[k] < |adj.neighbours| && path[k + 1] in adj.neighbours[path[k]]
  }

  /** Every area the adjacency graph links to `start` is linked to it by
      doors in `g`. */
  ghost predicate Spanned(g: Grid<Tile4>, adj: Adjacencies, start: nat)
    requires adj.sharedBoundaries == SharedBoundaries(adj.areas)
  {
    forall path :: |path| > 0 && path[0] == start && AdjPath(adj, path) ==> DoorLinked(g, adj, start, path[|path| - 1])
  }

  /** Every area of `seen` is linked to `start` by doors in `g`. */
  ghost predicate LinkedFrom(g: Grid<Tile4>, adj: Adjacencies, start: nat, seen: set<nat>)
    requires adj.sharedBoundaries == SharedBoundaries(adj.areas)
  {
    forall i :: i in seen ==> DoorLinked(g, adj, start, i)
  }

  /** Every neighbour of an area of `visited` is in `seen`. */
  ghost predicate NeighboursSeen(adj: Adjacencies, visited: set<nat>, seen: set<nat>) {
    forall i, j :: i in visited && 0 <= i < |adj.neighbours| && j in adj.neighbours[i] ==> j in seen
  }

  /** The neighbours of `index` before position `j` have been seen, and
      those among them not seen before are queued. */
  ghost predicate Visited(adj: Adjacencies, index: nat, seen0: set<nat>, toVisit0: seq<nat>, seen: set<nat>, toVisit: seq<nat>, j: nat)
    requires index < |adj.neighbours| && j <= |adj.neighbours[index]|
  {
    && (forall i :: i in seen <==> i in seen0 || i in adj.neighbours[index][..j])
    && (forall i :: i in toVisit <==> i in toVisit0 || (i in adj.neighbours[index][..j] && i !in seen0))
  }

  /** An area is linked to itself. */
  lemma DoorLinkedRefl(g: Grid<Tile4>, adj: Adjacencies, a: nat)
    requires adj.sharedBoundaries == SharedBoundaries(adj.areas) && a < |adj.areas|
    ensures DoorLinked(g, adj, a, a)
  {
    assert DoorPath(g, adj, [a]);
  }

  /** A door path followed by a door is a door path. */
  lemma DoorLinkedStep(g: Grid<Tile4>, adj: Adjacencies, a: nat, b: nat, c: nat)
    requires adj.sharedBoundaries == SharedBoundaries(adj.areas) && b < |adj.areas| && c < |adj.areas|
    requires DoorLinked(g, adj, a, b) && Joined(g, adj, b, c)
    ensures DoorLinked(g, adj, a, c)
  {
    var path :| |path| > 0 && path[0] == a && path[|path| - 1] == b && DoorPath(g, adj, path);
    var path' := path + [c];
    forall k | 0 <= k < |path'| - 1
      ensures JoinedStep(g, adj, path', k)
    {
      if k < |path| - 1 {
        assert JoinedStep(g, adj, path, k);
      }
    }
    assert DoorPath(g, adj, path');
  }

  /** Door paths survive more doors. */
  lemma DoorLinkedKept(g: Grid<Tile4>, h: Grid<Tile4>, adj: Adjacencies, a: nat, b: nat)
    requires adj.sharedBoundaries == SharedBoundaries(adj.areas)
    requires DoorsKept(g, h) && DoorLinked(g, adj, a, b)
    ensures DoorLinked(h, adj, a, b)
  {
    var path :| |path| > 0 && path[0] == a && path[|path| - 1] == b && DoorPath(g, adj, path);
    forall k | 0 <= k < |path| - 1
      ensures JoinedStep(h, adj, path, k)
    {
      assert JoinedStep(g, adj, path, k);
      JoinedKept(g, h, adj, path[k], path[k + 1]);
    }
    assert DoorPath(h, adj, path);
  }

  /** `Spanned` survives more doors. */
  lemma SpannedKept(g: Grid<Tile4>, h: Grid<Tile4>, adj: Adjacencies, start: nat)
    requires adj.sharedBoundaries == SharedBoundaries(adj.areas)
    requires DoorsKept(g, h) && Spanned(g, adj, start)
    ensures Spanned(h, adj, start)
  {
    forall path | |path| > 0 && path[0] == start && AdjPath(adj, path)
      ensures DoorLinked(h, adj, start, path[|path| - 1])
    {
      DoorLinkedKept(g, h, adj, start, path[|path| - 1]);
    }
  }

  /** A set that holds `start` and every neighbour of its areas holds
      every area the adjacency graph links to `start`. */
  lemma {:induction false} ClosedReach(adj: Adjacencies, seen: set<nat>, path: seq<nat>)
    requires |path| > 0 && path[0] in seen && AdjPath(adj, path) && NeighboursSeen(adj, seen, seen)
    ensures path[|path| - 1] in seen
    decreases |path|
  {
    if |path| > 1 {
      var init := path[..|path| - 1];
      assert AdjPath(adj, init);
      ClosedReach(adj, seen, init);
      assert path[|path| - 2] == init[|init| - 1];
    }
  }

  /** The spanning tree's closing argument: a closed `seen` holding the
      start, all linked to it by doors, spans every area the adjacency
      graph links to the start. */
  lemma ClosedSpans(g: Grid<Tile4>, adj: Adjacencies, start: nat, seen: set<nat>)
    requires adj.sharedBoundaries == SharedBoundaries(adj.areas)
    requires start in seen && NeighboursSeen(adj, seen, seen) && LinkedFrom(g, adj, start, seen)
    ensures Spanned(g, adj, start)
  {
    forall path | |path| > 0 && path[0] == start && AdjPath(adj, path)
      ensures DoorLinked(g, adj, start, path[|path| - 1])
    {
      ClosedReach(adj, seen, path);
    }
  }

  /** An element other than the removed one survives `SwapRemove`. */
  lemma SwapRemoveKeeps<T>(s: seq<T>, k: nat)
    requires k < |s|
    ensures forall x :: x in s && x != s[k] ==> x in SwapRemove(s, k)
  {
    forall x | x in s && x != s[k]
      ensures x in SwapRemove(s, k)
    {
      assert x in multiset(s);
    }
  }

  /** One neighbour of a visit: `Visited` and the joins advance. */
  lemma VisitStep(g1: Grid<Tile4>, g: Grid<Tile4>, adj: Adjacencies, index: nat, seen0: set<nat>, toVisit0: seq<nat>,
                  seen1: set<nat>, toVisit1: seq<nat>, seen: set<nat>, toVisit: seq<nat>, j: nat)
    requires adj.sharedBoundaries == SharedBoundaries(adj.areas) && index < |adj.areas| && |adj.neighbours| == |adj.areas|
    requires forall i, x :: 0 <= i < |adj.areas| && x in adj.neighbours[i] ==> x < |adj.areas|
    requires j < |adj.neighbours[index]| && Visited(adj, index, seen0, toVisit0, seen1, toVisit1, j)
    requires JoinedNew(g1, adj, index, seen0, seen1)
    requires DoorsKept(g1, g)
    requires var next := adj.neighbours[index][j];
      if next in seen1 then seen == seen1 && toVisit == toVisit1
      else seen == seen1 + {next} && toVisit == toVisit1 + [next] && next < |adj.areas| && Joined(g, adj, index, next)
    ensures Visited(adj, index, seen0, toVisit0, seen, toVisit, j + 1)
    ensures JoinedNew(g, adj, index, seen0, seen)
  {
    var ns := adj.neighbours[index];
    assert ns[..j + 1] == ns[..j] + [ns[j]];
    forall i | i in seen && i !in seen0
      ensures i < |adj.areas| && Joined(g, adj, index, i)
    {
      if i in seen1 {
        assert i in ns[..j];
        JoinedKept(g1, g, adj, index, i);
      }
    }
  }

  /** What the spanning tree keeps while the list to visit runs down:
      queued areas are seen, every seen area is visited or queued, the
      neighbours of visited areas are seen, and every seen area is linked
      to the start by doors. */
  ghost predicate TreeInv(g: Grid<Tile4>, adj: Adjacencies, start: nat, toVisit: seq<nat>, seen: set<nat>, visited: set<nat>)
    requires adj.sharedBoundaries == SharedBoundaries(adj.areas)
  {
    && (forall i :: i in toVisit ==> i < |adj.areas| && i in seen)
    && start in seen && visited <= seen
    && (forall i :: i in seen ==> i in visited || i in toVisit)
    && NeighboursSeen(adj, visited, seen) && LinkedFrom(g, adj, start, seen)
  }

  /** The areas seen since `seen0`, all joined to `index` by a door. */
  ghost predicate JoinedNew(g: Grid<Tile4>, adj: Adjacencies, index: nat, seen0: set<nat>, seen: set<nat>)
    requires adj.sharedBoundaries == SharedBoundaries(adj.areas) && index < |adj.areas|
  {
    forall i :: i in seen && i !in seen0 ==> i < |adj.areas| && Joined(g, adj, index, i)
  }

  /** An empty list to visit: the tree spans what the start links to. */
  lemma TreeDone(g: Grid<Tile4>, adj: Adjacencies, start: nat, seen: set<nat>, visited: set<nat>)
    requires adj.sharedBoundaries == SharedBoundaries(adj.areas)
    requires TreeInv(g, adj, start, [], seen, visited)
    ensures Spanned(g, adj, start)
  {
    assert visited == seen;
    ClosedSpans(g, adj, start, seen);
  }

  /** One visit of the spanning tree keeps its invariants. */
  lemma TreeStep(g1: Grid<Tile4>, g: Grid<Tile4>, adj: Adjacencies, start: nat, index: nat,
                 seen1: set<nat>, seen: set<nat>, visited1: set<nat>, toVisit1: seq<nat>, toVisit2: seq<nat>, toVisit: seq<nat>)
    requires adj.sharedBoundaries == SharedBoundaries(adj.areas) && index < |adj.areas| && |adj.neighbours| == |adj.areas|
    requires forall i, x :: 0 <= i < |adj.areas| && x in adj.neighbours[i] ==> x < |adj.areas|
    requires index in toVisit1 && TreeInv(g1, adj, start, toVisit1, seen1, visited1)
    requires forall x :: x in toVisit1 && x != index ==> x in toVisit2
    requires forall x :: x in toVisit2 ==> x in toVisit1
    requires DoorsKept(g1, g)
    requires Visited(adj, index, seen1, toVisit2, seen, toVisit, |adj.neighbours[index]|)
    requires JoinedNew(g, adj, index, seen1, seen)
    ensures TreeInv(g, adj, start, toVisit, seen, visited1 + {index})
  {
    var ns := adj.neighbours[index];
    assert ns[..|ns|] == ns;
    forall i | i in seen
      ensures DoorLinked(g, adj, start, i)
    {
      if i in seen1 {
        DoorLinkedKept(g1, g, adj, start, i);
      } else {
        DoorLinkedKept(g1, g, adj, start, index);
        DoorLinkedStep(g, adj, start, index, i);
      }
    }
  }

  /** `g` is `g0` with doors in some cells of `walls`. */
  ghost predicate DoorsIn(g0: Grid<Tile4>, g: Grid<Tile4>, walls: set<Coord>)
  {
    && g.Valid() && g.size == g0.size && g0.Valid()
    && forall c :: IsValid(c, g.size) ==> g.At(c) == g0.At(c) || (g.At(c) == Door && c in walls)
  }

  lemma DoorsInShared(g0: Grid<Tile4>, g: Grid<Tile4>, walls: set<Coord>)
    requires g0.Valid() && DoorsIn(g0, g, walls) && walls == SharedWalls(g0)
    ensures DoorsOnly(g0, g)
  {
  }

  /** The cells where a door may go. */
  ghost function SharedWalls(g: Grid<Tile4>): set<Coord>
    requires g.Valid()
  {
    set c | c in AllCoords(g.size) && SharedWall(g, c)
  }

  /** A shared wall is a cell of the grid. */
  lemma SharedWallValid(g: Grid<Tile4>, n: Coord)
    requires g.Valid() && SharedWall(g, n)
    ensures IsValid(n, g.size)
  {
    var S1, S2 :| IsComponent(OpenSet(g), CARDINAL_DELTAS, S1) && IsComponent(OpenSet(g), CARDINAL_DELTAS, S2)
      && S1 !! S2 && n in BoundaryOf(g, S1) && n in BoundaryOf(g, S2);
  }

  /** `g` is `g0` with doors in some of its shared walls. */
  ghost predicate DoorsOnly(g0: Grid<Tile4>, g: Grid<Tile4>)
    requires g0.Valid()
  {
    && g.Valid() && g.size == g0.size
    && forall c :: IsValid(c, g.size) ==> g.At(c) == g0.At(c) || (g.At(c) == Door && SharedWall(g0, c))
  }

  /** The area indices `0..n`. */
  function Indices(n: nat): (r: set<nat>)
    ensures forall i: nat :: i in r <==> i < n
  {
    if n == 0 then {} else Indices(n - 1) + {n - 1}
  }

  lemma IndicesShrink(n: nat, seen: set<nat>, i: nat)
    requires i < n && i !in seen
    ensures |Indices(n) - (seen + {i})| < |Indices(n) - seen|
  {
    assert Indices(n) - (seen + {i}) == (Indices(n) - seen) - {i};
  }

  /** What placing the doors needs of the adjacencies: neighbours are
      area indices, and every shared boundary lies in `walls`, the cells
      of a grid of size `s`. */
  ghost predicate DoorPlan(adj: Adjacencies, walls: set<Coord>, s: Size)
  {
    var n := |adj.areas|;
    && adj.sharedBoundaries == SharedBoundaries(adj.areas)
    && |adj.neighbours| == n
    && (forall i, x :: 0 <= i < n && x in adj.neighbours[i] ==> x < n)
    && (forall i, x :: 0 <= i < n && x in adj.neighbours[i] ==> SharedBoundary(adj.sharedBoundaries, i, x) != {})
    && (forall a: nat, b: nat :: a < n && b < n ==> SharedBoundary(adj.sharedBoundaries, a, b) <= walls)
    && forall c :: c in walls ==> IsValid(c, s)
  }

  lemma PlanFromAdjacencies(g: Grid<Tile4>, adj: Adjacencies, comps: seq<set<Coord>>, walls: set<Coord>)
    requires g.Valid() && AdjacenciesOf(g, adj, comps)
    requires walls == SharedWalls(g)
    ensures DoorPlan(adj, walls, g.size)
  {
    var n := |adj.areas|;
    forall a: nat, b: nat, c | a < n && b < n && c in SharedBoundary(adj.sharedBoundaries, a, b)
      ensures c in walls
    {
      SharedBoundaryIsSharedWall(g, adj, comps, a, b, c);
      SharedWallValid(g, c);
    }
  }

  /** A map with an open cell has an area. */
  lemma NonEmptyAreas(g: Grid<Tile4>, adj: Adjacencies, comps: seq<set<Coord>>)
    requires g.Valid() && AdjacenciesOf(g, adj, comps) && OpenSet(g) != {}
    ensures |adj.areas| > 0
  {
  }

  /** `Map4::generate` over one round of the earlier stages (`None` where
      that round would start over, or where no open cell is left for the
      doors to start from). */
  method Generate(rng: Rng) returns (r: Option<Map4>)
    modifies rng
    ensures r.Some? ==> fresh(r.value) && r.value.Valid() && r.value.grid.size == CityStreets.MAP1_SIZE
  {
    var m3 := CityBlocks.Generate(rng);
    if m3.None? {
      return None;
    }
    var m4 := new Map4.FromMap3(m3.value);
    m4.AddDebris(rng);
    if OpenSet(m4.grid) == {} {
      return None;
    }
    m4.AddDoors(rng);
    return Some(m4);
  }
}
