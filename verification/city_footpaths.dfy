/** The second stage of city generation (`Map2`): the street map gains
    footpaths along every street. */
module CityFootpaths {
  import opened Wrappers
  import opened Geometry
  import opened Random
  import CityStreets

  datatype Tile2 = Wall | Street | Alley | Footpath

  /** The tile `from_map1` gives a cell of the street map. */
  function FromTile1(t: CityStreets.Tile1): (r: Tile2)
    ensures r != Footpath && ToTile1(r) == t
  {
    match t
    case Wall => Wall
    case Ground(kind) => if kind.Alley? then Alley else Street
  }

  /** The street-map tile a tile other than footpath stands for. */
  function ToTile1(t: Tile2): CityStreets.Tile1
    requires t != Footpath
  {
    match t
    case Wall => CityStreets.Wall
    case Alley => CityStreets.Ground(CityStreets.Alley)
    case Street => CityStreets.Ground(CityStreets.Street)
  }

  /** `from_map1`: the street map, cell for cell, with no footpath yet. */
  function FromGrid1(g: Grid<CityStreets.Tile1>): (r: Grid<Tile2>)
    requires g.Valid()
    ensures r.Valid() && r.size == g.size
    ensures forall c :: IsValid(c, g.size) ==> r.At(c) != Footpath && ToTile1(r.At(c)) == g.At(c)
  {
    MapGrid(g, FromTile1)
  }

  /** The first pass of `add_footpath` at one cell: a wall next to a
      street, diagonals included, becomes footpath. */
  function PavedCell(g: Grid<Tile2>, c: Coord): Tile2
    requires g.Valid()
  {
    var t := g.GetOr(c, Wall);
    if t == Wall && CountAround(g, c, {Street}, ALL_DELTAS) > 0 then Footpath else t
  }

  function PaveRule(g: Grid<Tile2>): Coord -> Tile2
    requires g.Valid()
  {
    (c: Coord) => PavedCell(g, c)
  }

  /** A footpath with four footpath, three street or alley, and one wall
      neighbour: the inside of a footpath corner that leaves a notch. */
  predicate IsNotchedCorner(g: Grid<Tile2>, c: Coord)
    requires g.Valid()
  {
    && g.Get(c) == Some(Footpath)
    && CountAround(g, c, {Footpath}, ALL_DELTAS) == 4
    && CountAround(g, c, {Street, Alley}, ALL_DELTAS) == 3
    && CountAround(g, c, {Wall}, ALL_DELTAS) == 1
  }

  /** How many of the steps `ds` from `c` land on a notched corner. */
  function CornersAround(g: Grid<Tile2>, c: Coord, ds: seq<Coord>): (n: nat)
    requires g.Valid()
    ensures n > 0 <==> exists k :: 0 <= k < |ds| && IsNotchedCorner(g, c.Add(ds[k]))
  {
    if ds == [] then 0
    else
      var rest := CornersAround(g, c, ds[1..]);
      assert forall k :: 0 < k < |ds| ==> ds[k] == ds[1..][k - 1];
      (if IsNotchedCorner(g, c.Add(ds[0])) then 1 else 0) + rest
  }

  /** The second pass of `add_footpath` at one cell: a wall next to a
      notched corner becomes footpath. */
  function FilledCell(g: Grid<Tile2>, c: Coord): Tile2
    requires g.Valid()
  {
    var t := g.GetOr(c, Wall);
    if t == Wall && CornersAround(g, c, ALL_DELTAS) > 0 then Footpath else t
  }

  function FillRule(g: Grid<Tile2>): Coord -> Tile2
    requires g.Valid()
  {
    (c: Coord) => FilledCell(g, c)
  }

  ghost function Paved(g: Grid<Tile2>): (r: Grid<Tile2>)
    requires g.Valid()
    ensures r.Valid() && r.size == g.size
  {
    Tabulate(g.size, PaveRule(g))
  }

  /** `add_footpath`: both passes. */
  ghost function WithFootpath(g: Grid<Tile2>): (r: Grid<Tile2>)
    requires g.Valid()
    ensures r.Valid() && r.size == g.size
  {
    var g1 := Paved(g);
    Tabulate(g1.size, FillRule(g1))
  }

  /** `add_footpath` only turns walls into footpath. */
  lemma FootpathOnlyReplacesWalls(g: Grid<Tile2>, c: Coord)
    requires g.Valid() && IsValid(c, g.size)
    ensures WithFootpath(g).At(c) == g.At(c) || (g.At(c) == Wall && WithFootpath(g).At(c) == Footpath)
  {
    var g1 := Paved(g);
    assert g1.At(c) == PavedCell(g, c);
    assert WithFootpath(g).At(c) == FilledCell(g1, c);
  }

  /** After `add_footpath`, no wall touches a street, not even diagonally. */
  lemma StreetsAreLined(g: Grid<Tile2>, s: Coord, d: Coord)
    requires g.Valid() && IsValid(s, g.size) && WithFootpath(g).At(s) == Street
    requires d in ALL_DELTAS && IsValid(s.Add(d), g.size)
    ensures WithFootpath(g).At(s.Add(d)) != Wall
  {
    var n := s.Add(d);
    var g1 := Paved(g);
    FootpathOnlyReplacesWalls(g, s);
    assert g.At(s) == Street;
    assert g1.At(n) == PavedCell(g, n);
    if g.At(n) == Wall {
      AllDeltasSymmetric(d);
      var k :| 0 <= k < |ALL_DELTAS| && ALL_DELTAS[k] == Coord(-d.x, -d.y);
      assert n.Add(ALL_DELTAS[k]) == s;
      assert HoldsAt(g, n.Add(ALL_DELTAS[k]), {Street});
      CountAroundPositive(g, n, {Street}, ALL_DELTAS);
    }
    assert g1.At(n) != Wall;
    assert WithFootpath(g).At(n) == FilledCell(g1, n);
  }

  /** The second city map. */
  class Map2 {
    var grid: Grid<Tile2>

    predicate Valid()
      reads this
    {
      grid.Valid()
    }

    /** `Map2::from_map1`. */
    constructor FromMap1(m1: CityStreets.Map1)
      requires m1.Valid()
      ensures Valid() && grid == FromGrid1(m1.grid)
    {
      grid := FromGrid1(m1.grid);
    }

    /** `add_footpath`: each pass reads the grid before it and writes a copy. */
    method AddFootpath()
      requires Valid()
      modifies this
      ensures Valid() && grid == WithFootpath(old(grid))
    {
      var grid1 := Rebuild(grid, PaveRule(grid));
      var grid2 := Rebuild(grid1, FillRule(grid1));
      grid := grid2;
    }
  }

  /** `Map2::generate` over one round of the street map's generation
      (`None` where that round would start over). */
  method Generate(rng: Rng) returns (r: Option<Map2>)
    modifies rng
    ensures r.Some? ==> fresh(r.value) && r.value.Valid() && r.value.grid.size == CityStreets.MAP1_SIZE
  {
    var m1 := CityStreets.GenerateAttempt(rng);
    if m1.None? {
      return None;
    }
    var m2 := new Map2.FromMap1(m1.value);
    m2.AddFootpath();
    return Some(m2);
  }
}
