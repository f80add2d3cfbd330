/** The integer-grid half of the river world generator: checking the
    shape of a planned river, drawing and widening it on a land grid,
    counting the land regions it leaves, and placing the two river towns. */
module River {
  import opened Wrappers
  import opened Geometry
  import opened Random
  import opened Reach

  /** `WorldCell1`. */
  datatype WorldCell1 = Land | Water

  // ---------------------------------------------------------------------
  // validate_river

  /** The step the river takes from its `j`th cell to the next. */
  function StepAt(river: seq<Coord>, j: nat): Coord
    requires j + 1 < |river|
  {
    river[j + 1].Sub(river[j])
  }

  /** The `count` steps from `start` on all equal the first of them. */
  predicate SameRun(river: seq<Coord>, start: nat, count: nat)
    requires start + count < |river|
  {
    forall j :: start < j < start + count ==> StepAt(river, j) == StepAt(river, start)
  }

  /** The nine cells from `s` on make a bend: four equal steps, then four
      equal steps in a different direction. */
  predicate Bend(river: seq<Coord>, s: nat)
    requires s + 9 <= |river|
  {
    SameRun(river, s, 4) && SameRun(river, s + 4, 4) && StepAt(river, s) != StepAt(river, s + 4)
  }

  /** What `validate_river` accepts: a river with no bend anywhere. */
  predicate RiverValid(river: seq<Coord>) {
    forall s: nat :: s + 9 <= |river| ==> !Bend(river, s)
  }

  /** `validate_river`: each window of nine cells is tested in turn. */
  method ValidateRiver(river: seq<Coord>) returns (b: bool)
    ensures b <==> RiverValid(river)
  {
    var w := 0;
    while w + 9 <= |river|
      invariant forall s: nat :: s < w && s + 9 <= |river| ==> !Bend(river, s)
      decreases |river| - w
    {
      var first := SameSteps(river, w, 4);
      if first {
        var second := SameSteps(river, w + 4, 4);
        if second && river[w + 1].Sub(river[w]) != river[w + 5].Sub(river[w + 4]) {
          assert Bend(river, w);
          return false;
        }
      }
      w := w + 1;
    }
    return true;
  }

  /** One inner loop of `validate_river`: whether the `count` steps from
      `start` on equal the first, stopping at the first that does not. */
  method SameSteps(river: seq<Coord>, start: nat, count: nat) returns (b: bool)
    requires 0 < count && start + count < |river|
    ensures b <==> SameRun(river, start, count)
  {
    var delta := river[start + 1].Sub(river[start]);
    var i := 1;
    while i < count
      invariant 1 <= i
      invariant delta == StepAt(river, start)
      invariant forall j :: start < j < start + i && j < start + count ==> StepAt(river, j) == delta
    {
      if river[start + i + 1].Sub(river[start + i]) != delta {
        assert StepAt(river, start + i) != StepAt(river, start);
        return false;
      }
      i := i + 1;
    }
    return true;
  }

  /** A river of fewer than nine cells has no window to test. */
  lemma ShortRiverValid(river: seq<Coord>)
    requires |river| < 9
    ensures RiverValid(river)
  {
  }

  /** A river that goes straight, one step repeated, has no bend. */
  lemma StraightRiverValid(river: seq<Coord>, d: Coord)
    requires forall j :: 0 <= j < |river| - 1 ==> StepAt(river, j) == d
    ensures RiverValid(river)
  {
    forall s: nat | s + 9 <= |river|
      ensures !Bend(river, s)
    {
      assert StepAt(river, s) == d && StepAt(river, s + 4) == d;
    }
  }

  /** Four equal steps followed by four equal steps in another
      direction, anywhere along the river, make it refused. */
  lemma BendRefused(river: seq<Coord>, s: nat, d1: Coord, d2: Coord)
    requires s + 9 <= |river| && d1 != d2
    requires forall j :: s <= j < s + 4 ==> StepAt(river, j) == d1
    requires forall j :: s + 4 <= j < s + 8 ==> StepAt(river, j) == d2
    ensures !RiverValid(river)
  {
    assert StepAt(river, s) == d1 && StepAt(river, s + 4) == d2;
    assert Bend(river, s);
  }

  // ---------------------------------------------------------------------
  // world_grid1_from_river and world_grid1_widen_river

  /** `world_grid1_from_river`: land everywhere, then water on every
      cell of the river, each of which must lie in the grid. */
  method FromRiver(s: Size, river: seq<Coord>) returns (g: Grid<WorldCell1>)
    requires forall c :: c in river ==> IsValid(c, s)
    ensures g.Valid() && g.size == s
    ensures forall c :: IsValid(c, s) ==> (g.At(c) == Water <==> c in river)
  {
    g := Filled(s, Land);
    var i := 0;
    while i < |river|
      invariant 0 <= i <= |river|
      invariant g.Valid() && g.size == s
      invariant forall c :: IsValid(c, s) ==> (g.At(c) == Water <==> c in river[..i])
    {
      assert river[..i + 1] == river[..i] + [river[i]];
      g := g.Set(river[i], Water);
      i := i + 1;
    }
    assert river[..i] == river;
  }

  /** The cell `world_grid1_widen_river` leaves at `c`: water when one of
      the eight neighbours was water, else as it was. */
  function WidenCell(g: Grid<WorldCell1>, c: Coord): WorldCell1
    requires g.Valid()
  {
    if CountAround(g, c, {Water}, ALL_DELTAS) > 0 then Water
    else if IsValid(c, g.size) then g.At(c) else Land
  }

  function WidenRule(g: Grid<WorldCell1>): Coord -> WorldCell1
    requires g.Valid()
  {
    (c: Coord) => WidenCell(g, c)
  }

  ghost function Widened(g: Grid<WorldCell1>): (r: Grid<WorldCell1>)
    requires g.Valid()
    ensures r.Valid() && r.size == g.size
  {
    Tabulate(g.size, WidenRule(g))
  }

  /** `world_grid1_widen_river`: every cell is rewritten from the grid
      as it was before the pass. */
  method WidenRiver(g: Grid<WorldCell1>) returns (r: Grid<WorldCell1>)
    requires g.Valid()
    ensures r == Widened(g)
  {
    r := Rebuild(g, WidenRule(g));
  }

  /** Widening only adds water: water stays water, and land becomes water
      exactly when one of its eight neighbours was water. */
  lemma WidenMeaning(g: Grid<WorldCell1>, c: Coord)
    requires g.Valid() && IsValid(c, g.size)
    ensures g.At(c) == Water ==> Widened(g).At(c) == Water
    ensures g.At(c) == Land ==>
      (Widened(g).At(c) == Water <==> exists k :: 0 <= k < 8 && g.Get(c.Add(ALL_DELTAS[k])) == Some(Water))
  {
    assert Widened(g).At(c) == WidenCell(g, c);
    CountAroundPositive(g, c, {Water}, ALL_DELTAS);
    if g.At(c) == Water {
      // a water cell has water for every neighbour that is water too,
      // so it stays water whichever branch is taken
    }
  }

  // ---------------------------------------------------------------------
  // world_grid1_validate_no_loops

  /** The land cells of a world grid. */
  function LandSet(g: Grid<WorldCell1>): (r: set<Coord>)
    requires g.Valid()
    ensures forall c :: c in r <==> IsValid(c, g.size) && g.At(c) == Land
  {
    set c | c in AllCoords(g.size) && g.At(c) == Land
  }

  /** `world_grid1_validate_no_loops`: the land falls into exactly two
      regions by cardinal steps, however the regions are listed. */
  method ValidateNoLoops(g: Grid<WorldCell1>) returns (b: bool)
    requires g.Valid()
    ensures exists cs :: Partitioned(LandSet(g), CARDINAL_DELTAS, cs)
    ensures b <==> forall cs :: Partitioned(LandSet(g), CARDINAL_DELTAS, cs) ==> |cs| == 2
  {
    CardinalMovesSymmetric();
    var comps := Components(LandSet(g), CARDINAL_DELTAS, g.size);
    b := |comps| == 2;
    forall cs | Partitioned(LandSet(g), CARDINAL_DELTAS, cs)
      ensures |cs| == |comps|
    {
      PartitionCount(LandSet(g), CARDINAL_DELTAS, cs, comps);
    }
  }

  // ---------------------------------------------------------------------
  // is_point_valid_for_river_town

  /** `TOWN_SIZE`. */
  const TOWN_SIZE: Size := Size(20, 20)

  /** The top-left corner of the town square centred on `c`: the centre
      less half the town size. */
  function TownTopLeft(c: Coord): Coord {
    Coord(c.x - TOWN_SIZE.width / 2, c.y - TOWN_SIZE.height / 2)
  }

  /** `c` lies in the town square whose top-left corner is `tl`. */
  predicate InTown(tl: Coord, c: Coord) {
    IsValid(c.Sub(tl), TOWN_SIZE)
  }

  /** The `i`th cell of the border of a rectangle of size `s`, walked
      clockwise from its top-left cell: the top row rightwards, the right
      column down, the bottom row leftwards and the left column up. */
  function EdgePoint(s: Size, i: nat): (c: Coord)
    requires s.width >= 2 && s.height >= 2 && i < 2 * s.width + 2 * s.height - 4
    ensures OnEdge(c, s)
  {
    var w, h := s.width, s.height;
    if i < w then Coord(i, 0)
    else if i < w + h - 1 then Coord(w - 1, i - w + 1)
    else if i < 2 * w + h - 2 then Coord(2 * w + h - 3 - i, h - 1)
    else Coord(0, 2 * w + 2 * h - 4 - i)
  }

  /** The border walk, every border cell once. */
  function EdgeWalk(s: Size): (r: seq<Coord>)
    requires s.width >= 2 && s.height >= 2
    ensures |r| == 2 * s.width + 2 * s.height - 4
    ensures forall i :: 0 <= i < |r| ==> r[i] == EdgePoint(s, i)
  {
    seq(2 * s.width + 2 * s.height - 4, i requires 0 <= i < 2 * s.width + 2 * s.height - 4 => EdgePoint(s, i))
  }

  /** Every border cell is on the walk. */
  lemma EdgeWalkCovers(s: Size, c: Coord)
    requires s.width >= 2 && s.height >= 2 && OnEdge(c, s)
    ensures c in EdgeWalk(s)
  {
    var w, h := s.width, s.height;
    var r := EdgeWalk(s);
    if c.y == 0 {
      assert r[c.x] == c;
    } else if c.x == w - 1 {
      assert r[w + c.y - 1] == c;
    } else if c.y == h - 1 {
      assert r[2 * w + h - 3 - c.x] == c;
    } else {
      assert r[2 * w + 2 * h - 4 - c.y] == c;
    }
  }

  /** The town border walk. */
  const TOWN_EDGE: seq<Coord> := EdgeWalk(TOWN_SIZE)

  /** The cell the walk reached last, or `start` before the first. */
  function Final(cells: seq<WorldCell1>, start: WorldCell1): WorldCell1 {
    if cells == [] then start else cells[|cells| - 1]
  }

  /** Entries from land into water along `cells`, starting on `start`. */
  function LandToWater(cells: seq<WorldCell1>, start: WorldCell1): nat {
    if cells == [] then 0
    else
      var init := cells[..|cells| - 1];
      LandToWater(init, start) + if Final(init, start) == Land && cells[|cells| - 1] == Water then 1 else 0
  }

  lemma LandToWaterSnoc(cells: seq<WorldCell1>, x: WorldCell1, start: WorldCell1)
    ensures LandToWater(cells + [x], start) == LandToWater(cells, start) + if Final(cells, start) == Land && x == Water then 1 else 0
    ensures Final(cells + [x], start) == x
  {
    assert (cells + [x])[..|cells|] == cells;
  }

  /** Exits from water onto land along `cells`, starting on `start`. */
  function WaterToLand(cells: seq<WorldCell1>, start: WorldCell1): nat {
    if cells == [] then 0
    else
      var init := cells[..|cells| - 1];
      WaterToLand(init, start) + if Final(init, start) == Water && cells[|cells| - 1] == Land then 1 else 0
  }

  /** A walk from land enters the water once more than it leaves it when
      it ends in the water, and as often when it ends on land. */
  lemma {:induction false} TransitionsBalance(cells: seq<WorldCell1>)
    ensures LandToWater(cells, Land) == WaterToLand(cells, Land) + if Final(cells, Land) == Water then 1 else 0
  {
    if cells != [] {
      TransitionsBalance(cells[..|cells| - 1]);
    }
  }

  /** The town square around `c` lies in the grid. */
  predicate TownInBounds(tl: Coord, s: Size) {
    IsValid(tl, s) && IsValid(tl.Add(Coord(TOWN_SIZE.width - 1, TOWN_SIZE.height - 1)), s)
  }

  /** The grid cells along the town border walk from `tl`. */
  function EdgeCells(g: Grid<WorldCell1>, tl: Coord): (r: seq<WorldCell1>)
    requires g.Valid() && TownInBounds(tl, g.size)
    ensures |r| == |TOWN_EDGE|
  {
    seq(|TOWN_EDGE|, i requires 0 <= i < |TOWN_EDGE| => g.At(TOWN_EDGE[i].Add(tl)))
  }

  /** What `is_point_valid_for_river_town` accepts: the centre is water,
      the town square lies in the grid with land at its top-left corner,
      and the walk around its border enters the water exactly twice. */
  predicate TownPoint(g: Grid<WorldCell1>, c: Coord)
    requires g.Valid() && IsValid(c, g.size)
  {
    var tl := TownTopLeft(c);
    && g.At(c) == Water
    && TownInBounds(tl, g.size) && g.At(tl) == Land
    && LandToWater(EdgeCells(g, tl), Land) == 2
  }

  /** The whole town square around a town point lies in the grid. */
  lemma TownPointInBounds(g: Grid<WorldCell1>, c: Coord, x: Coord)
    requires g.Valid() && IsValid(c, g.size) && TownPoint(g, c) && InTown(TownTopLeft(c), x)
    ensures IsValid(x, g.size)
  {
  }

  /** `is_point_valid_for_river_town`: the border is walked from the
      top-left corner, counting entries into the water, and the answer is
      no as soon as a cell of it is off the grid. */
  method IsPointValidForRiverTown(g: Grid<WorldCell1>, c: Coord) returns (b: bool)
    requires g.Valid() && IsValid(c, g.size)
    ensures b <==> TownPoint(g, c)
  {
    if g.At(c) != Water {
      return false;
    }
    var tl := TownTopLeft(c);
    if !IsValid(tl, g.size) || g.At(tl) == Water {
      return false;
    }
    var inBounds, count := WalkTownEdge(g, tl);
    b := inBounds && count == 2;
  }

  /** Every coordinate of `walk`, shifted by `tl`, lies in the grid. */
  predicate AlongGrid(g: Grid<WorldCell1>, tl: Coord, walk: seq<Coord>) {
    forall j :: 0 <= j < |walk| ==> IsValid(walk[j].Add(tl), g.size)
  }

  /** The grid cells under `walk` shifted by `tl`. */
  function CellsAlong(g: Grid<WorldCell1>, tl: Coord, walk: seq<Coord>): (r: seq<WorldCell1>)
    requires g.Valid() && AlongGrid(g, tl, walk)
    ensures |r| == |walk|
  {
    seq(|walk|, i requires 0 <= i < |walk| => g.At(walk[i].Add(tl)))
  }

  /** The walk around the town border from `tl`: whether it stays in the
      grid, and if so how often it enters the water. */
  method WalkTownEdge(g: Grid<WorldCell1>, tl: Coord) returns (inBounds: bool, count: nat)
    requires g.Valid() && IsValid(tl, g.size)
    ensures inBounds <==> TownInBounds(tl, g.size)
    ensures inBounds ==> count == LandToWater(EdgeCells(g, tl), Land)
  {
    inBounds, count := WalkCells(g, tl, TOWN_EDGE);
    if inBounds {
      WalkReachesCorner(g, tl);
      assert CellsAlong(g, tl, TOWN_EDGE) == EdgeCells(g, tl);
    } else {
      var i :| 0 <= i < |TOWN_EDGE| && !IsValid(TOWN_EDGE[i].Add(tl), g.size);
      OffGridWalk(g, tl, i);
    }
  }

  /** The walk along `walk` shifted by `tl`, stopping as soon as it
      leaves the grid and otherwise counting entries into the water. */
  method WalkCells(g: Grid<WorldCell1>, tl: Coord, walk: seq<Coord>) returns (inBounds: bool, count: nat)
    requires g.Valid()
    ensures inBounds <==> AlongGrid(g, tl, walk)
    ensures inBounds ==> count == LandToWater(CellsAlong(g, tl, walk), Land)
  {
    var current := Land;
    count := 0;
    var i := 0;
    ghost var walked: seq<WorldCell1> := [];
    while i < |walk|
      invariant 0 <= i <= |walk|
      invariant |walked| == i
      invariant forall j :: 0 <= j < i ==> IsValid(walk[j].Add(tl), g.size) && walked[j] == g.At(walk[j].Add(tl))
      invariant count == LandToWater(walked, Land) && current == Final(walked, Land)
    {
      var e := walk[i].Add(tl);
      if !IsValid(e, g.size) {
        return false, count;
      }
      var cell := g.At(e);
      if cell != current && current == Land {
        count := count + 1;
      }
      LandToWaterSnoc(walked, cell, Land);
      walked := walked + [cell];
      current := cell;
      i := i + 1;
    }
    assert walked == CellsAlong(g, tl, walk);
    inBounds := true;
  }

  /** A walk that leaves the grid means the town square does not fit. */
  lemma OffGridWalk(g: Grid<WorldCell1>, tl: Coord, i: nat)
    requires g.Valid() && i < |TOWN_EDGE| && !IsValid(TOWN_EDGE[i].Add(tl), g.size)
    ensures !TownInBounds(tl, g.size)
  {
    assert OnEdge(EdgePoint(TOWN_SIZE, i), TOWN_SIZE);
  }

  /** A walk that stays in the grid means the square fits: it passes the
      bottom-right corner. */
  lemma WalkReachesCorner(g: Grid<WorldCell1>, tl: Coord)
    requires g.Valid() && IsValid(tl, g.size) && AlongGrid(g, tl, TOWN_EDGE)
    ensures TownInBounds(tl, g.size)
  {
    EdgeWalkCovers(TOWN_SIZE, Coord(19, 19));
    var j :| 0 <= j < |TOWN_EDGE| && TOWN_EDGE[j] == Coord(19, 19);
  }

  // ---------------------------------------------------------------------
  // get_town_candidate_positions and make_towns

  /** The river cells with index in `lo..hi` that are town points, in
      river order; indices past the river's end are skipped. */
  ghost function TownCandidates(g: Grid<WorldCell1>, river: seq<Coord>, lo: int, hi: int): (r: seq<Coord>)
    requires g.Valid() && forall c :: c in river ==> IsValid(c, g.size)
    ensures forall c :: c in r ==> c in river && TownPoint(g, c)
    decreases hi - lo
  {
    if hi <= lo then []
    else
      var init := TownCandidates(g, river, lo, hi - 1);
      var i := hi - 1;
      if 0 <= i < |river| && TownPoint(g, river[i]) then init + [river[i]] else init
  }

  /** Every town point of the river in the range is a candidate. */
  lemma {:induction false} TownCandidatesComplete(g: Grid<WorldCell1>, river: seq<Coord>, lo: int, hi: int, i: int)
    requires g.Valid() && forall c :: c in river ==> IsValid(c, g.size)
    requires lo <= i < hi && 0 <= i < |river| && TownPoint(g, river[i])
    ensures river[i] in TownCandidates(g, river, lo, hi)
    decreases hi - lo
  {
    if i < hi - 1 {
      TownCandidatesComplete(g, river, lo, hi - 1, i);
    }
  }

  /** The two index ranges searched for towns: ten either side of a
      quarter and of four fifths of the way along the river. */
  function TownRanges(n: nat): seq<(int, int)> {
    [(n / 4 - 10, n / 4 + 10), (4 * n / 5 - 10, 4 * n / 5 + 10)]
  }

  /** `get_town_candidate_positions`: for each of the two ranges, the town
      points among the river cells indexed in it. The range starts must
      not fall below zero, where the unsigned subtraction would fail. */
  method GetTownCandidatePositions(g: Grid<WorldCell1>, river: seq<Coord>) returns (r: seq<seq<Coord>>)
    requires g.Valid() && forall c :: c in river ==> IsValid(c, g.size)
    requires |river| / 4 >= 10
    ensures |r| == 2
    ensures forall k :: 0 <= k < 2 ==> r[k] == TownCandidates(g, river, TownRanges(|river|)[k].0, TownRanges(|river|)[k].1)
  {
    var ranges := TownRanges(|river|);
    r := [];
    var k := 0;
    while k < 2
      invariant 0 <= k <= 2 && |r| == k
      invariant forall j :: 0 <= j < k ==> r[j] == TownCandidates(g, river, ranges[j].0, ranges[j].1)
    {
      var candidates := CandidatesIn(g, river, ranges[k].0, ranges[k].1);
      r := r + [candidates];
      k := k + 1;
    }
  }

  /** The search of one range. */
  method CandidatesIn(g: Grid<WorldCell1>, river: seq<Coord>, lo: int, hi: int) returns (candidates: seq<Coord>)
    requires g.Valid() && forall c :: c in river ==> IsValid(c, g.size)
    requires lo <= hi
    ensures candidates == TownCandidates(g, river, lo, hi)
  {
    candidates := [];
    var i := lo;
    while i < hi
      invariant lo <= i <= hi
      invariant candidates == TownCandidates(g, river, lo, i)
    {
      if 0 <= i < |river| {
        var ok := IsPointValidForRiverTown(g, river[i]);
        if ok {
          candidates := candidates + [river[i]];
        }
      }
      i := i + 1;
    }
  }

  /** The cell `make_towns` leaves at `c`: water inside any of the town
      squares centred on `centres`, else as it was. */
  ghost predicate InSomeTown(centres: seq<Coord>, c: Coord) {
    exists k :: 0 <= k < |centres| && InTown(TownTopLeft(centres[k]), c)
  }

  lemma InSomeTownSnoc(centres: seq<Coord>, centre: Coord, c: Coord)
    ensures InSomeTown(centres + [centre], c) <==> InSomeTown(centres, c) || InTown(TownTopLeft(centre), c)
  {
    var cs := centres + [centre];
    if InTown(TownTopLeft(centre), c) {
      assert cs[|centres|] == centre;
    } else if InSomeTown(cs, c) {
      var j :| 0 <= j < |cs| && InTown(TownTopLeft(cs[j]), c);
      assert cs[j] == centres[j];
    } else {
      forall j | 0 <= j < |centres|
        ensures !InTown(TownTopLeft(centres[j]), c)
      {
        assert cs[j] == centres[j];
      }
    }
  }

  /** `make_towns`: from each candidate list a drawn centre, whose whole
      town square becomes water. Every list must be non-empty and every
      square must lie in the grid. The centres drawn are returned beside
      the grid. */
  method MakeTowns(g: Grid<WorldCell1>, candidates: seq<seq<Coord>>, rng: Rng)
      returns (out: Grid<WorldCell1>, ghost centres: seq<Coord>)
    requires g.Valid()
    requires forall k :: 0 <= k < |candidates| ==> candidates[k] != []
    requires forall k, c :: 0 <= k < |candidates| && c in candidates[k] ==> TownInBounds(TownTopLeft(c), g.size)
    modifies rng
    ensures out.Valid() && out.size == g.size
    ensures |centres| == |candidates| && forall k :: 0 <= k < |candidates| ==> centres[k] in candidates[k]
    ensures forall c :: IsValid(c, g.size) ==> out.At(c) == if InSomeTown(centres, c) then Water else g.At(c)
  {
    out := g;
    centres := [];
    var k := 0;
    while k < |candidates|
      invariant 0 <= k <= |candidates|
      invariant |centres| == k && forall j :: 0 <= j < k ==> centres[j] in candidates[j]
      invariant TownsStamped(g, centres, out)
    {
      var choice := rng.Choose(candidates[k]);
      var centre := choice.value;
      ghost var before := out;
      out := StampTown(out, TownTopLeft(centre));
      TownsStampedSnoc(g, centres, centre, before, out);
      centres := centres + [centre];
      k := k + 1;
    }
  }

  /** `out` is `g` with the squares of the towns at `centres` flooded. */
  ghost predicate TownsStamped(g: Grid<WorldCell1>, centres: seq<Coord>, out: Grid<WorldCell1>) {
    && g.Valid() && out.Valid() && out.size == g.size
    && forall c :: IsValid(c, g.size) ==> out.At(c) == if InSomeTown(centres, c) then Water else g.At(c)
  }

  /** Flooding one more town's square adds that town to the stamped ones. */
  lemma TownsStampedSnoc(g: Grid<WorldCell1>, centres: seq<Coord>, centre: Coord, before: Grid<WorldCell1>, out: Grid<WorldCell1>)
    requires TownsStamped(g, centres, before)
    requires out.Valid() && out.size == g.size
    requires forall c :: IsValid(c, g.size) ==> out.At(c) == if InTown(TownTopLeft(centre), c) then Water else before.At(c)
    ensures TownsStamped(g, centres + [centre], out)
  {
    forall c | IsValid(c, g.size)
      ensures out.At(c) == if InSomeTown(centres + [centre], c) then Water else g.At(c)
    {
      InSomeTownSnoc(centres, centre, c);
    }
  }

  /** One town: every cell of the square from `tl` becomes water. */
  method StampTown(g: Grid<WorldCell1>, tl: Coord) returns (r: Grid<WorldCell1>)
    requires g.Valid() && TownInBounds(tl, g.size)
    ensures r.Valid() && r.size == g.size
    ensures forall c :: IsValid(c, g.size) ==> r.At(c) == if InTown(tl, c) then Water else g.At(c)
  {
    r := g;
    var y := 0;
    while y < TOWN_SIZE.height
      invariant 0 <= y <= TOWN_SIZE.height
      invariant r.Valid() && r.size == g.size
      invariant forall c :: IsValid(c, g.size) ==> r.At(c) == if InTown(tl, c) && c.y < tl.y + y then Water else g.At(c)
    {
      var x := 0;
      while x < TOWN_SIZE.width
        invariant 0 <= x <= TOWN_SIZE.width
        invariant r.Valid() && r.size == g.size
        invariant forall c :: IsValid(c, g.size) ==>
          r.At(c) == if InTown(tl, c) && Before(c.Sub(tl), Coord(x, y)) then Water else g.At(c)
      {
        r := r.Set(Coord(x, y).Add(tl), Water);
        x := x + 1;
      }
      y := y + 1;
    }
  }
}
