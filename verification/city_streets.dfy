/** The first stage of city generation (`Map1`): street builders walk in
    from the edges, long runs of wall are split by new streets or alleys,
    stubs ending in an L-shaped corner are trimmed and the streets are
    widened. */
module CityStreets {
  import opened Wrappers
  import opened Geometry
  import opened Random

  datatype Ground1 = Street | Alley

  datatype Tile1 = Ground(ground: Ground1) | Wall

  /** A builder paves its cell and walks on in its direction. */
  datatype StreetBuilder = StreetBuilder(coord: Coord, direction: CardinalDirection)

  /** `Rect`: the cells from `coord`, `size` wide and high. */
  datatype Rect = Rect(coord: Coord, size: Size) {
    predicate Contains(c: Coord) {
      coord.x <= c.x < coord.x + size.width && coord.y <= c.y < coord.y + size.height
    }

    /** `bottom_right`: the last cell of a non-empty rectangle, beyond
        which none of its cells lies. */
    function BottomRight(): (r: Coord)
      ensures size.width > 0 && size.height > 0 ==> Contains(r)
      ensures forall c :: Contains(c) ==> c.x <= r.x && c.y <= r.y
    {
      Coord(coord.x + size.width - 1, coord.y + size.height - 1)
    }
  }

  /** `Map1::new` makes a grid of this size. */
  const MAP1_SIZE: Size := Size(50, 25)

  predicate Vertical(d: CardinalDirection) {
    d == North || d == South
  }

  /** Two parallel builders too close together: north-south builders
      less than 20 columns apart, or east-west builders less than 15
      rows apart. */
  predicate TooClose(a: StreetBuilder, b: StreetBuilder) {
    || (Vertical(a.direction) && Vertical(b.direction) && Abs(b.coord.x - a.coord.x) < 20)
    || (!Vertical(a.direction) && !Vertical(b.direction) && Abs(b.coord.y - a.coord.y) < 15)
  }

  ghost predicate TooCloseToAny(b: StreetBuilder, bs: seq<StreetBuilder>) {
    exists e :: e in bs && TooClose(b, e)
  }

  /** Keeping a builder that is not too close to any kept one keeps the
      builders spaced, keeps the earlier ones, and keeps every candidate
      already considered either kept or too close to a kept one. */
  lemma AppendBuilder(bs: seq<StreetBuilder>, b: StreetBuilder, n: nat, considered: seq<StreetBuilder>)
    requires !TooCloseToAny(b, bs) && n <= |bs|
    requires forall k :: 0 <= k < |considered| ==> considered[k] in bs || TooCloseToAny(considered[k], bs)
    ensures Spaced(bs) ==> Spaced(bs + [b])
    ensures (bs + [b])[..n] == bs[..n] && (bs + [b])[n..] == bs[n..] + [b]
    ensures forall k :: 0 <= k < |considered| ==> considered[k] in bs + [b] || TooCloseToAny(considered[k], bs + [b])
  {
    var bs' := bs + [b];
    forall k | 0 <= k < |considered| && TooCloseToAny(considered[k], bs)
      ensures TooCloseToAny(considered[k], bs')
    {
      var e :| e in bs && TooClose(considered[k], e);
      assert e in bs';
    }
    if Spaced(bs) {
      forall i, j | 0 <= i < |bs'| && 0 <= j < |bs'| && i != j
        ensures !TooClose(bs'[i], bs'[j])
      {
        if i == |bs| {
          assert bs'[j] in bs;
        } else if j == |bs| {
          assert bs'[i] in bs;
        }
      }
    }
  }

  /** No two builders of the sequence are too close. */
  predicate Spaced(bs: seq<StreetBuilder>) {
    forall i, j :: 0 <= i < |bs| && 0 <= j < |bs| && i != j ==> !TooClose(bs[i], bs[j])
  }

  /** The builder `add_street_builders` proposes at an edge cell: none
      within 12 columns or 9 rows of a corner, otherwise one facing away
      from its edge. */
  function CandidateAt(c: Coord, s: Size): (r: Option<StreetBuilder>)
    requires OnEdge(c, s)
  {
    var top := c.y == 0;
    var bottom := c.y == s.height - 1;
    var left := c.x == 0;
    var right := c.x == s.width - 1;
    if (top || bottom) && (c.x < 12 || c.x > s.width - 13) then None
    else if (left || right) && (c.y < 9 || c.y > s.height - 10) then None
    else if top then Some(StreetBuilder(c, South))
    else if bottom then Some(StreetBuilder(c, North))
    else if left then Some(StreetBuilder(c, East))
    else Some(StreetBuilder(c, West))
  }

  predicate IsCandidate(b: StreetBuilder, s: Size) {
    OnEdge(b.coord, s) && CandidateAt(b.coord, s) == Some(b)
  }

  /** Every proposed builder stands away from the corners, and its first
      step leads into the grid. */
  lemma CandidateFacesInward(b: StreetBuilder, s: Size)
    requires IsCandidate(b, s) && s.width >= 2 && s.height >= 2
    ensures IsValid(b.coord.Add(CardinalDelta(b.direction)), s)
    ensures 12 <= b.coord.x <= s.width - 13 || 9 <= b.coord.y <= s.height - 10
  {
  }

  /** The builder one step on. */
  function Advance(b: StreetBuilder): StreetBuilder {
    StreetBuilder(b.coord.Add(CardinalDelta(b.direction)), b.direction)
  }

  /** The steps a builder has left before it walks off the grid. */
  function Fuel(b: StreetBuilder, s: Size): (n: nat)
    ensures n == 0 <==> !IsValid(b.coord, s)
  {
    if !IsValid(b.coord, s) then 0
    else match b.direction
      case North => b.coord.y + 1
      case South => s.height - b.coord.y
      case West => b.coord.x + 1
      case East => s.width - b.coord.x
  }

  lemma FuelStep(b: StreetBuilder, s: Size)
    requires IsValid(b.coord, s)
    ensures Fuel(Advance(b), s) == Fuel(b, s) - 1
  {
  }

  /** Ticks left before every builder is gone: each builder walks off the
      grid and is then removed. */
  function Work(bs: seq<StreetBuilder>, s: Size): nat {
    if bs == [] then 0 else Fuel(bs[0], s) + 1 + Work(bs[1..], s)
  }

  lemma {:induction false} WorkAppend(a: seq<StreetBuilder>, b: seq<StreetBuilder>, s: Size)
    ensures Work(a + b, s) == Work(a, s) + Work(b, s)
  {
    if a == [] {
      assert a + b == b;
    } else {
      assert (a + b)[0] == a[0] && (a + b)[1..] == a[1..] + b;
      WorkAppend(a[1..], b, s);
    }
  }

  /** `Vec::swap_remove`: the last element takes the place of the removed one. */
  lemma SwapRemoveWork(bs: seq<StreetBuilder>, i: nat, s: Size)
    requires i < |bs|
    ensures Work(SwapRemove(bs, i), s) == Work(bs, s) - Fuel(bs[i], s) - 1
  {
    var n := |bs|;
    if i == n - 1 {
      assert bs == SwapRemove(bs, i) + [bs[i]];
      WorkAppend(SwapRemove(bs, i), [bs[i]], s);
    } else {
      var front, middle, x, z := bs[..i], bs[i + 1..n - 1], [bs[i]], [bs[n - 1]];
      assert bs == front + x + middle + z;
      assert SwapRemove(bs, i) == front + z + middle;
      WorkAppend(front + x + middle, z, s);
      WorkAppend(front + x, middle, s);
      WorkAppend(front, x, s);
      WorkAppend(front + z, middle, s);
      WorkAppend(front, z, s);
      assert Work(x, s) == Fuel(bs[i], s) + 1 + Work([], s);
    }
  }

  lemma {:induction false} ReplaceWork(bs: seq<StreetBuilder>, i: nat, b: StreetBuilder, s: Size)
    requires i < |bs|
    ensures Work(bs[i := b], s) == Work(bs, s) - Fuel(bs[i], s) + Fuel(b, s)
  {
    assert bs == bs[..i] + [bs[i]] + bs[i + 1..];
    assert bs[i := b] == bs[..i] + [b] + bs[i + 1..];
    WorkAppend(bs[..i] + [bs[i]], bs[i + 1..], s);
    WorkAppend(bs[..i], [bs[i]], s);
    WorkAppend(bs[..i] + [b], bs[i + 1..], s);
    WorkAppend(bs[..i], [b], s);
  }

  /** `build_streets_tick` once builder `i` is drawn: a builder off the
      grid is removed; one standing on ground is removed when `coin`
      (the `< 0.5` draw) comes up; otherwise it paves its cell as street
      and steps on. */
  function Tick(g: Grid<Tile1>, bs: seq<StreetBuilder>, i: nat, coin: bool): (r: (Grid<Tile1>, seq<StreetBuilder>))
    requires g.Valid() && i < |bs|
    ensures r.0.Valid() && r.0.size == g.size
    ensures |r.1| == |bs| || |r.1| == |bs| - 1
  {
    var b := bs[i];
    if !IsValid(b.coord, g.size) then (g, SwapRemove(bs, i))
    else if g.At(b.coord).Ground? && coin then (g, SwapRemove(bs, i))
    else (g.Set(b.coord, Ground(Street)), bs[i := Advance(b)])
  }

  /** Every tick brings the builders closer to being gone, so
      `build_streets` ends. */
  lemma TickShrinksWork(g: Grid<Tile1>, bs: seq<StreetBuilder>, i: nat, coin: bool)
    requires g.Valid() && i < |bs|
    ensures Work(Tick(g, bs, i, coin).1, g.size) < Work(bs, g.size)
  {
    var b := bs[i];
    if !IsValid(b.coord, g.size) || (g.At(b.coord).Ground? && coin) {
      SwapRemoveWork(bs, i, g.size);
    } else {
      FuelStep(b, g.size);
      ReplaceWork(bs, i, Advance(b), g.size);
    }
  }

  /** A tick keeps the grid's size and only ever paves: every cell is
      unchanged or now street. */
  lemma TickOnlyPaves(g: Grid<Tile1>, bs: seq<StreetBuilder>, i: nat, coin: bool)
    requires g.Valid() && i < |bs|
    ensures OnlyPaved(g, Tick(g, bs, i, coin).0)
  {
  }

  /** The cell `k` steps from `c`, to the right when `horizontal`, else
      downwards. */
  function Offset(c: Coord, k: int, horizontal: bool): Coord {
    if horizontal then Coord(c.x + k, c.y) else Coord(c.x, c.y + k)
  }

  predicate IsAlley(g: Grid<Tile1>, c: Coord)
    requires g.Valid()
  {
    g.Get(c) == Some(Ground(Alley))
  }

  predicate IsStreet(g: Grid<Tile1>, c: Coord)
    requires g.Valid()
  {
    g.Get(c) == Some(Ground(Street))
  }

  predicate IsGround(g: Grid<Tile1>, c: Coord)
    requires g.Valid()
  {
    g.Get(c).Some? && g.Get(c).value.Ground?
  }

  /** `direction.left45()` and `direction.right45()` as steps. */
  function Left45(d: CardinalDirection): Coord {
    match d
    case North => Coord(-1, -1)
    case East => Coord(1, -1)
    case South => Coord(1, 1)
    case West => Coord(-1, 1)
  }

  function Right45(d: CardinalDirection): Coord {
    match d
    case North => Coord(1, -1)
    case East => Coord(1, 1)
    case South => Coord(-1, 1)
    case West => Coord(-1, -1)
  }

  /** The direction a trim walk from an edge cell takes: away from the
      left, top, right or bottom edge, tested in that order. */
  function TrimDirection(start: Coord, s: Size): CardinalDirection
    requires OnEdge(start, s)
  {
    if start.x == 0 then East
    else if start.y == 0 then South
    else if start.x == s.width - 1 then West
    else North
  }

  function Count(b: bool): nat {
    if b then 1 else 0
  }

  /** Streets diagonally ahead of `c`, on the left and on the right. */
  function SideStreets(g: Grid<Tile1>, c: Coord, d: CardinalDirection): nat
    requires g.Valid()
  {
    Count(IsStreet(g, c.Add(Left45(d)))) + Count(IsStreet(g, c.Add(Right45(d))))
  }

  predicate NoAlleyAround(g: Grid<Tile1>, c: Coord, d: CardinalDirection)
    requires g.Valid()
  {
    !IsAlley(g, c) && !IsAlley(g, c.Add(Left45(d))) && !IsAlley(g, c.Add(Right45(d)))
  }

  /** `check_trim_candidate` from `c` onwards: the run of cells up to the
      first with exactly one diagonal street ahead, or `None` when the
      run meets an alley, two diagonal streets or the far edge. */
  function TrimWalk(g: Grid<Tile1>, c: Coord, d: CardinalDirection): (r: Option<seq<Coord>>)
    requires g.Valid()
    ensures r.Some? ==> |r.value| > 0 && r.value[0] == c && forall x :: x in r.value ==> IsValid(x, g.size)
    decreases Fuel(StreetBuilder(c, d), g.size)
  {
    if !IsValid(c, g.size) then None
    else if !NoAlleyAround(g, c, d) then None
    else if SideStreets(g, c, d) == 1 then Some([c])
    else if SideStreets(g, c, d) == 2 then None
    else Prepend([c], TrimWalk(g, c.Add(CardinalDelta(d)), d))
  }

  function Prepend(p: seq<Coord>, r: Option<seq<Coord>>): Option<seq<Coord>> {
    match r
    case None => None
    case Some(q) => Some(p + q)
  }

  lemma PrependTwice(a: seq<Coord>, b: seq<Coord>, r: Option<seq<Coord>>)
    ensures Prepend(a, Prepend(b, r)) == Prepend(a + b, r)
  {
    if r.Some? {
      assert a + (b + r.value) == (a + b) + r.value;
    }
  }

  /** One step of a trim walk from a cell inside the grid. */
  lemma TrimWalkUnfold(g: Grid<Tile1>, c: Coord, d: CardinalDirection)
    requires g.Valid() && IsValid(c, g.size) && NoAlleyAround(g, c, d)
    ensures TrimWalk(g, c, d) ==
      if SideStreets(g, c, d) == 1 then Some([c])
      else if SideStreets(g, c, d) == 2 then None
      else Prepend([c], TrimWalk(g, c.Add(CardinalDelta(d)), d))
  {
  }

  /** A straight run of cells in direction `d`, none with an alley on or
      diagonally ahead of it, where only the last has a street diagonally
      ahead, and on exactly one side. */
  predicate IsTrimRun(g: Grid<Tile1>, p: seq<Coord>, d: CardinalDirection)
    requires g.Valid()
  {
    && |p| >= 1
    && (forall k :: 0 <= k < |p| ==> IsValid(p[k], g.size) && NoAlleyAround(g, p[k], d))
    && (forall k :: 0 <= k < |p| - 1 ==> p[k + 1] == p[k].Add(CardinalDelta(d)) && SideStreets(g, p[k], d) == 0)
    && SideStreets(g, p[|p| - 1], d) == 1
  }

  /** What a trim walk finds is a trim run from its start. */
  lemma {:induction false} TrimWalkSound(g: Grid<Tile1>, c: Coord, d: CardinalDirection)
    requires g.Valid()
    ensures TrimWalk(g, c, d).Some? ==>
      IsTrimRun(g, TrimWalk(g, c, d).value, d) && TrimWalk(g, c, d).value[0] == c
    decreases Fuel(StreetBuilder(c, d), g.size)
  {
    if IsValid(c, g.size) && NoAlleyAround(g, c, d) && SideStreets(g, c, d) == 0 {
      var next := c.Add(CardinalDelta(d));
      TrimWalkSound(g, next, d);
      if TrimWalk(g, next, d).Some? {
        TrimRunCons(g, c, TrimWalk(g, next, d).value, d);
      }
    }
  }

  /** A cell with no alley around it and no street diagonally ahead,
      put before a trim run that starts one step ahead, makes a trim run. */
  lemma TrimRunCons(g: Grid<Tile1>, c: Coord, q: seq<Coord>, d: CardinalDirection)
    requires g.Valid() && IsTrimRun(g, q, d) && q[0] == c.Add(CardinalDelta(d))
    requires IsValid(c, g.size) && NoAlleyAround(g, c, d) && SideStreets(g, c, d) == 0
    ensures IsTrimRun(g, [c] + q, d)
  {
    var p := [c] + q;
    forall k | 0 <= k < |p| - 1
      ensures p[k + 1] == p[k].Add(CardinalDelta(d)) && SideStreets(g, p[k], d) == 0
    {
      if k > 0 {
        assert p[k] == q[k - 1] && p[k + 1] == q[k];
      }
    }
  }

  /** Every trim run is what the trim walk from its start finds. */
  lemma {:induction false} TrimWalkComplete(g: Grid<Tile1>, p: seq<Coord>, d: CardinalDirection)
    requires g.Valid() && IsTrimRun(g, p, d)
    ensures TrimWalk(g, p[0], d) == Some(p)
    decreases |p|
  {
    if |p| == 1 {
      assert p == [p[0]];
    } else {
      TrimRunTail(g, p, d);
      TrimWalkComplete(g, p[1..], d);
    }
  }

  /** A trim run of two or more cells is its first cell, with no street
      diagonally ahead, before a trim run one step ahead. */
  lemma TrimRunTail(g: Grid<Tile1>, p: seq<Coord>, d: CardinalDirection)
    requires g.Valid() && IsTrimRun(g, p, d) && |p| > 1
    ensures IsTrimRun(g, p[1..], d) && p[1..][0] == p[0].Add(CardinalDelta(d))
    ensures SideStreets(g, p[0], d) == 0 && p == [p[0]] + p[1..]
  {
    var q := p[1..];
    forall k | 0 <= k < |q| - 1
      ensures q[k + 1] == q[k].Add(CardinalDelta(d)) && SideStreets(g, q[k], d) == 0
    {
      assert q[k] == p[k + 1] && q[k + 1] == p[k + 2];
    }
  }

  /** The run `trim_streets` may remove from edge cell `s`: edge ground
      cells are checked, every other cell proposes nothing. */
  function TrimCandidate(g: Grid<Tile1>, s: Coord): Option<seq<Coord>>
    requires g.Valid()
  {
    if OnEdge(s, g.size) && g.At(s).Ground? then TrimWalk(g, s, TrimDirection(s, g.size)) else None
  }

  ghost predicate IsTrimCandidate(g: Grid<Tile1>, p: seq<Coord>)
    requires g.Valid()
  {
    exists s :: TrimCandidate(g, s) == Some(p)
  }

  /** `c` lies on a run some edge cell proposes for trimming. */
  ghost predicate OnTrimRun(g: Grid<Tile1>, c: Coord)
    requires g.Valid()
  {
    exists s :: TrimCandidate(g, s).Some? && c in TrimCandidate(g, s).value
  }

  /** The number of cardinal neighbours of `c` that are ground. */
  function GroundNeighbours(g: Grid<Tile1>, c: Coord): nat
    requires g.Valid()
  {
    Count(IsGround(g, c.Add(CARDINAL_DELTAS[0]))) + Count(IsGround(g, c.Add(CARDINAL_DELTAS[1])))
    + Count(IsGround(g, c.Add(CARDINAL_DELTAS[2]))) + Count(IsGround(g, c.Add(CARDINAL_DELTAS[3])))
  }

  /** A row scanned without finding a junction moves the bound on the
      rows that may hold one. */
  lemma NextRowClear(g: Grid<Tile1>, y: int)
    requires g.Valid()
    requires forall c :: IsJunction(g, c) ==> c.y >= y
    requires forall i :: 0 <= i < g.size.width ==> !IsJunction(g, Coord(i, y))
    ensures forall c :: IsJunction(g, c) ==> c.y >= y + 1
  {
  }

  /** A ground cell where three ground cells meet. */
  predicate IsJunction(g: Grid<Tile1>, c: Coord)
    requires g.Valid()
  {
    IsValid(c, g.size) && g.At(c).Ground? && GroundNeighbours(g, c) == 3
  }

  /** The number of cardinal neighbours of `c` that are not wall; a
      neighbour off the grid is not wall. */
  function OpenNeighbours(g: Grid<Tile1>, c: Coord): nat
    requires g.Valid()
  {
    Count(g.Get(c.Add(CARDINAL_DELTAS[0])) != Some(Wall)) + Count(g.Get(c.Add(CARDINAL_DELTAS[1])) != Some(Wall))
    + Count(g.Get(c.Add(CARDINAL_DELTAS[2])) != Some(Wall)) + Count(g.Get(c.Add(CARDINAL_DELTAS[3])) != Some(Wall))
  }

  /** The cell at `c`, or wall off the grid. */
  function TileAt(g: Grid<Tile1>, c: Coord): Tile1
    requires g.Valid()
  {
    if IsValid(c, g.size) then g.At(c) else Wall
  }

  /** A pass of `widen_streets` that paves the cell `d` past every street. */
  ghost function Extended(g: Grid<Tile1>, d: Coord): (r: Grid<Tile1>)
    requires g.Valid()
  {
    Tabulate(g.size, (c: Coord) => ExtendedCell(g, d, c))
  }

  /** A paving pass paves the cell `d` past every street and changes
      nothing else: a changed cell is now street. */
  lemma ExtendedMeaning(g: Grid<Tile1>, d: Coord, c: Coord)
    requires g.Valid() && IsValid(c, g.size)
    ensures Extended(g, d).Valid() && Extended(g, d).size == g.size
    ensures IsStreet(g, c.Sub(d)) ==> Extended(g, d).At(c) == Ground(Street)
    ensures Extended(g, d).At(c) != g.At(c) ==> Extended(g, d).At(c) == Ground(Street)
  {
    assert Extended(g, d).At(c) == ExtendedCell(g, d, c);
  }

  /** A cell after a paving pass: street when the cell `d` before it is. */
  function ExtendedCell(g: Grid<Tile1>, d: Coord, c: Coord): Tile1
    requires g.Valid()
  {
    if IsStreet(g, c.Sub(d)) then Ground(Street) else TileAt(g, c)
  }

  /** The rule of a thinning pass of `widen_streets`: a street with at
      most `limit` open neighbours becomes wall. */
  function ThinRule(g: Grid<Tile1>, limit: nat): Coord -> Tile1
    requires g.Valid()
  {
    (c: Coord) => ThinnedCell(g, limit, c)
  }

  function ThinnedCell(g: Grid<Tile1>, limit: nat, c: Coord): Tile1
    requires g.Valid()
  {
    if IsStreet(g, c) && OpenNeighbours(g, c) <= limit then Wall else TileAt(g, c)
  }

  ghost function Thinned(g: Grid<Tile1>, limit: nat): (r: Grid<Tile1>)
    requires g.Valid()
  {
    Tabulate(g.size, ThinRule(g, limit))
  }

  /** A thinning pass walls up exactly the streets with at most `limit`
      open neighbours and changes nothing else. */
  lemma ThinnedMeaning(g: Grid<Tile1>, limit: nat, c: Coord)
    requires g.Valid() && IsValid(c, g.size)
    ensures Thinned(g, limit).Valid() && Thinned(g, limit).size == g.size
    ensures Thinned(g, limit).At(c) != g.At(c) ==> IsStreet(g, c) && Thinned(g, limit).At(c) == Wall
    ensures IsStreet(g, c) && OpenNeighbours(g, c) <= limit ==> Thinned(g, limit).At(c) == Wall
  {
    assert Thinned(g, limit).At(c) == ThinnedCell(g, limit, c);
  }

  const EAST: Coord := Coord(1, 0)
  const SOUTH: Coord := Coord(0, 1)

  /** `widen_streets`: pave east of every street, then south of every
      street, then remove streets with at most two, and then at most one,
      open neighbours. */
  ghost function Widened(g: Grid<Tile1>): (r: Grid<Tile1>)
    requires g.Valid()
    ensures r.Valid() && r.size == g.size
  {
    var g2 := Extended(Extended(g, EAST), SOUTH);
    Thinned(Thinned(g2, 2), 1)
  }

  /** The two paving passes turn every street cell into the top-left
      corner of a two-by-two block of street, cut off at the grid's edge. */
  lemma PavingMakesSquares(g: Grid<Tile1>, c: Coord)
    requires g.Valid() && IsStreet(g, c)
    ensures IsStreet(Extended(Extended(g, EAST), SOUTH), c)
    ensures IsStreet(Extended(Extended(g, EAST), SOUTH), c.Add(EAST)) || !IsValid(c.Add(EAST), g.size)
    ensures IsStreet(Extended(Extended(g, EAST), SOUTH), c.Add(SOUTH)) || !IsValid(c.Add(SOUTH), g.size)
    ensures IsStreet(Extended(Extended(g, EAST), SOUTH), c.Add(Coord(1, 1))) || !IsValid(c.Add(Coord(1, 1)), g.size)
  {
    var g1 := Extended(g, EAST);
    ExtendedKeepsStreets(g, EAST, c);
    ExtendedKeepsStreets(g1, SOUTH, c);
    if IsValid(c.Add(EAST), g.size) {
      ExtendedPaves(g, EAST, c);
      ExtendedKeepsStreets(g1, SOUTH, c.Add(EAST));
      if IsValid(c.Add(Coord(1, 1)), g.size) {
        assert c.Add(EAST).Add(SOUTH) == c.Add(Coord(1, 1));
        ExtendedPaves(g1, SOUTH, c.Add(EAST));
      }
    }
    if IsValid(c.Add(SOUTH), g.size) {
      ExtendedPaves(g1, SOUTH, c);
    }
  }

  /** A paving pass leaves every street in place. */
  lemma ExtendedKeepsStreets(g: Grid<Tile1>, d: Coord, c: Coord)
    requires g.Valid() && IsStreet(g, c)
    ensures IsStreet(Extended(g, d), c)
  {
  }

  /** A paving pass paves the cell `d` past a street, when it is inside the grid. */
  lemma ExtendedPaves(g: Grid<Tile1>, d: Coord, c: Coord)
    requires g.Valid() && IsStreet(g, c) && IsValid(c.Add(d), g.size)
    ensures IsStreet(Extended(g, d), c.Add(d))
  {
    assert c.Add(d).Sub(d) == c;
  }

  /** A street survives a thinning pass exactly when it had more than
      `limit` open neighbours; no other cell changes. */
  lemma ThinningKeeps(g: Grid<Tile1>, limit: nat, c: Coord)
    requires g.Valid() && IsValid(c, g.size)
    ensures Thinned(g, limit).At(c) == Ground(Street) <==> IsStreet(g, c) && OpenNeighbours(g, c) > limit
    ensures g.At(c) != Ground(Street) ==> Thinned(g, limit).At(c) == g.At(c)
  {
  }

  /** How many draws a tick takes once builder `i` is drawn: one more,
      for the coin, when the builder stands on ground. */
  function TickDraws(g: Grid<Tile1>, bs: seq<StreetBuilder>, i: nat): nat
    requires g.Valid() && i < |bs|
  {
    if IsValid(bs[i].coord, g.size) && g.At(bs[i].coord).Ground? then 2 else 1
  }

  /** `build_streets` from builders `bs` on `g` with the draws from `pos`
      on: the grid once every builder is gone, and the position of the
      next draw. */
  function Built(g: Grid<Tile1>, bs: seq<StreetBuilder>, draws: nat -> nat, pos: nat): (r: (Grid<Tile1>, nat))
    requires g.Valid()
    decreases Work(bs, g.size)
  {
    if |bs| == 0 then (g, pos)
    else
      var i := draws(pos) % |bs|;
      var coin := draws(pos + 1) % 2 == 0;
      var t := Tick(g, bs, i, coin);
      TickShrinksWork(g, bs, i, coin);
      TickOnlyPaves(g, bs, i, coin);
      Built(t.0, t.1, draws, pos + TickDraws(g, bs, i))
  }

  /** One tick drawn from `p0` on leaves the rest of the build, and
      strictly less work, to the next draws. */
  lemma BuiltAdvance(g0: Grid<Tile1>, bs0: seq<StreetBuilder>, draws: nat -> nat, p0: nat,
                     g: Grid<Tile1>, bs: seq<StreetBuilder>, p: nat)
    requires g0.Valid() && |bs0| > 0
    requires (g, bs) == Tick(g0, bs0, Draw(draws, p0) % |bs0|, draws(p0 + 1) % 2 == 0)
    requires p == p0 + TickDraws(g0, bs0, Draw(draws, p0) % |bs0|)
    ensures g.Valid() && g.size == g0.size
    ensures Built(g, bs, draws, p) == Built(g0, bs0, draws, p0)
    ensures Work(bs, g.size) < Work(bs0, g0.size)
  {
    TickShrinksWork(g0, bs0, Draw(draws, p0) % |bs0|, draws(p0 + 1) % 2 == 0);
    TickOnlyPaves(g0, bs0, Draw(draws, p0) % |bs0|, draws(p0 + 1) % 2 == 0);
  }

  /** `h` is `g` with some cells paved as street. */
  ghost predicate OnlyPaved(g: Grid<Tile1>, h: Grid<Tile1>) {
    && g.Valid() && h.Valid() && h.size == g.size
    && forall c :: IsValid(c, g.size) ==> h.At(c) == g.At(c) || h.At(c) == Ground(Street)
  }

  /** Building streets keeps the grid's size and only ever paves: every
      cell is unchanged or now street. */
  lemma {:induction false} BuiltOnlyPaves(g: Grid<Tile1>, bs: seq<StreetBuilder>, draws: nat -> nat, pos: nat)
    requires g.Valid()
    ensures OnlyPaved(g, Built(g, bs, draws, pos).0)
    decreases Work(bs, g.size)
  {
    if |bs| > 0 {
      var i := draws(pos) % |bs|;
      var coin := draws(pos + 1) % 2 == 0;
      var t := Tick(g, bs, i, coin);
      TickShrinksWork(g, bs, i, coin);
      TickOnlyPaves(g, bs, i, coin);
      var p' := pos + TickDraws(g, bs, i);
      assert Built(g, bs, draws, pos) == Built(t.0, t.1, draws, p');
      BuiltOnlyPaves(t.0, t.1, draws, p');
      OnlyPavedTrans(g, t.0, Built(t.0, t.1, draws, p').0);
    }
  }

  /** Paving twice is paving once. */
  lemma OnlyPavedTrans(g: Grid<Tile1>, h: Grid<Tile1>, k: Grid<Tile1>)
    requires OnlyPaved(g, h) && OnlyPaved(h, k)
    ensures OnlyPaved(g, k)
  {
    forall c | IsValid(c, g.size)
      ensures k.At(c) == g.At(c) || k.At(c) == Ground(Street)
    {
      assert h.At(c) == g.At(c) || h.At(c) == Ground(Street);
    }
  }

  /** The length of the run of wall from `c`, rightwards or downwards:
      how many cells from `c` on are wall before the first that is not. */
  function WallRunLength(g: Grid<Tile1>, c: Coord, horizontal: bool): (n: nat)
    requires g.Valid()
    ensures forall k :: 0 <= k < n ==> IsValid(Offset(c, k, horizontal), g.size) && g.At(Offset(c, k, horizontal)) == Wall
    ensures g.Get(Offset(c, n, horizontal)) != Some(Wall)
    decreases if IsValid(c, g.size) then (if horizontal then g.size.width - c.x else g.size.height - c.y) else 0
  {
    if g.Get(c) != Some(Wall) then
      assert Offset(c, 0, horizontal) == c;
      0
    else
      var next := Offset(c, 1, horizontal);
      var m := WallRunLength(g, next, horizontal);
      assert forall k :: 0 < k <= m ==> Offset(next, k - 1, horizontal) == Offset(c, k, horizontal);
      1 + m
  }

  /** A run of wall followed by a cell that is not wall has the length
      `WallRunLength` gives. */
  lemma WallRunLengthUnique(g: Grid<Tile1>, c: Coord, horizontal: bool, n: nat)
    requires g.Valid()
    requires forall k :: 0 <= k < n ==> IsValid(Offset(c, k, horizontal), g.size) && g.At(Offset(c, k, horizontal)) == Wall
    requires g.Get(Offset(c, n, horizontal)) != Some(Wall)
    ensures n == WallRunLength(g, c, horizontal)
  {
    var m := WallRunLength(g, c, horizontal);
  }

  /** The `n` cells from `c`, rightwards or downwards. */
  function LineCells(c: Coord, n: nat, horizontal: bool): (r: set<Coord>)
    ensures forall d :: d in r <==>
      if horizontal then d.y == c.y && c.x <= d.x < c.x + n else d.x == c.x && c.y <= d.y < c.y + n
  {
    if horizontal then set x | c.x <= x < c.x + n :: Coord(x, c.y)
    else set y | c.y <= y < c.y + n :: Coord(c.x, y)
  }

  /** The cells of a rectangle. */
  function RectCells(r: Rect): (cells: set<Coord>)
    ensures forall d :: d in cells <==> r.Contains(d)
  {
    set x, y | r.coord.x <= x < r.coord.x + r.size.width && r.coord.y <= y < r.coord.y + r.size.height :: Coord(x, y)
  }

  /** The tile a `< 0.5` coin gives a splitting line: alley when it comes
      up, street otherwise. */
  function CoinTile(draw: nat): Ground1 {
    if draw % 2 == 0 then Alley else Street
  }

  /** The column step of a split with the draws from `pos` on: when the
      rectangle is wider than half the grid, its middle column takes the
      coin's tile. The position of the next draw comes second. */
  function ColumnSplit(g: Grid<Tile1>, r: Rect, draws: nat -> nat, pos: nat): (res: (Grid<Tile1>, nat))
    requires g.Valid()
    ensures res.0.Valid() && res.0.size == g.size
  {
    if r.size.width > g.size.width / 2 then
      (Overwrite(g, LineCells(Coord(r.coord.x + r.size.width / 2, r.coord.y), r.size.height, false), Ground(CoinTile(draws(pos)))), pos + 1)
    else (g, pos)
  }

  /** The row step of a split: when the rectangle is higher than half the
      grid, its middle row takes the coin's tile. */
  function RowSplit(g: Grid<Tile1>, r: Rect, draws: nat -> nat, pos: nat): (res: (Grid<Tile1>, nat))
    requires g.Valid()
    ensures res.0.Valid() && res.0.size == g.size
  {
    if r.size.height > g.size.height / 2 then
      (Overwrite(g, LineCells(Coord(r.coord.x, r.coord.y + r.size.height / 2), r.size.width, true), Ground(CoinTile(draws(pos)))), pos + 1)
    else (g, pos)
  }

  /** The split of one rectangle of `split_rectangles`: the column step,
      then the row step. */
  function SplitRectResult(g: Grid<Tile1>, r: Rect, draws: nat -> nat, pos: nat): (res: (Grid<Tile1>, nat))
    requires g.Valid()
    ensures res.0.Valid() && res.0.size == g.size
  {
    var column := ColumnSplit(g, r, draws, pos);
    RowSplit(column.0, r, draws, column.1)
  }

  /** What a split leaves in each cell: the middle row's tile on the
      middle row of a high rectangle, else the middle column's tile on the
      middle column of a wide one, else the cell as it was. */
  lemma SplitRectMeaning(g: Grid<Tile1>, r: Rect, draws: nat -> nat, pos: nat, d: Coord)
    requires g.Valid() && IsValid(d, g.size)
    ensures var column := r.size.width > g.size.width / 2;
            var row := r.size.height > g.size.height / 2;
            var p1 := if column then pos + 1 else pos;
            SplitRectResult(g, r, draws, pos).0.At(d) ==
              if row && r.Contains(d) && d.y == r.coord.y + r.size.height / 2 then Ground(CoinTile(draws(p1)))
              else if column && r.Contains(d) && d.x == r.coord.x + r.size.width / 2 then Ground(CoinTile(draws(pos)))
              else g.At(d)
    ensures SplitRectResult(g, r, draws, pos).1 == pos + (if r.size.width > g.size.width / 2 then 1 else 0) + (if r.size.height > g.size.height / 2 then 1 else 0)
  {
  }

  /** The state of `split_rectangles` between cells: the grid, the cells
      seen, and the position of the next draw. */
  datatype SplitState = SplitState(grid: Grid<Tile1>, seen: Grid<bool>, pos: nat) {
    predicate Valid() {
      grid.Valid() && seen.Valid() && seen.size == grid.size
    }
  }

  /** The body of `split_rectangles` at cell `c`: a wall cell not yet seen
      marks the rectangle of the wall runs to its right and below it as
      seen, and that rectangle is split. */
  function SplitStep(st: SplitState, draws: nat -> nat, c: Coord): (r: SplitState)
    requires st.Valid() && IsValid(c, st.grid.size)
    ensures r.Valid() && r.grid.size == st.grid.size
  {
    if st.grid.At(c) == Wall && !st.seen.At(c) then
      var rect := Rect(c, Size(WallRunLength(st.grid, c, true), WallRunLength(st.grid, c, false)));
      var split := SplitRectResult(st.grid, rect, draws, st.pos);
      SplitState(split.0, Overwrite(st.seen, RectCells(rect), true), split.1)
    else st
  }

  /** `split_rectangles` over row `y` from column `x` on. */
  function SplitRow(st: SplitState, draws: nat -> nat, y: int, x: nat): (r: SplitState)
    requires st.Valid() && 0 <= y < st.grid.size.height
    ensures r.Valid() && r.grid.size == st.grid.size
    decreases st.grid.size.width - x
  {
    if x >= st.grid.size.width then st
    else SplitRow(SplitStep(st, draws, Coord(x, y)), draws, y, x + 1)
  }

  /** `split_rectangles` over the rows from `y` on. */
  function SplitRows(st: SplitState, draws: nat -> nat, y: nat): (r: SplitState)
    requires st.Valid()
    ensures r.Valid() && r.grid.size == st.grid.size
    decreases st.grid.size.height - y
  {
    if y >= st.grid.size.height then st
    else SplitRows(SplitRow(st, draws, y, 0), draws, y + 1)
  }

  /** `split_rectangles` on `g` with the draws from `pos` on: every cell in
      row-major order, starting with nothing seen. */
  function Split(g: Grid<Tile1>, draws: nat -> nat, pos: nat): (r: SplitState)
    requires g.Valid()
    ensures r.Valid() && r.grid.size == g.size
  {
    SplitRows(SplitState(g, Filled(g.size, false), pos), draws, 0)
  }

  /** A step of the split never turns ground into wall: every cell is
      unchanged or ground. */
  lemma SplitStepOnlyPaves(st: SplitState, draws: nat -> nat, c: Coord)
    requires st.Valid() && IsValid(c, st.grid.size)
    ensures forall d :: IsValid(d, st.grid.size) ==>
      SplitStep(st, draws, c).grid.At(d) == st.grid.At(d) || SplitStep(st, draws, c).grid.At(d).Ground?
  {
    if st.grid.At(c) == Wall && !st.seen.At(c) {
      var rect := Rect(c, Size(WallRunLength(st.grid, c, true), WallRunLength(st.grid, c, false)));
      forall d | IsValid(d, st.grid.size)
        ensures SplitStep(st, draws, c).grid.At(d) == st.grid.At(d) || SplitStep(st, draws, c).grid.At(d).Ground?
      {
        SplitRectMeaning(st.grid, rect, draws, st.pos, d);
      }
    }
  }

  /** Splitting a row never turns ground into wall. */
  lemma {:induction false} SplitRowOnlyPaves(st: SplitState, draws: nat -> nat, y: int, x: nat)
    requires st.Valid() && 0 <= y < st.grid.size.height
    ensures forall d :: IsValid(d, st.grid.size) ==>
      SplitRow(st, draws, y, x).grid.At(d) == st.grid.At(d) || SplitRow(st, draws, y, x).grid.At(d).Ground?
    decreases st.grid.size.width - x
  {
    if x < st.grid.size.width {
      var st' := SplitStep(st, draws, Coord(x, y));
      SplitStepOnlyPaves(st, draws, Coord(x, y));
      SplitRowOnlyPaves(st', draws, y, x + 1);
    }
  }

  /** Splitting the rows from `y` on never turns ground into wall. */
  lemma {:induction false} SplitRowsOnlyPaves(st: SplitState, draws: nat -> nat, y: nat)
    requires st.Valid()
    ensures forall d :: IsValid(d, st.grid.size) ==>
      SplitRows(st, draws, y).grid.At(d) == st.grid.At(d) || SplitRows(st, draws, y).grid.At(d).Ground?
    decreases st.grid.size.height - y
  {
    if y < st.grid.size.height {
      var st' := SplitRow(st, draws, y, 0);
      SplitRowOnlyPaves(st, draws, y, 0);
      SplitRowsOnlyPaves(st', draws, y + 1);
    }
  }

  /** The runs `trim_streets` collects from row `y`, column `x` on: what
      each edge ground cell proposes, in row-major order. */
  function TrimRow(g: Grid<Tile1>, y: int, x: nat): (r: seq<seq<Coord>>)
    requires g.Valid()
    ensures forall p :: p in r ==> IsTrimCandidate(g, p)
    decreases g.size.width - x
  {
    if x >= g.size.width then []
    else
      var here := TrimCandidate(g, Coord(x, y));
      (if here.Some? then [here.value] else []) + TrimRow(g, y, x + 1)
  }

  /** The runs `trim_streets` collects from row `y` on. */
  function TrimRows(g: Grid<Tile1>, y: nat): (r: seq<seq<Coord>>)
    requires g.Valid()
    ensures forall p :: p in r ==> IsTrimCandidate(g, p)
    decreases g.size.height - y
  {
    if y >= g.size.height then [] else TrimRow(g, y, 0) + TrimRows(g, y + 1)
  }

  /** Every run of `TrimRows` lies inside the grid. */
  lemma TrimCandidateCellsValid(g: Grid<Tile1>, p: seq<Coord>)
    requires g.Valid() && IsTrimCandidate(g, p)
    ensures forall c :: c in p ==> IsValid(c, g.size)
  {
    var s :| TrimCandidate(g, s) == Some(p);
    TrimWalkSound(g, s, TrimDirection(s, g.size));
  }

  /** The cells of a run. */
  function RunCells(p: seq<Coord>): (r: set<Coord>)
    ensures forall c :: c in r <==> c in p
  {
    set c | c in p
  }

  /** The grid once the coins for `runs`, drawn from `pos` on, have walled
      up each run whose coin came up. */
  function WallRuns(g: Grid<Tile1>, runs: seq<seq<Coord>>, draws: nat -> nat, pos: nat): (r: Grid<Tile1>)
    requires g.Valid()
    ensures r.Valid() && r.size == g.size
    decreases |runs|
  {
    if runs == [] then g
    else
      var g' := if draws(pos) % 2 == 0 then Overwrite(g, RunCells(runs[0]), Wall) else g;
      WallRuns(g', runs[1..], draws, pos + 1)
  }

  /** Whether some run of `runs` holding `c` has its coin, drawn from
      `pos` on, come up. */
  predicate WalledBy(runs: seq<seq<Coord>>, draws: nat -> nat, pos: nat, c: Coord)
    decreases |runs|
  {
    runs != [] && ((draws(pos) % 2 == 0 && c in runs[0]) || WalledBy(runs[1..], draws, pos + 1, c))
  }

  /** `WalledBy` holds exactly when some run holding `c` has its coin come
      up. */
  lemma WalledByMeaning(runs: seq<seq<Coord>>, draws: nat -> nat, pos: nat, c: Coord)
    ensures WalledBy(runs, draws, pos, c) <==> exists k :: 0 <= k < |runs| && draws(pos + k) % 2 == 0 && c in runs[k]
  {
    if WalledBy(runs, draws, pos, c) {
      var k := WalledByWitness(runs, draws, pos, c);
    }
    if exists k :: 0 <= k < |runs| && draws(pos + k) % 2 == 0 && c in runs[k] {
      var k :| 0 <= k < |runs| && draws(pos + k) % 2 == 0 && c in runs[k];
      WalledByRun(runs, draws, pos, c, k);
    }
  }

  /** A run holding `c` whose coin came up, when `WalledBy` holds. */
  lemma {:induction false} WalledByWitness(runs: seq<seq<Coord>>, draws: nat -> nat, pos: nat, c: Coord) returns (k: nat)
    requires WalledBy(runs, draws, pos, c)
    ensures k < |runs| && draws(pos + k) % 2 == 0 && c in runs[k]
    decreases |runs|
  {
    if draws(pos) % 2 == 0 && c in runs[0] {
      k := 0;
    } else {
      var j := WalledByWitness(runs[1..], draws, pos + 1, c);
      assert runs[1..][j] == runs[j + 1];
      k := j + 1;
    }
  }

  /** A run holding `c` whose coin came up makes `WalledBy` hold. */
  lemma {:induction false} WalledByRun(runs: seq<seq<Coord>>, draws: nat -> nat, pos: nat, c: Coord, k: nat)
    requires k < |runs| && draws(pos + k) % 2 == 0 && c in runs[k]
    ensures WalledBy(runs, draws, pos, c)
    decreases k
  {
    if k > 0 {
      assert runs[1..][k - 1] == runs[k];
      WalledByRun(runs[1..], draws, pos + 1, c, k - 1);
    }
  }

  /** A cell ends up wall exactly when it lies on a run whose coin came
      up; every other cell keeps its tile. */
  lemma {:induction false} WallRunsMeaning(g: Grid<Tile1>, runs: seq<seq<Coord>>, draws: nat -> nat, pos: nat, c: Coord)
    requires g.Valid() && IsValid(c, g.size)
    ensures WallRuns(g, runs, draws, pos).At(c) == if WalledBy(runs, draws, pos, c) then Wall else g.At(c)
    decreases |runs|
  {
    if runs != [] {
      var g' := if draws(pos) % 2 == 0 then Overwrite(g, RunCells(runs[0]), Wall) else g;
      WallRunsMeaning(g', runs[1..], draws, pos + 1, c);
    }
  }

  /** `trim_streets` on `g` with the draws from `pos` on: the runs the edge
      ground cells propose, in row-major order, are shuffled, and then a
      coin for each run decides whether it is walled up. The position of
      the next draw comes second. */
  function Trimmed(g: Grid<Tile1>, draws: nat -> nat, pos: nat): (r: (Grid<Tile1>, nat))
    requires g.Valid()
    ensures r.0.Valid() && r.0.size == g.size
  {
    var runs := TrimRows(g, 0);
    var p1 := pos + ShuffleDraws(|runs|);
    (WallRuns(g, Shuffled(runs, draws, pos), draws, p1), p1 + |runs|)
  }

  /** Cell `c` of `t` is the one of `g`, or a wall on a trim run of `g`. */
  ghost predicate TrimKept(g: Grid<Tile1>, t: Grid<Tile1>, c: Coord)
    requires g.Valid() && t.Valid() && t.size == g.size && IsValid(c, g.size)
  {
    t.At(c) == g.At(c) || (t.At(c) == Wall && OnTrimRun(g, c))
  }

  /** Shuffling the collected runs and then walling them up is `Trimmed`. */
  lemma TrimmedAfter(g0: Grid<Tile1>, draws: nat -> nat, p0: nat, runs: seq<seq<Coord>>, shuffled: seq<seq<Coord>>,
                     p1: nat, g: Grid<Tile1>, p: nat)
    requires g0.Valid() && runs == TrimRows(g0, 0)
    requires shuffled == Shuffled(runs, draws, p0) && p1 == p0 + ShuffleDraws(|runs|)
    requires g == WallRuns(g0, shuffled, draws, p1) && p == p1 + |runs|
    ensures (g, p) == Trimmed(g0, draws, p0)
  {
  }

  /** Trimming walls up only cells on runs some edge cell proposed: every
      cell is unchanged or a wall on such a run. */
  lemma TrimmedOnlyWalls(g: Grid<Tile1>, draws: nat -> nat, pos: nat, c: Coord)
    requires g.Valid() && IsValid(c, g.size)
    ensures TrimKept(g, Trimmed(g, draws, pos).0, c)
  {
    var runs := TrimRows(g, 0);
    var shuffled := Shuffled(runs, draws, pos);
    ShuffledRunsProposed(g, draws, pos);
    WallRunsOnlyWalls(g, shuffled, draws, pos + ShuffleDraws(|runs|), c);
  }

  /** Walling up proposed runs changes only cells on them, into walls. */
  lemma WallRunsOnlyWalls(g: Grid<Tile1>, runs: seq<seq<Coord>>, draws: nat -> nat, pos: nat, c: Coord)
    requires g.Valid() && IsValid(c, g.size)
    requires forall p :: p in runs ==> IsTrimCandidate(g, p)
    ensures TrimKept(g, WallRuns(g, runs, draws, pos), c)
  {
    WallRunsMeaning(g, runs, draws, pos, c);
    if WalledBy(runs, draws, pos, c) {
      WalledByMeaning(runs, draws, pos, c);
      var k :| 0 <= k < |runs| && draws(pos + k) % 2 == 0 && c in runs[k];
      assert runs[k] in runs;
      OnProposedRun(g, runs[k], c);
    }
  }

  /** Every shuffled run is one some edge cell proposed. */
  lemma ShuffledRunsProposed(g: Grid<Tile1>, draws: nat -> nat, pos: nat)
    requires g.Valid()
    ensures forall p :: p in Shuffled(TrimRows(g, 0), draws, pos) ==> IsTrimCandidate(g, p)
  {
    var runs := TrimRows(g, 0);
    ShuffledPermutes(runs, |runs|, draws, pos);
    forall p | p in Shuffled(runs, draws, pos)
      ensures IsTrimCandidate(g, p)
    {
      assert p in multiset(runs);
    }
  }

  /** A cell of a proposed run lies on a trim run. */
  lemma OnProposedRun(g: Grid<Tile1>, p: seq<Coord>, c: Coord)
    requires g.Valid() && IsTrimCandidate(g, p) && c in p
    ensures OnTrimRun(g, c)
  {
    var s :| TrimCandidate(g, s) == Some(p);
  }

  /** Every cell of every shuffled run lies inside the grid. */
  lemma ShuffledRunsValid(g: Grid<Tile1>, draws: nat -> nat, pos: nat)
    requires g.Valid()
    ensures forall p, c :: p in Shuffled(TrimRows(g, 0), draws, pos) && c in p ==> IsValid(c, g.size)
  {
    var runs := TrimRows(g, 0);
    ShuffledPermutes(runs, |runs|, draws, pos);
    forall p | p in Shuffled(runs, draws, pos)
      ensures forall c :: c in p ==> IsValid(c, g.size)
    {
      assert p in multiset(runs);
      TrimCandidateCellsValid(g, p);
    }
  }

  /** The first city map: its grid, and the builders still walking. */
  class Map1 {
    var grid: Grid<Tile1>
    var streetBuilders: seq<StreetBuilder>

    predicate Valid()
      reads this
    {
      grid.Valid()
    }

    /** `Map1::new`: a 50 by 25 grid of wall and no builders. */
    constructor ()
      ensures Valid() && grid == Filled(MAP1_SIZE, Wall) && streetBuilders == []
    {
      grid := Filled(MAP1_SIZE, Wall);
      streetBuilders := [];
    }

    /** The builders proposed along the grid's edge, in row-major order. */
    method Candidates() returns (r: seq<StreetBuilder>)
      requires Valid()
      ensures forall b :: b in r <==> IsCandidate(b, grid.size)
    {
      r := [];
      var y := 0;
      while y < grid.size.height
        invariant 0 <= y <= grid.size.height
        invariant forall b :: b in r <==> IsCandidate(b, grid.size) && b.coord.y < y
      {
        var x := 0;
        while x < grid.size.width
          invariant 0 <= x <= grid.size.width
          invariant forall b :: b in r <==> IsCandidate(b, grid.size) && Before(b.coord, Coord(x, y))
        {
          var c := Coord(x, y);
          if OnEdge(c, grid.size) {
            var b := CandidateAt(c, grid.size);
            if b.Some? {
              r := r + [b.value];
            }
          }
          x := x + 1;
        }
        y := y + 1;
      }
    }

    /** `add_street_builders`: the shuffled candidates are taken greedily,
        each kept unless it is too close to a builder already kept. */
    method AddStreetBuilders(rng: Rng)
      requires Valid()
      modifies this, rng
      ensures Valid() && grid == old(grid)
      ensures |streetBuilders| >= |old(streetBuilders)| && streetBuilders[..|old(streetBuilders)|] == old(streetBuilders)
      ensures forall b :: b in streetBuilders[|old(streetBuilders)|..] ==> IsCandidate(b, grid.size)
      ensures Spaced(old(streetBuilders)) ==> Spaced(streetBuilders)
      ensures forall b :: IsCandidate(b, grid.size) ==> b in streetBuilders || TooCloseToAny(b, streetBuilders)
    {
      var candidates := Candidates();
      var shuffled := rng.Shuffle(candidates);
      var i := 0;
      while i < |shuffled|
        invariant 0 <= i <= |shuffled|
        invariant Valid() && grid == old(grid)
        invariant |streetBuilders| >= |old(streetBuilders)| && streetBuilders[..|old(streetBuilders)|] == old(streetBuilders)
        invariant forall b :: b in streetBuilders[|old(streetBuilders)|..] ==> IsCandidate(b, grid.size)
        invariant Spaced(old(streetBuilders)) ==> Spaced(streetBuilders)
        invariant forall k :: 0 <= k < i ==> shuffled[k] in streetBuilders || TooCloseToAny(shuffled[k], streetBuilders)
      {
        var candidate := shuffled[i];
        assert candidate in multiset(candidates);
        var close := CloseToAny(candidate);
        if !close {
          ghost var before := streetBuilders;
          streetBuilders := streetBuilders + [candidate];
          AppendBuilder(before, candidate, |old(streetBuilders)|, shuffled[..i]);
        }
        i := i + 1;
      }
      forall b | IsCandidate(b, grid.size)
        ensures b in streetBuilders || TooCloseToAny(b, streetBuilders)
      {
        assert b in multiset(shuffled);
      }
    }

    /** Whether a builder is too close to one already kept. */
    method CloseToAny(candidate: StreetBuilder) returns (close: bool)
      ensures close <==> TooCloseToAny(candidate, streetBuilders)
    {
      close := false;
      var j := 0;
      while j < |streetBuilders| && !close
        invariant 0 <= j <= |streetBuilders|
        invariant close ==> TooCloseToAny(candidate, streetBuilders)
        invariant !close ==> forall k :: 0 <= k < j ==> !TooClose(candidate, streetBuilders[k])
      {
        if TooClose(candidate, streetBuilders[j]) {
          close := true;
        }
        j := j + 1;
      }
    }

    /** `build_streets_tick`: draws a builder, then, when it stands on
        ground, a coin. */
    method BuildStreetsTick(rng: Rng)
      requires Valid() && |streetBuilders| > 0
      modifies this, rng
      ensures Valid()
      ensures (grid, streetBuilders) ==
        Tick(old(grid), old(streetBuilders), Draw(rng.draws, old(rng.position)) % |old(streetBuilders)|, rng.draws(old(rng.position) + 1) % 2 == 0)
      ensures rng.position == old(rng.position) + TickDraws(old(grid), old(streetBuilders), Draw(rng.draws, old(rng.position)) % |old(streetBuilders)|)
    {
      var index := rng.GenRange(0, |streetBuilders|);
      var b := streetBuilders[index];
      if !IsValid(b.coord, grid.size) {
        streetBuilders := SwapRemove(streetBuilders, index);
        return;
      }
      if grid.At(b.coord).Ground? {
        var coin := rng.Coin();
        if coin {
          streetBuilders := SwapRemove(streetBuilders, index);
          return;
        }
      }
      grid := grid.Set(b.coord, Ground(Street));
      streetBuilders := streetBuilders[index := Advance(b)];
    }

    /** `build_streets`: ticks until every builder is gone, which always
        happens. */
    method BuildStreets(rng: Rng)
      requires Valid()
      modifies this, rng
      ensures Valid() && streetBuilders == []
      ensures (grid, rng.position) == Built(old(grid), old(streetBuilders), rng.draws, old(rng.position))
      ensures OnlyPaved(old(grid), grid)
    {
      ghost var g0, bs0, p0 := grid, streetBuilders, rng.position;
      BuildStreetsLoop(rng);
      BuiltOnlyPaves(g0, bs0, rng.draws, p0);
    }

    /** The ticks of `build_streets`, until no builder is left. */
    method BuildStreetsLoop(rng: Rng)
      requires Valid()
      modifies this, rng
      ensures Valid() && streetBuilders == []
      ensures (grid, rng.position) == Built(old(grid), old(streetBuilders), rng.draws, old(rng.position))
    {
      while |streetBuilders| > 0
        invariant Valid()
        invariant Built(grid, streetBuilders, rng.draws, rng.position) == Built(old(grid), old(streetBuilders), rng.draws, old(rng.position))
        decreases Work(streetBuilders, grid.size)
      {
        BuildStreetsStep(rng);
      }
      assert Built(grid, streetBuilders, rng.draws, rng.position) == (grid, rng.position);
    }

    /** One tick of `build_streets`, as progress towards the whole build:
        the rest of the build is unchanged and strictly less work is left. */
    method BuildStreetsStep(rng: Rng)
      requires Valid() && |streetBuilders| > 0
      modifies this, rng
      ensures Valid() && grid.size == old(grid.size)
      ensures Built(grid, streetBuilders, rng.draws, rng.position) == Built(old(grid), old(streetBuilders), rng.draws, old(rng.position))
      ensures Work(streetBuilders, grid.size) < Work(old(streetBuilders), old(grid.size))
    {
      ghost var g0, bs0, p0 := grid, streetBuilders, rng.position;
      BuildStreetsTick(rng);
      BuiltAdvance(g0, bs0, rng.draws, p0, grid, streetBuilders, rng.position);
    }

    /** The number of walls in a row from `c`, rightwards or downwards. */
    method WallRun(c: Coord, horizontal: bool) returns (n: nat)
      requires Valid() && IsValid(c, grid.size)
      ensures n == WallRunLength(grid, c, horizontal)
    {
      n := 0;
      while grid.Get(Offset(c, n, horizontal)) == Some(Wall)
        invariant forall k :: 0 <= k < n ==> IsValid(Offset(c, k, horizontal), grid.size) && grid.At(Offset(c, k, horizontal)) == Wall
        decreases grid.size.width + grid.size.height - n
      {
        n := n + 1;
      }
      WallRunLengthUnique(grid, c, horizontal, n);
    }

    /** Paves `n` cells from `c`, rightwards or downwards, with `tile`. */
    method PaveRun(c: Coord, n: nat, horizontal: bool, tile: Ground1)
      requires Valid() && forall k :: 0 <= k < n ==> IsValid(Offset(c, k, horizontal), grid.size)
      modifies this
      ensures Valid() && streetBuilders == old(streetBuilders)
      ensures grid == Overwrite(old(grid), LineCells(c, n, horizontal), Ground(tile))
    {
      var i := 0;
      while i < n
        invariant 0 <= i <= n
        invariant Valid() && grid.size == old(grid.size) && streetBuilders == old(streetBuilders)
        invariant forall d :: IsValid(d, grid.size) ==>
          grid.At(d) == if d in LineCells(c, i, horizontal) then Ground(tile) else old(grid).At(d)
      {
        grid := grid.Set(Offset(c, i, horizontal), Ground(tile));
        i := i + 1;
      }
      GridExt(grid, Overwrite(old(grid), LineCells(c, n, horizontal), Ground(tile)));
    }

    /** `split_rectangles`: from every wall cell not yet seen, in row-major
        order, the rectangle as wide as the wall run to its right and as
        high as the wall run below it is marked seen and split. Splitting
        never turns ground into wall. */
    method SplitRectangles(rng: Rng)
      requires Valid()
      modifies this, rng
      ensures Valid() && streetBuilders == old(streetBuilders)
      ensures grid == Split(old(grid), rng.draws, old(rng.position)).grid
      ensures rng.position == Split(old(grid), rng.draws, old(rng.position)).pos
      ensures forall c :: IsValid(c, grid.size) ==> grid.At(c) == old(grid).At(c) || grid.At(c).Ground?
    {
      var seen := Filled(grid.size, false);
      ghost var final := Split(grid, rng.draws, rng.position);
      SplitRowsOnlyPaves(SplitState(grid, seen, rng.position), rng.draws, 0);
      var y := 0;
      while y < grid.size.height
        invariant 0 <= y <= grid.size.height
        invariant Valid() && streetBuilders == old(streetBuilders)
        invariant seen.Valid() && seen.size == grid.size && grid.size == old(grid).size
        invariant SplitRows(SplitState(grid, seen, rng.position), rng.draws, y) == final
      {
        var x := 0;
        while x < grid.size.width
          invariant 0 <= x <= grid.size.width
          invariant Valid() && streetBuilders == old(streetBuilders)
          invariant seen.Valid() && seen.size == grid.size && grid.size == old(grid).size
          invariant SplitRows(SplitRow(SplitState(grid, seen, rng.position), rng.draws, y, x), rng.draws, y + 1) == final
        {
          var c := Coord(x, y);
          if grid.At(c) == Wall && !seen.At(c) {
            seen := SplitFrom(rng, c, seen);
          }
          x := x + 1;
        }
        y := y + 1;
      }
    }

    /** One wall cell of `split_rectangles`, not yet seen: marks its
        rectangle seen and splits it. */
    method SplitFrom(rng: Rng, c: Coord, seen: Grid<bool>) returns (seen': Grid<bool>)
      requires Valid() && IsValid(c, grid.size) && seen.Valid() && seen.size == grid.size
      requires grid.At(c) == Wall && !seen.At(c)
      modifies this, rng
      ensures Valid() && streetBuilders == old(streetBuilders)
      ensures SplitState(grid, seen', rng.position) == SplitStep(SplitState(old(grid), seen, old(rng.position)), rng.draws, c)
    {
      var width := WallRun(c, true);
      var height := WallRun(c, false);
      var r := Rect(c, Size(width, height));
      forall d | r.Contains(d)
        ensures IsValid(d, grid.size)
      {
        assert IsValid(Offset(c, d.x - c.x, true), grid.size);
        assert IsValid(Offset(c, d.y - c.y, false), grid.size);
      }
      seen' := MarkSeen(seen, r);
      SplitRect(rng, r);
    }

    /** The split of one rectangle of `split_rectangles`: a column through
        the middle of a rectangle wider than half the grid, then a row
        through the middle of one higher than half the grid, each of street
        or alley as a coin decides. */
    method SplitRect(rng: Rng, r: Rect)
      requires Valid() && forall d :: r.Contains(d) ==> IsValid(d, grid.size)
      modifies this, rng
      ensures Valid() && streetBuilders == old(streetBuilders)
      ensures (grid, rng.position) == SplitRectResult(old(grid), r, rng.draws, old(rng.position))
    {
      SplitByColumn(rng, r);
      SplitByRow(rng, r);
    }

    /** The column step of `SplitRect`. */
    method SplitByColumn(rng: Rng, r: Rect)
      requires Valid() && forall d :: r.Contains(d) ==> IsValid(d, grid.size)
      modifies this, rng
      ensures Valid() && streetBuilders == old(streetBuilders)
      ensures (grid, rng.position) == ColumnSplit(old(grid), r, rng.draws, old(rng.position))
    {
      if r.size.width > grid.size.width / 2 {
        var coin := rng.Coin();
        var tile := if coin then Alley else Street;
        PaveRun(Coord(r.coord.x + r.size.width / 2, r.coord.y), r.size.height, false, tile);
      }
    }

    /** The row step of `SplitRect`. */
    method SplitByRow(rng: Rng, r: Rect)
      requires Valid() && forall d :: r.Contains(d) ==> IsValid(d, grid.size)
      modifies this, rng
      ensures Valid() && streetBuilders == old(streetBuilders)
      ensures (grid, rng.position) == RowSplit(old(grid), r, rng.draws, old(rng.position))
    {
      if r.size.height > grid.size.height / 2 {
        var coin := rng.Coin();
        var tile := if coin then Alley else Street;
        PaveRun(Coord(r.coord.x, r.coord.y + r.size.height / 2), r.size.width, true, tile);
      }
    }

    /** Marks every cell of `r`, which lies inside the grid, as seen. */
    static method MarkSeen(seen: Grid<bool>, r: Rect) returns (seen': Grid<bool>)
      requires seen.Valid()
      requires forall c :: r.Contains(c) ==> IsValid(c, seen.size)
      ensures seen' == Overwrite(seen, RectCells(r), true)
    {
      seen' := seen;
      var j := 0;
      while j < r.size.height
        invariant 0 <= j <= r.size.height
        invariant seen'.Valid() && seen'.size == seen.size
        invariant forall c :: IsValid(c, seen.size) ==>
          seen'.At(c) == (seen.At(c) || (r.Contains(c) && c.y < r.coord.y + j))
      {
        var i := 0;
        while i < r.size.width
          invariant 0 <= i <= r.size.width
          invariant seen'.Valid() && seen'.size == seen.size
          invariant forall c :: IsValid(c, seen.size) ==>
            seen'.At(c) == (seen.At(c) || (r.Contains(c) && (c.y < r.coord.y + j || (c.y == r.coord.y + j && c.x < r.coord.x + i))))
        {
          seen' := seen'.Set(Coord(r.coord.x + i, r.coord.y + j), true);
          i := i + 1;
        }
        j := j + 1;
      }
      GridExt(seen', Overwrite(seen, RectCells(r), true));
    }

    /** `check_trim_candidate`: walks from the edge cell `start` into the
        grid, collecting cells until the run ends. */
    method CheckTrimCandidate(start: Coord) returns (r: Option<seq<Coord>>)
      requires Valid() && OnEdge(start, grid.size)
      ensures r == TrimWalk(grid, start, TrimDirection(start, grid.size))
    {
      var d := TrimDirection(start, grid.size);
      var coord := start;
      var toRemove: seq<Coord> := [];
      if TrimWalk(grid, start, d).Some? {
        assert [] + TrimWalk(grid, start, d).value == TrimWalk(grid, start, d).value;
      }
      while true
        invariant TrimWalk(grid, start, d) == Prepend(toRemove, TrimWalk(grid, coord, d))
        decreases Fuel(StreetBuilder(coord, d), grid.size)
      {
        if !IsValid(coord, grid.size) {
          return None;
        }
        if IsAlley(grid, coord) || IsAlley(grid, coord.Add(Left45(d))) || IsAlley(grid, coord.Add(Right45(d))) {
          return None;
        }
        ghost var before := toRemove;
        TrimWalkUnfold(grid, coord, d);
        toRemove := toRemove + [coord];
        var leftRightCount := 0;
        if IsStreet(grid, coord.Add(Left45(d))) {
          leftRightCount := leftRightCount + 1;
        }
        if IsStreet(grid, coord.Add(Right45(d))) {
          leftRightCount := leftRightCount + 1;
        }
        if leftRightCount == 1 {
          return Some(toRemove);
        }
        if leftRightCount == 2 {
          return None;
        }
        var next := coord.Add(CardinalDelta(d));
        FuelStep(StreetBuilder(coord, d), grid.size);
        PrependTwice(before, [coord], TrimWalk(grid, next, d));
        coord := next;
      }
    }

    /** `trim_streets`: the runs proposed from the edge ground cells are
        shuffled, and each is walled up when its coin comes up. Only cells
        on proposed runs change, and they become wall. */
    method TrimStreets(rng: Rng)
      requires Valid()
      modifies this, rng
      ensures Valid() && streetBuilders == old(streetBuilders)
      ensures (grid, rng.position) == Trimmed(old(grid), rng.draws, old(rng.position))
    {
      ghost var g0, p0 := grid, rng.position;
      var candidates := CollectTrimCandidates();
      ShuffledRunsValid(g0, rng.draws, p0);
      var shuffled := rng.Shuffle(candidates);
      ghost var p1 := rng.position;
      WallUpRuns(shuffled, rng);
      TrimmedAfter(g0, rng.draws, p0, candidates, shuffled, p1, grid, rng.position);
    }

    /** The runs `trim_streets` collects, in row-major order. */
    method CollectTrimCandidates() returns (candidates: seq<seq<Coord>>)
      requires Valid()
      ensures candidates == TrimRows(grid, 0)
    {
      candidates := [];
      var y := 0;
      while y < grid.size.height
        invariant 0 <= y <= grid.size.height
        invariant candidates + TrimRows(grid, y) == TrimRows(grid, 0)
      {
        candidates := CollectTrimRow(y, candidates);
        y := y + 1;
      }
    }

    /** The runs of row `y`, after those collected so far. */
    method CollectTrimRow(y: int, before: seq<seq<Coord>>) returns (candidates: seq<seq<Coord>>)
      requires Valid()
      ensures candidates == before + TrimRow(grid, y, 0)
    {
      candidates := before;
      var x := 0;
      while x < grid.size.width
        invariant 0 <= x <= grid.size.width
        invariant candidates + TrimRow(grid, y, x) == before + TrimRow(grid, y, 0)
      {
        var c := Coord(x, y);
        if OnEdge(c, grid.size) && grid.At(c).Ground? {
          var r := CheckTrimCandidate(c);
          assert TrimCandidate(grid, c) == r;
          if r.Some? {
            candidates := candidates + [r.value];
          }
        }
        x := x + 1;
      }
    }

    /** A coin for each run, in order; a run whose coin comes up is walled
        up. */
    method WallUpRuns(runs: seq<seq<Coord>>, rng: Rng)
      requires Valid() && forall p, c :: p in runs && c in p ==> IsValid(c, grid.size)
      modifies this, rng
      ensures Valid() && streetBuilders == old(streetBuilders)
      ensures grid == WallRuns(old(grid), runs, rng.draws, old(rng.position))
      ensures rng.position == old(rng.position) + |runs|
    {
      var i := 0;
      while i < |runs|
        invariant 0 <= i <= |runs|
        invariant Valid() && streetBuilders == old(streetBuilders) && grid.size == old(grid).size
        invariant rng.position == old(rng.position) + i
        invariant WallRuns(grid, runs[i..], rng.draws, rng.position) == WallRuns(old(grid), runs, rng.draws, old(rng.position))
      {
        assert runs[i..][0] == runs[i] && runs[i..][1..] == runs[i + 1..];
        var coin := rng.Coin();
        if coin {
          WallUpRun(runs[i]);
        }
        i := i + 1;
      }
    }

    /** Walls up every cell of a run. */
    method WallUpRun(p: seq<Coord>)
      requires Valid() && forall c :: c in p ==> IsValid(c, grid.size)
      modifies this
      ensures Valid() && streetBuilders == old(streetBuilders)
      ensures grid == Overwrite(old(grid), RunCells(p), Wall)
    {
      var k := 0;
      while k < |p|
        invariant 0 <= k <= |p|
        invariant Valid() && grid.size == old(grid).size && streetBuilders == old(streetBuilders)
        invariant forall c :: IsValid(c, grid.size) ==> grid.At(c) == if c in p[..k] then Wall else old(grid).At(c)
      {
        grid := grid.Set(p[k], Wall);
        k := k + 1;
      }
      assert p[..k] == p;
      GridExt(grid, Overwrite(old(grid), RunCells(p), Wall));
    }

    /** `is_boring_before_trimming`: whether no three streets meet. */
    method IsBoringBeforeTrimming() returns (r: bool)
      requires Valid()
      ensures r <==> forall c :: !IsJunction(grid, c)
    {
      var y := 0;
      while y < grid.size.height
        invariant 0 <= y <= grid.size.height
        invariant forall c :: IsJunction(grid, c) ==> c.y >= y
      {
        var x := FindJunctionInRow(y);
        if x < grid.size.width {
          return false;
        }
        NextRowClear(grid, y);
        y := y + 1;
      }
      return true;
    }

    /** The first junction of row `y`, or the width when there is none. */
    method FindJunctionInRow(y: int) returns (x: nat)
      requires Valid() && 0 <= y < grid.size.height
      ensures x <= grid.size.width
      ensures x < grid.size.width ==> IsJunction(grid, Coord(x, y))
      ensures forall i :: 0 <= i < x ==> !IsJunction(grid, Coord(i, y))
    {
      x := 0;
      while x < grid.size.width
        invariant 0 <= x <= grid.size.width
        invariant forall i :: 0 <= i < x ==> !IsJunction(grid, Coord(i, y))
      {
        if IsJunction(grid, Coord(x, y)) {
          return;
        }
        x := x + 1;
      }
    }

    /** `is_boring`: whether the grid has no alley. */
    method IsBoring() returns (r: bool)
      requires Valid()
      ensures r <==> forall c :: IsValid(c, grid.size) ==> grid.At(c) != Ground(Alley)
    {
      var y := 0;
      while y < grid.size.height
        invariant 0 <= y <= grid.size.height
        invariant forall c :: IsValid(c, grid.size) && c.y < y ==> grid.At(c) != Ground(Alley)
      {
        var x := 0;
        while x < grid.size.width
          invariant 0 <= x <= grid.size.width
          invariant forall c :: IsValid(c, grid.size) && Before(c, Coord(x, y)) ==> grid.At(c) != Ground(Alley)
        {
          if grid.At(Coord(x, y)) == Ground(Alley) {
            return false;
          }
          x := x + 1;
        }
        y := y + 1;
      }
      return true;
    }

    /** `widen_streets`. */
    method WidenStreets()
      requires Valid()
      modifies this
      ensures Valid() && streetBuilders == old(streetBuilders)
      ensures grid == Widened(old(grid))
    {
      var grid1 := Extend(grid, EAST);
      var grid2 := Extend(grid1, SOUTH);
      var grid3 := Rebuild(grid2, ThinRule(grid2, 2));
      assert grid3 == Thinned(grid2, 2);
      var grid4 := Rebuild(grid3, ThinRule(grid3, 1));
      assert grid4 == Thinned(grid3, 1);
      grid := grid4;
    }
  }

  /** Some cell of `g` is alley. */
  ghost predicate HasAlley(g: Grid<Tile1>)
    requires g.Valid()
  {
    exists c :: IsValid(c, g.size) && g.At(c) == Ground(Alley)
  }

  /** One round of `Map1::generate`: `None` where the source starts over
      with a fresh map, because no three streets meet before trimming or
      no alley is left after it. A map that comes back is the widened
      trimming of a split grid in which three streets meet, and the
      trimmed grid holds an alley. */
  method GenerateAttempt(rng: Rng) returns (r: Option<Map1>)
    modifies rng
    ensures r.Some? ==> fresh(r.value) && r.value.Valid() && r.value.grid.size == MAP1_SIZE && r.value.streetBuilders == []
    ensures r.Some? ==> Accepted(r.value.grid, rng.draws)
  {
    var m := new Map1();
    m.AddStreetBuilders(rng);
    m.BuildStreets(rng);
    m.SplitRectangles(rng);
    var boringBefore := m.IsBoringBeforeTrimming();
    if boringBefore {
      return None;
    }
    ghost var split, pos := m.grid, rng.position;
    m.TrimStreets(rng);
    ghost var trimmed := m.grid;
    var boring := m.IsBoring();
    if boring {
      return None;
    }
    m.WidenStreets();
    AcceptedBy(split, rng.draws, pos, m.grid);
    return Some(m);
  }

  /** A first-stage grid that passed both boring checks: it is the widened
      trimming of a valid split grid in which three streets meet, and the
      trimmed grid holds an alley. */
  ghost predicate Accepted(g: Grid<Tile1>, draws: nat -> nat)
  {
    exists split: Grid<Tile1>, pos: nat ::
      && split.Valid() && (exists c :: IsJunction(split, c))
      && HasAlley(Trimmed(split, draws, pos).0)
      && g == Widened(Trimmed(split, draws, pos).0)
  }

  lemma AcceptedBy(split: Grid<Tile1>, draws: nat -> nat, pos: nat, g: Grid<Tile1>)
    requires split.Valid() && (exists c :: IsJunction(split, c))
    requires HasAlley(Trimmed(split, draws, pos).0)
    requires g == Widened(Trimmed(split, draws, pos).0)
    ensures Accepted(g, draws)
  {
  }

  /** A paving pass: for every street, the cell `d` past it, when inside
      the grid, becomes street in a copy of the grid. */
  method Extend(g: Grid<Tile1>, d: Coord) returns (r: Grid<Tile1>)
    requires g.Valid()
    ensures r == Extended(g, d)
  {
    r := g;
    var y := 0;
    while y < g.size.height
      invariant 0 <= y <= g.size.height
      invariant ExtendedBefore(g, d, r, Coord(0, y))
    {
      var x := 0;
      while x < g.size.width
        invariant 0 <= x <= g.size.width
        invariant ExtendedBefore(g, d, r, Coord(x, y))
      {
        ghost var r0 := r;
        var source := Coord(x, y);
        var target := source.Add(d);
        if g.At(source) == Ground(Street) && IsValid(target, g.size) {
          r := r.Set(target, Ground(Street));
        }
        ExtendCellStep(g, d, r0, r, x, y);
        x := x + 1;
      }
      ExtendRowDone(g, d, r, y);
      y := y + 1;
    }
    ExtendedBeforeAll(g, d, r);
  }

  /** `r` is `g` with every cell `d` past a street before `b`, in
      row-major order, paved. */
  ghost predicate ExtendedBefore(g: Grid<Tile1>, d: Coord, r: Grid<Tile1>, b: Coord)
    requires g.Valid()
  {
    && r.Valid() && r.size == g.size
    && forall c :: IsValid(c, g.size) ==>
      r.At(c) == if IsStreet(g, c.Sub(d)) && Before(c.Sub(d), b) then Ground(Street) else g.At(c)
  }

  /** Paving the cell past the street at `(x, y)`, if any, extends the
      paved prefix by one cell. */
  lemma ExtendCellStep(g: Grid<Tile1>, d: Coord, r0: Grid<Tile1>, r: Grid<Tile1>, x: int, y: int)
    requires g.Valid() && 0 <= x < g.size.width && 0 <= y < g.size.height
    requires ExtendedBefore(g, d, r0, Coord(x, y))
    requires r == if g.At(Coord(x, y)) == Ground(Street) && IsValid(Coord(x, y).Add(d), g.size)
      then r0.Set(Coord(x, y).Add(d), Ground(Street)) else r0
    ensures ExtendedBefore(g, d, r, Coord(x + 1, y))
  {
    assert Coord(x, y).Add(d).Sub(d) == Coord(x, y);
  }

  /** A row done is the next row begun. */
  lemma ExtendRowDone(g: Grid<Tile1>, d: Coord, r: Grid<Tile1>, y: int)
    requires g.Valid() && 0 <= y < g.size.height
    requires ExtendedBefore(g, d, r, Coord(g.size.width, y))
    ensures ExtendedBefore(g, d, r, Coord(0, y + 1))
  {
    forall c | IsValid(c, g.size) && IsStreet(g, c.Sub(d))
      ensures Before(c.Sub(d), Coord(g.size.width, y)) <==> Before(c.Sub(d), Coord(0, y + 1))
    {
    }
  }

  /** Once every row is done, the pass is complete. */
  lemma ExtendedBeforeAll(g: Grid<Tile1>, d: Coord, r: Grid<Tile1>)
    requires g.Valid() && ExtendedBefore(g, d, r, Coord(0, g.size.height))
    ensures r == Extended(g, d)
  {
    forall c | IsValid(c, g.size)
      ensures r.At(c) == Extended(g, d).At(c)
    {
      if IsStreet(g, c.Sub(d)) {
        assert Before(c.Sub(d), Coord(0, g.size.height));
      }
    }
    GridExt(r, Extended(g, d));
  }
}
