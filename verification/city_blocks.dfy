/** The third stage of city generation (`Map3`): the wall between the
    streets is cut into blocks, the inside of each block becomes floor,
    floor blocks are split into rooms by walls and corridors, and
    corridor corners are cleaned up. */
module CityBlocks {
  import opened Wrappers
  import opened Ints
  import opened Geometry
  import opened Random
  import opened Reach
  import CityStreets
  import CityFootpaths

  datatype Tile3 = Wall | Street | Alley | Footpath | Floor

  /** The tile `from_map2` gives a cell of the footpath map. */
  function FromTile2(t: CityFootpaths.Tile2): (r: Tile3)
    ensures r != Floor && ToTile2(r) == t
  {
    match t
    case Wall => Wall
    case Street => Street
    case Alley => Alley
    case Footpath => Footpath
  }

  function ToTile2(t: Tile3): CityFootpaths.Tile2
    requires t != Floor
  {
    match t
    case Wall => CityFootpaths.Wall
    case Street => CityFootpaths.Street
    case Alley => CityFootpaths.Alley
    case Footpath => CityFootpaths.Footpath
  }

  /** `from_map2`: the footpath map, cell for cell, with no floor yet. */
  function FromGrid2(g: Grid<CityFootpaths.Tile2>): (r: Grid<Tile3>)
    requires g.Valid()
    ensures r.Valid() && r.size == g.size
    ensures forall c :: IsValid(c, g.size) ==> r.At(c) != Floor && ToTile2(r.At(c)) == g.At(c)
  {
    MapGrid(g, FromTile2)
  }

  /** A set of cells of the grid. */
  datatype Block = Block(coords: set<Coord>)

  /** A block cut along a row or column: the cells before it, the cells
      after it, and the cells on it, which become wall. */
  datatype BlockSplitByWall = BlockSplitByWall(block1: Block, block2: Block, wall: set<Coord>)

  /** The three parts are pairwise disjoint and together make up `b`. */
  predicate Partitions(b: Block, r: BlockSplitByWall) {
    && r.block1.coords + r.block2.coords + r.wall == b.coords
    && r.block1.coords !! r.block2.coords && r.block1.coords !! r.wall && r.block2.coords !! r.wall
  }

  /** `split_horizontal(y)`: cut along row `y`. */
  function SplitHorizontal(b: Block, y: int): (r: BlockSplitByWall)
    ensures Partitions(b, r)
    ensures forall c :: c in r.block1.coords ==> c.y < y
    ensures forall c :: c in r.block2.coords ==> c.y > y
    ensures forall c :: c in r.wall ==> c.y == y
  {
    BlockSplitByWall(
      Block(set c | c in b.coords && c.y < y),
      Block(set c | c in b.coords && c.y > y),
      set c | c in b.coords && c.y == y)
  }

  /** `split_vertical(x)`: cut along column `x`. */
  function SplitVertical(b: Block, x: int): (r: BlockSplitByWall)
    ensures Partitions(b, r)
    ensures forall c :: c in r.block1.coords ==> c.x < x
    ensures forall c :: c in r.block2.coords ==> c.x > x
    ensures forall c :: c in r.wall ==> c.x == x
  {
    BlockSplitByWall(
      Block(set c | c in b.coords && c.x < x),
      Block(set c | c in b.coords && c.x > x),
      set c | c in b.coords && c.x == x)
  }

  /** Every side of `r` is attained by a cell of `b`. */
  ghost predicate Tight(b: Block, r: CityStreets.Rect) {
    && (exists c :: c in b.coords && c.x == r.coord.x)
    && (exists c :: c in b.coords && c.y == r.coord.y)
    && (exists c :: c in b.coords && c.x == r.BottomRight().x)
    && (exists c :: c in b.coords && c.y == r.BottomRight().y)
  }

  /** Every cell is a coordinate of a grid whose sides fit in `i32`. */
  predicate InI32Range(b: Block) {
    forall c :: c in b.coords ==> 0 <= c.x < I32_MAX && 0 <= c.y < I32_MAX
  }

  /** `Block::bounding_box`: the smallest rectangle holding every cell.
      For an empty block the minimum starts at `i32::MAX` and the maximum
      at `i32::MIN`, and the size wraps round to two by two. */
  ghost function Box(b: Block): (r: CityStreets.Rect)
    requires InI32Range(b)
  {
    if b.coords == {} then CityStreets.Rect(Coord(I32_MAX, I32_MAX), Size(2, 2))
    else
      var e := ExtentValues(b.coords);
      CityStreets.Rect(Coord(e.0, e.1), Size(e.2 - e.0 + 1, e.3 - e.1 + 1))
  }

  /** The bounding box holds every cell of the block and each of its
      sides is attained by a cell; for an empty block it is the two by two
      square at `(i32::MAX, i32::MAX)`. */
  lemma BoxMeaning(b: Block)
    requires InI32Range(b)
    ensures BoxOf(b, Box(b))
    ensures forall c :: c in b.coords ==> Box(b).Contains(c)
    ensures b.coords == {} ==> Box(b) == CityStreets.Rect(Coord(I32_MAX, I32_MAX), Size(2, 2))
  {
  }

  /** The bounding box, from the extent found one cell at a time. */
  method BoundingBox(b: Block) returns (r: CityStreets.Rect)
    requires InI32Range(b)
    ensures r == Box(b)
  {
    var xMin, yMin, xMax, yMax := Extent(b);
    ExtentUnique(b.coords, (xMin, yMin, xMax, yMax), ExtentValues(b.coords));
    var width := WrapI32(WrapI32(xMax - xMin) + 1);
    var height := WrapI32(WrapI32(yMax - yMin) + 1);
    if b.coords == {} {
      assert width == 2 && height == 2;
    }
    r := CityStreets.Rect(Coord(xMin, yMin), Size(width, height));
  }

  /** The extent of a set of cells, as `bounding_box` computes it. */
  ghost function ExtentValues(s: set<Coord>): (r: (int, int, int, int))
    requires forall c :: c in s ==> 0 <= c.x < I32_MAX && 0 <= c.y < I32_MAX
    ensures ExtentOf(s, r.0, r.1, r.2, r.3)
  {
    ExtentExists(s);
    var xMin, yMin, xMax, yMax :| ExtentOf(s, xMin, yMin, xMax, yMax);
    (xMin, yMin, xMax, yMax)
  }

  /** Every set of cells of an `i32` grid has an extent. */
  lemma {:induction false} ExtentExists(s: set<Coord>)
    requires forall c :: c in s ==> 0 <= c.x < I32_MAX && 0 <= c.y < I32_MAX
    ensures exists xMin, yMin, xMax, yMax :: ExtentOf(s, xMin, yMin, xMax, yMax)
    decreases |s|
  {
    if s == {} {
      assert ExtentOf(s, I32_MAX, I32_MAX, I32_MIN, I32_MIN);
    } else {
      var c :| c in s;
      ExtentExists(s - {c});
      var a, b, d, e :| ExtentOf(s - {c}, a, b, d, e);
      ExtentAdd(s - {c}, c, a, b, d, e);
      assert s - {c} + {c} == s;
    }
  }

  /** A set of cells has only one extent. */
  lemma ExtentUnique(s: set<Coord>, a: (int, int, int, int), b: (int, int, int, int))
    requires ExtentOf(s, a.0, a.1, a.2, a.3) && ExtentOf(s, b.0, b.1, b.2, b.3)
    ensures a == b
  {
    if s != {} {
      var p0 :| p0 in s && p0.x == a.0;
      var q0 :| q0 in s && q0.x == b.0;
      var p1 :| p1 in s && p1.y == a.1;
      var q1 :| q1 in s && q1.y == b.1;
      var p2 :| p2 in s && p2.x == a.2;
      var q2 :| q2 in s && q2.x == b.2;
      var p3 :| p3 in s && p3.y == a.3;
      var q3 :| q3 in s && q3.y == b.3;
    }
  }

  /** `xMin`, `yMin`, `xMax` and `yMax` are the least and greatest
      coordinates of the cells of `s`, or the starting values `i32::MAX`
      and `i32::MIN` when `s` is empty. */
  ghost predicate ExtentOf(s: set<Coord>, xMin: int, yMin: int, xMax: int, yMax: int) {
    && (forall c :: c in s ==> xMin <= c.x <= xMax && yMin <= c.y <= yMax)
    && (s == {} ==> xMin == I32_MAX && yMin == I32_MAX && xMax == I32_MIN && yMax == I32_MIN)
    && (s != {} ==> 0 <= xMin <= xMax < I32_MAX && 0 <= yMin <= yMax < I32_MAX)
    && (s != {} ==> (exists c :: c in s && c.x == xMin) && (exists c :: c in s && c.y == yMin))
    && (s != {} ==> (exists c :: c in s && c.x == xMax) && (exists c :: c in s && c.y == yMax))
  }

  /** Taking one more cell into account moves each extreme to it or keeps
      it. */
  lemma ExtentAdd(s: set<Coord>, c: Coord, xMin: int, yMin: int, xMax: int, yMax: int)
    requires ExtentOf(s, xMin, yMin, xMax, yMax) && c !in s
    requires 0 <= c.x < I32_MAX && 0 <= c.y < I32_MAX
    ensures ExtentOf(s + {c}, Min(xMin, c.x), Min(yMin, c.y), Max(xMax, c.x), Max(yMax, c.y))
  {
    if s != {} {
      var a :| a in s && a.x == xMin;
      var b :| b in s && b.y == yMin;
      var d :| d in s && d.x == xMax;
      var e :| e in s && e.y == yMax;
      assert (if c.x < xMin then c else a) in s + {c};
      assert (if c.y < yMin then c else b) in s + {c};
      assert (if c.x > xMax then c else d) in s + {c};
      assert (if c.y > yMax then c else e) in s + {c};
    } else {
      assert c in s + {c};
    }
  }

  /** The least and greatest `x` and `y` of the cells of `b`, one cell at
      a time from `i32::MAX` and `i32::MIN`. */
  method Extent(b: Block) returns (xMin: int, yMin: int, xMax: int, yMax: int)
    requires InI32Range(b)
    ensures ExtentOf(b.coords, xMin, yMin, xMax, yMax)
  {
    xMin, yMin, xMax, yMax := I32_MAX, I32_MAX, I32_MIN, I32_MIN;
    var rest := b.coords;
    ghost var done: set<Coord> := {};
    while rest != {}
      invariant rest <= b.coords && done == b.coords - rest
      invariant ExtentOf(done, xMin, yMin, xMax, yMax)
      decreases |rest|
    {
      var c :| c in rest;
      ExtentAdd(done, c, xMin, yMin, xMax, yMax);
      xMin := Min(xMin, c.x);
      yMin := Min(yMin, c.y);
      xMax := Max(xMax, c.x);
      yMax := Max(yMax, c.y);
      rest := rest - {c};
      done := done + {c};
    }
    assert done == b.coords;
  }

  /** `gen_range(lo..=hi)` for draw `d`. */
  function DrawInclusive(lo: int, hi: int, d: nat): (r: int)
    requires lo <= hi
    ensures lo <= r <= hi
  {
    lo + d % (hi - lo + 1)
  }

  /** A cut of a block: the two parts kept for further splitting and the
      cells that become wall. */
  datatype Cut = Cut(part1: Block, part2: Block, wall: set<Coord>)

  /** Whether `split_floor_block` cuts across the width of `bb`. */
  predicate Wide(bb: CityStreets.Rect) {
    bb.size.width > 3 * bb.size.height / 2
  }

  /** The line of the corridor of `split_floor_block` for draw `d`: a
      column at least three cells in from the left and six from the right
      of `bb`, or a row two in from the top and four from the bottom. */
  function CorridorLine(bb: CityStreets.Rect, d: nat): int
    requires bb.size.height > 7 && bb.size.width > 11
  {
    if Wide(bb) then DrawInclusive(bb.coord.x + 3, bb.BottomRight().x - 6, d)
    else DrawInclusive(bb.coord.y + 2, bb.BottomRight().y - 4, d)
  }

  /** Walls on column (or row) `k` and on `k + 2`, the cells before the
      first as one part and the cells after the second as the other. */
  function CorridorAt(block: Block, wide: bool, k: int): Cut {
    if wide then
      var split1 := SplitVertical(block, k);
      var split2 := SplitVertical(split1.block2, k + 2);
      Cut(split1.block1, split2.block2, split1.wall + split2.wall)
    else
      var split1 := SplitHorizontal(block, k);
      var split2 := SplitHorizontal(split1.block2, k + 2);
      Cut(split1.block1, split2.block2, split1.wall + split2.wall)
  }

  /** The corridor of `split_floor_block` for draw `d`. */
  function CorridorCut(block: Block, bb: CityStreets.Rect, d: nat): Cut
    requires bb.size.height > 7 && bb.size.width > 11
  {
    CorridorAt(block, Wide(bb), CorridorLine(bb, d))
  }

  /** The line of the single wall of `split_floor_block` for draw `d`:
      at least five columns (three rows) in from either side of `bb`. */
  function WallLine(bb: CityStreets.Rect, d: nat): int
    requires bb.size.height >= 2 && bb.size.width >= 2 && (bb.size.height > 6 || bb.size.width > 10)
  {
    if Wide(bb) then DrawInclusive(bb.coord.x + 5, bb.BottomRight().x - 5, d)
    else DrawInclusive(bb.coord.y + 3, bb.BottomRight().y - 3, d)
  }

  /** A wall on column (or row) `k` with the cells on either side as the
      parts. */
  function WallAt(block: Block, wide: bool, k: int): Cut {
    var split := if wide then SplitVertical(block, k) else SplitHorizontal(block, k);
    Cut(split.block1, split.block2, split.wall)
  }

  /** The single wall of `split_floor_block` for draw `d`. */
  function WallCut(block: Block, bb: CityStreets.Rect, d: nat): Cut
    requires bb.size.height >= 2 && bb.size.width >= 2 && (bb.size.height > 6 || bb.size.width > 10)
  {
    WallAt(block, Wide(bb), WallLine(bb, d))
  }

  /** The corridor walls up the block's cells on the drawn line `k` and
      on `k + 2`; the parts are its cells before `k` and after `k + 2`,
      and the line between keeps its tiles. */
  lemma CorridorCutMeaning(block: Block, bb: CityStreets.Rect, d: nat)
    requires bb.size.height > 7 && bb.size.width > 11
    ensures var r := CorridorCut(block, bb, d);
      var k := CorridorLine(bb, d);
      forall c :: c in block.coords ==>
        var at := if Wide(bb) then c.x else c.y;
        && (c in r.wall <==> at == k || at == k + 2)
        && (c in r.part1.coords <==> at < k)
        && (c in r.part2.coords <==> at > k + 2)
    ensures CorridorCut(block, bb, d).wall <= block.coords
    ensures CorridorCut(block, bb, d).part1.coords <= block.coords
    ensures CorridorCut(block, bb, d).part2.coords <= block.coords
  {
  }

  /** The single cut walls up the block's cells on the drawn line and
      parts the cells on either side. */
  lemma WallCutMeaning(block: Block, bb: CityStreets.Rect, d: nat)
    requires bb.size.height >= 2 && bb.size.width >= 2 && (bb.size.height > 6 || bb.size.width > 10)
    ensures var r := WallCut(block, bb, d);
      var k := WallLine(bb, d);
      forall c :: c in block.coords ==>
        var at := if Wide(bb) then c.x else c.y;
        && (c in r.wall <==> at == k)
        && (c in r.part1.coords <==> at < k)
        && (c in r.part2.coords <==> at > k)
    ensures WallCut(block, bb, d).wall <= block.coords
    ensures WallCut(block, bb, d).part1.coords <= block.coords
    ensures WallCut(block, bb, d).part2.coords <= block.coords
  {
  }

  /** Both parts of a corridor cut miss a side of the bounding box, so
      each is smaller than the block. */
  lemma CorridorCutSmaller(block: Block, bb: CityStreets.Rect, d: nat)
    requires Tight(block, bb) && bb.size.height > 7 && bb.size.width > 11
    ensures var r := CorridorCut(block, bb, d);
      && r.part1.coords <= block.coords && |r.part1.coords| < |block.coords|
      && r.part2.coords <= block.coords && |r.part2.coords| < |block.coords|
      && r.wall <= block.coords
  {
    var r := CorridorCut(block, bb, d);
    if Wide(bb) {
      ProperPart(block, r.part1.coords, bb.BottomRight().x, true);
      ProperPart(block, r.part2.coords, bb.coord.x, true);
    } else {
      ProperPart(block, r.part1.coords, bb.BottomRight().y, false);
      ProperPart(block, r.part2.coords, bb.coord.y, false);
    }
  }

  /** Both sides of a single cut miss a side of the bounding box. */
  lemma WallCutSmaller(block: Block, bb: CityStreets.Rect, d: nat)
    requires Tight(block, bb) && bb.size.height >= 2 && bb.size.width >= 2 && (bb.size.height > 6 || bb.size.width > 10)
    ensures var r := WallCut(block, bb, d);
      && r.part1.coords <= block.coords && |r.part1.coords| < |block.coords|
      && r.part2.coords <= block.coords && |r.part2.coords| < |block.coords|
      && r.wall <= block.coords
  {
    var r := WallCut(block, bb, d);
    if Wide(bb) {
      ProperPart(block, r.part1.coords, bb.BottomRight().x, true);
      ProperPart(block, r.part2.coords, bb.coord.x, true);
    } else {
      ProperPart(block, r.part1.coords, bb.BottomRight().y, false);
      ProperPart(block, r.part2.coords, bb.coord.y, false);
    }
  }

  /** A block of cells of `g`, whose sides fit in `i32`. */
  predicate BlockIn(g: Grid<Tile3>, b: Block) {
    && g.Valid() && g.size.width < I32_MAX && g.size.height < I32_MAX
    && forall c :: c in b.coords ==> IsValid(c, g.size)
  }

  /** `bb` is a bounding box of `b` as `bounding_box` gives it: every
      side attained by a cell, or the two by two square when `b` is
      empty. */
  ghost predicate BoxOf(b: Block, bb: CityStreets.Rect) {
    && bb.size.width >= 1 && bb.size.height >= 1
    && (b.coords != {} ==> Tight(b, bb))
    && (b.coords == {} ==> bb.size == Size(2, 2))
  }

  /** What `split_floor_block` does to a block with bounding box `bb`
      from draw position `pos`: nothing when the box is one cell across; a
      corridor when it is more than 7 by 11, the coin drawn first comes up
      and the depth is positive; otherwise a single wall when it is more
      than 6 high or 10 wide; and the draw position after the draws it
      takes. */
  ghost function CutOf(block: Block, bb: CityStreets.Rect, depth: nat, draws: nat -> nat, pos: nat): (Option<Cut>, nat)
    requires bb.size.width >= 1 && bb.size.height >= 1
  {
    var w, h := bb.size.width, bb.size.height;
    if h == 1 || w == 1 then (None, pos)
    else
      var coinDrawn := h > 7 && w > 11;
      var p1 := if coinDrawn then pos + 1 else pos;
      if coinDrawn && draws(pos) % 2 == 0 && depth > 0 then (Some(CorridorCut(block, bb, draws(p1))), p1 + 1)
      else if h > 6 || w > 10 then (Some(WallCut(block, bb, draws(p1))), p1 + 1)
      else (None, p1)
  }

  /** Every cut is of cells of the block, and leaves parts smaller than
      it. */
  lemma CutOfSmaller(block: Block, bb: CityStreets.Rect, depth: nat, draws: nat -> nat, pos: nat)
    requires BoxOf(block, bb)
    ensures var r := CutOf(block, bb, depth, draws, pos);
      r.0.Some? ==>
        && r.0.value.wall <= block.coords
        && r.0.value.part1.coords <= block.coords && |r.0.value.part1.coords| < |block.coords|
        && r.0.value.part2.coords <= block.coords && |r.0.value.part2.coords| < |block.coords|
  {
    var w, h := bb.size.width, bb.size.height;
    if h != 1 && w != 1 {
      var coinDrawn := h > 7 && w > 11;
      var p1 := if coinDrawn then pos + 1 else pos;
      if coinDrawn && draws(pos) % 2 == 0 && depth > 0 {
        CorridorCutSmaller(block, bb, draws(p1));
      } else if h > 6 || w > 10 {
        WallCutSmaller(block, bb, draws(p1));
      }
    }
  }

  /** `CutOf` for a box one cell across. */
  lemma CutOfThin(block: Block, bb: CityStreets.Rect, depth: nat, draws: nat -> nat, pos: nat)
    requires bb.size.width >= 1 && bb.size.height >= 1 && (bb.size.height == 1 || bb.size.width == 1)
    ensures CutOf(block, bb, depth, draws, pos) == (None, pos)
  {
  }

  /** `CutOf` when the coin is drawn. */
  lemma CutOfCoin(block: Block, bb: CityStreets.Rect, depth: nat, draws: nat -> nat, pos: nat)
    requires bb.size.height > 7 && bb.size.width > 11
    ensures CutOf(block, bb, depth, draws, pos) ==
      if draws(pos) % 2 == 0 && depth > 0 then (Some(CorridorCut(block, bb, draws(pos + 1))), pos + 2)
      else (Some(WallCut(block, bb, draws(pos + 1))), pos + 2)
  {
  }

  /** `split_floor_block` passes over the corridor and draws its single
      wall at `q`: after a coin that did not allow a corridor, or without
      a coin. */
  predicate WallDrawnAt(bb: CityStreets.Rect, depth: nat, draws: nat -> nat, pos: nat, q: nat) {
    if bb.size.height > 7 && bb.size.width > 11
    then q == pos + 1 && !(draws(pos) % 2 == 0 && depth > 0)
    else q == pos
  }

  /** `CutOf` when it comes to a single wall, drawn at `q`. */
  lemma CutOfWall(block: Block, bb: CityStreets.Rect, depth: nat, draws: nat -> nat, pos: nat, q: nat)
    requires bb.size.height >= 2 && bb.size.width >= 2 && (bb.size.height > 6 || bb.size.width > 10)
    requires WallDrawnAt(bb, depth, draws, pos, q)
    ensures CutOf(block, bb, depth, draws, pos) == (Some(WallCut(block, bb, draws(q))), q + 1)
  {
  }

  /** `CutOf` when no coin is drawn. */
  lemma CutOfNoCoin(block: Block, bb: CityStreets.Rect, depth: nat, draws: nat -> nat, pos: nat)
    requires bb.size.height > 1 && bb.size.width > 1 && !(bb.size.height > 7 && bb.size.width > 11)
    ensures CutOf(block, bb, depth, draws, pos) ==
      if bb.size.height > 6 || bb.size.width > 10 then (Some(WallCut(block, bb, draws(pos))), pos + 1)
      else (None, pos)
  {
  }

  /** The grid and draw position after `split_floor_block(block, depth)`
      from grid `g` and draw position `pos`. */
  ghost function SplitBlock(g: Grid<Tile3>, block: Block, depth: nat, draws: nat -> nat, pos: nat): (r: (Grid<Tile3>, nat))
    requires BlockIn(g, block)
    ensures BlockIn(r.0, block) && r.0.size == g.size
    decreases |block.coords|
  {
    BoxMeaning(block);
    CutOfSmaller(block, Box(block), depth, draws, pos);
    var c := CutOf(block, Box(block), depth, draws, pos);
    if c.0.None? then (g, c.1)
    else SplitParts(Overwrite(g, c.0.value.wall, Wall), block, c.0.value.part1, c.0.value.part2, depth + 1, draws, c.1)
  }

  /** `SplitBlock` when the block is cut. */
  lemma SplitBlockCut(g: Grid<Tile3>, block: Block, depth: nat, draws: nat -> nat, pos: nat, cut: Cut, p: nat)
    requires BlockIn(g, block)
    requires BoxOf(block, Box(block)) && CutOf(block, Box(block), depth, draws, pos) == (Some(cut), p)
    ensures cut.part1.coords <= block.coords && |cut.part1.coords| < |block.coords|
    ensures cut.part2.coords <= block.coords && |cut.part2.coords| < |block.coords|
    ensures SplitBlock(g, block, depth, draws, pos)
      == SplitParts(Overwrite(g, cut.wall, Wall), block, cut.part1, cut.part2, depth + 1, draws, p)
  {
    CutOfSmaller(block, Box(block), depth, draws, pos);
  }

  /** Splitting the two parts of a cut in turn. */
  ghost function SplitParts(g: Grid<Tile3>, block: Block, part1: Block, part2: Block, depth: nat, draws: nat -> nat, pos: nat): (r: (Grid<Tile3>, nat))
    requires BlockIn(g, block)
    requires part1.coords <= block.coords && |part1.coords| < |block.coords|
    requires part2.coords <= block.coords && |part2.coords| < |block.coords|
    ensures BlockIn(r.0, block) && r.0.size == g.size
    decreases |block.coords|, 0
  {
    var r1 := SplitBlock(g, part1, depth, draws, pos);
    SplitBlock(r1.0, part2, depth, draws, r1.1)
  }

  /** Every cell of `h` is as in `g`, or a wall of `cells`. */
  ghost predicate OnlyWalled(g: Grid<Tile3>, h: Grid<Tile3>, cells: set<Coord>)
    requires g.Valid() && h.Valid() && h.size == g.size
  {
    forall c :: IsValid(c, g.size) ==> h.At(c) == g.At(c) || (c in cells && h.At(c) == Wall)
  }

  /** `split_floor_block` changes only cells of the block, and only into
      wall. */
  lemma {:induction false} SplitBlockOnlyWalls(g: Grid<Tile3>, block: Block, depth: nat, draws: nat -> nat, pos: nat)
    requires BlockIn(g, block)
    ensures OnlyWalled(g, SplitBlock(g, block, depth, draws, pos).0, block.coords)
    decreases |block.coords|
  {
    BoxMeaning(block);
    CutOfSmaller(block, Box(block), depth, draws, pos);
    var c := CutOf(block, Box(block), depth, draws, pos);
    if c.0.Some? {
      SplitPartsOnlyWalls(g, block, c.0.value, depth + 1, draws, c.1);
    }
  }

  lemma {:induction false} SplitPartsOnlyWalls(g: Grid<Tile3>, block: Block, cut: Cut, depth: nat, draws: nat -> nat, pos: nat)
    requires BlockIn(g, block) && cut.wall <= block.coords
    requires cut.part1.coords <= block.coords && |cut.part1.coords| < |block.coords|
    requires cut.part2.coords <= block.coords && |cut.part2.coords| < |block.coords|
    ensures OnlyWalled(g, SplitParts(Overwrite(g, cut.wall, Wall), block, cut.part1, cut.part2, depth, draws, pos).0, block.coords)
    decreases |block.coords|, 0
  {
    var g0 := Overwrite(g, cut.wall, Wall);
    var r1 := SplitBlock(g0, cut.part1, depth, draws, pos);
    SplitBlockOnlyWalls(g0, cut.part1, depth, draws, pos);
    SplitBlockOnlyWalls(r1.0, cut.part2, depth, draws, r1.1);
    var r2 := SplitBlock(r1.0, cut.part2, depth, draws, r1.1);
    assert SplitParts(g0, block, cut.part1, cut.part2, depth, draws, pos).0 == r2.0;
    forall c | IsValid(c, g.size)
      ensures r2.0.At(c) == g.At(c) || (c in block.coords && r2.0.At(c) == Wall)
    {
      assert g0.At(c) == if c in cut.wall then Wall else g.At(c);
    }
  }

  /** The wall cells of a grid: what `blocks` flood-fills. */
  function WallSet(g: Grid<Tile3>): (r: set<Coord>)
    requires g.Valid()
    ensures forall c :: c in r <==> IsValid(c, g.size) && g.At(c) == Wall
  {
    set c | c in AllCoords(g.size) && g.At(c) == Wall
  }

  /** The cell sets of the blocks. */
  function Cells(bs: seq<Block>): (r: seq<set<Coord>>)
    ensures |r| == |bs| && forall i :: 0 <= i < |bs| ==> r[i] == bs[i].coords
  {
    seq(|bs|, i requires 0 <= i < |bs| => bs[i].coords)
  }

  /** A wall cell whose eight neighbours are all wall inside the grid. */
  predicate IsInterior(g: Grid<Tile3>, c: Coord)
    requires g.Valid()
  {
    IsValid(c, g.size) && g.At(c) == Wall && CountAround(g, c, {Wall}, ALL_DELTAS) == 8
  }

  /** A cell after `add_floor`. */
  function FlooredCell(g: Grid<Tile3>, c: Coord): Tile3
    requires g.Valid()
  {
    if IsInterior(g, c) then Floor else g.GetOr(c, Wall)
  }

  function FloorRule(g: Grid<Tile3>): Coord -> Tile3
    requires g.Valid()
  {
    (c: Coord) => FlooredCell(g, c)
  }

  ghost function Floored(g: Grid<Tile3>): (r: Grid<Tile3>)
    requires g.Valid()
    ensures r.Valid() && r.size == g.size
  {
    Tabulate(g.size, FloorRule(g))
  }

  /** `add_floor` turns a wall into floor exactly when all eight of its
      neighbours are walls inside the grid; nothing else changes. */
  lemma FloorCarving(g: Grid<Tile3>, c: Coord)
    requires g.Valid() && IsValid(c, g.size)
    ensures Floored(g).At(c) != g.At(c) <==>
      g.At(c) == Wall && forall k :: 0 <= k < 8 ==> g.Get(c.Add(ALL_DELTAS[k])) == Some(Wall)
    ensures Floored(g).At(c) != g.At(c) ==> Floored(g).At(c) == Floor
  {
    CountAroundFull(g, c, {Wall}, ALL_DELTAS);
    assert Floored(g).At(c) == FlooredCell(g, c);
  }

  /** New floor touches only wall and floor: the carved rooms are closed. */
  lemma FloorEnclosed(g: Grid<Tile3>, c: Coord, k: nat)
    requires g.Valid() && IsValid(c, g.size) && g.At(c) == Wall && Floored(g).At(c) == Floor
    requires k < 8
    ensures IsValid(c.Add(ALL_DELTAS[k]), g.size)
    ensures Floored(g).At(c.Add(ALL_DELTAS[k])) in {Wall, Floor}
  {
    FloorCarving(g, c);
    var n := c.Add(ALL_DELTAS[k]);
    assert g.Get(n) == Some(Wall);
    FloorCarving(g, n);
  }

  /** The cells of `S` that `add_floor` carves. */
  ghost function InteriorOf(g: Grid<Tile3>, S: set<Coord>): set<Coord>
    requires g.Valid()
  {
    set c | c in S && IsInterior(g, c)
  }

  /** `fbs` is, block by block, the interior of a partition of the walls
      into their components: one floor block per component. */
  ghost predicate InteriorsOfBlocks(g: Grid<Tile3>, fbs: seq<Block>)
    requires g.Valid()
  {
    exists blocks: seq<Block> :: Partitioned(WallSet(g), ALL_DELTAS, Cells(blocks)) && |fbs| == |blocks|
      && forall k :: 0 <= k < |fbs| ==> fbs[k].coords == InteriorOf(g, blocks[k].coords)
  }

  /** Each of `fbs` is the interior of a component of the walls, and
      together they hold every interior cell. */
  ghost predicate FloorsOfComponents(g: Grid<Tile3>, fbs: seq<Block>)
    requires g.Valid()
  {
    && (forall i :: 0 <= i < |fbs| ==>
          exists S :: IsComponent(WallSet(g), ALL_DELTAS, S) && fbs[i].coords == InteriorOf(g, S))
    && (forall c :: IsInterior(g, c) ==> c in Union(Cells(fbs)))
  }

  /** The interiors of the blocks of a partition of the walls, block by
      block, are the floors of components. */
  lemma FloorsFromBlocks(g: Grid<Tile3>, blocks: seq<Block>, fbs: seq<Block>)
    requires g.Valid() && Partitioned(WallSet(g), ALL_DELTAS, Cells(blocks))
    requires |fbs| == |blocks| && forall k :: 0 <= k < |fbs| ==> fbs[k].coords == InteriorOf(g, blocks[k].coords)
    ensures FloorsOfComponents(g, fbs)
  {
    FloorsAreOfComponents(g, blocks, fbs);
    InteriorsCovered(g, blocks, fbs);
  }

  lemma FloorsAreOfComponents(g: Grid<Tile3>, blocks: seq<Block>, fbs: seq<Block>)
    requires g.Valid() && Partitioned(WallSet(g), ALL_DELTAS, Cells(blocks))
    requires |fbs| == |blocks| && forall k :: 0 <= k < |fbs| ==> fbs[k].coords == InteriorOf(g, blocks[k].coords)
    ensures forall i :: 0 <= i < |fbs| ==>
      exists S :: IsComponent(WallSet(g), ALL_DELTAS, S) && fbs[i].coords == InteriorOf(g, S)
  {
    forall k | 0 <= k < |fbs|
      ensures exists S :: IsComponent(WallSet(g), ALL_DELTAS, S) && fbs[k].coords == InteriorOf(g, S)
    {
      assert IsComponent(WallSet(g), ALL_DELTAS, Cells(blocks)[k]);
    }
  }

  lemma InteriorsCovered(g: Grid<Tile3>, blocks: seq<Block>, fbs: seq<Block>)
    requires g.Valid() && Partitioned(WallSet(g), ALL_DELTAS, Cells(blocks))
    requires |fbs| == |blocks| && forall k :: 0 <= k < |fbs| ==> fbs[k].coords == InteriorOf(g, blocks[k].coords)
    ensures forall c :: IsInterior(g, c) ==> c in Union(Cells(fbs))
  {
    forall c | IsInterior(g, c)
      ensures c in Union(Cells(fbs))
    {
      assert c in WallSet(g);
      UnionMember(Cells(blocks), c);
      var k :| 0 <= k < |blocks| && c in Cells(blocks)[k];
      assert c in Cells(fbs)[k];
      UnionMember(Cells(fbs), c);
    }
  }

  /** A cell after `clean_corridors`: a wall with wall on all four
      diagonals inside the grid becomes floor. */
  function CleanedCell(g: Grid<Tile3>, c: Coord): Tile3
    requires g.Valid()
  {
    var t := g.GetOr(c, Wall);
    if t == Wall && CountAround(g, c, {Wall}, DIAGONAL_DELTAS) == 4 then Floor else t
  }

  function CleanRule(g: Grid<Tile3>): Coord -> Tile3
    requires g.Valid()
  {
    (c: Coord) => CleanedCell(g, c)
  }

  ghost function Cleaned(g: Grid<Tile3>): (r: Grid<Tile3>)
    requires g.Valid()
    ensures r.Valid() && r.size == g.size
  {
    Tabulate(g.size, CleanRule(g))
  }

  /** `clean_corridors` turns a wall into floor exactly when all four of
      its diagonal neighbours are walls inside the grid; nothing else
      changes. */
  lemma CornerCleaning(g: Grid<Tile3>, c: Coord)
    requires g.Valid() && IsValid(c, g.size)
    ensures Cleaned(g).At(c) != g.At(c) <==>
      g.At(c) == Wall && forall k :: 0 <= k < 4 ==> g.Get(c.Add(DIAGONAL_DELTAS[k])) == Some(Wall)
    ensures Cleaned(g).At(c) != g.At(c) ==> Cleaned(g).At(c) == Floor
  {
    CountAroundFull(g, c, {Wall}, DIAGONAL_DELTAS);
    assert Cleaned(g).At(c) == CleanedCell(g, c);
  }

  /** The third city map. */
  class Map3 {
    var grid: Grid<Tile3>

    predicate Valid()
      reads this
    {
      grid.Valid() && grid.size.width < I32_MAX && grid.size.height < I32_MAX
    }

    /** `Map3::from_map2`. */
    constructor FromMap2(m2: CityFootpaths.Map2)
      requires m2.Valid() && m2.grid.size.width < I32_MAX && m2.grid.size.height < I32_MAX
      ensures Valid() && grid == FromGrid2(m2.grid)
    {
      grid := FromGrid2(m2.grid);
    }

    /** `blocks`: the wall cells, grouped into the components connected by
        king's moves. */
    method Blocks() returns (blocks: seq<Block>)
      requires Valid()
      ensures Partitioned(WallSet(grid), ALL_DELTAS, Cells(blocks))
    {
      KingMovesSymmetric();
      var comps := Components(WallSet(grid), ALL_DELTAS, grid.size);
      blocks := seq(|comps|, i requires 0 <= i < |comps| => Block(comps[i]));
      assert Cells(blocks) == comps;
    }

    /** The interior cells of a block, one cell at a time. */
    method FloorOf(b: Block) returns (f: Block)
      requires Valid()
      ensures f.coords == InteriorOf(grid, b.coords)
    {
      var rest := b.coords;
      var coords: set<Coord> := {};
      while rest != {}
        invariant rest <= b.coords
        invariant coords == InteriorOf(grid, b.coords - rest)
        decreases |rest|
      {
        var c :| c in rest;
        if IsInterior(grid, c) {
          coords := coords + {c};
        }
        rest := rest - {c};
      }
      f := Block(coords);
    }

    /** The part of each block that `add_floor` carves. */
    method FloorBlocks() returns (floorBlocks: seq<Block>)
      requires Valid()
      ensures InteriorsOfBlocks(grid, floorBlocks)
      ensures FloorsOfComponents(grid, floorBlocks)
    {
      var blocks := Blocks();
      floorBlocks := FloorsOf(blocks);
      FloorsFromBlocks(grid, blocks, floorBlocks);
    }

    /** The interior of each block, block by block. */
    method FloorsOf(blocks: seq<Block>) returns (floorBlocks: seq<Block>)
      requires Valid()
      ensures |floorBlocks| == |blocks|
      ensures forall k :: 0 <= k < |blocks| ==> floorBlocks[k].coords == InteriorOf(grid, blocks[k].coords)
    {
      floorBlocks := [];
      var i := 0;
      while i < |blocks|
        invariant 0 <= i <= |blocks| && |floorBlocks| == i
        invariant forall k :: 0 <= k < i ==> floorBlocks[k].coords == InteriorOf(grid, blocks[k].coords)
      {
        var f := FloorOf(blocks[i]);
        floorBlocks := floorBlocks + [f];
        i := i + 1;
      }
    }

    /** `add_floor`: carves the inside of every block into floor and
        returns, block by block, the carved cells. */
    method AddFloor() returns (floorBlocks: seq<Block>)
      requires Valid()
      modifies this
      ensures Valid() && grid == Floored(old(grid))
      ensures InteriorsOfBlocks(old(grid), floorBlocks)
      ensures FloorsOfComponents(old(grid), floorBlocks)
    {
      floorBlocks := FloorBlocks();
      grid := Rebuild(grid, FloorRule(grid));
    }

    /** Walls up every cell of `cells`. */
    method WallUp(cells: set<Coord>)
      requires Valid() && forall c :: c in cells ==> IsValid(c, grid.size)
      modifies this
      ensures Valid() && grid == Overwrite(old(grid), cells, Wall)
    {
      var rest := cells;
      while rest != {}
        invariant rest <= cells
        invariant Valid() && grid.size == old(grid.size)
        invariant forall c :: IsValid(c, grid.size) ==> grid.At(c) == if c in cells - rest then Wall else old(grid).At(c)
        decreases |rest|
      {
        var c :| c in rest;
        grid := grid.Set(c, Wall);
        rest := rest - {c};
      }
      GridExt(grid, Overwrite(old(grid), cells, Wall));
    }

    /** `split_floor_block`: a block more than one cell across is split,
        once `depth` is positive and a coin allows, by a corridor two walls
        apart when it is more than 7 high and 11 wide, or else by a single
        wall when it is more than 6 high or 10 wide; the cut runs across
        the longer side, at a drawn position, and the parts are split in
        turn (see `SplitBlock` and `SplitBlockOnlyWalls`). */
    method SplitFloorBlock(block: Block, depth: nat, rng: Rng)
      requires BlockIn(grid, block)
      modifies this, rng
      ensures Valid()
      ensures (grid, rng.position) == SplitBlock(old(grid), block, depth, rng.draws, old(rng.position))
      decreases |block.coords|
    {
      ghost var g0, p0 := grid, rng.position;
      var bb := BoundingBox(block);
      BoxMeaning(block);
      var w, h := bb.size.width, bb.size.height;
      if h == 1 || w == 1 {
        CutOfThin(block, bb, depth, rng.draws, p0);
        return;
      }
      var corridor := false;
      if h > 7 && w > 11 {
        var coin := rng.Coin();
        corridor := coin && depth > 0;
      }
      if corridor {
        CorridorAndSplit(block, bb, depth, rng, p0);
      } else if h > 6 || w > 10 {
        WallAndSplit(block, bb, depth, rng, p0);
      } else {
        CutOfNoCoin(block, bb, depth, rng.draws, p0);
      }
    }

    /** The corridor `split_floor_block` cuts once its coin has come up,
        and the splitting of the parts beyond it. */
    method CorridorAndSplit(block: Block, bb: CityStreets.Rect, depth: nat, rng: Rng, ghost p0: nat)
      requires BlockIn(grid, block) && bb == Box(block) && BoxOf(block, bb)
      requires bb.size.height > 7 && bb.size.width > 11
      requires rng.position == p0 + 1 && rng.draws(p0) % 2 == 0 && depth > 0
      modifies this, rng
      ensures Valid()
      ensures (grid, rng.position) == SplitBlock(old(grid), block, depth, rng.draws, p0)
      decreases |block.coords|, 1
    {
      CutOfCoin(block, bb, depth, rng.draws, p0);
      assert rng.Peek() == rng.draws(p0 + 1);
      ghost var g0, q := grid, rng.position + 1;
      ghost var cut := CorridorCut(block, bb, rng.Peek());
      SplitBlockCut(g0, block, depth, rng.draws, p0, cut, q);
      ghost var target := SplitBlock(g0, block, depth, rng.draws, p0);
      var b1, b2 := CutCorridor(block, bb, rng);
      assert grid == Overwrite(g0, cut.wall, Wall) && b1 == cut.part1 && b2 == cut.part2 && rng.position == q;
      SplitBoth(block, b1, b2, depth + 1, rng);
      assert (grid, rng.position) == target;
    }

    /** The single wall `split_floor_block` cuts otherwise, and the
        splitting of the two sides. */
    method WallAndSplit(block: Block, bb: CityStreets.Rect, depth: nat, rng: Rng, ghost p0: nat)
      requires BlockIn(grid, block) && bb == Box(block) && BoxOf(block, bb)
      requires bb.size.height >= 2 && bb.size.width >= 2 && (bb.size.height > 6 || bb.size.width > 10)
      requires WallDrawnAt(bb, depth, rng.draws, p0, rng.position)
      modifies this, rng
      ensures Valid()
      ensures (grid, rng.position) == SplitBlock(old(grid), block, depth, rng.draws, p0)
      decreases |block.coords|, 1
    {
      CutOfWall(block, bb, depth, rng.draws, p0, rng.position);
      assert rng.Peek() == rng.draws(rng.position);
      ghost var g0, q := grid, rng.position + 1;
      ghost var cut := WallCut(block, bb, rng.Peek());
      SplitBlockCut(g0, block, depth, rng.draws, p0, cut, q);
      ghost var target := SplitBlock(g0, block, depth, rng.draws, p0);
      var b1, b2 := CutOnce(block, bb, rng);
      assert grid == Overwrite(g0, cut.wall, Wall) && b1 == cut.part1 && b2 == cut.part2 && rng.position == q;
      SplitBoth(block, b1, b2, depth + 1, rng);
      assert (grid, rng.position) == target;
    }

    /** Splits the two parts of a cut in turn. */
    method SplitBoth(block: Block, b1: Block, b2: Block, depth: nat, rng: Rng)
      requires BlockIn(grid, block)
      requires b1.coords <= block.coords && |b1.coords| < |block.coords|
      requires b2.coords <= block.coords && |b2.coords| < |block.coords|
      modifies this, rng
      ensures Valid()
      ensures (grid, rng.position) == SplitParts(old(grid), block, b1, b2, depth, rng.draws, old(rng.position))
      decreases |block.coords|, 0
    {
      SplitFloorBlock(b1, depth, rng);
      SplitFloorBlock(b2, depth, rng);
    }

    /** The corridor cut of `split_floor_block`: its walls become wall and
        the parts beyond the corridor are returned. */
    method CutCorridor(block: Block, bb: CityStreets.Rect, rng: Rng) returns (b1: Block, b2: Block)
      requires BlockIn(grid, block)
      requires bb.size.height > 7 && bb.size.width > 11
      modifies this, rng
      ensures Valid() && rng.position == old(rng.position) + 1
      ensures var cut := CorridorCut(block, bb, old(rng.Peek()));
        grid == Overwrite(old(grid), cut.wall, Wall) && b1 == cut.part1 && b2 == cut.part2
    {
      var k;
      if Wide(bb) {
        k := rng.GenRange(bb.coord.x + 3, bb.BottomRight().x - 6 + 1);
      } else {
        k := rng.GenRange(bb.coord.y + 2, bb.BottomRight().y - 4 + 1);
      }
      ghost var d := old(rng.Peek());
      assert k == CorridorLine(bb, d);
      var split1, split2;
      if Wide(bb) {
        split1 := SplitVertical(block, k);
        split2 := SplitVertical(split1.block2, k + 2);
      } else {
        split1 := SplitHorizontal(block, k);
        split2 := SplitHorizontal(split1.block2, k + 2);
      }
      assert CorridorCut(block, bb, d) == Cut(split1.block1, split2.block2, split1.wall + split2.wall);
      WallUp(split1.wall);
      WallUp(split2.wall);
      OverwriteTwice(old(grid), split1.wall, split2.wall, Wall);
      b1, b2 := split1.block1, split2.block2;
    }

    /** The single cut of `split_floor_block`: its wall becomes wall and
        the two sides are returned. */
    method CutOnce(block: Block, bb: CityStreets.Rect, rng: Rng) returns (b1: Block, b2: Block)
      requires BlockIn(grid, block)
      requires bb.size.height >= 2 && bb.size.width >= 2 && (bb.size.height > 6 || bb.size.width > 10)
      modifies this, rng
      ensures Valid() && rng.position == old(rng.position) + 1
      ensures var cut := WallCut(block, bb, old(rng.Peek()));
        grid == Overwrite(old(grid), cut.wall, Wall) && b1 == cut.part1 && b2 == cut.part2
    {
      var k;
      if Wide(bb) {
        k := rng.GenRange(bb.coord.x + 5, bb.BottomRight().x - 5 + 1);
      } else {
        k := rng.GenRange(bb.coord.y + 3, bb.BottomRight().y - 3 + 1);
      }
      ghost var d := old(rng.Peek());
      assert k == WallLine(bb, d);
      var split := if Wide(bb) then SplitVertical(block, k) else SplitHorizontal(block, k);
      assert WallCut(block, bb, d) == Cut(split.block1, split.block2, split.wall);
      WallUp(split.wall);
      b1, b2 := split.block1, split.block2;
    }

    /** `clean_corridors`. */
    method CleanCorridors()
      requires Valid()
      modifies this
      ensures Valid() && grid == Cleaned(old(grid))
    {
      grid := Rebuild(grid, CleanRule(grid));
    }
  }

  /** A part of a block that misses one of its cells, the one whose `x`
      (or `y`) is `k`, is smaller than the block. */
  lemma ProperPart(b: Block, part: set<Coord>, k: int, horizontal: bool)
    requires part <= b.coords
    requires exists c :: c in b.coords && (if horizontal then c.x else c.y) == k
    requires forall c :: c in part ==> (if horizontal then c.x else c.y) != k
    ensures |part| < |b.coords|
  {
    var c :| c in b.coords && (if horizontal then c.x else c.y) == k;
    assert b.coords == part + (b.coords - part);
    assert c in b.coords - part;
  }

  /** `Map3::generate` over one round of the earlier stages (`None` where
      that round would start over). */
  method Generate(rng: Rng) returns (r: Option<Map3>)
    modifies rng
    ensures r.Some? ==> fresh(r.value) && r.value.Valid() && r.value.grid.size == CityStreets.MAP1_SIZE
  {
    var m2 := CityFootpaths.Generate(rng);
    if m2.None? {
      return None;
    }
    var m3 := new Map3.FromMap2(m2.value);
    var floorBlocks := m3.AddFloor();
    var i := 0;
    while i < |floorBlocks|
      invariant 0 <= i <= |floorBlocks|
      invariant m3.Valid() && m3.grid.size == CityStreets.MAP1_SIZE
      invariant forall k :: 0 <= k < |floorBlocks| ==> forall c :: c in floorBlocks[k].coords ==> IsValid(c, m3.grid.size)
    {
      m3.SplitFloorBlock(floorBlocks[i], 0, rng);
      i := i + 1;
    }
    m3.CleanCorridors();
    return Some(m3);
  }
}
