/** Integer-grid geometry shared by the game and the generators: the
    `Coord`, `Size`, direction and `Grid` vocabulary of the game's
    coordinate crates, stated in Dafny's terms. */
module Geometry {
  import opened Wrappers

  datatype Coord = Coord(x: int, y: int) {
    function Add(d: Coord): Coord { Coord(x + d.x, y + d.y) }
    function Sub(d: Coord): Coord { Coord(x - d.x, y - d.y) }
  }

  /** A grid size; widths and heights are unsigned in the source. */
  datatype Size = Size(width: nat, height: nat)

  /** `Coord::is_valid(size)`: the coordinate lies inside a grid of this size. */
  predicate IsValid(c: Coord, s: Size) {
    0 <= c.x < s.width && 0 <= c.y < s.height
  }

  function Abs(n: int): nat { if n < 0 then -n else n }

  function ManhattanDistance(a: Coord, b: Coord): nat {
    Abs(a.x - b.x) + Abs(a.y - b.y)
  }

  /** Strict row-major order: the order in which grids are enumerated. */
  predicate Before(a: Coord, b: Coord) {
    a.y < b.y || (a.y == b.y && a.x < b.x)
  }

  datatype CardinalDirection = North | East | South | West

  datatype Direction =
    | DNorth | DNorthEast | DEast | DSouthEast | DSouth | DSouthWest | DWest | DNorthWest

  /** Unit step of a cardinal direction; y grows southwards. */
  function CardinalDelta(d: CardinalDirection): Coord {
    match d
    case North => Coord(0, -1)
    case East => Coord(1, 0)
    case South => Coord(0, 1)
    case West => Coord(-1, 0)
  }

  function DirectionDelta(d: Direction): Coord {
    match d
    case DNorth => Coord(0, -1)
    case DNorthEast => Coord(1, -1)
    case DEast => Coord(1, 0)
    case DSouthEast => Coord(1, 1)
    case DSouth => Coord(0, 1)
    case DSouthWest => Coord(-1, 1)
    case DWest => Coord(-1, 0)
    case DNorthWest => Coord(-1, -1)
  }

  /** The deltas of `CardinalDirection::all()`, in its order. */
  const CARDINAL_DELTAS: seq<Coord> := [Coord(0, -1), Coord(1, 0), Coord(0, 1), Coord(-1, 0)]

  /** The deltas of `Direction::all()`, in its order (clockwise from north). */
  const ALL_DELTAS: seq<Coord> :=
    [Coord(0, -1), Coord(1, -1), Coord(1, 0), Coord(1, 1),
     Coord(0, 1), Coord(-1, 1), Coord(-1, 0), Coord(-1, -1)]

  /** The four diagonal deltas. */
  const DIAGONAL_DELTAS: seq<Coord> := [Coord(1, -1), Coord(-1, -1), Coord(1, 1), Coord(-1, 1)]

  /** The neighbourhood relation of `ALL_DELTAS`: `b` is one king's move from `a`. */
  predicate KingAdjacent(a: Coord, b: Coord) {
    a != b && Abs(a.x - b.x) <= 1 && Abs(a.y - b.y) <= 1
  }

  lemma AllDeltasAreKingMoves(a: Coord, d: Coord)
    ensures d in ALL_DELTAS <==> KingAdjacent(a, a.Add(d))
  {
  }

  /** A grid stored row by row: `rows[y][x]` is the cell at `Coord(x, y)`. */
  datatype Grid<T> = Grid(size: Size, rows: seq<seq<T>>) {
    predicate Valid() {
      |rows| == size.height && forall y :: 0 <= y < |rows| ==> |rows[y]| == size.width
    }

    /** `Grid::get_checked`: the cell at an in-bounds coordinate. */
    function At(c: Coord): T
      requires Valid() && IsValid(c, size)
    {
      rows[c.y][c.x]
    }

    /** `Grid::get`: the cell, or `None` outside the grid. */
    function Get(c: Coord): Option<T>
      requires Valid()
    {
      if IsValid(c, size) then Some(At(c)) else None
    }

    /** The cell, or `default` outside the grid. */
    function GetOr(c: Coord, default: T): (r: T)
      requires Valid()
      ensures IsValid(c, size) ==> r == At(c)
      ensures !IsValid(c, size) ==> r == default
    {
      if IsValid(c, size) then At(c) else default
    }

    /** `*grid.get_checked_mut(c) = v`. */
    function Set(c: Coord, v: T): (g: Grid<T>)
      requires Valid() && IsValid(c, size)
      ensures g.Valid() && g.size == size
      ensures forall d {:trigger g.At(d)} :: IsValid(d, size) ==> g.At(d) == if d == c then v else At(d)
    {
      Grid(size, rows[c.y := rows[c.y][c.x := v]])
    }
  }

  /** `Grid::new_copy(size, v)`. */
  function Filled<T>(s: Size, v: T): (g: Grid<T>)
    ensures g.Valid() && g.size == s
    ensures forall c :: IsValid(c, s) ==> g.At(c) == v
  {
    Grid(s, seq(s.height, _ => seq(s.width, _ => v)))
  }

  /** `Grid::new_fn` over another grid's cells: `f` applied to every cell. */
  function MapGrid<A, B>(g: Grid<A>, f: A -> B): (r: Grid<B>)
    requires g.Valid()
    ensures r.Valid() && r.size == g.size
    ensures forall c {:trigger r.At(c)} :: IsValid(c, g.size) ==> r.At(c) == f(g.At(c))
  {
    Grid(g.size, seq(g.size.height, y requires 0 <= y < g.size.height =>
      seq(g.size.width, x requires 0 <= x < g.size.width => f(g.rows[y][x]))))
  }

  /** The cell at `c` is inside the grid and one of `ts`. */
  predicate HoldsAt<T(==)>(g: Grid<T>, c: Coord, ts: set<T>)
    requires g.Valid()
  {
    g.Get(c).Some? && g.Get(c).value in ts
  }

  /** How many of the steps `ds` from `c` land inside the grid on one of
      `ts`: the `Direction::all().filter(..).count()` of the generators. */
  function CountAround<T(==)>(g: Grid<T>, c: Coord, ts: set<T>, ds: seq<Coord>): (n: nat)
    requires g.Valid()
    ensures n <= |ds|
  {
    if ds == [] then 0
    else (if HoldsAt(g, c.Add(ds[0]), ts) then 1 else 0) + CountAround(g, c, ts, ds[1..])
  }

  /** The count is positive exactly when some step lands on one of `ts`. */
  lemma {:induction false} CountAroundPositive<T>(g: Grid<T>, c: Coord, ts: set<T>, ds: seq<Coord>)
    requires g.Valid()
    ensures CountAround(g, c, ts, ds) > 0 <==> exists k :: 0 <= k < |ds| && HoldsAt(g, c.Add(ds[k]), ts)
  {
    if ds != [] {
      CountAroundPositive(g, c, ts, ds[1..]);
      if HoldsAt(g, c.Add(ds[0]), ts) {
      } else if exists k :: 0 <= k < |ds| && HoldsAt(g, c.Add(ds[k]), ts) {
        var k :| 0 <= k < |ds| && HoldsAt(g, c.Add(ds[k]), ts);
        assert ds[1..][k - 1] == ds[k];
      }
    }
  }

  /** The count is full exactly when every step lands on one of `ts`. */
  lemma {:induction false} CountAroundFull<T>(g: Grid<T>, c: Coord, ts: set<T>, ds: seq<Coord>)
    requires g.Valid()
    ensures CountAround(g, c, ts, ds) == |ds| <==> forall k :: 0 <= k < |ds| ==> HoldsAt(g, c.Add(ds[k]), ts)
  {
    if ds != [] {
      CountAroundFull(g, c, ts, ds[1..]);
      if forall k :: 0 <= k < |ds| ==> HoldsAt(g, c.Add(ds[k]), ts) {
        forall k | 0 <= k < |ds[1..]|
          ensures HoldsAt(g, c.Add(ds[1..][k]), ts)
        {
          assert ds[1..][k] == ds[k + 1];
        }
      } else if HoldsAt(g, c.Add(ds[0]), ts) {
        var k :| 0 <= k < |ds| && !HoldsAt(g, c.Add(ds[k]), ts);
        assert ds[1..][k - 1] == ds[k];
      }
    }
  }

  /** The count depends only on the cells the steps land on. */
  lemma {:induction false} CountAroundSame<T>(g: Grid<T>, h: Grid<T>, c: Coord, ts: set<T>, ds: seq<Coord>)
    requires g.Valid() && h.Valid() && g.size == h.size
    requires forall k :: 0 <= k < |ds| ==> g.Get(c.Add(ds[k])) == h.Get(c.Add(ds[k]))
    ensures CountAround(g, c, ts, ds) == CountAround(h, c, ts, ds)
  {
    if ds != [] {
      assert g.Get(c.Add(ds[0])) == h.Get(c.Add(ds[0]));
      forall k | 0 <= k < |ds[1..]|
        ensures g.Get(c.Add(ds[1..][k])) == h.Get(c.Add(ds[1..][k]))
      {
        assert ds[1..][k] == ds[k + 1];
      }
      CountAroundSame(g, h, c, ts, ds[1..]);
    }
  }

  /** Every king's move has its reverse among `ALL_DELTAS`. */
  lemma AllDeltasSymmetric(d: Coord)
    requires d in ALL_DELTAS
    ensures Coord(-d.x, -d.y) in ALL_DELTAS
  {
  }

  /** Two valid grids of one size are equal when they agree on every cell. */
  lemma GridExt<T>(a: Grid<T>, b: Grid<T>)
    requires a.Valid() && b.Valid() && a.size == b.size
    requires forall c :: IsValid(c, a.size) ==> a.At(c) == b.At(c)
    ensures a == b
  {
    forall y | 0 <= y < |a.rows|
      ensures a.rows[y] == b.rows[y]
    {
      forall x | 0 <= x < |a.rows[y]|
        ensures a.rows[y][x] == b.rows[y][x]
      {
        assert a.At(Coord(x, y)) == b.At(Coord(x, y));
      }
    }
  }

  /** The coordinates of the border of a grid (`edge_coord_iter`, as a set). */
  predicate OnEdge(c: Coord, s: Size) {
    IsValid(c, s) && (c.x == 0 || c.y == 0 || c.x == s.width - 1 || c.y == s.height - 1)
  }

  /** All coordinates of a grid of this size. */
  function AllCoords(s: Size): (r: set<Coord>)
    ensures forall c :: c in r <==> IsValid(c, s)
  {
    set x, y | 0 <= x < s.width && 0 <= y < s.height :: Coord(x, y)
  }

  /** `Grid::new_fn(size, f)`: the grid whose cell at `c` is `f(c)`. */
  ghost function Tabulate<T>(s: Size, f: Coord -> T): (g: Grid<T>)
    ensures g.Valid() && g.size == s
    ensures forall c {:trigger g.At(c)} :: IsValid(c, s) ==> g.At(c) == f(c)
  {
    var w := Grid(s, seq(s.height, y => seq(s.width, x => f(Coord(x, y)))));
    assert Tabulates(w, s, f);
    var g :| Tabulates(g, s, f);
    g
  }

  ghost predicate Tabulates<T>(g: Grid<T>, s: Size, f: Coord -> T) {
    g.Valid() && g.size == s && forall c {:trigger g.At(c)} :: IsValid(c, s) ==> g.At(c) == f(c)
  }

  /** Rewrites every cell of `g` with `f`, row by row: the shape of every
      pass that writes each cell of a cloned grid from the original. */
  method Rebuild<T>(g: Grid<T>, f: Coord -> T) returns (r: Grid<T>)
    requires g.Valid()
    ensures r == Tabulate(g.size, f)
  {
    r := g;
    var y := 0;
    while y < g.size.height
      invariant 0 <= y <= g.size.height
      invariant r.Valid() && r.size == g.size
      invariant forall c :: IsValid(c, g.size) ==> r.At(c) == if c.y < y then f(c) else g.At(c)
    {
      var x := 0;
      while x < g.size.width
        invariant 0 <= x <= g.size.width
        invariant r.Valid() && r.size == g.size
        invariant forall c :: IsValid(c, g.size) ==>
          r.At(c) == if Before(c, Coord(x, y)) then f(c) else g.At(c)
      {
        r := r.Set(Coord(x, y), f(Coord(x, y)));
        x := x + 1;
      }
      y := y + 1;
    }
    GridExt(r, Tabulate(g.size, f));
  }

  /** A sequence of coordinates in strict row-major order. */
  predicate RowMajor(r: seq<Coord>) {
    forall i, j :: 0 <= i < j < |r| ==> Before(r[i], r[j])
  }

  /** Two row-major runs, every element of the first before every element
      of the second, concatenate to a row-major run. */
  lemma RowMajorConcat(a: seq<Coord>, b: seq<Coord>)
    requires RowMajor(a) && RowMajor(b)
    requires forall i, j :: 0 <= i < |a| && 0 <= j < |b| ==> Before(a[i], b[j])
    ensures RowMajor(a + b)
  {
    var r := a + b;
    forall i, j | 0 <= i < j < |r|
      ensures Before(r[i], r[j])
    {
      if j < |a| {
        assert r[i] == a[i] && r[j] == a[j];
      } else if i < |a| {
        assert r[i] == a[i] && r[j] == b[j - |a|];
      } else {
        assert r[i] == b[i - |a|] && r[j] == b[j - |a|];
      }
    }
  }

  /** The cells of row `y` from column `x` on that satisfy `p`, left to
      right. */
  function RowWhere(s: Size, p: Coord -> bool, y: int, x: nat): (r: seq<Coord>)
    ensures forall c {:trigger c in r} :: c in r <==> c.y == y && x <= c.x < s.width && p(c)
    decreases s.width - x
  {
    if x >= s.width then []
    else
      var rest := RowWhere(s, p, y, x + 1);
      if p(Coord(x, y)) then [Coord(x, y)] + rest else rest
  }

  /** The cells of the rows from `y` on that satisfy `p`, in row-major
      order. */
  function RowsWhere(s: Size, p: Coord -> bool, y: nat): (r: seq<Coord>)
    ensures forall c {:trigger c in r} :: c in r <==> y <= c.y < s.height && 0 <= c.x < s.width && p(c)
    decreases s.height - y
  {
    if y >= s.height then []
    else RowWhere(s, p, y, 0) + RowsWhere(s, p, y + 1)
  }

  /** The coordinates of a grid of size `s` satisfying `p`: the
      `enumerate().filter_map(..).collect()` of the generators. */
  function CoordsWhere(s: Size, p: Coord -> bool): (r: seq<Coord>)
    ensures forall c {:trigger c in r} :: c in r <==> IsValid(c, s) && p(c)
  {
    RowsWhere(s, p, 0)
  }

  /** A row is collected left to right. */
  lemma {:induction false} RowWhereRowMajor(s: Size, p: Coord -> bool, y: int, x: nat)
    ensures RowMajor(RowWhere(s, p, y, x))
    decreases s.width - x
  {
    if x < s.width {
      var rest := RowWhere(s, p, y, x + 1);
      RowWhereRowMajor(s, p, y, x + 1);
      if p(Coord(x, y)) {
        assert forall j :: 0 <= j < |rest| ==> rest[j] in rest;
        RowMajorConcat([Coord(x, y)], rest);
      }
    }
  }

  /** Rows are collected top to bottom. */
  lemma {:induction false} RowsWhereRowMajor(s: Size, p: Coord -> bool, y: nat)
    ensures RowMajor(RowsWhere(s, p, y))
    decreases s.height - y
  {
    if y < s.height {
      var row, rest := RowWhere(s, p, y, 0), RowsWhere(s, p, y + 1);
      RowWhereRowMajor(s, p, y, 0);
      RowsWhereRowMajor(s, p, y + 1);
      assert forall i :: 0 <= i < |row| ==> row[i] in row;
      assert forall j :: 0 <= j < |rest| ==> rest[j] in rest;
      RowMajorConcat(row, rest);
    }
  }

  /** The coordinates are collected in row-major order. */
  lemma CoordsWhereRowMajor(s: Size, p: Coord -> bool)
    ensures RowMajor(CoordsWhere(s, p))
  {
    RowsWhereRowMajor(s, p, 0);
  }

  /** `g` with every cell of `cells` inside it set to `v`. */
  function Overwrite<T>(g: Grid<T>, cells: set<Coord>, v: T): (r: Grid<T>)
    requires g.Valid()
    ensures r.Valid() && r.size == g.size
    ensures forall c {:trigger r.At(c)} :: IsValid(c, g.size) ==> r.At(c) == if c in cells then v else g.At(c)
  {
    Grid(g.size, seq(g.size.height, y requires 0 <= y < g.size.height =>
      seq(g.size.width, x requires 0 <= x < g.size.width => if Coord(x, y) in cells then v else g.rows[y][x])))
  }

  /** Overwriting two sets of cells in turn with one value overwrites
      their union. */
  lemma OverwriteTwice<T>(g: Grid<T>, a: set<Coord>, b: set<Coord>, v: T)
    requires g.Valid()
    ensures Overwrite(Overwrite(g, a, v), b, v) == Overwrite(g, a + b, v)
  {
    GridExt(Overwrite(Overwrite(g, a, v), b, v), Overwrite(g, a + b, v));
  }
}
