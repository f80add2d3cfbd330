/** Where the player enters a level: the coordinate of the first up
    staircase or exit, and of the first down staircase. */
module Query {
  import opened Wrappers
  import opened Geometry
  import opened Data
  import opened GameWorld

  predicate HasStairsUp(d: EntityData) { d.stairsUp }
  predicate HasExit(d: EntityData) { d.exit }
  predicate HasStairsDown(d: EntityData) { d.stairsDown }

  /** The coordinate of the first entity in `s`, when that entity is placed. */
  function FirstCoord(w: World, s: set<Entity>): (r: Option<Coord>)
    reads w
    ensures r.Some? ==> First(s).Some? && w.CoordOf(First(s).value) == r
    ensures s == {} ==> r.None?
  {
    match First(s)
    case None => None
    case Some(e) => w.CoordOf(e)
  }

  /** `stairs_up_or_exit_coord`: the coordinate of the first up staircase;
      failing that (no staircase, or one that is not placed), the
      coordinate of the first exit. */
  function StairsUpOrExitCoord(w: World): (r: Option<Coord>)
    reads w
    ensures var up := First(w.EntitiesWith(HasStairsUp));
      up.Some? && up.value in w.locations ==> r == Some(w.locations[up.value].coord)
    ensures var up := First(w.EntitiesWith(HasStairsUp));
      var exit := First(w.EntitiesWith(HasExit));
      !(up.Some? && up.value in w.locations) ==>
        r == (if exit.Some? && exit.value in w.locations then Some(w.locations[exit.value].coord) else None)
    ensures r.Some? ==>
      (exists e :: e in w.locations && w.locations[e].coord == r.value && (w.Data(e).stairsUp || w.Data(e).exit))
    ensures w.Valid() && r.Some? ==> IsValid(r.value, w.size)
  {
    match FirstCoord(w, w.EntitiesWith(HasStairsUp))
    case Some(c) => Some(c)
    case None => FirstCoord(w, w.EntitiesWith(HasExit))
  }

  /** `stairs_down_coord`: the coordinate of the first down staircase. */
  function StairsDownCoord(w: World): (r: Option<Coord>)
    reads w
    ensures var down := First(w.EntitiesWith(HasStairsDown));
      r == (if down.Some? && down.value in w.locations then Some(w.locations[down.value].coord) else None)
    ensures r.Some? ==> exists e :: e in w.locations && w.locations[e].coord == r.value && w.Data(e).stairsDown
    ensures w.Valid() && r.Some? ==> IsValid(r.value, w.size)
  {
    FirstCoord(w, w.EntitiesWith(HasStairsDown))
  }

  /** A world with exactly one up staircase, placed at `c`, yields `c`. */
  lemma SingleStairsUp(w: World, e: Entity, c: Coord)
    requires w.EntitiesWith(HasStairsUp) == {e}
    requires e in w.locations && w.locations[e].coord == c
    ensures StairsUpOrExitCoord(w) == Some(c)
  {
    assert First({e}) == Some(e);
  }
}
