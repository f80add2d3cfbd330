/** Projectile motion: one step of a moving projectile and what happens
    when it stops. */
module Action {
  import opened Wrappers
  import opened Geometry
  import opened Data
  import opened GameWorld

  /** The projectile's `collides_with`, which defaults to colliding with
      solid entities only. */
  function CollidesWithOf(d: EntityData): (c: CollidesWith)
    ensures d.collidesWith.None? ==> c == CollidesWith(true, false)
    ensures d.collidesWith.Some? ==> c == d.collidesWith.value
  {
    match d.collidesWith
    case Some(c) => c
    case None => CollidesWith(true, false)
  }

  /** The entity a projectile entering `c` runs into: the feature when
      there is one, otherwise the character. */
  function EntityInCell(w: World, c: Coord): (r: Option<Entity>)
    reads w
    ensures w.At(c, Layer.Feature).Some? ==> r == w.At(c, Layer.Feature)
    ensures w.At(c, Layer.Feature).None? ==> r == w.At(c, Layer.Character)
  {
    if w.At(c, Layer.Feature).Some? then w.At(c, Layer.Feature) else w.At(c, Layer.Character)
  }

  /** Whether `target` stops projectile `p` as a solid: a particle that
      collides with solids tests `solid_for_particles`, anything else
      tests `solid`. */
  predicate SolidCollision(w: World, p: Entity, target: Entity)
    reads w
  {
    if CollidesWithOf(w.Data(p)).solid && w.Data(p).particle then w.Data(target).solidForParticles
    else w.Data(target).solid
  }

  /** Whether projectile `p` is stopped on entering the in-bounds cell `next`. */
  predicate Collides(w: World, p: Entity, next: Coord)
    reads w
  {
    match EntityInCell(w, next)
    case None => false
    case Some(x) => SolidCollision(w, p, x) || (CollidesWithOf(w.Data(p)).character && w.Data(x).character)
  }

  /** A cell with nothing in its feature or character slot never stops a projectile. */
  lemma EmptyCellNeverStops(w: World, p: Entity, next: Coord)
    requires w.At(next, Layer.Feature).None? && w.At(next, Layer.Character).None?
    ensures !Collides(w, p, next)
  {
  }

  /** Only the feature is tested when a cell has one: the character below
      it cannot stop the projectile. */
  lemma FeatureTakesPrecedence(w: World, p: Entity, next: Coord, f: Entity)
    requires w.At(next, Layer.Feature) == Some(f)
    ensures Collides(w, p, next) <==>
      SolidCollision(w, p, f) || (CollidesWithOf(w.Data(p)).character && w.Data(f).character)
  {
  }

  /** A particle passes through a feature that is solid but not solid for
      particles, and an ordinary projectile does not. */
  lemma ParticlesPassDebris(w: World, p: Entity, next: Coord, f: Entity)
    requires w.At(next, Layer.Feature) == Some(f)
    requires w.Data(f).solid && !w.Data(f).solidForParticles && !w.Data(f).character
    ensures w.Data(p).particle && CollidesWithOf(w.Data(p)).solid ==> !Collides(w, p, next)
    ensures !w.Data(p).particle ==> Collides(w, p, next)
  {
  }

  /** The effect of `projectile_stop` on `p`. */
  twostate predicate Stopped(w: World, p: Entity)
    reads w
  {
    var onCollision := if p in old(w.locations) then old(w.Data(p)).onCollision else None;
    && w.nextEntity == old(w.nextEntity)
    && (forall x :: x != p ==> w.RealtimeOf(x) == old(w.RealtimeOf(x)))
    && match onCollision
       case Some(Remove) =>
         && w.cells == old(w.Vacated(p)) && w.locations == old(w.locations) - {p}
         && w.components == old(w.components) - {p} && w.RealtimeOf(p) == {}
         && w.live == old(w.live) - {p}
       case Some(RemoveRealtime) =>
         && w.cells == old(w.cells) && w.locations == old(w.locations)
         && w.components == old(w.components)[p := old(w.Data(p)).(realtime := false, blocksGameplay := false)]
         && w.RealtimeOf(p) == {} && w.live == old(w.live)
       case None =>
         && w.cells == old(w.cells) && w.locations == old(w.locations)
         && w.components == old(w.components)
         && w.RealtimeOf(p) == old(w.RealtimeOf(p)) - {Movement}
         && w.live == old(w.live)
  }

  /** `projectile_stop`: a placed projectile with an `on_collision` is
      removed entirely (`Remove`, which also frees it) or loses its
      realtime behaviour (`RemoveRealtime`); the movement component goes in
      every case. */
  method ProjectileStop(w: World, p: Entity)
    requires w.Valid()
    modifies w
    ensures w.Valid() && Stopped(w, p)
    ensures Movement !in w.RealtimeOf(p)
  {
    if p in w.locations {
      var d := w.Data(p);
      if d.onCollision == Some(Remove) {
        w.RemoveLocation(p);
        w.RemoveComponents(p);
        w.Free(p);
        w.RemoveRealtimeComponents(p);
      } else if d.onCollision == Some(RemoveRealtime) {
        w.RemoveRealtimeComponents(p);
        w.SetData(p, d.(realtime := false, blocksGameplay := false));
      }
    }
    w.RemoveRealtime(p, Movement);
  }

  /** `projectile_move`: one step of `p` in direction `dir`. An unplaced
      projectile is deleted from every table. A step off the grid or into
      something it collides with stops it where it is. Otherwise it moves
      to the next cell, unless the spatial table refuses the move, which is
      ignored. */
  method ProjectileMove(w: World, p: Entity, dir: Direction)
    requires w.Valid()
    modifies w
    ensures w.Valid()
    ensures p !in old(w.locations) ==>
      && w.components == old(w.components) - {p} && w.realtime == old(w.realtime) - {p}
      && w.cells == old(w.cells) && w.locations == old(w.locations) && w.live == old(w.live)
    ensures p in old(w.locations) ==>
      var next := old(w.locations)[p].coord.Add(DirectionDelta(dir));
      var target := Location(next, old(w.locations)[p].layer);
      if !IsValid(next, w.size) || old(Collides(w, p, next)) then
        Stopped(w, p)
      else
        && w.components == old(w.components) && w.realtime == old(w.realtime) && w.live == old(w.live)
        && (old(w.UpdateRefusal(p, target)).None? ==>
              w.cells == old(w.Moved(p, target)) && w.locations == old(w.locations)[p := target]
              && w.CoordOf(p) == Some(next))
        && (old(w.UpdateRefusal(p, target)).Some? ==>
              w.cells == old(w.cells) && w.locations == old(w.locations))
  {
    if p in w.locations {
      var next := w.locations[p].coord.Add(DirectionDelta(dir));
      if IsValid(next, w.size) {
        // A character in the cell would receive the projectile's damage
        // here; damage has no effect in this revision.
        if Collides(w, p, next) {
          ProjectileStop(w, p);
          return;
        }
        var _ := w.UpdateCoord(p, next);
      } else {
        ProjectileStop(w, p);
      }
    } else {
      w.RemoveComponents(p);
      w.RemoveRealtimeComponents(p);
      w.RemoveLocation(p);
    }
  }
}
