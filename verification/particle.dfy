/** Particle emitters: the fade-out clock of an emitter, the event an
    emitter produces each period, and how that event becomes a particle
    entity in the world. */
module Particle {
  import opened Wrappers
  import opened Ints
  import opened Geometry
  import opened Data
  import opened GameWorld
  import opened Realtime

  /** A probability `numerator / denominator`. */
  datatype Rational = Rational(numerator: nat, denominator: nat)

  /** `Possible<T>`: a value that is present with some chance. */
  datatype Possible<T> = Possible(chance: Rational, value: T)

  /** `Possible::choose`: the value when the chance roll succeeds. The roll
      is the caller's random draw. */
  function Choose<T>(p: Possible<T>, roll: bool): (r: Option<T>)
    ensures r.Some? <==> roll
    ensures r.Some? ==> r.value == p.value
  {
    if roll then Some(p.value) else None
  }

  /** Progress of a fade: finished, or a ratio out of 256. */
  datatype FadeProgress = Complete | Fading(ratio: u8)

  /** The fade state handed to a new particle: which constructor of the
      fade module was used, with its arguments. The fade module itself is
      not part of this model. */
  datatype FadeState = NewFade(duration: Duration) | NewFadeWithProgress(duration: Duration, progress: FadeProgress)

  datatype LightColourFadeSpec = LightColourFadeSpec(duration: Duration, from: Rgb24, to: Rgb24)
  datatype LightColourFadeState = LightColourFadeState(fadeState: FadeState, from: Rgb24, to: Rgb24)

  /** A particle's movement as chosen from the emitter's movement range;
      the angle arithmetic is floating point and is not part of this
      model, so the chosen movement is an input. */
  datatype MovementState = MovementState(path: Coord, cardinalStepDuration: Duration)

  /** The ranges a particle's movement is drawn from. */
  datatype MovementSpec = MovementSpec(minPeriod: Duration, maxPeriod: Duration)

  /** A `UniformInclusiveRange<Rgba32>`: both ends included. */
  datatype ColourRange = ColourRange(low: Rgba32, high: Rgba32)

  /** `c` lies between the ends of `range`, channel by channel. */
  predicate InColourRange(range: ColourRange, c: Rgba32) {
    && range.low.r <= c.r <= range.high.r && range.low.g <= c.g <= range.high.g
    && range.low.b <= c.b <= range.high.b && range.low.a <= c.a <= range.high.a
  }

  /** `spec::Particle`. */
  datatype ParticleSpec = ParticleSpec(
    fadeDuration: Option<Duration>,
    tile: Option<Tile>,
    movement: Option<MovementSpec>,
    colourHint: Option<ColourRange>,
    lightColourFade: Option<LightColourFadeSpec>,
    possibleLight: Option<Possible<Light>>,
    possibleParticleEmitter: Option<Possible<EmitterSpec>>)

  /** `spec::ParticleEmitter`. */
  datatype EmitterSpec = EmitterSpec(emitParticleEveryPeriod: Duration, particle: ParticleSpec, fadeOutDuration: Option<Duration>)

  /** The random draws one emitter tick consumes. */
  datatype TickDraws = TickDraws(movement: MovementState, colourHint: Rgba32, lightRoll: bool, emitterRoll: bool)

  /** The draws were sampled from the spec's ranges: the colour from the
      colour-hint range, when there is one. */
  predicate DrawnFrom(spec: ParticleSpec, draws: TickDraws) {
    spec.colourHint.Some? ==> InColourRange(spec.colourHint.value, draws.colourHint)
  }

  /** The ratio reported while fading: `elapsed * 256 / total`, capped at 255. */
  function FadeRatio(elapsed: nat, total: nat): (r: u8)
    requires total > 0
    ensures r <= 255
    ensures elapsed <= total ==> r == Min(elapsed * 256 / total, 255)
  {
    var q := elapsed * 256 / total;
    if q <= 255 then q else 255
  }

  /** The ratio grows with the elapsed time. */
  lemma FadeRatioMonotonic(e1: nat, e2: nat, total: nat)
    requires total > 0 && e1 <= e2
    ensures FadeRatio(e1, total) <= FadeRatio(e2, total)
  {
    DivMonotonic(e1 * 256, e2 * 256, total);
  }

  lemma DivMonotonic(a: nat, b: nat, d: nat)
    requires d > 0 && a <= b
    ensures a / d <= b / d
  {
    if a / d > b / d {
      MulMonotonic(b / d + 1, a / d, d);
      assert false;
    }
  }

  lemma MulMonotonic(x: int, y: int, d: nat)
    ensures x <= y ==> d * x <= d * y
  {
  }

  /** `FadeOutState`: how long an emitter fades out for, and how far it is. */
  class FadeOutState {
    var total: Duration
    var elapsed: Duration

    constructor (total: Duration)
      ensures this.total == total && elapsed == 0
    {
      this.total := total;
      elapsed := 0;
    }

    /** The progress a fade with this state reports. */
    function Progress(): (p: FadeProgress)
      reads this
      requires total > 0 || elapsed > total
      ensures p == Complete <==> elapsed > total
      ensures p.Fading? ==> p.ratio == FadeRatio(elapsed, total) && p.ratio <= 255
    {
      if elapsed > total then Complete else Fading(FadeRatio(elapsed, total))
    }

    /** `fade`: advance by `duration` and report the progress. A zero total
        with nothing elapsed would divide by zero. */
    method Fade(duration: Duration) returns (p: FadeProgress)
      requires total > 0 || elapsed + duration > total
      modifies this
      ensures elapsed == old(elapsed) + duration && total == old(total)
      ensures p == Progress()
      ensures p == Complete <==> elapsed > total
      ensures p.Fading? ==> p.ratio == Min(elapsed * 256 / total, 255)
    {
      elapsed := elapsed + duration;
      if elapsed > total {
        p := Complete;
      } else {
        p := Fading(FadeRatio(elapsed, total));
      }
    }
  }

  /** Two successive fades: the ratio never decreases, and once complete a
      fade stays complete. */
  method FadeTwice(s: FadeOutState, d1: Duration, d2: Duration) returns (p1: FadeProgress, p2: FadeProgress)
    requires s.total > 0
    modifies s
    ensures p1 == Complete ==> p2 == Complete
    ensures p1.Fading? && p2.Fading? ==> p1.ratio <= p2.ratio
  {
    p1 := s.Fade(d1);
    ghost var e1 := s.elapsed;
    p2 := s.Fade(d2);
    if p1.Fading? && p2.Fading? {
      FadeRatioMonotonic(e1, s.elapsed, s.total);
    }
  }

  /** `SpawnParticle`: what one emitter period produces. */
  datatype SpawnParticle = SpawnParticle(
    movementState: Option<MovementState>,
    fadeState: Option<FadeState>,
    tile: Option<Tile>,
    colourHint: Option<Rgba32>,
    lightColourFadeState: Option<LightColourFadeState>,
    light: Option<Light>,
    particleEmitter: Option<ParticleEmitterState>)

  /** `ParticleEmitterState`: a built emitter. Its random generator is
      replaced by the draws each tick is given. */
  class ParticleEmitterState {
    var emitParticleEveryPeriod: Duration
    var particleSpec: ParticleSpec
    var fadeOutState: FadeOutState?

    constructor (period: Duration, spec: ParticleSpec, fadeOut: FadeOutState?)
      ensures emitParticleEveryPeriod == period && particleSpec == spec && fadeOutState == fadeOut
    {
      emitParticleEveryPeriod := period;
      particleSpec := spec;
      fadeOutState := fadeOut;
    }

    /** `tick`: one emission. The delay until the next one is always the
        emission period. Without a fade-out the particle's fades start
        fresh; with one, the fade-out advances by one period and the
        particle's fades start from its progress. */
    method Tick(draws: TickDraws) returns (event: SpawnParticle, untilNext: Duration)
      requires fadeOutState != null ==> fadeOutState.total > 0 || fadeOutState.elapsed + emitParticleEveryPeriod > fadeOutState.total
      modifies fadeOutState
      ensures untilNext == emitParticleEveryPeriod
      ensures fadeOutState == null ==>
        && event.fadeState == MapFade(particleSpec.fadeDuration, None)
        && event.lightColourFadeState == MapLightFade(particleSpec.lightColourFade, None)
      ensures fadeOutState != null ==>
        && fadeOutState.elapsed == old(fadeOutState.elapsed) + emitParticleEveryPeriod
        && fadeOutState.total == old(fadeOutState.total)
        && event.fadeState == MapFade(particleSpec.fadeDuration, Some(fadeOutState.Progress()))
        && event.lightColourFadeState == MapLightFade(particleSpec.lightColourFade, Some(fadeOutState.Progress()))
      ensures event.tile == particleSpec.tile
      ensures event.movementState.Some? <==> particleSpec.movement.Some?
      ensures event.movementState.Some? ==> event.movementState.value == draws.movement
      ensures event.colourHint.Some? <==> particleSpec.colourHint.Some?
      ensures event.colourHint.Some? ==> event.colourHint.value == draws.colourHint
      ensures DrawnFrom(particleSpec, draws) && event.colourHint.Some? ==> InColourRange(particleSpec.colourHint.value, event.colourHint.value)
      ensures event.light == (if particleSpec.possibleLight.Some? then Choose(particleSpec.possibleLight.value, draws.lightRoll) else None)
      ensures event.particleEmitter.Some? <==> particleSpec.possibleParticleEmitter.Some? && draws.emitterRoll
      ensures event.particleEmitter.Some? ==> fresh(event.particleEmitter.value)
    {
      untilNext := emitParticleEveryPeriod;
      var progress: Option<FadeProgress> := None;
      if fadeOutState != null {
        var p := fadeOutState.Fade(untilNext);
        progress := Some(p);
      }
      var emitter: Option<ParticleEmitterState> := None;
      if particleSpec.possibleParticleEmitter.Some? {
        var chosen := Choose(particleSpec.possibleParticleEmitter.value, draws.emitterRoll);
        if chosen.Some? {
          var built := Build(chosen.value);
          emitter := Some(built);
        }
      }
      event := SpawnParticle(
        if particleSpec.movement.Some? then Some(draws.movement) else None,
        MapFade(particleSpec.fadeDuration, progress),
        particleSpec.tile,
        if particleSpec.colourHint.Some? then Some(draws.colourHint) else None,
        MapLightFade(particleSpec.lightColourFade, progress),
        if particleSpec.possibleLight.Some? then Choose(particleSpec.possibleLight.value, draws.lightRoll) else None,
        emitter);
    }
  }

  /** The particle's fade: fresh without a fade-out progress, started from
      the progress otherwise. */
  function MapFade(duration: Option<Duration>, progress: Option<FadeProgress>): (r: Option<FadeState>)
    ensures r.Some? <==> duration.Some?
    ensures r.Some? ==> r.value.duration == duration.value
    ensures r.Some? ==> (r.value.NewFade? <==> progress.None?)
  {
    match duration
    case None => None
    case Some(d) => if progress.None? then Some(NewFade(d)) else Some(NewFadeWithProgress(d, progress.value))
  }

  /** The particle's light-colour fade, timed as `MapFade` times its fade. */
  function MapLightFade(l: Option<LightColourFadeSpec>, progress: Option<FadeProgress>): (r: Option<LightColourFadeState>)
    ensures r.Some? <==> l.Some?
    ensures r.Some? ==>
      (r.value.from == l.value.from && r.value.to == l.value.to
       && Some(r.value.fadeState) == MapFade(Some(l.value.duration), progress))
  {
    match l
    case None => None
    case Some(f) => Some(LightColourFadeState(MapFade(Some(f.duration), progress).value, f.from, f.to))
  }

  /** `ParticleEmitter::build`: the period and particle are kept, and a
      fade-out, when the spec has one, starts with nothing elapsed. */
  method Build(spec: EmitterSpec) returns (s: ParticleEmitterState)
    ensures fresh(s)
    ensures s.emitParticleEveryPeriod == spec.emitParticleEveryPeriod && s.particleSpec == spec.particle
    ensures (s.fadeOutState == null) <==> spec.fadeOutDuration.None?
    ensures s.fadeOutState != null ==>
      (fresh(s.fadeOutState) && s.fadeOutState.total == spec.fadeOutDuration.value && s.fadeOutState.elapsed == 0)
  {
    var fadeOut: FadeOutState? := null;
    if spec.fadeOutDuration.Some? {
      fadeOut := new FadeOutState(spec.fadeOutDuration.value);
    }
    s := new ParticleEmitterState(spec.emitParticleEveryPeriod, spec.particle, fadeOut);
  }

  /** The realtime components a spawned particle receives. */
  function ParticleRealtime(ev: SpawnParticle): (kinds: set<RealtimeKind>)
    ensures Movement in kinds <==> ev.movementState.Some?
    ensures Fade in kinds <==> ev.fadeState.Some?
    ensures RealtimeKind.LightColourFade in kinds <==> ev.lightColourFadeState.Some?
    ensures RealtimeKind.ParticleEmitter in kinds <==> ev.particleEmitter.Some?
    ensures Flicker !in kinds
  {
    (if ev.movementState.Some? then {Movement} else {})
    + (if ev.fadeState.Some? then {Fade} else {})
    + (if ev.lightColourFadeState.Some? then {RealtimeKind.LightColourFade} else {})
    + (if ev.particleEmitter.Some? then {RealtimeKind.ParticleEmitter} else {})
  }

  /** The component row of a spawned particle. */
  function ParticleData(ev: SpawnParticle): (d: EntityData)
    ensures d.particle && d.realtime
    ensures d.tile == ev.tile && d.colourHint == ev.colourHint && d.light == ev.light
    ensures !d.solid && !d.character
  {
    NO_DATA.(particle := true, realtime := true, tile := ev.tile, colourHint := ev.colourHint, light := ev.light)
  }

  /** The realtime components of a new particle: movement, fade, light
      colour fade and emitter, each when the event carries one. */
  method InsertParticleRealtime(w: World, e: Entity, ev: SpawnParticle)
    requires w.Valid() && e < w.nextEntity && e !in w.realtime
    modifies w
    ensures w.Valid()
    ensures w.RealtimeOf(e) == ParticleRealtime(ev)
    ensures forall x :: x != e ==> w.RealtimeOf(x) == old(w.RealtimeOf(x))
    ensures w.cells == old(w.cells) && w.locations == old(w.locations) && w.components == old(w.components)
    ensures w.nextEntity == old(w.nextEntity) && w.live == old(w.live)
  {
    if ev.movementState.Some? {
      w.InsertRealtime(e, Movement);
    }
    if ev.fadeState.Some? {
      w.InsertRealtime(e, Fade);
    }
    if ev.lightColourFadeState.Some? {
      w.InsertRealtime(e, RealtimeKind.LightColourFade);
    }
    if ev.particleEmitter.Some? {
      w.InsertRealtime(e, RealtimeKind.ParticleEmitter);
    }
  }

  /** `apply_event`: an emitter that is not placed spawns nothing. Otherwise
      a new particle entity is placed, without a layer, at the emitter's
      coordinate, marked `particle` and `realtime`, and given the event's
      tile, colour, light and realtime components. */
  method ApplyEvent(w: World, ev: SpawnParticle, emitter: Entity) returns (spawned: Option<Entity>)
    requires w.Valid()
    modifies w
    ensures w.Valid()
    ensures spawned.None? <==> emitter !in old(w.locations)
    ensures spawned.None? ==> unchanged(w)
    ensures spawned.Some? ==>
      var e := spawned.value;
      && e == old(w.nextEntity) && e !in old(w.live)
      && w.locations == old(w.locations)[e := Location(old(w.locations)[emitter].coord, None)]
      && w.CoordOf(e) == old(w.CoordOf(emitter))
      && w.cells == old(w.cells)
      && w.components == old(w.components)[e := ParticleData(ev)]
      && w.RealtimeOf(e) == ParticleRealtime(ev)
      && (forall x :: x != e ==> w.RealtimeOf(x) == old(w.RealtimeOf(x)))
  {
    if emitter !in w.locations {
      return None;
    }
    var coord := w.locations[emitter].coord;
    var e := w.Alloc();
    var u := w.UpdateCoord(e, coord);
    assert u.Ok?;
    // The `particle`, `tile`, `realtime`, `colour_hint` and `light`
    // components are inserted one by one; together they make up the row
    // `ParticleData(ev)` of the fresh entity.
    w.InsertData(e, ParticleData(ev));
    OverlayOnEmpty(ParticleData(ev));
    InsertParticleRealtime(w, e, ev);
    spawned := Some(e);
  }
}
