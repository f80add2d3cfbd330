/** The animation driver: once per tick, every realtime entity is given
    one frame of time. */
module Realtime {
  import opened Wrappers
  import opened Data
  import opened GameWorld

  /** Durations are counted in nanoseconds. */
  type Duration = nat

  /** `FRAME_DURATION`: a sixtieth of a second, rounded down to whole
      microseconds. */
  const FRAME_DURATION: Duration := (1_000_000 / 60) * 1000

  lemma FrameDurationValue()
    ensures FRAME_DURATION == 16_666_000
  {
  }

  predicate IsRealtime(d: EntityData) { d.realtime }

  /** `AnimationContext`: a buffer of entities awaiting their frame. */
  class AnimationContext {
    var realtimeEntities: seq<Entity>

    /** The default context has an empty buffer. */
    constructor ()
      ensures realtimeEntities == []
    {
      realtimeEntities := [];
    }

    /** The serialised form: nothing. */
    function Serialize(): Unit
      reads this
    {
      Unit
    }

    /** `tick`: the entities with the `realtime` component are appended to
        the buffer in iteration order, then the buffer is drained, each
        entity being handed to the frame processor with `FRAME_DURATION`.
        The frame processor itself belongs to the realtime-table library
        and is not part of this model; `processed` records its calls. */
    method Tick(w: World) returns (processed: seq<(Entity, Duration)>)
      modifies this
      ensures realtimeEntities == []
      ensures |processed| == |old(realtimeEntities)| + |InOrder(w.EntitiesWith(IsRealtime))|
      ensures forall i :: 0 <= i < |processed| ==>
        processed[i] == ((old(realtimeEntities) + InOrder(w.EntitiesWith(IsRealtime)))[i], FRAME_DURATION)
    {
      realtimeEntities := realtimeEntities + InOrder(w.EntitiesWith(IsRealtime));
      ghost var all := realtimeEntities;
      processed := [];
      while realtimeEntities != []
        invariant |processed| + |realtimeEntities| == |all|
        invariant realtimeEntities == all[|processed|..]
        invariant forall i :: 0 <= i < |processed| ==> processed[i] == (all[i], FRAME_DURATION)
        decreases |realtimeEntities|
      {
        processed := processed + [(realtimeEntities[0], FRAME_DURATION)];
        realtimeEntities := realtimeEntities[1..];
      }
    }
  }

  /** Deserialisation ignores its input and yields the default context. */
  method Deserialize(u: Unit) returns (ctx: AnimationContext)
    ensures fresh(ctx) && ctx.realtimeEntities == []
  {
    ctx := new AnimationContext();
  }

  /** Starting from an empty buffer, as between ticks, a tick processes
      every realtime entity exactly once. */
  lemma TickProcessesEachOnce(w: World, processed: seq<(Entity, Duration)>)
    requires |processed| == |InOrder(w.EntitiesWith(IsRealtime))|
    requires forall i :: 0 <= i < |processed| ==> processed[i] == (InOrder(w.EntitiesWith(IsRealtime))[i], FRAME_DURATION)
    ensures forall e :: e in w.components && w.components[e].realtime <==>
      exists i :: 0 <= i < |processed| && processed[i].0 == e
    ensures forall i, j :: 0 <= i < j < |processed| ==> processed[i].0 != processed[j].0
  {
    var order := InOrder(w.EntitiesWith(IsRealtime));
    assert forall e :: e in order <==> e in w.components && IsRealtime(w.components[e]);
    ProcessedInOrder(order, processed);
  }

  /** The frames handed out along a strictly increasing order name each
      entity of the order once. */
  lemma ProcessedInOrder(order: seq<Entity>, processed: seq<(Entity, Duration)>)
    requires |processed| == |order|
    requires forall i :: 0 <= i < |processed| ==> processed[i] == (order[i], FRAME_DURATION)
    requires forall i, j :: 0 <= i < j < |order| ==> order[i] < order[j]
    ensures forall e :: e in order <==> exists i :: 0 <= i < |processed| && processed[i].0 == e
    ensures forall i, j :: 0 <= i < j < |processed| ==> processed[i].0 != processed[j].0
  {
    forall e | e in order
      ensures exists i :: 0 <= i < |processed| && processed[i].0 == e
    {
      var i :| 0 <= i < |order| && order[i] == e;
      assert processed[i].0 == e;
    }
  }
}
