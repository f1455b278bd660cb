/** The time-warp service of Services/TimeWarpController.cs: a ladder of warp speeds
    climbed one rung at a time with the `,` and `.` keys, a one-second linear blend
    from the old time scale to the new one, and the listeners that are told of every
    new time scale and gravitational constant. Listeners are external code; a call to
    one is recorded as a `Call` value rather than executed. */
module TimeWarp {
  import opened Numerics

  /** A registered listener (an `ITimeScalable`, `IGravityConstantReceiver` or
      `IEpochReceiver`), by identity. */
  datatype Listener = Listener(id: nat)

  /** One callback: `to` is called with `arg`. */
  datatype Call<T> = Call(to: Listener, arg: T)

  /** `foreach (var l in listeners) l.On...(arg)`: each listener called once, in
      registration order, with the same argument. */
  function Broadcast<T>(listeners: seq<Listener>, arg: T): (r: seq<Call<T>>)
    ensures |r| == |listeners|
    ensures forall i :: 0 <= i < |r| ==> r[i] == Call(listeners[i], arg)
  {
    if listeners == [] then [] else [Call(listeners[0], arg)] + Broadcast(listeners[1..], arg)
  }

  /** A listener registered last is called last, after everything the others got. */
  lemma {:induction false} BroadcastAppend<T>(listeners: seq<Listener>, l: Listener, arg: T)
    ensures Broadcast(listeners + [l], arg) == Broadcast(listeners, arg) + [Call(l, arg)]
  {
    var a := Broadcast(listeners + [l], arg);
    var b := Broadcast(listeners, arg) + [Call(l, arg)];
    assert |a| == |b|;
    forall i | 0 <= i < |a|
      ensures a[i] == b[i]
    {
      if i < |listeners| {
        assert (listeners + [l])[i] == listeners[i];
      }
    }
  }

  /** `Mathf.Clamp(int value, int min, int max)`. */
  function ClampInt(value: int, min: int, max: int): (r: int)
    ensures min <= max ==> min <= r <= max
    ensures min <= value <= max ==> r == value
    ensures value < min ==> r == min
  {
    if value < min then min else if value > max then max else value
  }

  /** One step of `Mathf.Clamp(currentIndex + direction, 0, len - 1)` moves an index in
      range by at most one rung and leaves it in range; at either end a step outward
      keeps it where it is. */
  lemma {:induction false} ClampStep(index: int, direction: int, len: int)
    requires 0 <= index < len && -1 <= direction <= 1
    ensures var r := ClampInt(index + direction, 0, len - 1);
      && 0 <= r < len
      && -1 <= r - index <= 1
      && (r == index <==> direction == 0 || (direction < 0 && index == 0) || (direction > 0 && index == len - 1))
  {
  }

  /** `Mathf.Clamp01`. */
  function Clamp01(t: real): real {
    if t < 0.0 then 0.0 else if t > 1.0 then 1.0 else t
  }

  /** `Mathf.Lerp(a, b, t)`: from `a` at `t <= 0` to `b` at `t >= 1`, and in between
      always between the two. */
  function Lerp(a: real, b: real, t: real): (r: real)
    ensures t <= 0.0 ==> r == a
    ensures t >= 1.0 ==> r == b
    ensures a <= b ==> a <= r <= b
    ensures b <= a ==> b <= r <= a
  {
    LerpBetween(a, b, Clamp01(t));
    Towards(a, b, Clamp01(t))
  }

  /** The point at fraction `c` of the way from `a` to `b`. */
  function Towards(a: real, b: real, c: real): real {
    a + (b - a) * c
  }

  /** A fraction of the way from `a` to `b` lies between them. */
  lemma {:induction false} LerpBetween(a: real, b: real, c: real)
    requires 0.0 <= c <= 1.0
    ensures a <= b ==> a <= Towards(a, b, c) <= b
    ensures b <= a ==> b <= Towards(a, b, c) <= a
  {
    if a <= b {
      ProductNonNegative(b - a, c);
      ProductNonNegative(b - a, 1.0 - c);
      Distribute(1.0, c, b - a);
    } else {
      ProductNonNegative(a - b, c);
      ProductNonNegative(a - b, 1.0 - c);
      Distribute(1.0, c, a - b);
    }
  }

  /** The warp speeds the service is given as its default, 1x at index 5. */
  const DefaultWarpSpeeds: seq<real> :=
    [0.03125, 0.0625, 0.125, 0.25, 0.5, 1.0, 2.0, 5.0, 10.0, 50.0, 100.0, 200.0, 500.0, 1000.0, 2000.0]

  class TimeWarpManager {
    const warpSpeeds: seq<real>
    var currentIndex: int
    var gravityConstant: real
    var timeScale: real
    var timeScaleListeners: seq<Listener>
    var gravityReceivers: seq<Listener>
    /** Private and never assigned after its initializer. */
    const lerpDuration: real
    var lerpStartTime: real
    var startTimeScale: real
    var targetTimeScale: real
    var isLerping: bool

    /** The index is on the ladder, and a blend under way heads for the rung the
        index names. */
    predicate Valid()
      reads this
    {
      && 0 <= currentIndex < |warpSpeeds|
      && lerpDuration > 0.0
      && (isLerping ==> targetTimeScale == warpSpeeds[currentIndex])
    }

    /** The field initializers: index 5 of the default ladder, which is 1x. */
    constructor ()
      ensures Valid() && !isLerping
      ensures warpSpeeds == DefaultWarpSpeeds && currentIndex == 5 && warpSpeeds[currentIndex] == 1.0
      ensures gravityConstant == 6.6743e-11 && timeScale == 1.0 && lerpDuration == 1.0
      ensures timeScaleListeners == [] && gravityReceivers == []
    {
      warpSpeeds := DefaultWarpSpeeds;
      currentIndex := 5;
      gravityConstant := 6.6743e-11;
      timeScale := 1.0;
      timeScaleListeners := [];
      gravityReceivers := [];
      lerpDuration := 1.0;
      lerpStartTime := 0.0;
      startTimeScale := 0.0;
      targetTimeScale := 0.0;
      isLerping := false;
    }

    /** `Awake`: publish the scale of the current rung and the gravitational constant. */
    method Awake() returns (scaleCalls: seq<Call<real>>, gravityCalls: seq<Call<real>>)
      requires Valid()
      modifies this`timeScale, this`gravityConstant
      ensures Valid()
      ensures timeScale == warpSpeeds[currentIndex] && gravityConstant == old(gravityConstant)
      ensures scaleCalls == Broadcast(timeScaleListeners, timeScale)
      ensures gravityCalls == Broadcast(gravityReceivers, gravityConstant)
    {
      scaleCalls := SetTimeScale(warpSpeeds[currentIndex]);
      gravityCalls := SetGravityConstant(gravityConstant);
    }

    /** `Update` for one frame: the `,` key steps down, otherwise the `.` key steps up;
        then, while a blend is under way, the scale moves along it, and the blend ends
        on its target once a full `lerpDuration` has passed. `now` is `Time.time`. */
    method Update(comma: bool, period: bool, now: real) returns (calls: seq<Call<real>>)
      requires Valid()
      modifies this`currentIndex, this`startTimeScale, this`targetTimeScale, this`lerpStartTime,
               this`isLerping, this`timeScale
      ensures Valid()
      ensures currentIndex == if comma then ClampInt(old(currentIndex) - 1, 0, |warpSpeeds| - 1)
                             else if period then ClampInt(old(currentIndex) + 1, 0, |warpSpeeds| - 1)
                             else old(currentIndex)
      ensures calls == if isLerping || old(isLerping) || currentIndex != old(currentIndex)
                       then Broadcast(timeScaleListeners, timeScale) else []
      ensures !isLerping && (old(isLerping) || currentIndex != old(currentIndex)) ==>
        timeScale == warpSpeeds[currentIndex]
      ensures currentIndex != old(currentIndex) ==>
        startTimeScale == old(timeScale) && targetTimeScale == warpSpeeds[currentIndex] && lerpStartTime == now
      ensures currentIndex == old(currentIndex) ==>
        unchanged(this`startTimeScale, this`targetTimeScale, this`lerpStartTime)
      ensures old(isLerping) || currentIndex != old(currentIndex) ==>
        var t := (now - lerpStartTime) / lerpDuration;
        && (isLerping <==> t < 1.0)
        && timeScale == Lerp(startTimeScale, targetTimeScale, if t >= 1.0 then 1.0 else t)
      ensures !old(isLerping) && currentIndex == old(currentIndex) ==> unchanged(this)
    {
      if comma {
        ChangeWarp(-1, now);
      } else if period {
        ChangeWarp(1, now);
      }
      calls := LerpStep(now);
    }

    /** `ChangeWarp`: move to the clamped neighbouring rung; when that is a different
        rung, start a blend from the current scale to the new rung's speed at `now`,
        and otherwise change nothing. */
    method ChangeWarp(direction: int, now: real)
      requires Valid()
      modifies this`currentIndex, this`startTimeScale, this`targetTimeScale, this`lerpStartTime, this`isLerping
      ensures Valid()
      ensures currentIndex == ClampInt(old(currentIndex) + direction, 0, |warpSpeeds| - 1)
      ensures currentIndex == old(currentIndex) ==>
        unchanged(this`startTimeScale, this`targetTimeScale, this`lerpStartTime, this`isLerping)
      ensures currentIndex != old(currentIndex) ==>
        && startTimeScale == timeScale && targetTimeScale == warpSpeeds[currentIndex]
        && lerpStartTime == now && isLerping
    {
      var newIndex := ClampInt(currentIndex + direction, 0, |warpSpeeds| - 1);
      if newIndex != currentIndex {
        currentIndex := newIndex;
        startTimeScale := timeScale;
        targetTimeScale := warpSpeeds[currentIndex];
        lerpStartTime := now;
        isLerping := true;
      }
    }

    /** The blend half of `Update`: at fraction `t = (now - lerpStartTime) / lerpDuration`
        of the blend the scale is `Lerp(start, target, t)`; from `t >= 1` on, `t` is
        held at 1, the blend stops and the scale is exactly the target. */
    method LerpStep(now: real) returns (calls: seq<Call<real>>)
      requires Valid()
      modifies this`isLerping, this`timeScale
      ensures Valid()
      ensures !old(isLerping) ==> calls == [] && unchanged(this`isLerping, this`timeScale)
      ensures old(isLerping) ==>
        var t := (now - lerpStartTime) / lerpDuration;
        && (isLerping <==> t < 1.0)
        && timeScale == Lerp(startTimeScale, targetTimeScale, if t >= 1.0 then 1.0 else t)
        && (!isLerping ==> timeScale == targetTimeScale == warpSpeeds[currentIndex])
        && calls == Broadcast(timeScaleListeners, timeScale)
    {
      calls := [];
      if isLerping {
        var t := (now - lerpStartTime) / lerpDuration;
        if t >= 1.0 {
          t := 1.0;
          isLerping := false;
        }
        var newScale := Lerp(startTimeScale, targetTimeScale, t);
        calls := SetTimeScale(newScale);
      }
    }

    /** `SetTimeScale`: store the scale and tell every time-scale listener, in order. */
    method SetTimeScale(scale: real) returns (calls: seq<Call<real>>)
      modifies this`timeScale
      ensures timeScale == scale
      ensures calls == Broadcast(timeScaleListeners, scale)
    {
      timeScale := scale;
      calls := [];
      for i := 0 to |timeScaleListeners|
        invariant timeScale == scale
        invariant calls == Broadcast(timeScaleListeners[..i], timeScale)
      {
        BroadcastAppend(timeScaleListeners[..i], timeScaleListeners[i], timeScale);
        assert timeScaleListeners[..i + 1] == timeScaleListeners[..i] + [timeScaleListeners[i]];
        calls := calls + [Call(timeScaleListeners[i], timeScale)];
      }
      assert timeScaleListeners[..|timeScaleListeners|] == timeScaleListeners;
    }

    /** `SetGravityConstant`: store `g` and tell every receiver, in order. */
    method SetGravityConstant(g: real) returns (calls: seq<Call<real>>)
      modifies this`gravityConstant
      ensures gravityConstant == g
      ensures calls == Broadcast(gravityReceivers, g)
    {
      gravityConstant := g;
      calls := [];
      for i := 0 to |gravityReceivers|
        invariant gravityConstant == g
        invariant calls == Broadcast(gravityReceivers[..i], g)
      {
        BroadcastAppend(gravityReceivers[..i], gravityReceivers[i], g);
        assert gravityReceivers[..i + 1] == gravityReceivers[..i] + [gravityReceivers[i]];
        calls := calls + [Call(gravityReceivers[i], g)];
      }
      assert gravityReceivers[..|gravityReceivers|] == gravityReceivers;
    }

    /** `Register(ITimeScalable)`: appended, with no check for a repeat. */
    method RegisterScalable(listener: Listener)
      modifies this`timeScaleListeners
      ensures timeScaleListeners == old(timeScaleListeners) + [listener]
    {
      timeScaleListeners := timeScaleListeners + [listener];
    }

    /** `Register(IGravityConstantReceiver)`: appended, with no check for a repeat. */
    method RegisterReceiver(receiver: Listener)
      modifies this`gravityReceivers
      ensures gravityReceivers == old(gravityReceivers) + [receiver]
    {
      gravityReceivers := gravityReceivers + [receiver];
    }
  }
}
