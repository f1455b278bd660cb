/** The epoch service of Services/EpochController.cs: the simulation clock in seconds,
    advanced every frame by the scaled frame time, set from a slider or from five
    typed fields (year, day, hour, minute, second), shown as those five fields, and
    broadcast to listeners as the change in seconds. */
module Epoch {
  import opened Numerics
  import opened Lists
  import opened TimeWarp

  /** `SecondsPerYear` and `SecondsPerDay`: a 365-day year of 24-hour days. */
  const SecondsPerYear: real := 31536000.0
  const SecondsPerDay: real := 86400.0
  /** `double.Epsilon`, the smallest positive double. */
  const DoubleEpsilon: real := 4.94065645841246544e-324

  /** A C# `int`. */
  type Int32 = x: int | -0x8000_0000 <= x < 0x8000_0000

  /** An `int` product as C# computes it by default (unchecked): the exact value
      wrapped into the 32-bit range. */
  function Wrap32(x: int): (r: Int32)
    ensures (x - r) % 0x1_0000_0000 == 0
    ensures -0x8000_0000 <= x < 0x8000_0000 ==> r == x
  {
    var m := x % 0x1_0000_0000;
    if m >= 0x8000_0000 then m - 0x1_0000_0000 else m
  }

  /** The five fields as shown, and as typed in with whole seconds. */
  datatype CalendarTime = CalendarTime(years: int, days: int, hours: int, minutes: int, seconds: real)

  /** The seconds the five fields stand for, every term exact: the intended meaning of
      `OnApplyClicked`'s composition and the sum the shown fields add up to. */
  function Compose(c: CalendarTime): real {
    (c.years as real) * SecondsPerYear + (c.days as real) * SecondsPerDay + (c.hours as real) * 3600.0
      + (c.minutes as real) * 60.0 + c.seconds
  }

  /** The composition of `OnApplyClicked` as written: year, day and hour are cast to
      double before they are scaled, but `minute * 60` is an `int` product, which
      wraps before it is converted. */
  function ComposeAsWritten(year: Int32, day: Int32, hour: Int32, minute: Int32, second: Int32): real {
    (year as real) * 365.0 * 24.0 * 3600.0 + (day as real) * 24.0 * 3600.0 + (hour as real) * 3600.0
      + (Wrap32(minute * 60) as real) + (second as real)
  }

  /** The as-written composition agrees with the intended one exactly when `minute * 60`
      fits in an `int`, that is for |minute| <= 35791394. */
  lemma {:induction false} ComposeAsWrittenAgrees(year: Int32, day: Int32, hour: Int32, minute: Int32, second: Int32)
    ensures ComposeAsWritten(year, day, hour, minute, second) == Compose(CalendarTime(year, day, hour, minute, second as real))
      <==> -35791394 <= minute <= 35791394
  {
    var w := Wrap32(minute * 60);
    if -35791394 <= minute <= 35791394 {
      assert w == minute * 60;
    } else {
      assert (minute * 60 - w) % 0x1_0000_0000 == 0;
      assert w != minute * 60;
      assert (w as real) != (minute as real) * 60.0;
    }
  }

  /** 35791395 minutes typed into the minute field give 2147483700 seconds, but the
      as-written composition makes them -2147483596. */
  lemma MinuteOverflow()
    ensures Compose(CalendarTime(0, 0, 0, 35791395, 0.0)) == 2147483700.0
    ensures ComposeAsWritten(0, 0, 0, 35791395, 0) == -2147483596.0
  {
    assert Wrap32(35791395 * 60) == -2147483596;
  }

  /** The fields as `UpdateLabels` shows them for a non-negative epoch: whole years,
      fewer than 365 days, 24 hours, 60 minutes and 60 seconds. */
  predicate Normal(c: CalendarTime) {
    && 0 <= c.years && 0 <= c.days < 365 && 0 <= c.hours < 24 && 0 <= c.minutes < 60
    && 0.0 <= c.seconds < 60.0
  }

  /** The same for a negative epoch, where the truncating division and remainder
      leave every field at most zero. */
  predicate NormalBelowZero(c: CalendarTime) {
    && c.years <= 0 && -365 < c.days <= 0 && -24 < c.hours <= 0 && -60 < c.minutes <= 0
    && -60.0 < c.seconds <= 0.0
  }

  /** Everything below a year in normal fields adds up to less than a year. */
  lemma {:induction false} BelowAYear(c: CalendarTime)
    requires Normal(c)
    ensures 0.0 <= Compose(c) - (c.years as real) * SecondsPerYear < SecondsPerYear
  {
    assert (c.days as real) <= 364.0 && (c.hours as real) <= 23.0 && (c.minutes as real) <= 59.0;
  }

  /** Normal fields are determined by the seconds they add up to, so showing an epoch
      and typing the shown fields back in gives the same epoch and the same fields. */
  lemma {:induction false} ComposeInjective(c: CalendarTime, d: CalendarTime)
    requires Normal(c) && Normal(d) && Compose(c) == Compose(d)
    ensures c == d
  {
    BelowAYear(c);
    BelowAYear(d);
    assert c.years == d.years;
    assert c.days == d.days by {
      assert (c.days as real) * SecondsPerDay + (c.hours as real) * 3600.0 + (c.minutes as real) * 60.0 + c.seconds
          == (d.days as real) * SecondsPerDay + (d.hours as real) * 3600.0 + (d.minutes as real) * 60.0 + d.seconds;
    }
    assert c.hours == d.hours by {
      assert (c.hours as real) * 3600.0 + (c.minutes as real) * 60.0 + c.seconds
          == (d.hours as real) * 3600.0 + (d.minutes as real) * 60.0 + d.seconds;
    }
    assert c.minutes == d.minutes;
  }

  /** What one listener receives from `SetEpoch`: the change in seconds, together with
      the controller's `CurrentEpoch` at the moment of the call. */
  datatype Delivery = Delivery(delta: real, epochDuring: real)

  class EpochController {
    var TimeScale: real
    var epochListeners: seq<Listener>
    var currentEpochSeconds: real

    /** The field initializers: real time, no listeners, epoch 0. */
    constructor ()
      ensures TimeScale == 1.0 && epochListeners == [] && currentEpochSeconds == 0.0
    {
      TimeScale := 1.0;
      epochListeners := [];
      currentEpochSeconds := 0.0;
    }

    /** `Awake`: reset the epoch to 0, register with the time-warp service when there is
        one, and broadcast a change of 0. */
    method Awake(warp: TimeWarpManager?, self: Listener) returns (calls: seq<Call<Delivery>>)
      modifies this`currentEpochSeconds, warp
      ensures currentEpochSeconds == 0.0
      ensures calls == Broadcast(epochListeners, Delivery(0.0, 0.0))
      ensures warp != null ==> warp.timeScaleListeners == old(warp.timeScaleListeners) + [self]
      ensures warp != null ==> unchanged(warp`currentIndex, warp`gravityConstant, warp`timeScale,
        warp`gravityReceivers, warp`lerpStartTime, warp`startTimeScale, warp`targetTimeScale, warp`isLerping)
    {
      currentEpochSeconds := 0.0;
      if warp != null {
        warp.RegisterScalable(self);
      }
      calls := SetEpoch(currentEpochSeconds);
    }

    /** `OnTimeScaleChanged`: the time-warp service's new scale. */
    method OnTimeScaleChanged(scale: real)
      modifies this`TimeScale
      ensures TimeScale == scale
    {
      TimeScale := scale;
    }

    /** `OnSliderValueChanged`: a change smaller than `double.Epsilon` does nothing;
        otherwise the epoch takes the slider's value first, so listeners told of the
        change already see the new epoch. */
    method OnSliderValueChanged(sliderValue: real) returns (calls: seq<Call<Delivery>>)
      modifies this`currentEpochSeconds
      ensures Abs(sliderValue - old(currentEpochSeconds)) < DoubleEpsilon ==>
        calls == [] && currentEpochSeconds == old(currentEpochSeconds)
      ensures Abs(sliderValue - old(currentEpochSeconds)) >= DoubleEpsilon ==>
        && currentEpochSeconds == sliderValue
        && calls == Broadcast(epochListeners, Delivery(sliderValue - old(currentEpochSeconds), sliderValue))
    {
      var newEpoch := sliderValue;
      var delta := newEpoch - currentEpochSeconds;
      if Abs(delta) < DoubleEpsilon {
        return [];
      }
      currentEpochSeconds := newEpoch;
      calls := SetEpoch(delta);
    }

    /** `OnApplyClicked`: each field is the outcome of `int.TryParse` on its text; if
        any fails nothing happens. Otherwise the fields are composed into seconds, and
        a change of at least `double.Epsilon` is broadcast first and stored after, so
        listeners told of it still see the old epoch. The composition is the exact
        `Compose`; whenever `minute * 60` fits in an `int` it is also the value the
        as-written composition gives. */
    method OnApplyClicked(year: Option<Int32>, day: Option<Int32>, hour: Option<Int32>,
                          minute: Option<Int32>, second: Option<Int32>)
      returns (calls: seq<Call<Delivery>>)
      modifies this`currentEpochSeconds
      ensures year.None? || day.None? || hour.None? || minute.None? || second.None? ==>
        calls == [] && currentEpochSeconds == old(currentEpochSeconds)
      ensures year.Some? && day.Some? && hour.Some? && minute.Some? && second.Some? ==>
        var typed := Compose(CalendarTime(year.value, day.value, hour.value, minute.value, second.value as real));
        if Abs(typed - old(currentEpochSeconds)) < DoubleEpsilon then
          calls == [] && currentEpochSeconds == old(currentEpochSeconds)
        else
          && currentEpochSeconds == typed
          && calls == Broadcast(epochListeners, Delivery(typed - old(currentEpochSeconds), old(currentEpochSeconds)))
      ensures year.Some? && day.Some? && hour.Some? && minute.Some? && second.Some? && -35791394 <= minute.value <= 35791394 ==>
        var written := ComposeAsWritten(year.value, day.value, hour.value, minute.value, second.value);
        Abs(written - old(currentEpochSeconds)) >= DoubleEpsilon ==> currentEpochSeconds == written
    {
      if year.None? || day.None? || hour.None? || minute.None? || second.None? {
        return [];
      }
      ComposeAsWrittenAgrees(year.value, day.value, hour.value, minute.value, second.value);
      var newEpochSec := Compose(CalendarTime(year.value, day.value, hour.value, minute.value, second.value as real));
      var delta := newEpochSec - currentEpochSeconds;
      if Abs(delta) < DoubleEpsilon {
        return [];
      }
      calls := SetEpoch(delta);
      currentEpochSeconds := newEpochSec;
    }

    /** `SetEpoch`: every listener, in registration order, is told of `time`. */
    method SetEpoch(time: real) returns (calls: seq<Call<Delivery>>)
      ensures calls == Broadcast(epochListeners, Delivery(time, currentEpochSeconds))
    {
      calls := [];
      for i := 0 to |epochListeners|
        invariant calls == Broadcast(epochListeners[..i], Delivery(time, currentEpochSeconds))
      {
        BroadcastAppend(epochListeners[..i], epochListeners[i], Delivery(time, currentEpochSeconds));
        assert epochListeners[..i + 1] == epochListeners[..i] + [epochListeners[i]];
        calls := calls + [Call(epochListeners[i], Delivery(time, currentEpochSeconds))];
      }
      assert epochListeners[..|epochListeners|] == epochListeners;
    }

    /** `Update` for one frame: the epoch advances by the frame time scaled by the
        current time scale, and the new epoch is shown as five fields. */
    method Update(deltaTime: real) returns (shown: CalendarTime)
      modifies this`currentEpochSeconds
      ensures currentEpochSeconds == old(currentEpochSeconds) + deltaTime * TimeScale
      ensures Compose(shown) == currentEpochSeconds
      ensures currentEpochSeconds >= 0.0 ==> Normal(shown)
      ensures currentEpochSeconds < 0.0 ==> NormalBelowZero(shown)
    {
      currentEpochSeconds := currentEpochSeconds + deltaTime * TimeScale;
      shown := UpdateLabels();
    }

    /** `UpdateLabels`: the epoch split into years, days, hours, minutes and seconds by
        truncating division and the remainder operator, in that order. The fields add
        back up to the epoch, and for a non-negative epoch each lies in its usual range
        (for a negative one, in its mirror image). */
    method UpdateLabels() returns (shown: CalendarTime)
      ensures Compose(shown) == currentEpochSeconds
      ensures currentEpochSeconds >= 0.0 ==> Normal(shown)
      ensures currentEpochSeconds < 0.0 ==> NormalBelowZero(shown)
    {
      var remaining := currentEpochSeconds;
      var years, days, hours, minutes, seconds;
      years, remaining := Split(remaining, SecondsPerYear);
      days, remaining := Split(remaining, SecondsPerDay);
      hours, remaining := Split(remaining, 3600.0);
      minutes, seconds := Split(remaining, 60.0);
      shown := CalendarTime(years, days, hours, minutes, seconds);
    }

    /** `Register`: appended, with no check for a repeat. */
    method Register(listener: Listener)
      modifies this`epochListeners
      ensures epochListeners == old(epochListeners) + [listener]
    {
      epochListeners := epochListeners + [listener];
    }
  }

  /** The step `UpdateLabels` repeats: `(int)(remaining / unit)` whole units, and
      `remaining % unit` left over. The two add back up to `x`, both have the sign of
      `x`, and what is left over is less than one unit. */
  method Split(x: real, unit: real) returns (whole: int, rest: real)
    requires unit > 0.0
    ensures x == (whole as real) * unit + rest
    ensures x >= 0.0 ==> whole >= 0 && 0.0 <= rest < unit
    ensures x < 0.0 ==> whole <= 0 && -unit < rest <= 0.0
  {
    whole := Trunc(x / unit);
    rest := FRem(x, unit);
    FRemBounds(x, unit);
    QuotientSign(x, unit);
  }
}
