/** The simpler warp controller of Tests/TimeWarpController.cs: a seven-rung ladder
    stepped with the `,` and `.` keys, writing the engine's time scale and physics step
    directly and at once, with no blend and no listeners. */
module TestTimeWarp {
  import opened TimeWarp

  /** The engine's global `Time` settings the controller writes. */
  class EngineTime {
    var timeScale: real
    var fixedDeltaTime: real

    /** The engine defaults: real time and a 0.02 s physics step. */
    constructor ()
      ensures timeScale == 1.0 && fixedDeltaTime == 0.02
    {
      timeScale := 1.0;
      fixedDeltaTime := 0.02;
    }
  }

  /** The ladder of this controller, 1x at index 2. */
  const TestWarpSpeeds: seq<real> := [0.25, 0.5, 1.0, 2.0, 5.0, 10.0, 50.0]

  class TimeWarpController {
    const warpSpeeds: seq<real>
    var currentIndex: int

    predicate Valid()
      reads this
    {
      0 <= currentIndex < |warpSpeeds|
    }

    /** The field initializers: index 2, the 1x rung. */
    constructor ()
      ensures Valid()
      ensures warpSpeeds == TestWarpSpeeds && currentIndex == 2 && warpSpeeds[currentIndex] == 1.0
    {
      warpSpeeds := TestWarpSpeeds;
      currentIndex := 2;
    }

    /** `Update` for one frame: `,` steps down and takes precedence over `.`, which
        steps up; with neither key nothing is written. */
    method Update(comma: bool, period: bool, time: EngineTime)
      requires Valid()
      modifies this`currentIndex, time
      ensures Valid()
      ensures !comma && !period ==> unchanged(this`currentIndex, time)
      ensures comma || period ==>
        && currentIndex == ClampInt(old(currentIndex) + (if comma then -1 else 1), 0, |warpSpeeds| - 1)
        && time.timeScale == warpSpeeds[currentIndex]
        && time.fixedDeltaTime == 0.02 * time.timeScale
    {
      if comma {
        ChangeWarp(-1, time);
      } else if period {
        ChangeWarp(1, time);
      }
    }

    /** `ChangeWarp`: clamp the index onto the ladder, then set the time scale to its
        rung and the physics step to 0.02 s of scaled time, even when the clamp left the
        index where it was. A step of one rung moves the index by at most one. */
    method ChangeWarp(direction: int, time: EngineTime)
      requires Valid()
      modifies this`currentIndex, time
      ensures Valid()
      ensures currentIndex == ClampInt(old(currentIndex) + direction, 0, |warpSpeeds| - 1)
      ensures -1 <= direction <= 1 ==> -1 <= currentIndex - old(currentIndex) <= 1
      ensures time.timeScale == warpSpeeds[currentIndex]
      ensures time.fixedDeltaTime == 0.02 * time.timeScale
    {
      currentIndex := ClampInt(currentIndex + direction, 0, |warpSpeeds| - 1);
      time.timeScale := warpSpeeds[currentIndex];
      time.fixedDeltaTime := 0.02 * time.timeScale;
    }
  }
}
