/** The timer screen's component state, updated in place by its handlers.
    Each handler runs to completion before the next; each method's new state
    is the matching function of Accrual applied to the old state, and the
    guards of the on-screen buttons are the methods' preconditions. */
module Screen {
  import opened Accrual

  class TimerScreen {
    var isWorking: bool
    var isResting: bool
    var isAlarmPlaying: bool
    var workingMillis: int
    var restingMillis: real
    var backgroundAt: Option<int>

    /** The component state as a value. */
    function State(): Timers
      reads this
    {
      Timers(isWorking, isResting, isAlarmPlaying, workingMillis, restingMillis, backgroundAt)
    }

    predicate Valid()
      reads this
    {
      Inv(State())
    }

    constructor ()
      ensures Valid() && State() == Initial
    {
      isWorking, isResting, isAlarmPlaying := false, false, false;
      workingMillis, restingMillis := 0, 0.0;
      backgroundAt := None;
    }

    method StartWorking()
      requires Valid() && Enabled(State(), PressWork)
      modifies this
      ensures Valid() && State() == Accrual.StartWorking(old(State()))
    {
      isWorking := true;
      isResting := false;
    }

    method StartResting()
      requires Valid() && Enabled(State(), PressRest)
      modifies this
      ensures Valid() && State() == Accrual.StartResting(old(State()))
    {
      isResting := true;
      isWorking := false;
      workingMillis := 0;
    }

    method PauseTimers()
      requires Valid() && Enabled(State(), PressPause)
      modifies this
      ensures Valid() && State() == Accrual.PauseTimers(old(State()))
    {
      isResting := false;
      isWorking := false;
    }

    method RestartTimers()
      requires Valid() && Enabled(State(), PressReset)
      modifies this
      ensures Valid() && State() == Accrual.RestartTimers(old(State()))
    {
      isResting := false;
      isWorking := false;
      workingMillis := 0;
      restingMillis := 0.0;
    }

    method PauseAlarm()
      requires Valid() && Enabled(State(), PressStopAlarm)
      modifies this
      ensures Valid() && State() == Accrual.PauseAlarm(old(State()))
    {
      isAlarmPlaying := false;
      isResting := false;
      restingMillis := 0.0;
    }

    /** One firing of the interval that runs while working or resting. */
    method Tick()
      requires Valid() && Enabled(State(), IntervalFires)
      modifies this
      ensures Valid() && State() == Accrual.Tick(old(State()))
    {
      if isWorking {
        workingMillis := workingMillis + 1000;
        restingMillis := restingMillis + 200.0;
      } else if isResting {
        var prev := restingMillis;
        if prev > 0.0 && prev - 1000.0 <= 0.0 {
          isAlarmPlaying := true;
        }
        restingMillis := prev - 1000.0;
      }
    }

    /** The catch-up for `elapsed` milliseconds spent in the background. */
    method Resume(elapsed: int)
      requires Valid()
      modifies this
      ensures Valid() && State() == Accrual.Resume(old(State()), elapsed)
    {
      workingMillis := workingMillis + elapsed;
      restingMillis := restingMillis + elapsed as real / 5.0;
    }

    /** The lifecycle handler, given the clock reading of the change and the
        second reading taken when no background time is recorded. */
    method ChangeAppState(next: AppStatus, now: int, later: int)
      requires Valid()
      modifies this
      ensures Valid() && State() == Accrual.ChangeAppState(old(State()), next, now, later)
    {
      if next == Background {
        backgroundAt := Some(now);
      } else if next == Active {
        Resume(Elapsed(backgroundAt, now, later));
      }
    }
  }

  /** A session driven through the handlers: five seconds of work, a rest
      that uses up the one second earned, the alarm, and its dismissal. */
  method WorkRestSession() returns (work: int, rest: real, alarm: bool)
    ensures work == 0 && rest == 0.0 && !alarm
  {
    var screen := new TimerScreen();
    screen.StartWorking();
    screen.Tick();
    screen.Tick();
    screen.Tick();
    screen.Tick();
    screen.Tick();
    assert screen.workingMillis == 5000 && screen.restingMillis == 1000.0;
    screen.StartResting();
    assert screen.workingMillis == 0 && screen.restingMillis == 1000.0;
    screen.Tick();
    assert screen.isAlarmPlaying && screen.restingMillis == 0.0;
    screen.Tick();
    assert screen.isAlarmPlaying && screen.restingMillis == -1000.0;
    screen.PauseAlarm();
    work, rest, alarm := screen.workingMillis, screen.restingMillis, screen.isAlarmPlaying;
  }
}
