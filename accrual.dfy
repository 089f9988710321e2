/** The work/rest accrual state machine of the timer screen, as values: the
    state the screen keeps, one function per handler, the guards the screen
    puts on its buttons, and the properties that runs of handlers keep. */
module Accrual {
  import Clock

  datatype Option<T> = None | Some(value: T)

  /** The lifecycle states the screen reacts to ("inactive" and the rest are
      ignored by its handler). */
  datatype AppStatus = Active | Background | Inactive

  /** The screen's state: the two mode flags, the alarm flag, work elapsed
      and rest credit in milliseconds, and the time the app last went to
      the background. Rest credit is a real: the catch-up adds elapsed / 5,
      which need not be whole. */
  datatype Timers = Timers(
    isWorking: bool,
    isResting: bool,
    isAlarmPlaying: bool,
    workingMillis: int,
    restingMillis: real,
    backgroundAt: Option<int>)

  const Initial := Timers(false, false, false, 0, 0.0, None)

  datatype Mode = Idle | Working | Resting

  function ModeOf(s: Timers): Mode {
    if s.isWorking then Working else if s.isResting then Resting else Idle
  }

  /** The "Work" button. */
  function StartWorking(s: Timers): (r: Timers)
    ensures ModeOf(r) == Working && r.isAlarmPlaying == s.isAlarmPlaying
    ensures r.workingMillis == s.workingMillis && r.restingMillis == s.restingMillis
  {
    s.(isWorking := true, isResting := false)
  }

  /** The "Rest" button: work elapsed restarts from zero, rest credit stays. */
  function StartResting(s: Timers): (r: Timers)
    ensures ModeOf(r) == Resting && r.isAlarmPlaying == s.isAlarmPlaying
    ensures r.workingMillis == 0 && r.restingMillis == s.restingMillis
  {
    s.(isResting := true, isWorking := false, workingMillis := 0)
  }

  /** The "Pause" button. */
  function PauseTimers(s: Timers): (r: Timers)
    ensures ModeOf(r) == Idle && r.isAlarmPlaying == s.isAlarmPlaying
    ensures r.workingMillis == s.workingMillis && r.restingMillis == s.restingMillis
  {
    s.(isResting := false, isWorking := false)
  }

  /** The "Reset" button. */
  function RestartTimers(s: Timers): (r: Timers)
    ensures ModeOf(r) == Idle && r.isAlarmPlaying == s.isAlarmPlaying
    ensures r.workingMillis == 0 && r.restingMillis == 0.0
  {
    s.(isResting := false, isWorking := false, workingMillis := 0, restingMillis := 0.0)
  }

  /** The "Stop Alarm" button: it does not touch the working flag. */
  function PauseAlarm(s: Timers): (r: Timers)
    ensures !r.isAlarmPlaying && !r.isResting && r.isWorking == s.isWorking
    ensures r.workingMillis == s.workingMillis && r.restingMillis == 0.0
  {
    s.(isAlarmPlaying := false, isResting := false, restingMillis := 0.0)
  }

  /** One firing of the one-second interval. While working, work gains a
      second and rest a fifth of one; while resting, rest loses a second and
      the alarm is raised when the credit goes from positive to at most zero.
      Nothing is clamped, and no interval runs while idle. */
  function Tick(s: Timers): (r: Timers)
    ensures ModeOf(r) == ModeOf(s) && r.backgroundAt == s.backgroundAt
    ensures s.isWorking ==>
              (r.restingMillis - s.restingMillis) * 5.0 == (r.workingMillis - s.workingMillis) as real == 1000.0
    ensures !s.isWorking && s.isResting ==>
              && r.restingMillis == s.restingMillis - 1000.0
              && r.workingMillis == s.workingMillis
              && (r.isAlarmPlaying <==> s.isAlarmPlaying || (s.restingMillis > 0.0 && r.restingMillis <= 0.0))
  {
    if s.isWorking then
      s.(workingMillis := s.workingMillis + 1000, restingMillis := s.restingMillis + 200.0)
    else if s.isResting then
      s.(restingMillis := s.restingMillis - 1000.0,
         isAlarmPlaying := s.isAlarmPlaying || (s.restingMillis > 0.0 && s.restingMillis - 1000.0 <= 0.0))
    else
      s
  }

  /** The catch-up on returning to the foreground: `elapsed` milliseconds
      are added to work and elapsed / 5 to rest, whatever the mode. */
  function Resume(s: Timers, elapsed: int): (r: Timers)
    ensures ModeOf(r) == ModeOf(s) && r.isAlarmPlaying == s.isAlarmPlaying
    ensures (r.restingMillis - s.restingMillis) * 5.0 ==
      (r.workingMillis - s.workingMillis) as real == elapsed as real
  {
    s.(workingMillis := s.workingMillis + elapsed,
       restingMillis := s.restingMillis + elapsed as real / 5.0)
  }

  /** Milliseconds from the recorded background time to `now`. With none
      recorded, the time library turns the missing date into a second
      reading of the clock, `later`, taken after `now`: the difference is
      then zero or negative. */
  function Elapsed(backgroundAt: Option<int>, now: int, later: int): (d: int)
    ensures backgroundAt.Some? ==> d + backgroundAt.value == now
    ensures backgroundAt.None? && now <= later ==> d <= 0
    ensures backgroundAt.None? ==> (d == 0 <==> later == now)
  {
    match backgroundAt
    case Some(t) => now - t
    case None => now - later
  }

  /** The lifecycle handler, given the clock reading `now` and, for an
      "active" with no recorded background time, the second reading `later`:
      going to the background records the time; becoming active applies the
      catch-up for the time since then. The recorded time is kept afterwards. */
  function ChangeAppState(s: Timers, next: AppStatus, now: int, later: int): (r: Timers)
    ensures ModeOf(r) == ModeOf(s) && r.isAlarmPlaying == s.isAlarmPlaying
    ensures r.backgroundAt == if next == Background then Some(now) else s.backgroundAt
    ensures next != Active ==> r.workingMillis == s.workingMillis && r.restingMillis == s.restingMillis
  {
    match next
    case Background => s.(backgroundAt := Some(now))
    case Active => Resume(s, Elapsed(s.backgroundAt, now, later))
    case Inactive => s
  }

  /** Everything that can happen to the screen. */
  datatype Event =
    | PressWork
    | PressRest
    | PressPause
    | PressReset
    | PressStopAlarm
    | IntervalFires
    | AppStateChanges(next: AppStatus, now: int, later: int)

  /** When an event can happen: while the alarm plays only "Stop Alarm" is
      on screen; otherwise "Work" is disabled while working, "Pause" and
      "Reset" while neither working nor resting, and "Rest" below one second
      of credit. The interval exists only while working or resting. */
  predicate Enabled(s: Timers, e: Event) {
    match e
    case PressWork => !s.isAlarmPlaying && !s.isWorking
    case PressRest => !s.isAlarmPlaying && s.restingMillis >= 1000.0
    case PressPause => !s.isAlarmPlaying && (s.isWorking || s.isResting)
    case PressReset => !s.isAlarmPlaying && (s.isWorking || s.isResting)
    case PressStopAlarm => s.isAlarmPlaying
    case IntervalFires => s.isWorking || s.isResting
    case AppStateChanges(_, _, _) => true
  }

  /** While the alarm plays, "Stop Alarm" is the one button that can be
      pressed, and it can be pressed only then. */
  lemma AlarmButtons(s: Timers, e: Event)
    requires !e.IntervalFires? && !e.AppStateChanges?
    ensures Enabled(s, e) && s.isAlarmPlaying <==> e == PressStopAlarm && s.isAlarmPlaying
    ensures e == PressStopAlarm ==> (Enabled(s, e) <==> s.isAlarmPlaying)
  {
  }

  function Step(s: Timers, e: Event): Timers {
    match e
    case PressWork => StartWorking(s)
    case PressRest => StartResting(s)
    case PressPause => PauseTimers(s)
    case PressReset => RestartTimers(s)
    case PressStopAlarm => PauseAlarm(s)
    case IntervalFires => Tick(s)
    case AppStateChanges(next, now, later) => ChangeAppState(s, next, now, later)
  }

  /** The state after handling `events` in order. */
  function Run(s: Timers, events: seq<Event>): Timers
    decreases |events|
  {
    if events == [] then s else Run(Step(s, events[0]), events[1..])
  }

  /** Every event of `events` is enabled in the state it meets. */
  predicate Admissible(s: Timers, events: seq<Event>)
    decreases |events|
  {
    events == [] || (Enabled(s, events[0]) && Admissible(Step(s, events[0]), events[1..]))
  }

  /** n firings of the interval. */
  function Ticks(s: Timers, n: nat): Timers
    decreases n
  {
    if n == 0 then s else Ticks(Tick(s), n - 1)
  }

  // ---------------------------------------------------------------------
  // The mode invariant

  /** The screen is never working and resting at once, and the alarm plays
      only during a rest. */
  predicate Inv(s: Timers) {
    !(s.isWorking && s.isResting) && (s.isAlarmPlaying ==> s.isResting)
  }

  lemma InitialInv()
    ensures Inv(Initial) && ModeOf(Initial) == Idle && Sound(Initial)
  {
  }

  /** Every enabled event keeps the mode invariant. */
  lemma StepKeepsInv(s: Timers, e: Event)
    requires Inv(s) && Enabled(s, e)
    ensures Inv(Step(s, e))
  {
  }

  /** Every admissible run keeps the mode invariant. */
  lemma {:induction false} RunKeepsInv(s: Timers, events: seq<Event>)
    requires Inv(s) && Admissible(s, events)
    ensures Inv(Run(s, events))
    decreases |events|
  {
    if events != [] {
      StepKeepsInv(s, events[0]);
      RunKeepsInv(Step(s, events[0]), events[1..]);
    }
  }

  /** What the four mode buttons leave behind: Work and Rest select their
      mode (Rest restarting work from zero and keeping the credit), Pause
      goes idle keeping both counters, Reset goes idle with both at zero.
      None of them touches the alarm. */
  lemma ButtonModes(s: Timers)
    ensures var t := StartWorking(s);
      ModeOf(t) == Working && !t.isResting && t.workingMillis == s.workingMillis &&
      t.restingMillis == s.restingMillis && t.isAlarmPlaying == s.isAlarmPlaying
    ensures var t := StartResting(s);
      ModeOf(t) == Resting && !t.isWorking && t.workingMillis == 0 &&
      t.restingMillis == s.restingMillis && t.isAlarmPlaying == s.isAlarmPlaying
    ensures var t := PauseTimers(s);
      ModeOf(t) == Idle && !t.isResting && t.workingMillis == s.workingMillis &&
      t.restingMillis == s.restingMillis && t.isAlarmPlaying == s.isAlarmPlaying
    ensures var t := RestartTimers(s);
      ModeOf(t) == Idle && !t.isResting && t.workingMillis == 0 &&
      t.restingMillis == 0.0 && t.isAlarmPlaying == s.isAlarmPlaying
  {
  }

  /** Stop Alarm leaves the working flag alone, yet it always ends idle with
      no credit, whatever the sign of the credit was. */
  lemma StopAlarmEndsIdle(s: Timers)
    requires Inv(s) && Enabled(s, PressStopAlarm)
    ensures var t := PauseAlarm(s);
      ModeOf(t) == Idle && !t.isAlarmPlaying && t.restingMillis == 0.0 &&
      t.workingMillis == s.workingMillis
  {
  }

  // ---------------------------------------------------------------------
  // Accrual by ticks and by catch-up

  /** n working ticks add n seconds of work and n fifths of a second of rest. */
  lemma {:induction false} WorkingTicks(s: Timers, n: nat)
    requires s.isWorking
    decreases n
    ensures Ticks(s, n) == s.(workingMillis := s.workingMillis + 1000 * n,
                              restingMillis := s.restingMillis + 200.0 * n as real)
  {
    if n > 0 {
      WorkingTicks(Tick(s), n - 1);
    }
  }

  /** From zero, work is always five times rest while ticking. */
  lemma WorkIsFiveTimesRest(n: nat)
    ensures var t := Ticks(StartWorking(Initial), n);
      t.workingMillis == 1000 * n && t.restingMillis == 200.0 * n as real &&
      t.workingMillis as real == 5.0 * t.restingMillis
  {
    WorkingTicks(StartWorking(Initial), n);
  }

  /** n resting ticks take n seconds of credit, and leave the alarm raised
      exactly when it already was or the credit crossed from positive to at
      most zero along the way: once at or below zero, ticks raise nothing. */
  lemma {:induction false} RestingTicks(s: Timers, n: nat)
    requires s.isResting && !s.isWorking
    ensures Ticks(s, n) == s.(
      restingMillis := s.restingMillis - 1000.0 * n as real,
      isAlarmPlaying := s.isAlarmPlaying ||
        (s.restingMillis > 0.0 && s.restingMillis - 1000.0 * n as real <= 0.0))
    decreases n
  {
    if n > 0 {
      RestingTicks(Tick(s), n - 1);
    }
  }

  /** Ticking on below zero never raises a stopped alarm again. */
  lemma NoAlarmBelowZero(s: Timers, n: nat)
    requires s.isResting && !s.isWorking && !s.isAlarmPlaying && s.restingMillis <= 0.0
    ensures !Ticks(s, n).isAlarmPlaying
  {
    RestingTicks(s, n);
  }

  /** A credit of one second runs out on the first resting tick. */
  lemma OneSecondRest(s: Timers)
    requires s.isResting && !s.isWorking && !s.isAlarmPlaying && s.restingMillis == 1000.0
    ensures Tick(s).isAlarmPlaying && Tick(s).restingMillis == 0.0
    ensures Ticks(s, 2).isAlarmPlaying && Ticks(s, 2).restingMillis == -1000.0
  {
    RestingTicks(s, 2);
  }

  /** While working, a catch-up of n seconds lands on the same state as n
      live ticks: the background ratio is the live one. */
  lemma CatchUpMatchesTicks(s: Timers, n: nat)
    requires s.isWorking
    ensures Resume(s, 1000 * n) == Ticks(s, n)
  {
    WorkingTicks(s, n);
  }

  /** The catch-up ignores the mode: during a rest it adds credit, where a
      live tick would have taken it. No flag changes. */
  lemma CatchUpDuringRest(s: Timers, elapsed: int)
    requires s.isResting && !s.isWorking && elapsed > 0
    ensures var t := Resume(s, elapsed);
      t.restingMillis > s.restingMillis > Tick(s).restingMillis &&
      t.isResting == s.isResting && t.isWorking == s.isWorking &&
      t.isAlarmPlaying == s.isAlarmPlaying
  {
  }

  /** The recorded background time is never cleared: every later "active"
      credits the time since that one background again. */
  lemma RepeatedActivation(s: Timers, t: int, now1: int, now2: int)
    requires s.backgroundAt == Some(t)
    ensures var u := Run(s, [AppStateChanges(Active, now1, now1), AppStateChanges(Inactive, now1, now1),
                             AppStateChanges(Active, now2, now2)]);
      u.workingMillis == s.workingMillis + (now1 - t) + (now2 - t) &&
      u.backgroundAt == Some(t)
  {
    var e := [AppStateChanges(Active, now1, now1), AppStateChanges(Inactive, now1, now1),
              AppStateChanges(Active, now2, now2)];
    var s1 := Resume(s, now1 - t);
    assert Step(s, e[0]) == s1;
    assert Step(s1, e[1]) == s1;
    assert e[1..][1..] == [e[2]];
    assert Run(s1, [e[2]]) == Resume(s1, now2 - t);
  }

  // ---------------------------------------------------------------------
  // What the screen shows

  /** The catch-up never subtracts: the wall clock does not run backwards
      across a background period, and when no background time is recorded
      both clock readings fall on the same millisecond. */
  predicate ClockForward(s: Timers, e: Event) {
    e.AppStateChanges? && e.next == Active ==> Elapsed(s.backgroundAt, e.now, e.later) >= 0
  }

  predicate ClockForwardRun(s: Timers, events: seq<Event>)
    decreases |events|
  {
    events == [] || (ClockForward(s, events[0]) && ClockForwardRun(Step(s, events[0]), events[1..]))
  }

  /** The counters: work is never negative; rest credit is negative only
      while the alarm plays, and positive during a rest before the alarm. */
  predicate Sound(s: Timers) {
    Inv(s) && s.workingMillis >= 0 &&
    (s.restingMillis >= 0.0 || s.isAlarmPlaying) &&
    (s.isResting && !s.isAlarmPlaying ==> s.restingMillis > 0.0)
  }

  lemma StepKeepsSound(s: Timers, e: Event)
    requires Sound(s) && Enabled(s, e) && ClockForward(s, e)
    ensures Sound(Step(s, e))
  {
  }

  /** Every admissible run whose catch-ups are non-negative keeps the
      counters sound;
      with InitialInv, this holds of every run from the initial state. */
  lemma {:induction false} RunKeepsSound(s: Timers, events: seq<Event>)
    requires Sound(s) && Admissible(s, events) && ClockForwardRun(s, events)
    ensures Sound(Run(s, events))
    decreases |events|
  {
    if events != [] {
      StepKeepsSound(s, events[0]);
      RunKeepsSound(Step(s, events[0]), events[1..]);
    }
  }

  /** The two readouts are on screen only while no alarm plays; in a sound
      state they then show only digits and colons, never a minus sign. */
  lemma ShownClocksNotNegative(s: Timers)
    requires Sound(s) && !s.isAlarmPlaying
    ensures Clock.IsClockText(Clock.FormatTime(s.workingMillis as real))
    ensures Clock.IsClockText(Clock.FormatTime(s.restingMillis))
  {
    Clock.FormatTimeRoundTrip(s.workingMillis as real);
    Clock.FormatTimeRoundTrip(s.restingMillis);
  }

  /** A clock that runs backwards breaks that: a catch-up of -5 ms, one
      millisecond of credit, during a rest of one millisecond leaves a zero
      credit with no alarm. */
  lemma BackwardClockSilencesAlarm()
    ensures var s := Initial.(isResting := true, restingMillis := 1.0, backgroundAt := Some(10));
      var t := ChangeAppState(s, Active, 5, 5);
      t.isResting && !t.isAlarmPlaying && t.restingMillis <= 0.0 &&
      !Ticks(t, 3).isAlarmPlaying
  {
    var s := Initial.(isResting := true, restingMillis := 1.0, backgroundAt := Some(10));
    NoAlarmBelowZero(ChangeAppState(s, Active, 5, 5), 3);
  }

  /** So does an "active" before any "background", even with a forward
      clock: when the second clock reading falls one millisecond after the
      first, the catch-up is -1 ms, and the idle screen shows both readouts
      as "-1:-1:-1". */
  lemma ActiveBeforeBackground(now: int)
    ensures var t := ChangeAppState(Initial, Active, now, now + 1);
      !Sound(t) && !t.isAlarmPlaying && ModeOf(t) == Idle &&
      Clock.FormatTime(t.workingMillis as real) == "-1:-1:-1" &&
      Clock.FormatTime(t.restingMillis) == "-1:-1:-1"
  {
    assert Elapsed(None, now, now + 1) == -1;
    var t := Resume(Initial, -1);
    assert t == Initial.(workingMillis := -1, restingMillis := -0.2);
    assert ChangeAppState(Initial, Active, now, now + 1) == t;
    ReadoutsJustBelowZero();
  }

  lemma ReadoutsJustBelowZero()
    ensures Clock.FormatTime(-1.0) == "-1:-1:-1" && Clock.FormatTime(-0.2) == "-1:-1:-1"
  {
    Clock.FormatTimeJustBelowZero(-1.0);
    Clock.FormatTimeJustBelowZero(-0.2);
  }
}
