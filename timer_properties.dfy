/** What the timer handlers promise, proved about the model in TimerModel. */
module TimerProperties {
  import opened Wrappers
  import opened TimerModel

  // ---------------------------------------------------------------- invariant

  /** Every handler keeps the invariant. */
  lemma ApplyKeepsInv(t: Timer, e: Event)
    requires Inv(t)
    ensures Inv(Apply(t, e).timer)
  {
    match e
    case IntervalTick(now) => TickKeepsInv(t, now);
    case EndTimeButton(m, now) =>
      if t.mode != Idle && AdjustCandidate(t, m, now) > now {
        RecalculateKeepsInv(t.(customEndTime := Some(AdjustCandidate(t, m, now))), now);
      }
    case StartLectureButton(now) =>
    case StartBreakButton(k, now) =>
    case StopButton =>
    case AutoStart(now) =>
    case MuteButton =>
    case VolumeSlider(p) =>
    case TestSoundButton(c) =>
    case KeyDown(key, input, now) =>
    case SettingsButton(a) =>
  }

  lemma RecalculateKeepsInv(t: Timer, now: int)
    requires Inv(t) && t.mode != Idle
    ensures Inv(RecalculateTimeRemaining(t, now).timer)
  {
  }

  lemma TickKeepsInv(t: Timer, now: int)
    requires Inv(t)
    ensures Inv(Tick(t, now).timer)
  {
    if t.mode != Idle && t.customEndTime.Some? {
      RecalculateKeepsInv(t, now);
    }
  }

  /** Any sequence of events keeps the invariant; in particular every state
      reachable from `Initial()` satisfies it. */
  lemma {:induction false} RunKeepsInv(t: Timer, es: seq<Event>)
    requires Inv(t)
    ensures Inv(Run(t, es).timer)
    decreases |es|
  {
    if es != [] {
      ApplyKeepsInv(t, es[0]);
      RunKeepsInv(Apply(t, es[0]).timer, es[1..]);
    }
  }

  // ---------------------------------------------------------------- session counter

  /** `timerComplete` tests for a lecture only after `stopTimer` has set the
      mode to idle, so the counter never moves. */
  lemma TimerCompleteKeepsSession(t: Timer, now: int)
    ensures TimerComplete(t, now).timer.currentSession == t.currentSession
  {
  }

  lemma ApplyKeepsSession(t: Timer, e: Event)
    ensures Apply(t, e).timer.currentSession == t.currentSession
  {
    match e
    case IntervalTick(now) =>
      if t.mode != Idle && t.customEndTime.Some? {
        TimerCompleteKeepsSession(t.(timeRemaining := TickRemaining(t, now)), now);
      }
    case _ =>
  }

  lemma {:induction false} RunKeepsSession(t: Timer, es: seq<Event>)
    ensures Run(t, es).timer.currentSession == t.currentSession
    decreases |es|
  {
    if es != [] {
      ApplyKeepsSession(t, es[0]);
      RunKeepsSession(Apply(t, es[0]).timer, es[1..]);
    }
  }

  // ---------------------------------------------------------------- starting and stopping

  /** `startLecture` and `startBreak` begin a fresh countdown of the planned
      duration: right after the start, and for the whole first second, a tick
      computes exactly the planned number of seconds. */
  lemma StartLectureBegins(t: Timer, now: int, later: int)
    requires now <= later < now + SecondMs
    ensures var u := StartLecture(t, now);
      && u.mode == Lecture && u.timeRemaining == t.lectureTime * 60
      && !u.isOvertime && u.customEndTime == None && !u.isMuted
      && u.selectedBreakType == t.selectedBreakType
      && TickRemaining(u, later) == t.lectureTime * 60
      && WithoutSettings(u).(mode := t.mode, timeRemaining := t.timeRemaining, isOvertime := t.isOvertime,
           customEndTime := t.customEndTime, isMuted := t.isMuted, startTime := t.startTime,
           originalTime := t.originalTime) == WithoutSettings(t)
  {
  }

  lemma StartBreakBegins(t: Timer, breakType: int, now: int, later: int)
    requires now <= later < now + SecondMs
    ensures var u := StartBreak(t, breakType, now);
      && u.mode == Break && u.selectedBreakType == breakType
      && u.timeRemaining == 60 * (if breakType == 1 then t.break1Time else t.break2Time)
      && !u.isOvertime && u.customEndTime == None && !u.isMuted
      && TickRemaining(u, later) == u.timeRemaining
  {
  }

  /** The countdown recomputes from the clock: `d` milliseconds after a start
      without custom end time the count is the planned duration less the whole
      seconds elapsed. */
  lemma {:induction false} CountdownFromStart(t: Timer, now: int, d: nat)
    requires t.customEndTime.None?
    ensures TickRemaining(StartTimer(t, now), now + d) == t.timeRemaining - d / SecondMs
  {
    var u := StartTimer(t, now);
    var r := TickRemaining(u, now + d);
    assert (t.timeRemaining - r) * SecondMs <= d < (t.timeRemaining - r) * SecondMs + SecondMs;
    DivUnique(d, t.timeRemaining - r);
  }

  lemma DivUnique(n: int, q: int)
    requires q * SecondMs <= n < q * SecondMs + SecondMs
    ensures n / SecondMs == q
  {
    assert n == SecondMs * (n / SecondMs) + n % SecondMs;
  }

  /** `stopTimer` leaves the idle state of the invariant, and a second call
      changes nothing more. */
  lemma StopTimerIdempotent(t: Timer)
    ensures var u := StopTimer(t);
      && u.mode == Idle && u.timeRemaining == 0 && !u.isOvertime && u.customEndTime == None
      && StopTimer(u) == u
      && (Inv(t) ==> Inv(u))
  {
  }

  /** Starting a break, stopping and starting a lecture leaves no custom end
      time and no overtime behind. */
  lemma BreakStopLecture(t: Timer, now1: int, now2: int)
    ensures var u := StartLecture(StopTimer(StartBreak(t, 1, now1)), now2);
      u.customEndTime == None && !u.isOvertime && u.mode == Lecture
  {
  }

  // ---------------------------------------------------------------- overtime

  /** Overtime begins only on a lecture tick whose count is below zero
      (strictly: a lecture at exactly zero is not overtime). */
  lemma OvertimeOnlyFromLectureTick(t: Timer, e: Event)
    requires Inv(t) && !t.isOvertime && Apply(t, e).timer.isOvertime
    ensures e.IntervalTick? && t.mode == Lecture && TickRemaining(t, e.now) < 0
  {
    match e
    case EndTimeButton(m, now) =>
      if t.mode != Idle && AdjustCandidate(t, m, now) > now {
        RecalculateKeepsOvertime(t.(customEndTime := Some(AdjustCandidate(t, m, now))), now);
      }
    case IntervalTick(now) =>
      if t.customEndTime.Some? {
        RecalculateKeepsOvertime(t, now);
      }
    case StartLectureButton(now) =>
    case StartBreakButton(k, now) =>
    case StopButton =>
    case AutoStart(now) =>
    case MuteButton =>
    case VolumeSlider(p) =>
    case TestSoundButton(c) =>
    case KeyDown(key, input, now) =>
    case SettingsButton(a) => SettingFrame(t, a);
  }

  lemma RecalculateKeepsOvertime(t: Timer, now: int)
    requires t.mode != Idle
    ensures var u := RecalculateTimeRemaining(t, now).timer;
      u.isOvertime == (t.isOvertime && u.mode != Idle)
      && (u.mode == t.mode || u.mode == Idle)
  {
  }

  /** Overtime ends only through `startLecture`, `startBreak` or `stopTimer`:
      neither ticks nor end-time changes clear it. */
  lemma OvertimeClearedOnlyByStartOrStop(t: Timer, e: Event)
    requires Inv(t) && t.isOvertime && !Apply(t, e).timer.isOvertime
    ensures e.MayStartOrStop()
  {
    match e
    case EndTimeButton(m, now) =>
      if AdjustCandidate(t, m, now) > now {
        RecalculateKeepsOvertime(t.(customEndTime := Some(AdjustCandidate(t, m, now))), now);
      }
    case IntervalTick(now) =>
      if t.customEndTime.Some? {
        RecalculateKeepsOvertime(t, now);
      }
    case StartLectureButton(now) =>
    case StartBreakButton(k, now) =>
    case StopButton =>
    case AutoStart(now) =>
    case MuteButton =>
    case VolumeSlider(p) =>
    case TestSoundButton(c) =>
    case KeyDown(key, input, now) =>
    case SettingsButton(a) => SettingFrame(t, a);
  }

  /** A lecture tick: the lecture never completes; it is in overtime exactly
      when it was, or the new count is below zero; the end cue sounds only on
      the flip into overtime. */
  lemma LectureTick(t: Timer, now: int)
    requires t.mode == Lecture
    ensures var s := Tick(t, now); var r := TickRemaining(t, now);
      && s.timer.mode == Lecture
      && s.timer.timeRemaining == r
      && s.timer.isOvertime == (t.isOvertime || r < 0)
      && (End in s.cues <==> !t.isOvertime && r < 0 && Audible(t))
  {
    var s := Tick(t, now);
    var r := TickRemaining(t, now);
    assert s.timer.timeRemaining == r;
    if r < 0 {
      assert Elapsed != End;
    } else {
      assert Warning != End;
    }
  }

  /** The warning cue sounds on a lecture tick exactly when the count equals
      the warning time; nothing stops it from sounding again when a later tick
      computes the same count. */
  lemma WarningCue(t: Timer, now: int)
    requires t.mode == Lecture
    ensures var r := TickRemaining(t, now);
      Warning in Tick(t, now).cues <==> r >= 0 && r == t.warningTime * 60 && Audible(t)
  {
    var s := Tick(t, now);
    var r := TickRemaining(t, now);
    assert s.timer.timeRemaining == r;
    if r < 0 {
      assert Warning != End && Warning != Elapsed;
    }
  }

  /** The overtime cue sounds on a lecture tick exactly when the count is
      below zero and its magnitude is a multiple of the tick interval. */
  lemma ElapsedCue(t: Timer, now: int)
    requires t.mode == Lecture
    ensures var r := TickRemaining(t, now);
      Elapsed in Tick(t, now).cues <==>
        r < 0 && t.tickInterval != 0 && (-r) % t.tickInterval == 0 && Audible(t)
  {
    var s := Tick(t, now);
    var r := TickRemaining(t, now);
    assert s.timer.timeRemaining == r;
    if r < 0 {
      assert End != Elapsed;
    } else {
      assert Warning != Elapsed;
    }
  }

  /** With a tick interval of 60 seconds, the overtime cue sounds 60, 120, ...
      seconds into overtime and not at 30 or 90. */
  lemma ElapsedCueEveryInterval(t: Timer, now: int)
    requires t.mode == Lecture && t.tickInterval == 60 && Audible(t)
    ensures TickRemaining(t, now) == -120 ==> Elapsed in Tick(t, now).cues
    ensures TickRemaining(t, now) == -90 ==> Elapsed !in Tick(t, now).cues
    ensures TickRemaining(t, now) == -30 ==> Elapsed !in Tick(t, now).cues
  {
    ElapsedCue(t, now);
  }

  // ---------------------------------------------------------------- breaks

  /** A break tick whose count reaches zero ends the break: idle, the end cue,
      and a lecture start due one second later; the session counter is
      unchanged. */
  lemma BreakTickCompletes(t: Timer, now: int)
    requires t.mode == Break && TickRemaining(t, now) <= 0
    ensures var s := Tick(t, now);
      && s.timer.mode == Idle && s.timer.timeRemaining == 0
      && !s.timer.isOvertime && s.timer.customEndTime == None
      && s.cues == PlaySound(t, End)
      && s.timer.pendingStarts == t.pendingStarts + [now + AutoStartDelayMs]
      && s.timer.currentSession == t.currentSession
  {
  }

  /** A break tick with time left only updates the count, and plays nothing. */
  lemma BreakTickContinues(t: Timer, now: int)
    requires t.mode == Break && TickRemaining(t, now) > 0
    ensures Tick(t, now) == Step(t.(timeRemaining := TickRemaining(t, now)), [])
  {
  }

  /** The scheduled lecture start is never cancelled: it starts a lecture even
      when a new break is running by then. */
  lemma AutoStartNotCancelled(t: Timer, now: int)
    requires t.pendingStarts != []
    ensures var u := AutoStartDue(t, now);
      && (now >= t.pendingStarts[0] ==>
            u.mode == Lecture && u.pendingStarts == t.pendingStarts[1..]
            && u.timeRemaining == t.lectureTime * 60)
      && (now < t.pendingStarts[0] ==> u == t)
  {
  }

  // ---------------------------------------------------------------- drift

  /** A tick recomputes from the clock and ignores the count it finds. */
  lemma TickIgnoresStoredCount(t: Timer, x: int, now: int)
    requires t.mode != Idle
    ensures Tick(t.(timeRemaining := x), now) == Tick(t, now)
  {
  }

  /** Re-evaluating at the same instant yields the same state (the cues may
      sound again). */
  lemma TickIdempotent(t: Timer, now: int)
    ensures Tick(Tick(t, now).timer, now).timer == Tick(t, now).timer
  {
    var s := Tick(t, now).timer;
    if t.mode != Idle && s.mode != Idle {
      assert s.customEndTime == t.customEndTime && s.startTime == t.startTime && s.originalTime == t.originalTime;
      assert TickRemaining(s, now) == TickRemaining(t, now);
    }
  }

  // ---------------------------------------------------------------- end time

  /** `adjustEndTime` does nothing when idle or when the proposed end time is
      not after `now`. */
  lemma AdjustRejected(t: Timer, minutes: int, now: int)
    requires t.mode == Idle || AdjustCandidate(t, minutes, now) <= now
    ensures AdjustEndTime(t, minutes, now) == Step(t, [])
  {
  }

  /** An accepted adjustment sets the custom end time to a whole minute after
      `now`, recounts from it, and ends a break only when less than one
      second is left. */
  lemma AdjustAccepted(t: Timer, minutes: int, now: int)
    requires t.mode != Idle && AdjustCandidate(t, minutes, now) > now
    ensures var c := AdjustCandidate(t, minutes, now); var s := AdjustEndTime(t, minutes, now);
      && c % MinuteMs == 0
      && (var x := (if t.customEndTime.Some? then t.customEndTime.value else now + t.timeRemaining * SecondMs)
                   + minutes * MinuteMs;
          c <= x < c + MinuteMs)
      && (s.timer.mode == Idle <==> t.mode == Break && c - now < SecondMs)
      && (s.timer.mode != Idle ==>
            s.timer.customEndTime == Some(c) && s.timer.timeRemaining == (c - now) / SecondMs
            && s.timer.timeRemaining >= 0 && s.cues == [])
      && s.timer.isOvertime == (t.isOvertime && s.timer.mode != Idle)
      && (s.timer.mode == Idle ==>
            s.cues == PlaySound(t, End)
            && s.timer.pendingStarts == t.pendingStarts + [now + AutoStartDelayMs]
            && s.timer.currentSession == t.currentSession)
  {
  }

  /** Shortening a break that has five minutes left by ten minutes proposes an
      end time in the past, so it is rejected: the break does not end. */
  lemma ShortenBreakRejected(t: Timer, now: int)
    requires t.mode == Break && t.customEndTime.None? && t.timeRemaining == 300
    ensures AdjustEndTime(t, -10, now) == Step(t, [])
  {
    var c := AdjustCandidate(t, -10, now);
    assert c <= now + 300 * SecondMs - 10 * MinuteMs;
  }

  /** Extending the end time of a lecture in overtime makes the count positive
      again while the overtime flag stays set. */
  lemma ExtensionKeepsOvertime(t: Timer, now: int)
    requires t.mode == Lecture && t.isOvertime && t.customEndTime.None?
    requires t.timeRemaining == -30
    ensures var s := AdjustEndTime(t, 10, now).timer;
      s.isOvertime && s.timeRemaining > 0 && s.mode == Lecture
  {
    var c := AdjustCandidate(t, 10, now);
    assert c > now - 30 * SecondMs + 10 * MinuteMs - MinuteMs;
  }

  // ---------------------------------------------------------------- settings

  /** A step button moves its one setting by one step within its bounds, is
      a no-op at the bound, and changes nothing else. */
  lemma SettingStep(t: Timer, a: SettingAction)
    ensures var v := SettingOf(t, a);
      LowerBound(a) <= v <= UpperBound(a) ==> LowerBound(a) <= SettingOf(AdjustSetting(t, a), a) <= UpperBound(a)
    ensures var v := SettingOf(t, a);
      a.Increases() ==> SettingOf(AdjustSetting(t, a), a) == if v + StepSize(a) <= UpperBound(a) then v + StepSize(a) else UpperBound(a)
    ensures var v := SettingOf(t, a);
      !a.Increases() ==> SettingOf(AdjustSetting(t, a), a) == if v - StepSize(a) >= LowerBound(a) then v - StepSize(a) else LowerBound(a)
  {
  }


  /** A step button changes only the setting it targets, and nothing at all
      when that setting is already at the bound it moves towards. */
  lemma SettingFrame(t: Timer, a: SettingAction)
    ensures WithoutSettings(AdjustSetting(t, a)) == WithoutSettings(t)
    ensures a.Increases() && SettingOf(t, a) == UpperBound(a) ==> AdjustSetting(t, a) == t
    ensures !a.Increases() && SettingOf(t, a) == LowerBound(a) ==> AdjustSetting(t, a) == t
  {
  }

  // ---------------------------------------------------------------- keyboard

  /** No shortcut touches the settings, the volume, the session counter or
      the scheduled starts, and a key changes the mode only to its own target:
      `l` to a lecture, `b` to a break, `s` and Escape to idle. */
  lemma KeyboardFrame(t: Timer, key: string, targetIsInput: bool, now: int)
    ensures var u := HandleKeyboard(t, key, targetIsInput, now);
      && u.lectureTime == t.lectureTime && u.break1Time == t.break1Time
      && u.break2Time == t.break2Time && u.warningTime == t.warningTime
      && u.tickInterval == t.tickInterval && u.volume == t.volume
      && u.currentSession == t.currentSession && u.pendingStarts == t.pendingStarts
      && (u.mode != t.mode ==>
            !targetIsInput
            && (u.mode == Lecture ==> key == "l" || key == "L")
            && (u.mode == Break ==> key == "b" || key == "B")
            && (u.mode == Idle ==> key == "s" || key == "S" || key == "Escape"))
  {
  }
}
