/** `TimerApp` as the object the page keeps: the handlers assign its fields
    step by step, as the original does, and each is proved to leave the state
    that the matching function of TimerModel describes. Sounds go to a ghost
    log of cues. */
module App {
  import opened Wrappers
  import opened TimerModel
  import TimerProperties

  class TimerApp {
    var mode: Mode
    var timeRemaining: int
    var isOvertime: bool
    var customEndTime: Option<int>
    var selectedBreakType: int
    var lectureTime: int
    var break1Time: int
    var break2Time: int
    var warningTime: int
    var tickInterval: int
    var volume: int
    var isMuted: bool
    var currentSession: int
    /** Captured by `startTimer` for the running interval. */
    var startTime: int
    var originalTime: int
    /** Due times of the scheduled automatic lecture starts. */
    var pendingStarts: seq<int>
    /** Every cue played so far, in order. */
    ghost var cues: seq<Cue>

    function Model(): Timer
      reads this
    {
      Timer(mode, timeRemaining, isOvertime, customEndTime, selectedBreakType,
            lectureTime, break1Time, break2Time, warningTime, tickInterval,
            volume, isMuted, currentSession, startTime, originalTime, pendingStarts)
    }

    ghost predicate Valid()
      reads this
    {
      Inv(Model())
    }

    constructor ()
      ensures Model() == Initial() && Valid() && cues == []
    {
      mode, timeRemaining, isOvertime, customEndTime := Idle, 0, false, None;
      selectedBreakType := 1;
      lectureTime, break1Time, break2Time, warningTime, tickInterval := 50, 10, 60, 3, 60;
      volume, isMuted, currentSession := 50, false, 1;
      startTime, originalTime, pendingStarts := 0, 0, [];
      cues := [];
    }

    method PlaySound(c: Cue)
      modifies this
      ensures Model() == old(Model())
      ensures cues == old(cues) + TimerModel.PlaySound(old(Model()), c)
    {
      if volume > 0 && !isMuted {
        cues := cues + [c];
      }
    }

    method UnmuteSounds()
      modifies this
      ensures Model() == old(Model()).(isMuted := false) && cues == old(cues)
    {
      if isMuted {
        isMuted := false;
      }
    }

    method ToggleMute()
      requires Valid()
      modifies this
      ensures Valid() && Model() == old(Model()).(isMuted := !old(isMuted)) && cues == old(cues)
    {
      isMuted := !isMuted;
    }

    /** The volume slider, in percent. */
    method SetVolume(percent: int)
      requires Valid()
      modifies this
      ensures Valid() && Model() == old(Model()).(volume := percent) && cues == old(cues)
    {
      volume := percent;
    }

    /** The test buttons of the settings dialog. */
    method TestSound(c: Cue)
      modifies this
      ensures Model() == old(Model())
      ensures cues == old(cues) + TimerModel.PlaySound(old(Model()), c)
    {
      PlaySound(c);
    }

    method StartTimer(now: int)
      modifies this
      ensures Model() == TimerModel.StartTimer(old(Model()), now) && cues == old(cues)
    {
      startTime := now;
      originalTime := timeRemaining;
    }

    method StartLecture(now: int)
      modifies this
      ensures Model() == TimerModel.StartLecture(old(Model()), now) && cues == old(cues)
      ensures old(Valid()) ==> Valid()
    {
      ghost var before := Model();
      mode := Lecture;
      timeRemaining := lectureTime * 60;
      isOvertime := false;
      UnmuteSounds();
      customEndTime := None;
      assert Model() == before.(mode := Lecture, timeRemaining := before.lectureTime * 60,
                                isOvertime := false, isMuted := false, customEndTime := None);
      StartTimer(now);
    }

    method StartBreak(breakType: int, now: int)
      modifies this
      ensures Model() == TimerModel.StartBreak(old(Model()), breakType, now) && cues == old(cues)
      ensures old(Valid()) ==> Valid()
    {
      ghost var before := Model();
      mode := Break;
      selectedBreakType := breakType;
      var breakTime := if breakType == 1 then break1Time else break2Time;
      timeRemaining := breakTime * 60;
      isOvertime := false;
      UnmuteSounds();
      customEndTime := None;
      assert Model() == before.(mode := Break, selectedBreakType := breakType,
                                timeRemaining := BreakMinutes(before, breakType) * 60,
                                isOvertime := false, isMuted := false, customEndTime := None);
      StartTimer(now);
    }

    method StopTimer()
      modifies this
      ensures Model() == TimerModel.StopTimer(old(Model())) && cues == old(cues)
      ensures old(Valid()) ==> Valid()
    {
      mode := Idle;
      timeRemaining := 0;
      isOvertime := false;
      customEndTime := None;
    }

    method TimerComplete(now: int)
      modifies this
      ensures Model() == TimerModel.TimerComplete(old(Model()), now).timer
      ensures cues == old(cues) + TimerModel.TimerComplete(old(Model()), now).cues
    {
      var wasBreak := mode == Break;
      StopTimer();
      PlaySound(End);
      currentSession := currentSession + (if mode == Lecture then 1 else 0);
      if wasBreak {
        pendingStarts := pendingStarts + [now + AutoStartDelayMs];
      }
    }

    /** The scheduled `startLecture` of a completed break comes due. */
    method AutoStartDue(now: int)
      requires Valid()
      modifies this
      ensures Valid() && Model() == TimerModel.AutoStartDue(old(Model()), now) && cues == old(cues)
    {
      if pendingStarts != [] && pendingStarts[0] <= now {
        pendingStarts := pendingStarts[1..];
        StartLecture(now);
      }
    }

    method CheckSoundTriggers()
      modifies this
      ensures Model() == old(Model())
      ensures cues == old(cues) + TimerModel.CheckSoundTriggers(old(Model()))
    {
      if mode == Lecture {
        if timeRemaining == warningTime * 60 {
          PlaySound(Warning);
        }
      }
    }

    method CheckOvertimeSounds()
      modifies this
      ensures Model() == old(Model())
      ensures cues == old(cues) + TimerModel.CheckOvertimeSounds(old(Model()))
    {
      if mode == Lecture && isOvertime {
        var overtimeSeconds := Abs(timeRemaining);
        if overtimeSeconds > 0 && tickInterval != 0 && overtimeSeconds % tickInterval == 0 {
          PlaySound(Elapsed);
        }
      }
    }

    method RecalculateTimeRemaining(now: int)
      modifies this
      ensures Model() == TimerModel.RecalculateTimeRemaining(old(Model()), now).timer
      ensures cues == old(cues) + TimerModel.RecalculateTimeRemaining(old(Model()), now).cues
    {
      if customEndTime.Some? {
        timeRemaining := FloorDiv(customEndTime.value - now, SecondMs);
        if timeRemaining <= 0 && mode == Break {
          TimerComplete(now);
        }
      }
    }

    /** The part of the interval callback after the count is updated. */
    method AfterCount(now: int)
      modifies this
      ensures Model() == TimerModel.AfterCount(old(Model()), now).timer
      ensures cues == old(cues) + TimerModel.AfterCount(old(Model()), now).cues
    {
      if timeRemaining < 0 && mode == Lecture {
        ghost var c0 := cues;
        if !isOvertime {
          isOvertime := true;
          PlaySound(End);
        }
        assert cues == c0 + (if !old(isOvertime) then TimerModel.PlaySound(old(Model()), End) else []);
        CheckOvertimeSounds();
      } else if timeRemaining <= 0 && mode == Break {
        TimerComplete(now);
      } else {
        CheckSoundTriggers();
      }
    }

    /** One firing of the interval that `startTimer` registers. */
    method Tick(now: int)
      requires Valid()
      modifies this
      ensures Valid()
      ensures Model() == TimerModel.Tick(old(Model()), now).timer
      ensures cues == old(cues) + TimerModel.Tick(old(Model()), now).cues
    {
      ghost var before := Model();
      if mode == Idle {
        return;
      }
      if customEndTime.Some? {
        RecalculateTimeRemaining(now);
      } else {
        var elapsed := FloorDiv(now - startTime, SecondMs);
        timeRemaining := originalTime - elapsed;
      }
      ghost var counted := Recount(before, now);
      assert Model() == counted.timer && cues == old(cues) + counted.cues;
      AfterCount(now);
      ghost var rest := TimerModel.AfterCount(counted.timer, now);
      assert cues == old(cues) + counted.cues + rest.cues;
      assert old(cues) + counted.cues + rest.cues == old(cues) + (counted.cues + rest.cues);
      TimerProperties.TickKeepsInv(before, now);
    }

    method AdjustEndTime(minutes: int, now: int)
      requires Valid()
      modifies this
      ensures Valid()
      ensures Model() == TimerModel.AdjustEndTime(old(Model()), minutes, now).timer
      ensures cues == old(cues) + TimerModel.AdjustEndTime(old(Model()), minutes, now).cues
    {
      ghost var before := Model();
      if mode == Idle {
        return;
      }
      var currentEndTime := if customEndTime.Some? then customEndTime.value else now + timeRemaining * SecondMs;
      var newEndTime := TruncateToMinute(currentEndTime + minutes * MinuteMs);
      if newEndTime <= now {
        return;
      }
      customEndTime := Some(newEndTime);
      RecalculateTimeRemaining(now);
      TimerProperties.ApplyKeepsInv(before, EndTimeButton(minutes, now));
    }

    /** The step buttons of the settings dialog. */
    method AdjustSetting(action: SettingAction)
      requires Valid()
      modifies this
      ensures Valid() && Model() == TimerModel.AdjustSetting(old(Model()), action) && cues == old(cues)
    {
      match action
      case IncreaseLecture => lectureTime := Min(300, lectureTime + 1);
      case DecreaseLecture => lectureTime := Max(1, lectureTime - 1);
      case IncreaseBreak1 => break1Time := Min(120, break1Time + 1);
      case DecreaseBreak1 => break1Time := Max(1, break1Time - 1);
      case IncreaseBreak2 => break2Time := Min(120, break2Time + 1);
      case DecreaseBreak2 => break2Time := Max(1, break2Time - 1);
      case IncreaseWarning => warningTime := Min(10, warningTime + 1);
      case DecreaseWarning => warningTime := Max(1, warningTime - 1);
      case IncreaseTickInterval => tickInterval := Min(300, tickInterval + 10);
      case DecreaseTickInterval => tickInterval := Max(10, tickInterval - 10);
    }

    method HandleKeyboard(key: string, targetIsInput: bool, now: int)
      requires Valid()
      modifies this
      ensures Valid()
      ensures Model() == TimerModel.HandleKeyboard(old(Model()), key, targetIsInput, now) && cues == old(cues)
    {
      if targetIsInput {
        return;
      }
      if key == "l" || key == "L" {
        if mode == Idle {
          StartLecture(now);
        }
      } else if key == "b" || key == "B" {
        if mode != Break {
          StartBreak(1, now);
        }
      } else if key == "s" || key == "S" || key == "Escape" {
        if mode != Idle {
          StopTimer();
        }
      }
    }
  }
}
