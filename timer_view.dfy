/** The values `TimerApp` computes for the screen: `formatTime`, the timer
    text and progress of `updateDisplay`, the end time of `updateEndTime` and
    the button visibility of `updateButtonStates`. Only the values are
    modelled, not the writes to the page. */
module TimerView {
  import opened Wrappers
  import opened Decimal
  import opened TimerModel

  /** `formatTime`: minutes and seconds of the magnitude, each padded to two
      digits. */
  function FormatTime(seconds: int): string {
    var a := Abs(seconds);
    PadStart(NatToString(a / 60), 2, '0') + ":" + PadStart(NatToString(a % 60), 2, '0')
  }

  /** Reads an `MM:SS` text back: any number of minute digits, a colon, two
      second digits. */
  function ParseTime(text: string): Option<nat> {
    if |text| >= 4 && text[|text| - 3] == ':'
       && AllDigits(text[..|text| - 3]) && AllDigits(text[|text| - 2..])
    then Some(Value(text[..|text| - 3]) * 60 + Value(text[|text| - 2..]))
    else None
  }

  lemma NatToStringBelow100(n: nat)
    requires n < 100
    ensures |NatToString(n)| <= 2
  {
  }

  /** A number rendered and padded with zeros reads back as itself. */
  lemma PaddedValue(n: nat, width: nat)
    ensures var p := PadStart(NatToString(n), width, '0');
      |p| >= width && AllDigits(p) && Value(p) == n
  {
    PadZerosValue(NatToString(n), width);
    NatToStringValue(n);
  }

  lemma JoinFields(m: string, s: string)
    requires |m| >= 2 && |s| == 2 && AllDigits(m) && AllDigits(s)
    ensures var r := m + ":" + s;
      && |r| >= 5 && r[|r| - 3] == ':' && r[..|r| - 3] == m && r[|r| - 2..] == s
      && AllDigits(r[..|r| - 3]) && AllDigits(r[|r| - 2..])
  {
    var r := m + ":" + s;
    assert r[..|r| - 3] == m;
    assert r[|r| - 2..] == s;
  }

  /** `formatTime` ignores the sign. */
  lemma FormatTimeSign(seconds: int)
    ensures FormatTime(seconds) == FormatTime(-seconds)
  {
    assert Abs(-seconds) == Abs(seconds);
  }

  /** The shape of `formatTime`: at least two minute digits, a colon, exactly
      two second digits, holding the minutes and seconds of the magnitude. */
  lemma FormatTimeShape(seconds: int)
    ensures var r := FormatTime(seconds);
      && |r| >= 5 && r[|r| - 3] == ':'
      && AllDigits(r[..|r| - 3]) && AllDigits(r[|r| - 2..])
      && Value(r[..|r| - 3]) == Abs(seconds) / 60
      && Value(r[|r| - 2..]) == Abs(seconds) % 60
  {
    var a := Abs(seconds);
    var q, k := a / 60, a % 60;
    var m := PadStart(NatToString(q), 2, '0');
    var s := PadStart(NatToString(k), 2, '0');
    NatToStringBelow100(k);
    PaddedValue(q, 2);
    PaddedValue(k, 2);
    assert |s| == 2;
    JoinFields(m, s);
    assert FormatTime(seconds) == m + ":" + s;
  }

  lemma ParseFields(r: string, minutes: nat, secs: nat)
    requires |r| >= 5 && r[|r| - 3] == ':'
    requires AllDigits(r[..|r| - 3]) && AllDigits(r[|r| - 2..])
    requires Value(r[..|r| - 3]) == minutes && Value(r[|r| - 2..]) == secs
    ensures ParseTime(r) == Some(minutes * 60 + secs)
  {
  }

  /** Reading back what `formatTime` writes gives the magnitude. */
  lemma FormatTimeRoundTrip(seconds: int)
    ensures ParseTime(FormatTime(seconds)) == Some(Abs(seconds))
  {
    var a := Abs(seconds);
    var q, k := a / 60, a % 60;
    FormatTimeShape(seconds);
    ParseFields(FormatTime(seconds), q, k);
    assert q * 60 + k == a;
  }

  // ---------------------------------------------------------------- timer text

  /** The timer text: the configured lecture length when idle, `+` and the
      overtime in overtime, the count otherwise. */
  function TimerText(t: Timer): string {
    if t.mode == Idle then FormatTime(t.lectureTime * 60)
    else if t.isOvertime then "+" + FormatTime(Abs(t.timeRemaining))
    else FormatTime(t.timeRemaining)
  }

  lemma TimerTextReadsBack(t: Timer)
    ensures var text := TimerText(t);
      && (t.mode == Idle ==> text[0] != '+' && ParseTime(text) == Some(Abs(t.lectureTime * 60)))
      && (t.mode != Idle && t.isOvertime ==>
            text[0] == '+' && ParseTime(text[1..]) == Some(Abs(t.timeRemaining)))
      && (t.mode != Idle && !t.isOvertime ==>
            text[0] != '+' && ParseTime(text) == Some(Abs(t.timeRemaining)))
  {
    var text := TimerText(t);
    if t.mode == Idle {
      FormatTimeRoundTrip(t.lectureTime * 60);
      FormatTimeStartsWithDigit(t.lectureTime * 60);
    } else if t.isOvertime {
      FormatTimeRoundTrip(Abs(t.timeRemaining));
      assert text[1..] == FormatTime(Abs(t.timeRemaining));
    } else {
      FormatTimeRoundTrip(t.timeRemaining);
      FormatTimeStartsWithDigit(t.timeRemaining);
    }
  }

  lemma FormatTimeStartsWithDigit(seconds: int)
    ensures |FormatTime(seconds)| > 0 && IsDigit(FormatTime(seconds)[0])
  {
    FormatTimeShape(seconds);
    var r := FormatTime(seconds);
    assert r[0] == r[..|r| - 3][0];
  }

  // ---------------------------------------------------------------- progress

  /** The planned length of the running session, in seconds. */
  function TotalSeconds(t: Timer): int {
    if t.mode == Lecture then t.lectureTime * 60
    else (if t.selectedBreakType == 1 then t.break1Time else t.break2Time) * 60
  }

  /** The width of the progress bar, in percent. Defined where JavaScript's
      division yields a finite number. */
  function Progress(t: Timer): real
    requires t.mode == Idle || t.isOvertime || TotalSeconds(t) != 0
  {
    if t.mode == Idle then 0.0
    else if t.isOvertime then 100.0
    else ((TotalSeconds(t) - t.timeRemaining) as real / TotalSeconds(t) as real) * 100.0
  }

  lemma ProgressBounds(t: Timer)
    requires Inv(t)
    ensures t.mode == Idle ==> Progress(t) == 0.0
    ensures t.isOvertime ==> Progress(t) == 100.0
    ensures t.mode != Idle && !t.isOvertime && 0 <= t.timeRemaining <= TotalSeconds(t) ==>
      0.0 <= Progress(t) <= 100.0
    ensures t.mode != Idle && !t.isOvertime && t.timeRemaining == TotalSeconds(t) ==> Progress(t) == 0.0
    ensures t.mode != Idle && !t.isOvertime && t.timeRemaining == 0 ==> Progress(t) == 100.0
  {
    if t.mode != Idle && !t.isOvertime {
      var total := TotalSeconds(t) as real;
      var done := (TotalSeconds(t) - t.timeRemaining) as real;
      if 0 <= t.timeRemaining <= TotalSeconds(t) {
        RatioBounds(done, total);
      }
      if t.timeRemaining == 0 {
        assert done == total;
        RatioBounds(done, total);
      }
    }
  }

  lemma RatioBounds(x: real, y: real)
    requires 0.0 <= x <= y && y > 0.0
    ensures 0.0 <= x / y <= 1.0
    ensures x == y ==> x / y == 1.0
  {
  }

  lemma RatioMonotone(x1: real, x2: real, y: real)
    requires x2 <= x1 && y > 0.0
    ensures x2 / y <= x1 / y
  {
  }

  /** Less time left means a fuller bar. */
  lemma ProgressMonotone(t: Timer, r1: int, r2: int)
    requires Inv(t) && t.mode != Idle && !t.isOvertime && r1 <= r2
    ensures Progress(t.(timeRemaining := r2)) <= Progress(t.(timeRemaining := r1))
  {
    RatioMonotone((TotalSeconds(t) - r1) as real, (TotalSeconds(t) - r2) as real, TotalSeconds(t) as real);
  }

  // ---------------------------------------------------------------- end time

  /** The end time shown, in milliseconds; `None` is the `--:--:--` shown
      when idle. */
  function EndTime(t: Timer, now: int): Option<int> {
    if t.mode == Idle then None
    else if t.customEndTime.Some? then t.customEndTime
    else if t.timeRemaining > 0 then Some(now + t.timeRemaining * SecondMs)
    else Some(now)
  }

  /** The end time shown agrees with the count: it is `now` plus the time left
      (never before `now`) unless a custom end time is set, which it shows as
      is. After a tick at `now` with a custom end time, the count is the whole
      seconds up to the end shown. */
  lemma EndTimeAgrees(t: Timer, now: int)
    ensures t.mode == Idle <==> EndTime(t, now).None?
    ensures t.mode != Idle && t.customEndTime.None? ==>
      EndTime(t, now) == Some(now + Max(t.timeRemaining, 0) * SecondMs)
    ensures t.mode != Idle && t.customEndTime.Some? ==> EndTime(t, now) == t.customEndTime
    ensures t.mode == Lecture && t.customEndTime.Some? ==>
      var s := Tick(t, now).timer;
      s.timeRemaining * SecondMs <= EndTime(s, now).value - now < s.timeRemaining * SecondMs + SecondMs
  {
    if t.mode == Lecture && t.customEndTime.Some? {
      LectureTickCount(t, now);
    }
  }

  lemma LectureTickCount(t: Timer, now: int)
    requires t.mode == Lecture
    ensures Tick(t, now).timer.timeRemaining == TickRemaining(t, now)
    ensures Tick(t, now).timer.customEndTime == t.customEndTime
    ensures Tick(t, now).timer.mode == Lecture
  {
  }

  /** In overtime without a custom end time the end time shown is `now`, but
      `adjustEndTime` starts from `now` plus the (negative) count: two minutes
      into overtime, one more minute is still in the past and is refused. */
  lemma OvertimeAdjustStartsInPast(t: Timer, now: int)
    requires t.mode == Lecture && t.isOvertime && t.customEndTime.None? && t.timeRemaining == -120
    ensures EndTime(t, now) == Some(now)
    ensures AdjustEndTime(t, 1, now) == Step(t, [])
  {
    var c := AdjustCandidate(t, 1, now);
    assert c <= now - 120 * SecondMs + MinuteMs;
  }

  // ---------------------------------------------------------------- buttons

  datatype Buttons = Buttons(startLecture: bool, startLectureBreak: bool, startBreak1: bool,
                             startBreak2: bool, stop: bool)

  /** `updateButtonStates`: which buttons are shown in each mode. */
  function ButtonStates(mode: Mode): Buttons {
    Buttons(mode == Idle, mode == Break, mode != Break, mode != Break, mode == Lecture || mode == Break)
  }

  /** The shortcuts `l`, `b` and `s` act exactly when the button they stand
      for is shown. */
  lemma ShortcutsMatchButtons(t: Timer, now: int)
    ensures var b := ButtonStates(t.mode);
      && HandleKeyboard(t, "l", false, now) == (if b.startLecture then StartLecture(t, now) else t)
      && HandleKeyboard(t, "b", false, now) == (if b.startBreak1 then StartBreak(t, 1, now) else t)
      && HandleKeyboard(t, "s", false, now) == (if b.stop then StopTimer(t) else t)
      && (b.stop <==> !b.startLecture)
      && (b.startLectureBreak <==> !b.startBreak1)
  {
  }
}
