/** The lecture/break timer of `TimerApp` as a value: the fields the app keeps,
    one function per handler that changes them, and what those handlers promise.
    The wall clock is an explicit `now` in milliseconds; every periodic callback
    and every deferred call is an explicit event. */
module TimerModel {
  import opened Wrappers

  datatype Mode = Idle | Lecture | Break

  /** The three sounds: sound1 (warning), sound2 (end), sound3 (overtime tick). */
  datatype Cue = Warning | End | Elapsed

  /** Every field of the app that the timer logic reads or writes. Durations
      are in minutes, `tickInterval` in seconds, `timeRemaining` in seconds,
      `customEndTime`, `startTime` and the due times of `pendingStarts` in
      milliseconds. `volume` is the slider's percentage. `startTime` and
      `originalTime` are the two values the running interval captured when
      it was started. */
  datatype Timer = Timer(
    mode: Mode,
    timeRemaining: int,
    isOvertime: bool,
    customEndTime: Option<int>,
    selectedBreakType: int,
    lectureTime: int,
    break1Time: int,
    break2Time: int,
    warningTime: int,
    tickInterval: int,
    volume: int,
    isMuted: bool,
    currentSession: int,
    startTime: int,
    originalTime: int,
    pendingStarts: seq<int>)

  /** A new state and the sounds played on the way to it, in order. */
  datatype Step = Step(timer: Timer, cues: seq<Cue>)

  const SecondMs := 1000
  const MinuteMs := 60000
  /** Delay of the automatic lecture start after a break ends. */
  const AutoStartDelayMs := 1000

  /** The state the constructor leaves (no stored settings). */
  function Initial(): (t: Timer)
    ensures Inv(t) && t.mode == Idle && t.currentSession == 1 && t.pendingStarts == []
  {
    Timer(Idle, 0, false, None, 1, 50, 10, 60, 3, 60, 50, false, 1, 0, 0, [])
  }

  /** What holds of every state the handlers can reach from `Initial()`. */
  predicate Inv(t: Timer) {
    && 1 <= t.lectureTime <= 300
    && 1 <= t.break1Time <= 120
    && 1 <= t.break2Time <= 120
    && 1 <= t.warningTime <= 10
    && 10 <= t.tickInterval <= 300
    && (t.mode == Idle ==> t.timeRemaining == 0 && !t.isOvertime && t.customEndTime == None)
    && (t.isOvertime ==> t.mode == Lecture)
  }

  // ---------------------------------------------------------------- arithmetic

  /** `Math.floor(ms / d)` for a positive divisor. */
  function FloorDiv(ms: int, d: int): (q: int)
    requires d > 0
    ensures q * d <= ms < q * d + d
  {
    ms / d
  }

  /** `setSeconds(0, 0)`: the start of the minute that holds `ms` (for a time
      zone whose offset from UTC is a whole number of minutes). */
  function TruncateToMinute(ms: int): (r: int)
    ensures r % MinuteMs == 0
    ensures r <= ms < r + MinuteMs
  {
    ms - ms % MinuteMs
  }

  function Abs(x: int): (r: nat)
    ensures r == x || r == -x
  {
    if x < 0 then -x else x
  }

  function Min(a: int, b: int): int { if a < b then a else b }

  function Max(a: int, b: int): int { if a < b then b else a }

  // ---------------------------------------------------------------- sounds

  /** The gate of `playSound`: a cue sounds only with a positive volume and
      while not muted. */
  predicate Audible(t: Timer) {
    t.volume > 0 && !t.isMuted
  }

  function PlaySound(t: Timer, c: Cue): (cues: seq<Cue>)
    ensures |cues| <= 1
    ensures c in cues <==> t.volume > 0 && !t.isMuted
    ensures forall x :: x in cues ==> x == c
  {
    if Audible(t) then [c] else []
  }

  /** `checkSoundTriggers`: the warning cue when a lecture shows exactly the
      warning time. */
  function CheckSoundTriggers(t: Timer): seq<Cue> {
    if t.mode == Lecture && t.timeRemaining == t.warningTime * 60 then PlaySound(t, Warning) else []
  }

  /** `checkOvertimeSounds`: the overtime cue at every multiple of the tick
      interval. A zero interval makes JavaScript's `%` yield NaN, which is
      never equal to 0. */
  function CheckOvertimeSounds(t: Timer): seq<Cue> {
    var over := Abs(t.timeRemaining);
    if t.mode == Lecture && t.isOvertime && over > 0 && t.tickInterval != 0 && over % t.tickInterval == 0
    then PlaySound(t, Elapsed)
    else []
  }

  // ---------------------------------------------------------------- sessions

  function BreakMinutes(t: Timer, breakType: int): int {
    if breakType == 1 then t.break1Time else t.break2Time
  }

  /** `startTimer`: the interval captures the clock and the current count. */
  function StartTimer(t: Timer, now: int): Timer {
    t.(startTime := now, originalTime := t.timeRemaining)
  }

  function StartLecture(t: Timer, now: int): (u: Timer)
    ensures Inv(t) ==> Inv(u)
  {
    StartTimer(t.(mode := Lecture, timeRemaining := t.lectureTime * 60, isOvertime := false,
                  isMuted := false, customEndTime := None), now)
  }

  function StartBreak(t: Timer, breakType: int, now: int): (u: Timer)
    ensures Inv(t) ==> Inv(u)
  {
    StartTimer(t.(mode := Break, selectedBreakType := breakType,
                  timeRemaining := BreakMinutes(t, breakType) * 60, isOvertime := false,
                  isMuted := false, customEndTime := None), now)
  }

  function StopTimer(t: Timer): (u: Timer)
    ensures Inv(t) ==> Inv(u)
  {
    t.(mode := Idle, timeRemaining := 0, isOvertime := false, customEndTime := None)
  }

  /** `timerComplete`: stop, play the end cue, and after a break schedule a
      lecture start. The session counter is tested after `stopTimer` has
      already set the mode to idle. */
  function TimerComplete(t: Timer, now: int): Step {
    var wasBreak := t.mode == Break;
    var stopped := StopTimer(t);
    var cues := PlaySound(stopped, End);
    var counted := if stopped.mode == Lecture then stopped.(currentSession := stopped.currentSession + 1) else stopped;
    var scheduled := if wasBreak then counted.(pendingStarts := counted.pendingStarts + [now + AutoStartDelayMs]) else counted;
    Step(scheduled, cues)
  }

  /** The timeouts of `setTimeout` fire in the order they were set; the
      oldest one is due once the clock reaches its due time. */
  predicate StartDue(t: Timer, now: int) {
    t.pendingStarts != [] && t.pendingStarts[0] <= now
  }

  /** The deferred `startLecture` of a completed break comes due. Nothing
      cancels it: it starts a lecture whatever is running by then. */
  function AutoStartDue(t: Timer, now: int): (u: Timer)
    ensures Inv(t) ==> Inv(u)
  {
    if StartDue(t, now) then StartLecture(t.(pendingStarts := t.pendingStarts[1..]), now) else t
  }

  // ---------------------------------------------------------------- ticking

  /** The count a tick computes: from the custom end time when one is set,
      otherwise from the values captured when the interval started. */
  function TickRemaining(t: Timer, now: int): (r: int)
    ensures t.customEndTime.Some? ==> r * SecondMs <= t.customEndTime.value - now < r * SecondMs + SecondMs
    ensures t.customEndTime.None? ==>
      (t.originalTime - r) * SecondMs <= now - t.startTime < (t.originalTime - r) * SecondMs + SecondMs
  {
    match t.customEndTime
    case Some(c) => FloorDiv(c - now, SecondMs)
    case None => t.originalTime - FloorDiv(now - t.startTime, SecondMs)
  }

  /** `recalculateTimeRemaining`. */
  function RecalculateTimeRemaining(t: Timer, now: int): Step {
    match t.customEndTime
    case None => Step(t, [])
    case Some(c) =>
      var s := t.(timeRemaining := FloorDiv(c - now, SecondMs));
      if s.timeRemaining <= 0 && s.mode == Break then TimerComplete(s, now) else Step(s, [])
  }

  /** The first half of a tick: the count recomputed from the clock. */
  function Recount(t: Timer, now: int): Step {
    if t.customEndTime.Some? then RecalculateTimeRemaining(t, now)
    else Step(t.(timeRemaining := t.originalTime - FloorDiv(now - t.startTime, SecondMs)), [])
  }

  /** The second half of a tick: overtime for a lecture below zero, completion
      for a break at or below zero, the warning check otherwise. */
  function AfterCount(s: Timer, now: int): Step {
    if s.timeRemaining < 0 && s.mode == Lecture then
      var over := s.(isOvertime := true);
      var endCue := if !s.isOvertime then PlaySound(s, End) else [];
      Step(over, endCue + CheckOvertimeSounds(over))
    else if s.timeRemaining <= 0 && s.mode == Break then
      TimerComplete(s, now)
    else
      Step(s, CheckSoundTriggers(s))
  }

  /** One firing of the interval. Without a running session there is no
      interval, so nothing happens. */
  function Tick(t: Timer, now: int): Step {
    if t.mode == Idle then Step(t, [])
    else
      var counted := Recount(t, now);
      var rest := AfterCount(counted.timer, now);
      Step(rest.timer, counted.cues + rest.cues)
  }

  // ---------------------------------------------------------------- end time

  /** The end time `adjustEndTime(minutes)` proposes, seconds zeroed. */
  function AdjustCandidate(t: Timer, minutes: int, now: int): (c: int)
    ensures c % MinuteMs == 0
    ensures var x := (if t.customEndTime.Some? then t.customEndTime.value else now + t.timeRemaining * SecondMs)
                     + minutes * MinuteMs;
      c <= x < c + MinuteMs
  {
    var current := if t.customEndTime.Some? then t.customEndTime.value else now + t.timeRemaining * SecondMs;
    TruncateToMinute(current + minutes * MinuteMs)
  }

  function AdjustEndTime(t: Timer, minutes: int, now: int): Step {
    if t.mode == Idle then Step(t, [])
    else
      var candidate := AdjustCandidate(t, minutes, now);
      if candidate <= now then Step(t, [])
      else RecalculateTimeRemaining(t.(customEndTime := Some(candidate)), now)
  }

  // ---------------------------------------------------------------- settings

  /** The step buttons of the settings dialog. */
  datatype SettingAction =
    | IncreaseLecture | DecreaseLecture
    | IncreaseBreak1 | DecreaseBreak1
    | IncreaseBreak2 | DecreaseBreak2
    | IncreaseWarning | DecreaseWarning
    | IncreaseTickInterval | DecreaseTickInterval
  {
    predicate Increases() {
      IncreaseLecture? || IncreaseBreak1? || IncreaseBreak2? || IncreaseWarning? || IncreaseTickInterval?
    }
  }

  function AdjustSetting(t: Timer, a: SettingAction): (u: Timer)
    ensures Inv(t) ==> Inv(u)
  {
    match a
    case IncreaseLecture => t.(lectureTime := Min(300, t.lectureTime + 1))
    case DecreaseLecture => t.(lectureTime := Max(1, t.lectureTime - 1))
    case IncreaseBreak1 => t.(break1Time := Min(120, t.break1Time + 1))
    case DecreaseBreak1 => t.(break1Time := Max(1, t.break1Time - 1))
    case IncreaseBreak2 => t.(break2Time := Min(120, t.break2Time + 1))
    case DecreaseBreak2 => t.(break2Time := Max(1, t.break2Time - 1))
    case IncreaseWarning => t.(warningTime := Min(10, t.warningTime + 1))
    case DecreaseWarning => t.(warningTime := Max(1, t.warningTime - 1))
    case IncreaseTickInterval => t.(tickInterval := Min(300, t.tickInterval + 10))
    case DecreaseTickInterval => t.(tickInterval := Max(10, t.tickInterval - 10))
  }

  /** The setting a step button targets, its bounds and its step. */
  function SettingOf(t: Timer, a: SettingAction): int {
    match a
    case IncreaseLecture | DecreaseLecture => t.lectureTime
    case IncreaseBreak1 | DecreaseBreak1 => t.break1Time
    case IncreaseBreak2 | DecreaseBreak2 => t.break2Time
    case IncreaseWarning | DecreaseWarning => t.warningTime
    case IncreaseTickInterval | DecreaseTickInterval => t.tickInterval
  }

  function LowerBound(a: SettingAction): int {
    if a.IncreaseTickInterval? || a.DecreaseTickInterval? then 10 else 1
  }

  function UpperBound(a: SettingAction): int {
    match a
    case IncreaseLecture | DecreaseLecture | IncreaseTickInterval | DecreaseTickInterval => 300
    case IncreaseBreak1 | DecreaseBreak1 | IncreaseBreak2 | DecreaseBreak2 => 120
    case IncreaseWarning | DecreaseWarning => 10
  }

  function StepSize(a: SettingAction): int {
    if a.IncreaseTickInterval? || a.DecreaseTickInterval? then 10 else 1
  }

  /** Everything but the five durations. */
  function WithoutSettings(t: Timer): Timer {
    t.(lectureTime := 0, break1Time := 0, break2Time := 0, warningTime := 0, tickInterval := 0)
  }

  // ---------------------------------------------------------------- keyboard

  /** `handleKeyboard`. Keys typed into an input field are ignored; the
      fullscreen, theme and arrow keys change nothing the timer keeps. */
  function HandleKeyboard(t: Timer, key: string, targetIsInput: bool, now: int): (u: Timer)
    ensures Inv(t) ==> Inv(u)
  {
    if targetIsInput then t
    else if key == "l" || key == "L" then
      (if t.mode == Idle then StartLecture(t, now) else t)
    else if key == "b" || key == "B" then
      (if t.mode != Break then StartBreak(t, 1, now) else t)
    else if key == "s" || key == "S" || key == "Escape" then
      (if t.mode != Idle then StopTimer(t) else t)
    else t
  }

  // ---------------------------------------------------------------- events

  datatype Event =
    | StartLectureButton(now: int)
    | StartBreakButton(breakType: int, now: int)
    | StopButton
    | IntervalTick(now: int)
    | EndTimeButton(minutes: int, now: int)
    | AutoStart(now: int)
    | SettingsButton(action: SettingAction)
    | MuteButton
    | VolumeSlider(percent: int)
    | TestSoundButton(cue: Cue)
    | KeyDown(key: string, targetIsInput: bool, now: int)
  {
    /** The events whose handlers may call `startLecture`, `startBreak` or `stopTimer` directly. */
    predicate MayStartOrStop() {
      StartLectureButton? || StartBreakButton? || StopButton? || AutoStart? || KeyDown?
    }
  }

  function Apply(t: Timer, e: Event): Step {
    match e
    case StartLectureButton(now) => Step(StartLecture(t, now), [])
    case StartBreakButton(k, now) => Step(StartBreak(t, k, now), [])
    case StopButton => Step(StopTimer(t), [])
    case IntervalTick(now) => Tick(t, now)
    case EndTimeButton(m, now) => AdjustEndTime(t, m, now)
    case AutoStart(now) => Step(AutoStartDue(t, now), [])
    case SettingsButton(a) => Step(AdjustSetting(t, a), [])
    case MuteButton => Step(t.(isMuted := !t.isMuted), [])
    case VolumeSlider(p) => Step(t.(volume := p), [])
    case TestSoundButton(c) => Step(t, PlaySound(t, c))
    case KeyDown(key, input, now) => Step(HandleKeyboard(t, key, input, now), [])
  }

  function Run(t: Timer, es: seq<Event>): Step
    decreases |es|
  {
    if es == [] then Step(t, [])
    else
      var first := Apply(t, es[0]);
      var rest := Run(first.timer, es[1..]);
      Step(rest.timer, first.cues + rest.cues)
  }
}
