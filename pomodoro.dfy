/**
 * The Pomodoro timer engine as a value-level state machine.
 *
 * A `Session` holds the component state of the timer screen. Every handler is
 * one atomic update of that state. After it, React re-renders; the countdown
 * effect then re-runs only if one of its dependencies changed (isRunning,
 * timeRemaining, isWorkMode, workDuration, breakDuration). When it re-runs
 * while running with nothing left, it announces the end of the interval and
 * schedules a mode flip three seconds later. That deferred flip is never
 * cancelled. It captures the target mode and duration at scheduling time, so
 * `pending` is a queue of such flips; `Settle` is the firing of the oldest one,
 * whatever the timer is doing then. Wall-clock time is not modelled: one `Tick`
 * is one firing of the one-second interval.
 */
module Pomodoro {
  import opened Clock

  const MinWork := 5
  const MaxWork := 90
  const MinBreak := 5
  const MaxBreak := 50
  const DefaultWork := 25
  const DefaultBreak := 5

  /** The sound played when an interval ends. */
  datatype Cue = EndWork | EndBreak

  /** A scheduled mode flip: the mode it selects and the seconds it loads. */
  datatype Flip = Flip(toWork: bool, seconds: int)

  datatype Session = Session(
    isRunning: bool,
    isWorkMode: bool,
    timeRemaining: int,
    isTimeEditMode: bool,
    workDuration: int,
    breakDuration: int,
    isSoundEnable: bool,
    pending: seq<Flip>,
    announced: seq<Cue>)

  /** The slider bounds of the two durations, in minutes. */
  predicate WorkInRange(minutes: int) { MinWork <= minutes <= MaxWork }
  predicate BreakInRange(minutes: int) { MinBreak <= minutes <= MaxBreak }

  /** A flip loads a whole number of minutes within its mode's bounds. */
  predicate FlipOk(f: Flip) {
    f.seconds % 60 == 0
    && if f.toWork then WorkInRange(f.seconds / 60) else BreakInRange(f.seconds / 60)
  }

  predicate Valid(s: Session) {
    && s.timeRemaining >= 0
    && WorkInRange(s.workDuration)
    && BreakInRange(s.breakDuration)
    && forall i :: 0 <= i < |s.pending| ==> FlipOk(s.pending[i])
  }

  /**
   * The invariant of every reachable session: it is valid, and a timer that
   * runs with nothing left is always waiting for a flip (it never stalls at zero).
   */
  predicate Inv(s: Session) {
    Valid(s) && (s.isRunning && s.timeRemaining == 0 ==> s.pending != [])
  }

  /** The configured duration, in minutes, of the current mode. */
  function ActiveDuration(s: Session): int {
    if s.isWorkMode then s.workDuration else s.breakDuration
  }

  /** The configured duration, in minutes, of the other mode. */
  function OtherDuration(s: Session): int {
    if s.isWorkMode then s.breakDuration else s.workDuration
  }

  /**
   * `displayTime`: the full duration of the current mode while stopped with
   * nothing left, the remaining seconds otherwise. A stopped timer never shows zero.
   */
  function DisplayTime(s: Session): (r: int)
    ensures s.isRunning ==> r == s.timeRemaining
    ensures Valid(s) ==> r >= 0
    ensures Valid(s) && !s.isRunning ==> r > 0
    ensures s.timeRemaining != 0 ==> r == s.timeRemaining
    ensures !s.isRunning && s.timeRemaining == 0 ==> r == MinutesToSeconds(ActiveDuration(s))
  {
    if !s.isRunning && s.timeRemaining == 0 then MinutesToSeconds(ActiveDuration(s)) else s.timeRemaining
  }

  /** The big timer text: the static duration in edit mode, the formatted display time otherwise. */
  function TimerText(s: Session): string
    requires Valid(s)
  {
    if s.isTimeEditMode then EditText(ActiveDuration(s)) else FormatTime(DisplayTime(s))
  }

  /** The state the app starts in, with the persisted settings it reads back. */
  function Initial(workDuration: int, breakDuration: int, isSoundEnable: bool): (s: Session)
    requires WorkInRange(workDuration) && BreakInRange(breakDuration)
    ensures Inv(s) && !s.isRunning && s.isWorkMode && s.isTimeEditMode
    ensures DisplayTime(s) == 60 * workDuration
  {
    Session(false, true, 0, true, workDuration, breakDuration, isSoundEnable, [], [])
  }

  // ---------------------------------------------------------------------------
  // The countdown effect
  // ---------------------------------------------------------------------------

  /** What the countdown effect's dependency list compares between renders. */
  function Deps(s: Session): (bool, int, bool, int, int) {
    (s.isRunning, s.timeRemaining, s.isWorkMode, s.workDuration, s.breakDuration)
  }

  /** End of an interval: announce it (when sound is on) and schedule the flip to the other mode. */
  function Complete(s: Session): Session {
    var cue := if s.isWorkMode then EndWork else EndBreak;
    s.(pending := s.pending + [Flip(!s.isWorkMode, MinutesToSeconds(OtherDuration(s)))],
       announced := if s.isSoundEnable then s.announced + [cue] else s.announced)
  }

  /** One run of the countdown effect: it acts only while running with nothing left. */
  function Effect(s: Session): Session {
    if s.isRunning && s.timeRemaining == 0 then Complete(s) else s
  }

  /** The state after a handler turned `before` into `after`, once the effect has reacted. */
  function Commit(before: Session, after: Session): Session {
    if Deps(after) != Deps(before) then Effect(after) else after
  }

  // ---------------------------------------------------------------------------
  // Handlers and timer events
  // ---------------------------------------------------------------------------

  /** `toggleTimer`: start from idle loading the full duration, otherwise pause or resume. */
  function ToggleTimer(s: Session): Session {
    var loaded :=
      if !s.isRunning && s.timeRemaining == 0
      then s.(timeRemaining := MinutesToSeconds(ActiveDuration(s)), isTimeEditMode := false)
      else s;
    Commit(s, loaded.(isRunning := !s.isRunning))
  }

  /** One firing of the one-second interval, which exists only while running. */
  function Tick(s: Session): Session {
    if !s.isRunning then s
    else
      var next := if s.timeRemaining - 1 > 0 then s.timeRemaining - 1 else 0;
      Commit(s, s.(timeRemaining := next))
  }

  /** The oldest deferred flip fires, whatever the timer is doing now. */
  function Settle(s: Session): Session {
    if s.pending == [] then s
    else
      var f := s.pending[0];
      Commit(s, s.(timeRemaining := f.seconds, isWorkMode := f.toWork, pending := s.pending[1..]))
  }

  /** `resetTimer`: back to an idle WORK interval in edit mode. */
  function ResetTimer(s: Session): Session {
    Commit(s, s.(isWorkMode := true, isRunning := false, timeRemaining := 0, isTimeEditMode := true))
  }

  /** `toggleMode`: the other mode, in edit mode, with nothing remaining. */
  function ToggleMode(s: Session): Session {
    Commit(s, s.(isWorkMode := !s.isWorkMode, isTimeEditMode := true, timeRemaining := 0))
  }

  /** `handleWorkDurationChange`: stop, store the duration and edit a WORK interval. */
  function SetWorkDuration(s: Session, minutes: int): Session
    requires WorkInRange(minutes)
  {
    Commit(s, s.(isRunning := false, workDuration := minutes, timeRemaining := 0,
                 isWorkMode := true, isTimeEditMode := true))
  }

  /** `handleBreakDurationChange`: stop, store the duration and edit a BREAK interval. */
  function SetBreakDuration(s: Session, minutes: int): Session
    requires BreakInRange(minutes)
  {
    Commit(s, s.(isRunning := false, breakDuration := minutes, timeRemaining := 0,
                 isWorkMode := false, isTimeEditMode := true))
  }

  /** The notification checkbox. */
  function SetSoundEnable(s: Session, on: bool): Session {
    Commit(s, s.(isSoundEnable := on))
  }

  // ---------------------------------------------------------------------------
  // Properties of single steps
  // ---------------------------------------------------------------------------

  /**
   * Starting an idle timer loads the full duration of the current mode,
   * leaves edit mode and runs; it shows the same time as before the start.
   */
  lemma StartFromIdle(s: Session)
    requires Valid(s) && !s.isRunning && s.timeRemaining == 0
    ensures var t := ToggleTimer(s);
      && t.timeRemaining == 60 * ActiveDuration(s)
      && t.isRunning && !t.isTimeEditMode
      && t.isWorkMode == s.isWorkMode
      && t.workDuration == s.workDuration && t.breakDuration == s.breakDuration
      && t.pending == s.pending && t.announced == s.announced
      && DisplayTime(t) == DisplayTime(s)
  {
  }

  /** Starting from edit mode keeps the big timer text unchanged. */
  lemma StartKeepsText(s: Session)
    requires Valid(s) && !s.isRunning && s.timeRemaining == 0 && s.isTimeEditMode
    ensures Valid(ToggleTimer(s)) && TimerText(ToggleTimer(s)) == TimerText(s)
  {
    var d := ActiveDuration(s);
    var t := ToggleTimer(s);
    StartFromIdle(s);
    assert t == s.(timeRemaining := MinutesToSeconds(d), isTimeEditMode := false, isRunning := true);
    assert TimerText(t) == FormatTime(MinutesToSeconds(d));
    assert TimerText(s) == EditText(d);
    EditTextIsLoadedTime(d);
  }

  /** Toggling a running timer only clears `isRunning`. */
  lemma PauseOnlyStops(s: Session)
    requires s.isRunning
    ensures ToggleTimer(s) == s.(isRunning := false)
  {
  }

  /** Resuming a paused timer keeps what was left. */
  lemma ResumeKeepsRemaining(s: Session)
    requires Valid(s) && !s.isRunning && s.timeRemaining > 0
    ensures ToggleTimer(s) == s.(isRunning := true)
  {
  }

  /** Pause then resume is the identity on a running timer with time left. */
  lemma PauseResume(s: Session)
    requires Valid(s) && s.isRunning && s.timeRemaining > 0
    ensures ToggleTimer(ToggleTimer(s)) == s
  {
  }

  /**
   * A tick happens only while running; it never makes the remaining time
   * negative and strictly decreases it while it is positive.
   */
  lemma TickCountsDown(s: Session)
    requires Valid(s)
    ensures var t := Tick(s);
      && Valid(t)
      && (!s.isRunning ==> t == s)
      && t.timeRemaining == (if s.isRunning && s.timeRemaining > 0 then s.timeRemaining - 1 else s.timeRemaining)
      && t.isRunning == s.isRunning && t.isWorkMode == s.isWorkMode
      && t.isTimeEditMode == s.isTimeEditMode
      && t.workDuration == s.workDuration && t.breakDuration == s.breakDuration
  {
  }

  /** A tick at zero changes nothing, so completion is not announced twice. */
  lemma TickAtZeroIsIdle(s: Session)
    requires s.timeRemaining == 0
    ensures Tick(s) == s
  {
  }

  /**
   * The last tick completes the interval: the end cue of the current mode is
   * announced when sound is on, and a flip to the other mode with that mode's
   * full duration is scheduled.
   */
  lemma LastTickCompletes(s: Session)
    requires s.isRunning && s.timeRemaining == 1
    ensures var t := Tick(s);
      && t.timeRemaining == 0 && t.isRunning && t.isWorkMode == s.isWorkMode
      && t.pending == s.pending + [Flip(!s.isWorkMode, 60 * OtherDuration(s))]
      && t.announced == s.announced + (if s.isSoundEnable then [if s.isWorkMode then EndWork else EndBreak] else [])
  {
  }

  /**
   * Continuous cycling: with no older flip waiting, the last tick followed by
   * the settle lands in the other mode with its full duration, still running.
   */
  lemma CompletionThenSettleFlips(s: Session)
    requires Valid(s) && s.isRunning && s.timeRemaining == 1 && s.pending == []
    ensures var t := Settle(Tick(s));
      && t.isWorkMode == !s.isWorkMode
      && t.timeRemaining == 60 * OtherDuration(s)
      && t.isRunning && t.isTimeEditMode == s.isTimeEditMode
      && t.pending == []
      && t.workDuration == s.workDuration && t.breakDuration == s.breakDuration
  {
    LastTickCompletes(s);
  }

  /**
   * The oldest waiting flip fires in every phase (running, paused, after a
   * duration change or a restart): it loads its own mode and seconds, leaves
   * everything else as it was, and is consumed.
   */
  lemma SettleFires(s: Session)
    requires Valid(s) && s.pending != []
    ensures Settle(s) == s.(timeRemaining := s.pending[0].seconds, isWorkMode := s.pending[0].toWork,
                            pending := s.pending[1..])
  {
  }

  /** A waiting flip fires after a reset too: it overrides the mode and the remaining time. */
  lemma SettleIgnoresPhase(s: Session)
    requires Valid(s) && s.pending != []
    ensures var t := Settle(ResetTimer(s));
      && t.isWorkMode == s.pending[0].toWork
      && t.timeRemaining == s.pending[0].seconds
      && !t.isRunning && t.isTimeEditMode
      && t.pending == s.pending[1..]
  {
  }

  /** `resetTimer` from any state: idle WORK in edit mode, durations untouched; doing it again changes nothing. */
  lemma ResetIsIdleWork(s: Session)
    ensures var t := ResetTimer(s);
      && t.isWorkMode && !t.isRunning && t.timeRemaining == 0 && t.isTimeEditMode
      && t.workDuration == s.workDuration && t.breakDuration == s.breakDuration
      && t.pending == s.pending && t.announced == s.announced
      && ResetTimer(t) == t
      && DisplayTime(t) == 60 * s.workDuration
  {
  }

  /** `toggleMode` on a stopped timer flips the mode and leaves the rest alone; twice restores the mode. */
  lemma ToggleModeFlips(s: Session)
    requires !s.isRunning
    ensures var t := ToggleMode(s);
      && t == s.(isWorkMode := !s.isWorkMode, isTimeEditMode := true, timeRemaining := 0)
      && ToggleMode(t) == s.(isTimeEditMode := true, timeRemaining := 0)
      && DisplayTime(t) == 60 * OtherDuration(s)
  {
  }

  /**
   * `toggleMode` while running (its button is hidden then) zeroes the remaining
   * time of a running timer, so the effect completes the interval at once and
   * schedules a flip back to the mode it left.
   */
  lemma ToggleModeWhileRunning(s: Session)
    requires s.isRunning
    ensures var t := ToggleMode(s);
      && t.isRunning && t.timeRemaining == 0 && t.isWorkMode == !s.isWorkMode
      && t.pending == s.pending + [Flip(s.isWorkMode, 60 * ActiveDuration(s))]
      && t.announced == s.announced + (if s.isSoundEnable then [if s.isWorkMode then EndBreak else EndWork] else [])
  {
  }

  /**
   * The notification checkbox is not a dependency of the countdown effect: it
   * changes the sound flag and nothing else, whatever the timer is doing.
   */
  lemma SoundOnlySetsFlag(s: Session, on: bool)
    ensures SetSoundEnable(s, on) == s.(isSoundEnable := on)
  {
  }

  /** A new work duration stops the timer, selects WORK, and the next start loads it. */
  lemma WorkDurationThenStart(s: Session, minutes: int)
    requires Valid(s) && WorkInRange(minutes)
    ensures var t := SetWorkDuration(s, minutes);
      && !t.isRunning && t.isWorkMode && t.isTimeEditMode && t.timeRemaining == 0
      && t.workDuration == minutes && t.breakDuration == s.breakDuration
      && t.pending == s.pending
      && ToggleTimer(t).timeRemaining == 60 * minutes && ToggleTimer(t).isRunning
  {
  }

  /** A new break duration stops the timer, selects BREAK, and the next start loads it. */
  lemma BreakDurationThenStart(s: Session, minutes: int)
    requires Valid(s) && BreakInRange(minutes)
    ensures var t := SetBreakDuration(s, minutes);
      && !t.isRunning && !t.isWorkMode && t.isTimeEditMode && t.timeRemaining == 0
      && t.breakDuration == minutes && t.workDuration == s.workDuration
      && t.pending == s.pending
      && ToggleTimer(t).timeRemaining == 60 * minutes && ToggleTimer(t).isRunning
  {
  }

  // ---------------------------------------------------------------------------
  // Event traces
  // ---------------------------------------------------------------------------

  datatype Event =
    | ToggleTimerEv
    | ResetTimerEv
    | ToggleModeEv
    | WorkDurationEv(minutes: int)
    | BreakDurationEv(minutes: int)
    | SoundEv(on: bool)
    | TickEv
    | SettleEv

  /** Duration events carry a value the slider can produce. */
  predicate EventOk(e: Event) {
    match e
    case WorkDurationEv(m) => WorkInRange(m)
    case BreakDurationEv(m) => BreakInRange(m)
    case _ => true
  }

  function Step(s: Session, e: Event): Session
    requires EventOk(e)
  {
    match e
    case ToggleTimerEv => ToggleTimer(s)
    case ResetTimerEv => ResetTimer(s)
    case ToggleModeEv => ToggleMode(s)
    case WorkDurationEv(m) => SetWorkDuration(s, m)
    case BreakDurationEv(m) => SetBreakDuration(s, m)
    case SoundEv(on) => SetSoundEnable(s, on)
    case TickEv => Tick(s)
    case SettleEv => Settle(s)
  }

  function Run(s: Session, es: seq<Event>): Session
    requires forall i :: 0 <= i < |es| ==> EventOk(es[i])
    decreases |es|
  {
    if es == [] then s else Run(Step(s, es[0]), es[1..])
  }

  /** Every step keeps the invariant. */
  lemma StepKeepsInv(s: Session, e: Event)
    requires Inv(s) && EventOk(e)
    ensures Inv(Step(s, e))
  {
    match e
    case ToggleTimerEv =>
    case ResetTimerEv =>
    case ToggleModeEv =>
    case WorkDurationEv(m) =>
    case BreakDurationEv(m) =>
    case SoundEv(on) =>
    case TickEv =>
    case SettleEv =>
  }

  /** Every trace from a session satisfying the invariant keeps it: remaining time is never negative. */
  lemma {:induction false} RunKeepsInv(s: Session, es: seq<Event>)
    requires Inv(s)
    requires forall i :: 0 <= i < |es| ==> EventOk(es[i])
    ensures Inv(Run(s, es))
    ensures Run(s, es).timeRemaining >= 0
    decreases |es|
  {
    if es != [] {
      StepKeepsInv(s, es[0]);
      RunKeepsInv(Step(s, es[0]), es[1..]);
    }
  }

  /** `n` consecutive ticks. */
  function Ticks(s: Session, n: nat): Session
    decreases n
  {
    if n == 0 then s else Ticks(Tick(s), n - 1)
  }

  /** Fewer ticks than the remaining seconds count down one second each. */
  lemma {:induction false} TicksCountDown(s: Session, n: nat)
    requires s.isRunning && n < s.timeRemaining
    ensures Ticks(s, n) == s.(timeRemaining := s.timeRemaining - n)
    decreases n
  {
    if n > 0 {
      assert Tick(s) == s.(timeRemaining := s.timeRemaining - 1);
      TicksCountDown(Tick(s), n - 1);
    }
  }

  /** Exactly as many ticks as remaining seconds complete the interval once. */
  lemma TicksToCompletion(s: Session)
    requires s.isRunning && s.timeRemaining > 0
    ensures Ticks(s, s.timeRemaining) == Complete(s.(timeRemaining := 0))
  {
    var n := s.timeRemaining;
    TicksCountDown(s, n - 1);
    var u := s.(timeRemaining := 1);
    assert Ticks(s, n - 1) == u;
    TicksSplit(s, n - 1, 1);
    assert Ticks(u, 1) == Tick(u);
  }

  lemma {:induction false} TicksSplit(s: Session, m: nat, n: nat)
    ensures Ticks(s, m + n) == Ticks(Ticks(s, m), n)
    decreases m
  {
    if m > 0 {
      TicksSplit(Tick(s), m - 1, n);
    }
  }

  /**
   * The first cycle from a fresh start: after the start, exactly as many ticks
   * as the work interval has seconds complete it once (announcing its end when
   * sound is on), and the settle starts BREAK with its full duration, running.
   */
  lemma FirstCycle(work: int, brk: int, sound: bool)
    requires WorkInRange(work) && BreakInRange(brk)
    ensures var started := ToggleTimer(Initial(work, brk, sound));
      var done := Ticks(started, 60 * work);
      var flipped := Settle(done);
      && started.timeRemaining == 60 * work && started.isRunning
      && done.timeRemaining == 0 && done.isWorkMode && done.pending == [Flip(false, 60 * brk)]
      && done.announced == (if sound then [EndWork] else [])
      && flipped.isRunning && !flipped.isWorkMode && flipped.timeRemaining == 60 * brk
      && flipped.pending == []
  {
    var init := Initial(work, brk, sound);
    var started := ToggleTimer(init);
    StartFromIdle(init);
    assert started == init.(timeRemaining := 60 * work, isTimeEditMode := false, isRunning := true);
    TicksToCompletion(started);
    var done := Complete(started.(timeRemaining := 0));
    assert Settle(done) == done.(timeRemaining := 60 * brk, isWorkMode := false, pending := []);
  }

  /** The 25/5 defaults: 1500 ticks end WORK once; the settle starts BREAK with 300 seconds. */
  lemma DefaultCycle(sound: bool)
    ensures var done := Ticks(ToggleTimer(Initial(DefaultWork, DefaultBreak, sound)), 1500);
      && done.timeRemaining == 0 && |done.pending| == 1
      && Settle(done).isRunning && !Settle(done).isWorkMode && Settle(done).timeRemaining == 300
  {
    FirstCycle(DefaultWork, DefaultBreak, sound);
  }

  /**
   * A flip that fires between a reset and the next start leaves edit mode on
   * while the timer runs: the big text then stays at the static duration while
   * the remaining time counts down.
   */
  lemma StaleFlipFreezesText(s: Session)
    requires Valid(s) && s.isRunning && s.isWorkMode && s.timeRemaining == 1 && s.pending == []
    ensures var t := ToggleTimer(Settle(ResetTimer(ToggleTimer(Tick(s)))));
      && Valid(t) && t.isRunning && t.isTimeEditMode && !t.isWorkMode
      && t.timeRemaining == 60 * s.breakDuration
      && Valid(Tick(t)) && Tick(t).timeRemaining == t.timeRemaining - 1
      && TimerText(Tick(t)) == TimerText(t)
  {
  }
}
