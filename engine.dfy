/**
 * The state of the timer screen as an object whose handlers update its fields
 * in place. Each method is proved to produce exactly the session the
 * corresponding `Pomodoro` function describes, and to keep `Pomodoro.Inv`.
 */
module AppEngine {
  import Pomodoro
  import opened Clock
  import Tasks

  class Engine {
    var isRunning: bool
    var isWorkMode: bool
    var timeRemaining: int
    var isTimeEditMode: bool
    var workDuration: int
    var breakDuration: int
    var isSoundEnable: bool
    /** The deferred mode flips not yet fired, oldest first. */
    var pendingFlips: seq<Pomodoro.Flip>
    /** The end-of-interval sounds played so far. */
    var announced: seq<Pomodoro.Cue>
    /** The persisted task list the app itself holds. */
    var tasks: seq<Tasks.Task>

    function Snapshot(): Pomodoro.Session
      reads this
    {
      Pomodoro.Session(isRunning, isWorkMode, timeRemaining, isTimeEditMode,
                       workDuration, breakDuration, isSoundEnable, pendingFlips, announced)
    }

    ghost predicate Valid()
      reads this
    {
      Pomodoro.Inv(Snapshot())
    }

    /** The app as it loads, with the persisted durations, sound flag and tasks. */
    constructor (work: int, brk: int, sound: bool, storedTasks: seq<Tasks.Task>)
      requires Pomodoro.WorkInRange(work) && Pomodoro.BreakInRange(brk)
      ensures Valid()
      ensures Snapshot() == Pomodoro.Initial(work, brk, sound) && tasks == storedTasks
    {
      isTimeEditMode := true;
      isSoundEnable := sound;
      workDuration := work;
      breakDuration := brk;
      tasks := storedTasks;
      isRunning := false;
      isWorkMode := true;
      timeRemaining := 0;
      pendingFlips := [];
      announced := [];
    }

    /**
     * The countdown effect after a render: when a dependency changed and the
     * timer runs with nothing left, play the end cue of the current mode and
     * schedule the flip to the other mode with its full duration.
     */
    method AfterRender(before: Pomodoro.Session)
      modifies this`pendingFlips, this`announced
      ensures Snapshot() == Pomodoro.Commit(before, old(Snapshot()))
    {
      if Pomodoro.Deps(Snapshot()) == Pomodoro.Deps(before) || !isRunning || timeRemaining != 0 {
        return;
      }
      if isWorkMode {
        if isSoundEnable { announced := announced + [Pomodoro.EndWork]; }
        pendingFlips := pendingFlips + [Pomodoro.Flip(false, MinutesToSeconds(breakDuration))];
      } else {
        if isSoundEnable { announced := announced + [Pomodoro.EndBreak]; }
        pendingFlips := pendingFlips + [Pomodoro.Flip(true, MinutesToSeconds(workDuration))];
      }
    }

    /** `toggleTimer`, without the persistence branch. */
    method ToggleTimer()
      requires Valid()
      modifies this
      ensures Valid()
      ensures Snapshot() == Pomodoro.ToggleTimer(old(Snapshot())) && tasks == old(tasks)
    {
      var before := Snapshot();
      if !isRunning && timeRemaining == 0 {
        timeRemaining := MinutesToSeconds(if isWorkMode then workDuration else breakDuration);
        isTimeEditMode := false;
      }
      isRunning := !isRunning;
      AfterRender(before);
      Pomodoro.StepKeepsInv(before, Pomodoro.ToggleTimerEv);
    }

    /** One firing of the one-second interval: `Math.max(0, prev - 1)`. */
    method Tick()
      requires Valid()
      modifies this
      ensures Valid()
      ensures Snapshot() == Pomodoro.Tick(old(Snapshot())) && tasks == old(tasks)
    {
      if !isRunning {
        return;
      }
      var before := Snapshot();
      timeRemaining := if timeRemaining - 1 > 0 then timeRemaining - 1 else 0;
      AfterRender(before);
      Pomodoro.StepKeepsInv(before, Pomodoro.TickEv);
    }

    /** The oldest deferred flip fires: it selects its mode and loads its seconds. */
    method Settle()
      requires Valid()
      modifies this
      ensures Valid()
      ensures Snapshot() == Pomodoro.Settle(old(Snapshot())) && tasks == old(tasks)
    {
      if pendingFlips == [] {
        return;
      }
      var before := Snapshot();
      var flip := pendingFlips[0];
      pendingFlips := pendingFlips[1..];
      timeRemaining := flip.seconds;
      isWorkMode := flip.toWork;
      AfterRender(before);
      Pomodoro.StepKeepsInv(before, Pomodoro.SettleEv);
    }

    /** `resetTimer`. */
    method ResetTimer()
      requires Valid()
      modifies this
      ensures Valid()
      ensures Snapshot() == Pomodoro.ResetTimer(old(Snapshot())) && tasks == old(tasks)
    {
      var before := Snapshot();
      isWorkMode := true;
      isRunning := false;
      timeRemaining := 0;
      isTimeEditMode := true;
      AfterRender(before);
      Pomodoro.StepKeepsInv(before, Pomodoro.ResetTimerEv);
    }

    /** `toggleMode`. */
    method ToggleMode()
      requires Valid()
      modifies this
      ensures Valid()
      ensures Snapshot() == Pomodoro.ToggleMode(old(Snapshot())) && tasks == old(tasks)
    {
      var before := Snapshot();
      isWorkMode := !isWorkMode;
      isTimeEditMode := true;
      timeRemaining := 0;
      AfterRender(before);
      Pomodoro.StepKeepsInv(before, Pomodoro.ToggleModeEv);
    }

    /** `handleWorkDurationChange`. */
    method HandleWorkDurationChange(newValue: int)
      requires Valid() && Pomodoro.WorkInRange(newValue)
      modifies this
      ensures Valid()
      ensures Snapshot() == Pomodoro.SetWorkDuration(old(Snapshot()), newValue) && tasks == old(tasks)
    {
      var before := Snapshot();
      isRunning := false;
      workDuration := newValue;
      timeRemaining := 0;
      isWorkMode := true;
      isTimeEditMode := true;
      AfterRender(before);
      Pomodoro.StepKeepsInv(before, Pomodoro.WorkDurationEv(newValue));
    }

    /** `handleBreakDurationChange`. */
    method HandleBreakDurationChange(newValue: int)
      requires Valid() && Pomodoro.BreakInRange(newValue)
      modifies this
      ensures Valid()
      ensures Snapshot() == Pomodoro.SetBreakDuration(old(Snapshot()), newValue) && tasks == old(tasks)
    {
      var before := Snapshot();
      isRunning := false;
      breakDuration := newValue;
      timeRemaining := 0;
      isWorkMode := false;
      isTimeEditMode := true;
      AfterRender(before);
      Pomodoro.StepKeepsInv(before, Pomodoro.BreakDurationEv(newValue));
    }

    /** The notification checkbox. */
    method SetSoundEnable(on: bool)
      requires Valid()
      modifies this
      ensures Valid()
      ensures Snapshot() == Pomodoro.SetSoundEnable(old(Snapshot()), on) && tasks == old(tasks)
    {
      var before := Snapshot();
      isSoundEnable := on;
      AfterRender(before);
      Pomodoro.StepKeepsInv(before, Pomodoro.SoundEv(on));
    }

    /** The app-level `changeTaskStatus`: flips the tasks carrying `id`, touches no timer state. */
    method ChangeTaskStatus(id: string)
      modifies this`tasks
      ensures tasks == Tasks.Toggled(old(tasks), id)
    {
      tasks := Tasks.Toggled(tasks, id);
    }

    /** The seconds on the display, as `displayTime` computes them. */
    method DisplayTime() returns (seconds: int)
      requires Valid()
      ensures seconds == Pomodoro.DisplayTime(Snapshot())
      ensures seconds > 0 || (isRunning && timeRemaining == 0)
    {
      if !isRunning && timeRemaining == 0 {
        seconds := MinutesToSeconds(if isWorkMode then workDuration else breakDuration);
      } else {
        seconds := timeRemaining;
      }
    }

    /** The companion face for the current work duration. */
    method Icon() returns (face: string)
      ensures face == IconFor(workDuration) && face in Icons
    {
      face := IconFor(workDuration);
    }
  }
}
