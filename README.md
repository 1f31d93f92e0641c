# PoroFocus timer engine and task list, in Dafny

This project models the core of PoroFocus, a browser Pomodoro timer. The timer alternates WORK and BREAK
intervals. It counts down once per second. When an interval ends it plays a cue and, three seconds later,
flips to the other mode with that mode's full duration. The app also keeps a small task list whose done
tasks can be hidden in focus mode.

Modules:

- `Decimal` (`decimal.dfy`): `String(n)` and `padStart(2, '0')` for non-negative integers below 10^21,
  with a parser used to state round trips.
- `Clock` (`clock.dfy`): the pure helpers of `src/App.jsx`. These are `minutesToSeconds`, `formatTime`
  (`MM:SS`), the static edit-mode text, and the companion-icon band chosen from the work duration.
- `Pomodoro` (`pomodoro.dfy`): the timer engine as a value-level state machine. A `Session` holds the
  fields `isRunning`, `isWorkMode`, `timeRemaining`, `isTimeEditMode`, `workDuration`, `breakDuration`
  and `isSoundEnable`, the queue of scheduled mode flips, and the cues played so far. Each handler and
  timer event is a function. The lemmas state what the source promises.
- `AppEngine` (`engine.dfy`): the same state as a class whose methods update the fields in place. Each
  method is proved to produce exactly the session its `Pomodoro` function describes, and to keep the
  engine invariant `Pomodoro.Inv`.
- `Tasks` (`tasks.dfy`): tasks `{id, title, icon, status}`; delete (`filter`) and toggle (`map`) as
  sequence functions; the task tab's state as a class `TaskList`.
- `TaskView` (`task_view.dfy`): what one task row renders (nothing for a done task in focus mode) and
  the rows of a list.

How React's behaviour is modelled:

- Each handler is one atomic update of the state.
- After a handler, the countdown effect (`src/App.jsx:111-143`) re-runs only if one of its dependencies
  changed. These are `isRunning`, `timeRemaining`, `isWorkMode`, `workDuration` and `breakDuration`
  (`Pomodoro.Commit`).
- A tick at zero writes zero again. React may still call the component once before bailing out, but the
  effect's dependencies are unchanged, so the effect does not run again and the end of an interval is
  announced once.
- The three-second `setTimeout` is never cancelled: the effect cleanup clears only the interval. The
  callback captured the target mode and duration when it was scheduled. So `pending` is a FIFO queue
  of `Flip(toWork, seconds)`, and `Settle` fires the oldest one whatever the timer is doing.
- Several flips can be waiting at once, because the discrete model does not force a settle to come
  three ticks after its completion.

The model follows the code, including where it departs from a drift-corrected, cancellable design:

- The countdown is a plain decrement, `Math.max(0, prev - 1)`. There is no deadline or drift
  correction.
- `resetTimer` always returns to WORK mode, not to the current mode.
- A waiting flip is not cancelled by pause, reset or a duration change. The settle leaves `isRunning`
  and `isTimeEditMode` as they are.
- One consequence is proved as `Pomodoro.StaleFlipFreezesText`. Take a running WORK interval that
  completes. Pause and reset it before the flip fires, let the flip fire, then start again. The timer
  now runs with edit mode still on, so the big text stays at the static break duration while the
  remaining time counts down.

Other choices:

- `toggleMode` and `resetTimer` are modelled without the UI gate. Their buttons are only rendered while
  the timer is stopped (`src/App.jsx:292`, `src/App.jsx:302`), but the functions and methods accept any
  state.
- `Pomodoro.ToggleModeWhileRunning` shows what the gate prevents. A mode toggle while running zeroes
  the remaining time, so the effect completes the interval at once.
- Duration values carry the slider bounds as preconditions: 5..90 minutes for work and 5..50 for
  break.
- Class attributes in `Task.jsx` are modelled as lists of class tokens.
- The delete button of a task row sits inside the row, whose click toggles the task
  (`src/components/Task.jsx:13-21`), and `Button` does not stop the click from propagating. A delete is
  therefore a removal followed by a toggle of the same id. `Tasks.DeleteAlsoToggles` proves the toggle
  then changes nothing, so `DeleteTask` models the removal alone.
- The transition functions of `Pomodoro` (`ToggleTimer`, `Tick`, `Settle`, `ResetTimer`, `ToggleMode`,
  `SetWorkDuration`, `SetBreakDuration`, `SetSoundEnable`, with `Complete`, `Effect` and `Commit`) and
  `TimerText` have no rows of their own. The `AppEngine.Engine` rows stand for them: each method is proved
  equal to its function, and the `Pomodoro` lemmas in the table state what each function does.
- Delete compares ids with `!=` and toggle compares them with `===`. Ids are strings on both paths, so
  both are string equality here.

## Model

| member | source | states |
|---|---|---|
| `Decimal.ToDecimal` | src/App.jsx:209 | `String(n)` of a non-negative integer (below 10^21 in JavaScript): at least one digit, all decimal digits, no leading zero; one digit exactly below 10, at most two exactly below 100 |
| `Decimal.ParseToDecimal` | src/App.jsx:209 | reading back the digits `String(n)` wrote gives `n` |
| `Decimal.PadStart2` | src/App.jsx:209 | `padStart(2, '0')`: length is max(2, input length), the input is the suffix, the added prefix is all zeros, digits stay digits |
| `Decimal.PadStart2Value` | src/App.jsx:209 | zero padding does not change the value a digit string denotes |
| `Clock.MinutesToSeconds` | src/App.jsx:25-27 | the seconds are a multiple of 60 and dividing by 60 gives the minutes back |
| `Clock.FormatTime` | src/App.jsx:206-210 | the text is minutes, a colon, and two second digits; it is exactly five characters iff the input is below 6000 seconds |
| `Clock.FormatTimeFields` | src/App.jsx:206-210 | the minute field reads back as `s div 60` and the second field as `s mod 60` |
| `Clock.FormatTimeRoundTrip` | src/App.jsx:206-210 | for every natural number (every safe integer in JavaScript), 60 times the minute field plus the second field equals the input |
| `Clock.FormatTimeShort` | src/App.jsx:206-210 | below 6000 seconds the text is `MM:SS`: five characters, colon at index 2, both fields two digits, `SS` below 60 |
| `Clock.EditText` | src/App.jsx:280-281 | the edit-mode text ends in `:00` and is at least five characters long |
| `Clock.EditTextIsLoadedTime` | src/App.jsx:280-282 | the static edit-mode text equals `formatTime` of the duration loaded in seconds |
| `Clock.IconIndex` | src/App.jsx:99-109 | the face index is below 4; it is at most k exactly when the work duration is at most the k-th threshold (25, 45, 70) |
| `Clock.IconMonotone` | src/App.jsx:99-109 | a longer work duration never selects an earlier face |
| `Pomodoro.DisplayTime` | src/App.jsx:59 | while running the display is the remaining time; a non-zero remaining time is displayed as is; a stopped timer at zero displays the full active duration, `60 *` the minutes of the current mode, so a valid stopped timer never displays zero |
| `Pomodoro.Initial` | src/App.jsx:40-48 | the app starts stopped, in WORK, in edit mode, satisfying the invariant, displaying 60 × the work duration |
| `Pomodoro.StartFromIdle` | src/App.jsx:172-177 | starting an idle timer loads 60 × the current mode's duration, clears edit mode, runs, keeps mode, durations and waiting flips, and displays the same seconds as before |
| `Pomodoro.StartKeepsText` | src/App.jsx:172-177 | starting from edit mode leaves the big timer text unchanged |
| `Pomodoro.PauseOnlyStops` | src/App.jsx:177 | toggling a running timer only clears `isRunning` |
| `Pomodoro.ResumeKeepsRemaining` | src/App.jsx:173-177 | resuming with time left only sets `isRunning` and keeps `timeRemaining` |
| `Pomodoro.PauseResume` | src/App.jsx:172-177 | pause followed by resume is the identity on a running timer with time left |
| `Pomodoro.TickCountsDown` | src/App.jsx:135-140 | a tick changes nothing while stopped; while running it decreases a positive remaining time by exactly one and never goes below zero; it keeps mode, edit mode and durations |
| `Pomodoro.TickAtZeroIsIdle` | src/App.jsx:135-143 | a tick at zero changes nothing, so the end of an interval is not announced twice |
| `Pomodoro.LastTickCompletes` | src/App.jsx:111-131 | the tick reaching zero keeps the timer running, plays the current mode's end cue when sound is on, and schedules a flip to the other mode with its full duration in seconds |
| `Pomodoro.CompletionThenSettleFlips` | src/App.jsx:115-131 | with no older flip waiting, the last tick followed by the settle lands in the other mode with 60 × its duration, still running |
| `Pomodoro.SettleFires` | src/App.jsx:120-142 | whenever a flip waits, whatever the timer is doing, settling loads that flip's mode and seconds, consumes it, and changes nothing else |
| `Pomodoro.SettleIgnoresPhase` | src/App.jsx:120-142 | a waiting flip still fires after a reset: it sets its own mode and seconds and is consumed |
| `Pomodoro.ResetIsIdleWork` | src/App.jsx:192-197 | from any state, reset gives WORK, stopped, zero remaining, edit mode, durations and waiting flips unchanged; resetting again changes nothing; the display shows 60 × the work duration |
| `Pomodoro.ToggleModeFlips` | src/App.jsx:165-169 | on a stopped timer the mode flips, edit mode is set, remaining is cleared, nothing else changes; a second toggle restores the mode |
| `Pomodoro.ToggleModeWhileRunning` | src/App.jsx:165-169 | toggling the mode while running completes the interval at once: it plays the end cue of the new mode when sound is on and schedules a flip back to the mode it left |
| `Pomodoro.WorkDurationThenStart` | src/App.jsx:146-152 | a work-duration change stops the timer, stores the value, clears remaining, selects WORK, enters edit mode; the next start loads 60 × the new value |
| `Pomodoro.BreakDurationThenStart` | src/App.jsx:155-161 | a break-duration change stops the timer, stores the value, clears remaining, selects BREAK, enters edit mode; the next start loads 60 × the new value |
| `Pomodoro.StepKeepsInv` | src/App.jsx:111-197 | every handler and timer event keeps the invariant: remaining never negative, durations in bounds, waiting flips well formed, and a running timer at zero always has a flip waiting |
| `Pomodoro.RunKeepsInv` | src/App.jsx:111-197 | every event trace keeps the invariant; the remaining time is never negative |
| `Pomodoro.TicksCountDown` | src/App.jsx:135-140 | fewer ticks than the remaining seconds subtract one second each and change nothing else |
| `Pomodoro.TicksToCompletion` | src/App.jsx:111-140 | as many ticks as remaining seconds complete the interval exactly once |
| `Pomodoro.FirstCycle` | src/App.jsx:111-143 | from a fresh start, 60 × work ticks complete WORK once with one flip to BREAK waiting; the settle starts BREAK with 60 × break seconds, running |
| `Pomodoro.DefaultCycle` | src/App.jsx:42-43 | with the default 25/5 durations, 1500 ticks end WORK and the settle starts BREAK with 300 seconds |
| `Pomodoro.StaleFlipFreezesText` | src/App.jsx:111-143 | a flip that fires between a pause-and-reset and the next start leaves edit mode on while running, so a tick lowers the remaining time but not the big text |
| `Pomodoro.SoundOnlySetsFlag` | src/App.jsx:222-226 | the notification checkbox changes the sound flag and nothing else, in every state |
| `AppEngine.Engine.constructor` | src/App.jsx:40-48 | the engine starts in the initial session with the persisted durations, sound flag and tasks |
| `AppEngine.Engine.AfterRender` | src/App.jsx:111-131 | after a render with a changed dependency, a running timer at zero plays its end cue when sound is on and queues the flip to the other mode |
| `AppEngine.Engine.ToggleTimer` | src/App.jsx:172-177 | in-place start, pause or resume equals `Pomodoro.ToggleTimer` and keeps the invariant |
| `AppEngine.Engine.Tick` | src/App.jsx:135-140 | the in-place interval step equals `Pomodoro.Tick` and keeps the invariant |
| `AppEngine.Engine.Settle` | src/App.jsx:120-130 | the in-place firing of the oldest flip equals `Pomodoro.Settle` and keeps the invariant |
| `AppEngine.Engine.ResetTimer` | src/App.jsx:192-197 | the in-place reset equals `Pomodoro.ResetTimer` and keeps the invariant |
| `AppEngine.Engine.ToggleMode` | src/App.jsx:165-169 | the in-place mode toggle equals `Pomodoro.ToggleMode` and keeps the invariant |
| `AppEngine.Engine.HandleWorkDurationChange` | src/App.jsx:146-152 | the in-place work-duration change equals `Pomodoro.SetWorkDuration` and keeps the invariant |
| `AppEngine.Engine.HandleBreakDurationChange` | src/App.jsx:155-161 | the in-place break-duration change equals `Pomodoro.SetBreakDuration` and keeps the invariant |
| `AppEngine.Engine.SetSoundEnable` | src/App.jsx:222-226 | the notification checkbox only changes the sound flag |
| `AppEngine.Engine.ChangeTaskStatus` | src/App.jsx:199-203 | the app-level status toggle replaces the task list by its toggled version |
| `AppEngine.Engine.DisplayTime` | src/App.jsx:59 | returns the display seconds, which are positive unless the timer runs at zero |
| `AppEngine.Engine.Icon` | src/App.jsx:99-109 | returns one of the four faces, the one for the current work duration's band |
| `Tasks.Removed` | src/components/TasksTab.jsx:56-59 | a task is kept iff it was in the list and does not carry the id; no task with the id remains; the list does not grow |
| `Tasks.RemovedConcat` | src/components/TasksTab.jsx:58 | delete distributes over concatenation, so the kept tasks keep their relative order |
| `Tasks.RemovedAbsent` | src/components/TasksTab.jsx:58 | deleting an id that is not in the list leaves it unchanged |
| `Tasks.RemovedCount` | src/components/TasksTab.jsx:58 | the list shrinks by exactly the number of tasks carrying the id |
| `Tasks.Toggled` | src/components/TasksTab.jsx:61-65 | same length; at every position id, title and icon are unchanged and the status flips exactly where the id matches |
| `Tasks.ToggledTwice` | src/components/TasksTab.jsx:61-65 | toggling the same id twice restores the list |
| `Tasks.ToggledAbsent` | src/components/TasksTab.jsx:61-65 | toggling an id that is not in the list leaves it unchanged |
| `Tasks.DeleteAlsoToggles` | src/components/Task.jsx:13-21 | the delete click that also reaches the row's status toggle leaves the list exactly as the removal alone does |
| `Tasks.TaskList.constructor` | src/components/TasksTab.jsx:30-32 | the tab starts with an empty list, an empty title and the first category |
| `Tasks.TaskList.SetTitle` | src/components/TasksTab.jsx:74 | the input sets the title |
| `Tasks.TaskList.SelectType` | src/components/TasksTab.jsx:91 | a category button selects that category |
| `Tasks.TaskList.AddTask` | src/components/TasksTab.jsx:37-54 | an empty title changes nothing; otherwise exactly one not-done task with the title and category is appended after the unchanged earlier tasks, and the title is cleared |
| `Tasks.TaskList.DeleteTask` | src/components/TasksTab.jsx:56-59 | the list becomes `Removed` of the old list; the title is untouched |
| `Tasks.TaskList.ChangeTaskStatus` | src/components/TasksTab.jsx:61-65 | the list becomes `Toggled` of the old list |
| `TaskView.Render` | src/components/Task.jsx:6-24 | a task renders nothing iff focus mode is on and it is done; a rendered row carries the task's id as key, its title and icon, and is checked iff done |
| `TaskView.RenderedWhen` | src/components/Task.jsx:9-11 | outside focus mode every task renders; in focus mode a task renders iff it is not done |
| `TaskView.LineThroughIffDone` | src/components/Task.jsx:7 | the title has the `line-through` class iff the task is done |
| `TaskView.GrayIffDone` | src/components/Task.jsx:8 | the row background class is `bg-gray-100` iff done and `bg-white` iff not done |
| `TaskView.ControlsOutsideFocus` | src/components/Task.jsx:17-21 | the checkbox and the delete button are shown iff focus mode is off |
| `TaskView.RenderList` | src/components/TasksTab.jsx:97-106 | there are no more rows than tasks, and every row is the rendering of some task of the list |
| `TaskView.AllRowsOutsideFocus` | src/components/TasksTab.jsx:97-106 | outside focus mode there is one row per task, in list order |
| `TaskView.FocusRowsAreUndone` | src/components/Task.jsx:9-11 | in focus mode the rows are exactly those of the undone tasks, in order |
| `TaskView.FocusHidesDone` | src/components/Task.jsx:9-11 | in focus mode no rendered row is checked |
| `TaskView.FocusExample` | src/components/Task.jsx:9-11 | a done task followed by an undone one: focus mode renders only the second, otherwise both |

## Left out

- Audio: creating, preloading and playing the two sounds (`src/App.jsx:56-85`) are browser calls. The
  model records the cue that would play, only when sound is enabled. A failed `play()` is swallowed by
  the source and does not change any state.
- `document.title` updates (`src/App.jsx:88-96`) are a global side effect. They are not modelled.
- Real time: the 1000 ms interval and the 3000 ms timeout become the discrete `Tick` and `Settle`
  events. The model does not force a settle to arrive within three ticks of its completion.
- The persistence branch of `toggleTimer` (`src/App.jsx:179-187`) is left out. It reads and writes a
  `timerSetting` that is declared nowhere. Only the state updates before it are modelled.
- `src/hooks/useLocalStorage.js` is not part of this model. Persisted values are ordinary fields. The
  constructor takes them as parameters and requires the durations to be within the slider bounds. A
  malformed stored value is not modelled.
- Task ids come from `Date.now()`, which is clock-derived and not guaranteed unique. The id is a
  parameter of `AddTask`.
- Focusing the text input after an add (`inputRef.current.focus()`) is a DOM call. It is left out.
- JSX rendering and the view-only components `Tabs`, `Button`, `Input`, `Range` and `FocusMode` are not
  modelled. `FocusMode` never lists tasks: its `tasks` is an empty string.
- `Range` contributes only its bounds, which the model carries as preconditions.
- Focus-mode wiring: no caller passes `isFocusMode` to `Task`. The row predicate is modelled as a
  function of the flag.
- `TasksTab` ignores the `tasks`/`setTasks` props and keeps its own list. The model does not connect
  that list to the app's persisted one.
- The icon state is set by an effect from `workDuration`. The model computes it as a function of the
  duration instead, so the one render in which the old face is still shown is not captured.
- Tasks.TaskList: the object lives for one visit to the Tasks tab. `Tabs` renders only the active tab's
  content (`src/components/Tabs.jsx:22-24`), so leaving the tab unmounts `TasksTab` and its state
  (`src/components/TasksTab.jsx:30-32`) starts again empty on the next visit. The model does not
  capture that a tab switch discards the tasks, the title and the selected category.
- Numbers: JavaScript numbers are doubles. The model's unbounded integers agree with `String`,
  `Math.floor`, `%` and `* 60` (`src/App.jsx:26`, `src/App.jsx:207-209`) below 2^53, and `String` writes
  plain digits only below 10^21. Every value the timer holds is at most 90 * 60 = 5400 seconds
  (`Pomodoro.Valid`), so no reachable state is affected.
