# College Productivity App — a verified model of its core

This project models three parts of a Java Swing desktop application for
students and proves properties of each:

- **The Pomodoro timer.** It runs a work period, then a short break, with a
  long break after every *n* work periods. The durations come from text
  fields that are re-read each time they are needed. The model covers the
  latest panel (`PomodoroPanel.java`), including its settings file and
  music choice, and the earlier panel inside `CollegeProductivityApp.java`,
  which keeps a session log and a fixed cycle of four.
- **The project to-do list** (`ProjectTodoPanel.java`, `Task.java`). This
  covers tasks with a difficulty clamped to 0..3 and shown as stars, a list
  sorted by name, deadline or difficulty, and the add, edit, finish and
  remove actions. The progress percentage is recomputed after every change.
- **The grades panel** (`GradesPanel.java`). Courses live in an
  insertion-ordered `LinkedHashMap` next to the list the user picks from.
  The model covers adding, renaming and deleting courses, adding, editing
  and removing assignments, and the letter-grade table.

Each stateful Swing panel is modelled twice:

- **Pure step functions** over a state record: `Start`, `Pause`,
  `TickStep`, `PeriodEnd`, `AddCourse`, and so on. The lemmas speak about
  these.
- **A `class`** holding the panel's own fields. Each method updates those
  fields in place and states in its `ensures` that the new state is exactly
  the step function applied to the old one.

The to-do panel keeps the project's task list as a sequence field of the
`Project` object, which its methods sort and update in place.

Modules:

- `JavaLang`: the Java library behaviour the panels rely on:
  - `int` wrap-around and `%` truncating toward zero;
  - `String.trim` and `toLowerCase` on ASCII;
  - `Integer.parseInt` on ASCII digits, and `toString`;
  - `String.compareTo` as a character order;
  - `List.remove(Object)` and `indexOf`.
- `ClockText`: the `MM:SS` clock text.
- `TimerPhase`: the timer's phase enum.
- `Pomodoro`: the latest timer panel.
- `EarlyPomodoro`: the earlier timer panel.
- `Tasks`: `Task` and `stars`.
- `StableSort`: the stable `List.sort` by a key.
- `TodoPanel`: `Project` and `ProjectTodoPanel`.
- `LinkedMap`: `LinkedHashMap`.
- `Grades`: `GradesPanel`, `Course`, `Assignment` and `letterGrade`.

Behaviour worth knowing, modelled as the code does it; where the code
disagrees with the application's description, the code is followed:

- **Tick.** The latest panel's `tick` decrements to zero on one tick and
  ends the period on the next one. The earlier panel ends the period on the
  tick that reaches zero.
- **Reset.** The latest `resetPomodoro` keeps the saved "phase before
  pause". The status update that follows falls through from `IDLE` into
  `default`, so the remaining time becomes a full work period.
- **Pause.** Pausing an already paused timer does nothing in the latest
  panel and resumes in the earlier one.
- **Settings load.** Loading settings happens while the timer is idle and
  always leaves it idle.
- **Minutes to seconds.** `minutes * 60` is `int` arithmetic and wraps
  around.
- **Cycle target 0.** With "cycles before long break" at 0,
  `cyclesCompleted % target` throws after the timer has stopped and the
  counter has been incremented. The model returns `thrown`.
- **Duplicate course names.** Adding a course whose name is already listed
  replaces the map entry but lists the name twice. Deleting it then removes
  the map entry and only the first list entry. The second entry stays
  visible with no course behind it, and renaming it fails with a
  `NullPointerException`. The model returns `Failed` and proves the whole
  sequence.
- **Song after a restart.** A new panel shows "None" in the song selector
  but holds the first track as the current one, and `startPomodoro` plays
  it. Saving stores a path only for "Custom...", so after a restart the
  selector still shows "None" and no track is current any more.

## Model

| member | source | states |
|---|---|---|
| JavaLang.Wrap32 | App/src/PomodoroPanel.java:312 | an `int` product that fits in 32 bits is kept exactly |
| JavaLang.Wrap32Congruent | App/src/PomodoroPanel.java:385-399 | the wrapped value differs from the exact product by a multiple of 2^32 |
| JavaLang.Rem | App/src/PomodoroPanel.java:383 | Java's `%` on `int`, truncating toward zero; `RemBounds` states its sign and bounds |
| JavaLang.RemBounds | App/src/PomodoroPanel.java:383 | `Rem`, Java's `%`: its sign follows the dividend; it is below the divisor's magnitude; it is zero exactly when the magnitude divides |
| JavaLang.Trim | App/src/PomodoroPanel.java:381 | `String.trim`: blanks (characters up to U+0020) cut off at both ends; the lemmas below characterise it |
| JavaLang.TrimStartShape | App/src/PomodoroPanel.java:381 | cutting the front leaves a suffix of the input that starts with a visible character, behind a blank prefix |
| JavaLang.TrimEndShape | App/src/PomodoroPanel.java:381 | cutting the back leaves a prefix of the input that ends with a visible character, before a blank suffix |
| JavaLang.TrimCharacterised | App/src/PomodoroPanel.java:459-461 | `trim` leaves a trimmed slice of its input with only blanks cut off at either end |
| JavaLang.TrimKeepsVisible | App/src/PomodoroPanel.java:459-461 | a visible character survives `trim` at its place, shifted by the blanks cut off the front |
| JavaLang.TrimIdempotent | App/src/PomodoroPanel.java:212 | trimming an already trimmed field text changes nothing |
| JavaLang.TrimPadded | App/src/PomodoroPanel.java:459-461 | blank padding around a trimmed core is exactly what `trim` removes |
| JavaLang.ParseInt | App/src/PomodoroPanel.java:459-461 | `Integer.parseInt`: an optional sign and one or more ASCII digits whose value fits in an `int`, otherwise the exception as `None`; the lemmas below state this |
| JavaLang.ToDecimal | App/src/PomodoroPanel.java:459-461 | `Integer.toString`, the reference text `ParseIntToDecimal` reads back |
| JavaLang.ParseIntToDecimal | App/src/PomodoroPanel.java:459-461 | `Integer.parseInt` reads back every `int` written by `toString` |
| JavaLang.ParseIntRejectsNonDigit | App/src/PomodoroPanel.java:459-461 | a character other than an ASCII digit past the optional sign makes `parseInt` fail (the model reads ASCII digits only) |
| JavaLang.ParseIntRejectsOutOfRange | App/src/PomodoroPanel.java:459-461 | a decimal literal above `Integer.MAX_VALUE` makes `parseInt` fail, with or without `+` |
| JavaLang.NatDigitsValue | App/src/PomodoroPanel.java:463-468 | the decimal digits of a number read back as that number |
| JavaLang.LowerAscii | App/src/ProjectTodoPanel.java:206 | `toLowerCase` on ASCII capitals; `LowerAsciiChars` states it character by character |
| JavaLang.LexLe | App/src/ProjectTodoPanel.java:206 | the `compareTo` order on names, by character; the three lemmas below make it a total order |
| JavaLang.LowerAsciiChars | App/src/ProjectTodoPanel.java:206 | lower-casing keeps the length; each capital becomes its small letter and every other character stays |
| JavaLang.LexLeTotal | App/src/ProjectTodoPanel.java:206 | any two names compare one way or the other |
| JavaLang.LexLeAntisymmetric | App/src/ProjectTodoPanel.java:206 | names that compare both ways are equal |
| JavaLang.LexLeTransitive | App/src/ProjectTodoPanel.java:206 | the name order is transitive |
| JavaLang.RemoveFirst | App/src/GradesPanel.java:103 | `removeElement`: an absent value leaves the list unchanged; a present one shrinks it by one occurrence of that value and nothing else |
| JavaLang.RemoveFirstSplits | App/src/GradesPanel.java:103 | what is removed is exactly the first occurrence |
| JavaLang.RemoveFirstAtIndexOf | App/src/GradesPanel.java:103 | `removeElement` takes out exactly the row `indexOf` finds |
| JavaLang.IndexOf | App/src/GradesPanel.java:103 | the position found holds the value and no earlier position does |
| ClockText.FormatSec | App/src/PomodoroPanel.java:463-468 | the clock text is digits, a colon, and two digits |
| ClockText.Pad2Value | App/src/PomodoroPanel.java:466-467 | zero-padding to two digits keeps the value |
| ClockText.FormatSecRoundTrip | App/src/PomodoroPanel.java:463-468 | the clock text decodes to the seconds it shows, negative input showing 00:00, with seconds in 0..59 |
| ClockText.ClockValueJoined | App/src/PomodoroPanel.java:463-468 | minutes and a two-digit seconds field below 60 around a colon decode to minutes×60 plus seconds |
| Pomodoro.ParseIntOrDefaultReadsNumber | App/src/PomodoroPanel.java:459-461 | a field holding a blank-padded `int` literal is read as that number |
| Pomodoro.ParseIntOrDefault | App/src/PomodoroPanel.java:459-461 | the trimmed text's `parseInt` value, or the default when it throws; its two lemmas state both cases |
| Pomodoro.ParseIntOrDefaultFallsBack | App/src/PomodoroPanel.java:459-461 | a visible character that is neither an ASCII digit nor a sign, anywhere in the field, makes it fall back to the default (the model reads ASCII digits only) |
| Pomodoro.DefaultDurations | App/src/PomodoroPanel.java:48-51 | the initial fields mean 1500, 300 and 900 seconds and a long break every 4 work periods; an unreadable work field means 25 minutes |
| Pomodoro.StatusDisplay | App/src/PomodoroPanel.java:417-444 | `updateStatusDisplay`: the idle case falls through into `default` and resets a full work period; other phases keep the state |
| Pomodoro.Start | App/src/PomodoroPanel.java:297-325 | `startPomodoro`: resume a paused phase, begin work from idle, otherwise nothing; see `StartFromIdle`, `PauseThenResume` |
| Pomodoro.Pause | App/src/PomodoroPanel.java:327-346 | `pausePomodoro`: save a counting phase and stop; see `PauseIgnored`, `PauseThenResume` |
| Pomodoro.Reset | App/src/PomodoroPanel.java:348-361 | `resetPomodoro`: stop, go idle, clear the count; see `ResetYieldsIdle` |
| Pomodoro.PeriodEnd | App/src/PomodoroPanel.java:376-415 | `handlePeriodEnd`: count and choose a break, or throw on a target of 0; back to work after a break; see `WorkPeriodEnds`, `WorkPeriodEndThrows`, `BreakEnds` |
| Pomodoro.TickStep | App/src/PomodoroPanel.java:363-374 | `tick`: one second off, or at zero stop and end the period; see `TicksCountDown`, `PeriodEndsAfterCountdown` |
| Pomodoro.StartButton | App/src/PomodoroPanel.java:143-149 | the Start button: start from idle or paused, pause otherwise; see `PauseThenResume` |
| Pomodoro.AfterLoad | App/src/PomodoroPanel.java:205-213 | the timer side of `loadSettings`: a counting phase paused, anything else idle with a full work period; see `LoadNeverResumes` |
| Pomodoro.StartFromIdle | App/src/PomodoroPanel.java:310-324 | starting from idle begins a work period of the full work length and starts the timer |
| Pomodoro.PauseThenResume | App/src/PomodoroPanel.java:143-149 | in a counting phase the Start button pauses; pausing saves the phase and stops; pressing again resumes exactly the paused state |
| Pomodoro.PauseIgnored | App/src/PomodoroPanel.java:327-346 | pausing while idle or already paused changes nothing |
| Pomodoro.ResetYieldsIdle | App/src/PomodoroPanel.java:348-361 | reset leaves the timer idle, stopped, with no cycles and a full work period, keeping the saved pause phase; resetting twice is resetting once |
| Pomodoro.StepsKeepValid | App/src/PomodoroPanel.java:297-415 | every operation keeps "only a counting phase is saved, and the timer runs only in a counting phase" |
| Pomodoro.TicksCountDown | App/src/PomodoroPanel.java:363-368 | n ticks with at least n seconds left take exactly n seconds off and change nothing else |
| Pomodoro.PeriodEndsAfterCountdown | App/src/PomodoroPanel.java:363-374 | after counting down to zero, the next tick stops the timer and ends the period |
| Pomodoro.WorkPeriodEnds | App/src/PomodoroPanel.java:379-396 | ending a work period counts one cycle and starts a long break exactly when the count is a multiple of the target, otherwise a short break of the right length |
| Pomodoro.WorkPeriodEndThrows | App/src/PomodoroPanel.java:363-383 | with a cycle target of 0 the period end throws after the timer has stopped and the counter has been incremented |
| Pomodoro.BreakEnds | App/src/PomodoroPanel.java:397-407 | ending either break starts a full work period |
| Pomodoro.CyclesCounted | App/src/PomodoroPanel.java:376-415 | k work-and-break rounds count k cycles and return to a work period |
| Pomodoro.LongBreakEveryTarget | App/src/PomodoroPanel.java:380-390 | the long break comes after every target-th work period |
| Pomodoro.DefaultLongBreakOnFourth | App/src/PomodoroPanel.java:380-390 | with the default target, from a fresh start, every fourth work period is followed by the long break |
| Pomodoro.UpdateSongPath | App/src/PomodoroPanel.java:268-284 | a built-in song picks its file; Custom keeps a loaded path, else takes the chosen file or reverts to "None" |
| Pomodoro.SettingsOf | App/src/PomodoroPanel.java:229-238 | the saved texts are trimmed; the song index is saved; the custom path is saved only for Custom |
| Pomodoro.SettingsRoundTrip | App/src/PomodoroPanel.java:205-238 | loading what was saved gives back the same durations, and the same song choice when its index and track agree (`ConsistentSong`) |
| Pomodoro.FreshSongLostOnRestart | App/src/PomodoroPanel.java:46 | the panel's starting pair, selector on "None" with the first track current, is not consistent; saving and loading it gives "None" with no track |
| Pomodoro.LoadNeverResumes | App/src/PomodoroPanel.java:205-213 | after loading, the timer is idle with a full work period |
| Pomodoro.TimerText | App/src/PomodoroPanel.java:446-448 | the timer label decodes to the remaining seconds, or zero when negative |
| Pomodoro.PomodoroPanel.constructor | App/src/PomodoroPanel.java:69-167 | the panel starts idle with the stored fields and song, or the defaults when there is no file |
| Pomodoro.PomodoroPanel.SaveSettings | App/src/PomodoroPanel.java:225-238 | the record `saveSettings` writes, `SettingsOf` of the fields and the song; see `SettingsRoundTrip` |
| Pomodoro.PomodoroPanel.LoadSettings | App/src/PomodoroPanel.java:178-222 | a stored file sets the fields and the song, pauses a counting phase and sends any other phase idle with a full work period of the loaded length; no file or an unreadable one changes nothing |
| Pomodoro.PomodoroPanel.RestoreTimerState | App/src/PomodoroPanel.java:205-213 | the timer becomes `AfterLoad` of itself: a counting phase is paused, any other goes idle with a full work period |
| Pomodoro.PomodoroPanel.ApplySettings | App/src/PomodoroPanel.java:186-213 | a settings record read back sets the four texts and the song as `updateSongPath` decides, then pauses or idles the timer as `AfterLoad` says |
| Pomodoro.PomodoroPanel.SetSong | App/src/PomodoroPanel.java:196-197 | a consistent song choice becomes the selector's index and the current track, keeping the panel well-formed |
| Pomodoro.PomodoroPanel.UpdateStatusDisplay | App/src/PomodoroPanel.java:417-444 | only when idle the remaining time is reset to a full work period |
| Pomodoro.PomodoroPanel.ShowStatus | App/src/PomodoroPanel.java:417-444 | with the durations the fields read as, the timer becomes `StatusDisplay` of itself |
| Pomodoro.PomodoroPanel.StartPomodoro | App/src/PomodoroPanel.java:297-325 | the fields perform `Start` |
| Pomodoro.PomodoroPanel.Resume | App/src/PomodoroPanel.java:298-308 | from paused, the fields perform `Start`: the saved phase, or work if none, runs again with the time it had left |
| Pomodoro.PomodoroPanel.BeginWork | App/src/PomodoroPanel.java:310-324 | from idle, the fields perform `Start`: a full work period, with the timer started |
| Pomodoro.PomodoroPanel.PausePomodoro | App/src/PomodoroPanel.java:327-346 | the fields perform `Pause` |
| Pomodoro.PomodoroPanel.ResetPomodoro | App/src/PomodoroPanel.java:348-361 | the fields perform `Reset` |
| Pomodoro.PomodoroPanel.Tick | App/src/PomodoroPanel.java:363-374 | the fields perform `TickStep`, and `thrown` reports the exception |
| Pomodoro.PomodoroPanel.HandlePeriodEnd | App/src/PomodoroPanel.java:376-415 | the fields perform `PeriodEnd` with the durations the fields read as |
| Pomodoro.PomodoroPanel.FinishPeriod | App/src/PomodoroPanel.java:376-415 | given the durations the fields read as, the fields perform `PeriodEnd` |
| Pomodoro.PomodoroPanel.EndWorkPeriod | App/src/PomodoroPanel.java:379-396 | the fields perform `PeriodEnd` of a work period: the count goes up, then a throw on a target of 0, or a long or short break with the timer started; never idle unless it threw |
| Pomodoro.PomodoroPanel.EndBreak | App/src/PomodoroPanel.java:397-407 | the fields perform `PeriodEnd` of a break: a full work period with the timer started |
| Pomodoro.PomodoroPanel.OnStartButton | App/src/PomodoroPanel.java:143-149 | the fields perform the Start button's pause-or-start |
| Pomodoro.PomodoroPanel.SelectSong | App/src/PomodoroPanel.java:153-162 | choosing a song sets the song choice as `updateSongPath` decides |
| Pomodoro.PomodoroPanel.SetFieldTexts | App/src/PomodoroPanel.java:48-51 | the four field texts are set and nothing else changes |
| EarlyPomodoro.TimerText | App/src/CollegeProductivityApp.java:583-596 | the label shows a full work period at zero, otherwise the remaining seconds, never negative |
| EarlyPomodoro.ParseIntOrDefault | App/src/CollegeProductivityApp.java:587-589 | the text's `parseInt` value, or the default when it throws |
| EarlyPomodoro.DisplaySeconds | App/src/CollegeProductivityApp.java:583-585 | the seconds the label shows: a full work period at zero, otherwise the time left |
| EarlyPomodoro.Start | App/src/CollegeProductivityApp.java:485-502 | `startPomodoro` of the earlier panel; see `StartCases` |
| EarlyPomodoro.Pause | App/src/CollegeProductivityApp.java:504-520 | `pausePomodoro`, which also resumes from paused; see `PauseToggles`, `PauseIgnoresIdle` |
| EarlyPomodoro.Reset | App/src/CollegeProductivityApp.java:522-530 | `resetPomodoro`; see `ResetClears` |
| EarlyPomodoro.PeriodEnd | App/src/CollegeProductivityApp.java:547-581 | `handlePeriodEnd` with a log entry; see `PeriodEndLogsOnce`, `WorkPeriodEnds` |
| EarlyPomodoro.TickStep | App/src/CollegeProductivityApp.java:532-545 | `tick`, which ends the period on the tick that reaches zero; see `TicksCountDown`, `PeriodEndsOnLastTick` |
| EarlyPomodoro.StartCases | App/src/CollegeProductivityApp.java:485-502 | start resumes the saved phase, begins work from idle, and otherwise changes nothing |
| EarlyPomodoro.PauseToggles | App/src/CollegeProductivityApp.java:504-520 | pausing a counting phase saves it and stops; pausing again resumes it; start also resumes it |
| EarlyPomodoro.PauseIgnoresIdle | App/src/CollegeProductivityApp.java:506 | pausing while idle does nothing |
| EarlyPomodoro.ResetClears | App/src/CollegeProductivityApp.java:522-530 | reset leaves the timer idle and stopped, with no time, no cycles and an empty log |
| EarlyPomodoro.StepsKeepValid | App/src/CollegeProductivityApp.java:485-581 | every operation keeps the saved and running phases consistent |
| EarlyPomodoro.PeriodEndLogsOnce | App/src/CollegeProductivityApp.java:547-581 | a period end appends exactly one log entry of the right kind, at that instant; outside a counting phase it goes idle |
| EarlyPomodoro.WorkPeriodEnds | App/src/CollegeProductivityApp.java:549-565 | a work period end counts a cycle and starts the long break on every fourth, otherwise the short break |
| EarlyPomodoro.CyclesCounted | App/src/CollegeProductivityApp.java:547-581 | k rounds count k cycles, return to work and log 2k entries |
| EarlyPomodoro.LongBreakEveryFourth | App/src/CollegeProductivityApp.java:553-561 | from a fresh start, every fourth work period is followed by the long break |
| EarlyPomodoro.TicksCountDown | App/src/CollegeProductivityApp.java:532-545 | ticks before zero take one second each and change nothing else |
| EarlyPomodoro.PeriodEndsOnLastTick | App/src/CollegeProductivityApp.java:533-539 | the tick that reaches zero stops the timer and ends the period |
| EarlyPomodoro.PomodoroPanel.constructor | App/src/CollegeProductivityApp.java:441-483 | the panel starts idle with the default fields |
| EarlyPomodoro.PomodoroPanel.TimerLabel | App/src/CollegeProductivityApp.java:583-585 | the label text, `TimerText` of the fields |
| EarlyPomodoro.PomodoroPanel.StartPomodoro | App/src/CollegeProductivityApp.java:485-502 | the fields perform `Start` |
| EarlyPomodoro.PomodoroPanel.PausePomodoro | App/src/CollegeProductivityApp.java:504-520 | the fields perform `Pause` |
| EarlyPomodoro.PomodoroPanel.ResetPomodoro | App/src/CollegeProductivityApp.java:522-530 | the fields perform `Reset` |
| EarlyPomodoro.PomodoroPanel.Tick | App/src/CollegeProductivityApp.java:532-545 | the fields perform `TickStep` at the given instant |
| EarlyPomodoro.PomodoroPanel.HandlePeriodEnd | App/src/CollegeProductivityApp.java:547-581 | the fields perform `PeriodEnd` at the given instant |
| EarlyPomodoro.PomodoroPanel.SetFieldTexts | App/src/CollegeProductivityApp.java:422-437 | the three field texts are set and nothing else changes |
| Tasks.ClampDifficulty | App/src/Task.java:11 | the difficulty lies in 0..3, is kept when already in range, and is pinned to the nearer end otherwise |
| Tasks.NewTask | App/src/Task.java:3-14 | a new task keeps its name and deadline, clamps its difficulty and is not completed |
| Tasks.Repeat | App/src/ProjectTodoPanel.java:227 | `repeat` gives n copies of the character |
| Tasks.Stars | App/src/ProjectTodoPanel.java:225-228 | three characters, the first as many filled as the clamped difficulty and the rest empty |
| Tasks.StarsCount | App/src/ProjectTodoPanel.java:225-228 | counting the filled stars gives back the clamped difficulty |
| Tasks.StarsInjective | App/src/CollegeProductivityApp.java:408-411 | two difficulties show the same stars exactly when they clamp alike |
| Tasks.FilledCount | App/src/ProjectTodoPanel.java:225-228 | the number of filled stars in a rating, at most its length; see `StarsCount` |
| StableSort.KeyLeTotal | App/src/ProjectTodoPanel.java:203-207 | any two sort keys compare one way or the other |
| StableSort.KeyLeAntisymmetric | App/src/ProjectTodoPanel.java:203-207 | keys that compare both ways are equal |
| StableSort.KeyLeTransitive | App/src/ProjectTodoPanel.java:203-207 | the key order is transitive |
| StableSort.InsertionSort | App/src/ProjectTodoPanel.java:203-207 | the stable sort by key that `List.sort` performs; see `InsertionSortCorrect`, `InsertionSortStable` |
| StableSort.InsertionSortCorrect | App/src/ProjectTodoPanel.java:203-207 | the sorted list is in key order and is a permutation of the input |
| StableSort.InsertionSortStable | App/src/ProjectTodoPanel.java:203-207 | elements with equal keys keep their relative order |
| StableSort.InsertionSortOfSorted | App/src/ProjectTodoPanel.java:203-207 | a list already in order is left as it is |
| StableSort.InsertionSortIdempotent | App/src/ProjectTodoPanel.java:203-207 | sorting twice is sorting once |
| StableSort.Items | App/src/ProjectTodoPanel.java:203-207 | the items of a keyed list, position by position |
| StableSort.InsertionSortItems | App/src/ProjectTodoPanel.java:203-207 | sorting neither adds nor drops any task |
| TodoPanel.Project.constructor | App/src/Project.java:13-19 | a new project has its name and no tasks |
| TodoPanel.TaskKey | App/src/ProjectTodoPanel.java:203-207 | the sort key of a mode: deadline (1), difficulty (2), lower-cased name (otherwise) |
| TodoPanel.SortedTasks | App/src/ProjectTodoPanel.java:203-207 | the tasks as the selected comparator sorts them; see `SortedTasksCorrect`, `SortedTasksStable` |
| TodoPanel.KeyedTasksShape | App/src/ProjectTodoPanel.java:203-207 | each task is paired with its key in the selected mode: lower-cased name, deadline or difficulty |
| TodoPanel.KeyedTasksItems | App/src/ProjectTodoPanel.java:203-207 | pairing the tasks with keys keeps the tasks themselves, in order |
| TodoPanel.KeyedTasksKeys | App/src/ProjectTodoPanel.java:203-207 | every pair carries its own task's key in the selected mode |
| TodoPanel.KeyedOfItems | App/src/ProjectTodoPanel.java:203-207 | taking correctly keyed items and keying them again gives the same list |
| TodoPanel.TasksWithKeyIsWithKey | App/src/ProjectTodoPanel.java:203-207 | the tasks with a given key are the keyed list's elements with that key |
| TodoPanel.SortKeepsKeys | App/src/ProjectTodoPanel.java:203-207 | after sorting, every task still carries its own key |
| TodoPanel.SortedTasksCorrect | App/src/ProjectTodoPanel.java:203-207 | the sorted task list is a permutation of the tasks, ordered by the selected key |
| TodoPanel.SortedTasksStable | App/src/ProjectTodoPanel.java:203-207 | tasks with equal keys keep their relative order |
| TodoPanel.SortedTasksIdempotent | App/src/ProjectTodoPanel.java:203-207 | refreshing twice in the same mode sorts like refreshing once |
| TodoPanel.CountCompleted | App/src/ProjectTodoPanel.java:210-215 | the completed count is at most the number of tasks |
| TodoPanel.CountCompletedAll | App/src/ProjectTodoPanel.java:210-215 | the count equals the number of tasks exactly when every task is completed |
| TodoPanel.CountCompletedNone | App/src/ProjectTodoPanel.java:210-215 | the count is zero exactly when no task is completed |
| TodoPanel.CountCompletedSplit | App/src/ProjectTodoPanel.java:210-215 | the count over two lists is the sum of their counts |
| TodoPanel.SortedTasksCount | App/src/ProjectTodoPanel.java:203-215 | sorting does not change the completed count |
| TodoPanel.SortedTasksInRange | App/src/ProjectTodoPanel.java:203-207 | sorting keeps every difficulty within 0..3 |
| TodoPanel.FinishCounts | App/src/ProjectTodoPanel.java:94-97 | finishing a task raises the count by one, unless it was already done |
| TodoPanel.ProjectTodoPanel.constructor | App/src/ProjectTodoPanel.java:7-47 | no project is loaded, sorting is by name, progress is 0 and no rows are shown |
| TodoPanel.ProjectTodoPanel.RefreshTasks | App/src/ProjectTodoPanel.java:192-223 | without a project, progress is 0 with no rows; otherwise the tasks are sorted in place, shown one row each, with a fitting percentage |
| TodoPanel.ProjectTodoPanel.ListRows | App/src/ProjectTodoPanel.java:210-215 | the loop shows every task in order and counts the completed ones |
| TodoPanel.ProjectTodoPanel.ProgressPercent | App/src/ProjectTodoPanel.java:217-218 | the percentage is 0 for no tasks or none done, 100 when all are done, and otherwise the floor of completed×100/total |
| TodoPanel.ProjectTodoPanel.LoadProject | App/src/ProjectTodoPanel.java:49-52 | loading a project makes it current and refreshes it |
| TodoPanel.ProjectTodoPanel.SelectSortMode | App/src/ProjectTodoPanel.java:46 | choosing a mode re-sorts the tasks by that key |
| TodoPanel.ProjectTodoPanel.AddTask | App/src/ProjectTodoPanel.java:134-163 | a task is added exactly when a project is loaded, the dialog is confirmed, the trimmed name is non-empty and the date parsed; the list then gains exactly that new task, sorted; otherwise nothing changes |
| TodoPanel.ProjectTodoPanel.EditTask | App/src/ProjectTodoPanel.java:165-189 | a confirmed edit with a name and a date replaces the row's name, deadline and difficulty and re-sorts; otherwise nothing changes |
| TodoPanel.ProjectTodoPanel.FinishTask | App/src/ProjectTodoPanel.java:94-97 | the row's task becomes completed, the list is re-sorted, and the count rises by one unless it was done |
| TodoPanel.ProjectTodoPanel.RemoveTask | App/src/ProjectTodoPanel.java:101-106 | a confirmed removal drops that task and no other; a declined one changes nothing |
| LinkedMap.Empty | App/src/GradesPanel.java:16 | a new map is empty and well formed |
| LinkedMap.Get | App/src/GradesPanel.java:162 | `get`: the value, or `None` for Java's `null`; `Put` and `Remove` state their effect through it |
| LinkedMap.Put | App/src/GradesPanel.java:78 | after `put` the key maps to the value and every other key is unchanged; a new key goes last, an existing one keeps its place |
| LinkedMap.Remove | App/src/GradesPanel.java:89 | after `remove` the key is absent and every other key is unchanged; removing an absent key changes no order |
| LinkedMap.PutValid | App/src/GradesPanel.java:91 | `put` keeps every key listed exactly once |
| LinkedMap.RemoveValid | App/src/GradesPanel.java:102 | `remove` keeps every key listed exactly once and shortens the order by one exactly when the key was present |
| LinkedMap.RemoveKeepsOrder | App/src/GradesPanel.java:102 | removing a key takes out exactly its place in the order |
| LinkedMap.DistinctWithout | App/src/GradesPanel.java:102 | dropping one position of a list without repeats leaves a list without repeats of the other elements |
| Grades.RankOfLetter | App/src/GradesPanel.java:175-185 | the nine letters are distinct, ranked in table order |
| Grades.LetterGrade | App/src/GradesPanel.java:175-185 | `letterGrade`: the letter of the first band whose cutoff the percentage reaches; see `LetterGradeIsBand`, `LetterGradeInterval` |
| Grades.CutoffsDecrease | App/src/GradesPanel.java:175-185 | the cutoffs strictly decrease down the table |
| Grades.Band | App/src/GradesPanel.java:175-185 | the table search ends within the table |
| Grades.BandInterval | App/src/GradesPanel.java:175-185 | the band found is the one whose cutoff the grade reaches while missing the one above |
| Grades.BandMonotone | App/src/GradesPanel.java:175-185 | a higher grade never lands in a lower band |
| Grades.LetterGradeIsBand | App/src/GradesPanel.java:175-185 | `letterGrade` is the letter of the band the table search finds |
| Grades.LetterGradeMonotone | App/src/GradesPanel.java:175-185 | a higher percentage never gets a worse letter |
| Grades.LetterGradeInterval | App/src/GradesPanel.java:175-185 | each letter is given exactly on its half-open interval: at least its cutoff and below the next one up |
| Grades.Initial | App/src/GradesPanel.java:151-156 | the panel starts with the one sample course, listed once, nothing selected and no assignments shown |
| Grades.CurrentCourse | App/src/GradesPanel.java:159-163 | no selection gives no course; otherwise it is the map entry under the selected name |
| Grades.LoadCourse | App/src/GradesPanel.java:165-173 | `loadCourse`: shows the named course's assignments, or none when it is missing; see `LoadKeepsValid` |
| Grades.Select | App/src/GradesPanel.java:109-111 | a click on a row: that row selected and its course shown; see `SelectKeepsValid` |
| Grades.SelectValue | App/src/GradesPanel.java:80 | `setSelectedValue`: the first row with the name, unless the name is already selected |
| Grades.AddCourse | App/src/GradesPanel.java:74-82 | Add Course; see `AddCourseEffect`, `AddCourseValid` |
| Grades.RenameCourse | App/src/GradesPanel.java:84-95 | Rename Course, failing on a name with no course; see `RenameCourseEffect`, `RenameStaleNameFails` |
| Grades.SelectionAfterRemoval | App/src/GradesPanel.java:103 | the selection once a row is removed: cleared if it was that row, shifted up if it was below |
| Grades.DeleteCourse | App/src/GradesPanel.java:97-107 | Delete Course; see `DeleteCourseEffect`, `DeleteCourseValid` |
| Grades.AddAssignment | App/src/GradesPanel.java:113 | Add Assignment through `addOrEditAssignment`; see `AddAssignmentEffect`, `AssignmentRejected` |
| Grades.EditAssignment | App/src/GradesPanel.java:114-119 | Edit Assignment of a selected row; see `EditAssignmentEffect` |
| Grades.RemoveAssignment | App/src/GradesPanel.java:121-130 | Remove Assignment of a selected row; see `RemoveAssignmentEffect` |
| Grades.PutListedValid | App/src/GradesPanel.java:78-79 | storing a course under its own name, with the name listed, keeps the panel consistent |
| Grades.LoadKeepsValid | App/src/GradesPanel.java:165-173 | showing a course keeps the panel consistent |
| Grades.SelectKeepsValid | App/src/GradesPanel.java:109-111 | selecting a row keeps the panel consistent |
| Grades.AddCourseValid | App/src/GradesPanel.java:74-82 | adding a course keeps the panel consistent: well-formed map, each course under its name, every course listed, a selection within the list |
| Grades.RenameCourseValid | App/src/GradesPanel.java:84-95 | renaming keeps the panel consistent |
| Grades.DeleteCourseValid | App/src/GradesPanel.java:97-107 | deleting keeps the panel consistent |
| Grades.AssignmentStepsValid | App/src/GradesPanel.java:113-130 | adding, editing and removing assignments keep the panel consistent |
| Grades.AddCourseEffect | App/src/GradesPanel.java:74-82 | adding a name stores an empty course under the trimmed name, lists it last, selects it and leaves every other course alone |
| Grades.RenameCourseEffect | App/src/GradesPanel.java:84-95 | renaming moves the selected course under the new name; the old key goes unless it was the new name; the list entry is replaced in place; the order changes as `remove` then `put` dictate |
| Grades.DeleteCourseEffect | App/src/GradesPanel.java:97-107 | deleting removes the selected course and the first list entry with its name, clears the assignments shown and leaves every other course alone |
| Grades.AddFreshSelectsLast | App/src/GradesPanel.java:74-82 | adding a name not yet listed appends it and selects that new last row |
| Grades.AddSelectedKeepsSelection | App/src/GradesPanel.java:74-82 | adding the selected row's name again appends a second row and leaves the selection on the first |
| Grades.DuplicateDeleteLeavesStaleName | App/src/GradesPanel.java:74-107 | adding the same name twice and deleting it leaves the name listed with no course behind it |
| Grades.RenameStaleNameFails | App/src/GradesPanel.java:89-90 | renaming a listed name with no course behind it fails and changes nothing |
| Grades.AddAssignmentEffect | App/src/GradesPanel.java:187-218 | a confirmed, well-formed assignment is appended to the selected course and shown; nothing else changes |
| Grades.EditAssignmentEffect | App/src/GradesPanel.java:114-119 | a confirmed, well-formed edit replaces exactly that assignment and shows the list |
| Grades.RemoveAssignmentEffect | App/src/GradesPanel.java:121-130 | a confirmed removal drops exactly that assignment and shows the rest |
| Grades.AssignmentRejected | App/src/GradesPanel.java:202-216 | a cancelled dialog, a missing course, a bad number or an empty name leaves everything unchanged; a bad number is reported as such |
| Grades.GradesPanel.constructor | App/src/GradesPanel.java:27-157 | the panel starts in the initial state |
| Grades.GradesPanel.ShowCourse | App/src/GradesPanel.java:165-173 | the fields perform `LoadCourse` |
| Grades.GradesPanel.SelectCourse | App/src/GradesPanel.java:109-111 | the fields perform the selection and load the course |
| Grades.GradesPanel.SetSelectedValue | App/src/GradesPanel.java:80 | the fields select the first row with the name, as `setSelectedValue` does |
| Grades.GradesPanel.AddCourseButton | App/src/GradesPanel.java:74-82 | the fields perform `AddCourse` and report its outcome |
| Grades.GradesPanel.RenameCourseButton | App/src/GradesPanel.java:84-95 | the fields perform `RenameCourse` and report its outcome |
| Grades.GradesPanel.DeleteCourseButton | App/src/GradesPanel.java:97-107 | the fields perform `DeleteCourse` and report its outcome |
| Grades.GradesPanel.AddOrEditAssignment | App/src/GradesPanel.java:187-218 | without an existing assignment the fields perform `AddAssignment`; with one they perform `EditAssignment` |
| Grades.GradesPanel.AddAssignmentButton | App/src/GradesPanel.java:113 | the fields perform `AddAssignment` |
| Grades.GradesPanel.EditAssignmentButton | App/src/GradesPanel.java:114-119 | the fields perform `EditAssignment`, failing on an index past the list |
| Grades.GradesPanel.RemoveAssignmentButton | App/src/GradesPanel.java:121-130 | the fields perform `RemoveAssignment` |

## Left out

- Swing rendering is left out. Labels, colours, fonts, dialogs and repaint
  are not modelled. The value a dialog returns, such as a confirmation, an
  input string, a chosen file or a row index, is a parameter.
- The music player (`BGM_Pomodoro`) is not part of this model. Song choice
  is modelled only as the selector index and path it would play.
- File I/O is left out. Reading and writing `pomodoro.dat`,
  `ProjectFileHandler` and `SubjectFileHandler` are not modelled. The loaded
  settings are a parameter (no file, unreadable, or stored settings), and
  saving is the snapshot `SaveSettings`.
- The clock and timestamps are left out. `new Date()`, `workStartTime` and
  `getTimeStamp` are not modelled. The earlier panel's log records the
  instant passed to `Tick` and `HandlePeriodEnd`.
- Real time and threading are left out. The Swing timer is a `timerRunning`
  flag, and every tick is an explicit call.
- `ProjectListPanel`, `MainFrame`, `Main`, `AppConfig`, `SafeDateFormat`,
  `GWACalculator` and `Subject` are not part of this model: they hold no
  core logic named here. Date parsing is an `Option` of the parsed instant.
- The earlier to-do list inside `CollegeProductivityApp.java` is not
  modelled separately; it repeats `Task` and `stars`, which `Tasks` covers.
- Course averages are left out: `currentWeightedScore`, `currentWeight`,
  `computeProjected` and `toDisplayString` compute labels only. The shown
  assignments are the assignment values themselves.
- `Assignment` weight and grade are parsed reals passed in; `NaN` and
  infinities from `Double.parseDouble` are not modelled.
- `String.toLowerCase` and `compareTo` are modelled on characters: ASCII
  letters only lower-case, and names compare by character code rather than by
  UTF-16 unit.
- The task deadline is an `int` instant; `Date` comparison is compared as
  that number.
- Tasks are values addressed by their row, not shared objects, so aliasing
  of one `Task` object across projects is not modelled; removing a task by
  identity is removing its row, since each task object is added once.
- TodoPanel.ProjectTodoPanel.ProgressPercent: divides exactly, whereas Java
  multiplies a `double` quotient by 100, which can round one lower (for
  example 29 of 100).
- TodoPanel.ProjectTodoPanel.EditTask: requires a difficulty in 0..3,
  because the dialog's combo box offers only those; the source does not
  clamp on edit.
- TodoPanel.ProjectTodoPanel.LoadProject: requires every loaded task's
  difficulty in 0..3, which `Task`'s constructor guarantees for tasks made
  by the application.
- Pomodoro.PomodoroPanel.constructor: requires a stored song index in
  0..6; an out-of-range index makes `setSelectedIndex` throw, which is not
  modelled.
- Pomodoro.PomodoroPanel.LoadSettings: requires the timer to be stopped,
  as it is when the constructor calls it, and the same song index range.
- Grades.GradesPanel.SelectCourse, Grades.GradesPanel.SetSelectedValue:
  require a row that exists, the only rows a user can pick.
- Grades.GradesPanel.SelectCourse, Grades.GradesPanel.DeleteCourseButton:
  the course list keeps Swing's default multiple-interval selection, but the
  model keeps a single selected row. A ctrl-click selection of several rows
  is not modelled. After deleting with such a selection, Swing keeps the
  other rows selected, and a later rename acts on the first of them. The
  model clears the selection instead.
- JavaLang.ParseInt: reads only the ASCII digits `0`..`9`. Java's
  `Character.digit` also accepts the other Unicode decimal digits, such as
  Arabic-Indic ones. A field written in them therefore falls back to the
  default in the model but is read as a number by the application.
- JavaLang.ParseIntRejectsNonDigit, Pomodoro.ParseIntOrDefaultFallsBack:
  hold for the model's ASCII-only `parseInt`. For a non-ASCII decimal digit
  they do not describe Java (see the line above).
