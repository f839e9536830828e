/** The earlier Pomodoro panel, the `PomodoroPanel` class nested in
    `App/src/CollegeProductivityApp.java`. It has the same phases as the
    later one, but a long break after every fourth work period, a period
    end on the very tick that reaches zero, a pause button that toggles,
    no settings file, and a session log of finished periods. */
module EarlyPomodoro {
  import opened JavaLang
  import opened TimerPhase
  import ClockText

  /** The texts of the work, short break and long break fields. */
  datatype DurationFields = DurationFields(workText: string, shortBreakText: string, longBreakText: string)

  const DefaultFields := DurationFields("25", "5", "15")

  /** The long break comes after this many work periods, fixed. */
  const CYCLES: int := 4

  /** `parseIntOrDefault` of this revision: `Integer.parseInt` of the text as
      given, or `def`; only its callers trim. */
  function ParseIntOrDefault(s: string, def: int32): int32
  {
    match ParseInt(s)
    case Some(v) => v
    case None => def
  }

  /** The seconds of a work period, of a short and of a long break. */
  datatype Durations = Durations(work: int32, shortBreak: int32, longBreak: int32)

  /** `parseIntOrDefault(field.getText().trim(), def) * 60` for each field. */
  function DurationsOf(f: DurationFields): Durations
  {
    Durations(
      Wrap32(ParseIntOrDefault(Trim(f.workText), 25) as int * 60),
      Wrap32(ParseIntOrDefault(Trim(f.shortBreakText), 5) as int * 60),
      Wrap32(ParseIntOrDefault(Trim(f.longBreakText), 15) as int * 60))
  }

  /** One line of the session log, stamped with the time it was written. */
  datatype LogEntry = WorkDone(at: int) | BreakEnded(at: int)

  datatype TimerState = TimerState(phase: Phase, remaining: int32, cycles: int32, saved: Option<Phase>, running: bool, log: seq<LogEntry>)

  /** Only a counting phase is ever saved, and the Swing timer runs only in a
      counting phase. */
  predicate TimerValid(t: TimerState)
  {
    (t.saved.None? || Running(t.saved.value)) && (t.running ==> Running(t.phase))
  }

  /** `startPomodoro`: resume a paused phase (keeping the saved phase), begin
      a work period from idle, and otherwise do nothing. */
  function Start(t: TimerState, d: Durations): TimerState
  {
    if t.phase == Paused then t.(running := true, phase := ResumePhase(t.saved))
    else if t.phase == Idle then t.(remaining := d.work, phase := Work, running := true)
    else t
  }

  /** `pausePomodoro`: a toggle. A counting phase is saved and paused; a
      paused one resumes and forgets what was saved; idle is left alone. */
  function Pause(t: TimerState): TimerState
  {
    if t.phase == Idle then t
    else if t.phase == Paused then t.(running := true, phase := ResumePhase(t.saved), saved := None)
    else t.(saved := Some(t.phase), phase := Paused, running := false)
  }

  /** `resetPomodoro`: stop, go idle with no time and no cycles, clear the log. */
  function Reset(t: TimerState): TimerState
  {
    t.(running := false, phase := Idle, remaining := 0, cycles := 0, log := [])
  }

  /** `handlePeriodEnd` at clock time `now`: a work period logs, counts, and
      picks a long break on every fourth count; a break logs and starts a
      work period; anything else goes idle without touching the time. */
  function PeriodEnd(t: TimerState, d: Durations, now: int): TimerState
  {
    if t.phase == Work then
      var cycles := Wrap32(t.cycles as int + 1);
      var u := t.(cycles := cycles, log := t.log + [WorkDone(now)], running := true);
      if Rem(cycles, CYCLES) == 0 then u.(remaining := d.longBreak, phase := LongBreak)
      else u.(remaining := d.shortBreak, phase := ShortBreak)
    else if t.phase == ShortBreak || t.phase == LongBreak then
      t.(log := t.log + [BreakEnded(now)], remaining := d.work, phase := Work, running := true)
    else t.(phase := Idle)
  }

  /** `tick`: take a second off; the period ends on the tick that reaches
      zero, or on a tick that finds it already at zero or below. */
  function TickStep(t: TimerState, d: Durations, now: int): TimerState
  {
    if t.remaining > 0 then
      var u := t.(remaining := t.remaining - 1);
      if u.remaining == 0 then PeriodEnd(u.(running := false), d, now) else u
    else PeriodEnd(t.(running := false), d, now)
  }

  /** One tick at each of the clock times in `times`, in order. */
  function Ticks(t: TimerState, d: Durations, times: seq<int>): TimerState
  {
    if times == [] then t
    else TickStep(Ticks(t, d, times[..|times| - 1]), d, times[|times| - 1])
  }

  /** The seconds `updateTimerDisplay` shows: a full work period when none
      are left. */
  function DisplaySeconds(t: TimerState, d: Durations): int32
  {
    if t.remaining == 0 then d.work else t.remaining
  }

  /** The text of the timer label. */
  function TimerText(t: TimerState, d: Durations): (r: string)
    ensures ClockText.ClockValue(r) == Some(
      if t.remaining == 0 then (if d.work < 0 then 0 else d.work)
      else if t.remaining < 0 then 0 else t.remaining)
  {
    ClockText.FormatSecRoundTrip(DisplaySeconds(t, d));
    ClockText.FormatSec(DisplaySeconds(t, d))
  }

  lemma StartCases(t: TimerState, d: Durations)
    ensures t.phase == Paused ==> Start(t, d) == t.(running := true, phase := ResumePhase(t.saved))
    ensures t.phase == Idle ==> Start(t, d) == t.(remaining := d.work, phase := Work, running := true)
    ensures t.phase != Paused && t.phase != Idle ==> Start(t, d) == t
  {
  }

  /** Pausing a counting phase twice comes back to it with the saved phase
      cleared; pausing and then pressing Start also comes back, but keeps
      the saved phase. */
  lemma PauseToggles(t: TimerState, d: Durations)
    requires Running(t.phase) && t.running
    ensures Pause(t).phase == Paused && Pause(t).saved == Some(t.phase) && !Pause(t).running
    ensures Pause(Pause(t)) == t.(saved := None)
    ensures Start(Pause(t), d) == t.(saved := Some(t.phase))
  {
  }

  lemma PauseIgnoresIdle(t: TimerState)
    requires t.phase == Idle
    ensures Pause(t) == t
  {
  }

  lemma ResetClears(t: TimerState)
    ensures Reset(t) == TimerState(Idle, 0, 0, t.saved, false, [])
  {
  }

  /** Every step keeps `TimerValid`. */
  lemma StepsKeepValid(t: TimerState, d: Durations, now: int)
    requires TimerValid(t)
    ensures TimerValid(Start(t, d)) && TimerValid(Pause(t)) && TimerValid(Reset(t))
    ensures TimerValid(PeriodEnd(t, d, now)) && TimerValid(TickStep(t, d, now))
  {
  }

  /** Each period end appends exactly one log entry when it ends a work
      period or a break, and none otherwise; the earlier entries stay. */
  lemma PeriodEndLogsOnce(t: TimerState, d: Durations, now: int)
    ensures t.phase == Work ==> PeriodEnd(t, d, now).log == t.log + [WorkDone(now)]
    ensures t.phase == ShortBreak || t.phase == LongBreak ==> PeriodEnd(t, d, now).log == t.log + [BreakEnded(now)]
    ensures !Running(t.phase) ==> PeriodEnd(t, d, now) == t.(phase := Idle)
  {
  }

  /** A work period's end counts it and picks the long break exactly on a
      multiple of four. */
  lemma WorkPeriodEnds(t: TimerState, d: Durations, now: int)
    requires t.phase == Work && 0 <= t.cycles < INT_MAX
    ensures PeriodEnd(t, d, now).cycles == t.cycles + 1
    ensures PeriodEnd(t, d, now).phase == (if (t.cycles + 1) % 4 == 0 then LongBreak else ShortBreak)
    ensures PeriodEnd(t, d, now).remaining == (if (t.cycles + 1) % 4 == 0 then d.longBreak else d.shortBreak)
  {
  }

  /** `k` work periods, each followed by its break, all ending at time `now`. */
  function WorkBreakCycles(t: TimerState, d: Durations, k: nat, now: int): TimerState
  {
    if k == 0 then t
    else PeriodEnd(PeriodEnd(WorkBreakCycles(t, d, k - 1, now), d, now), d, now)
  }

  lemma {:induction false} CyclesCounted(t: TimerState, d: Durations, k: nat, now: int)
    requires t.phase == Work && 0 <= t.cycles && t.cycles + k <= INT_MAX
    ensures WorkBreakCycles(t, d, k, now).phase == Work
    ensures WorkBreakCycles(t, d, k, now).cycles == t.cycles + k
    ensures |WorkBreakCycles(t, d, k, now).log| == |t.log| + 2 * k
  {
    if k > 0 {
      CyclesCounted(t, d, k - 1, now);
      WorkPeriodEnds(WorkBreakCycles(t, d, k - 1, now), d, now);
    }
  }

  /** From a fresh count, the fourth, eighth, ... work period is followed by
      the long break and every other one by the short break. */
  lemma LongBreakEveryFourth(t: TimerState, d: Durations, k: nat, now: int)
    requires t.phase == Work && t.cycles == 0 && k < INT_MAX
    ensures PeriodEnd(WorkBreakCycles(t, d, k, now), d, now).phase ==
      if (k + 1) % 4 == 0 then LongBreak else ShortBreak
  {
    CyclesCounted(t, d, k, now);
    WorkPeriodEnds(WorkBreakCycles(t, d, k, now), d, now);
  }

  /** While more than one second is left, a tick only counts down. */
  lemma {:induction false} TicksCountDown(t: TimerState, d: Durations, times: seq<int>)
    requires |times| < t.remaining
    ensures Ticks(t, d, times) == t.(remaining := t.remaining - |times|)
  {
    if times != [] {
      TicksCountDown(t, d, times[..|times| - 1]);
    }
  }

  /** A period with `n >= 1` seconds left ends on the `n`-th tick, the one
      that brings the count to zero. */
  lemma PeriodEndsOnLastTick(t: TimerState, d: Durations, times: seq<int>, now: int)
    requires t.remaining == |times| + 1
    ensures TickStep(Ticks(t, d, times), d, now) == PeriodEnd(t.(remaining := 0, running := false), d, now)
    ensures Ticks(t, d, times + [now]) == PeriodEnd(t.(remaining := 0, running := false), d, now)
  {
    TicksCountDown(t, d, times);
    assert (times + [now])[..|times|] == times;
  }

  // -------------------------------------------------------------- the panel

  class PomodoroPanel {
    var state: Phase
    var remainingSeconds: int32
    var cyclesCompleted: int32
    var previousStateBeforePause: Option<Phase>
    /** Whether `swingTimer` is started. */
    var timerRunning: bool
    var sessionLog: seq<LogEntry>
    var workText: string
    var shortBreakText: string
    var longBreakText: string

    function Timer(): TimerState
      reads this`state, this`remainingSeconds, this`cyclesCompleted, this`previousStateBeforePause, this`timerRunning, this`sessionLog
    {
      TimerState(state, remainingSeconds, cyclesCompleted, previousStateBeforePause, timerRunning, sessionLog)
    }

    function Fields(): DurationFields
      reads this`workText, this`shortBreakText, this`longBreakText
    {
      DurationFields(workText, shortBreakText, longBreakText)
    }

    ghost predicate Valid()
      reads this
    {
      TimerValid(Timer())
    }

    /** `updateTimerDisplay`: the timer label's text. */
    function TimerLabel(): string
      reads this
    {
      TimerText(Timer(), DurationsOf(Fields()))
    }

    constructor ()
      ensures Valid()
      ensures Timer() == TimerState(Idle, 0, 0, None, false, [])
      ensures Fields() == DefaultFields
    {
      state, remainingSeconds, cyclesCompleted := Idle, 0, 0;
      previousStateBeforePause, timerRunning, sessionLog := None, false, [];
      workText, shortBreakText, longBreakText := "25", "5", "15";
    }

    method StartPomodoro()
      requires Valid()
      modifies this`state, this`remainingSeconds, this`timerRunning
      ensures Valid()
      ensures Timer() == Start(old(Timer()), DurationsOf(Fields()))
    {
      if state == Paused {
        timerRunning := true;
        state := ResumePhase(previousStateBeforePause);
        return;
      }
      if state == Idle {
        var workMin := ParseIntOrDefault(Trim(workText), 25);
        remainingSeconds := Wrap32(workMin as int * 60);
        state := Work;
        timerRunning := true;
      }
    }

    method PausePomodoro()
      requires Valid()
      modifies this`state, this`timerRunning, this`previousStateBeforePause
      ensures Valid()
      ensures Timer() == Pause(old(Timer()))
    {
      if state == Idle {
        return;
      }
      if state == Paused {
        timerRunning := true;
        state := ResumePhase(previousStateBeforePause);
        previousStateBeforePause := None;
      } else {
        previousStateBeforePause := Some(state);
        state := Paused;
        timerRunning := false;
      }
    }

    method ResetPomodoro()
      requires Valid()
      modifies this`state, this`remainingSeconds, this`timerRunning, this`cyclesCompleted, this`sessionLog
      ensures Valid()
      ensures Timer() == Reset(old(Timer()))
    {
      timerRunning := false;
      state := Idle;
      remainingSeconds := 0;
      cyclesCompleted := 0;
      sessionLog := [];
    }

    /** `tick` at clock time `now`. */
    method Tick(now: int)
      requires Valid()
      modifies this`state, this`remainingSeconds, this`timerRunning, this`cyclesCompleted, this`sessionLog
      ensures Valid()
      ensures Timer() == TickStep(old(Timer()), DurationsOf(Fields()), now)
    {
      if remainingSeconds > 0 {
        remainingSeconds := remainingSeconds - 1;
        if remainingSeconds == 0 {
          timerRunning := false;
          HandlePeriodEnd(now);
        }
      } else {
        timerRunning := false;
        HandlePeriodEnd(now);
      }
    }

    method HandlePeriodEnd(now: int)
      requires Valid()
      modifies this`state, this`remainingSeconds, this`timerRunning, this`cyclesCompleted, this`sessionLog
      ensures Valid()
      ensures Timer() == PeriodEnd(old(Timer()), DurationsOf(Fields()), now)
    {
      if state == Work {
        cyclesCompleted := Wrap32(cyclesCompleted as int + 1);
        sessionLog := sessionLog + [WorkDone(now)];
        if Rem(cyclesCompleted, CYCLES) == 0 {
          var longMin := ParseIntOrDefault(Trim(longBreakText), 15);
          remainingSeconds := Wrap32(longMin as int * 60);
          state := LongBreak;
        } else {
          var shortMin := ParseIntOrDefault(Trim(shortBreakText), 5);
          remainingSeconds := Wrap32(shortMin as int * 60);
          state := ShortBreak;
        }
        timerRunning := true;
      } else if state == ShortBreak || state == LongBreak {
        sessionLog := sessionLog + [BreakEnded(now)];
        var workMin := ParseIntOrDefault(Trim(workText), 25);
        remainingSeconds := Wrap32(workMin as int * 60);
        state := Work;
        timerRunning := true;
      } else {
        state := Idle;
      }
    }

    /** The user edits the three duration fields. */
    method SetFieldTexts(work: string, shortBreak: string, longBreak: string)
      modifies this`workText, this`shortBreakText, this`longBreakText
      ensures Fields() == DurationFields(work, shortBreak, longBreak)
    {
      workText, shortBreakText, longBreakText := work, shortBreak, longBreak;
    }
  }
}
