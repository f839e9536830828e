/** The Pomodoro timer of `App/src/PomodoroPanel.java`: a work period, then a
    short break, with a long break after every `cycles` work periods; the
    durations are read from four text fields each time they are needed, and
    the field texts and the music choice survive a restart through a
    settings file.

    The timer is described twice: as pure step functions over `TimerState`,
    about which the lemmas speak, and as the class `PomodoroPanel`, whose
    methods update its fields in place and are proved to perform exactly
    those steps. */
module Pomodoro {
  import opened JavaLang
  import opened TimerPhase
  import ClockText

  // ------------------------------------------------------------ durations

  /** The texts of the work, short break, long break and cycles fields. */
  datatype DurationFields = DurationFields(workText: string, shortBreakText: string, longBreakText: string, cyclesText: string)

  const DefaultFields := DurationFields("25", "5", "15", "4")

  /** `parseIntOrDefault`: the trimmed text as an `int`, or `def` when
      `Integer.parseInt` throws. */
  function ParseIntOrDefault(s: string, def: int32): int32
  {
    match ParseInt(Trim(s))
    case Some(v) => v
    case None => def
  }

  // Every caller trims the text before passing it, as the source does.
  function WorkMinutes(f: DurationFields): int32 { ParseIntOrDefault(Trim(f.workText), 25) }
  function ShortBreakMinutes(f: DurationFields): int32 { ParseIntOrDefault(Trim(f.shortBreakText), 5) }
  function LongBreakMinutes(f: DurationFields): int32 { ParseIntOrDefault(Trim(f.longBreakText), 15) }
  function CyclesTarget(f: DurationFields): int32 { ParseIntOrDefault(Trim(f.cyclesText), 4) }

  // `minutes * 60` in `int` arithmetic: it wraps around past 35791394 minutes.
  function WorkSeconds(f: DurationFields): int32 { Wrap32(WorkMinutes(f) as int * 60) }
  function ShortBreakSeconds(f: DurationFields): int32 { Wrap32(ShortBreakMinutes(f) as int * 60) }
  function LongBreakSeconds(f: DurationFields): int32 { Wrap32(LongBreakMinutes(f) as int * 60) }

  /** A field holding a decimal number, with any blank padding, is read as
      that number. */
  lemma ParseIntOrDefaultReadsNumber(pre: string, n: int32, post: string, def: int32)
    requires Blank(pre) && Blank(post)
    ensures ParseIntOrDefault(pre + ToDecimal(n) + post, def) == n
    ensures ParseIntOrDefault(Trim(pre + ToDecimal(n) + post), def) == n
  {
    var d := ToDecimal(n);
    assert Trimmed(d) by {
      var digits := NatDigits(Abs(n));
      assert IsDigit(digits[0]) && IsDigit(digits[|digits| - 1]);
      if n < 0 {
        assert d[0] == '-' && d[|d| - 1] == digits[|digits| - 1];
      }
    }
    TrimPadded(pre, d, post);
    TrimPadded([], d, []);
    assert [] + d + [] == d;
    ParseIntToDecimal(n);
  }

  /** A visible character that is neither a digit nor a sign anywhere in the
      field makes the parse fail, so the default is used. */
  lemma ParseIntOrDefaultFallsBack(s: string, k: nat, def: int32)
    requires k < |s| && s[k] > ' ' && !IsDigit(s[k]) && s[k] != '-' && s[k] != '+'
    ensures ParseIntOrDefault(s, def) == def
    ensures ParseIntOrDefault(Trim(s), def) == def
  {
    TrimKeepsVisible(s, k);
    ParseIntRejectsNonDigit(Trim(s), k - (|s| - |TrimStart(s)|));
    TrimIdempotent(s);
  }

  /** The fields as the panel first shows them give 25, 5 and 15 minutes and
      a long break every 4 work periods; a field holding "abc" falls back to
      the same default. */
  lemma DefaultDurations()
    ensures DurationsOf(DefaultFields) == Durations(1500, 300, 900, 4)
    ensures WorkMinutes(DefaultFields.(workText := "abc")) == 25
  {
    assert NatDigits(25) == "25" by { assert NatDigits(2) == "2"; }
    assert NatDigits(15) == "15" by { assert NatDigits(1) == "1"; }
    assert NatDigits(5) == "5";
    assert NatDigits(4) == "4";
    assert ToDecimal(25) == "25" && ToDecimal(15) == "15";
    assert ToDecimal(5) == "5" && ToDecimal(4) == "4";
    assert forall s: string :: s == [] + s + [];
    ParseIntOrDefaultReadsNumber([], 25, [], 25);
    ParseIntOrDefaultReadsNumber([], 5, [], 5);
    ParseIntOrDefaultReadsNumber([], 15, [], 15);
    ParseIntOrDefaultReadsNumber([], 4, [], 4);
    ParseIntOrDefaultFallsBack("abc", 0, 25);
  }

  /** The numbers the fields stand for when read: the seconds of a work
      period, of a short and of a long break, and the work periods before a
      long break. */
  datatype Durations = Durations(work: int32, shortBreak: int32, longBreak: int32, cyclesTarget: int32)

  function DurationsOf(f: DurationFields): Durations
  {
    Durations(WorkSeconds(f), ShortBreakSeconds(f), LongBreakSeconds(f), CyclesTarget(f))
  }

  // ---------------------------------------------------------------- timer

  /** The timer's own state: the phase, the seconds left in it, the work
      periods completed, the phase a pause interrupted, and whether the
      one-second Swing timer is started. */
  datatype TimerState = TimerState(phase: Phase, remaining: int32, cycles: int32, saved: Option<Phase>, running: bool)

  /** What every operation keeps: only a counting phase is ever saved by a
      pause, and the Swing timer runs only in a counting phase. */
  predicate TimerValid(t: TimerState)
  {
    (t.saved.None? || Running(t.saved.value)) && (t.running ==> Running(t.phase))
  }

  /** The state after a step, and whether the step threw (`% 0`). */
  datatype Step = Step(timer: TimerState, thrown: bool)

  /** `updateStatusDisplay`: besides the labels, the IDLE case falls through
      into `default`, which resets the remaining time to a full work period. */
  function StatusDisplay(t: TimerState, d: Durations): TimerState
  {
    if t.phase == Idle then t.(remaining := d.work) else t
  }

  /** `startPomodoro`: resumes a paused phase, or begins a work period from
      idle; in any other phase it does nothing. */
  function Start(t: TimerState, d: Durations): TimerState
  {
    if t.phase == Paused then
      StatusDisplay(t.(running := true, phase := ResumePhase(t.saved)), d)
    else if t.phase == Idle then
      StatusDisplay(t.(remaining := d.work, phase := Work), d).(running := true)
    else t
  }

  /** `pausePomodoro`: a counting phase is saved and the timer stopped; idle
      and paused are left alone. */
  function Pause(t: TimerState, d: Durations): TimerState
  {
    if t.phase == Idle || t.phase == Paused then t
    else StatusDisplay(t.(saved := Some(t.phase), phase := Paused, running := false), d)
  }

  /** `resetPomodoro`: stop, go idle, clear the cycle count; the fall-through
      in `updateStatusDisplay` then sets a full work period. */
  function Reset(t: TimerState, d: Durations): TimerState
  {
    StatusDisplay(t.(running := false, phase := Idle, remaining := 0, cycles := 0), d)
  }

  /** `handlePeriodEnd`. After a work period the count goes up and the count
      modulo the cycles field chooses a long or a short break (a field of 0
      throws ArithmeticException after the count has gone up); after a break
      a work period starts; from any other phase the timer goes idle. */
  function PeriodEnd(t: TimerState, d: Durations): Step
  {
    if t.phase == Work then
      var cycles := Wrap32(t.cycles as int + 1);
      var target := d.cyclesTarget;
      if target == 0 then Step(t.(cycles := cycles), true)
      else if Rem(cycles, target) == 0 then
        Step(StatusDisplay(t.(cycles := cycles, remaining := d.longBreak, phase := LongBreak), d).(running := true), false)
      else
        Step(StatusDisplay(t.(cycles := cycles, remaining := d.shortBreak, phase := ShortBreak), d).(running := true), false)
    else if t.phase == ShortBreak || t.phase == LongBreak then
      Step(StatusDisplay(t.(remaining := d.work, phase := Work), d).(running := true), false)
    else
      Step(StatusDisplay(t.(phase := Idle), d), false)
  }

  /** `tick`: one second off a positive remaining time; at zero, the timer
      stops and the period ends. */
  function TickStep(t: TimerState, d: Durations): Step
  {
    if t.remaining > 0 then Step(t.(remaining := t.remaining - 1), false)
    else PeriodEnd(t.(running := false), d)
  }

  /** The Start button: start from idle or paused, pause otherwise. */
  function StartButton(t: TimerState, d: Durations): TimerState
  {
    if t.phase == Idle || t.phase == Paused then Start(t, d) else Pause(t, d)
  }

  /** `n` consecutive ticks with the fields left as they are. */
  function Ticks(t: TimerState, d: Durations, n: nat): TimerState
  {
    if n == 0 then t else TickStep(Ticks(t, d, n - 1), d).timer
  }

  lemma StartFromIdle(t: TimerState, d: Durations)
    requires t.phase == Idle
    ensures Start(t, d) == t.(phase := Work, remaining := d.work, running := true)
  {
  }

  /** Pausing a counting phase and pressing the button again resumes the same
      phase with the same remaining time and count; the timer runs again. */
  lemma PauseThenResume(t: TimerState, d: Durations)
    requires Running(t.phase)
    ensures StartButton(t, d) == Pause(t, d)
    ensures Pause(t, d).phase == Paused && !Pause(t, d).running
    ensures StartButton(Pause(t, d), d) == t.(saved := Some(t.phase), running := true)
  {
  }

  /** Pause does nothing when idle or already paused. */
  lemma PauseIgnored(t: TimerState, d: Durations)
    requires t.phase == Idle || t.phase == Paused
    ensures Pause(t, d) == t
  {
  }

  /** Reset lands in idle with a full work period and no cycles, from any
      state; the phase saved by an earlier pause is kept. */
  lemma ResetYieldsIdle(t: TimerState, d: Durations)
    ensures Reset(t, d) == TimerState(Idle, d.work, 0, t.saved, false)
    ensures Reset(Reset(t, d), d) == Reset(t, d)
  {
  }

  /** Every step keeps `TimerValid`. */
  lemma StepsKeepValid(t: TimerState, d: Durations)
    requires TimerValid(t)
    ensures TimerValid(Start(t, d)) && TimerValid(Pause(t, d)) && TimerValid(Reset(t, d))
    ensures TimerValid(PeriodEnd(t, d).timer) && TimerValid(TickStep(t, d).timer)
    ensures TimerValid(StartButton(t, d))
  {
  }

  /** While time is left, each tick takes one second off and changes nothing else. */
  lemma {:induction false} TicksCountDown(t: TimerState, d: Durations, n: nat)
    requires n <= t.remaining
    ensures Ticks(t, d, n) == t.(remaining := t.remaining - n)
  {
    if n > 0 {
      TicksCountDown(t, d, n - 1);
    }
  }

  /** A period with `r` seconds left ends on the tick after the one that
      reaches zero: `r` ticks count down, tick `r + 1` stops the timer and
      runs `handlePeriodEnd`. */
  lemma PeriodEndsAfterCountdown(t: TimerState, d: Durations)
    requires t.remaining >= 0
    ensures Ticks(t, d, t.remaining) == t.(remaining := 0)
    ensures TickStep(Ticks(t, d, t.remaining), d) == PeriodEnd(t.(remaining := 0, running := false), d)
    ensures Ticks(t, d, t.remaining + 1) == PeriodEnd(t.(remaining := 0, running := false), d).timer
  {
    TicksCountDown(t, d, t.remaining);
  }

  /** The end of a work period: the count goes up by one and the break is
      long exactly when the new count is a multiple of the cycles field. */
  lemma WorkPeriodEnds(t: TimerState, d: Durations)
    requires t.phase == Work && d.cyclesTarget != 0
    requires 0 <= t.cycles < INT_MAX
    ensures var s := PeriodEnd(t, d);
      !s.thrown && s.timer.cycles == t.cycles + 1 && s.timer.running &&
      (s.timer.phase == LongBreak <==> (t.cycles + 1) % Abs(d.cyclesTarget) == 0) &&
      (s.timer.phase == LongBreak || s.timer.phase == ShortBreak) &&
      s.timer.remaining == (if s.timer.phase == LongBreak then d.longBreak else d.shortBreak)
  {
  }

  /** A cycles field of 0 makes the end of a work period throw, once the count
      has gone up; the Swing timer stays stopped. */
  lemma WorkPeriodEndThrows(t: TimerState, d: Durations)
    requires t.phase == Work && d.cyclesTarget == 0
    ensures TickStep(t.(remaining := 0), d) == Step(t.(remaining := 0, cycles := Wrap32(t.cycles as int + 1), running := false), true)
  {
  }

  /** The end of a break starts a full work period and leaves the count alone. */
  lemma BreakEnds(t: TimerState, d: Durations)
    requires t.phase == ShortBreak || t.phase == LongBreak
    ensures PeriodEnd(t, d) == Step(t.(phase := Work, remaining := d.work, running := true), false)
  {
  }

  /** `k` work periods, each followed by its break, with the fields left as
      they are. */
  function WorkBreakCycles(t: TimerState, d: Durations, k: nat): TimerState
  {
    if k == 0 then t
    else PeriodEnd(PeriodEnd(WorkBreakCycles(t, d, k - 1), d).timer, d).timer
  }

  lemma {:induction false} CyclesCounted(t: TimerState, d: Durations, k: nat)
    requires t.phase == Work && d.cyclesTarget != 0
    requires 0 <= t.cycles && t.cycles + k <= INT_MAX
    ensures WorkBreakCycles(t, d, k).phase == Work
    ensures WorkBreakCycles(t, d, k).cycles == t.cycles + k
  {
    if k > 0 {
      CyclesCounted(t, d, k - 1);
      WorkPeriodEnds(WorkBreakCycles(t, d, k - 1), d);
    }
  }

  /** Counting from a work period, the `n`-th work period to end is followed
      by a long break exactly when the count it reaches is a multiple of the
      cycles field: with the default fields, every fourth one. */
  lemma LongBreakEveryTarget(t: TimerState, d: Durations, k: nat)
    requires t.phase == Work && d.cyclesTarget != 0
    requires 0 <= t.cycles && t.cycles + k < INT_MAX
    ensures PeriodEnd(WorkBreakCycles(t, d, k), d).timer.phase ==
      if (t.cycles + k + 1) % Abs(d.cyclesTarget) == 0 then LongBreak else ShortBreak
  {
    CyclesCounted(t, d, k);
    WorkPeriodEnds(WorkBreakCycles(t, d, k), d);
  }

  /** With the cycles field at its default of 4 (`DefaultDurations`), the
      fourth, eighth, ... work period counted from a fresh start is followed
      by the long break and every other one by the short break. */
  lemma DefaultLongBreakOnFourth(t: TimerState, d: Durations, k: nat)
    requires d.cyclesTarget == 4
    requires t.phase == Work && t.cycles == 0 && k < INT_MAX
    ensures PeriodEnd(WorkBreakCycles(t, d, k), d).timer.phase ==
      if (k + 1) % 4 == 0 then LongBreak else ShortBreak
  {
    LongBreakEveryTarget(t, d, k);
  }

  // ------------------------------------------------------ music selection

  const CUSTOM: int := 6

  /** `songFiles`: the tracks behind "None", the five regions and "Custom...". */
  const SongFiles: seq<string> := [
    "",
    "App/bgm_music/mondstadt.mp3",
    "App/bgm_music/liyue.mp3",
    "App/bgm_music/inazuma.mp3",
    "App/bgm_music/Sumeru.mp3",
    "App/bgm_music/fontaine.mp3",
    ""
  ]

  /** An index of the song combo box. */
  type SongIndex = i: int | 0 <= i <= CUSTOM

  datatype SongChoice = SongChoice(index: int, path: string)

  /** A selected index and the path that goes with it: a listed track, or a
      non-empty path for "Custom...". */
  predicate ConsistentSong(c: SongChoice)
  {
    0 <= c.index <= CUSTOM &&
    (c.index == CUSTOM ==> c.path != "") &&
    (c.index < CUSTOM ==> c.path == SongFiles[c.index])
  }

  /** `updateSongPath(index, loadedCustomPath)`: the empty string stands for a
      missing loaded path, and `chosen` is what the file chooser would answer
      (None when cancelled), asked only for "Custom..." without a loaded path.
      No usable path reverts the selection to "None". */
  function UpdateSongPath(index: SongIndex, loadedCustomPath: string, chosen: Option<string>): (r: SongChoice)
    ensures ConsistentSong(r)
    ensures index < CUSTOM ==> r == SongChoice(index, SongFiles[index])
    ensures index == CUSTOM && loadedCustomPath != "" ==> r == SongChoice(CUSTOM, loadedCustomPath)
    ensures index == CUSTOM && loadedCustomPath == "" ==>
      r == (if chosen.Some? && chosen.value != "" then SongChoice(CUSTOM, chosen.value) else SongChoice(0, ""))
  {
    if index == CUSTOM then
      var path := if loadedCustomPath != "" then Some(loadedCustomPath) else chosen;
      if path.None? || path.value == "" then SongChoice(0, SongFiles[0])
      else SongChoice(CUSTOM, path.value)
    else SongChoice(index, SongFiles[index])
  }

  // ------------------------------------------------------------- settings

  /** What `pomodoro.dat` holds (`Settings`). */
  datatype Settings = Settings(
    workMinutes: string, shortBreakMinutes: string, longBreakMinutes: string,
    cyclesBeforeLongBreak: string, songSelectorIndex: int, customSongPath: string)

  /** What the settings file turns out to be when the panel starts. */
  datatype SettingsFile = NoFile | Unreadable | Stored(settings: Settings)

  /** `saveSettings`: the four texts trimmed, the song index, and the current
      path only when "Custom..." is selected. */
  function SettingsOf(f: DurationFields, songIndex: int, songPath: string): (s: Settings)
    ensures Trimmed(s.workMinutes) && Trimmed(s.shortBreakMinutes)
    ensures Trimmed(s.longBreakMinutes) && Trimmed(s.cyclesBeforeLongBreak)
    ensures s.songSelectorIndex == songIndex
    ensures s.customSongPath == (if songIndex == CUSTOM then songPath else "")
  {
    TrimCharacterised(f.workText);
    TrimCharacterised(f.shortBreakText);
    TrimCharacterised(f.longBreakText);
    TrimCharacterised(f.cyclesText);
    Settings(Trim(f.workText), Trim(f.shortBreakText), Trim(f.longBreakText), Trim(f.cyclesText),
             songIndex, if songIndex == CUSTOM then songPath else "")
  }

  /** The field texts `loadSettings` puts back. */
  function FieldsOf(s: Settings): DurationFields
  {
    DurationFields(s.workMinutes, s.shortBreakMinutes, s.longBreakMinutes, s.cyclesBeforeLongBreak)
  }

  /** The timer side of `loadSettings`: a counting phase would become paused;
      anything else goes idle with a full work period. */
  function AfterLoad(t: TimerState, d: Durations): TimerState
  {
    if Running(t.phase) then t.(phase := Paused)
    else t.(phase := Idle, remaining := d.work)
  }

  /** Saving and loading again yields the same durations and the same music
      choice; the file chooser is not consulted for a saved custom path. */
  lemma SettingsRoundTrip(f: DurationFields, song: SongChoice, chosen: Option<string>)
    requires ConsistentSong(song)
    ensures DurationsOf(FieldsOf(SettingsOf(f, song.index, song.path))) == DurationsOf(f)
    ensures var s := SettingsOf(f, song.index, song.path);
      UpdateSongPath(s.songSelectorIndex, s.customSongPath, chosen) == song
  {
    TrimIdempotent(f.workText);
    TrimIdempotent(f.shortBreakText);
    TrimIdempotent(f.longBreakText);
    TrimIdempotent(f.cyclesText);
  }

  /** The panel starts with the selector on "None" (index 0) but with the
      first listed track as the current one. That pair is not a consistent
      choice: saving writes no path for a listed index, so after a restart
      the selector still shows "None" and the track is gone. */
  lemma FreshSongLostOnRestart(f: DurationFields, chosen: Option<string>)
    ensures !ConsistentSong(SongChoice(0, SongFiles[1]))
    ensures var s := SettingsOf(f, 0, SongFiles[1]);
      UpdateSongPath(s.songSelectorIndex, s.customSongPath, chosen) == SongChoice(0, "")
  {
  }

  /** The panel is built in the idle phase, so a load never resumes or pauses
      a period: whatever was running before a restart, it comes back idle
      with a full work period and no cycles counted. */
  lemma LoadNeverResumes(d: Durations)
    ensures AfterLoad(TimerState(Idle, 0, 0, None, false), d) == TimerState(Idle, d.work, 0, None, false)
  {
  }

  /** The one-second display of the time left. */
  function TimerText(t: TimerState): (r: string)
    ensures ClockText.ClockValue(r) == Some(if t.remaining < 0 then 0 else t.remaining)
  {
    ClockText.FormatSecRoundTrip(t.remaining);
    ClockText.FormatSec(t.remaining)
  }

  // -------------------------------------------------------------- the panel

  /** The state `PomodoroPanel` keeps: the timer fields, the texts of its four
      fields, and the song selector with the current track. */
  class PomodoroPanel {
    var state: Phase
    var remainingSeconds: int32
    var cyclesCompleted: int32
    var previousStateBeforePause: Option<Phase>
    /** Whether `swingTimer` is started. */
    var timerRunning: bool
    var workText: string
    var shortBreakText: string
    var longBreakText: string
    var cyclesText: string
    var songIndex: int
    var currentSongPath: string

    function Timer(): TimerState
      reads this`state, this`remainingSeconds, this`cyclesCompleted, this`previousStateBeforePause, this`timerRunning
    {
      TimerState(state, remainingSeconds, cyclesCompleted, previousStateBeforePause, timerRunning)
    }

    function Fields(): DurationFields
      reads this`workText, this`shortBreakText, this`longBreakText, this`cyclesText
    {
      DurationFields(workText, shortBreakText, longBreakText, cyclesText)
    }

    function Song(): SongChoice
      reads this`songIndex, this`currentSongPath
    {
      SongChoice(songIndex, currentSongPath)
    }

    ghost predicate Valid()
      reads this
    {
      TimerValid(Timer()) && 0 <= songIndex <= CUSTOM && (songIndex == CUSTOM ==> currentSongPath != "")
    }

    /** What `saveSettings` writes. */
    function SaveSettings(): Settings
      reads this
    {
      SettingsOf(Fields(), songIndex, currentSongPath)
    }

    /** The constructor: the field initialisers, then `loadSettings` from the
        file found at startup, then `updateStatusDisplay`. A stored song index
        outside the combo box makes the Java constructor throw, so it is
        required to lie inside. */
    constructor (file: SettingsFile, chosen: Option<string>)
      requires file.Stored? ==> 0 <= file.settings.songSelectorIndex <= CUSTOM
      ensures Valid()
      ensures file.Stored? ==> Fields() == FieldsOf(file.settings)
      ensures !file.Stored? ==> Fields() == DefaultFields
      ensures file.Stored? ==>
        Song() == UpdateSongPath(file.settings.songSelectorIndex, file.settings.customSongPath, chosen)
      ensures !file.Stored? ==> Song() == SongChoice(0, SongFiles[1])
      ensures Timer() == TimerState(Idle, DurationsOf(Fields()).work, 0, None, false)
    {
      state, remainingSeconds, cyclesCompleted := Idle, 0, 0;
      previousStateBeforePause, timerRunning := None, false;
      workText, shortBreakText, longBreakText, cyclesText := "25", "5", "15", "4";
      songIndex, currentSongPath := 0, SongFiles[1];
      new;
      LoadSettings(file, chosen);
      UpdateStatusDisplay();
    }

    /** `loadSettings`. A missing file leaves the defaults; an unreadable one is
        deleted and also leaves them. It runs only from the constructor,
        before the Swing timer exists. */
    method LoadSettings(file: SettingsFile, chosen: Option<string>)
      requires Valid() && !timerRunning
      requires file.Stored? ==> 0 <= file.settings.songSelectorIndex <= CUSTOM
      modifies this
      ensures Valid()
      ensures !file.Stored? ==> Fields() == old(Fields()) && Song() == old(Song()) && Timer() == old(Timer())
      ensures file.Stored? ==> Fields() == FieldsOf(file.settings)
      ensures file.Stored? ==>
        Song() == UpdateSongPath(file.settings.songSelectorIndex, file.settings.customSongPath, chosen)
      ensures file.Stored? ==> Timer() == AfterLoad(old(Timer()), DurationsOf(Fields()))
      ensures old(state) == Idle ==> state == Idle
      ensures cyclesCompleted == old(cyclesCompleted) && !timerRunning
      ensures previousStateBeforePause == old(previousStateBeforePause)
    {
      if file.Stored? {
        ApplySettings(file.settings, chosen);
      }
    }

    /** A stored file read back: its texts go into the fields, its song
        choice into the selector, and the timer is paused or sent idle. */
    method ApplySettings(s: Settings, chosen: Option<string>)
      requires Valid() && !timerRunning
      requires 0 <= s.songSelectorIndex <= CUSTOM
      modifies this
      ensures Valid()
      ensures Fields() == FieldsOf(s)
      ensures Song() == UpdateSongPath(s.songSelectorIndex, s.customSongPath, chosen)
      ensures Timer() == AfterLoad(old(Timer()), DurationsOf(FieldsOf(s)))
    {
      workText, shortBreakText, longBreakText, cyclesText :=
        s.workMinutes, s.shortBreakMinutes, s.longBreakMinutes, s.cyclesBeforeLongBreak;
      SetSong(UpdateSongPath(s.songSelectorIndex, s.customSongPath, chosen));
      RestoreTimerState(DurationsOf(FieldsOf(s)));
    }

    /** The selector shows `c.index` and the current track becomes `c.path`. */
    method SetSong(c: SongChoice)
      requires Valid() && ConsistentSong(c)
      modifies this`songIndex, this`currentSongPath
      ensures Valid() && Song() == c
    {
      songIndex, currentSongPath := c.index, c.path;
    }

    /** The timer part of `loadSettings`, with the durations just loaded. */
    method RestoreTimerState(d: Durations)
      requires Valid() && !timerRunning
      modifies this`state, this`remainingSeconds
      ensures Valid()
      ensures Timer() == AfterLoad(old(Timer()), d)
    {
      if state == Work || state == ShortBreak || state == LongBreak {
        state := Paused;
      } else {
        state := Idle;
        remainingSeconds := d.work;
      }
    }

    method UpdateStatusDisplay()
      modifies this`remainingSeconds
      ensures state != Idle ==> remainingSeconds == old(remainingSeconds)
      ensures state == Idle ==> remainingSeconds == WorkSeconds(Fields())
    {
      ShowStatus(DurationsOf(Fields()));
    }

    /** `updateStatusDisplay` once the durations it reads are known: only the
        IDLE case, falling through into `default`, changes the state. */
    method ShowStatus(d: Durations)
      modifies this`remainingSeconds
      ensures Timer() == StatusDisplay(old(Timer()), d)
    {
      if state == Idle {
        remainingSeconds := d.work;
      }
    }

    method StartPomodoro()
      requires Valid()
      modifies this`state, this`remainingSeconds, this`timerRunning
      ensures Valid()
      ensures Timer() == Start(old(Timer()), DurationsOf(Fields()))
    {
      if state == Paused {
        Resume(DurationsOf(Fields()));
      } else if state == Idle {
        BeginWork(DurationsOf(Fields()));
      }
    }

    /** The paused branch of `startPomodoro`: the saved phase, or a work
        period if none was saved, carries on with the time it had left. */
    method Resume(d: Durations)
      requires Valid() && state == Paused
      modifies this`state, this`remainingSeconds, this`timerRunning
      ensures Valid()
      ensures Timer() == Start(old(Timer()), d)
    {
      timerRunning := true;
      state := if previousStateBeforePause.Some? then previousStateBeforePause.value else Work;
      ShowStatus(d);
    }

    /** The idle branch of `startPomodoro`: a full work period, started. */
    method BeginWork(d: Durations)
      requires Valid() && state == Idle
      modifies this`state, this`remainingSeconds, this`timerRunning
      ensures Valid()
      ensures Timer() == Start(old(Timer()), d)
    {
      remainingSeconds := d.work;
      state := Work;
      ShowStatus(d);
      timerRunning := true;
    }

    method PausePomodoro()
      requires Valid()
      modifies this`state, this`remainingSeconds, this`timerRunning, this`previousStateBeforePause
      ensures Valid()
      ensures Timer() == Pause(old(Timer()), DurationsOf(Fields()))
    {
      if state == Idle {
        return;
      }
      if state != Paused {
        previousStateBeforePause := Some(state);
        state := Paused;
        timerRunning := false;
        UpdateStatusDisplay();
      }
    }

    method ResetPomodoro()
      requires Valid()
      modifies this`state, this`remainingSeconds, this`timerRunning, this`cyclesCompleted
      ensures Valid()
      ensures Timer() == Reset(old(Timer()), DurationsOf(Fields()))
    {
      timerRunning := false;
      state := Idle;
      remainingSeconds := 0;
      cyclesCompleted := 0;
      UpdateStatusDisplay();
    }

    /** `tick`: `thrown` when the period end threw. */
    method Tick() returns (thrown: bool)
      requires Valid()
      modifies this`state, this`remainingSeconds, this`timerRunning, this`cyclesCompleted
      ensures Valid()
      ensures Step(Timer(), thrown) == TickStep(old(Timer()), DurationsOf(Fields()))
    {
      if remainingSeconds > 0 {
        remainingSeconds := remainingSeconds - 1;
        thrown := false;
      } else {
        timerRunning := false;
        thrown := HandlePeriodEnd();
      }
    }

    method HandlePeriodEnd() returns (thrown: bool)
      requires Valid()
      modifies this`state, this`remainingSeconds, this`timerRunning, this`cyclesCompleted
      ensures Valid()
      ensures Step(Timer(), thrown) == PeriodEnd(old(Timer()), DurationsOf(Fields()))
    {
      thrown := FinishPeriod(DurationsOf(Fields()));
    }

    /** `handlePeriodEnd` with the durations its field reads give. */
    method FinishPeriod(d: Durations) returns (thrown: bool)
      requires Valid()
      modifies this`state, this`remainingSeconds, this`timerRunning, this`cyclesCompleted
      ensures Valid()
      ensures Step(Timer(), thrown) == PeriodEnd(old(Timer()), d)
    {
      thrown := false;
      if state == Work {
        thrown := EndWorkPeriod(d);
        if thrown {
          return;
        }
      } else if state == ShortBreak || state == LongBreak {
        EndBreak(d);
      } else {
        state := Idle;
        ShowStatus(d);
      }
      ShowStatus(d);
    }

    /** The work branch of `handlePeriodEnd`: count the cycle, then a long or
        a short break. */
    method EndWorkPeriod(d: Durations) returns (thrown: bool)
      requires Valid() && state == Work
      modifies this`state, this`remainingSeconds, this`timerRunning, this`cyclesCompleted
      ensures Valid()
      ensures Step(Timer(), thrown) == PeriodEnd(old(Timer()), d)
      ensures !thrown ==> state != Idle
    {
      cyclesCompleted := Wrap32(cyclesCompleted as int + 1);
      if d.cyclesTarget == 0 {
        // ArithmeticException: / by zero
        return true;
      }
      if Rem(cyclesCompleted, d.cyclesTarget) == 0 {
        remainingSeconds := d.longBreak;
        state := LongBreak;
      } else {
        remainingSeconds := d.shortBreak;
        state := ShortBreak;
      }
      // `updateStatusDisplay` follows; in a break it only sets the labels
      timerRunning := true;
      thrown := false;
    }

    /** The break branch of `handlePeriodEnd`: back to a full work period. */
    method EndBreak(d: Durations)
      requires Valid() && (state == ShortBreak || state == LongBreak)
      modifies this`state, this`remainingSeconds, this`timerRunning
      ensures Valid()
      ensures Timer() == PeriodEnd(old(Timer()), d).timer && state == Work
    {
      remainingSeconds := d.work;
      state := Work;
      UpdateStatusDisplay();
      timerRunning := true;
    }

    /** The Start/Pause/Resume button. */
    method OnStartButton()
      requires Valid()
      modifies this`state, this`remainingSeconds, this`timerRunning, this`previousStateBeforePause
      ensures Valid()
      ensures Timer() == StartButton(old(Timer()), DurationsOf(Fields()))
    {
      if state == Idle || state == Paused {
        StartPomodoro();
      } else {
        PausePomodoro();
      }
    }

    /** The song selector's listener: `updateSongPath(index)` with no loaded
        path; `chosen` is the file chooser's answer if it is asked. */
    method SelectSong(index: SongIndex, chosen: Option<string>)
      requires Valid()
      modifies this`songIndex, this`currentSongPath
      ensures Valid()
      ensures Song() == UpdateSongPath(index, "", chosen)
    {
      if index == CUSTOM {
        var path := chosen;
        if path.None? || path.value == "" {
          songIndex := 0;
          currentSongPath := SongFiles[0];
        } else {
          songIndex := index;
          currentSongPath := path.value;
        }
      } else {
        songIndex := index;
        currentSongPath := SongFiles[index];
      }
    }

    /** The user edits the four duration fields. */
    method SetFieldTexts(work: string, shortBreak: string, longBreak: string, cycles: string)
      modifies this`workText, this`shortBreakText, this`longBreakText, this`cyclesText
      ensures Fields() == DurationFields(work, shortBreak, longBreak, cycles)
    {
      workText, shortBreakText, longBreakText, cyclesText := work, shortBreak, longBreak, cycles;
    }
  }
}
