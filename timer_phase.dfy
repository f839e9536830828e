/** The phases of the Pomodoro timer (`enum PomodoroState`), declared alike in
    both revisions of the panel. */
module TimerPhase {
  import opened JavaLang

  datatype Phase = Idle | Work | ShortBreak | LongBreak | Paused

  /** The phases in which the one-second timer counts down. */
  predicate Running(p: Phase)
  {
    p == Work || p == ShortBreak || p == LongBreak
  }

  /** `previousStateBeforePause != null ? previousStateBeforePause : WORK`. */
  function ResumePhase(saved: Option<Phase>): Phase
  {
    match saved
    case Some(p) => p
    case None => Work
  }
}
