/** A to-do task (`Task`) and the star rating the task list shows for its
    difficulty (`stars`). Both revisions of the application declare them
    alike. */
module Tasks {
  /** `Math.max(0, Math.min(3, d))`. */
  function ClampDifficulty(d: int): (r: int)
    ensures 0 <= r <= 3
    ensures 0 <= d <= 3 ==> r == d
    ensures d < 0 ==> r == 0
    ensures d > 3 ==> r == 3
  {
    if d < 0 then 0 else if d > 3 then 3 else d
  }

  /** A task's fields. Deadlines are the instants of the parsed dates,
      compared as numbers. */
  datatype Task = Task(name: string, difficulty: int, deadline: int, completed: bool)

  /** `new Task(name, difficulty, deadline)`: name and deadline as given,
      the difficulty clamped into 0..3, not yet completed. */
  function NewTask(name: string, difficulty: int, deadline: int): (r: Task)
    ensures r.name == name && r.deadline == deadline && !r.completed
    ensures r.difficulty == ClampDifficulty(difficulty) && 0 <= r.difficulty <= 3
  {
    Task(name, ClampDifficulty(difficulty), deadline, false)
  }

  const FILLED: char := '★'
  const EMPTY: char := '☆'

  /** `String.repeat` of one character. */
  function Repeat(c: char, n: nat): (r: string)
    ensures |r| == n && forall k :: 0 <= k < n ==> r[k] == c
  {
    if n == 0 then [] else [c] + Repeat(c, n - 1)
  }

  /** `stars(n)`: the clamped difficulty as filled stars, padded with empty
      ones to three. */
  function Stars(n: int): (r: string)
    ensures |r| == 3
    ensures forall k :: 0 <= k < 3 ==> r[k] == (if k < ClampDifficulty(n) then FILLED else EMPTY)
  {
    var c := ClampDifficulty(n);
    Repeat(FILLED, c) + Repeat(EMPTY, 3 - c)
  }

  /** The number of filled stars in a rating. */
  function FilledCount(s: string): (r: nat)
    ensures r <= |s|
  {
    if s == [] then 0 else FilledCount(s[..|s| - 1]) + (if s[|s| - 1] == FILLED then 1 else 0)
  }

  lemma {:induction false} FilledCountPrefix(s: string, c: nat)
    requires c <= |s|
    requires forall k :: 0 <= k < |s| ==> (s[k] == FILLED <==> k < c)
    ensures FilledCount(s) == c
  {
    if s != [] {
      var init := s[..|s| - 1];
      FilledCountPrefix(init, if c == |s| then c - 1 else c);
    }
  }

  /** Reading the filled stars back gives the clamped difficulty. */
  lemma StarsCount(n: int)
    ensures FilledCount(Stars(n)) == ClampDifficulty(n)
  {
    FilledCountPrefix(Stars(n), ClampDifficulty(n));
  }

  /** Two difficulties show the same rating exactly when they clamp alike. */
  lemma StarsInjective(a: int, b: int)
    ensures Stars(a) == Stars(b) <==> ClampDifficulty(a) == ClampDifficulty(b)
  {
    StarsCount(a);
    StarsCount(b);
    if ClampDifficulty(a) == ClampDifficulty(b) {
      assert Stars(a) == Stars(b);
    }
  }
}
