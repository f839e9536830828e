/** The grades panel (`GradesPanel`): courses kept in a `LinkedHashMap`
    from name to course next to the list of names the course list shows,
    each course's assignments, and the letter grade of a percentage.

    As for the timer, the panel is described twice: by pure step functions
    over a `Book` (the panel's state), which the lemmas speak about, and by
    the class `GradesPanel`, whose handlers update its fields in place and
    are proved to perform exactly those steps. Dialog answers, the list
    selections and the parsed numbers are parameters. */
module Grades {
  import opened JavaLang
  import opened LinkedMap

  // ------------------------------------------------------- letter grade

  /** `letterGrade`. */
  function LetterGrade(pct: real): string
  {
    if pct >= 93.0 then "A"
    else if pct >= 90.0 then "A-"
    else if pct >= 87.0 then "B+"
    else if pct >= 83.0 then "B"
    else if pct >= 80.0 then "B-"
    else if pct >= 77.0 then "C+"
    else if pct >= 70.0 then "C"
    else if pct >= 60.0 then "D"
    else "F"
  }

  /** The number of bands with a cutoff; the last letter has none. */
  const BANDS: nat := 8

  /** The lowest percentage of band `i`, from the best band down. */
  function Cutoff(i: nat): real
    requires i < BANDS
  {
    match i
    case 0 => 93.0 case 1 => 90.0 case 2 => 87.0 case 3 => 83.0
    case 4 => 80.0 case 5 => 77.0 case 6 => 70.0 case _ => 60.0
  }

  /** The letter of band `i`. */
  function Letter(i: nat): string
  {
    match i
    case 0 => "A" case 1 => "A-" case 2 => "B+" case 3 => "B"
    case 4 => "B-" case 5 => "C+" case 6 => "C" case 7 => "D" case _ => "F"
  }

  /** A letter's position from best (0) to worst. */
  function Rank(letter: string): nat
  {
    if letter == "A" then 0 else if letter == "A-" then 1
    else if letter == "B+" then 2 else if letter == "B" then 3
    else if letter == "B-" then 4 else if letter == "C+" then 5
    else if letter == "C" then 6 else if letter == "D" then 7 else BANDS
  }

  lemma RankOfLetter(i: nat)
    requires i <= BANDS
    ensures Rank(Letter(i)) == i
  {
  }

  lemma CutoffsDecrease(i: nat, j: nat)
    requires i < j < BANDS
    ensures Cutoff(j) < Cutoff(i)
  {
  }

  /** The first band, from `i` on, whose cutoff `pct` reaches; `BANDS`
      (the last letter) when it reaches none. */
  function Band(pct: real, i: nat): (r: nat)
    requires i <= BANDS
    ensures i <= r <= BANDS
    decreases BANDS - i
  {
    if i == BANDS then i
    else if pct >= Cutoff(i) then i
    else Band(pct, i + 1)
  }

  /** The band is the one whose interval holds `pct`: at or above its own
      cutoff and below the one before. */
  lemma {:induction false} BandInterval(pct: real, i: nat)
    requires i <= BANDS && (i == 0 || pct < Cutoff(i - 1))
    ensures var b := Band(pct, i);
      && (b == BANDS || pct >= Cutoff(b))
      && (b == 0 || pct < Cutoff(b - 1))
    decreases BANDS - i
  {
    if i < BANDS && pct < Cutoff(i) {
      BandInterval(pct, i + 1);
    }
  }

  /** A higher percentage never lands in a worse band. */
  lemma {:induction false} BandMonotone(x: real, y: real, i: nat)
    requires x <= y && i <= BANDS
    ensures Band(y, i) <= Band(x, i)
    decreases BANDS - i
  {
    if i < BANDS && y < Cutoff(i) {
      BandMonotone(x, y, i + 1);
    }
  }

  /** The chain of comparisons is the lookup in the table of bands. */
  lemma LetterGradeIsBand(pct: real)
    ensures LetterGrade(pct) == Letter(Band(pct, 0))
  {
  }

  /** `letterGrade` is monotone: a higher percentage never gets a worse
      letter. */
  lemma LetterGradeMonotone(x: real, y: real)
    requires x <= y
    ensures Rank(LetterGrade(y)) <= Rank(LetterGrade(x))
  {
    LetterGradeIsBand(x);
    LetterGradeIsBand(y);
    BandMonotone(x, y, 0);
    RankOfLetter(Band(x, 0));
    RankOfLetter(Band(y, 0));
  }

  /** Each letter is given exactly on its interval of percentages. */
  lemma LetterGradeInterval(pct: real, i: nat)
    requires i <= BANDS
    ensures LetterGrade(pct) == Letter(i) <==>
      (i == BANDS || pct >= Cutoff(i)) && (i == 0 || pct < Cutoff(i - 1))
  {
    LetterGradeIsBand(pct);
    BandInterval(pct, 0);
    var b := Band(pct, 0);
    RankOfLetter(b);
    RankOfLetter(i);
    if (i == BANDS || pct >= Cutoff(i)) && (i == 0 || pct < Cutoff(i - 1)) && b < i {
      CutoffsDecrease(b, i - 1);
    }
  }

  // ------------------------------------------------------------ courses

  /** `Assignment`: weight a fraction, grade a percentage. */
  datatype Assignment = Assignment(name: string, weight: real, grade: real)

  /** `Course`. */
  datatype Course = Course(name: string, assignments: seq<Assignment>)

  /** The panel's state: the course map, the names in the course list, the
      selected index of that list (-1 for none) and the assignments the
      assignment list shows. */
  datatype Book = Book(courses: LinkedMap<string, Course>, names: seq<string>, selected: int, shown: seq<Assignment>)

  /** How a handler ended: it changed the state, it was cancelled or its
      input was blank, it asked for a selection first, it rejected a
      number or an empty name, or it threw. */
  datatype Outcome = Applied | Ignored | NotSelected | InvalidNumber | NameRequired | Failed

  datatype Step = Step(book: Book, outcome: Outcome)

  /** What every handler keeps: a well-formed map whose courses are stored
      under their own names, every stored course listed by name, and a
      selection inside the list. The list may hold names with no course
      behind them. */
  ghost predicate BookValid(b: Book)
  {
    && Valid(b.courses)
    && (forall k :: k in b.courses.values ==> b.courses.values[k].name == k)
    && (forall k :: k in b.courses.values ==> k in b.names)
    && -1 <= b.selected < |b.names|
  }

  /** The sample course the panel starts with. */
  const Sample: Course := Course("Computer Science 101",
    [Assignment("Homework 1", 0.05, 88.0), Assignment("Midterm", 0.3, 82.0)])

  function Initial(): (b: Book)
    ensures BookValid(b)
    ensures Get(b.courses, Sample.name) == Some(Sample) && b.courses.keys == [Sample.name]
    ensures b.names == [Sample.name] && b.selected == -1 && b.shown == []
  {
    Book(Put(Empty(), Sample.name, Sample), [Sample.name], -1, [])
  }

  /** `courseList.getSelectedValue()`. */
  function SelectedName(b: Book): Option<string>
  {
    if 0 <= b.selected < |b.names| then Some(b.names[b.selected]) else None
  }

  /** `currentCourse`: nothing without a selection, else the map lookup of
      the selected name, which may find nothing. */
  function CurrentCourse(b: Book): (r: Option<Course>)
    ensures b.selected < 0 ==> r == None
    ensures 0 <= b.selected < |b.names| ==> r == Get(b.courses, b.names[b.selected])
  {
    match SelectedName(b)
    case None => None
    case Some(n) => Get(b.courses, n)
  }

  /** `loadCourse`: the assignment list shows the named course's
      assignments, or nothing when there is no such course. */
  function LoadCourse(b: Book, name: Option<string>): Book
  {
    var c := if name.Some? then Get(b.courses, name.value) else None;
    b.(shown := if c.Some? then c.value.assignments else [])
  }

  /** A click on row `i` of the course list (-1 clears the selection): the
      selection listener loads the newly selected course. */
  function Select(b: Book, i: int): Book
    requires -1 <= i < |b.names|
  {
    if i == b.selected then b
    else LoadCourse(b.(selected := i), if i < 0 then None else Some(b.names[i]))
  }

  /** `courseList.setSelectedValue(name, true)`: unless `name` is already
      the selected value, selects its first row, and the listener loads
      it. */
  function SelectValue(b: Book, name: string): Book
    requires name in b.names
  {
    if SelectedName(b) == Some(name) then b
    else LoadCourse(b.(selected := IndexOf(b.names, name)), Some(name))
  }

  /** Add Course: a cancelled or blank name does nothing; otherwise a new
      empty course is stored under the trimmed name, replacing any course
      of that name, the name is appended to the list and selected. */
  function AddCourse(b: Book, input: Option<string>): Step
  {
    if input.None? || Trim(input.value) == [] then Step(b, Ignored)
    else
      var t := Trim(input.value);
      var added := b.(courses := Put(b.courses, t, Course(t, [])), names := b.names + [t]);
      Step(SelectValue(added, t), Applied)
  }

  /** Rename Course: needs a selection; a cancelled or blank name does
      nothing; a selected name with no course behind it makes
      `courses.remove` return `null` and the handler throw; otherwise the
      course leaves its key, takes the trimmed name and is put under it,
      and the selected row shows the new name. */
  function RenameCourse(b: Book, input: Option<string>): Step
    requires -1 <= b.selected < |b.names|
  {
    if b.selected < 0 then Step(b, NotSelected)
    else if input.None? || Trim(input.value) == [] then Step(b, Ignored)
    else
      var sel := b.names[b.selected];
      if sel !in b.courses.values then Step(b, Failed)
      else
        var t := Trim(input.value);
        var c := b.courses.values[sel].(name := t);
        Step(b.(courses := Put(Remove(b.courses, sel), t, c), names := b.names[b.selected := t]), Applied)
  }

  /** The list selection once row `k` is removed: cleared if it was that
      row, moved up if it was below it. */
  function SelectionAfterRemoval(selected: int, k: nat): int
  {
    if selected == k then -1 else if selected > k then selected - 1 else selected
  }

  /** Delete Course, once confirmed: drops the selected name's course and
      the first list row with that name, and clears the assignment list. */
  function DeleteCourse(b: Book, confirmed: bool): Step
    requires -1 <= b.selected < |b.names|
  {
    if b.selected < 0 then Step(b, NotSelected)
    else if !confirmed then Step(b, Ignored)
    else
      var sel := b.names[b.selected];
      var k := IndexOf(b.names, sel);
      Step(Book(Remove(b.courses, sel), RemoveFirst(b.names, sel), SelectionAfterRemoval(b.selected, k), []), Applied)
  }

  /** `addOrEditAssignment`'s checks, in the order the code makes them:
      a course must be selected, the dialog confirmed, both numbers parsed,
      and the trimmed name non-empty. */
  function AssignmentCheck(b: Book, confirmed: bool, nameText: string, weight: Option<real>, grade: Option<real>): Outcome
  {
    if CurrentCourse(b).None? then NotSelected
    else if !confirmed then Ignored
    else if weight.None? || grade.None? then InvalidNumber
    else if Trim(nameText) == [] then NameRequired
    else Applied
  }

  /** Stores the selected course with new assignments under its key and
      reloads it. */
  function StoreAssignments(b: Book, c: Course, assignments: seq<Assignment>): Book
    requires 0 <= b.selected < |b.names|
  {
    var stored := b.(courses := Put(b.courses, b.names[b.selected], c.(assignments := assignments)));
    LoadCourse(stored, Some(c.name))
  }

  /** Add Assignment: after the checks, appends one assignment to the
      selected course. */
  function AddAssignment(b: Book, confirmed: bool, nameText: string, weight: Option<real>, grade: Option<real>): Step
    requires -1 <= b.selected < |b.names|
  {
    var check := AssignmentCheck(b, confirmed, nameText, weight, grade);
    if check != Applied then Step(b, check)
    else
      var c := CurrentCourse(b).value;
      var a := Assignment(Trim(nameText), weight.value, grade.value);
      Step(StoreAssignments(b, c, c.assignments + [a]), Applied)
  }

  /** Edit Assignment on row `idx` of the assignment list: needs a course
      and a row; `assignments.get(idx)` throws past the course's end;
      after the checks, overwrites that assignment. */
  function EditAssignment(b: Book, idx: int, confirmed: bool, nameText: string, weight: Option<real>, grade: Option<real>): Step
    requires -1 <= b.selected < |b.names|
  {
    if CurrentCourse(b).None? || idx < 0 then Step(b, NotSelected)
    else if idx >= |CurrentCourse(b).value.assignments| then Step(b, Failed)
    else
      var check := AssignmentCheck(b, confirmed, nameText, weight, grade);
      if check != Applied then Step(b, check)
      else
        var c := CurrentCourse(b).value;
        var a := Assignment(Trim(nameText), weight.value, grade.value);
        Step(StoreAssignments(b, c, c.assignments[idx := a]), Applied)
  }

  /** Remove Assignment on row `idx`, once confirmed; `assignments.remove`
      throws past the course's end. */
  function RemoveAssignment(b: Book, idx: int, confirmed: bool): Step
    requires -1 <= b.selected < |b.names|
  {
    if CurrentCourse(b).None? || idx < 0 then Step(b, NotSelected)
    else if !confirmed then Step(b, Ignored)
    else
      var c := CurrentCourse(b).value;
      if idx >= |c.assignments| then Step(b, Failed)
      else Step(StoreAssignments(b, c, c.assignments[..idx] + c.assignments[idx + 1..]), Applied)
  }

  // ----------------------------------------------------------- lemmas

  /** Storing a course under its own name keeps the book well formed. */
  lemma PutListedValid(b: Book, k: string, c: Course, names: seq<string>)
    requires BookValid(b) && c.name == k && k in names
    requires forall j :: j in b.courses.values ==> j in names
    requires -1 <= b.selected < |names|
    ensures BookValid(b.(courses := Put(b.courses, k, c), names := names))
  {
    PutValid(b.courses, k, c);
  }

  lemma LoadKeepsValid(b: Book, name: Option<string>)
    requires BookValid(b)
    ensures BookValid(LoadCourse(b, name))
  {
  }

  lemma SelectKeepsValid(b: Book, i: int)
    requires BookValid(b) && -1 <= i < |b.names|
    ensures BookValid(Select(b, i))
  {
  }

  lemma AddCourseValid(b: Book, input: Option<string>)
    requires BookValid(b)
    ensures BookValid(AddCourse(b, input).book)
  {
    if input.Some? && Trim(input.value) != [] {
      var t := Trim(input.value);
      PutListedValid(b, t, Course(t, []), b.names + [t]);
    }
  }

  lemma RenameCourseValid(b: Book, input: Option<string>)
    requires BookValid(b)
    ensures BookValid(RenameCourse(b, input).book)
  {
    if b.selected >= 0 && input.Some? && Trim(input.value) != [] && b.names[b.selected] in b.courses.values {
      var sel, t := b.names[b.selected], Trim(input.value);
      var names := b.names[b.selected := t];
      var removed := Remove(b.courses, sel);
      RemoveValid(b.courses, sel);
      forall j | j in removed.values
        ensures j in names
      {
        var a :| 0 <= a < |b.names| && b.names[a] == j;
        assert names[a] == j;
      }
      assert names[b.selected] == t;
      assert BookValid(b.(courses := removed));
      PutListedValid(b.(courses := removed), t, b.courses.values[sel].(name := t), names);
    }
  }

  lemma DeleteCourseValid(b: Book, confirmed: bool)
    requires BookValid(b)
    ensures BookValid(DeleteCourse(b, confirmed).book)
  {
    if b.selected >= 0 && confirmed {
      var sel := b.names[b.selected];
      var k := IndexOf(b.names, sel);
      RemoveFirstSplits(b.names, sel, k);
      RemoveValid(b.courses, sel);
      IndexOfAtMost(b.names, sel, b.selected);
      forall j | j in Remove(b.courses, sel).values
        ensures j in RemoveFirst(b.names, sel)
      {
        InWithout(b.names, k, j);
      }
    }
  }

  lemma AssignmentStepsValid(b: Book, idx: int, confirmed: bool, nameText: string, weight: Option<real>, grade: Option<real>)
    requires BookValid(b)
    ensures BookValid(AddAssignment(b, confirmed, nameText, weight, grade).book)
    ensures BookValid(EditAssignment(b, idx, confirmed, nameText, weight, grade).book)
    ensures BookValid(RemoveAssignment(b, idx, confirmed).book)
  {
    if CurrentCourse(b).Some? {
      var c := CurrentCourse(b).value;
      var sel := b.names[b.selected];
      forall s: seq<Assignment>
        ensures BookValid(StoreAssignments(b, c, s))
      {
        PutListedValid(b, sel, c.(assignments := s), b.names);
      }
    }
  }

  /** Adding a course stores a new empty course under the trimmed name and
      selects that name; every other course stays. A name already in the
      map keeps its place in the map's order and gains a second list row:
      the map grows only for a new name, the list always. */
  lemma AddCourseEffect(b: Book, input: string)
    requires BookValid(b) && Trim(input) != []
    ensures var t, r := Trim(input), AddCourse(b, Some(input)).book;
      && Get(r.courses, t) == Some(Course(t, []))
      && (forall j :: j != t ==> Get(r.courses, j) == Get(b.courses, j))
      && r.names == b.names + [t]
      && r.courses.keys == (if t in b.courses.values then b.courses.keys else b.courses.keys + [t])
      && SelectedName(r) == Some(t)
  {
    var t := Trim(input);
    var added := b.(courses := Put(b.courses, t, Course(t, [])), names := b.names + [t]);
    if SelectedName(added) != Some(t) {
      var i := IndexOf(added.names, t);
      assert SelectedName(SelectValue(added, t)) == Some(added.names[i]);
    }
  }

  /** Renaming moves the selected course to the new trimmed name,
      replacing whatever course was stored there, and relabels the selected
      row only. In the map's order the course goes to the end, unless the
      new name belonged to another course, whose place it takes. */
  lemma RenameCourseEffect(b: Book, input: string)
    requires BookValid(b) && 0 <= b.selected && Trim(input) != []
    requires b.names[b.selected] in b.courses.values
    ensures var t, sel, r := Trim(input), b.names[b.selected], RenameCourse(b, Some(input)).book;
      && Get(r.courses, t) == Some(b.courses.values[sel].(name := t))
      && (t != sel ==> Get(r.courses, sel) == None)
      && (forall j :: j != t && j != sel ==> Get(r.courses, j) == Get(b.courses, j))
      && r.names == b.names[b.selected := t]
      && r.selected == b.selected && r.shown == b.shown
      && (t == sel || t !in b.courses.values ==> r.courses.keys == RemoveFirst(b.courses.keys, sel) + [t])
      && (t != sel && t in b.courses.values ==> r.courses.keys == RemoveFirst(b.courses.keys, sel))
  {
  }

  /** Deleting drops the selected name's course and the first list row
      carrying that name (which may not be the selected row), and empties
      the assignment list. */
  lemma DeleteCourseEffect(b: Book)
    requires BookValid(b) && 0 <= b.selected
    ensures var sel, r := b.names[b.selected], DeleteCourse(b, true).book;
      var k := IndexOf(b.names, sel);
      && Get(r.courses, sel) == None
      && (forall j :: j != sel ==> Get(r.courses, j) == Get(b.courses, j))
      && k <= b.selected
      && r.names == b.names[..k] + b.names[k + 1..]
      && r.shown == []
  {
    var sel := b.names[b.selected];
    var k := IndexOf(b.names, sel);
    IndexOfAtMost(b.names, sel, b.selected);
    RemoveFirstAtIndexOf(b.names, sel);
  }

  /** Adding a name not yet listed selects its new last row. */
  lemma AddFreshSelectsLast(b: Book, input: string)
    requires BookValid(b) && Trim(input) != [] && Trim(input) !in b.names
    ensures var r := AddCourse(b, Some(input)).book;
      r.names == b.names + [Trim(input)] && r.selected == |b.names|
  {
    var u, n := Trim(input), |b.names|;
    var added := b.(courses := Put(b.courses, u, Course(u, [])), names := b.names + [u]);
    IndexOfAtMost(added.names, u, n);
    assert IndexOf(added.names, u) == n;
  }

  /** Adding the selected row's name again appends a second row with that
      name and leaves the selection where it was. */
  lemma AddSelectedKeepsSelection(b: Book, input: string)
    requires 0 <= b.selected < |b.names| && b.names[b.selected] == Trim(input) != []
    ensures var r := AddCourse(b, Some(input)).book;
      r.names == b.names + [Trim(input)] && r.selected == b.selected
  {
  }

  /** The map and the list drift apart: a name added twice and then deleted
      stays in the list with no course behind it. */
  lemma DuplicateDeleteLeavesStaleName(b: Book, input: string)
    requires BookValid(b) && Trim(input) != [] && Trim(input) !in b.names
    ensures var r := DeleteCourse(AddCourse(AddCourse(b, Some(input)).book, Some(input)).book, true).book;
      && Trim(input) in r.names && Get(r.courses, Trim(input)) == None
  {
    var u, n := Trim(input), |b.names|;
    AddFreshSelectsLast(b, input);
    var b1 := AddCourse(b, Some(input)).book;
    AddSelectedKeepsSelection(b1, input);
    var b2 := AddCourse(b1, Some(input)).book;
    assert b2.names == b.names + [u, u] && b2.selected == n;
    IndexOfAtMost(b2.names, u, n);
    assert b2.names[..n] == b.names;
    RemoveFirstSplits(b2.names, u, n);
    var r := DeleteCourse(b2, true).book;
    assert r.names == b.names + [u];
  }

  /** Renaming a row whose course is gone throws and changes nothing. */
  lemma RenameStaleNameFails(b: Book, input: string)
    requires BookValid(b) && 0 <= b.selected && Trim(input) != []
    requires Get(b.courses, b.names[b.selected]) == None
    ensures RenameCourse(b, Some(input)) == Step(b, Failed)
  {
  }

  /** Adding an assignment appends exactly one to the selected course and
      shows the course's new list; no other course changes. */
  lemma AddAssignmentEffect(b: Book, nameText: string, w: real, g: real)
    requires BookValid(b) && CurrentCourse(b).Some? && Trim(nameText) != []
    ensures var c, sel, s := CurrentCourse(b).value, b.names[b.selected], AddAssignment(b, true, nameText, Some(w), Some(g));
      var added := c.assignments + [Assignment(Trim(nameText), w, g)];
      && s.outcome == Applied
      && Get(s.book.courses, sel) == Some(c.(assignments := added))
      && (forall j :: j != sel ==> Get(s.book.courses, j) == Get(b.courses, j))
      && s.book.courses.keys == b.courses.keys
      && s.book.names == b.names && s.book.selected == b.selected
      && s.book.shown == added
  {
  }

  /** Editing overwrites the one assignment at `idx` of the selected
      course. */
  lemma EditAssignmentEffect(b: Book, idx: nat, nameText: string, w: real, g: real)
    requires BookValid(b) && CurrentCourse(b).Some? && idx < |CurrentCourse(b).value.assignments|
    requires Trim(nameText) != []
    ensures var c, sel, s := CurrentCourse(b).value, b.names[b.selected], EditAssignment(b, idx, true, nameText, Some(w), Some(g));
      var edited := c.assignments[idx := Assignment(Trim(nameText), w, g)];
      && s.outcome == Applied
      && Get(s.book.courses, sel) == Some(c.(assignments := edited))
      && (forall j :: j != sel ==> Get(s.book.courses, j) == Get(b.courses, j))
      && s.book.courses.keys == b.courses.keys && s.book.names == b.names
      && s.book.shown == edited
  {
  }

  /** Removing at a valid index deletes exactly that assignment. */
  lemma RemoveAssignmentEffect(b: Book, idx: nat)
    requires BookValid(b) && CurrentCourse(b).Some? && idx < |CurrentCourse(b).value.assignments|
    ensures var c, sel, s := CurrentCourse(b).value, b.names[b.selected], RemoveAssignment(b, idx, true);
      var kept := c.assignments[..idx] + c.assignments[idx + 1..];
      && s.outcome == Applied
      && |kept| == |c.assignments| - 1
      && Get(s.book.courses, sel) == Some(c.(assignments := kept))
      && (forall j :: j != sel ==> Get(s.book.courses, j) == Get(b.courses, j))
      && s.book.courses.keys == b.courses.keys && s.book.names == b.names
      && s.book.shown == kept
  {
  }

  /** A rejected assignment dialog changes nothing, and an unparsable
      number is reported before an empty name. */
  lemma AssignmentRejected(b: Book, idx: int, confirmed: bool, nameText: string, weight: Option<real>, grade: Option<real>)
    requires -1 <= b.selected < |b.names|
    requires AssignmentCheck(b, confirmed, nameText, weight, grade) != Applied
    ensures AddAssignment(b, confirmed, nameText, weight, grade).book == b
    ensures EditAssignment(b, idx, confirmed, nameText, weight, grade).book == b
    ensures weight.None? && CurrentCourse(b).Some? && confirmed ==>
      AddAssignment(b, confirmed, nameText, weight, grade).outcome == InvalidNumber
  {
  }

  // -------------------------------------------------------------- panel

  class GradesPanel {
    /** `courses`, the `LinkedHashMap` from name to course. */
    var courses: LinkedMap<string, Course>
    /** `courseListModel`: the names the course list shows. */
    var names: seq<string>
    /** `courseList.getSelectedIndex()`, -1 for none. */
    var selected: int
    /** `assignmentModel`: the assignments the assignment list shows. */
    var shown: seq<Assignment>

    function State(): Book
      reads this
    {
      Book(courses, names, selected, shown)
    }

    ghost predicate Valid()
      reads this
    {
      BookValid(State())
    }

    /** The panel starts with the sample course listed, nothing selected. */
    constructor()
      ensures Valid() && State() == Initial()
    {
      courses := Put(Empty(), Sample.name, Sample);
      names := [Sample.name];
      selected := -1;
      shown := [];
    }

    /** `loadCourse`. */
    method ShowCourse(name: Option<string>)
      requires Valid()
      modifies this
      ensures Valid() && State() == LoadCourse(old(State()), name)
    {
      var c := if name.Some? then Get(courses, name.value) else None;
      shown := if c.Some? then c.value.assignments else [];
      LoadKeepsValid(old(State()), name);
    }

    /** The selection listener, on a click on row `i`. */
    method SelectCourse(i: int)
      requires Valid() && -1 <= i < |names|
      modifies this
      ensures Valid() && State() == Select(old(State()), i)
    {
      if i != selected {
        selected := i;
        ShowCourse(if i < 0 then None else Some(names[i]));
      }
    }

    /** `courseList.setSelectedValue(name, true)`. */
    method SetSelectedValue(name: string)
      requires Valid() && name in names
      modifies this
      ensures Valid() && State() == SelectValue(old(State()), name)
    {
      if !(0 <= selected < |names| && names[selected] == name) {
        selected := IndexOf(names, name);
        ShowCourse(Some(name));
      }
    }

    /** The Add Course button, given the input dialog's answer. */
    method AddCourseButton(input: Option<string>) returns (out: Outcome)
      requires Valid()
      modifies this
      ensures Valid()
      ensures State() == AddCourse(old(State()), input).book && out == AddCourse(old(State()), input).outcome
    {
      AddCourseValid(State(), input);
      if input.Some? && Trim(input.value) != [] {
        var c := Course(Trim(input.value), []);
        courses := Put(courses, c.name, c);
        names := names + [c.name];
        SetSelectedValue(c.name);
        return Applied;
      }
      return Ignored;
    }

    /** The Rename Course button, given the input dialog's answer. */
    method RenameCourseButton(input: Option<string>) returns (out: Outcome)
      requires Valid()
      modifies this
      ensures Valid()
      ensures State() == RenameCourse(old(State()), input).book && out == RenameCourse(old(State()), input).outcome
    {
      RenameCourseValid(State(), input);
      if selected < 0 {
        return NotSelected;
      }
      var sel := names[selected];
      if input.None? || Trim(input.value) == [] {
        return Ignored;
      }
      var removed := Get(courses, sel);
      if removed.None? {
        return Failed;
      }
      courses := Remove(courses, sel);
      var c := removed.value.(name := Trim(input.value));
      courses := Put(courses, c.name, c);
      names := names[selected := c.name];
      return Applied;
    }

    /** The Delete Course button, given the confirmation. */
    method DeleteCourseButton(confirmed: bool) returns (out: Outcome)
      requires Valid()
      modifies this
      ensures Valid()
      ensures State() == DeleteCourse(old(State()), confirmed).book && out == DeleteCourse(old(State()), confirmed).outcome
    {
      DeleteCourseValid(State(), confirmed);
      if selected < 0 {
        return NotSelected;
      }
      var sel := names[selected];
      if !confirmed {
        return Ignored;
      }
      courses := Remove(courses, sel);
      var k := IndexOf(names, sel);
      names := RemoveFirst(names, sel);
      selected := SelectionAfterRemoval(selected, k);
      shown := [];
      return Applied;
    }

    /** `addOrEditAssignment`: `existing` is the row of the assignment to
        overwrite, or `None` to append a new one. */
    method AddOrEditAssignment(existing: Option<nat>, confirmed: bool, nameText: string, weight: Option<real>, grade: Option<real>)
      returns (out: Outcome)
      requires Valid()
      requires existing.Some? ==>
        CurrentCourse(State()).Some? && existing.value < |CurrentCourse(State()).value.assignments|
      modifies this
      ensures Valid()
      ensures existing.None? ==>
        State() == AddAssignment(old(State()), confirmed, nameText, weight, grade).book
        && out == AddAssignment(old(State()), confirmed, nameText, weight, grade).outcome
      ensures existing.Some? ==>
        State() == EditAssignment(old(State()), existing.value, confirmed, nameText, weight, grade).book
        && out == EditAssignment(old(State()), existing.value, confirmed, nameText, weight, grade).outcome
    {
      AssignmentStepsValid(State(), if existing.Some? then existing.value else -1, confirmed, nameText, weight, grade);
      var c := CurrentCourse(State());
      if c.None? {
        return NotSelected;
      }
      if !confirmed {
        return Ignored;
      }
      var nm := Trim(nameText);
      if weight.None? || grade.None? {
        return InvalidNumber;
      }
      if nm == [] {
        return NameRequired;
      }
      var a := Assignment(nm, weight.value, grade.value);
      var list := if existing.None? then c.value.assignments + [a] else c.value.assignments[existing.value := a];
      courses := Put(courses, names[selected], c.value.(assignments := list));
      ShowCourse(Some(c.value.name));
      return Applied;
    }

    /** The Add Assignment button. */
    method AddAssignmentButton(confirmed: bool, nameText: string, weight: Option<real>, grade: Option<real>)
      returns (out: Outcome)
      requires Valid()
      modifies this
      ensures Valid()
      ensures State() == AddAssignment(old(State()), confirmed, nameText, weight, grade).book
      ensures out == AddAssignment(old(State()), confirmed, nameText, weight, grade).outcome
    {
      out := AddOrEditAssignment(None, confirmed, nameText, weight, grade);
    }

    /** The Edit Assignment button, with row `idx` of the assignment list
        selected (-1 for none). */
    method EditAssignmentButton(idx: int, confirmed: bool, nameText: string, weight: Option<real>, grade: Option<real>)
      returns (out: Outcome)
      requires Valid()
      modifies this
      ensures Valid()
      ensures State() == EditAssignment(old(State()), idx, confirmed, nameText, weight, grade).book
      ensures out == EditAssignment(old(State()), idx, confirmed, nameText, weight, grade).outcome
    {
      var c := CurrentCourse(State());
      if c.None? || idx < 0 {
        return NotSelected;
      }
      if idx >= |c.value.assignments| {
        return Failed;
      }
      out := AddOrEditAssignment(Some(idx), confirmed, nameText, weight, grade);
    }

    /** The Remove Assignment button, with row `idx` selected and the
        confirmation given. */
    method RemoveAssignmentButton(idx: int, confirmed: bool) returns (out: Outcome)
      requires Valid()
      modifies this
      ensures Valid()
      ensures State() == RemoveAssignment(old(State()), idx, confirmed).book
      ensures out == RemoveAssignment(old(State()), idx, confirmed).outcome
    {
      AssignmentStepsValid(State(), idx, confirmed, "", None, None);
      var c := CurrentCourse(State());
      if c.None? || idx < 0 {
        return NotSelected;
      }
      if !confirmed {
        return Ignored;
      }
      if idx >= |c.value.assignments| {
        return Failed;
      }
      var list := c.value.assignments[..idx] + c.value.assignments[idx + 1..];
      courses := Put(courses, names[selected], c.value.(assignments := list));
      ShowCourse(Some(c.value.name));
      return Applied;
    }
  }
}
