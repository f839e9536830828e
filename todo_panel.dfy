/** The task list of one project (`ProjectTodoPanel`): the sort that
    `refreshTasks` applies in place, the completed count and progress
    percentage it shows, and the add, edit, finish and remove handlers with
    their dialog results passed in as parameters. */
module TodoPanel {
  import opened JavaLang
  import opened StableSort
  import opened Tasks

  /** A project: its name and its task list, which the panel reorders and
      edits in place. */
  class Project {
    var name: string
    var tasks: seq<Task>

    constructor(name: string)
      ensures this.name == name && tasks == []
    {
      this.name := name;
      tasks := [];
    }
  }

  // ------------------------------------------------------------ sorting

  /** The sort key of selector index `mode`: 1 the deadline, 2 the
      difficulty, anything else the lower-cased name. */
  function TaskKey(t: Task, mode: int): SortKey
  {
    if mode == 1 then ByInt(t.deadline)
    else if mode == 2 then ByInt(t.difficulty)
    else ByText(LowerAscii(t.name))
  }

  predicate KeysMatch(s: seq<Keyed<Task>>, mode: int)
  {
    forall i :: 0 <= i < |s| ==> s[i].key == TaskKey(s[i].item, mode)
  }

  /** Each task paired with its current key. */
  function KeyedTasks(ts: seq<Task>, mode: int): seq<Keyed<Task>>
  {
    if ts == [] then []
    else
      var t := ts[|ts| - 1];
      KeyedTasks(ts[..|ts| - 1], mode) + [Keyed(TaskKey(t, mode), t)]
  }

  /** Pairing tasks with their keys keeps the tasks, in order, and each
      carries its own key. */
  lemma KeyedTasksShape(ts: seq<Task>, mode: int)
    ensures |KeyedTasks(ts, mode)| == |ts| && Items(KeyedTasks(ts, mode)) == ts
    ensures KeysMatch(KeyedTasks(ts, mode), mode)
  {
    KeyedTasksItems(ts, mode);
    KeyedTasksKeys(ts, mode);
  }

  lemma {:induction false} KeyedTasksItems(ts: seq<Task>, mode: int)
    ensures |KeyedTasks(ts, mode)| == |ts| && Items(KeyedTasks(ts, mode)) == ts
  {
    if ts != [] {
      var init, t := ts[..|ts| - 1], ts[|ts| - 1];
      KeyedTasksItems(init, mode);
      var ks, before := KeyedTasks(ts, mode), KeyedTasks(init, mode);
      assert ks[..|ks| - 1] == before;
      assert Items(ks) == Items(before) + [t];
      assert ts == init + [t];
    }
  }

  lemma {:induction false} KeyedTasksKeys(ts: seq<Task>, mode: int)
    ensures |KeyedTasks(ts, mode)| == |ts|
    ensures KeysMatch(KeyedTasks(ts, mode), mode)
  {
    if ts != [] {
      var init, t := ts[..|ts| - 1], ts[|ts| - 1];
      KeyedTasksKeys(init, mode);
      var ks, before := KeyedTasks(ts, mode), KeyedTasks(init, mode);
      assert ks == before + [Keyed(TaskKey(t, mode), t)];
      forall i | 0 <= i < |ks|
        ensures ks[i].key == TaskKey(ks[i].item, mode)
      {
        if i < |before| {
          assert ks[i] == before[i];
        }
      }
    }
  }

  /** `tasks.sort(Comparator.comparing(key))`: the stable sort of the tasks
      by their keys at the time of sorting. */
  function SortedTasks(ts: seq<Task>, mode: int): seq<Task>
  {
    Items(InsertionSort(KeyedTasks(ts, mode)))
  }

  /** The tasks whose key is `k`, in list order. */
  function TasksWithKey(ts: seq<Task>, mode: int, k: SortKey): seq<Task>
  {
    if ts == [] then []
    else
      TasksWithKey(ts[..|ts| - 1], mode, k)
        + (if TaskKey(ts[|ts| - 1], mode) == k then [ts[|ts| - 1]] else [])
  }

  lemma {:induction false} KeyedOfItems(s: seq<Keyed<Task>>, mode: int)
    requires KeysMatch(s, mode)
    ensures KeyedTasks(Items(s), mode) == s
  {
    if s != [] {
      var init := s[..|s| - 1];
      assert Items(s)[..|s| - 1] == Items(init);
      KeyedOfItems(init, mode);
      assert s == init + [s[|s| - 1]];
    }
  }

  lemma {:induction false} TasksWithKeyIsWithKey(ts: seq<Task>, mode: int, k: SortKey)
    ensures TasksWithKey(ts, mode, k) == Items(WithKey(KeyedTasks(ts, mode), k))
  {
    if ts != [] {
      var init := ts[..|ts| - 1];
      TasksWithKeyIsWithKey(init, mode, k);
      var ks := KeyedTasks(ts, mode);
      assert ks[..|ks| - 1] == KeyedTasks(init, mode);
    }
  }

  lemma SortKeepsKeys(s: seq<Keyed<Task>>, mode: int)
    requires KeysMatch(s, mode)
    ensures KeysMatch(InsertionSort(s), mode)
  {
    InsertionSortCorrect(s);
    var r := InsertionSort(s);
    forall i | 0 <= i < |r|
      ensures r[i].key == TaskKey(r[i].item, mode)
    {
      assert r[i] in multiset(s);
    }
  }

  /** The tasks are in non-decreasing order of their keys. */
  predicate SortedByKey(ts: seq<Task>, mode: int)
  {
    forall i, j :: 0 <= i < j < |ts| ==> KeyLe(TaskKey(ts[i], mode), TaskKey(ts[j], mode))
  }

  /** The sorted list holds the same tasks, ordered by the selected key. */
  lemma SortedTasksCorrect(ts: seq<Task>, mode: int)
    ensures multiset(SortedTasks(ts, mode)) == multiset(ts)
    ensures SortedByKey(SortedTasks(ts, mode), mode)
  {
    var ks := KeyedTasks(ts, mode);
    KeyedTasksShape(ts, mode);
    InsertionSortItems(ks);
    InsertionSortCorrect(ks);
    SortKeepsKeys(ks, mode);
    var r := InsertionSort(ks);
    forall i, j | 0 <= i < j < |r|
      ensures KeyLe(TaskKey(Items(r)[i], mode), TaskKey(Items(r)[j], mode))
    {
      assert r[i].key == TaskKey(r[i].item, mode) && r[j].key == TaskKey(r[j].item, mode);
    }
  }

  /** Stability: tasks with equal keys keep their relative order. */
  lemma SortedTasksStable(ts: seq<Task>, mode: int, k: SortKey)
    ensures TasksWithKey(SortedTasks(ts, mode), mode, k) == TasksWithKey(ts, mode, k)
  {
    var ks := KeyedTasks(ts, mode);
    KeyedTasksShape(ts, mode);
    SortKeepsKeys(ks, mode);
    KeyedOfItems(InsertionSort(ks), mode);
    TasksWithKeyIsWithKey(SortedTasks(ts, mode), mode, k);
    TasksWithKeyIsWithKey(ts, mode, k);
    InsertionSortStable(ks, k);
  }

  /** Refreshing twice sorts once: a sorted list is left as it is. */
  lemma SortedTasksIdempotent(ts: seq<Task>, mode: int)
    ensures SortedTasks(SortedTasks(ts, mode), mode) == SortedTasks(ts, mode)
  {
    var ks := KeyedTasks(ts, mode);
    KeyedTasksShape(ts, mode);
    SortKeepsKeys(ks, mode);
    KeyedOfItems(InsertionSort(ks), mode);
    InsertionSortIdempotent(ks);
  }

  // ----------------------------------------------------------- progress

  /** The number of completed tasks. */
  function CountCompleted(ts: seq<Task>): (r: nat)
    ensures r <= |ts|
  {
    if ts == [] then 0
    else CountCompleted(ts[..|ts| - 1]) + (if ts[|ts| - 1].completed then 1 else 0)
  }

  lemma {:induction false} CountCompletedAll(ts: seq<Task>)
    ensures CountCompleted(ts) == |ts| <==> forall i :: 0 <= i < |ts| ==> ts[i].completed
  {
    if ts != [] {
      CountCompletedAll(ts[..|ts| - 1]);
    }
  }

  lemma {:induction false} CountCompletedNone(ts: seq<Task>)
    ensures CountCompleted(ts) == 0 <==> forall i :: 0 <= i < |ts| ==> !ts[i].completed
  {
    if ts != [] {
      CountCompletedNone(ts[..|ts| - 1]);
    }
  }

  lemma {:induction false} CountInsert(x: Keyed<Task>, s: seq<Keyed<Task>>)
    ensures CountCompleted(Items(Insert(x, s))) == CountCompleted(Items(s)) + (if x.item.completed then 1 else 0)
  {
    if s == [] || KeyLe(s[|s| - 1].key, x.key) {
      CountCompletedSplit(Items(s), [x.item]);
      assert [x.item][..0] == [];
    } else {
      var init, last := s[..|s| - 1], s[|s| - 1];
      CountInsert(x, init);
      CountCompletedSplit(Items(Insert(x, init)), [last.item]);
      CountCompletedSplit(Items(init), [last.item]);
      assert [last.item][..0] == [];
    }
  }

  /** Sorting does not change how many tasks are done. */
  lemma {:induction false} CountSorted(s: seq<Keyed<Task>>)
    ensures CountCompleted(Items(InsertionSort(s))) == CountCompleted(Items(s))
  {
    if s != [] {
      var init, last := s[..|s| - 1], s[|s| - 1];
      CountSorted(init);
      CountInsert(last, InsertionSort(init));
      CountCompletedSplit(Items(init), [last.item]);
      assert [last.item][..0] == [];
    }
  }

  lemma SortedTasksCount(ts: seq<Task>, mode: int)
    ensures CountCompleted(SortedTasks(ts, mode)) == CountCompleted(ts)
  {
    KeyedTasksShape(ts, mode);
    CountSorted(KeyedTasks(ts, mode));
  }

  lemma {:induction false} CountCompletedSplit(a: seq<Task>, b: seq<Task>)
    ensures CountCompleted(a + b) == CountCompleted(a) + CountCompleted(b)
  {
    if b == [] {
      assert a + b == a;
    } else {
      assert (a + b)[..|a + b| - 1] == a + b[..|b| - 1];
      CountCompletedSplit(a, b[..|b| - 1]);
    }
  }

  /** What the progress bar may show for `completed` of `total` tasks: a
      percentage, 0 for an empty list or when nothing is done, 100 when
      everything is. */
  predicate ProgressFits(pct: int, completed: nat, total: nat)
  {
    && 0 <= pct <= 100
    && (total == 0 || completed == 0 ==> pct == 0)
    && (0 < total && completed == total ==> pct == 100)
  }

  /** Multiplying by a positive number keeps the order of two reals. */
  lemma ScaleKeepsOrder(a: real, b: real, t: real)
    requires t > 0.0
    ensures a <= b ==> a * t <= b * t
    ensures a < b ==> a * t < b * t
  {
    assert b * t - a * t == (b - a) * t;
  }

  /** A real `p` within one below `x`, where `x * t` is `c * 100`, bounds
      `c * 100` between `p * t` and `(p + 1) * t`. */
  lemma ScaledFloor(c: real, t: real, x: real, p: real)
    requires t > 0.0 && x * t == c * 100.0
    requires p <= x < p + 1.0
    ensures p * t <= c * 100.0 < (p + 1.0) * t
  {
    ScaleKeepsOrder(p, x, t);
    var q := p + 1.0;
    ScaleKeepsOrder(x, q, t);
    assert c * 100.0 < q * t;
    assert q * t == (p + 1.0) * t;
  }

  /** Every task's difficulty is one the selector offers. */
  predicate DifficultiesInRange(ts: seq<Task>)
  {
    forall i :: 0 <= i < |ts| ==> 0 <= ts[i].difficulty <= 3
  }

  lemma SortedTasksInRange(ts: seq<Task>, mode: int)
    requires DifficultiesInRange(ts)
    ensures DifficultiesInRange(SortedTasks(ts, mode))
  {
    SortedTasksCorrect(ts, mode);
    var r := SortedTasks(ts, mode);
    forall i | 0 <= i < |r|
      ensures 0 <= r[i].difficulty <= 3
    {
      assert r[i] in multiset(ts);
    }
  }

  lemma MultisetWithout<T>(s: seq<T>, i: nat)
    requires i < |s|
    ensures multiset(s[..i] + s[i + 1..]) == multiset(s) - multiset{s[i]}
  {
    assert s == s[..i] + [s[i]] + s[i + 1..];
  }

  lemma MultisetUpdate<T>(s: seq<T>, i: nat, x: T)
    requires i < |s|
    ensures multiset(s[i := x]) == multiset(s) - multiset{s[i]} + multiset{x}
  {
    assert s == s[..i] + [s[i]] + s[i + 1..];
    assert s[i := x] == s[..i] + [x] + s[i + 1..];
  }

  // -------------------------------------------------------------- panel

  class ProjectTodoPanel {
    var currentProject: Project?
    /** `sortMode.getSelectedIndex()`: 0 name, 1 deadline, 2 difficulty. */
    var sortIndex: int
    var progress: int
    /** The tasks shown as rows, top to bottom; a row's buttons act on the
        task at its position. */
    var rows: seq<Task>

    /** The rows show the current project's tasks, whose difficulties all
        lie in 0..3; without a project there are none. */
    ghost predicate Valid()
      reads this, currentProject
    {
      && (currentProject == null ==> rows == [])
      && (currentProject != null ==> rows == currentProject.tasks && DifficultiesInRange(rows))
    }

    constructor()
      ensures Valid()
      ensures currentProject == null && sortIndex == 0 && progress == 0 && rows == []
    {
      currentProject := null;
      sortIndex := 0;
      progress := 0;
      rows := [];
    }

    /** `refreshTasks`: sorts the current project's tasks in place by the
        selected key, lists them as rows and sets the progress to the share
        completed; without a project there are no rows and progress is 0. */
    method RefreshTasks()
      modifies this, currentProject
      ensures currentProject == old(currentProject) && sortIndex == old(sortIndex)
      ensures currentProject == null ==> progress == 0 && rows == []
      ensures currentProject != null ==>
        && currentProject.tasks == SortedTasks(old(currentProject.tasks), sortIndex)
        && rows == currentProject.tasks
        && ProgressFits(progress, CountCompleted(rows), |rows|)
    {
      if currentProject == null {
        rows, progress := [], 0;
        return;
      }
      currentProject.tasks := SortedTasks(currentProject.tasks, sortIndex);
      var completed;
      rows, completed := ListRows(currentProject.tasks);
      progress := ProgressPercent(completed, |rows|);
    }

    /** The loop of `refreshTasks`: one row per task, in list order, while
        counting the completed ones. */
    static method ListRows(tasks: seq<Task>) returns (shown: seq<Task>, completed: nat)
      ensures shown == tasks && completed == CountCompleted(tasks)
    {
      shown, completed := [], 0;
      var i := 0;
      while i < |tasks|
        invariant 0 <= i <= |tasks|
        invariant shown == tasks[..i]
        invariant completed == CountCompleted(tasks[..i])
      {
        var t := tasks[i];
        assert tasks[..i + 1][..i] == tasks[..i];
        shown := shown + [t];
        if t.completed {
          completed := completed + 1;
        }
        i := i + 1;
      }
      assert tasks[..i] == tasks;
    }

    /** `total == 0 ? 0 : (int)((completed / (double) total) * 100)`, with
        the quotient taken exactly. */
    static method ProgressPercent(completed: nat, total: nat) returns (pct: int)
      requires completed <= total
      ensures ProgressFits(pct, completed, total)
      ensures 0 < total ==>
        pct as real * total as real <= completed as real * 100.0 < (pct + 1) as real * total as real
    {
      if total == 0 {
        return 0;
      }
      var c, t := completed as real, total as real;
      var q := c / t;
      assert q * t == c;
      assert (1.0 - q) * t == t - c;
      assert 0.0 <= q <= 1.0;
      assert c == t ==> q == 1.0 by {
        if c == t {
          assert t / t == 1.0;
        }
      }
      var x := q * 100.0;
      pct := x.Floor;
      assert x * t == c * 100.0;
      ScaledFloor(c, t, x, pct as real);
    }

    /** `loadProject`. */
    method LoadProject(p: Project?)
      requires p != null ==> DifficultiesInRange(p.tasks)
      modifies this, p
      ensures Valid()
      ensures currentProject == p && sortIndex == old(sortIndex)
      ensures p == null ==> progress == 0 && rows == []
      ensures p != null ==>
        && p.tasks == SortedTasks(old(p.tasks), sortIndex)
        && rows == p.tasks
        && ProgressFits(progress, CountCompleted(rows), |rows|)
    {
      currentProject := p;
      if p != null {
        SortedTasksInRange(p.tasks, sortIndex);
      }
      RefreshTasks();
    }

    /** The sort selector's listener. */
    method SelectSortMode(index: int)
      requires Valid() && 0 <= index <= 2
      modifies this, currentProject
      ensures Valid()
      ensures currentProject == old(currentProject) && sortIndex == index
      ensures currentProject == null ==> progress == 0 && rows == []
      ensures currentProject != null ==>
        && currentProject.tasks == SortedTasks(old(currentProject.tasks), index)
        && ProgressFits(progress, CountCompleted(rows), |rows|)
    {
      sortIndex := index;
      if currentProject != null {
        SortedTasksInRange(currentProject.tasks, index);
      }
      RefreshTasks();
    }

    /** The add dialog: rejected without a project, when cancelled, with an
        empty trimmed name or an unparsable date; otherwise one new task
        with the clamped difficulty joins the list, which is then sorted. */
    method AddTask(confirmed: bool, nameText: string, date: Option<int>, diff: int) returns (added: bool)
      requires Valid()
      modifies this, currentProject
      ensures Valid()
      ensures currentProject == old(currentProject) && sortIndex == old(sortIndex)
      ensures added <==>
        currentProject != null && confirmed && Trim(nameText) != [] && date != None
      ensures !added ==> unchanged(this) && (currentProject != null ==> unchanged(currentProject))
      ensures added ==>
        && currentProject.tasks
             == SortedTasks(old(currentProject.tasks) + [NewTask(Trim(nameText), diff, date.value)], sortIndex)
        && multiset(currentProject.tasks)
             == multiset(old(currentProject.tasks)) + multiset{NewTask(Trim(nameText), diff, date.value)}
        && ProgressFits(progress, CountCompleted(rows), |rows|)
    {
      added := false;
      if currentProject == null || !confirmed {
        return;
      }
      var name := Trim(nameText);
      if name == [] || date == None {
        return;
      }
      var grown := currentProject.tasks + [NewTask(name, diff, date.value)];
      SortedTasksCorrect(grown, sortIndex);
      SortedTasksInRange(grown, sortIndex);
      currentProject.tasks := grown;
      RefreshTasks();
      added := true;
    }

    /** The edit dialog on row `i`: with a non-empty trimmed name and a
        parsable date it overwrites that task's name, deadline and
        difficulty (one of the selector's 0..3, stored unclamped) and sorts
        again; otherwise it changes nothing. */
    method EditTask(i: nat, confirmed: bool, nameText: string, date: Option<int>, diff: int)
      requires Valid() && i < |rows| && 0 <= diff <= 3
      modifies this, currentProject
      ensures Valid()
      ensures currentProject == old(currentProject) && sortIndex == old(sortIndex)
      ensures !confirmed || Trim(nameText) == [] || date == None ==>
        unchanged(this, currentProject)
      ensures confirmed && Trim(nameText) != [] && date != None ==>
        var edited := old(rows[i]).(name := Trim(nameText), deadline := date.value, difficulty := diff);
        && currentProject.tasks == SortedTasks(old(currentProject.tasks)[i := edited], sortIndex)
        && multiset(currentProject.tasks)
             == multiset(old(currentProject.tasks)) - multiset{old(rows[i])} + multiset{edited}
        && ProgressFits(progress, CountCompleted(rows), |rows|)
    {
      if !confirmed {
        return;
      }
      var name := Trim(nameText);
      if name == [] || date == None {
        return;
      }
      var ts := currentProject.tasks;
      var edited := ts[i].(name := name, deadline := date.value, difficulty := diff);
      MultisetUpdate(ts, i, edited);
      SortedTasksCorrect(ts[i := edited], sortIndex);
      SortedTasksInRange(ts[i := edited], sortIndex);
      currentProject.tasks := ts[i := edited];
      RefreshTasks();
    }

    /** The finish button on row `i`: marks that task completed and sorts
        again. */
    method FinishTask(i: nat)
      requires Valid() && i < |rows|
      modifies this, currentProject
      ensures Valid()
      ensures currentProject == old(currentProject) && sortIndex == old(sortIndex)
      ensures
        var finished := old(rows[i]).(completed := true);
        && currentProject.tasks == SortedTasks(old(currentProject.tasks)[i := finished], sortIndex)
        && multiset(currentProject.tasks)
             == multiset(old(currentProject.tasks)) - multiset{old(rows[i])} + multiset{finished}
        && CountCompleted(rows) == old(CountCompleted(rows)) + (if old(rows[i]).completed then 0 else 1)
        && ProgressFits(progress, CountCompleted(rows), |rows|)
    {
      var ts := currentProject.tasks;
      var finished := ts[i].(completed := true);
      MultisetUpdate(ts, i, finished);
      FinishCounts(ts, i);
      SortedTasksCorrect(ts[i := finished], sortIndex);
      SortedTasksInRange(ts[i := finished], sortIndex);
      SortedTasksCount(ts[i := finished], sortIndex);
      currentProject.tasks := ts[i := finished];
      RefreshTasks();
    }

    /** The remove button on row `i`, once confirmed: drops that task and
        sorts again. */
    method RemoveTask(i: nat, confirmed: bool)
      requires Valid() && i < |rows|
      modifies this, currentProject
      ensures Valid()
      ensures currentProject == old(currentProject) && sortIndex == old(sortIndex)
      ensures !confirmed ==> unchanged(this, currentProject)
      ensures confirmed ==>
        && currentProject.tasks == SortedTasks(old(currentProject.tasks[..i] + currentProject.tasks[i + 1..]), sortIndex)
        && multiset(currentProject.tasks) == multiset(old(currentProject.tasks)) - multiset{old(rows[i])}
        && |currentProject.tasks| == old(|currentProject.tasks|) - 1
        && ProgressFits(progress, CountCompleted(rows), |rows|)
    {
      if confirmed {
        var ts := currentProject.tasks;
        var remaining := ts[..i] + ts[i + 1..];
        MultisetWithout(ts, i);
        SortedTasksCorrect(remaining, sortIndex);
        SortedTasksInRange(remaining, sortIndex);
        currentProject.tasks := remaining;
        RefreshTasks();
      }
    }
  }

  /** Finishing one task raises the count by one unless it was done. */
  lemma FinishCounts(ts: seq<Task>, i: nat)
    requires i < |ts|
    ensures CountCompleted(ts[i := ts[i].(completed := true)])
         == CountCompleted(ts) + (if ts[i].completed then 0 else 1)
  {
    var f := ts[i].(completed := true);
    assert ts == ts[..i] + [ts[i]] + ts[i + 1..];
    assert ts[i := f] == ts[..i] + [f] + ts[i + 1..];
    CountCompletedSplit(ts[..i] + [ts[i]], ts[i + 1..]);
    CountCompletedSplit(ts[..i] + [f], ts[i + 1..]);
    CountCompletedSplit(ts[..i], [ts[i]]);
    CountCompletedSplit(ts[..i], [f]);
    assert [f][..0] == [] && [ts[i]][..0] == [];
  }
}
