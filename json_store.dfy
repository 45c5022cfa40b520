/** The task store of server.py: a JSON array of task objects in tasks.json,
    read whole by `load_tasks` and rewritten whole by `save_tasks`. The file is
    the `tasks` field of a TaskFile; each tool call reads it, and the ones that
    save assign it. */
module JsonStore {
  import opened Prelude
  import opened PyStr
  import opened Dates
  import opened DueDates
  import opened Reports

  /** One object of the array. `due` is the parsed date that `due_date` holds as
      `YYYY-MM-DD` text; `completedAt` is the key that `complete_task` adds. */
  datatype Task = Task(
    id: int,
    title: string,
    due: Option<Date>,
    done: bool,
    createdAt: Stamp,
    completedAt: Option<Stamp>)

  datatype AddResult = Added(task: Task) | BadDueDate(receivedDate: string)

  datatype DeleteResult = Deleted(deletedTask: Task) | IdNotInteger | DeleteNotFound(id: int)

  datatype CompleteResult = Completed(task: Task) | CompleteNotFound(taskId: IdArg)

  datatype Listing = Listing(tasks: seq<Task>, totalCount: nat)

  datatype DateQuery = DateQuery(date: string, dateInput: string, tasks: seq<Task>, count: nat)

  datatype RangeQuery = RangeQuery(
    startDate: string,
    endDate: string,
    startInput: string,
    endInput: string,
    tasks: seq<Task>,
    count: nat,
    rangeDays: int)

  /** Position i holds the first task with the given id. */
  predicate IsFirstWithId(ts: seq<Task>, id: int, i: nat)
  {
    i < |ts| && ts[i].id == id && forall j :: 0 <= j < i ==> ts[j].id != id
  }

  predicate HasId(ts: seq<Task>, id: int)
  {
    exists j :: 0 <= j < |ts| && ts[j].id == id
  }

  // ---------------------------------------------------------------------------
  // add_task

  /** What `add_task` does with the loaded list ts: reject a given due date that
      does not parse, echoing it; otherwise build the task numbered one past the
      number of tasks, not done, due on the parsed date (none when no due date was
      given). The id is a count, not a maximum: after a delete it can repeat an
      id that is still in use. */
  function AddOutcome(ts: seq<Task>, title: string, due: Option<string>, p: DateParser, clock: Clock)
    : (r: AddResult)
    ensures r.BadDueDate? <==> Given(due) && ParseDueDate(p, due.value, clock.today).None?
    ensures r.BadDueDate? ==> r.receivedDate == due.value
    ensures r.Added? ==> r.task.id == |ts| + 1 && r.task.title == title && !r.task.done
    ensures r.Added? ==> r.task.createdAt == clock.stamp && r.task.completedAt == None
    ensures r.Added? ==> r.task.due == if Given(due) then ParseDueDate(p, due.value, clock.today) else None
  {
    if !Given(due) then Added(Task(|ts| + 1, title, None, false, clock.stamp, None))
    else
      match ParseDueDate(p, due.value, clock.today)
      case None => BadDueDate(due.value)
      case Some(d) => Added(Task(|ts| + 1, title, Some(d), false, clock.stamp, None))
  }

  // ---------------------------------------------------------------------------
  // The scan shared by delete_task and complete_task

  /** `for t in tasks: if t["id"] == task_id`: the first position holding the
      id, or that no task has it. */
  method FindTask(ts: seq<Task>, id: int) returns (found: bool, i: nat)
    ensures found ==> IsFirstWithId(ts, id, i)
    ensures !found <==> !HasId(ts, id)
  {
    i := 0;
    while i < |ts|
      invariant i <= |ts|
      invariant forall j :: 0 <= j < i ==> ts[j].id != id
    {
      if ts[i].id == id {
        return true, i;
      }
      i := i + 1;
    }
    return false, 0;
  }

  /** The in-place update of `complete_task`: done, stamped with the completion time. */
  function MarkDone(t: Task, stamp: Stamp): (r: Task)
    ensures r.done && r.completedAt == Some(stamp)
    ensures r.id == t.id && r.title == t.title && r.due == t.due && r.createdAt == t.createdAt
  {
    t.(done := true, completedAt := Some(stamp))
  }

  class TaskFile {
    /** The contents of tasks.json. */
    var tasks: seq<Task>

    /** A store over the array already in the file ([] when there is no file). */
    constructor (stored: seq<Task>)
      ensures tasks == stored
    {
      tasks := stored;
    }

    /** `add_task(title, due_date)`: on success exactly one task is appended and
        every earlier task stays as it was; a rejected due date saves nothing. */
    method AddTask(title: string, due: Option<string>, p: DateParser, clock: Clock) returns (r: AddResult)
      modifies this
      ensures r == AddOutcome(old(tasks), title, due, p, clock)
      ensures r.Added? ==> tasks == old(tasks) + [r.task]
      ensures r.BadDueDate? ==> tasks == old(tasks)
    {
      var parsed: Option<Date> := None;
      if Given(due) {
        parsed := ParseDueDate(p, due.value, clock.today);
        if parsed.None? {
          return BadDueDate(due.value);
        }
      }
      var task := Task(|tasks| + 1, title, parsed, false, clock.stamp, None);
      tasks := tasks + [task];
      r := Added(task);
    }

    /** `delete_task(task_id)`: an error when the id is not an integer; otherwise
        the first task with that id is removed (the others keep their order) and
        returned, or an error reports the id when no task has it and nothing is
        saved. `tasks.remove(t)` drops the first element equal to t, which is t
        itself, since every earlier task has a different id. */
    method DeleteTask(taskId: IdArg) returns (r: DeleteResult)
      modifies this
      ensures ToInt(taskId).None? <==> r == IdNotInteger
      ensures ToInt(taskId).Some? && !HasId(old(tasks), ToInt(taskId).value) <==> r.DeleteNotFound?
      ensures r.DeleteNotFound? ==> r.id == ToInt(taskId).value
      ensures !r.Deleted? ==> tasks == old(tasks)
      ensures r.Deleted? ==>
                exists i: nat :: IsFirstWithId(old(tasks), ToInt(taskId).value, i)
                              && r.deletedTask == old(tasks)[i]
                              && tasks == old(tasks)[..i] + old(tasks)[i + 1..]
    {
      var n := ToInt(taskId);
      if n.None? {
        return IdNotInteger;
      }
      var found, i := FindTask(tasks, n.value);
      if !found {
        return DeleteNotFound(n.value);
      }
      r := Deleted(tasks[i]);
      tasks := tasks[..i] + tasks[i + 1..];
    }

    /** `list_tasks()`: every task in stored order, and how many there are. */
    function ListTasks(): (r: Listing)
      reads this
      ensures r.tasks == tasks && r.totalCount == |tasks|
    {
      Listing(tasks, |tasks|)
    }

    /** `complete_task(task_id)`: when task_id is an int that some task has, the
        first such task is marked done and stamped, every other task is left
        alone, and the updated task is returned; otherwise an error and nothing
        is saved. The id is not converted, so a str never matches. */
    method CompleteTask(taskId: IdArg, clock: Clock) returns (r: CompleteResult)
      modifies this
      ensures !(taskId.IntArg? && HasId(old(tasks), taskId.n)) <==> r == CompleteNotFound(taskId)
      ensures r.CompleteNotFound? ==> tasks == old(tasks)
      ensures r.Completed? ==>
                exists i: nat :: IsFirstWithId(old(tasks), taskId.n, i)
                              && tasks == old(tasks)[i := MarkDone(old(tasks)[i], clock.stamp)]
                              && r.task == tasks[i]
    {
      if taskId.StrArg? {
        return CompleteNotFound(taskId);
      }
      var found, i := FindTask(tasks, taskId.n);
      if !found {
        return CompleteNotFound(taskId);
      }
      tasks := tasks[i := MarkDone(tasks[i], clock.stamp)];
      r := Completed(tasks[i]);
    }
  }

  // ---------------------------------------------------------------------------
  // summarize_tasks

  function IsDone(t: Task): bool
  {
    t.done
  }

  /** The overdue test on a pending task, as written on the date strings. */
  function OverdueOn(today: Date): Task -> bool
  {
    (t: Task) => DueBefore(t.due, today)
  }

  lemma OverdueOnMeans(today: Date)
    ensures forall t: Task :: OverdueOn(today)(t) <==> t.due.Some? && Before(t.due.value, today)
  {
    forall t: Task
      ensures OverdueOn(today)(t) <==> t.due.Some? && Before(t.due.value, today)
    {
      DueBeforeMeans(t.due, today);
    }
  }

  /** `summarize_tasks()` over the loaded list: completed and pending split the
      tasks (each task in exactly one, counts adding up to the total); overdue
      are the pending tasks due on a day before today. */
  function Summarize(ts: seq<Task>, today: Date): (s: Summary<Task>)
    ensures s.completed == Filter(ts, (t: Task) => t.done)
    ensures s.pending == Filter(ts, (t: Task) => !t.done)
    ensures forall t :: t in s.completed <==> t in ts && t.done
    ensures forall t :: t in s.pending <==> t in ts && !t.done
    ensures multiset(s.pending) + multiset(s.completed) == multiset(ts)
    ensures s.overdue == Filter(s.pending, (t: Task) => t.due.Some? && Before(t.due.value, today))
    ensures |s.overdue| <= |s.pending|
    ensures s.stats == Stats(|ts|, |s.pending|, |s.completed|, |s.overdue|)
    ensures s.stats.total == s.stats.pending + s.stats.completed
    ensures s.text == SummaryText(s.stats.pending, s.stats.completed, s.stats.overdue)
  {
    var done := Filter(ts, IsDone);
    var pending := Filter(ts, Not(IsDone));
    FilterPartition(ts, IsDone);
    FilterExt(ts, IsDone, (t: Task) => t.done);
    FilterExt(ts, Not(IsDone), (t: Task) => !t.done);
    OverdueOnMeans(today);
    var overdue := Filter(pending, OverdueOn(today));
    FilterExt(pending, OverdueOn(today), (t: Task) => t.due.Some? && Before(t.due.value, today));
    MakeSummary(|ts|, pending, done, overdue)
  }

  // ---------------------------------------------------------------------------
  // tasks_by_date and tasks_by_range

  function DueOnDay(d: Date): Task -> bool
  {
    (t: Task) => DueOn(t.due, d)
  }

  lemma DueOnDayMeans(d: Date)
    ensures forall t: Task :: DueOnDay(d)(t) <==> t.due == Some(d)
  {
    forall t: Task
      ensures DueOnDay(d)(t) <==> t.due == Some(d)
    {
      DueOnMeans(t.due, d);
    }
  }

  /** `tasks_by_date(date)`: an error echoing the text when it does not parse;
      otherwise the tasks due on exactly the parsed day, in stored order. */
  function TasksByDate(ts: seq<Task>, p: DateParser, date: string, today: Date)
    : (r: Result<DateQuery, string>)
    ensures r.Err? <==> ParseDueDate(p, date, today).None?
    ensures r.Err? ==> r.error == date
    ensures r.Ok? ==>
              var d := ParseDueDate(p, date, today).value;
              && r.value.date == Format(d) && r.value.dateInput == date
              && r.value.tasks == Filter(ts, (t: Task) => t.due == Some(d))
              && r.value.count == |r.value.tasks|
  {
    match ParseDueDate(p, date, today)
    case None => Err(date)
    case Some(d) =>
      DueOnDayMeans(d);
      var hits := Filter(ts, DueOnDay(d));
      FilterExt(ts, DueOnDay(d), (t: Task) => t.due == Some(d));
      Ok(DateQuery(Format(d), date, hits, |hits|))
  }

  function DueInSpan(s: Span): Task -> bool
  {
    (t: Task) => DueWithin(t.due, s)
  }

  lemma DueInSpanMeans(s: Span)
    ensures forall t: Task :: DueInSpan(s)(t) <==>
              t.due.Some? && !Before(t.due.value, s.start) && !Before(s.end, t.due.value)
  {
    forall t: Task
      ensures DueInSpan(s)(t) <==> t.due.Some? && !Before(t.due.value, s.start) && !Before(s.end, t.due.value)
    {
      DueWithinMeans(t.due, s);
    }
  }

  /** `tasks_by_range(start, end)`: the resolution errors of the endpoints, or the
      tasks with a due date inside the inclusive range between the two resolved
      days (tasks without a due date never match), in stored order, with the
      range's texts (start not after end) and its length in days (at least one). */
  function TasksByRange(ts: seq<Task>, p: DateParser, start: string, end: Option<string>, today: Date)
    : (r: Result<RangeQuery, RangeError>)
    ensures r.Err? <==> ResolveRange(p, start, end, today).Err?
    ensures r.Err? ==> r.error == ResolveRange(p, start, end, today).error
    ensures r.Ok? ==>
              var s := ResolveRange(p, start, end, today).value;
              && r.value.startDate == Format(s.start) && r.value.endDate == Format(s.end)
              && StrLessEq(r.value.startDate, r.value.endDate)
              && r.value.tasks == Filter(ts, (t: Task) =>
                   t.due.Some? && !Before(t.due.value, s.start) && !Before(s.end, t.due.value))
              && r.value.count == |r.value.tasks|
              && r.value.rangeDays == RangeDays(s) && r.value.rangeDays >= 1
    ensures r.Ok? ==> r.value.startInput == start
    ensures r.Ok? ==> r.value.endInput == if Given(end) then end.value else "same as start"
  {
    match ResolveRange(p, start, end, today)
    case Err(e) => Err(e)
    case Ok(s) =>
      FormatOrderEq(s.start, s.end);
      DueInSpanMeans(s);
      var hits := Filter(ts, DueInSpan(s));
      FilterExt(ts, DueInSpan(s), (t: Task) => t.due.Some? && !Before(t.due.value, s.start) && !Before(s.end, t.due.value));
      Ok(RangeQuery(Format(s.start), Format(s.end), start,
                    if Given(end) then end.value else "same as start",
                    hits, |hits|, RangeDays(s)))
  }

  // ---------------------------------------------------------------------------
  // Properties across operations

  /** A task just added is pending: the summary gains one pending task and one
      task in total, and the completed count stays. */
  lemma AddedTaskIsPending(ts: seq<Task>, title: string, due: Option<string>, p: DateParser, clock: Clock)
    requires AddOutcome(ts, title, due, p, clock).Added?
    ensures var t := AddOutcome(ts, title, due, p, clock).task;
            var before, after := Summarize(ts, clock.today), Summarize(ts + [t], clock.today);
            && after.stats.pending == before.stats.pending + 1
            && after.stats.completed == before.stats.completed
            && after.stats.total == before.stats.total + 1
  {
    var t := AddOutcome(ts, title, due, p, clock).task;
    FilterSnoc(ts, t, IsDone);
    FilterSnoc(ts, t, Not(IsDone));
  }

  /** Completing a pending task moves it from pending to completed; completing a
      task that is already done (which only re-stamps it) changes no count. */
  lemma CompleteMovesTask(ts: seq<Task>, i: nat, stamp: Stamp, today: Date)
    requires i < |ts|
    ensures var before, after := Summarize(ts, today), Summarize(ts[i := MarkDone(ts[i], stamp)], today);
            && after.stats.total == before.stats.total
            && after.stats.completed == before.stats.completed + (if ts[i].done then 0 else 1)
            && after.stats.pending + (if ts[i].done then 0 else 1) == before.stats.pending
  {
    FilterUpdateLength(ts, i, MarkDone(ts[i], stamp), IsDone);
    FilterUpdateLength(ts, i, MarkDone(ts[i], stamp), Not(IsDone));
  }

  /** A task added with a due text is found again by asking for the same text
      (with the same library and clock). */
  lemma AddThenFindByDate(ts: seq<Task>, title: string, text: string, p: DateParser, clock: Clock)
    requires text != "" && AddOutcome(ts, title, Some(text), p, clock).Added?
    ensures var t := AddOutcome(ts, title, Some(text), p, clock).task;
            var q := TasksByDate(ts + [t], p, text, clock.today);
            q.Ok? && t in q.value.tasks
  {
  }

  /** Ids are not unique: after `delete_task(1)` on tasks numbered 1 and 2, the
      next `add_task` numbers its task 2 again. */
  lemma AddAfterDeleteReusesId(a: Task, b: Task, title: string, p: DateParser, clock: Clock)
    requires a.id == 1 && b.id == 2
    ensures var left := [a, b][..0] + [a, b][1..];
            AddOutcome(left, title, None, p, clock).Added?
            && AddOutcome(left, title, None, p, clock).task.id == b.id
  {
  }
}
