/** The task store of backend/server.py: the MongoDB collection `tasks` of the
    database `task_manager`, held as the sequence of its documents in natural
    (insertion) order. `insert_one`, `delete_one` and `update_one` become
    assignments to that sequence; the read-only queries are functions of it. */
module MongoStore {
  import opened Prelude
  import opened PyStr
  import opened Dates
  import opened DueDates
  import opened Reports

  /** One task document, MongoDB's `_id` left out: no response carries it, since
      `list_tasks` and the date queries project it away, `add_task` pops it and
      `delete_task` copies its snapshot field by field.
      `done` is read with `t.get("done")`, so a document may lack it; `due` is the
      `YYYY-MM-DD` text of the date, or null. */
  datatype Doc = Doc(
    id: int,
    title: string,
    due: Option<Date>,
    done: Option<bool>,
    createdAt: Stamp,
    completedAt: Option<Stamp>)

  /** The copy of a document that `delete_task` returns: no `completed_at`. */
  datatype Snapshot = Snapshot(id: int, title: string, due: Option<Date>, done: Option<bool>, createdAt: Stamp)

  datatype AddResult = Added(doc: Doc) | BadDueDate(receivedDate: string)

  datatype DeleteResult = Deleted(deletedTask: Snapshot) | IdNotInteger | DeleteNotFound(id: int)

  datatype CompleteResult = Completed(task: Doc) | CompleteNotFound(taskId: IdArg)

  datatype Listing = Listing(tasks: seq<Doc>, totalCount: nat)

  datatype DateQuery = DateQuery(date: string, dateInput: string, tasks: seq<Doc>, count: nat)

  datatype RangeQuery = RangeQuery(
    startDate: string,
    endDate: string,
    startInput: string,
    endInput: string,
    tasks: seq<Doc>,
    count: nat,
    rangeDays: int)

  /** No two documents share an id. */
  predicate UniqueIds(docs: seq<Doc>)
  {
    forall i, j :: 0 <= i < j < |docs| ==> docs[i].id != docs[j].id
  }

  // ---------------------------------------------------------------------------
  // get_next_task_id

  /** The largest id: the document `find_one(sort=[("id", -1)])` returns. */
  function MaxId(docs: seq<Doc>): (m: int)
    requires docs != []
    ensures forall d :: d in docs ==> d.id <= m
    ensures exists d :: d in docs && d.id == m
    decreases |docs|
  {
    if |docs| == 1 then docs[0].id
    else
      var rest := MaxId(docs[1..]);
      assert docs == [docs[0]] + docs[1..];
      if docs[0].id > rest then docs[0].id else rest
  }

  /** `get_next_task_id()`: one past the largest id, or 1 for an empty
      collection; it is larger than every id in use. */
  function NextTaskId(docs: seq<Doc>): (r: int)
    ensures docs == [] ==> r == 1
    ensures forall d :: d in docs ==> d.id < r
    ensures docs != [] ==> exists d :: d in docs && d.id == r - 1
  {
    if docs == [] then 1 else MaxId(docs) + 1
  }

  /** A document numbered by `get_next_task_id` keeps the ids unique. */
  lemma NextIdKeepsIdsUnique(docs: seq<Doc>, d: Doc)
    requires UniqueIds(docs) && d.id == NextTaskId(docs)
    ensures UniqueIds(docs + [d])
  {
    var s := docs + [d];
    forall i, j | 0 <= i < j < |s|
      ensures s[i].id != s[j].id
    {
      if j == |docs| {
        assert s[i] in docs;
      }
    }
  }

  // ---------------------------------------------------------------------------
  // add_task

  /** What `add_task` inserts: a given due date that does not parse is rejected,
      echoing it; otherwise the document numbered by `get_next_task_id`, not done,
      due on the parsed date (none when no due date was given). */
  function AddOutcome(docs: seq<Doc>, title: string, due: Option<string>, p: DateParser, clock: Clock)
    : (r: AddResult)
    ensures r.BadDueDate? <==> Given(due) && ParseDueDate(p, due.value, clock.today).None?
    ensures r.BadDueDate? ==> r.receivedDate == due.value
    ensures r.Added? ==> r.doc.id == NextTaskId(docs) && r.doc.title == title && r.doc.done == Some(false)
    ensures r.Added? ==> r.doc.createdAt == clock.stamp && r.doc.completedAt == None
    ensures r.Added? ==> r.doc.due == if Given(due) then ParseDueDate(p, due.value, clock.today) else None
    ensures r.Added? ==> forall d :: d in docs ==> d.id != r.doc.id
  {
    if !Given(due) then Added(Doc(NextTaskId(docs), title, None, Some(false), clock.stamp, None))
    else
      match ParseDueDate(p, due.value, clock.today)
      case None => BadDueDate(due.value)
      case Some(d) => Added(Doc(NextTaskId(docs), title, Some(d), Some(false), clock.stamp, None))
  }

  // ---------------------------------------------------------------------------
  // Queries by id

  /** The position of the document that `find_one({"id": id})`, `delete_one` and
      `update_one` pick: the first with that id in natural order. */
  function FirstWithId(docs: seq<Doc>, id: int): (r: Option<nat>)
    ensures r.None? <==> forall j :: 0 <= j < |docs| ==> docs[j].id != id
    ensures r.Some? ==> r.value < |docs| && docs[r.value].id == id
    ensures r.Some? ==> forall j :: 0 <= j < r.value ==> docs[j].id != id
    decreases |docs|
  {
    if docs == [] then None
    else if docs[0].id == id then Some(0)
    else
      match FirstWithId(docs[1..], id)
      case None => None
      case Some(k) => Some(k + 1)
  }

  /** Once ids are unique, the first document with an id is the only one. */
  lemma FirstIsOnly(docs: seq<Doc>, id: int)
    requires UniqueIds(docs) && FirstWithId(docs, id).Some?
    ensures forall j :: 0 <= j < |docs| && docs[j].id == id ==> j == FirstWithId(docs, id).value
  {
  }

  /** The fields that `delete_task` copies out before deleting. */
  function SnapshotOf(d: Doc): (s: Snapshot)
    ensures s.id == d.id && s.title == d.title && s.due == d.due && s.done == d.done && s.createdAt == d.createdAt
  {
    Snapshot(d.id, d.title, d.due, d.done, d.createdAt)
  }

  /** The `$set` of `complete_task`: done, stamped with the completion time. */
  function MarkDone(d: Doc, stamp: Stamp): (r: Doc)
    ensures r.done == Some(true) && r.completedAt == Some(stamp)
    ensures r.id == d.id && r.title == d.title && r.due == d.due && r.createdAt == d.createdAt
  {
    d.(done := Some(true), completedAt := Some(stamp))
  }

  lemma RemoveKeepsIdsUnique(docs: seq<Doc>, i: nat)
    requires UniqueIds(docs) && i < |docs|
    ensures UniqueIds(docs[..i] + docs[i + 1..])
  {
    var s := docs[..i] + docs[i + 1..];
    forall a, b | 0 <= a < b < |s|
      ensures s[a].id != s[b].id
    {
      var a', b' := if a < i then a else a + 1, if b < i then b else b + 1;
      assert s[a] == docs[a'] && s[b] == docs[b'];
    }
  }

  /** With unique ids, deleting a document leaves none with its id. */
  lemma RemoveLeavesNoId(docs: seq<Doc>, i: nat)
    requires UniqueIds(docs) && i < |docs|
    ensures forall d :: d in docs[..i] + docs[i + 1..] ==> d.id != docs[i].id
  {
    var rest := docs[..i] + docs[i + 1..];
    forall k | 0 <= k < |rest|
      ensures rest[k].id != docs[i].id
    {
      assert rest[k] == docs[if k < i then k else k + 1];
    }
  }

  /** A lookup by id sees the same first position after a document's other
      fields change. */
  lemma FirstWithIdAfterUpdate(docs: seq<Doc>, i: nat, d: Doc, id: int)
    requires i < |docs| && d.id == docs[i].id
    ensures FirstWithId(docs[i := d], id) == FirstWithId(docs, id)
  {
    var s := docs[i := d];
    assert forall j :: 0 <= j < |docs| ==> s[j].id == docs[j].id;
  }

  class TaskCollection {
    /** The documents of the collection, in natural order. */
    var docs: seq<Doc>

    constructor (stored: seq<Doc>)
      ensures docs == stored
    {
      docs := stored;
    }

    /** `add_task(title, due_date)`: on success exactly one document is inserted
        at the end; a rejected due date inserts nothing. Unique ids stay unique. */
    method AddTask(title: string, due: Option<string>, p: DateParser, clock: Clock) returns (r: AddResult)
      modifies this
      ensures r == AddOutcome(old(docs), title, due, p, clock)
      ensures r.Added? ==> docs == old(docs) + [r.doc]
      ensures r.BadDueDate? ==> docs == old(docs)
      ensures UniqueIds(old(docs)) ==> UniqueIds(docs)
    {
      var parsed: Option<Date> := None;
      if Given(due) {
        parsed := ParseDueDate(p, due.value, clock.today);
        if parsed.None? {
          return BadDueDate(due.value);
        }
      }
      var doc := Doc(NextTaskId(docs), title, parsed, Some(false), clock.stamp, None);
      if UniqueIds(docs) {
        NextIdKeepsIdsUnique(docs, doc);
      }
      docs := docs + [doc];
      r := Added(doc);
    }

    /** `delete_task(task_id)`: an error when the id is not an integer; otherwise
        the first document with that id is deleted and its snapshot returned, or
        an error reports the id when none has it and nothing changes. With unique
        ids no document with the deleted id remains. */
    method DeleteTask(taskId: IdArg) returns (r: DeleteResult)
      modifies this
      ensures match ToInt(taskId)
              case None => r == IdNotInteger && docs == old(docs)
              case Some(id) =>
                match FirstWithId(old(docs), id)
                case None => r == DeleteNotFound(id) && docs == old(docs)
                case Some(i) => r == Deleted(SnapshotOf(old(docs)[i])) && docs == old(docs)[..i] + old(docs)[i + 1..]
      ensures UniqueIds(old(docs)) ==> UniqueIds(docs)
      ensures UniqueIds(old(docs)) && r.Deleted? ==> forall d :: d in docs ==> d.id != r.deletedTask.id
    {
      var n := ToInt(taskId);
      if n.None? {
        return IdNotInteger;
      }
      var at := FirstWithId(docs, n.value);
      if at.None? {
        return DeleteNotFound(n.value);
      }
      var i := at.value;
      r := Deleted(SnapshotOf(docs[i]));
      if UniqueIds(docs) {
        RemoveKeepsIdsUnique(docs, i);
        RemoveLeavesNoId(docs, i);
      }
      docs := docs[..i] + docs[i + 1..];
    }

    /** `complete_task(task_id)`: `update_one` marks the first document with
        that int id done and stamps it, and the re-read with `find_one` returns
        the updated document; no match is an error and changes nothing. A repeat
        call re-stamps `completed_at`. */
    method CompleteTask(taskId: IdArg, clock: Clock) returns (r: CompleteResult)
      modifies this
      ensures match taskId
              case StrArg(_) => r == CompleteNotFound(taskId) && docs == old(docs)
              case IntArg(id) =>
                match FirstWithId(old(docs), id)
                case None => r == CompleteNotFound(taskId) && docs == old(docs)
                case Some(i) => docs == old(docs)[i := MarkDone(old(docs)[i], clock.stamp)] && r == Completed(docs[i])
      ensures UniqueIds(old(docs)) ==> UniqueIds(docs)
    {
      if taskId.StrArg? {
        return CompleteNotFound(taskId);
      }
      var matched := FirstWithId(docs, taskId.n);
      if matched.None? {
        return CompleteNotFound(taskId);
      }
      var i := matched.value;
      FirstWithIdAfterUpdate(docs, i, MarkDone(docs[i], clock.stamp), taskId.n);
      docs := docs[i := MarkDone(docs[i], clock.stamp)];
      var reread := FirstWithId(docs, taskId.n);
      r := Completed(docs[reread.value]);
    }
  }

  // ---------------------------------------------------------------------------
  // list_tasks

  predicate SortedById(s: seq<Doc>)
  {
    forall i, j :: 0 <= i < j < |s| ==> s[i].id <= s[j].id
  }

  lemma SortedTail(s: seq<Doc>)
    requires SortedById(s) && s != []
    ensures SortedById(s[1..])
  {
  }

  /** The first element of an id-sorted list has the smallest id. */
  lemma SortedHead(s: seq<Doc>)
    requires SortedById(s) && s != []
    ensures forall y :: y in s ==> s[0].id <= y.id
  {
    forall y | y in s
      ensures s[0].id <= y.id
    {
      var j :| 0 <= j < |s| && s[j] == y;
      if j > 0 {
        assert s[0].id <= s[j].id;
      }
    }
  }

  lemma SortedCons(x: Doc, r: seq<Doc>)
    requires SortedById(r) && forall y :: y in r ==> x.id <= y.id
    ensures SortedById([x] + r)
  {
    var s := [x] + r;
    forall i, j | 0 <= i < j < |s|
      ensures s[i].id <= s[j].id
    {
      assert s[j] == r[j - 1];
      if i > 0 {
        assert s[i] == r[i - 1];
      } else {
        assert r[j - 1] in r;
      }
    }
  }

  function Insert(d: Doc, s: seq<Doc>): (r: seq<Doc>)
    requires SortedById(s)
    ensures SortedById(r)
    ensures multiset(r) == multiset(s) + multiset{d}
    ensures |r| == |s| + 1
    decreases |s|
  {
    if s == [] then [d]
    else if d.id <= s[0].id then
      SortedHead(s);
      SortedCons(d, s);
      [d] + s
    else
      SortedTail(s);
      var rest := Insert(d, s[1..]);
      assert s == [s[0]] + s[1..];
      SortedHead(s);
      assert forall y :: y in rest ==> s[0].id <= y.id by {
        forall y | y in rest
          ensures s[0].id <= y.id
        {
          assert y in multiset(rest);
          if y != d {
            assert y in multiset(s[1..]);
            assert y in s;
          }
        }
      }
      SortedCons(s[0], rest);
      [s[0]] + rest
  }

  /** `find({}, {"_id": 0}).sort("id", 1)`: the documents in ascending id order. */
  function SortById(docs: seq<Doc>): (r: seq<Doc>)
    ensures SortedById(r)
    ensures multiset(r) == multiset(docs)
    ensures |r| == |docs|
    decreases |docs|
  {
    if docs == [] then []
    else
      assert docs == [docs[0]] + docs[1..];
      Insert(docs[0], SortById(docs[1..]))
  }

  /** `list_tasks()`: all documents, each as often as stored, in ascending id
      order, with their number. */
  function ListTasks(docs: seq<Doc>): (r: Listing)
    ensures SortedById(r.tasks)
    ensures multiset(r.tasks) == multiset(docs)
    ensures r.totalCount == |r.tasks| == |docs|
  {
    var sorted := SortById(docs);
    Listing(sorted, |sorted|)
  }

  /** Sorting what is already in id order changes nothing, so listing the
      listed documents gives them back. */
  lemma {:induction false} SortSortedIsIdentity(s: seq<Doc>)
    requires SortedById(s)
    ensures SortById(s) == s
    decreases |s|
  {
    if s != [] {
      SortSortedIsIdentity(s[1..]);
      if |s| > 1 {
        assert s[0].id <= s[1].id;
      }
      assert [s[0]] + s[1..] == s;
    }
  }

  // ---------------------------------------------------------------------------
  // summarize_tasks

  /** `t.get("done")` is truthy: a document without the field is pending. */
  function IsDone(d: Doc): bool
  {
    d.done == Some(true)
  }

  function OverdueOn(today: Date): Doc -> bool
  {
    (d: Doc) => DueBefore(d.due, today)
  }

  lemma OverdueOnMeans(today: Date)
    ensures forall d: Doc :: OverdueOn(today)(d) <==> d.due.Some? && Before(d.due.value, today)
  {
    forall d: Doc
      ensures OverdueOn(today)(d) <==> d.due.Some? && Before(d.due.value, today)
    {
      DueBeforeMeans(d.due, today);
    }
  }

  /** `summarize_tasks()`: completed are the documents whose `done` is true,
      pending all others (a missing `done` included), each document in exactly
      one; overdue are the pending ones due before today. */
  function Summarize(docs: seq<Doc>, today: Date): (s: Summary<Doc>)
    ensures s.completed == Filter(docs, (d: Doc) => d.done == Some(true))
    ensures s.pending == Filter(docs, (d: Doc) => d.done != Some(true))
    ensures forall d :: d in s.completed <==> d in docs && d.done == Some(true)
    ensures forall d :: d in s.pending <==> d in docs && d.done != Some(true)
    ensures multiset(s.pending) + multiset(s.completed) == multiset(docs)
    ensures s.overdue == Filter(s.pending, (d: Doc) => d.due.Some? && Before(d.due.value, today))
    ensures |s.overdue| <= |s.pending|
    ensures s.stats == Stats(|docs|, |s.pending|, |s.completed|, |s.overdue|)
    ensures s.stats.total == s.stats.pending + s.stats.completed
    ensures s.text == SummaryText(s.stats.pending, s.stats.completed, s.stats.overdue)
  {
    var done := Filter(docs, IsDone);
    var pending := Filter(docs, Not(IsDone));
    FilterPartition(docs, IsDone);
    FilterExt(docs, IsDone, (d: Doc) => d.done == Some(true));
    FilterExt(docs, Not(IsDone), (d: Doc) => d.done != Some(true));
    OverdueOnMeans(today);
    var overdue := Filter(pending, OverdueOn(today));
    FilterExt(pending, OverdueOn(today), (d: Doc) => d.due.Some? && Before(d.due.value, today));
    MakeSummary(|docs|, pending, done, overdue)
  }

  // ---------------------------------------------------------------------------
  // tasks_by_date and tasks_by_range

  function DueOnDay(day: Date): Doc -> bool
  {
    (d: Doc) => DueOn(d.due, day)
  }

  lemma DueOnDayMeans(day: Date)
    ensures forall d: Doc :: DueOnDay(day)(d) <==> d.due == Some(day)
  {
    forall d: Doc
      ensures DueOnDay(day)(d) <==> d.due == Some(day)
    {
      DueOnMeans(d.due, day);
    }
  }

  /** `tasks_by_date(date)`: an error echoing the text when it does not parse;
      otherwise `find({"due_date": parsed})`, the documents due on exactly that
      day, in natural order. */
  function TasksByDate(docs: seq<Doc>, p: DateParser, date: string, today: Date)
    : (r: Result<DateQuery, string>)
    ensures r.Err? <==> ParseDueDate(p, date, today).None?
    ensures r.Err? ==> r.error == date
    ensures r.Ok? ==>
              var day := ParseDueDate(p, date, today).value;
              && r.value.date == Format(day) && r.value.dateInput == date
              && r.value.tasks == Filter(docs, (d: Doc) => d.due == Some(day))
              && r.value.count == |r.value.tasks|
  {
    match ParseDueDate(p, date, today)
    case None => Err(date)
    case Some(day) =>
      DueOnDayMeans(day);
      var hits := Filter(docs, DueOnDay(day));
      FilterExt(docs, DueOnDay(day), (d: Doc) => d.due == Some(day));
      Ok(DateQuery(Format(day), date, hits, |hits|))
  }

  function DueInSpan(s: Span): Doc -> bool
  {
    (d: Doc) => DueWithin(d.due, s)
  }

  lemma DueInSpanMeans(s: Span)
    ensures forall d: Doc :: DueInSpan(s)(d) <==>
              d.due.Some? && !Before(d.due.value, s.start) && !Before(s.end, d.due.value)
  {
    forall d: Doc
      ensures DueInSpan(s)(d) <==> d.due.Some? && !Before(d.due.value, s.start) && !Before(s.end, d.due.value)
    {
      DueWithinMeans(d.due, s);
    }
  }

  /** `tasks_by_range(start, end)`: the resolution errors of the endpoints, or
      `find({"due_date": {"$gte": start, "$lte": end}})` on the texts of the two
      resolved days, start first: the documents due inside the inclusive range
      (null due dates never match), in natural order, with the range's length in
      days (at least one). */
  function TasksByRange(docs: seq<Doc>, p: DateParser, start: string, end: Option<string>, today: Date)
    : (r: Result<RangeQuery, RangeError>)
    ensures r.Err? <==> ResolveRange(p, start, end, today).Err?
    ensures r.Err? ==> r.error == ResolveRange(p, start, end, today).error
    ensures r.Ok? ==>
              var s := ResolveRange(p, start, end, today).value;
              && r.value.startDate == Format(s.start) && r.value.endDate == Format(s.end)
              && StrLessEq(r.value.startDate, r.value.endDate)
              && r.value.tasks == Filter(docs, (d: Doc) =>
                   d.due.Some? && !Before(d.due.value, s.start) && !Before(s.end, d.due.value))
              && r.value.count == |r.value.tasks|
              && r.value.rangeDays == RangeDays(s) && r.value.rangeDays >= 1
    ensures r.Ok? ==> r.value.startInput == start
    ensures r.Ok? ==> r.value.endInput == if Given(end) then end.value else "same as start"
  {
    match ResolveRange(p, start, end, today)
    case Err(e) => Err(e)
    case Ok(s) =>
      FormatOrderEq(s.start, s.end);
      DueInSpanMeans(s);
      var hits := Filter(docs, DueInSpan(s));
      FilterExt(docs, DueInSpan(s), (d: Doc) => d.due.Some? && !Before(d.due.value, s.start) && !Before(s.end, d.due.value));
      Ok(RangeQuery(Format(s.start), Format(s.end), start,
                    if Given(end) then end.value else "same as start",
                    hits, |hits|, RangeDays(s)))
  }

  // ---------------------------------------------------------------------------
  // Properties across operations

  /** A document just added is pending: the summary gains one pending document
      and one in total, and the completed count stays. */
  lemma AddedDocIsPending(docs: seq<Doc>, title: string, due: Option<string>, p: DateParser, clock: Clock)
    requires AddOutcome(docs, title, due, p, clock).Added?
    ensures var d := AddOutcome(docs, title, due, p, clock).doc;
            var before, after := Summarize(docs, clock.today), Summarize(docs + [d], clock.today);
            && after.stats.pending == before.stats.pending + 1
            && after.stats.completed == before.stats.completed
            && after.stats.total == before.stats.total + 1
  {
    var d := AddOutcome(docs, title, due, p, clock).doc;
    FilterSnoc(docs, d, IsDone);
    FilterSnoc(docs, d, Not(IsDone));
  }

  /** Completing a pending document (a missing `done` included) moves it from
      pending to completed; completing a done one changes no count. */
  lemma CompleteMovesDoc(docs: seq<Doc>, i: nat, stamp: Stamp, today: Date)
    requires i < |docs|
    ensures var before, after := Summarize(docs, today), Summarize(docs[i := MarkDone(docs[i], stamp)], today);
            && after.stats.total == before.stats.total
            && after.stats.completed == before.stats.completed + (if IsDone(docs[i]) then 0 else 1)
            && after.stats.pending + (if IsDone(docs[i]) then 0 else 1) == before.stats.pending
  {
    FilterUpdateLength(docs, i, MarkDone(docs[i], stamp), IsDone);
    FilterUpdateLength(docs, i, MarkDone(docs[i], stamp), Not(IsDone));
  }

  lemma {:induction false} InsertBeforeLarger(x: Doc, l: seq<Doc>, d: Doc)
    requires SortedById(l) && SortedById(l + [d]) && x.id < d.id
    ensures Insert(x, l + [d]) == Insert(x, l) + [d]
    decreases |l|
  {
    if l == [] {
      assert l + [d] == [d];
    } else if x.id > l[0].id {
      assert (l + [d])[0] == l[0];
      assert (l + [d])[1..] == l[1..] + [d];
      SortedTail(l);
      SortedTail(l + [d]);
      InsertBeforeLarger(x, l[1..], d);
    }
  }

  /** A document with an id above all others sorts to the end. */
  lemma {:induction false} SortAppendLargest(s: seq<Doc>, d: Doc)
    requires forall e :: e in s ==> e.id < d.id
    ensures SortById(s + [d]) == SortById(s) + [d]
    decreases |s|
  {
    if s == [] {
      assert s + [d] == [d];
      assert [d][1..] == [];
    } else {
      var t := s + [d];
      assert t[0] == s[0] && t[1..] == s[1..] + [d];
      SortAppendLargest(s[1..], d);
      var sorted := SortById(s[1..]);
      assert SortedById(sorted + [d]) by {
        forall i, j | 0 <= i < j < |sorted + [d]|
          ensures (sorted + [d])[i].id <= (sorted + [d])[j].id
        {
          if j == |sorted| {
            assert sorted[i] in multiset(sorted);
            assert sorted[i] in s[1..];
          }
        }
      }
      InsertBeforeLarger(s[0], sorted, d);
    }
  }

  /** `list_tasks` after `add_task` is the earlier listing with the new
      document at the end, since its id is the largest. */
  lemma AddedDocListedLast(docs: seq<Doc>, title: string, due: Option<string>, p: DateParser, clock: Clock)
    requires AddOutcome(docs, title, due, p, clock).Added?
    ensures var d := AddOutcome(docs, title, due, p, clock).doc;
            ListTasks(docs + [d]).tasks == ListTasks(docs).tasks + [d]
  {
    SortAppendLargest(docs, AddOutcome(docs, title, due, p, clock).doc);
  }

  /** Ids can come back: once the document with the largest id is deleted, the
      next `add_task` hands out that id again. */
  lemma DeleteMaxThenAddReusesId(a: Doc, b: Doc, title: string, p: DateParser, clock: Clock)
    requires a.id == 1 && b.id == 2
    ensures var left := [a, b][..1] + [a, b][2..];
            AddOutcome(left, title, None, p, clock).Added?
            && AddOutcome(left, title, None, p, clock).doc.id == b.id
  {
    assert [a, b][..1] + [a, b][2..] == [a];
  }
}
