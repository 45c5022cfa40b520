/** The report that `summarize_tasks` returns, common to both task servers. */
module Reports {
  import opened PyStr

  datatype Stats = Stats(total: nat, pending: nat, completed: nat, overdue: nat)

  datatype Summary<T> = Summary(
    text: string,
    pending: seq<T>,
    completed: seq<T>,
    overdue: seq<T>,
    stats: Stats)

  /** The sentence of the report; the overdue clause appears only when some task is overdue. */
  function SummaryText(pending: nat, completed: nat, overdue: nat): (s: string)
    ensures StartsWith(s, "You have " + Natural(pending) + " pending and " + Natural(completed) + " completed tasks.")
    ensures overdue == 0 ==> s == "You have " + Natural(pending) + " pending and " + Natural(completed) + " completed tasks."
    ensures overdue > 0 ==> s[|"You have " + Natural(pending) + " pending and " + Natural(completed) + " completed tasks."|..]
                             == " " + Natural(overdue) + " tasks are overdue."
    ensures overdue == 0 <==> EndsWith(s, " completed tasks.")
    ensures overdue > 0 ==> EndsWith(s, " " + Natural(overdue) + " tasks are overdue.")
  {
    var head := "You have " + Natural(pending) + " pending and " + Natural(completed) + " completed tasks.";
    if overdue > 0 then
      var tail := " " + Natural(overdue) + " tasks are overdue.";
      var s := head + tail;
      assert s[|s| - 2] == tail[|tail| - 2] == 'e';
      s
    else head
  }

  /** The report over three lists, with its counts. */
  function MakeSummary<T>(total: nat, pending: seq<T>, completed: seq<T>, overdue: seq<T>): (r: Summary<T>)
    ensures r.pending == pending && r.completed == completed && r.overdue == overdue
    ensures r.stats == Stats(total, |pending|, |completed|, |overdue|)
    ensures r.text == SummaryText(|pending|, |completed|, |overdue|)
  {
    Summary(SummaryText(|pending|, |completed|, |overdue|), pending, completed, overdue,
            Stats(total, |pending|, |completed|, |overdue|))
  }
}
