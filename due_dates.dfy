/** Due-date resolution shared by both task servers: the fallback cascade of
    `parse_due_date`, the endpoint resolution of `tasks_by_range`, and the
    due-date tests the queries apply, written as the code writes them (on the
    `YYYY-MM-DD` strings) and proved equal to their chronological meaning.

    The natural-language library (`dateparser.parse`, `dateparser.search.search_dates`)
    is an oracle: a DateParser value whose functions may answer anything. */
module DueDates {
  import opened Prelude
  import opened PyStr
  import opened Dates

  /** `datetime.now().isoformat()`: only stored and returned, never inspected. */
  type Stamp = string

  /** The clock reading of one tool call: today's date and the timestamp text. */
  datatype Clock = Clock(today: Date, stamp: Stamp)

  /** The settings a `dateparser.parse` call passes besides PREFER_DATES_FROM
      'future': its RELATIVE_BASE and whether it sets TIMEZONE 'UTC'. */
  datatype ParseSettings = ParseSettings(base: Date, utc: bool)

  /** The external date library. `parse` is `dateparser.parse` (None when it
      returns None); `search` lists the dates of the hits of `search_dates`, in
      the order it returns them ([] when it returns None or an empty list). */
  datatype DateParser = DateParser(
    parse: (string, ParseSettings) -> Option<Date>,
    search: string -> seq<Date>)

  /** Python truthiness of an optional str argument: given and not empty. */
  predicate Given(s: Option<string>)
  {
    s.Some? && s.value != ""
  }

  /** The direct parse that `parse_due_date` tries first. */
  function DirectParse(p: DateParser, text: string, today: Date): Option<Date>
  {
    p.parse(text, ParseSettings(today, true))
  }

  /** `parse_due_date(text)`: no date for empty text (the library is not
      consulted); otherwise the direct parse if it succeeds, else the first date
      that the embedded-date search finds, else no date. */
  function ParseDueDate(p: DateParser, text: string, today: Date): (r: Option<Date>)
    ensures text == "" ==> r == None
    ensures r.None? <==> text == "" || (DirectParse(p, text, today).None? && p.search(text) == [])
    ensures r.Some? && DirectParse(p, text, today).Some? ==> r == DirectParse(p, text, today)
    ensures r.Some? && DirectParse(p, text, today).None? ==> r.value == p.search(text)[0]
  {
    if text == "" then None
    else
      match DirectParse(p, text, today)
      case Some(d) => Some(d)
      case None =>
        var hits := p.search(text);
        if |hits| > 0 then Some(hits[0]) else None
  }

  // ---------------------------------------------------------------------------
  // Ranges

  datatype RangeError = BadStart(receivedStart: string) | BadEnd(receivedEnd: string)

  /** A resolved range, from its first to its last day. */
  datatype Span = Span(start: Date, end: Date)

  /** The swap in `tasks_by_range`: the two endpoints, earlier first. */
  function Ordered(a: Date, b: Date): (s: Span)
    ensures !Before(s.end, s.start)
    ensures (s.start == a && s.end == b) || (s.start == b && s.end == a)
  {
    if Before(b, a) then Span(b, a) else Span(a, b)
  }

  /** After the swap the order in which the endpoints came does not matter. */
  lemma OrderedSymmetric(a: Date, b: Date)
    ensures Ordered(a, b) == Ordered(b, a)
  {
    BeforeTotal(a, b);
  }

  /** The parse of the start text: relative to today, without the UTC setting. */
  function StartParse(p: DateParser, start: string, today: Date): Option<Date>
  {
    p.parse(start, ParseSettings(today, false))
  }

  /** The parse of the end text: relative to the parsed start. */
  function EndParse(p: DateParser, end: string, base: Date): Option<Date>
  {
    p.parse(end, ParseSettings(base, false))
  }

  /** The endpoints of `tasks_by_range(start, end)`: an error echoing the start
      text when it does not parse; with no end, the single day of the start; an
      error echoing the end text when it does not parse; otherwise both parsed
      dates, earlier first. */
  function ResolveRange(p: DateParser, start: string, end: Option<string>, today: Date)
    : (r: Result<Span, RangeError>)
    ensures StartParse(p, start, today).None? <==> r == Err(BadStart(start))
    ensures StartParse(p, start, today).Some? && !Given(end) ==>
              var s := StartParse(p, start, today).value; r == Ok(Span(s, s))
    ensures StartParse(p, start, today).Some? && Given(end) ==>
              var s := StartParse(p, start, today).value;
              match EndParse(p, end.value, s)
              case None => r == Err(BadEnd(end.value))
              case Some(e) => r.Ok? && !Before(r.value.end, r.value.start)
                              && ((r.value.start == s && r.value.end == e) || (r.value.start == e && r.value.end == s))
  {
    match StartParse(p, start, today)
    case None => Err(BadStart(start))
    case Some(s) =>
      if !Given(end) then Ok(Span(s, s))
      else
        match EndParse(p, end.value, s)
        case None => Err(BadEnd(end.value))
        case Some(e) => Ok(Ordered(s, e))
  }

  /** `(end - start).days + 1` on the resolved dates. */
  function RangeDays(s: Span): (n: int)
    ensures !Before(s.end, s.start) ==> n >= 1
    ensures n == 1 <==> s.start == s.end
  {
    OrdinalOrder(s.start, s.end);
    Ordinal(s.end) - Ordinal(s.start) + 1
  }

  /** Every range that `tasks_by_range` reports spans at least one day. */
  lemma ResolvedRangeDays(p: DateParser, start: string, end: Option<string>, today: Date)
    requires ResolveRange(p, start, end, today).Ok?
    ensures RangeDays(ResolveRange(p, start, end, today).value) >= 1
  {
  }

  // ---------------------------------------------------------------------------
  // Due-date tests, as written on the stored strings

  /** `t["due_date"] and t["due_date"] < today` */
  predicate DueBefore(due: Option<Date>, today: Date)
  {
    due.Some? && StrLess(Format(due.value), Format(today))
  }

  /** `t["due_date"] == parsed_due_date` */
  predicate DueOn(due: Option<Date>, d: Date)
  {
    due.Some? && Format(due.value) == Format(d)
  }

  /** `t.get("due_date") and start_date_str <= t["due_date"] <= end_date_str` */
  predicate DueWithin(due: Option<Date>, s: Span)
  {
    due.Some? && StrLessEq(Format(s.start), Format(due.value)) && StrLessEq(Format(due.value), Format(s.end))
  }

  /** Overdue means due on an earlier day than today. */
  lemma DueBeforeMeans(due: Option<Date>, today: Date)
    ensures DueBefore(due, today) <==> due.Some? && Before(due.value, today)
  {
    if due.Some? {
      FormatOrder(due.value, today);
    }
  }

  /** Matching the date text means being due on that very day. */
  lemma DueOnMeans(due: Option<Date>, d: Date)
    ensures DueOn(due, d) <==> due == Some(d)
  {
    if due.Some? {
      FormatOrder(due.value, d);
    }
  }

  /** The string range test is the inclusive day range, by date and by day number. */
  lemma DueWithinMeans(due: Option<Date>, s: Span)
    ensures DueWithin(due, s) <==> due.Some? && !Before(due.value, s.start) && !Before(s.end, due.value)
    ensures DueWithin(due, s) <==>
              due.Some? && Ordinal(s.start) <= Ordinal(due.value) <= Ordinal(s.end)
  {
    if due.Some? {
      FormatOrderEq(s.start, due.value);
      FormatOrderEq(due.value, s.end);
      OrdinalOrder(s.start, due.value);
      OrdinalOrder(due.value, s.end);
    }
  }

  /** The range test depends only on the unordered pair of resolved endpoints. */
  lemma DueWithinSymmetric(due: Option<Date>, a: Date, b: Date)
    ensures DueWithin(due, Ordered(a, b)) == DueWithin(due, Ordered(b, a))
  {
    OrderedSymmetric(a, b);
  }
}
