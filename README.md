# Smart Task Assistant — a verified model of its task stores and notification helpers

Smart Task Assistant is a chat assistant. Its tools manage a to-do list of
tasks, each with an optional due date written in natural language ("tomorrow",
"next Monday"). The list lives in one of two stores:

- `server.py` keeps the tasks in a JSON file (`tasks.json`).
- `backend/server.py` keeps them in the MongoDB collection `task_manager.tasks`.

A third server, `backend/server_notif.py`, sends and reads e-mail through the
Testmail API.

This Dafny project models:

- **Both task stores.** Each has the operations `add_task`, `delete_task`,
  `list_tasks`, `complete_task`, `summarize_tasks`, `tasks_by_date` and
  `tasks_by_range`, plus the shared date handling `parse_due_date` and
  endpoint resolution of a range.
- **The string logic of the notification tools.** These are the default
  sender, the HTML-to-text conversion, the notification style and subject, the
  limit cap, the preview truncation, the key masking, and the test addresses
  and inbox URLs.

Layout, module by module:

- `prelude.dfy` (`Prelude`): `Option` and `Result`. `Filter` is Python's list
  comprehension `[x for x in s if p(x)]`, with its partition and concatenation
  lemmas.
- `pystr.dfy` (`PyStr`): the `str` and `int` behaviour the code relies on:
  - `<` on strings (`StrLess`);
  - `str(n)` and `int(s)`, with the round trip `int(str(n)) == n`;
  - ASCII `lower`/`upper`;
  - `str.replace`.
- `dates.dfy` (`Dates`): dates as `datetime` holds them (years 1..9999) and
  their `%Y-%m-%d` text. It proves that ISO texts sort in calendar order, and
  defines `toordinal`, on which `(end - start).days` rests.
- `due_dates.dfy` (`DueDates`):
  - the date library (`dateparser.parse`, `search_dates`) as an oracle value;
  - the fallback of `parse_due_date`;
  - the endpoint resolution and swap of `tasks_by_range`;
  - the due-date tests exactly as the code writes them on strings, each
    proved equal to its calendar meaning.
- `reports.dfy` (`Reports`): the report of `summarize_tasks`.
- `json_store.dfy` (`JsonStore`): `server.py`. The class `TaskFile` holds the
  file's array as a `seq` field, and its methods update it.
- `mongo_store.dfy` (`MongoStore`): `backend/server.py`. The class
  `TaskCollection` holds the collection's documents in natural order.
  Id assignment (`get_next_task_id`), lookup by id, and the id-sorted listing
  are proved, and every mutator keeps ids unique.
- `notif.dfy` (`Notif`): `backend/server_notif.py`.

The date library, the clock and the stored configuration are parameters:

- `DateParser` holds the two library calls as functions.
- `Clock` is today's date and the `isoformat()` stamp.
- `Option<Config>` stands for the configuration file, `None` when the file
  is absent.

Some points of the stores' behaviour, as the code has it:

- **Ids in `server.py`.** `add_task` numbers a task `len(tasks) + 1`, so ids
  repeat after a delete (`JsonStore.AddAfterDeleteReusesId`).
- **Ids in `backend/server.py`.** `get_next_task_id` uses the largest id +
  1. This keeps ids unique (`MongoStore.NextIdKeepsIdsUnique`), but once the
  largest document is deleted its id is handed out again
  (`MongoStore.DeleteMaxThenAddReusesId`).
- **Listing order in `server.py`.** `list_tasks` returns the tasks in stored
  order, not sorted by id. Only the MongoDB store sorts.
- **Id conversion in `complete_task`.** Neither store converts the id, so an
  id that arrives as a string never matches. `delete_task` converts with
  `int()`.

## Model

Some definitions carry no contract of their own; the lemmas about them state their meaning, and those rows stand in for them:
- `PyStr.ParseInt` (`int(s)` on a str): `PyStr.ParseNumeral`, `PyStr.ParseNegatedNumeral`, `PyStr.ParseIntNeedsDigit`, `PyStr.DecimalRoundTrip`, `PyStr.ToInt`.
- `PyStr.StrLess` (`<` on str): `PyStr.StrLessConcat`, `Dates.PaddedOrder`, `Dates.FormatOrder`.
- `PyStr.Natural` and `PyStr.Decimal` (`str(n)` and the numbers in f-strings): `PyStr.NaturalIsNumeral`, `PyStr.DecimalRoundTrip`.
- `DueDates.DueBefore`, `DueDates.DueOn` and `DueDates.DueWithin` (the comprehension tests of `summarize_tasks`, `tasks_by_date` and `tasks_by_range`): `DueDates.DueBeforeMeans`, `DueDates.DueOnMeans`, `DueDates.DueWithinMeans`.
- `PyStr.StrLessEq` (`<=` on str): `Dates.FormatOrderEq`.
- `DueDates.Given` (Python truthiness of an optional str argument: `if due_date:`, `if end:`, `if not default_from`, `if tag`): `JsonStore.AddOutcome`, `MongoStore.AddOutcome`, `DueDates.ResolveRange`, `Notif.Configure`, `Notif.InboxUrl`, `Notif.SendEmail`.
- `DueDates.DirectParse` (the `date_parse` call with UTC and today as the relative base): `DueDates.ParseDueDate`.
- `DueDates.StartParse` and `DueDates.EndParse` (the two parses of `tasks_by_range`, relative to today and to the parsed start): `DueDates.ResolveRange`.
- `Notif.Styles` (the colour and icon dictionaries of `send_notification`): `Notif.StyleOf`.
- `JsonStore.IsDone` (`t["done"]`) and `MongoStore.IsDone` (`t.get("done")`): `JsonStore.Summarize`, `MongoStore.Summarize`.

| member | source | states |
|---|---|---|
| Prelude.Filter | server.py:130-131 | a list comprehension `[t for t in s if p(t)]` is no longer than s and holds exactly the elements of s that satisfy p |
| Prelude.FilterExt | server.py:135 | two conditions that agree on every element select the same list, in the same order |
| Prelude.FilterPartition | server.py:130-131 | the done and not-done comprehensions split the list: every task is in exactly one, and the lengths add up to the total |
| Prelude.FilterConcat | server.py:170-172 | a comprehension over a concatenation is the concatenation of the comprehensions, order kept |
| PyStr.StrLessConcat | server.py:135 | comparing two strings that start with pieces of equal width compares those pieces first and the rests only when the pieces are equal; the same holds for equality |
| PyStr.NaturalIsNumeral | server.py:137 | `str(n)` of a natural number is a numeral of digits only, whose value is n |
| PyStr.ParseNumeral | server.py:86 | `int(t)` of a numeral is its value |
| PyStr.ParseNegatedNumeral | server.py:86 | `int("-" + t)` of a numeral is its value negated |
| PyStr.ToInt | server.py:85-88 | `int(task_id)`: an int is kept; a str is read as a decimal numeral, and a non-numeral yields no value (the ValueError) |
| PyStr.TrimStartIsSuffix | server.py:86 | the whitespace that `int()` strips from the start leaves a suffix of the text |
| PyStr.TrimEndIsPrefix | server.py:86 | the whitespace that `int()` strips from the end leaves a prefix of the text |
| PyStr.ParseIntNeedsDigit | server.py:85-88 | `int(s)` raises ValueError (no value) for every text without a digit, the empty and the blank text included |
| PyStr.DecimalRoundTrip | server.py:86 | `int(str(n)) == n` for every integer n |
| PyStr.Lower | backend/server_notif.py:213-214 | `.lower()` keeps the length |
| PyStr.Upper | backend/server_notif.py:236 | `.upper()` keeps the length |
| PyStr.LowerIdempotent | backend/server_notif.py:213-214 | lower-casing twice is lower-casing once |
| PyStr.UpperOfLower | backend/server_notif.py:236 | upper-casing after lower-casing is upper-casing |
| PyStr.LowerOfUpper | backend/server_notif.py:213 | lower-casing after upper-casing is lower-casing |
| PyStr.Replace | backend/server_notif.py:137 | `str.replace` never lengthens a string when the replacement is no longer than the pattern |
| PyStr.ReplaceMiss | backend/server_notif.py:137 | a first character that cannot start the pattern is copied and the scan moves one character on |
| PyStr.ReplaceAbsent | backend/server_notif.py:137 | a string in which the pattern's first character never occurs is left unchanged |
| PyStr.ReplaceKeepsPlainPrefix | backend/server_notif.py:137 | text in which no occurrence of the pattern can start is copied, and the replacement goes on after it |
| PyStr.ReplaceHit | backend/server_notif.py:137 | the first occurrence of the pattern becomes the replacement, and the replacement goes on after it |
| Dates.Format | server.py:43 | `strftime("%Y-%m-%d")` is 10 characters with dashes at positions 4 and 7 |
| Dates.FormatFields | server.py:43 | characters 0-3, 5-6 and 8-9 of the text are the zero-padded year, month and day |
| Dates.PaddedOrder | server.py:43 | zero-padded fixed-width numerals compare as strings exactly as the numbers compare, and are equal only for equal numbers |
| Dates.FormatOrder | server.py:135 | string `<` on two dates' texts is exactly "earlier day", and equal texts mean the same date |
| Dates.FormatOrderEq | server.py:239 | string `<=` on two dates' texts is "not later" |
| Dates.Ordinal | server.py:249 | `toordinal`: 0001-01-01 is day 1, and every day of a year is numbered after all the days of the years before it |
| Dates.OrdinalNextDay | server.py:249 | the day after a date (next day of the month, first of the next month, or New Year) has the next ordinal |
| Dates.OrdinalIncreases | server.py:249 | an earlier day has a smaller ordinal |
| Dates.OrdinalOrder | server.py:249 | `toordinal` is strictly increasing in the date and distinguishes dates |
| DueDates.ParseDueDate | server.py:24-50 | `parse_due_date` (the same code is at backend/server.py:26-52): empty text yields no date; otherwise the direct parse relative to today, or else the first embedded date found, or no date when neither finds one |
| DueDates.Ordered | server.py:230-231 | the swap of `tasks_by_range`: the same two dates with the earlier one first |
| DueDates.OrderedSymmetric | server.py:230-231 | after the swap the order in which the endpoints were given does not matter |
| DueDates.ResolveRange | server.py:197-227 | an unparsable start is an error echoing it; with no end the range is the start day alone; an unparsable end (parsed relative to the start) is an error echoing it; otherwise both dates, earlier first |
| DueDates.RangeDays | server.py:249 | `(end - start).days + 1` is at least 1 for an ordered range and is 1 exactly for a single day |
| DueDates.ResolvedRangeDays | server.py:249 | every resolved range reports at least one day |
| DueDates.DueBeforeMeans | server.py:135 | `due_date and due_date < today` holds exactly for tasks due on an earlier day |
| DueDates.DueOnMeans | server.py:171 | `due_date == parsed` holds exactly for tasks due on that day |
| DueDates.DueWithinMeans | server.py:239 | `due_date and start <= due_date <= end` holds exactly for tasks due inside the inclusive range, by calendar and by day number |
| DueDates.DueWithinSymmetric | server.py:229-240 | the range filter is the same whichever endpoint came first |
| Reports.SummaryText | server.py:137-139 | the sentence is "You have P pending and C completed tasks." with the two counts, alone when nothing is overdue and otherwise followed by exactly " O tasks are overdue." |
| Reports.MakeSummary | server.py:141-152 | the report carries the three lists, their counts and the total |
| JsonStore.AddOutcome | server.py:57-72 | a given due text that does not parse is rejected and echoed; otherwise the task has id `len(tasks)+1`, is not done, has the creation stamp, and is due on the parsed date (none without a due text) |
| JsonStore.FindTask | server.py:91-92 | the scan finds the first task with the id, and finds none exactly when no task has it |
| JsonStore.MarkDone | server.py:117-118 | the task becomes done with the completion stamp, and its other fields stay |
| JsonStore.TaskFile.constructor | server.py:13-17 | the store holds the loaded array |
| JsonStore.TaskFile.AddTask | server.py:53-80 | on success exactly the new task is appended; a bad due date leaves the file unchanged |
| JsonStore.TaskFile.DeleteTask | server.py:83-100 | a non-integer id is an error; an absent id is an error naming it; otherwise the first task with the id is removed and returned, and the others keep their order; errors leave the file unchanged |
| JsonStore.TaskFile.ListTasks | server.py:103-109 | all tasks in stored order, and their number |
| JsonStore.TaskFile.CompleteTask | server.py:112-124 | the first task with the int id is marked done and stamped and returned, and every other task stays; a str id or an absent id is an error that changes nothing |
| JsonStore.OverdueOnMeans | server.py:135 | the overdue condition of the comprehension means "due before today" |
| JsonStore.Summarize | server.py:127-152 | completed are exactly the done tasks and pending the others, each in stored order, so each task is in exactly one; overdue are exactly the pending tasks with a due date on a day before today, in order; the stats count the three lists, pending + completed = total |
| JsonStore.DueOnDayMeans | server.py:170-172 | the comprehension's condition means "due on that day" |
| JsonStore.TasksByDate | server.py:159-179 | an unparsable date is an error echoing it; otherwise the list of the tasks due on the parsed day, in stored order, with that day's text and their count |
| JsonStore.DueInSpanMeans | server.py:237-240 | the comprehension's condition means "due inside the inclusive range" |
| JsonStore.TasksByRange | server.py:186-250 | errors of the endpoints as resolved; otherwise the list of the tasks due inside the inclusive range, in stored order (no due date never matches), the range texts (start not after end), the inputs ("same as start" without an end), the count and at least one day |
| JsonStore.AddedTaskIsPending | server.py:66-73 | adding a task adds one pending task and one to the total, and keeps the completed count |
| JsonStore.CompleteMovesTask | server.py:115-118 | completing a pending task moves one count from pending to completed; completing a done task changes no count |
| JsonStore.AddThenFindByDate | server.py:163-172 | a task added with a due text is among the tasks found by that text |
| JsonStore.AddAfterDeleteReusesId | server.py:67 | after deleting task 1 of tasks 1 and 2, the next task is numbered 2 again |
| MongoStore.MaxId | backend/server.py:22 | the id of the document sorted first by descending id: no id is larger, and some document has it |
| MongoStore.NextTaskId | backend/server.py:20-23 | 1 for an empty collection; otherwise one past the largest id, so larger than every id in use |
| MongoStore.NextIdKeepsIdsUnique | backend/server.py:75 | numbering a new document with the next id keeps ids unique |
| MongoStore.AddOutcome | backend/server.py:65-80 | a given due text that does not parse is rejected and echoed; otherwise the document has the next id, `done` false, the creation stamp and the parsed due date, and an id no document has |
| MongoStore.FirstWithId | backend/server.py:101 | `find_one({"id": id})` picks the first document with the id, or none exactly when no document has it |
| MongoStore.FirstIsOnly | backend/server.py:101-111 | with unique ids the document found is the only one with that id |
| MongoStore.SnapshotOf | backend/server.py:104-110 | the deleted task's copy has its id, title, due date, done and creation stamp |
| MongoStore.MarkDone | backend/server.py:131-139 | the `$set`: done true and the completion stamp, other fields kept |
| MongoStore.RemoveKeepsIdsUnique | backend/server.py:111 | deleting a document keeps ids unique |
| MongoStore.RemoveLeavesNoId | backend/server.py:111 | with unique ids, after the delete no document has the deleted id |
| MongoStore.FirstWithIdAfterUpdate | backend/server.py:131-142 | the re-read after `update_one` finds the same document, since the update keeps its id |
| MongoStore.TaskCollection.constructor | backend/server.py:14-17 | the store holds the collection's documents |
| MongoStore.TaskCollection.AddTask | backend/server.py:63-91 | on success exactly the new document is inserted at the end; a bad due date inserts nothing; unique ids stay unique |
| MongoStore.TaskCollection.DeleteTask | backend/server.py:94-117 | a non-integer id is an error; an absent id is an error naming it; otherwise the first document with the id is deleted and its snapshot returned; unique ids stay unique and no document with the deleted id remains |
| MongoStore.TaskCollection.CompleteTask | backend/server.py:129-148 | the first document with the int id is marked done and stamped, and the re-read returns it updated; a str id or an absent id is an error that changes nothing; unique ids stay unique |
| MongoStore.Insert | backend/server.py:122 | inserting into an id-sorted list keeps it sorted and adds exactly that document |
| MongoStore.SortById | backend/server.py:122 | `sort("id", 1)`: sorted by ascending id and a permutation of the documents |
| MongoStore.ListTasks | backend/server.py:120-126 | every document exactly as often as stored, in ascending id order, with the count |
| MongoStore.SortSortedIsIdentity | backend/server.py:122 | sorting what is already in id order changes nothing |
| MongoStore.OverdueOnMeans | backend/server.py:159 | the overdue condition means "due before today" |
| MongoStore.Summarize | backend/server.py:151-176 | completed are exactly the documents whose `done` is true and pending all others, a missing `done` included, each in natural order, so each document is in exactly one; overdue are exactly the pending ones with a due date before today, in order; the stats count the three lists |
| MongoStore.DueOnDayMeans | backend/server.py:192-195 | the query `{"due_date": parsed}` means "due on that day" |
| MongoStore.TasksByDate | backend/server.py:183-202 | an unparsable date is an error echoing it; otherwise the list of the documents due on the parsed day, in natural order, with their count |
| MongoStore.DueInSpanMeans | backend/server.py:258-266 | the `$gte`/`$lte` query means "due inside the inclusive range", and a null due date never matches |
| MongoStore.TasksByRange | backend/server.py:209-276 | errors of the endpoints as resolved; otherwise the list of the documents due inside the inclusive range, in natural order, the range texts, the inputs, the count and at least one day |
| MongoStore.AddedDocIsPending | backend/server.py:74-82 | adding a document adds one pending task and one to the total, and keeps the completed count |
| MongoStore.CompleteMovesDoc | backend/server.py:131-139 | completing a pending document moves one count from pending to completed; completing a done one changes no count |
| MongoStore.InsertBeforeLarger | backend/server.py:122 | inserting before a larger last element leaves that element last |
| MongoStore.SortAppendLargest | backend/server.py:122 | a document with an id above all others sorts to the end |
| MongoStore.AddedDocListedLast | backend/server.py:75 | after an add, the listing is the earlier listing followed by the new document |
| MongoStore.DeleteMaxThenAddReusesId | backend/server.py:20-23 | after deleting the document with the largest id, the next add reuses that id |
| Notif.DefaultSender | backend/server_notif.py:42-43 | the default sender is `noreply@` + namespace + `.testmail.app`, and the namespace can be read back from it |
| Notif.DefaultSenderInjective | backend/server_notif.py:42-43 | different namespaces get different default senders |
| Notif.Configure | backend/server_notif.py:42-50 | the saved configuration holds the key, the namespace and the stamp; the given sender, or the default when it is absent or empty |
| Notif.InboxUrl | backend/server_notif.py:302 | the namespace's inbox URL, extended by `/` + tag exactly when a tag is given |
| Notif.ScanClose | backend/server_notif.py:140 | the scan stops at the first `>` not preceded by a `<`, or reports that there is none |
| Notif.TagClose | backend/server_notif.py:140 | after a `<`, the lazy `[^<]+?>` ends at the first admissible `>` (at least one character in between, no `<` before it), or cannot match |
| Notif.StripTags | backend/server_notif.py:140 | the substitution never lengthens the text |
| Notif.StripTagsKeepsPlainPrefix | backend/server_notif.py:140 | text in which no match can start is copied unchanged, whatever follows it |
| Notif.StripTagsPlain | backend/server_notif.py:140 | text without `<` is left unchanged |
| Notif.StripLeadingTag | backend/server_notif.py:140 | a tag at the start (characters other than `<` and `>` between the brackets) is removed whole |
| Notif.StripTagsRemovesTag | backend/server_notif.py:140 | a tag is removed and the tag-free text before it is kept |
| Notif.PlainText | backend/server_notif.py:137-141 | the text version is no longer than the HTML body, and equals it when the body has no `<` |
| Notif.PlainTextBreak | backend/server_notif.py:137-141 | a `<br>` after tag-free text becomes a line break in the text version |
| Notif.ReplaceSkipsSelfClosing | backend/server_notif.py:137 | replacing `<br>` passes over a `<br/>` unchanged |
| Notif.FirstPassKeepsSelfClosing | backend/server_notif.py:137 | the `<br>` replacement leaves a `<br/>` after tag-free text in place |
| Notif.PlainTextSelfClosingBreak | backend/server_notif.py:137-141 | a `<br/>` after tag-free text becomes a line break in the text version |
| Notif.SendEmail | backend/server_notif.py:112-143 | no configuration is an error; the sender is `from_email`, or the configured default when it is absent or empty; HTML mail gets `html` = body and `text` = its plain text (no longer than the body); otherwise `text` = body |
| Notif.StyleOf | backend/server_notif.py:199-214 | the colour and icon of the lower-cased type, and the "info" style for unknown types |
| Notif.StyleIgnoresCase | backend/server_notif.py:213-214 | a type, its lower-case and its upper-case spelling get the same style |
| Notif.NotificationSubject | backend/server_notif.py:236 | the subject is `[`, the upper-cased type, `] `, then the title, which can be read back from it |
| Notif.SubjectIgnoresCase | backend/server_notif.py:236 | the subject does not depend on how the type is capitalised |
| Notif.SendNotification | backend/server_notif.py:238-244 | an HTML mail to the given recipient, from `from_email` or else the configured sender, with the notification subject, the rendered body and its text version, through `send_email` |
| Notif.EmailLimit | backend/server_notif.py:275 | the limit sent is `min(limit, 50)`: never above 50 nor above the request |
| Notif.InboxRequest | backend/server_notif.py:262-279 | no configuration is an error; otherwise the configured key and namespace, the capped limit, and the tag exactly when one is given |
| Notif.Preview | backend/server_notif.py:295-296 | a field over 200 characters becomes its first 200 plus `...`; shorter fields are kept; never over 203 |
| Notif.PreviewIdempotent | backend/server_notif.py:295-296 | shortening a shortened field changes nothing |
| Notif.FormatEmail | backend/server_notif.py:290-297 | headers are copied and both bodies shortened |
| Notif.FormatEmails | backend/server_notif.py:288-297 | every message, in order, formatted |
| Notif.MaskKey | backend/server_notif.py:333 | a key over 16 characters shows its first and last 8 around `...` (19 characters); any other key becomes `***HIDDEN***` |
| Notif.MaskKeyKeepsOnlyMasked | backend/server_notif.py:333 | the mask returns the key itself exactly for the placeholder and for 19-character keys with `...` at positions 8-10 |
| Notif.GetEmailConfig | backend/server_notif.py:320-339 | no configuration is reported as such; otherwise the configuration with the key masked, the other fields as stored, and the inbox URL |
| Notif.TestAddress | backend/server_notif.py:360 | the address is the tag, a dot, the namespace and `@inbox.testmail.app`, each read back at its position |
| Notif.TestAddressInjective | backend/server_notif.py:360 | for tags without a dot, an address determines its tag and namespace |
| Notif.GenerateTestEmail | backend/server_notif.py:346-368 | no configuration is an error; otherwise the tag's address, tag, namespace and tagged inbox URL |
| Notif.TestInboxIsTaggedInbox | backend/server_notif.py:366 | for a non-empty tag, the generated inbox is the tagged inbox of `get_inbox_emails` |

## Left out

- File, database and configuration I/O (`load_tasks`/`save_tasks`, the MongoDB client, `load_config`/`save_config`): these become a `seq` field or an `Option<Config>` argument.
- Concurrency: two callers racing on the same store are not modelled. Each operation is one atomic step.
- `dateparser.parse` and `search_dates`: these are a foreign library. The model uses an arbitrary `DateParser`, so the phrase rules ("next week", weekdays) are not modelled.
- The clock: `datetime.now()` is the parameter `Clock`, giving today's date and the `isoformat()` stamp.
- Time of day: the parsed endpoints of `tasks_by_range` are whole days. The real code compares and subtracts full datetimes, so its swap and its `date_range_days` can differ by one day when the two times of day differ.
- DueDates.ParseDueDate: the `RELATIVE_BASE` passed to the parser is `datetime.now()` with its time of day; the model passes only today's date (`ParseSettings.base`), so any effect of the time of day on a relative parse is the oracle's and is not modelled.
- Response fields: the `parsed_date` field of `add_task`'s response (server.py:79, backend/server.py:90; the due date's text, or "No due date") and the `count` field of `get_inbox_emails`'s response (backend/server_notif.py:300; the number of formatted messages, `|FormatEmails(...)|`) are not built by the model.
- Years below 1000: `strftime("%Y")` pads them to four digits on some platforms and not on others; the model always pads to four.
- DueDates.ParseDueDate: the `TIMEZONE: 'UTC'` setting is only passed to the oracle as a flag. Its effect on the parsed date is the library's.
- Unicode: `int()` digits and whitespace, `lower` and `upper` are modelled on ASCII only.
- Messages: the human-readable `message` and `error` strings, other than the summary sentence, are not modelled. The error results keep the echoed inputs.
- MongoDB's `_id`: no response carries it. `list_tasks`, `summarize_tasks`, the date queries and the re-read of `complete_task` project it away; `add_task` pops it from the inserted document (backend/server.py:85); `delete_task` reads the document without a projection (backend/server.py:101) but copies its snapshot field by field. `get_next_task_id` reads only the `id` of the document it finds.
- Document order: the natural order of the MongoDB collection is modelled as insertion order.
- MongoDB type handling: a query with a string id against integer ids matches nothing, as modelled. Other BSON type mixes are not modelled.
- MongoStore.SortById: the order among documents with equal ids is unspecified in MongoDB. The contract states only order and permutation, and the body happens to keep insertion order.
- Network calls and status codes: the HTTP requests of `configure_testmail`, `send_email`, `get_inbox_emails` and their status-code and exception handling are network I/O. The model stops at the request and payload each tool builds. `Notif.Configure` is the configuration saved when the key test succeeds.
- The HTML template of `send_notification` is presentation only. It is the parameter `render` of `Notif.SendNotification`.
- Inbox message fields: `from`, `to`, `subject` and `timestamp` are `None` or text, and `html` and `text` are text (missing means ""). Non-string JSON values (a numeric timestamp, a list of recipients) are not distinguished.
- Notif.FormatEmails: a JSON null in `html` or `text` makes `len(email.get("html", ""))` raise TypeError (backend/server_notif.py:295-296), which the tool does not catch (only `RequestException` is, line 310). The model's fields are always text, so it has no such failure.
- DueDates.ResolveRange: when one endpoint is time-zone aware and the other naive, `parsed_start > parsed_end` raises TypeError (server.py:230, backend/server.py:251). The parser oracle returns plain dates, so the model has no such failure.
