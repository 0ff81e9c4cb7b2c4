# GestorTareasRocke core, modelled in Dafny

The model covers the core of a small task tracker. A task ("tarea") has:

- an assignee (`encargado_actual`);
- a start, end and creation date;
- a status (`estado`);
- a history of one-to-one delegations.

The front end (`static/script.js`) covers three things:

- It filters the task list by a search text, a status and an assignee, and can sort it on one of six date orders (`filtrarTareas`).
- It builds the assignee drop-down (`actualizarFiltros`).
- It draws a roadmap (`actualizarLineaTiempo`). The tasks of one status go into monthly columns along a time line. Each column has its markers, quarter tags and box positions.

It also refuses to delegate a task to the person who already holds it (`guardarDelegacion`).

The backend (`app.py`) handles four things:

- creating a task, where `dias` is computed and defaults are filled in;
- updating a task from a partial payload, after which `dias` is recomputed;
- delegating a task;
- listing a task's delegation history, newest first.

The model is split into these modules:

- `Wrappers`: `Option` and `Result`.
- `Calendar`: dates as day numbers, with day 0 = 1970-01-01 as JavaScript's `new Date(0)`. It has the proleptic Gregorian calendar and `setMonth(getMonth() + k)` with its overflow into the next month.
- `Text`: `toLowerCase` and `includes`.
- `Seqs`:
  - `Array.prototype.filter`;
  - a stable sort on an integer key, specified by order, permutation and the stability of every class of equal keys;
  - `Math.min` and `Math.max`.
- `Tasks`: the `Tarea` and `Delegacion` rows.
- `FilterSort`: the task list's filters and sort, and the assignee list.
- `Timeline`: the roadmap, with month buckets as the code intends them.
- `TimelineAsWritten`: the bucket loop exactly as written, with three kinds of input where it differs from the intended buckets.
- `Backend`: the four backend handlers. The clock, the new row id and the request body are parameters.
- `DelegationForm`: the front end's delegation form.

Three behaviours of the code are worth calling out:

- **A missing date in the sort.** One might expect a missing date to sort earliest. The code substitutes `new Date(0)`, which is 1970-01-01, so a date before 1970 sorts before a missing one (`FilterSort.MissingDateActsAsEpoch`).
- **A missing end date under ascending order.** A missing `fecha_fin` sorts as 9999-12-31, so it comes after every earlier end date rather than after every end date (`FilterSort.MissingEndSortsLast`).
- **Month buckets.** The code comments say the range is extended a little on each side (`static/script.js:705`) and that one time point is made per month (`static/script.js:709`). So the intended buckets are the consecutive months from one before the earliest date to one after the latest. The loop that builds them can drop a padding month or skip a month in the middle. This is logged under Findings, and the rest of the model uses the intended buckets.

## Model

| member | source | states |
|---|---|---|
| Calendar.ShiftMonths | static/script.js:706-707 | `setMonth(getMonth() + k)` lands in month `MonthOf(d) + k`, or in the month after when the day of the month does not exist there. It stays in the same month exactly when the day fits. |
| Calendar.ShiftKeepsDay | static/script.js:721 | When the day of the month exists in the target month, the shifted date keeps it and lands in the target month. |
| Calendar.ShiftOverflows | static/script.js:706-707 | When the target month is too short, the date runs over into the following month by the excess days. |
| Calendar.ShiftForwardIsLater | static/script.js:713-722 | Stepping forward a month always yields a later date, so the bucket loop terminates. |
| Calendar.MonthOfMonotone | static/script.js:702-707 | A later date never lies in an earlier month. |
| Text.Lower | static/script.js:104 | Lower-casing keeps the length and leaves no capital. A character that is not a capital is kept. A capital becomes the character 32 code points above it, its small letter. |
| Text.LowerIdempotent | static/script.js:111-113 | Lower-casing an already lower-cased text changes nothing. |
| Text.LowerHasNoCapitals | static/script.js:111-113 | No capital letter survives lower-casing. |
| Text.Includes | static/script.js:111-113 | `includes` is true exactly when the needle occurs at some index of the text. |
| Text.IncludesEmpty | static/script.js:110 | Every text includes the empty query. |
| Text.IncludesLonger | static/script.js:111-113 | A query longer than the field never matches it. |
| Seqs.Filter | static/script.js:109-119 | The filtered list holds exactly the elements of the input that pass the predicate. |
| Seqs.FilterMultiset | static/script.js:109-119 | Filtering keeps every passing element as often as it occurs in the input, and drops every other element. |
| Seqs.FilterIsSubsequence | static/script.js:109-119 | The filtered list is a subsequence of the input, in input order. |
| Seqs.FilterKeepsSorted | static/script.js:730-747 | Filtering a sorted list leaves it sorted. |
| Seqs.SortBy | static/script.js:123-154 | The sorted list is a permutation of the input. It is non-decreasing in the key, and elements with equal keys keep their input order. |
| Seqs.SortedByTieClassesUnique | static/script.js:123-154 | Two lists that are sorted and agree on the order of each class of equal keys are equal, so the stable sort's result is determined. |
| Seqs.SortByIdempotent | static/script.js:123-154 | Sorting a sorted list again leaves it unchanged. |
| Seqs.Min | static/script.js:702 | `Math.min` returns an element that is at most every element. |
| Seqs.Max | static/script.js:703 | `Math.max` returns an element that is at least every element. |
| FilterSort.TextMatchesIff | static/script.js:110-113 | A task passes the search box exactly when the query is empty or the lower-cased query occurs in the lower-cased `tarea`, `encargado_actual` or present `asunto_tema`. |
| FilterSort.FilterTasks | static/script.js:103-155 | The result holds each task that passes all three filters as often as the input does, and no other task. Without a sort it is a subsequence of the input. With a sort it is ordered on the chosen date, and tasks with equal dates keep their input order. |
| FilterSort.FilterTasksOrdered | static/script.js:123-154 | An ascending order yields non-decreasing sort instants. A descending order yields non-increasing sort instants. |
| FilterSort.MissingEndSortsLast | static/script.js:135-138 | Under ascending end date, a task with an end date that follows one without an end date has an end date of 9999-12-31 or later. |
| FilterSort.MissingDateActsAsEpoch | static/script.js:127-150 | Under every other order, a missing date is never placed on the later side of an instant after 1970-01-01T00:00:00. |
| FilterSort.FilterTasksIdempotent | static/script.js:109-154 | Filtering and sorting the result again with the same inputs changes nothing. |
| FilterSort.DistinctNonEmpty | static/script.js:235 | `[...new Set(names.filter(Boolean))]` holds each non-empty name exactly once, ordered by first appearance. |
| FilterSort.Assignees | static/script.js:235 | The drop-down lists exactly the non-empty assignees of some task, each once, ordered by first appearance. |
| Timeline.WorkingSet | static/script.js:638-644 | The working set holds exactly the tasks of the selected status (all tasks for the empty filter), in list order. |
| Timeline.Ordered | static/script.js:646-667 | The working set, permuted into ascending order of the chosen instant. A missing end date counts as 9999-12-31 and any other missing date as 1970-01-01. |
| Timeline.OrderedIsStable | static/script.js:646-667 | Tasks with equal sort instants keep their working-set order. |
| Timeline.DatesOf | static/script.js:677-693 | The collected dates are exactly the chosen dates the tasks carry. The list is empty exactly when no task has one. |
| Timeline.BucketMonths | static/script.js:702-722 | The buckets are the consecutive months from the one before the earliest date to the one after the latest. There are at least three, and every date in range falls strictly inside. |
| Timeline.Points | static/script.js:716-717 | Each bucket's point lies in that bucket's month. |
| Timeline.FindLabel | static/script.js:746 | The label lookup finds the first bucket of the task's month, and fails exactly when no bucket has that month. |
| Timeline.Nearest | static/script.js:750-757 | The fallback picks a bucket at the least distance from the date. With a strict comparison, every earlier bucket is strictly farther. |
| Timeline.Assign | static/script.js:730-763 | A task gets a bucket exactly when it has the chosen date. The bucket is a valid index, and it is the task's own month whenever that month has a bucket. |
| Timeline.AssignFallsBackToNearest | static/script.js:748-762 | A dated task whose month has no bucket goes to the nearest bucket point. |
| Timeline.Distribute | static/script.js:730-765 | Column `i` is the list of tasks assigned to bucket `i`, in working-set order. |
| Timeline.DistributeTotal | static/script.js:730-765 | Each dated task occurs in its one column as often as in the working set, and in no other column. Undated tasks occur nowhere. |
| Timeline.AssignToOwnMonth | static/script.js:740-747 | A task whose month lies within consecutive buckets goes to that month's bucket, never to the fallback. |
| Timeline.LeftPercent | static/script.js:779 | A bucket's left position lies in [0, 100). |
| Timeline.LeftPercentIncreasing | static/script.js:811 | Later buckets sit strictly further right. |
| Timeline.BoxesUpTo | static/script.js:772-780 | The boxes run column by column, slot by slot. Each box shows its column's task at its slot, with the column's left position and a top of 120 times its slot. |
| Timeline.LayoutDoesNotOverlap | static/script.js:772-780 | No two boxes of the roadmap share a position, and every box lies within the chart's width. |
| Timeline.QuarterOfIsThird | static/script.js:814-819 | The chain of range tests gives each month the quarter `mes / 3 + 1`. |
| Timeline.Markers | static/script.js:809-826 | Marker i has number i, its bucket's month and left position. It has a quarter tag exactly when i mod 3 = 0, and that tag is the quarter of its month. It has the "Inicio" tag exactly at i = 0. |
| Timeline.WorkingSetEmpty | static/script.js:672-675 | The sorted working set is empty exactly when no task passes the status filter. |
| Timeline.NoDatesIff | static/script.js:694-697 | No date is collected exactly when no task of the working set has the chosen date. |
| Timeline.AllDatedTasksShown | static/script.js:702-765 | Every dated task of the working set lands in the column of its own month, which is an inner column. |
| Timeline.AllColumnsHoldOwnMonth | static/script.js:730-765 | A column holds only dated tasks of the working set from that column's month. |
| Timeline.AllColumnsOldestFirst | static/script.js:646-667 | Every column lists its tasks oldest first. |
| Timeline.AllColumnsCountEach | static/script.js:730-765 | Each column holds each dated task of its month as often as the task list does, and no other task. |
| Timeline.BuildRoadmap | static/script.js:633-835 | The view shows "no tasks" exactly when no task passes the status filter. It shows "no dated tasks" exactly when some task passes but none has the chosen date. Otherwise it shows a chart of at least three consecutive months. The first month is one before the month of some dated task, and the last is one after the month of some dated task. In the chart every dated task is in its month's inner column. Each column holds each task of its month as often as the task list does, holds nothing else, and lists its tasks oldest first. Each column is the sorted working set filtered to that column's tasks, so tasks with the same instant keep their working-set order. The boxes and markers follow the layout. |
| TimelineAsWritten.Steps | static/script.js:713-722 | The loop visits nothing when the start is past the end. Otherwise it visits the start first, and each later date is the one before moved on a month. Every visited date is at most the end, and the next step from the last one is past it. |
| TimelineAsWritten.BucketDatesAsWritten | static/script.js:702-722 | The written bucket loop starts at the earliest date moved back one month, and moves each bucket date on a month. It stops at the last date not past the latest date moved forward one month. |
| TimelineAsWritten.TrailingPaddingMonthLost | static/script.js:702-722 | Take an earliest date on day ≤ 28 whose day of the month is later than that of a latest date one month on. The written loop yields three buckets and drops the trailing padding month. The intended buckets are four. |
| TimelineAsWritten.TrailingPaddingMonthLostInJanuary | static/script.js:702-722 | Tasks on January 20 and February 10 of any year get buckets for December, January and February, but not March. |
| TimelineAsWritten.MonthEndLosesLeadingPaddingMonth | static/script.js:702-722 | Take a single date on the 31st of a month that lies between a 28-day month and a 30-day month. The written loop yields only that month and the next, so the leading padding month is lost. The intended buckets are three. |
| TimelineAsWritten.MonthEndLosesLeadingPaddingMonthInMarch | static/script.js:702-722 | A lone task on March 31 of a common year gets buckets for March and April only, and none for February. |
| TimelineAsWritten.MonthEndSkipsNextMonth | static/script.js:702-722 | Take an earliest date on the 31st of a month between a 31-day month and a 30-day month, and a latest date on or before the 28th of that 30-day month. The written loop yields the month before, the earliest date's month and the month after the latest date's. The latest date's own month gets no bucket. The intended buckets are four. |
| TimelineAsWritten.MonthEndSkipsNextMonthInAugust | static/script.js:702-722 | Tasks on August 31 and September 15 of any year get buckets for July, August and October, but not September. |
| DelegationForm.SubmitDelegation | static/script.js:393-410 | The form warns instead of sending exactly when "from" and "to" are the same person. Otherwise the request carries the four inputs. |
| DelegationForm.FormDelegationsAreBetweenTwoPeople | static/script.js:400-410 | Every request the form sends succeeds on the backend. It makes the recipient the assignee and appends a record between two different people. |
| Backend.CreateTask | app.py:97-136 | Creation fails exactly when a supplied date is malformed. Otherwise the new row has both stored dates and no delegations. A missing start date becomes today. `dias` is set exactly when both dates are given, and then equals end minus start. `fecha_creacion` is the request's instant. `estado`, `tarea` and `encargado_actual` take the payload's value when present and otherwise default to 'Pendiente', "" and "". Each other column takes the payload's value when its key is present and is null otherwise. |
| Backend.NewStart | app.py:156-158 | A present `fecha_inicio` must be a well-formed date, even when empty. An absent one keeps the old start. |
| Backend.NewEnd | app.py:159-161 | An empty `fecha_fin` clears the end date. A malformed one fails. An absent one keeps the old end. |
| Backend.UpdateTask | app.py:141-178 | The update fails exactly on an unparsable start date or a malformed end date. Each column whose key is in the payload takes the payload's value, and every other column is unchanged. `dias` is then end minus start, or today minus start without an end date, or unchanged without a start date. |
| Backend.UpdatePreservesStored | app.py:156-161 | An update of a stored row keeps its start and creation dates set. |
| Backend.UpdateAlwaysSetsDias | app.py:171-175 | After an update of a stored row, `dias` is always set. |
| Backend.UpdateWithEmptyPayload | app.py:146-175 | An empty payload changes nothing but `dias`, which it recomputes. |
| Backend.UpdateIdempotent | app.py:146-175 | Repeating an update on the same day has the same effect as sending it once. |
| Backend.CreateWithoutStartLeavesDiasUnset | app.py:102-116 | A task created with only an end date stores both dates but no `dias`. Any later successful update sets `dias`. |
| Backend.DelegateTask | app.py:193-232 | Delegation fails exactly when `delegado_de` or `delegado_a` is missing. Otherwise it makes `delegado_a` the assignee, whether or not there was an earlier delegation. It appends exactly one record after the unchanged history and touches no other column. |
| Backend.DelegationRecordFields | app.py:212-218 | The appended record carries the given names and the time of the request. A missing `motivo` or `observaciones_delegacion` becomes "". |
| Backend.DelegatePreservesStored | app.py:203-221 | A delegation keeps the row's start and creation dates set. |
| Backend.History | app.py:237-248 | The history is a permutation of the task's delegations, ordered by `fecha_delegacion` from newest to oldest. |
| Backend.NewestDelegationFirst | app.py:239-240 | A delegation recorded after all earlier ones heads the history. |

## Left out

- The DOM, `fetch`, alerts, modals and HTML assembly. Each handler's inputs are its parameters, and its output is a value: the filtered list, the `Roadmap`, the `Submission`.
- Locale and time zone of `new Date` and `toLocaleDateString`. Dates are whole days, and bucket labels are month numbers. So the label lookup always finds a month inside the buckets, and the nearest-bucket fallback (`Timeline.Nearest`) is modelled but never reached in the corrected roadmap.
- Sub-second precision and time zones. `fecha_creacion` and `fecha_delegacion` are datetimes in the source. The model keeps both as whole seconds since 1970-01-01T00:00:00, and compares and sorts `fecha_creacion` on that instant. Start and end dates are whole days and sort at their midnight.
- `leftPosition` is computed in IEEE doubles in the source. The model uses exact reals.
- Lower-casing beyond ASCII and Latin-1 capitals.
- Sort and roadmap date options other than the three dimensions. They reach the comparator's `default: return 0`, which is not modelled.
- Flask routing, SQLAlchemy sessions and `get_or_404`. A missing task id is outside the model.
- JSON decoding and `strptime`. A date arrives as `DateText` (blank, malformed or a day). A `null` written into a NOT NULL column is not modelled.
- On any failure the handlers return `Err`, and the row stays as it was. That matches the source, which never reaches `commit`.
- `eliminar_tarea`, the task listing `get_tareas`, and `run.py`.
- Backend.History: the database does not define the order of delegations with equal `fecha_delegacion`. The model keeps them in insertion order.
- Timeline.Points: a bucket's point is the first of its month. The source measures the fallback distance from the stepped date `punto.fecha` (`static/script.js:717`), which keeps the earliest date's day of the month. With the corrected buckets every dated month has a column (`Timeline.AssignToOwnMonth`), so the fallback is never reached and no column changes. Under the written loop it can matter: with tasks on August 31 and September 15 the source puts the September task in the August column, which is 15 days away, while first-of-month points would put it in October.

## Findings

| source | as written | input that shows it | evidently intended | confidence | as-written member | corrected member |
|---|---|---|---|---|---|---|
| static/script.js:702-722 | The month padding and the bucket loop step with `setMonth(getMonth() ± 1)`, which keeps the day of the month. The loop stops once the stepped date passes the padded latest date, which has a smaller day of the month. | Tasks dated January 20 and February 10 of the same year: buckets Dec, Jan, Feb. | Dec, Jan, Feb, Mar: one month before the earliest date through one month after the latest. | not executed | TimelineAsWritten.TrailingPaddingMonthLostInJanuary | Timeline.BucketMonths |
| static/script.js:706-707 | On the 31st, padding backwards to a 28-day month with `setMonth` overflows into the month itself. | A single task dated March 31 of a common year: buckets Mar, Apr. | Feb, Mar, Apr. | not executed | TimelineAsWritten.MonthEndLosesLeadingPaddingMonthInMarch | Timeline.BucketMonths |
| static/script.js:713-722 | From a bucket date on the 31st, the loop's `setMonth(getMonth() + 1)` runs over a 30-day month into the month after, so that month gets no bucket. | Tasks dated August 31 and September 15 of the same year, in a browser at UTC or east of it: buckets Jul, Aug, Oct. | Jul, Aug, Sep, Oct. | not executed | TimelineAsWritten.MonthEndSkipsNextMonthInAugust | Timeline.BucketMonths |
