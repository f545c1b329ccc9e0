# Task allocator — a Dafny model

This project models the core of a small task-allocation system. A manager
creates a task with required skills and a start/end time. The allocator then:

- splits the task's span into one window per calendar day;
- checks each employee's weekly shift table against those windows;
- ranks the employees who hold a required skill at proficiency 5 or more;
- names the best three available employees, and builds a separate top-five
  list ordered by proficiency sum.

The model also covers two pure rules of the React front end: the guard and
payload of the task creation form, and the role-based route guard together
with the login and logout transitions of the stored role.

Modules, in dependency order:

| module | file | models |
|---|---|---|
| `Wrappers` | wrappers.dfy | `Option` |
| `Text` | text.dfy | splitting on a separator, joining, decimal digit strings |
| `Calendar` | calendar.dfy | proleptic Gregorian dates, day ordinals, weekday names, `yyyy-MM-dd` |
| `TimeFormat` | time_format.dfy | `strptime` for `%Y:%m:%d:%H:%M` and `%H:%M`, and the matching `strftime` |
| `TimeWindows` | time_windows.dfy | `calculate_daily_time_windows` |
| `Availability` | availability.dfy | `check_employee_availability` |
| `Ranking` | ranking.dfy | `list.sort(key=…, reverse=True)` on integer-tuple keys, and `s[:n]` |
| `Allocator` | allocator.dfy | the task loop of `main`: matching, ranking, `best_candidates` |
| `TopCandidates` | top_candidates.dfy | `generate_top_candidates` |
| `TaskForm` | task_form.dfy | `handleSubmit` of the task creation page |
| `RouteGuard` | route_guard.dfy | `ProtectedRoute`, the route table, login and logout |

Representation choices:

- An instant is a whole number of seconds: the date's day ordinal times
  86400, plus the time of day. A time of day is a number of minutes.
- Hours (`duration_hours`, `total_available_hours`) are kept as exact seconds
  and minutes, and not as rounded floats. All overlaps are whole minutes, so
  two different totals are at least 1/60 hour apart before rounding. Rounding
  to two decimals moves a total by at most 0.005 hour, and no total of whole
  minutes lies exactly halfway between two hundredths (100·m/60 never ends in
  .5). So rounding never reverses the order of two totals, and the ranking by
  available time is the same either way.
- A shift table is a `map<string, Option<string>>`. A JSON `null` is `None`.
- Dictionaries whose order matters (`skills`, `matched_skills`) are sequences
  of name/level pairs in insertion order. The names in an employee's `skills`
  are distinct, as the keys of the source's dictionary are.
- The embedding-based skill matcher `match_to_skillset` is the parameter
  `matcher`. It maps the raw skill strings to the matched skill names.
- `list.sort` is a library call. It is modelled by one stable sort function
  with the three properties the language guarantees, all proved: the result
  is sorted, it is a permutation of the input, and elements with equal keys
  keep their input order.
- A `ValueError` raised by `strptime` is a `None` result. The
  `OverflowError` raised when the day loop steps past 9999-12-31 is not
  caught by `except ValueError`. It is the outcome `DateOverflow`, and it
  ends the whole run (`Aborted`).

Where the code's own comment and its behaviour differ, the model follows the
code. The comment at TASK_ALLOCATOR.py:138 says "24:48" is read as 00:48 of
the next day, but `parse_time` maps both "24:00" and "24:48" to 23:59, and
`ShiftClock` does the same.

## Model

| member | source | states |
|---|---|---|
| TimeFormat.ParseStamp | TASK_ALLOCATOR.py:75-76 | a parsed task time is a valid date with hour below 24 and minute below 60 |
| TimeFormat.StampRoundTrip | TASK_ALLOCATOR.py:75-76 | reading back any formatted valid task time gives the same time |
| TimeFormat.ClockRoundTrip | TASK_ALLOCATOR.py:96-97 | a window's `HH:MM` text reads back as the same minute of the day |
| TimeFormat.ParseClock | TASK_ALLOCATOR.py:146-147 | a parsed time of day lies in [0, 1440) minutes |
| Calendar.NextDateStep | TASK_ALLOCATOR.py:101 | the day after a valid date other than 9999-12-31 is valid and has the next ordinal |
| Calendar.DateOrder | TASK_ALLOCATOR.py:84 | comparing dates field by field agrees with comparing their ordinals, both ways |
| Calendar.DayName | TASK_ALLOCATOR.py:85 | `%A` lower-cased is one of the seven weekday names |
| Calendar.NextDayName | TASK_ALLOCATOR.py:85 | consecutive days carry consecutive weekday names |
| Calendar.NewYear2024IsMonday | TASK_ALLOCATOR.py:85 | 2024-01-01 is named "monday", which anchors the weekday count |
| Calendar.DaysBeforeYearClosedForm | TASK_ALLOCATOR.py:84 | the day count before a year equals the leap-year formula Python's `date` uses |
| Calendar.EraYear | src/pages/CreateTask.tsx:43 | `yyyy` prints the year of the era: positive years unchanged, year 0 as 1, year -1 as 2, never below 1 |
| Calendar.IsoDateFields | src/pages/CreateTask.tsx:43 | `yyyy-MM-dd` has dashes in fixed places, is ten characters for a four-digit year, and its fields read back as year of the era, month and day |
| Calendar.YearZeroPrintsAsOne | src/pages/CreateTask.tsx:43 | a day of year 0 prints with year field "0001" |
| TimeWindows.CalculateDailyTimeWindows | TASK_ALLOCATOR.py:72-106 | the loop returns exactly the windows `DailyWindows` describes, or the overflow |
| TimeWindows.EmptyWhenNotBefore | TASK_ALLOCATOR.py:74-79 | the result is the empty list exactly when a time fails to parse or start is not before end |
| TimeWindows.DailyWindowsShape | TASK_ALLOCATOR.py:84-101 | for start before end: overflow exactly when the end date is 9999-12-31; otherwise one window per day from start date to end date in order, each named by its weekday, starting at the task start on the first day and 00:00 later, ending at the task end on the last day and 23:59:59 before, with start ≤ end and duration the difference |
| TimeWindows.BoundaryTexts | TASK_ALLOCATOR.py:88-97 | midnight prints as "00:00" and 23:59:59 prints as "23:59" |
| Availability.ShiftClock | TASK_ALLOCATOR.py:139-142 | "24:00" and "24:48" read as 23:59; any result is a minute of the day |
| Availability.WindowVerdict | TASK_ALLOCATOR.py:113-169 | per window: "No shift scheduled" exactly when a key is missing or null; an invalid-format entry exactly when a time fails to parse; otherwise blocked exactly when shift end < task start or shift start > task end, with both hour texts; otherwise open with max(0, overlap) minutes |
| Availability.Periods | TASK_ALLOCATOR.py:110-169 | at most one entry per window, each the entry of some blocked window, and none exactly when every window is open |
| Availability.WindowsConcat | TASK_ALLOCATOR.py:113-169 | the entries and minutes of two runs of windows are those of the first run followed by those of the second |
| Availability.SingleWindow | TASK_ALLOCATOR.py:119-169 | one window contributes exactly its own entry when blocked and exactly its minutes when open; with `WindowsConcat`, one entry per blocked window in window order |
| Availability.OpenMinutes | TASK_ALLOCATOR.py:111-163 | total available time is never negative |
| Availability.AvailabilityOf | TASK_ALLOCATOR.py:171-175 | `is_available` exactly when no entry was recorded; `unavailable_periods` is `None` exactly when available; the total is non-negative |
| Availability.CheckEmployeeAvailability | TASK_ALLOCATOR.py:108-175 | the loop returns exactly `AvailabilityOf` of the shifts and windows |
| Availability.NoShiftDay | TASK_ALLOCATOR.py:119-135 | a window on a day without a shift gives one "No shift scheduled" entry and no time |
| Availability.OvernightShiftAddsNothing | TASK_ALLOCATOR.py:158-163 | a shift that starts after it ends is blocked or adds zero minutes |
| Availability.TouchingShiftIsAvailable | TASK_ALLOCATOR.py:150 | a shift ending exactly at the window start is available with zero minutes |
| Availability.TaskTimesReadable | TASK_ALLOCATOR.py:146-147 | the allocator's own window times always parse, so an invalid-format entry names a shift time |
| Ranking.LexTotal | TASK_ALLOCATOR.py:407-414 | tuple comparison is total: smaller, equal or larger |
| Ranking.LexTransitive | TASK_ALLOCATOR.py:407-414 | tuple comparison is transitive |
| Ranking.SortDesc | TASK_ALLOCATOR.py:407-414 | the sort keeps the elements and their number |
| Ranking.SortDescSorted | TASK_ALLOCATOR.py:407-414 | the sort's result has non-increasing keys |
| Ranking.SortDescStable | TASK_ALLOCATOR.py:407-414 | elements with equal keys keep their input order |
| Ranking.SortDescOfSorted | TASK_ALLOCATOR.py:407-414 | sorting a sorted list changes nothing |
| Ranking.Take | TASK_ALLOCATOR.py:426 | `s[:n]` is the prefix of length min(n, len(s)) |
| Allocator.CommonSkills | TASK_ALLOCATOR.py:391-394 | a skill is in the result exactly when it is one of the employee's skills named in `required_skills` with proficiency at least 5; never longer than the skills |
| Allocator.CommonSkillsConcat | TASK_ALLOCATOR.py:391-394 | the common skills of two runs of skills one after the other are the two results one after the other |
| Allocator.CommonSkillsSingle | TASK_ALLOCATOR.py:391-394 | a single skill is kept exactly when required and at least 5; with `CommonSkillsConcat`, each qualifying skill once, in the employee's order |
| Allocator.MatchOf | TASK_ALLOCATOR.py:391-404 | an employee is matched exactly when they share a required skill at proficiency 5 or more |
| Allocator.MatchingMembers | TASK_ALLOCATOR.py:388-404 | every match comes from an employee with a common skill, and every such employee is matched |
| Allocator.AvailableOnly | TASK_ALLOCATOR.py:423-425 | an employee is in the result exactly when it is an available member of the input; never longer than the input |
| Allocator.AvailableOnlyConcat | TASK_ALLOCATOR.py:423-425 | filtering two runs one after the other gives the two filtered runs one after the other |
| Allocator.AvailableOnlySingle | TASK_ALLOCATOR.py:423-425 | a single employee is kept exactly when available; with `AvailableOnlyConcat`, the available employees in input order |
| Allocator.MatchEmployees | TASK_ALLOCATOR.py:388-404 | the matching loop returns exactly `Matching` of the roster |
| Allocator.Allocate | TASK_ALLOCATOR.py:351-428 | the whole loop returns exactly `RunOf`: no tasks, no employees, aborted, or the results |
| Allocator.AbortIsFinal | TASK_ALLOCATOR.py:379-382 | once a task overflows, the run aborts whatever the later tasks are |
| Allocator.TaskSkippedCases | TASK_ALLOCATOR.py:365-385 | a task gives no result exactly when it lists no skills, none match, or it has no window; it aborts exactly when it has a required skill, a match, a readable span with start before end, and the span ends on 9999-12-31 |
| Allocator.RankedOrder | TASK_ALLOCATOR.py:407-414 | the ranking is a permutation of the matches, available employees first, proficiency sums non-increasing within a group, available time non-increasing within equal sums, and stable |
| Allocator.LexLess3 | TASK_ALLOCATOR.py:408-412 | comparing two three-field keys is field-by-field lexicographic |
| Allocator.AvailablePrefix | TASK_ALLOCATOR.py:423-425 | with available employees first, the available ones are a prefix of the ranking |
| Allocator.BestIsRankingPrefix | TASK_ALLOCATOR.py:423-426 | `best_candidates` is the ranking's first min(3, available) employees, all available |
| Allocator.ProducedResult | TASK_ALLOCATOR.py:417-428 | a result has windows, the matcher's skills, a ranking of exactly the matches with available first, and at most three best candidates forming its available prefix |
| TopCandidates.Entries | TASK_ALLOCATOR.py:280-290 | only available employees, each with its own proficiency sum and the task's id and name |
| TopCandidates.EntriesComplete | TASK_ALLOCATOR.py:280-290 | no available employee is dropped before sorting |
| TopCandidates.CollectAvailable | TASK_ALLOCATOR.py:278-290 | the inner loop collects exactly `Entries` of the task's matching employees |
| TopCandidates.GenerateTopCandidates | TASK_ALLOCATOR.py:268-307 | the nested loops return exactly `TopListsOf` of the results |
| TopCandidates.TopOfProperties | TASK_ALLOCATOR.py:292-294 | a top list holds at most five available matches of its task, in non-increasing sum order, no dropped one beats a kept one, and it is empty exactly when no match is available |
| TopCandidates.TopListsMembers | TASK_ALLOCATOR.py:296-302 | every list in the result is the list of some task with an available match, every such task's list is in the result, and each holds one to five entries |
| TopCandidates.TopListsConcat | TASK_ALLOCATOR.py:276-302 | the lists of two runs of results one after the other are the two runs' lists one after the other |
| TopCandidates.TopListsSingle | TASK_ALLOCATOR.py:276-302 | a single result gives its own list when it has an available match and nothing otherwise; with `TopListsConcat`, exactly one list per such task, in task order |
| TopCandidates.EntriesSorted | TASK_ALLOCATOR.py:292-293 | entries taken from a ranking ordered by sum are already sorted by sum |
| TopCandidates.TopAgreesWithBest | TASK_ALLOCATOR.py:292-294 | after `main`'s ranking, the first three top entries are exactly `best_candidates`, in order |
| TaskForm.TrimShape | src/pages/CreateTask.tsx:26 | `trim` removes white space from both ends and nothing else |
| TaskForm.TrimEmpty | src/pages/CreateTask.tsx:26 | a trimmed title is empty exactly when the title is all white space |
| TaskForm.TrimIdempotent | src/pages/CreateTask.tsx:42 | trimming twice equals trimming once |
| TaskForm.Submit | src/pages/CreateTask.tsx:23-45 | rejected with "Task title is required" exactly for a blank title; with "Deadline is required" exactly for a non-blank title and no deadline; accepted otherwise, with title, description and project id passed through unchanged |
| TaskForm.SkillListShape | src/pages/CreateTask.tsx:42 | the skills list has one entry per comma plus one, in input order, each trimmed and comma-free, and the pieces join back to the text |
| TaskForm.BlankSkills | src/pages/CreateTask.tsx:42 | a blank skills field gives the one-element list `[""]` |
| TaskForm.DeadlineText | src/pages/CreateTask.tsx:31-43 | an accepted payload's deadline is `yyyy-MM-dd` of the chosen day, with its year of the era, never the empty fallback |
| RouteGuard.ProtectedRoute | src/App.tsx:19-33 | renders exactly for a non-empty role that matches or an empty required role; goes home exactly for a missing or empty role; any other redirect is for a mismatched role, and every target is one of three paths |
| RouteGuard.RouteOf | src/App.tsx:45-94 | a page other than the catch-all is reached only at its own path |
| RouteGuard.RouteOfPath | src/App.tsx:45-94 | each page is reached at its own path |
| RouteGuard.GuardedPages | src/App.tsx:45-94 | home and the catch-all are open; the employee dashboard requires "employee"; every other page requires "manager" |
| RouteGuard.DashboardsRender | src/App.tsx:48-94 | each dashboard renders for its own role |
| RouteGuard.NoSecondRedirect | src/App.tsx:26-29 | for "manager" and "employee", a redirect goes to their own dashboard, which renders |
| RouteGuard.UnknownRoleLoops | src/App.tsx:26-29 | any other non-empty role is sent to the employee dashboard, which sends it there again |
| RouteGuard.Login | src/pages/Index.tsx:10-13 | logging in stores the chosen role and goes to that role's dashboard |
| RouteGuard.LoginLandsOnDashboard | src/pages/Index.tsx:10-13 | the page reached after logging in renders |
| RouteGuard.LoginAccess | src/App.tsx:26 | after logging in, a guarded page renders exactly when it requires that role |
| RouteGuard.Logout | src/components/Header.tsx:14-17 | logging out removes the stored role and goes home |
| RouteGuard.LogoutLocksOut | src/components/Header.tsx:14-17 | after logging out, every guarded page redirects home and the open pages render |

## Left out

- File input and output: `load_and_clear_tasks` and `load_employees`, the JSON dumps, the timestamped file names, and the repeated writes and double call of `generate_top_candidates` at the end of `main`. `Allocate` takes the loaded lists as parameters and returns the results.
- `match_to_skillset`: a sentence-embedding model with floating-point cosine similarity. It is the parameter `matcher`.
- Floating point: `duration_hours` and `total_available_hours` are exact seconds and minutes, and `round(…, 2)` is not modelled.
- Allocator.Allocate: the `KeyError`s raised for a task without `startTime`/`endTime` or an employee without `employee_id`/`shifts` are not modelled, because the records here always carry those fields.
- TopCandidates.TopListsMembers: its contract states membership both ways and the list sizes only; that each task contributes exactly one list, in task order, is stated by `TopCandidates.TopListsConcat` and `TopCandidates.TopListsSingle` instead.
- Availability.WindowVerdict: the overlap is computed on times of day, not by subtracting two `datetime.combine(datetime.today(), …)` values; the two clock reads are not modelled, so a midnight passing between them, which makes the overlap 24 hours shorter and `max(0, …)` turn it into 0, is not captured.
- Availability.WindowVerdict: the text of the `ValueError` message in the invalid-format entry is not modelled, because it is produced inside the library.
- TimeFormat.ParseStamp: `strptime` also accepts non-ASCII Unicode decimal digits in `%Y:%m:%d:%H:%M`; the model accepts ASCII digits only.
- TimeFormat.ParseClock: `strptime` also accepts non-ASCII Unicode decimal digits in `%H:%M`; the model accepts ASCII digits only, and so does `Availability.ShiftClock`, which reads shift texts through it.
- TimeWindows.Window: `day_date` is kept as a `Date`, not as its `%Y-%m-%d` text.
- Ranking.SortDesc: `sort` works in place on the list; the model returns the sorted sequence. Python's own merge-sort algorithm is not modelled, only the result it guarantees.
- TaskForm.Submit: the toasts, the submitting flag, the simulated delay, the random task id and the redirect after success are not modelled either.
- RouteGuard.Visit: react-router's path matching with `:projectId`-style parameters is not modelled. A visit names the route pattern itself.
- `localStorage` itself, rendering, and the `replace` flag of a redirect are not modelled; the stored role is a parameter.
- The unreachable code after the `return` statements of `check_employee_availability` and `generate_top_candidates` is not modelled.
- app.py (the Flask routes, database queries and subprocess calls) and the other pages and components are not part of this model.
