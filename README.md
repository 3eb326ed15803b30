# Task manager backend: checklist progress, dashboards and reports

This project is a Dafny model of the logic at the heart of the TM-Backend
task manager (an Express/Mongoose service). A task carries a todo checklist,
a progress percentage and a status label. Four handlers change tasks:

- `createTask` validates a new task.
- `updateTask` merges fields into a task.
- `updateTaskStatus` sets the status, with the "completed" cascade.
- `updateTaskChecklist` replaces the checklist and derives progress and status from it.

Three read handlers count and bucket the tasks:

- `getTasks`
- `getDashboardData`
- `getUserDashboardData`

Two report handlers build spreadsheet rows:

- `exportTasksReport`
- `exportUsersReport`

The modules are:

- `Common`: identifiers, the task document, the requester, and JavaScript truthiness of optional body fields.
- `Progress`: the checklist rule.
  - Progress is `Math.round(100·k/n)`, computed exactly as `(200k + n) div 2n`.
  - Status is "completed" at 100, "in-progress" above 0, and "pending" otherwise.
  - The lemmas pin down the rounding boundaries. With 200 or more items, one unchecked item still gives 100. With more than 200 items, one checked item still gives 0.
- `TaskHandlers`: the mutating handlers.
  - `TaskDocument` is the loaded Mongoose document. Its methods overwrite fields in place. `SetStatus` checks each item in a loop.
  - `TaskStore` is the collection. It runs the load, check, change and save cycle and answers 404, 403, 400, 500 (a missing checklist) or 200.
  - The pure functions `ApplyStatus`, `ApplyChecklist` and `ApplyUpdate` specify the methods. The lemmas state what the handlers promise in terms of them.
- `Dashboard`: the queries become filters over a sequence of tasks.
  - `find` and `countDocuments` become `Where`.
  - `$group` becomes `GroupBy`.
  - `sort` becomes an insertion sort by creation time.
  - The bucketing `reduce` is a loop whose accumulator is a map.
- `Reports`: the row values of both exports.
  - The users export keeps its per-user counters in a JavaScript object. It is modelled as a map plus the order of first insertion, which is the order `Object.values` follows. A nested loop fills it.

Status is a plain string throughout. The handlers spell the same states differently:

- The checklist rule and the admin dashboard use "pending", "in-progress" and "completed".
- The `getTasks` summary uses "pending", "In Progress" and "Completed".
- The user dashboard uses "pending", "In Progress" and "completed".
- The users report uses "Pending", "In Progress" and "Completed".

Several lemmas (`DerivedStatusesMissCapitalisedCounts`, `LowercaseStatusesNotCounted`) state what this mismatch does to the counts.

`updateTask` performs no assignment or role check, so any authenticated user may update any task. `TaskStore.UpdateTask` takes no requester for that reason.

The users export reads `user.email` from documents projected with `select("name email_id")`. That field is therefore always `undefined`, and `Fresh` writes `None`.

## Model

| member | source | states |
|---|---|---|
| Progress.CompletedCount | backend/controllers/taskController.js:28 | the count is the number of positions whose item is checked; it is at most the list length, equals it exactly when every item is checked, and is 0 exactly when none is |
| Progress.ProgressOf | backend/controllers/taskController.js:203-205 | progress lies in 0..100 and is 0 for an empty checklist |
| Progress.StatusFor | backend/controllers/taskController.js:207-213 | the derived status is always one of "completed", "in-progress", "pending" |
| Progress.IsDerivedLabel | backend/controllers/taskController.js:207-213 | specified by StatusFor: every status the checklist rule writes is one of the three labels |
| Progress.RoundedPercent | backend/controllers/taskController.js:205 | specified by RoundedPercentBounds and RoundedPercentNearest: the value lies in 0..100 and is the integer nearest to 100·k/n, halves rounded up |
| Progress.Derive | backend/controllers/taskController.js:203-213 | specified by ProgressIsRoundedPercentage and DerivedStatusByCounts: the progress is the rounded checked percentage and the label follows the counts |
| Progress.RoundedPercentBounds | backend/controllers/taskController.js:205 | the rounded percentage of k out of n items (k <= n) lies in 0..100 |
| Progress.RoundedPercentNearest | backend/controllers/taskController.js:205 | the rounding yields the integer nearest to 100·k/n, halves rounded up |
| Progress.NearestIsUnique | backend/controllers/taskController.js:205 | only one integer is within half a unit of 100·k/n, so the rounding is determined |
| Progress.RoundedFullIff | backend/controllers/taskController.js:205 | the rounded percentage is 100 iff the missing items are at most half a percent of n |
| Progress.RoundedZeroIff | backend/controllers/taskController.js:205 | the rounded percentage is 0 iff the checked items are under half a percent of n |
| Progress.ProgressIsRoundedPercentage | backend/controllers/taskController.js:203-205 | progress is 0 for no items, otherwise the nearest integer to the checked percentage |
| Progress.ProgressFullIff | backend/controllers/taskController.js:203-207 | progress is 100 iff the list is non-empty and the unchecked items are at most half a percent of it |
| Progress.ProgressZeroIff | backend/controllers/taskController.js:203-205 | progress is 0 iff the list is empty or the checked items are under half a percent of it |
| Progress.SmallChecklistIsExact | backend/controllers/taskController.js:203-213 | below 200 items, progress is 100 iff all items are checked and 0 iff none is |
| Progress.OneUncheckedRoundsUp | backend/controllers/taskController.js:203-208 | 200 or more items with one unchecked item are reported as (100, "completed") |
| Progress.OneCheckedRoundsDown | backend/controllers/taskController.js:203-212 | more than 200 items with one checked item are reported as (0, "pending") |
| Progress.DerivedStatusByCounts | backend/controllers/taskController.js:203-213 | each of the three labels holds exactly under its own condition on the counts, so exactly one branch fires |
| Progress.TwoOfThree | backend/controllers/taskController.js:203-213 | two checked items out of three give (67, "in-progress") |
| TaskHandlers.CompleteAll | backend/controllers/taskController.js:174 | checking every item keeps the number of items |
| TaskHandlers.MayUpdate | backend/controllers/taskController.js:163-169 | specified by TaskStore.UpdateTaskStatus and TaskStore.UpdateTaskChecklist: a found task is changed only for an assignee or an admin, otherwise 403 with nothing changed |
| TaskHandlers.ApplyStatus | backend/controllers/taskController.js:171-176 | specified by CompletingChecksEveryItem, OtherStatusKeepsChecklist and StatusUpdateIdempotent |
| TaskHandlers.ApplyChecklist | backend/controllers/taskController.js:201-213 | specified by ChecklistUpdateDerives, ChecklistUpdateOverridesStatus and ChecklistUpdateIdempotent |
| TaskHandlers.MergeFields | backend/controllers/taskController.js:119-126 | specified by UpdateMergeRule: each field keeps its value for a falsy input and takes a truthy one |
| TaskHandlers.ApplyUpdate | backend/controllers/taskController.js:119-131 | specified by UpdateMergeRule: the only refusal is a truthy non-array assignedTo; an array replaces the assignees |
| TaskHandlers.CreateTask | backend/controllers/taskController.js:86-103 | succeeds iff title and description are truthy and assignedTo is an array; a missing title or description gives that 400 first; with both present, a non-array assignedTo gives the second 400; on success the fields are copied and createdBy is the requester |
| TaskHandlers.TaskDocument.Load | backend/controllers/taskController.js:160 | the loaded document holds the stored task |
| TaskHandlers.TaskDocument.SetStatus | backend/controllers/taskController.js:171-176 | the document afterwards is ApplyStatus of the old one, with each item checked in place by the loop |
| TaskHandlers.TaskDocument.SetChecklist | backend/controllers/taskController.js:201-213 | the document afterwards is ApplyChecklist of the old one |
| TaskHandlers.TaskDocument.Merge | backend/controllers/taskController.js:119-131 | the six merges always happen; it refuses exactly a truthy non-array assignedTo, otherwise the document is ApplyUpdate of the old one |
| TaskHandlers.TaskStore.UpdateTaskStatus | backend/controllers/taskController.js:158-183 | 404 with nothing changed for an unknown id; 403 with nothing changed unless the requester is assigned or admin; otherwise 200 and exactly that task replaced by ApplyStatus |
| TaskHandlers.TaskStore.UpdateTaskChecklist | backend/controllers/taskController.js:188-226 | 404 and 403 as above; a missing checklist throws (500) before the save; otherwise 200 and exactly that task replaced by ApplyChecklist |
| TaskHandlers.TaskStore.UpdateTask | backend/controllers/taskController.js:114-138 | 404 for an unknown id; the 400 for a truthy non-array assignedTo saves nothing; otherwise 200 and exactly that task replaced by the merge; no authorisation check |
| TaskHandlers.CompletingChecksEveryItem | backend/controllers/taskController.js:171-176 | status "completed" checks every item, keeps count and texts, sets progress 100 and changes nothing else |
| TaskHandlers.OtherStatusKeepsChecklist | backend/controllers/taskController.js:171-176 | any other status leaves checklist and progress alone; a falsy status keeps the old status and leaves the task unchanged |
| TaskHandlers.StatusUpdateIdempotent | backend/controllers/taskController.js:171-176 | applying the same status update twice equals applying it once |
| TaskHandlers.CompletingKeepsConsistencyIff | backend/controllers/taskController.js:173-176 | after "completed", progress agrees with the checklist rule iff the task has at least one item |
| TaskHandlers.ManualStatusBreaksConsistency | backend/controllers/taskController.js:171 | a truthy status other than the derived labels leaves status and checklist rule disagreeing |
| TaskHandlers.ChecklistUpdateDerives | backend/controllers/taskController.js:201-213 | the stored checklist is the supplied list, progress and status follow the rule, the label matches the progress range, nothing else changes |
| TaskHandlers.ChecklistUpdateOverridesStatus | backend/controllers/taskController.js:201-213 | a checklist update after any status update gives the same task as without it: the prior status is overwritten |
| TaskHandlers.ChecklistUpdateIdempotent | backend/controllers/taskController.js:201-213 | repeating a checklist update gives the same task |
| TaskHandlers.UpdateMergeRule | backend/controllers/taskController.js:119-131 | each field keeps its value for a falsy input and takes a truthy one; status, progress, id and creator never change; the only refusal is a truthy non-array assignedTo |
| TaskHandlers.UpdateCanBreakConsistency | backend/controllers/taskController.js:123 | replacing the checklist through updateTask does not recompute progress, so a consistent task can become inconsistent |
| Dashboard.Where | backend/controllers/taskController.js:36-39 | a filter keeps only listed tasks that satisfy the condition, keeps every listed task that does, and never more tasks than it was given |
| Dashboard.WhereCounts | backend/controllers/taskController.js:36-39 | a filter keeps each satisfying task exactly as often as the input holds it and drops every other task, so the result is the sub-multiset the condition selects |
| Dashboard.WhereLength | backend/controllers/taskController.js:36-39 | a filter keeps as many tasks as there are positions whose task satisfies the condition |
| Dashboard.WhereSnoc | backend/controllers/taskController.js:36-39 | filtering a list equals filtering all but its last task, followed by that task when it satisfies the condition |
| Dashboard.MatchingCount | backend/controllers/taskController.js:36-39 | counting by a status label gives the number of positions whose status is exactly that label |
| Dashboard.ListingContents | backend/controllers/taskController.js:8-31 | the listing holds exactly the scoped tasks (all for an admin, the assigned ones otherwise) passing the status query, each with its checked-item count, which is at most its checklist length |
| Dashboard.SummaryBounds | backend/controllers/taskController.js:33-40 | the summary does not depend on the status query; all is the scope size; the three status counts add up to at most all |
| Dashboard.SummaryCounts | backend/controllers/taskController.js:33-40 | all is the scope size; pending, in progress and completed are the numbers of scoped tasks labelled exactly "pending", "In Progress" and "Completed" |
| Dashboard.SummaryMissesDerivedLabels | backend/controllers/taskController.js:38-39 | when every scoped status was written by the checklist rule, the summary's "In Progress" and "Completed" counts are 0 |
| Dashboard.DerivedStatusesMissCapitalisedCounts | backend/controllers/taskController.js:38-39 | tasks whose status the checklist rule wrote are never counted as "In Progress" or "Completed" |
| Dashboard.AdminCountsPartition | backend/controllers/taskController.js:234-244 | the admin counts never exceed the total and add up to it when every status is a derived label |
| Dashboard.AdminCountsAreLabelCounts | backend/controllers/taskController.js:234-238 | the total is the number of tasks, and the three counts are the numbers of tasks labelled exactly "pending", "in-progress" and "completed" |
| Dashboard.GetTasks | backend/controllers/taskController.js:6-54 | specified by ListingContents, SummaryBounds, SummaryCounts and SummaryMissesDerivedLabels: the listing is the scoped, status-filtered tasks with their checked counts; the summary counts the scope and, in it, the tasks labelled exactly "pending", "In Progress" and "Completed" |
| Dashboard.GetDashboardData | backend/controllers/taskController.js:232-250 | specified by AdminCountsAreLabelCounts and AdminCountsPartition: the total and the numbers of tasks labelled exactly "pending", "in-progress" and "completed", which partition the total when every status is a derived label |
| Dashboard.ExclusiveCounts | backend/controllers/taskController.js:35-40 | three mutually exclusive conditions within a scope count at most the scope, and exactly the scope when they cover it |
| Dashboard.WhereNone | backend/controllers/taskController.js:36-39 | a condition no task meets selects nothing |
| Dashboard.WhereAll | backend/controllers/taskController.js:36 | the empty filter keeps every task |
| Dashboard.FindGroupBy | backend/controllers/taskController.js:269-281 | looking a label up in the grouped results gives the number of tasks with exactly that value, 0 when none |
| Dashboard.Find | backend/controllers/taskController.js:281 | specified by FindGroupBy and FindBump: looking a label up gives its group's count, 0 when it has no group |
| Dashboard.FindBump | backend/controllers/taskController.js:272-274 | counting one more task raises only its own group |
| Dashboard.FindGroupFrom | backend/controllers/taskController.js:272-274 | grouping adds the number of matching tasks to the starting count of a label |
| Dashboard.GroupBy | backend/controllers/taskController.js:269-277 | specified by FindGroupBy: each label found in the grouped result carries the number of tasks with exactly that value |
| Dashboard.Buckets | backend/controllers/taskController.js:279-283 | the reduce loop builds the accumulator that BucketsOf specifies |
| Dashboard.BucketKeyOfLowercase | backend/controllers/taskController.js:280 | a key of lower-case letters is its own bucket key |
| Dashboard.BucketKey | backend/controllers/taskController.js:280 | specified by BucketKeyIsNormal and BucketKeyIdempotent: the key holds no whitespace and no upper-case letter, and keying a key changes nothing |
| Dashboard.BucketKeyIsNormal | backend/controllers/taskController.js:280 | every character of a bucket key is neither whitespace nor an upper-case letter |
| Dashboard.NormalIsOwnKey | backend/controllers/taskController.js:280 | a text with no whitespace and no upper-case letter is its own bucket key |
| Dashboard.BucketKeyIdempotent | backend/controllers/taskController.js:280 | applying the key normalisation twice gives the same key as once |
| Dashboard.CapitalisedKey | backend/controllers/taskController.js:298 | a capitalised word becomes its lower-case form |
| Dashboard.KeyOfInProgress | backend/controllers/taskController.js:280 | "In Progress" becomes the key "inprogress" |
| Dashboard.KeysOfPriorities | backend/controllers/taskController.js:298 | "Low", "Medium", "High" become "low", "medium", "high" |
| Dashboard.BucketsOfThree | backend/controllers/taskController.js:279-283 | the reduce over three labels sets their three keys in order |
| Dashboard.KeyedBuckets | backend/controllers/taskController.js:279-283 | three labels with distinct keys give a map with exactly those keys, each holding its label's count |
| Dashboard.StatusBuckets | backend/controllers/taskController.js:268-283 | the status buckets have exactly the keys pending, inprogress, completed, each the count of its exact label |
| Dashboard.PriorityBuckets | backend/controllers/taskController.js:286-301 | the priority buckets have exactly the keys low, medium, high, each the count of its exact label |
| Dashboard.InsertByNewest | backend/controllers/taskController.js:304 | inserting keeps every task, adds exactly one, and adds nothing else |
| Dashboard.SortByNewest | backend/controllers/taskController.js:304 | sorting is a permutation |
| Dashboard.InsertKeepsNewestFirst | backend/controllers/taskController.js:304 | inserting into a newest-first list keeps it newest first |
| Dashboard.SortedNewestFirst | backend/controllers/taskController.js:304 | the sorted list is newest first and a permutation of the input |
| Dashboard.RecentTasks | backend/controllers/taskController.js:303-306 | specified by RecentTasksSpec: at most ten tasks, newest first, and none left out is newer than one kept |
| Dashboard.RecentTasksSpec | backend/controllers/taskController.js:303-306 | at most ten recent tasks, all from the scope, newest first, and none left out is newer than one kept |
| Dashboard.OverdueAtMostTotal | backend/controllers/taskController.js:262-266 | the overdue tasks are at most the assigned ones |
| Dashboard.IsOverdue | backend/controllers/taskController.js:262-266 | specified by OverdueMembers: a task is overdue iff it has a due date before now and its status is not "completed" |
| Dashboard.OverdueMembers | backend/controllers/taskController.js:262-266 | the overdue tasks are exactly the listed tasks with a due date before now and a status other than "completed" |
| Dashboard.GetUserDashboardData | backend/controllers/taskController.js:255-330 | statistics count the assigned tasks by exact label, overdue is at most the total; the distribution has exactly the keys pending, inprogress, completed, all with their counts; priorities have exactly low, medium, high; recent tasks as RecentTasks |
| Reports.AssigneeLabel | backend/controllers/reportController.js:26 | an assignee's label is never empty |
| Reports.Joined | backend/controllers/reportController.js:25-27 | the joined text is empty iff there are no assignees, and one assignee gives its own label; with JoinedAppend, two non-empty lists join with ", " between them, so the text is the labels in order separated by ", " |
| Reports.JoinedAppend | backend/controllers/reportController.js:25-27 | the join of two non-empty assignee lists is the join of the first, ", ", and the join of the second |
| Reports.DatePart | backend/controllers/reportController.js:34 | the date part is the prefix of the ISO text up to, not including, the first 'T' |
| Reports.FirstCharacter | backend/controllers/reportController.js:34 | the written cell is the first character of a non-empty ISO text, and empty for an empty one |
| Reports.ExportTasksReport | backend/controllers/reportController.js:8-58 | fails with the 500 answer iff some task lacks its assignee array or due date; otherwise one row per task, in order, each the corrected row |
| Reports.ExportTasksReportAsWritten | backend/controllers/reportController.js:8-58 | as written, the report fails with the 500 answer iff some task lacks its assignee array or due date; otherwise one row per task, in order, each the row as written |
| Reports.RowAsWritten | backend/controllers/reportController.js:24-37 | specified by RowAsWrittenCells, DueDateCellTruncated and AssignedCellDiffers |
| Reports.RowOf | backend/controllers/reportController.js:24-37 | specified by RowOfCells: the corrected row with the date part and the joined assignees or "Unassigned" |
| Reports.RowAsWrittenCells | backend/controllers/reportController.js:28-36 | as written, the row copies the text fields, the Due Date cell is at most one character, and the Assigned To cell is the raw array, never "Unassigned" |
| Reports.AssignedCellDiffers | backend/controllers/reportController.js:25-35 | the written Assigned To cell never equals the intended one; with no assignees it is the empty array where "Unassigned" is meant |
| Reports.RowOfCells | backend/controllers/reportController.js:28-36 | the corrected row copies id, title, description, priority, status; holds the date part; writes "Unassigned" iff there are no assignees |
| Reports.DueDateCellTruncated | backend/controllers/reportController.js:34 | for any date whose date part is longer than one character, the written cell is only its first character |
| Reports.Put | backend/controllers/reportController.js:73 | setting a key updates the entry; an existing key keeps its place in the order, a new key is appended at the end; each key stays listed once |
| Reports.InitialMap | backend/controllers/reportController.js:71-81 | one entry per listed user id, each with undefined email and all four counters at 0; names and order are stated by InitialMapNames and InitialMapOrder |
| Reports.InitialMapNames | backend/controllers/reportController.js:72-80 | the entry of a user id holds the name of the last listed user with that id |
| Reports.InitialMapOrder | backend/controllers/reportController.js:72-80 | with distinct ids, the entries are ordered as the users are listed |
| Reports.IdsOf | backend/controllers/reportController.js:72-73 | the ids of the listed users, no more |
| Reports.IdsOfListed | backend/controllers/reportController.js:72-73 | every id in the set belongs to some listed user |
| Reports.CountAssignees | backend/controllers/reportController.js:85-98 | counting a task's assignees keeps the keys and the order |
| Reports.CountTask | backend/controllers/reportController.js:84-99 | counting one task keeps the keys and the order |
| Reports.CountTasks | backend/controllers/reportController.js:83-100 | counting every task keeps the keys and the order |
| Reports.InitUserTaskMap | backend/controllers/reportController.js:71-81 | the loop builds InitialMap |
| Reports.ExportUsersReport | backend/controllers/reportController.js:63-124 | with the loop element as the assignee, the nested loops compute CountTasks over the fresh map, and the rows are its values in insertion order |
| Reports.ExportUsersReportAsWritten | backend/controllers/reportController.js:63-143 | as written, the report fails with the 500 answer iff some task has a non-empty assignee array; otherwise every row is a fresh entry |
| Reports.CountAssigneesEntry | backend/controllers/reportController.js:85-97 | an entry gains one count per occurrence of its user among the assignees, and its status counter only on an exact label |
| Reports.CountTasksEntry | backend/controllers/reportController.js:83-100 | each entry's taskCount rises by its (assignee, task) pairs and each status counter by the pairs with exactly "Pending", "In Progress" or "Completed"; name and email stay |
| Reports.LabelledPairsAtMostAll | backend/controllers/reportController.js:88-96 | the pairs with one of the three labels are at most all pairs |
| Reports.StatusCountersAtMostTaskCount | backend/controllers/reportController.js:86-96 | for every user, pending + in progress + completed is at most the task count |
| Reports.NamedUserIsCounted | backend/controllers/reportController.js:85-87 | a user listed among a task's assignees has a task count of at least 1 |
| Reports.MentionsPositive | backend/controllers/reportController.js:85 | a user listed among the assignees is mentioned at least once |
| Reports.PairsPositive | backend/controllers/reportController.js:83-85 | a task mentioning a user yields at least one pair for that user |
| Reports.LowercaseStatusesNotCounted | backend/controllers/reportController.js:88-96 | statuses spelled as the checklist rule writes them raise no status counter |
| Reports.CountersNeverDecrease | backend/controllers/reportController.js:83-100 | counting keeps the keys and the order and lowers no counter |
| Reports.OneEntryPerUser | backend/controllers/reportController.js:72-81 | the order lists as many keys as the map holds |
| Reports.UsersViewRows | backend/controllers/reportController.js:122-124 | one row per map entry, row i holding the counters of the i-th user id |
| Reports.UsersViewRowPerUser | backend/controllers/reportController.js:71-124 | with distinct ids, there is one row per listed user, in order, each with that user's name, undefined email and the counts of its (assignee, task) pairs by exact label |
| Reports.NoAssignmentsNoCounts | backend/controllers/reportController.js:83-100 | with no task assigned to anyone the counted map is the fresh one |
| Reports.NoAssigneeKeepsMap | backend/controllers/reportController.js:84 | tasks without assignees leave the map unchanged |

## Left out

- Express routing, JSON responses beyond the status code and message, the JWT middleware, and `server.js` are left out. They are wiring or foreign library calls. The admin role check is folded into `IsAdmin`.
- Mongoose persistence is replaced by an in-memory map or sequence: `findById`, `find`, `save`, `countDocuments`, `aggregate` and `populate`. ObjectId casting is not modelled. Ids are strings, and both the `toString()` comparison and `includes` become membership. `populate` is assumed done: the report tasks arrive with their assignees resolved.
- The task schema (models/Task.js) is not part of this model. `TaskHandlers.CreateTask` returns the fields handed to `Task.create`. It does not fill defaults, insert the document or answer the 201.
- `getTaskById`, `deleteTask` and userController.js are not modelled. They only look up or delete a document.
- Progress.RoundedPercent: progress is exact rational rounding, not the double-precision `Math.round((k / n) * 100)`. The two can differ at some exact halves; for 23 of 40 items, the double product falls just below 57.5.
- Dates are integer timestamps, and the current time is a parameter of `Dashboard.GetUserDashboardData`. The report sees a due date as the text `toISOString` gives; date formatting is not modelled.
- Dashboard.IsOverdue: the `$lt`/`$ne` query is modelled on present values. A task without a due date is never overdue.
- TaskHandlers.MergeFields: a present due date is taken as truthy. The timestamp 0 (the epoch), which JavaScript treats as falsy, is not singled out.
- Dashboard.BucketKey: the `\s` class and `toLowerCase` are modelled on ASCII only. The labels the handler uses are ASCII.
- Dashboard.SortByNewest: tasks created at the same instant are ordered by insertion. The database gives no order for ties, so the lemmas claim nothing about it.
- Concurrency (`Promise.all`, the awaits) is treated as sequential. Exceptions other than the ones named in the contracts become 500 and are not modelled (a database error, for example).
- The spreadsheet itself is not modelled: the workbook, columns, widths, headers and streaming. Only the row values are. How exceljs renders an array in a cell is not modelled; `Cell.Users` holds the raw array.

## Findings

| source | as written | input that shows it | evidently intended | confidence | as-written member | corrected member |
|---|---|---|---|---|---|---|
| backend/controllers/reportController.js:86-95 | the assignee callback reads `assignedUser`, which is bound nowhere (the parameter is `assignedTo`), so it throws a ReferenceError and the users report answers 500 | any task whose assignee array holds one user | count each (assignee, task) pair for the loop element | high; not executed | Reports.ExportUsersReportAsWritten | Reports.ExportUsersReport |
| backend/controllers/reportController.js:34 | `split("")` splits the ISO text into characters, so the Due Date cell is its first character | due date "2025-03-01T00:00:00.000Z" gives the cell "2" | the date part "2025-03-01", as `split("T")[0]` gives | medium; not executed | Reports.DueDateCellTruncated | Reports.RowOfCells |
| backend/controllers/reportController.js:25-27,35 | the Assigned To cell is the raw populated array; the joined "name (email)" text is computed and dropped, and "Unassigned" is never written because an array is truthy | a task with assignees [] gives the cell [] instead of "Unassigned" | the joined text, or "Unassigned" when it is empty | high; not executed | Reports.AssignedCellDiffers | Reports.RowOfCells |
