/** The two spreadsheet exports of reportController.js: one row per task
    (`exportTasksReport`) and one row of counters per user
    (`exportUsersReport`). The workbook, its columns and the response
    stream are left out; the model produces the row values. */
module Reports {
  import opened Common
  import opened Progress

  /** The failure both exports answer with when the handler throws. */
  const ReportFailed := Response(500, "Error generating report")

  // ---------------------------------------------------------------------
  // Populated tasks

  /** A user as `populate("assignedTo", ...)` attaches it. The fields the
      projection does not select are `None` (`undefined`). */
  datatype Assignee = Assignee(id: UserId, name: string, email: Option<string>)

  /** A task as the reports read it, its assignees populated. The due date
      is the text `Date.prototype.toISOString` gives for it; date formatting
      itself is not part of this model. A stored `null` is `None`. */
  datatype PopulatedTask = PopulatedTask(
    id: TaskId,
    title: string,
    description: string,
    priority: string,
    status: string,
    dueDate: Option<string>,
    assignedTo: Option<seq<Assignee>>)

  // ---------------------------------------------------------------------
  // Task rows (reportController.js:24-37)

  /** A template literal renders a missing value as "undefined". */
  function Text(s: Option<string>): string {
    if s.Some? then s.value else "undefined"
  }

  /** `${user.name} (${user.email})`. */
  function AssigneeLabel(a: Assignee): (s: string)
    ensures |s| >= 3 && s[|s| - 1] == ')'
  {
    a.name + " (" + Text(a.email) + ")"
  }

  /** `.map(label).join(", ")`. */
  function Joined(assignees: seq<Assignee>): (s: string)
    ensures s == "" <==> assignees == []
    ensures assignees != [] ==> s[|s| - 1] == ')'
    ensures |assignees| == 1 ==> s == AssigneeLabel(assignees[0])
    decreases |assignees|
  {
    if assignees == [] then ""
    else if |assignees| == 1 then AssigneeLabel(assignees[0])
    else AssigneeLabel(assignees[0]) + ", " + Joined(assignees[1..])
  }

  /** Joining two non-empty lists of assignees puts ", " between their
      joins; with the one-assignee case this fixes the whole text. */
  lemma {:induction false} JoinedAppend(a: seq<Assignee>, b: seq<Assignee>)
    requires a != [] && b != []
    ensures Joined(a + b) == Joined(a) + ", " + Joined(b)
    decreases |a|
  {
    var ab := a + b;
    var head := AssigneeLabel(a[0]);
    assert Joined(ab) == head + ", " + Joined(ab[1..]) by {
      assert ab[0] == a[0] && |ab| >= 2;
    }
    if |a| == 1 {
      assert ab[1..] == b;
    } else {
      var rest := a[1..];
      assert ab[1..] == rest + b;
      JoinedAppend(rest, b);
      SeparatorAssoc(head, Joined(rest), Joined(b));
    }
  }

  /** Regrouping a text joined with ", " twice. */
  lemma SeparatorAssoc(h: string, x: string, y: string)
    ensures h + ", " + (x + ", " + y) == (h + ", " + x) + ", " + y
  {
  }

  /** `toISOString().split("T")[0]`: the text before the first 'T'. */
  function DatePart(iso: string): (d: string)
    ensures |d| <= |iso| && d == iso[..|d|]
    ensures forall i :: 0 <= i < |d| ==> d[i] != 'T'
    ensures |d| < |iso| ==> iso[|d|] == 'T'
  {
    if iso == [] || iso[0] == 'T' then ""
    else [iso[0]] + DatePart(iso[1..])
  }

  /** `toISOString().split("")[0]`: the first character, or an empty cell
      for an empty text. */
  function FirstCharacter(iso: string): (c: string)
    ensures |c| <= 1 && |c| <= |iso| && c == iso[..|c|]
    ensures |iso| > 0 ==> c == iso[..1]
  {
    if iso == [] then "" else iso[..1]
  }

  /** The value of the Assigned To cell: either the raw populated array or
      a text. */
  datatype Cell = Users(list: seq<Assignee>) | Plain(text: string)

  datatype TaskRow = TaskRow(
    id: TaskId,
    title: string,
    description: string,
    priority: string,
    status: string,
    dueDate: string,
    assignedTo: Cell)

  /** The handler reads `task.assignedTo.map` and `task.dueDate.toISOString`:
      a missing array or a missing due date throws. */
  predicate Exportable(t: PopulatedTask) {
    t.assignedTo.Some? && t.dueDate.Some?
  }

  /** The row as the handler writes it: the Due Date cell is the first
      character of the ISO text, and the Assigned To cell is the raw array
      (always truthy, so "Unassigned" never appears). The joined string is
      computed and dropped. */
  function RowAsWritten(t: PopulatedTask): TaskRow
    requires Exportable(t)
  {
    var unused := Joined(t.assignedTo.value);
    TaskRow(t.id, t.title, t.description, t.priority, t.status,
      FirstCharacter(t.dueDate.value), Users(t.assignedTo.value))
  }

  /** The row the handler evidently means: the date part of the ISO text,
      and the joined assignee labels, "Unassigned" when there are none. */
  function RowOf(t: PopulatedTask): TaskRow
    requires Exportable(t)
  {
    var joined := Joined(t.assignedTo.value);
    TaskRow(t.id, t.title, t.description, t.priority, t.status,
      DatePart(t.dueDate.value), Plain(if joined != "" then joined else "Unassigned"))
  }

  /** `exportTasksReport` with the corrected cells: one row per task, in
      order, or the 500 answer when some task lacks its assignee array or
      its due date. */
  method ExportTasksReport(tasks: seq<PopulatedTask>) returns (r: Result<seq<TaskRow>, Response>)
    ensures r.Failure? <==> exists i :: 0 <= i < |tasks| && !Exportable(tasks[i])
    ensures r.Failure? ==> r.error == ReportFailed
    ensures r.Success? ==> |r.value| == |tasks|
    ensures r.Success? ==> forall i :: 0 <= i < |tasks| ==> Exportable(tasks[i]) && r.value[i] == RowOf(tasks[i])
  {
    var rows: seq<TaskRow> := [];
    for i := 0 to |tasks|
      invariant |rows| == i
      invariant forall j :: 0 <= j < i ==> Exportable(tasks[j]) && rows[j] == RowOf(tasks[j])
    {
      if !Exportable(tasks[i]) {
        return Failure(ReportFailed);
      }
      rows := rows + [RowOf(tasks[i])];
    }
    return Success(rows);
  }

  /** `exportTasksReport` as written: the same failures, and one row per
      task, in order, with the cells the handler actually writes. */
  method ExportTasksReportAsWritten(tasks: seq<PopulatedTask>) returns (r: Result<seq<TaskRow>, Response>)
    ensures r.Failure? <==> exists i :: 0 <= i < |tasks| && !Exportable(tasks[i])
    ensures r.Failure? ==> r.error == ReportFailed
    ensures r.Success? ==> |r.value| == |tasks|
    ensures r.Success? ==> forall i :: 0 <= i < |tasks| ==> Exportable(tasks[i]) && r.value[i] == RowAsWritten(tasks[i])
  {
    var rows: seq<TaskRow> := [];
    for i := 0 to |tasks|
      invariant |rows| == i
      invariant forall j :: 0 <= j < i ==> Exportable(tasks[j]) && rows[j] == RowAsWritten(tasks[j])
    {
      if !Exportable(tasks[i]) {
        return Failure(ReportFailed);
      }
      rows := rows + [RowAsWritten(tasks[i])];
    }
    return Success(rows);
  }

  // Lemmas about the task rows

  /** The corrected row copies the text fields, writes the date part and a
      readable Assigned To text: "Unassigned" exactly when the array is
      empty. */
  lemma RowOfCells(t: PopulatedTask)
    requires Exportable(t)
    ensures var r := RowOf(t);
      && r.id == t.id && r.title == t.title && r.description == t.description
      && r.priority == t.priority && r.status == t.status
      && r.dueDate == DatePart(t.dueDate.value)
      && r.assignedTo.Plain?
      && (r.assignedTo.text == "Unassigned" <==> t.assignedTo.value == [])
      && (t.assignedTo.value != [] ==> r.assignedTo.text == Joined(t.assignedTo.value))
  {
    var joined := Joined(t.assignedTo.value);
    if joined != "" {
      assert joined[|joined| - 1] == ')' != "Unassigned"[|"Unassigned"| - 1];
    }
  }

  /** As written, the Due Date cell holds at most one character and the
      Assigned To cell is never a text, so "Unassigned" is never written. */
  lemma RowAsWrittenCells(t: PopulatedTask)
    requires Exportable(t)
    ensures var r := RowAsWritten(t);
      && r.id == t.id && r.title == t.title && r.description == t.description
      && r.priority == t.priority && r.status == t.status
      && r.dueDate == FirstCharacter(t.dueDate.value) && |r.dueDate| <= 1
      && r.assignedTo == Users(t.assignedTo.value)
      && r.assignedTo != Plain("Unassigned")
  {
  }

  /** The discrepancy in the Due Date cell: for an ISO text whose date part
      has more than one character (every real date), the written cell is
      only the first character of the date the row means. */
  lemma DueDateCellTruncated(t: PopulatedTask)
    requires Exportable(t)
    requires |DatePart(t.dueDate.value)| > 1
    ensures |RowAsWritten(t).dueDate| == 1 < |RowOf(t).dueDate|
    ensures RowAsWritten(t).dueDate == RowOf(t).dueDate[..1]
  {
    var iso := t.dueDate.value;
    var d := DatePart(iso);
    assert iso[..1] == d[..1];
  }

  /** The discrepancy in the Assigned To cell: the rows never agree on it,
      and a task with no assignees gets the raw empty array where the
      corrected row says "Unassigned". */
  lemma AssignedCellDiffers(t: PopulatedTask)
    requires Exportable(t)
    ensures RowAsWritten(t).assignedTo != RowOf(t).assignedTo
    ensures t.assignedTo.value == [] ==>
      RowAsWritten(t).assignedTo == Users([]) && RowOf(t).assignedTo == Plain("Unassigned")
  {
  }

  // ---------------------------------------------------------------------
  // The user counters map (reportController.js:63-124)

  /** A user as `User.find().select("name email_id").lean()` returns it:
      the projection selects `name` and `email_id`, so the `email` the
      handler reads is always `undefined`. */
  datatype LeanUser = LeanUser(id: UserId, name: string)

  /** One entry of `userTaskMap`, and one row of the users view. */
  datatype UserStats = UserStats(
    name: string,
    email: Option<string>,
    taskCount: nat,
    pendingTasks: nat,
    inProgressTasks: nat,
    completedTasks: nat)

  /** A plain object used as a dictionary: its entries and the order in
      which its keys were first set, which `Object.values` follows. */
  datatype UserTaskMap = UserTaskMap(entries: map<UserId, UserStats>, order: seq<UserId>)

  predicate Distinct(s: seq<UserId>) {
    forall i, j :: 0 <= i < j < |s| ==> s[i] != s[j]
  }

  /** The order lists every key once. */
  ghost predicate WellFormed(o: UserTaskMap) {
    && (forall k :: k in o.entries <==> k in o.order)
    && Distinct(o.order)
  }

  /** `obj[k] = v`: a new key goes to the end of the order, an existing one
      keeps its place. */
  function Put(o: UserTaskMap, k: UserId, v: UserStats): (r: UserTaskMap)
    ensures r.entries == o.entries[k := v]
    ensures k in o.entries ==> r.order == o.order
    ensures k !in o.entries ==> r.order == o.order + [k]
    ensures WellFormed(o) ==> WellFormed(r)
  {
    UserTaskMap(o.entries[k := v], if k in o.entries then o.order else o.order + [k])
  }

  /** `Object.values(userTaskMap)`. */
  function Values(o: UserTaskMap): (rows: seq<UserStats>)
    requires WellFormed(o)
  {
    seq(|o.order|, i requires 0 <= i < |o.order| => o.entries[o.order[i]])
  }

  /** The fresh entry for a user: its name, the `undefined` email, and
      every counter at 0. */
  function Fresh(u: LeanUser): UserStats {
    UserStats(u.name, None, 0, 0, 0, 0)
  }

  /** The map after `users.forEach` at reportController.js:72-81. */
  function InitialMap(users: seq<LeanUser>): (o: UserTaskMap)
    ensures WellFormed(o)
    ensures forall k :: k in o.entries ==>
      (o.entries[k].email == None && o.entries[k].taskCount == o.entries[k].pendingTasks ==
       o.entries[k].inProgressTasks == o.entries[k].completedTasks == 0)
    ensures o.entries.Keys == IdsOf(users)
    decreases |users|
  {
    if users == [] then UserTaskMap(map[], [])
    else
      var last := users[|users| - 1];
      Put(InitialMap(users[..|users| - 1]), last.id, Fresh(last))
  }

  /** Each entry carries the name of the last user listed with its id
      (`name: user.name`). */
  lemma {:induction false} InitialMapNames(users: seq<LeanUser>, i: int)
    requires 0 <= i < |users| && LastWithId(users, i)
    ensures InitialMap(users).entries[users[i].id].name == users[i].name
    decreases |users|
  {
    var n := |users| - 1;
    var prefix := users[..n];
    InitialMapStep(users);
    if i < n {
      assert LastWithId(prefix, i) by {
        forall j | i < j < n ensures prefix[j].id != prefix[i].id {
          assert prefix[j] == users[j] && prefix[i] == users[i];
        }
      }
      InitialMapNames(prefix, i);
      assert prefix[i] == users[i];
    }
  }

  /** The last listed user's entry is put over the map of the others. */
  lemma InitialMapStep(users: seq<LeanUser>)
    requires users != []
    ensures var n := |users| - 1;
      InitialMap(users).entries == InitialMap(users[..n]).entries[users[n].id := Fresh(users[n])]
  {
  }

  /** With distinct ids the keys are in the order the users were listed. */
  lemma {:induction false} InitialMapOrder(users: seq<LeanUser>)
    requires DistinctIds(users)
    ensures InitialMap(users).order == IdSeq(users)
    decreases |users|
  {
    if users != [] {
      var n := |users| - 1;
      var prefix := users[..n];
      assert DistinctIds(prefix);
      InitialMapOrder(prefix);
      if users[n].id in IdsOf(prefix) {
        var j := IdsOfListed(prefix, users[n].id);
        assert false;
      }
      assert IdSeq(users) == IdSeq(prefix) + [users[n].id];
    }
  }

  /** No later user shares the id of user i: theirs is the entry's name. */
  predicate LastWithId(users: seq<LeanUser>, i: int)
    requires 0 <= i < |users|
  {
    forall j :: i < j < |users| ==> users[j].id != users[i].id
  }

  /** Every user has an id of their own, as document ids are. */
  predicate DistinctIds(users: seq<LeanUser>) {
    forall i, j :: 0 <= i < j < |users| ==> users[i].id != users[j].id
  }

  /** The users' ids in listed order. */
  function IdSeq(users: seq<LeanUser>): seq<UserId> {
    seq(|users|, i requires 0 <= i < |users| => users[i].id)
  }

  /** The ids of the listed users. */
  function IdsOf(users: seq<LeanUser>): (ids: set<UserId>)
    ensures forall i :: 0 <= i < |users| ==> users[i].id in ids
    decreases |users|
  {
    if users == [] then {}
    else IdsOf(users[..|users| - 1]) + {users[|users| - 1].id}
  }

  /** Every id in the set belongs to a listed user. */
  lemma {:induction false} IdsOfListed(users: seq<LeanUser>, k: UserId) returns (i: int)
    requires k in IdsOf(users)
    ensures 0 <= i < |users| && users[i].id == k
    decreases |users|
  {
    var n := |users| - 1;
    if users[n].id == k {
      i := n;
    } else {
      i := IdsOfListed(users[..n], k);
    }
  }

  /** Count one (assignee, task) pair: the total, and the one counter whose
      label matches the status exactly. */
  function Tally(s: UserStats, status: string): UserStats {
    Credit(s, status, 1)
  }

  /** `n` pairs with the same status added to an entry. */
  function Credit(s: UserStats, status: string, n: nat): UserStats {
    s.(taskCount := s.taskCount + n,
       pendingTasks := s.pendingTasks + (if status == "Pending" then n else 0),
       inProgressTasks := s.inProgressTasks + (if status == "In Progress" then n else 0),
       completedTasks := s.completedTasks + (if status == "Completed" then n else 0))
  }

  /** The inner `forEach` over a task's assignees, the loop element used as
      the assignee: an assignee without an entry changes nothing. */
  function CountAssignees(o: UserTaskMap, assignees: seq<Assignee>, status: string): (r: UserTaskMap)
    ensures r.order == o.order && r.entries.Keys == o.entries.Keys
    decreases |assignees|
  {
    if assignees == [] then o
    else
      var prev := CountAssignees(o, assignees[..|assignees| - 1], status);
      var a := assignees[|assignees| - 1];
      if a.id in prev.entries then Put(prev, a.id, Tally(prev.entries[a.id], status)) else prev
  }

  /** One task: a falsy `assignedTo` changes nothing. */
  function CountTask(o: UserTaskMap, t: PopulatedTask): (r: UserTaskMap)
    ensures r.order == o.order && r.entries.Keys == o.entries.Keys
  {
    if t.assignedTo.Some? then CountAssignees(o, t.assignedTo.value, t.status) else o
  }

  /** The outer `forEach` over the tasks. */
  function CountTasks(o: UserTaskMap, tasks: seq<PopulatedTask>): (r: UserTaskMap)
    ensures r.order == o.order && r.entries.Keys == o.entries.Keys
    decreases |tasks|
  {
    if tasks == [] then o
    else CountTask(CountTasks(o, tasks[..|tasks| - 1]), tasks[|tasks| - 1])
  }

  /** Builds the map of reportController.js:71-81. */
  method InitUserTaskMap(users: seq<LeanUser>) returns (o: UserTaskMap)
    ensures o == InitialMap(users)
  {
    o := UserTaskMap(map[], []);
    for i := 0 to |users|
      invariant o == InitialMap(users[..i])
    {
      var u := users[i];
      o := Put(o, u.id, Fresh(u));
      assert users[..i + 1][..i] == users[..i];
    }
    assert users[..|users|] == users;
  }

  /** `exportUsersReport` with the loop element as the assignee: one row
      per user entry, holding the counts of the (assignee, task) pairs. */
  method ExportUsersReport(users: seq<LeanUser>, tasks: seq<PopulatedTask>) returns (rows: seq<UserStats>)
    ensures WellFormed(CountTasks(InitialMap(users), tasks))
    ensures rows == Values(CountTasks(InitialMap(users), tasks))
  {
    var userTaskMap := InitUserTaskMap(users);
    ghost var start := userTaskMap;
    for i := 0 to |tasks|
      invariant userTaskMap == CountTasks(start, tasks[..i])
    {
      var task := tasks[i];
      assert tasks[..i + 1][..i] == tasks[..i];
      if task.assignedTo.Some? {
        var assignees := task.assignedTo.value;
        ghost var before := userTaskMap;
        for j := 0 to |assignees|
          invariant userTaskMap == CountAssignees(before, assignees[..j], task.status)
        {
          var assignee := assignees[j];
          assert assignees[..j + 1][..j] == assignees[..j];
          if assignee.id in userTaskMap.entries {
            userTaskMap := Put(userTaskMap, assignee.id, Tally(userTaskMap.entries[assignee.id], task.status));
          }
        }
        assert assignees[..|assignees|] == assignees;
      }
    }
    assert tasks[..|tasks|] == tasks;
    CountingKeepsWellFormed(start, tasks);
    rows := Values(userTaskMap);
  }

  /** A task whose assignee array is non-empty: the callback at
      reportController.js:85-98 runs for it. */
  predicate HasAssignee(t: PopulatedTask) {
    t.assignedTo.Some? && |t.assignedTo.value| > 0
  }

  /** `exportUsersReport` as written: the callback's first statement reads
      `assignedUser`, a name bound nowhere, so the first assignee of any
      task throws and the handler answers 500. Without any assignee the
      rows are the fresh entries. */
  method ExportUsersReportAsWritten(users: seq<LeanUser>, tasks: seq<PopulatedTask>)
    returns (r: Result<seq<UserStats>, Response>)
    ensures r.Failure? <==> exists i :: 0 <= i < |tasks| && HasAssignee(tasks[i])
    ensures r.Failure? ==> r.error == ReportFailed
    ensures r.Success? ==> r.value == Values(InitialMap(users))
  {
    var userTaskMap := InitUserTaskMap(users);
    for i := 0 to |tasks|
      invariant forall j :: 0 <= j < i ==> !HasAssignee(tasks[j])
    {
      var task := tasks[i];
      if task.assignedTo.Some? && |task.assignedTo.value| > 0 {
        return Failure(ReportFailed);
      }
    }
    return Success(Values(userTaskMap));
  }

  // ---------------------------------------------------------------------
  // Lemmas about the counters

  /** Occurrences of a user among a task's assignees. */
  function Mentions(k: UserId, assignees: seq<Assignee>): nat
    decreases |assignees|
  {
    if assignees == [] then 0
    else Mentions(k, assignees[..|assignees| - 1]) + (if assignees[|assignees| - 1].id == k then 1 else 0)
  }

  /** The (assignee, task) pairs naming `k`, over tasks with an assignee
      array and, when `only` is given, with exactly that status. */
  function Pairs(k: UserId, tasks: seq<PopulatedTask>, only: Option<string>): nat
    decreases |tasks|
  {
    if tasks == [] then 0
    else
      var t := tasks[|tasks| - 1];
      Pairs(k, tasks[..|tasks| - 1], only) +
        (if t.assignedTo.Some? && (only.None? || t.status == only.value) then Mentions(k, t.assignedTo.value) else 0)
  }

  lemma {:induction false} CountAssigneesEntry(o: UserTaskMap, assignees: seq<Assignee>, status: string, k: UserId)
    requires k in o.entries
    ensures CountAssignees(o, assignees, status).entries[k] == Credit(o.entries[k], status, Mentions(k, assignees))
    decreases |assignees|
  {
    if assignees != [] {
      CountAssigneesEntry(o, assignees[..|assignees| - 1], status, k);
    }
  }

  /** Every entry ends with its counters raised by the number of pairs that
      name it: one per assignee occurrence for `taskCount`, and for each
      status counter only the tasks with exactly that label. Name and email
      stay as they were. */
  lemma {:induction false} CountTasksEntry(o: UserTaskMap, tasks: seq<PopulatedTask>, k: UserId)
    requires k in o.entries
    ensures var s, s' := o.entries[k], CountTasks(o, tasks).entries[k];
      && s'.name == s.name && s'.email == s.email
      && s'.taskCount == s.taskCount + Pairs(k, tasks, None)
      && s'.pendingTasks == s.pendingTasks + Pairs(k, tasks, Some("Pending"))
      && s'.inProgressTasks == s.inProgressTasks + Pairs(k, tasks, Some("In Progress"))
      && s'.completedTasks == s.completedTasks + Pairs(k, tasks, Some("Completed"))
    decreases |tasks|
  {
    if tasks != [] {
      var prefix := tasks[..|tasks| - 1];
      var t := tasks[|tasks| - 1];
      CountTasksEntry(o, prefix, k);
      if t.assignedTo.Some? {
        CountAssigneesEntry(CountTasks(o, prefix), t.assignedTo.value, t.status, k);
      }
    }
  }

  lemma CountingKeepsWellFormed(o: UserTaskMap, tasks: seq<PopulatedTask>)
    requires WellFormed(o)
    ensures WellFormed(CountTasks(o, tasks))
  {
  }

  /** The pairs with one of three distinct labels are among all pairs. */
  lemma {:induction false} LabelledPairsAtMostAll(k: UserId, tasks: seq<PopulatedTask>)
    ensures Pairs(k, tasks, Some("Pending")) + Pairs(k, tasks, Some("In Progress")) +
      Pairs(k, tasks, Some("Completed")) <= Pairs(k, tasks, None)
    decreases |tasks|
  {
    if tasks != [] {
      LabelledPairsAtMostAll(k, tasks[..|tasks| - 1]);
    }
  }

  /** Each pair raises at most one status counter, so for every user the
      three status counters together never exceed the task count. */
  lemma StatusCountersAtMostTaskCount(users: seq<LeanUser>, tasks: seq<PopulatedTask>)
    ensures var o := CountTasks(InitialMap(users), tasks);
      forall k :: k in o.entries ==>
        o.entries[k].pendingTasks + o.entries[k].inProgressTasks + o.entries[k].completedTasks
          <= o.entries[k].taskCount
  {
    var o := CountTasks(InitialMap(users), tasks);
    forall k | k in o.entries
      ensures o.entries[k].pendingTasks + o.entries[k].inProgressTasks + o.entries[k].completedTasks
        <= o.entries[k].taskCount
    {
      CountTasksEntry(InitialMap(users), tasks, k);
      LabelledPairsAtMostAll(k, tasks);
    }
  }

  /** A task counts once for every occurrence of a user among its
      assignees: a user named by a task has a task count of at least 1. */
  lemma {:induction false} NamedUserIsCounted(users: seq<LeanUser>, tasks: seq<PopulatedTask>, i: int, j: int)
    requires 0 <= i < |tasks| && tasks[i].assignedTo.Some?
    requires 0 <= j < |tasks[i].assignedTo.value|
    requires tasks[i].assignedTo.value[j].id in InitialMap(users).entries
    ensures CountTasks(InitialMap(users), tasks).entries[tasks[i].assignedTo.value[j].id].taskCount >= 1
  {
    var k := tasks[i].assignedTo.value[j].id;
    CountTasksEntry(InitialMap(users), tasks, k);
    MentionsPositive(k, tasks[i].assignedTo.value, j);
    PairsPositive(k, tasks, i);
  }

  lemma {:induction false} MentionsPositive(k: UserId, assignees: seq<Assignee>, j: int)
    requires 0 <= j < |assignees| && assignees[j].id == k
    ensures Mentions(k, assignees) >= 1
    decreases |assignees|
  {
    if j < |assignees| - 1 {
      MentionsPositive(k, assignees[..|assignees| - 1], j);
    }
  }

  lemma {:induction false} PairsPositive(k: UserId, tasks: seq<PopulatedTask>, i: int)
    requires 0 <= i < |tasks| && tasks[i].assignedTo.Some?
    requires Mentions(k, tasks[i].assignedTo.value) >= 1
    ensures Pairs(k, tasks, None) >= 1
    decreases |tasks|
  {
    if i < |tasks| - 1 {
      PairsPositive(k, tasks[..|tasks| - 1], i);
    }
  }

  /** Statuses spelled the way the checklist rule writes them never match
      the report's capitalised labels: such tasks raise only `taskCount`. */
  lemma {:induction false} LowercaseStatusesNotCounted(k: UserId, tasks: seq<PopulatedTask>)
    requires forall i :: 0 <= i < |tasks| ==> IsDerivedLabel(tasks[i].status)
    ensures Pairs(k, tasks, Some("Pending")) == 0
    ensures Pairs(k, tasks, Some("In Progress")) == 0
    ensures Pairs(k, tasks, Some("Completed")) == 0
    decreases |tasks|
  {
    if tasks != [] {
      LowercaseStatusesNotCounted(k, tasks[..|tasks| - 1]);
    }
  }

  /** Counting never lowers a counter and never adds or removes an entry. */
  lemma CountersNeverDecrease(o: UserTaskMap, tasks: seq<PopulatedTask>)
    ensures var r := CountTasks(o, tasks);
      && r.entries.Keys == o.entries.Keys && r.order == o.order
      && forall k :: k in o.entries ==>
           && r.entries[k].taskCount >= o.entries[k].taskCount
           && r.entries[k].pendingTasks >= o.entries[k].pendingTasks
           && r.entries[k].inProgressTasks >= o.entries[k].inProgressTasks
           && r.entries[k].completedTasks >= o.entries[k].completedTasks
  {
    var r := CountTasks(o, tasks);
    forall k | k in o.entries
      ensures && r.entries[k].taskCount >= o.entries[k].taskCount
              && r.entries[k].pendingTasks >= o.entries[k].pendingTasks
              && r.entries[k].inProgressTasks >= o.entries[k].inProgressTasks
              && r.entries[k].completedTasks >= o.entries[k].completedTasks
    {
      CountTasksEntry(o, tasks, k);
    }
  }

  /** The map holds one entry per distinct user id. */
  lemma {:induction false} OneEntryPerUser(users: seq<LeanUser>)
    ensures |InitialMap(users).order| == |InitialMap(users).entries|
    decreases |users|
  {
    if users != [] {
      OneEntryPerUser(users[..|users| - 1]);
    }
  }

  /** The users view has exactly one row per entry, in the order the users
      were listed, and row i holds the counts of the i-th user id. */
  lemma UsersViewRows(users: seq<LeanUser>, tasks: seq<PopulatedTask>)
    ensures var o := CountTasks(InitialMap(users), tasks);
      WellFormed(o) &&
      var rows := Values(o);
      && |rows| == |o.entries| == |InitialMap(users).entries|
      && (forall i :: 0 <= i < |rows| ==> rows[i] == o.entries[InitialMap(users).order[i]])
  {
    OneEntryPerUser(users);
    CountingKeepsWellFormed(InitialMap(users), tasks);
  }

  /** With distinct user ids the users view has one row per user, in the
      order of the users, and row i carries user i's name, the undefined
      email, and the counts of the (assignee, task) pairs naming that user. */
  lemma UsersViewRowPerUser(users: seq<LeanUser>, tasks: seq<PopulatedTask>)
    requires DistinctIds(users)
    ensures var o := CountTasks(InitialMap(users), tasks);
      WellFormed(o) &&
      var rows := Values(o);
      && |rows| == |users|
      && forall i :: 0 <= i < |users| ==>
           && rows[i].name == users[i].name && rows[i].email == None
           && rows[i].taskCount == Pairs(users[i].id, tasks, None)
           && rows[i].pendingTasks == Pairs(users[i].id, tasks, Some("Pending"))
           && rows[i].inProgressTasks == Pairs(users[i].id, tasks, Some("In Progress"))
           && rows[i].completedTasks == Pairs(users[i].id, tasks, Some("Completed"))
  {
    var start := InitialMap(users);
    var o := CountTasks(start, tasks);
    CountingKeepsWellFormed(start, tasks);
    InitialMapOrder(users);
    var rows := Values(o);
    forall i | 0 <= i < |users|
      ensures && rows[i].name == users[i].name && rows[i].email == None
              && rows[i].taskCount == Pairs(users[i].id, tasks, None)
              && rows[i].pendingTasks == Pairs(users[i].id, tasks, Some("Pending"))
              && rows[i].inProgressTasks == Pairs(users[i].id, tasks, Some("In Progress"))
              && rows[i].completedTasks == Pairs(users[i].id, tasks, Some("Completed"))
    {
      InitialMapOrder(users);
      assert start.order[i] == users[i].id;
      InitialMapNames(users, i);
      CountTasksEntry(start, tasks, users[i].id);
    }
  }

  /** With no task assigned to anyone, the report as written succeeds with
      every row at zero, which is also what the corrected count gives. */
  lemma NoAssignmentsNoCounts(users: seq<LeanUser>, tasks: seq<PopulatedTask>)
    requires forall i :: 0 <= i < |tasks| ==> !HasAssignee(tasks[i])
    ensures CountTasks(InitialMap(users), tasks) == InitialMap(users)
  {
    NoAssigneeKeepsMap(InitialMap(users), tasks);
  }

  lemma {:induction false} NoAssigneeKeepsMap(o: UserTaskMap, tasks: seq<PopulatedTask>)
    requires forall i :: 0 <= i < |tasks| ==> !HasAssignee(tasks[i])
    ensures CountTasks(o, tasks) == o
    decreases |tasks|
  {
    if tasks != [] {
      NoAssigneeKeepsMap(o, tasks[..|tasks| - 1]);
      var t := tasks[|tasks| - 1];
      assert !HasAssignee(t);
      if t.assignedTo.Some? {
        assert t.assignedTo.value == [];
      }
    }
  }
}
