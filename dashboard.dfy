/** The read handlers of taskController.js that count and bucket tasks:
    `getTasks`, `getDashboardData` and `getUserDashboardData`.

    The store's queries become filters over an in-memory sequence of tasks:
    `find` and `countDocuments` with a filter are `Where`, and the
    `$group` aggregation is `GroupBy`. */
module Dashboard {
  import opened Common
  import opened Progress

  // ---------------------------------------------------------------------
  // Queries over the collection

  /** The tasks that satisfy `p`, in stored order. */
  function Where(ts: seq<Task>, p: Task -> bool): (r: seq<Task>)
    ensures |r| <= |ts|
    ensures forall t :: t in r <==> t in ts && p(t)
  {
    if ts == [] then []
    else (if p(ts[0]) then [ts[0]] else []) + Where(ts[1..], p)
  }

  /** The task field a query or a grouping looks at. */
  datatype Field = Status | Priority

  function FieldOf(t: Task, f: Field): string {
    match f
    case Status => t.status
    case Priority => t.priority
  }

  /** `{ field: label }`: an exact, case-sensitive match. */
  function Matching(ts: seq<Task>, f: Field, name: string): seq<Task> {
    Where(ts, t => FieldOf(t, f) == name)
  }

  /** `{ assignedTo: user }`: the tasks whose assignee array holds the user. */
  function AssignedTo(ts: seq<Task>, user: UserId): seq<Task> {
    Where(ts, (t: Task) => user in t.assignedTo)
  }

  // ---------------------------------------------------------------------
  // GET /tasks (taskController.js:6-54)

  /** A listed task with the number of its checked items attached. */
  datatype TaskView = TaskView(task: Task, completedTodoCount: nat)

  datatype StatusSummary = StatusSummary(all: nat, pendingTasks: nat, inProgressTasks: nat, completedTasks: nat)

  datatype TaskListing = TaskListing(tasks: seq<TaskView>, statusSummary: StatusSummary)

  /** The tasks a requester may list: all of them for an admin, the ones
      assigned to them otherwise. */
  function Scope(ts: seq<Task>, r: Requester): seq<Task> {
    if IsAdmin(r) then ts else AssignedTo(ts, r.id)
  }

  /** The optional `?status=` filter; a falsy query string filters nothing. */
  function FilterByQuery(ts: seq<Task>, status: Option<string>): seq<Task> {
    if Truthy(status) then Matching(ts, Status, status.value) else ts
  }

  /** The summary counts over the requester's scope. The labels are
      "pending", "In Progress" and "Completed", so a task whose status the
      checklist rule wrote as "in-progress" or "completed" is in neither of
      the last two counts. */
  function SummaryOf(scope: seq<Task>): StatusSummary {
    StatusSummary(
      |scope|,
      |Matching(scope, Status, "pending")|,
      |Matching(scope, Status, "In Progress")|,
      |Matching(scope, Status, "Completed")|)
  }

  function GetTasks(ts: seq<Task>, r: Requester, status: Option<string>): TaskListing {
    var scope := Scope(ts, r);
    var listed := FilterByQuery(scope, status);
    TaskListing(
      seq(|listed|, i requires 0 <= i < |listed| =>
        TaskView(listed[i], CompletedCount(listed[i].todoChecklist))),
      SummaryOf(scope))
  }

  // ---------------------------------------------------------------------
  // GET /tasks/dashboard-data (taskController.js:232-250)

  datatype AdminDashboard = AdminDashboard(totalTasks: nat, pending: nat, inProgress: nat, completed: nat, tasks: seq<Task>)

  /** Counts over the whole collection, with the checklist rule's labels. */
  function GetDashboardData(ts: seq<Task>): AdminDashboard {
    AdminDashboard(
      |ts|,
      |Matching(ts, Status, "pending")|,
      |Matching(ts, Status, "in-progress")|,
      |Matching(ts, Status, "completed")|,
      ts)
  }

  // ---------------------------------------------------------------------
  // Grouping and bucketing (taskController.js:268-301)

  /** One result of the `$group` stage: a field value and how many tasks
      carry it. */
  datatype Group = Group(id: string, count: nat)

  /** Add one task with field value `k` to the groups. */
  function Bump(gs: seq<Group>, k: string): seq<Group> {
    if gs == [] then [Group(k, 1)]
    else if gs[0].id == k then [gs[0].(count := gs[0].count + 1)] + gs[1..]
    else [gs[0]] + Bump(gs[1..], k)
  }

  function GroupFrom(gs: seq<Group>, ts: seq<Task>, f: Field): seq<Group>
    decreases |ts|
  {
    if ts == [] then gs else GroupFrom(Bump(gs, FieldOf(ts[0], f)), ts[1..], f)
  }

  /** `$group: { _id: "$field", count: { $sum: 1 } }`, its groups in order of
      first occurrence (the handler's lookup does not depend on the order). */
  function GroupBy(ts: seq<Task>, f: Field): seq<Group> {
    GroupFrom([], ts, f)
  }

  /** `raw.find(item => item._id === label)?.count || 0`. */
  function Find(gs: seq<Group>, name: string): nat {
    if gs == [] then 0
    else if gs[0].id == name then gs[0].count
    else Find(gs[1..], name)
  }

  /** The ASCII characters of the regular-expression class `\s`. */
  predicate IsSpace(c: char) {
    c == ' ' || c == '\t' || c == '\n' || c == '\r' || c == 11 as char || c == 12 as char
  }

  function LowerChar(c: char): char {
    if 'A' <= c <= 'Z' then (c as int + 32) as char else c
  }

  /** `label.replace(/\s+/g, "").toLowerCase()`. */
  function BucketKey(name: string): string
  {
    if name == [] then []
    else (if IsSpace(name[0]) then [] else [LowerChar(name[0])]) + BucketKey(name[1..])
  }

  /** The accumulator of the `reduce` after the given labels. */
  function BucketsOf(labels: seq<string>, raw: seq<Group>): map<string, int>
    decreases |labels|
  {
    if labels == [] then map[]
    else
      var last := labels[|labels| - 1];
      BucketsOf(labels[..|labels| - 1], raw)[BucketKey(last) := Find(raw, last)]
  }

  /** The `reduce` of taskController.js:279-283 and :297-300: one key per
      label, holding the count of the group with exactly that label. */
  method Buckets(labels: seq<string>, raw: seq<Group>) returns (acc: map<string, int>)
    ensures acc == BucketsOf(labels, raw)
  {
    acc := map[];
    var i := 0;
    while i < |labels|
      invariant 0 <= i <= |labels|
      invariant acc == BucketsOf(labels[..i], raw)
    {
      var key := BucketKey(labels[i]);
      acc := acc[key := Find(raw, labels[i])];
      assert labels[..i + 1][..i] == labels[..i];
      i := i + 1;
    }
    assert labels[..i] == labels;
  }

  // ---------------------------------------------------------------------
  // Recent tasks (taskController.js:303-306)

  /** The projection `select("title status priority createdAt")`, with the id. */
  datatype RecentTask = RecentTask(id: TaskId, title: string, status: string, priority: string, createdAt: int)

  predicate NewestFirst(ts: seq<Task>) {
    forall i, j :: 0 <= i < j < |ts| ==> ts[i].createdAt >= ts[j].createdAt
  }

  function InsertByNewest(t: Task, sorted: seq<Task>): (r: seq<Task>)
    ensures multiset(r) == multiset(sorted) + multiset{t}
    ensures |r| == |sorted| + 1
    ensures forall x :: x in r ==> x == t || x in sorted
  {
    if sorted == [] || t.createdAt >= sorted[0].createdAt then [t] + sorted
    else
      assert sorted == [sorted[0]] + sorted[1..];
      [sorted[0]] + InsertByNewest(t, sorted[1..])
  }

  /** `sort({ createdAt: -1 })`. */
  function SortByNewest(ts: seq<Task>): (r: seq<Task>)
    ensures multiset(r) == multiset(ts)
    ensures |r| == |ts|
  {
    if ts == [] then []
    else
      assert ts == [ts[0]] + ts[1..];
      InsertByNewest(ts[0], SortByNewest(ts[1..]))
  }

  function Project(t: Task): RecentTask {
    RecentTask(t.id, t.title, t.status, t.priority, t.createdAt)
  }

  const RecentLimit := 10

  /** `sort({ createdAt: -1 }).limit(10).select(...)`. */
  function RecentTasks(ts: seq<Task>): seq<RecentTask> {
    var sorted := SortByNewest(ts);
    var kept := if |sorted| <= RecentLimit then sorted else sorted[..RecentLimit];
    seq(|kept|, i requires 0 <= i < |kept| => Project(kept[i]))
  }

  // ---------------------------------------------------------------------
  // GET /tasks/user-dashboard-data (taskController.js:255-330)

  datatype Statistics = Statistics(totalTasks: nat, pendingTasks: nat, completedTasks: nat, overdueTasks: nat)

  datatype Charts = Charts(taskDistribution: map<string, int>, taskPriorityLevels: map<string, int>)

  datatype UserDashboard = UserDashboard(statistics: Statistics, charts: Charts, recentTasks: seq<RecentTask>)

  /** `dueDate < now` and status not "completed"; a task without a due date
      is never overdue. */
  predicate IsOverdue(t: Task, now: int) {
    t.dueDate.Some? && t.dueDate.value < now && t.status != "completed"
  }

  function Overdue(ts: seq<Task>, now: int): seq<Task> {
    Where(ts, t => IsOverdue(t, now))
  }

  /** The overdue tasks are exactly the listed tasks with a due date before
      `now` whose status is not "completed". */
  lemma OverdueMembers(ts: seq<Task>, now: int, t: Task)
    ensures t in Overdue(ts, now) <==>
      t in ts && t.dueDate.Some? && t.dueDate.value < now && t.status != "completed"
  {
  }

  const TaskStatuses: seq<string> := ["pending", "In Progress", "completed"]
  const TaskPriorities: seq<string> := ["Low", "Medium", "High"]

  /** The user dashboard. The current time is a parameter. */
  method GetUserDashboardData(ts: seq<Task>, user: UserId, now: int) returns (d: UserDashboard)
    ensures var mine := AssignedTo(ts, user);
      && d.statistics.totalTasks == |mine|
      && d.statistics.pendingTasks == |Matching(mine, Status, "pending")|
      && d.statistics.completedTasks == |Matching(mine, Status, "completed")|
      && d.statistics.overdueTasks == |Overdue(mine, now)| <= |mine|
    ensures var mine, dist := AssignedTo(ts, user), d.charts.taskDistribution;
      && dist.Keys == {"pending", "inprogress", "completed", "all"}
      && dist["pending"] == |Matching(mine, Status, "pending")|
      && dist["inprogress"] == |Matching(mine, Status, "In Progress")|
      && dist["completed"] == |Matching(mine, Status, "completed")|
      && dist["all"] == |mine|
    ensures var mine, prio := AssignedTo(ts, user), d.charts.taskPriorityLevels;
      && prio.Keys == {"low", "medium", "high"}
      && prio["low"] == |Matching(mine, Priority, "Low")|
      && prio["medium"] == |Matching(mine, Priority, "Medium")|
      && prio["high"] == |Matching(mine, Priority, "High")|
    ensures d.recentTasks == RecentTasks(AssignedTo(ts, user))
  {
    var mine := AssignedTo(ts, user);
    var totalTasks := |mine|;
    var pendingTasks := |Matching(mine, Status, "pending")|;
    var completedTasks := |Matching(mine, Status, "completed")|;
    var overdueTasks := |Overdue(mine, now)|;
    OverdueAtMostTotal(mine, now);

    var distributionRaw := GroupBy(mine, Status);
    var buckets := Buckets(TaskStatuses, distributionRaw);
    StatusBuckets(mine);
    AddAll(buckets, totalTasks);
    var taskDistribution := buckets["all" := totalTasks];

    var priorityRaw := GroupBy(mine, Priority);
    var taskPriorityLevels := Buckets(TaskPriorities, priorityRaw);
    PriorityBuckets(mine);

    var recentTasks := RecentTasks(mine);
    d := UserDashboard(
      Statistics(totalTasks, pendingTasks, completedTasks, overdueTasks),
      Charts(taskDistribution, taskPriorityLevels),
      recentTasks);
  }

  // ---------------------------------------------------------------------
  // Lemmas about the queries

  /** A filter keeps every occurrence of a task that satisfies the
      condition and none of the others, so the length of its result is the
      number of matching tasks that `countDocuments` returns. */
  lemma {:induction false} WhereCounts(ts: seq<Task>, p: Task -> bool)
    ensures forall t :: multiset(Where(ts, p))[t] == if p(t) then multiset(ts)[t] else 0
  {
    if ts != [] {
      WhereCounts(ts[1..], p);
      assert ts == [ts[0]] + ts[1..];
    }
  }

  /** Three mutually exclusive conditions inside a scope count at most the
      scope, and exactly the scope when every task in it meets one of them. */
  lemma {:induction false} ExclusiveCounts(ts: seq<Task>, s: Task -> bool, a: Task -> bool, b: Task -> bool, c: Task -> bool)
    requires forall t :: a(t) ==> s(t) && !b(t) && !c(t)
    requires forall t :: b(t) ==> s(t) && !c(t)
    requires forall t :: c(t) ==> s(t)
    ensures |Where(ts, a)| + |Where(ts, b)| + |Where(ts, c)| <= |Where(ts, s)|
    ensures (forall t :: t in ts && s(t) ==> a(t) || b(t) || c(t)) ==>
      |Where(ts, a)| + |Where(ts, b)| + |Where(ts, c)| == |Where(ts, s)|
  {
    if ts != [] {
      ExclusiveCounts(ts[1..], s, a, b, c);
      assert forall t :: t in ts[1..] ==> t in ts;
    }
  }

  /** A condition no listed task meets selects nothing. */
  lemma {:induction false} WhereNone(ts: seq<Task>, p: Task -> bool)
    requires forall t :: t in ts ==> !p(t)
    ensures Where(ts, p) == []
  {
    if ts != [] {
      assert ts[0] in ts;
      assert forall t :: t in ts[1..] ==> t in ts;
      WhereNone(ts[1..], p);
    }
  }

  lemma {:induction false} FindBump(gs: seq<Group>, k: string, name: string)
    ensures Find(Bump(gs, k), name) == Find(gs, name) + (if k == name then 1 else 0)
  {
    if gs != [] && gs[0].id != k {
      FindBump(gs[1..], k, name);
    }
  }

  lemma {:induction false} FindGroupFrom(gs: seq<Group>, ts: seq<Task>, f: Field, name: string)
    ensures Find(GroupFrom(gs, ts, f), name) == Find(gs, name) + |Matching(ts, f, name)|
    decreases |ts|
  {
    if ts != [] {
      FindBump(gs, FieldOf(ts[0], f), name);
      FindGroupFrom(Bump(gs, FieldOf(ts[0], f)), ts[1..], f, name);
    }
  }

  /** Looking a label up in the grouped results gives the number of tasks
      whose field is exactly that name, and 0 when no task has it. */
  lemma FindGroupBy(ts: seq<Task>, f: Field, name: string)
    ensures Find(GroupBy(ts, f), name) == |Matching(ts, f, name)|
  {
    FindGroupFrom([], ts, f, name);
  }

  lemma BucketKeyCons(c: char, s: string)
    ensures BucketKey([c] + s) == (if IsSpace(c) then [] else [LowerChar(c)]) + BucketKey(s)
  {
    assert ([c] + s)[1..] == s;
  }

  /** A character that can appear in a bucket key. */
  predicate IsKeyChar(c: char) {
    !IsSpace(c) && !('A' <= c <= 'Z')
  }

  /** A bucket key has no whitespace and no upper-case letter. */
  lemma {:induction false} BucketKeyIsNormal(s: string)
    ensures forall i :: 0 <= i < |BucketKey(s)| ==> IsKeyChar(BucketKey(s)[i])
  {
    if s != [] {
      BucketKeyIsNormal(s[1..]);
      BucketKeyCons(s[0], s[1..]);
      assert s == [s[0]] + s[1..];
    }
  }

  /** A text without whitespace and upper-case letters is its own key. */
  lemma {:induction false} NormalIsOwnKey(s: string)
    requires forall i :: 0 <= i < |s| ==> IsKeyChar(s[i])
    ensures BucketKey(s) == s
  {
    if s != [] {
      NormalIsOwnKey(s[1..]);
    }
  }

  /** Building a key from a key changes nothing. */
  lemma BucketKeyIdempotent(s: string)
    ensures BucketKey(BucketKey(s)) == BucketKey(s)
  {
    BucketKeyIsNormal(s);
    NormalIsOwnKey(BucketKey(s));
  }

  /** A key that is already lower-case letters is its own bucket key. */
  lemma BucketKeyOfLowercase(s: string)
    requires forall i :: 0 <= i < |s| ==> 'a' <= s[i] <= 'z'
    ensures BucketKey(s) == s
  {
    NormalIsOwnKey(s);
  }

  lemma CapitalisedKey(c: char, s: string)
    requires 'A' <= c <= 'Z'
    requires forall i :: 0 <= i < |s| ==> 'a' <= s[i] <= 'z'
    ensures BucketKey([c] + s) == [(c as int + 32) as char] + s
  {
    BucketKeyOfLowercase(s);
    BucketKeyCons(c, s);
  }

  lemma KeyOfProgress()
    ensures BucketKey("Progress") == "progress"
  {
    CapitalisedKey('P', "rogress");
    assert ['P'] + "rogress" == "Progress";
  }

  lemma KeyOfSpaceProgress()
    ensures BucketKey(" Progress") == "progress"
  {
    KeyOfProgress();
    BucketKeyCons(' ', "Progress");
    assert [' '] + "Progress" == " Progress";
  }

  lemma KeyOfNSpaceProgress()
    ensures BucketKey("n Progress") == "nprogress"
  {
    KeyOfSpaceProgress();
    assert !IsSpace('n') && LowerChar('n') == 'n';
    BucketKeyCons('n', " Progress");
    assert ['n'] + " Progress" == "n Progress";
  }

  /** Stripping the space and lowering the case turns "In Progress" into
      "inprogress". */
  lemma KeyOfInProgress()
    ensures BucketKey("In Progress") == "inprogress"
  {
    KeyOfNSpaceProgress();
    assert !IsSpace('I') && LowerChar('I') == 'i';
    BucketKeyCons('I', "n Progress");
    assert ['I'] + "n Progress" == "In Progress";
  }

  lemma KeyOfPending()
    ensures BucketKey("pending") == "pending"
  {
    BucketKeyOfLowercase("pending");
  }

  lemma KeyOfCompleted()
    ensures BucketKey("completed") == "completed"
  {
    BucketKeyOfLowercase("completed");
  }

  /** The `reduce` over three labels. */
  lemma BucketsOfThree(a: string, b: string, c: string, raw: seq<Group>)
    ensures BucketsOf([a, b, c], raw) ==
      map[][BucketKey(a) := Find(raw, a)][BucketKey(b) := Find(raw, b)][BucketKey(c) := Find(raw, c)]
  {
    assert [a, b, c][..2] == [a, b];
    assert [a, b][..1] == [a];
    assert [a][..0] == [];
    assert BucketsOf([a], raw) == map[][BucketKey(a) := Find(raw, a)];
    assert BucketsOf([a, b], raw) == BucketsOf([a], raw)[BucketKey(b) := Find(raw, b)];
  }

  lemma KeysOfPriorities()
    ensures BucketKey("Low") == "low"
    ensures BucketKey("Medium") == "medium"
    ensures BucketKey("High") == "high"
  {
    CapitalisedKey('L', "ow");
    assert ['L'] + "ow" == "Low";
    CapitalisedKey('M', "edium");
    assert ['M'] + "edium" == "Medium";
    CapitalisedKey('H', "igh");
    assert ['H'] + "igh" == "High";
  }

  /** Three labels with distinct keys give a map with exactly those keys,
      each holding the count of its label. */
  lemma KeyedBuckets(a: string, b: string, c: string, ka: string, kb: string, kc: string, raw: seq<Group>)
    requires BucketKey(a) == ka && BucketKey(b) == kb && BucketKey(c) == kc
    requires ka != kb && kb != kc && ka != kc
    ensures var m := BucketsOf([a, b, c], raw);
      && m.Keys == {ka, kb, kc}
      && m[ka] == Find(raw, a) && m[kb] == Find(raw, b) && m[kc] == Find(raw, c)
  {
    BucketsOfThree(a, b, c, raw);
  }

  /** The status distribution holds exactly the three status keys, each the
      count of its exact name. */
  lemma StatusBuckets(ts: seq<Task>)
    ensures var b := BucketsOf(TaskStatuses, GroupBy(ts, Status));
      && b.Keys == {"pending", "inprogress", "completed"}
      && b["pending"] == |Matching(ts, Status, "pending")|
      && b["inprogress"] == |Matching(ts, Status, "In Progress")|
      && b["completed"] == |Matching(ts, Status, "completed")|
  {
    var raw := GroupBy(ts, Status);
    KeyOfPending();
    KeyOfInProgress();
    KeyOfCompleted();
    KeyedBuckets("pending", "In Progress", "completed", "pending", "inprogress", "completed", raw);
    FindGroupBy(ts, Status, "pending");
    FindGroupBy(ts, Status, "In Progress");
    FindGroupBy(ts, Status, "completed");
  }

  /** The priority levels hold exactly the keys low, medium and high. */
  lemma PriorityBuckets(ts: seq<Task>)
    ensures var b := BucketsOf(TaskPriorities, GroupBy(ts, Priority));
      && b.Keys == {"low", "medium", "high"}
      && b["low"] == |Matching(ts, Priority, "Low")|
      && b["medium"] == |Matching(ts, Priority, "Medium")|
      && b["high"] == |Matching(ts, Priority, "High")|
  {
    var raw := GroupBy(ts, Priority);
    KeysOfPriorities();
    KeyedBuckets("Low", "Medium", "High", "low", "medium", "high", raw);
    FindGroupBy(ts, Priority, "Low");
    FindGroupBy(ts, Priority, "Medium");
    FindGroupBy(ts, Priority, "High");
  }

  /** Adding the "all" entry to the status buckets keeps them. */
  lemma AddAll(m: map<string, int>, total: int)
    requires m.Keys == {"pending", "inprogress", "completed"}
    ensures var r := m["all" := total];
      && r.Keys == {"pending", "inprogress", "completed", "all"}
      && r["pending"] == m["pending"] && r["inprogress"] == m["inprogress"]
      && r["completed"] == m["completed"] && r["all"] == total
  {
  }

  /** Overdue tasks are among the counted ones. */
  lemma OverdueAtMostTotal(ts: seq<Task>, now: int)
    ensures |Overdue(ts, now)| <= |ts|
  {
  }

  // ---------------------------------------------------------------------
  // Lemmas about the listing and the dashboards

  /** The listing holds exactly the scoped tasks that pass the status
      query, each with its number of checked items; a member sees only
      tasks assigned to them. */
  lemma ListingContents(ts: seq<Task>, r: Requester, status: Option<string>)
    ensures var l := GetTasks(ts, r, status);
      && |l.tasks| <= |ts|
      && (forall v :: v in l.tasks ==>
            && v.task in ts
            && (IsAdmin(r) || r.id in v.task.assignedTo)
            && (Truthy(status) ==> v.task.status == status.value)
            && v.completedTodoCount == CompletedCount(v.task.todoChecklist) <= |v.task.todoChecklist|)
      && (forall t ::
            t in ts && (IsAdmin(r) || r.id in t.assignedTo) && (!Truthy(status) || t.status == status.value)
            ==> exists v :: v in l.tasks && v.task == t)
  {
    var scope := Scope(ts, r);
    var listed := FilterByQuery(scope, status);
    var l := GetTasks(ts, r, status);
    forall t | t in ts && (IsAdmin(r) || r.id in t.assignedTo) && (!Truthy(status) || t.status == status.value)
      ensures exists v :: v in l.tasks && v.task == t
    {
      assert t in listed;
      var i :| 0 <= i < |listed| && listed[i] == t;
      assert l.tasks[i].task == t;
    }
    forall v | v in l.tasks
      ensures v.task in listed
    {
      var i :| 0 <= i < |l.tasks| && l.tasks[i] == v;
      assert listed[i] in listed;
    }
  }

  /** The summary ignores the status query, `all` is the whole scope, and
      the three status counts together never exceed it. */
  lemma SummaryBounds(ts: seq<Task>, r: Requester, q1: Option<string>, q2: Option<string>)
    ensures GetTasks(ts, r, q1).statusSummary == GetTasks(ts, r, q2).statusSummary
    ensures var s := GetTasks(ts, r, q1).statusSummary;
      && s.all == (if IsAdmin(r) then |ts| else |AssignedTo(ts, r.id)|)
      && s.pendingTasks + s.inProgressTasks + s.completedTasks <= s.all
  {
    var scope := Scope(ts, r);
    ExclusiveCounts(scope, t => true,
      t => FieldOf(t, Status) == "pending",
      t => FieldOf(t, Status) == "In Progress",
      t => FieldOf(t, Status) == "Completed");
    WhereAll(scope);
  }

  lemma {:induction false} WhereAll(ts: seq<Task>)
    ensures Where(ts, t => true) == ts
  {
    if ts != [] {
      WhereAll(ts[1..]);
      assert ts == [ts[0]] + ts[1..];
    }
  }

  // ---------------------------------------------------------------------
  // What the counts count

  /** The positions of the tasks that satisfy `p`. */
  ghost function Positions(ts: seq<Task>, p: Task -> bool): set<int> {
    set i | 0 <= i < |ts| && p(ts[i])
  }

  /** The positions of the tasks whose status is exactly `label`. */
  ghost function LabelPositions(ts: seq<Task>, name: string): set<int> {
    set i | 0 <= i < |ts| && ts[i].status == name
  }

  /** Filtering with the last task split off. */
  lemma {:induction false} WhereSnoc(ts: seq<Task>, p: Task -> bool)
    requires ts != []
    ensures Where(ts, p) == Where(ts[..|ts| - 1], p) + (if p(ts[|ts| - 1]) then [ts[|ts| - 1]] else [])
    decreases |ts|
  {
    var n := |ts| - 1;
    var head: seq<Task> := if p(ts[0]) then [ts[0]] else [];
    var last: seq<Task> := if p(ts[n]) then [ts[n]] else [];
    var rest := ts[1..];
    if n == 0 {
      assert rest == [] && ts[..n] == [];
    } else {
      calc {
        Where(ts, p);
        head + Where(rest, p);
        { WhereSnoc(rest, p); assert rest[|rest| - 1] == ts[n]; }
        head + (Where(rest[..|rest| - 1], p) + last);
        { assert rest[..|rest| - 1] == ts[..n][1..]; }
        head + (Where(ts[..n][1..], p) + last);
        (head + Where(ts[..n][1..], p)) + last;
        { assert ts[..n][0] == ts[0]; }
        Where(ts[..n], p) + last;
      }
    }
  }

  /** A filter keeps as many tasks as there are positions satisfying the
      condition: the number `countDocuments` returns. */
  lemma {:induction false} WhereLength(ts: seq<Task>, p: Task -> bool)
    ensures |Where(ts, p)| == |Positions(ts, p)|
    decreases |ts|
  {
    if ts != [] {
      var n := |ts| - 1;
      WhereSnoc(ts, p);
      WhereLength(ts[..n], p);
      PositionsSnoc(ts, p);
    }
  }

  /** The positions with the last one split off. */
  lemma PositionsSnoc(ts: seq<Task>, p: Task -> bool)
    requires ts != []
    ensures var n := |ts| - 1;
      && n !in Positions(ts[..n], p)
      && Positions(ts, p) == Positions(ts[..n], p) + (if p(ts[n]) then {n} else {})
  {
  }

  /** `countDocuments({ status: name })` counts the tasks whose status is
      exactly `label`. */
  lemma MatchingCount(ts: seq<Task>, name: string)
    ensures |Matching(ts, Status, name)| == |LabelPositions(ts, name)|
  {
    var p := t => FieldOf(t, Status) == name;
    WhereLength(ts, p);
    assert Positions(ts, p) == LabelPositions(ts, name);
  }

  /** The admin counts are the numbers of tasks whose status is exactly
      "pending", "in-progress" and "completed". */
  lemma AdminCountsAreLabelCounts(ts: seq<Task>)
    ensures var d := GetDashboardData(ts);
      && d.totalTasks == |ts|
      && d.pending == |LabelPositions(ts, "pending")|
      && d.inProgress == |LabelPositions(ts, "in-progress")|
      && d.completed == |LabelPositions(ts, "completed")|
  {
    MatchingCount(ts, "pending");
    MatchingCount(ts, "in-progress");
    MatchingCount(ts, "completed");
  }

  /** The summary counts the scope, and in it the tasks whose status is
      exactly "pending", "In Progress" and "Completed". */
  lemma SummaryCounts(ts: seq<Task>, r: Requester, q: Option<string>)
    ensures var s, scope := GetTasks(ts, r, q).statusSummary, Scope(ts, r);
      && s.all == |scope|
      && s.pendingTasks == |LabelPositions(scope, "pending")|
      && s.inProgressTasks == |LabelPositions(scope, "In Progress")|
      && s.completedTasks == |LabelPositions(scope, "Completed")|
  {
    var scope := Scope(ts, r);
    MatchingCount(scope, "pending");
    MatchingCount(scope, "In Progress");
    MatchingCount(scope, "Completed");
  }

  /** When every scoped status was written by the checklist rule, the
      summary's "In Progress" and "Completed" counts are 0. */
  lemma SummaryMissesDerivedLabels(ts: seq<Task>, r: Requester, q: Option<string>)
    requires forall t :: t in Scope(ts, r) ==> IsDerivedLabel(t.status)
    ensures GetTasks(ts, r, q).statusSummary.inProgressTasks == 0
    ensures GetTasks(ts, r, q).statusSummary.completedTasks == 0
  {
    DerivedStatusesMissCapitalisedCounts(Scope(ts, r));
  }

  /** The label mismatch: statuses written by the checklist rule never
      reach the "In Progress" and "Completed" counts of the summary, nor
      the "inprogress" bucket of the user dashboard. */
  lemma DerivedStatusesMissCapitalisedCounts(ts: seq<Task>)
    requires forall t :: t in ts ==> IsDerivedLabel(t.status)
    ensures Matching(ts, Status, "In Progress") == []
    ensures Matching(ts, Status, "Completed") == []
  {
    WhereNone(ts, t => FieldOf(t, Status) == "In Progress");
    WhereNone(ts, t => FieldOf(t, Status) == "Completed");
  }

  /** The admin counts use the checklist rule's labels: they never exceed
      the total, and add up to it when every status is a derived one. */
  lemma AdminCountsPartition(ts: seq<Task>)
    ensures var d := GetDashboardData(ts);
      && d.pending + d.inProgress + d.completed <= d.totalTasks
      && ((forall t :: t in ts ==> IsDerivedLabel(t.status)) ==>
            d.pending + d.inProgress + d.completed == d.totalTasks)
  {
    ExclusiveCounts(ts, t => true,
      t => FieldOf(t, Status) == "pending",
      t => FieldOf(t, Status) == "in-progress",
      t => FieldOf(t, Status) == "completed");
    WhereAll(ts);
  }

  lemma {:induction false} InsertKeepsNewestFirst(t: Task, sorted: seq<Task>)
    requires NewestFirst(sorted)
    ensures NewestFirst(InsertByNewest(t, sorted))
  {
    if sorted != [] && t.createdAt < sorted[0].createdAt {
      InsertKeepsNewestFirst(t, sorted[1..]);
      var rest := InsertByNewest(t, sorted[1..]);
      var r := InsertByNewest(t, sorted);
      assert r == [sorted[0]] + rest;
      forall j | 0 <= j < |rest| ensures rest[j].createdAt <= sorted[0].createdAt {
        assert rest[j] in rest;
        if rest[j] != t {
          var k :| 0 <= k < |sorted[1..]| && sorted[1..][k] == rest[j];
          assert sorted[k + 1] == rest[j];
        }
      }
      forall i, j | 0 <= i < j < |r| ensures r[i].createdAt >= r[j].createdAt {
        if i == 0 {
          assert r[j] == rest[j - 1];
        } else {
          assert r[i] == rest[i - 1] && r[j] == rest[j - 1];
        }
      }
    }
  }

  /** Sorting orders by creation time, newest first, and keeps every task. */
  lemma {:induction false} SortedNewestFirst(ts: seq<Task>)
    ensures NewestFirst(SortByNewest(ts))
    ensures multiset(SortByNewest(ts)) == multiset(ts)
  {
    if ts != [] {
      SortedNewestFirst(ts[1..]);
      InsertKeepsNewestFirst(ts[0], SortByNewest(ts[1..]));
    }
  }

  /** At most ten recent tasks, newest first, taken from the scope; every
      task left out is no newer than every task kept. */
  lemma RecentTasksSpec(ts: seq<Task>)
    ensures var r, sorted := RecentTasks(ts), SortByNewest(ts);
      && |r| == (if |ts| <= RecentLimit then |ts| else RecentLimit)
      && (forall i :: 0 <= i < |r| ==> r[i] == Project(sorted[i]) && sorted[i] in ts)
      && (forall i, j :: 0 <= i < j < |r| ==> r[i].createdAt >= r[j].createdAt)
      && (forall i, j :: 0 <= i < |r| <= j < |sorted| ==> sorted[j].createdAt <= r[i].createdAt)
  {
    var sorted := SortByNewest(ts);
    SortedNewestFirst(ts);
    forall i | 0 <= i < |sorted| ensures sorted[i] in ts {
      assert sorted[i] in multiset(sorted);
    }
  }
}
