/** The mutating task handlers of taskController.js: `createTask`,
    `updateTask`, `updateTaskStatus` and `updateTaskChecklist`.

    Each handler loads one document, changes it in memory and saves it back.
    `TaskDocument` is the loaded, mutable document; `TaskStore` holds the
    persisted documents as values and runs the load / change / save cycle.
    The pure functions `ApplyStatus`, `ApplyChecklist` and `ApplyUpdate`
    say what one successful handler does to a task; the lemmas at the end
    state what the handlers promise in terms of them. */
module TaskHandlers {
  import opened Common
  import opened Progress

  // ---------------------------------------------------------------------
  // Request bodies

  /** A body's `assignedTo`: an array of ids, or any other JSON value, of
      which only its truthiness matters (`undefined`, `null`, `""`, `0` and
      `false` are falsy). */
  datatype AssigneesInput = NotArray(truthy: bool) | IdArray(ids: seq<UserId>)

  /** Body of `PUT /tasks/:id`. An absent field is `None`. Arrays are always
      truthy in JavaScript, even when empty. */
  datatype UpdateBody = UpdateBody(
    title: Option<string>,
    description: Option<string>,
    priority: Option<string>,
    dueDate: Option<int>,
    todoChecklist: Option<seq<Item>>,
    attachments: Option<seq<string>>,
    assignedTo: AssigneesInput)

  /** Body of `POST /tasks`. */
  datatype CreateBody = CreateBody(
    title: Option<string>,
    description: Option<string>,
    priority: Option<string>,
    dueDate: Option<int>,
    assignedTo: AssigneesInput,
    attachments: Option<seq<string>>,
    todoChecklist: Option<seq<Item>>)

  /** The fields `createTask` hands to `Task.create`; the fields it leaves
      out take the schema's defaults, which are not part of this model. */
  datatype NewTask = NewTask(
    title: string,
    description: string,
    priority: Option<string>,
    dueDate: Option<int>,
    assignedTo: seq<UserId>,
    createdBy: UserId,
    todoChecklist: Option<seq<Item>>,
    attachments: Option<seq<string>>)

  // ---------------------------------------------------------------------
  // What one successful handler does to a task

  /** Who may change a task's status or checklist: an assignee or an admin.
      `updateTaskStatus` compares ids through `toString()` and
      `updateTaskChecklist` through the array's `includes`; both amount to
      id membership here. */
  predicate MayUpdate(t: Task, r: Requester) {
    r.id in t.assignedTo || IsAdmin(r)
  }

  /** Every item checked, texts and order kept. */
  function CompleteAll(items: seq<Item>): (r: seq<Item>)
    ensures |r| == |items|
  {
    seq(|items|, i requires 0 <= i < |items| => items[i].(completed := true))
  }

  /** `updateTaskStatus` after the authorisation check: a truthy status
      replaces the old one, and exactly the status "completed" also checks
      every item and forces progress to 100. */
  function ApplyStatus(t: Task, status: Option<string>): Task
  {
    var t1 := t.(status := if Truthy(status) then status.value else t.status);
    if status == Some("completed") then
      t1.(todoChecklist := CompleteAll(t.todoChecklist), progress := 100)
    else t1
  }

  /** `updateTaskChecklist` after the authorisation check: the checklist is
      replaced and progress and status are recomputed from it. */
  function ApplyChecklist(t: Task, items: seq<Item>): Task
  {
    var (p, s) := Derive(items);
    t.(todoChecklist := items, progress := p, status := s)
  }

  /** `x || old` for a string field. */
  function OrString(x: Option<string>, current: string): string {
    if Truthy(x) then x.value else current
  }

  /** `x || old` for a field whose present values are all truthy. */
  function OrKeep<T>(x: Option<T>, current: T): T {
    if x.Some? then x.value else current
  }

  /** The six field assignments of `updateTask`, which happen before the
      `assignedTo` check. */
  function MergeFields(t: Task, b: UpdateBody): Task
  {
    t.(title := OrString(b.title, t.title),
       description := OrString(b.description, t.description),
       priority := OrString(b.priority, t.priority),
       dueDate := if b.dueDate.Some? then b.dueDate else t.dueDate,
       todoChecklist := OrKeep(b.todoChecklist, t.todoChecklist),
       attachments := OrKeep(b.attachments, t.attachments))
  }

  const AssigneesNotArray := Response(400, "assignedTo should be an array of user IDs")

  /** `updateTask` after the lookup: the merged task to save, or the 400 it
      answers for a truthy `assignedTo` that is not an array. */
  function ApplyUpdate(t: Task, b: UpdateBody): Result<Task, Response>
  {
    match b.assignedTo
    case NotArray(truthy) =>
      if truthy then Failure(AssigneesNotArray) else Success(MergeFields(t, b))
    case IdArray(ids) => Success(MergeFields(t, b).(assignedTo := ids))
  }

  const MissingTitle := Response(400, "Title and description are required")
  const AssigneesNotArrayOnCreate := Response(400, "assignedTo should be an array")

  /** `createTask`: the title/description check first, then the array check,
      then the fields given to `Task.create`, with the requester as creator. */
  function CreateTask(b: CreateBody, requester: Requester): (r: Result<NewTask, Response>)
    ensures r.Success? <==> Truthy(b.title) && Truthy(b.description) && b.assignedTo.IdArray?
    ensures !Truthy(b.title) || !Truthy(b.description) ==> r == Failure(MissingTitle)
    ensures Truthy(b.title) && Truthy(b.description) && !b.assignedTo.IdArray? ==>
      r == Failure(AssigneesNotArrayOnCreate)
    ensures r.Success? ==>
      && r.value.createdBy == requester.id
      && r.value.title == b.title.value && r.value.description == b.description.value
      && r.value.assignedTo == b.assignedTo.ids
      && r.value.priority == b.priority && r.value.dueDate == b.dueDate
      && r.value.todoChecklist == b.todoChecklist && r.value.attachments == b.attachments
  {
    if !Truthy(b.title) || !Truthy(b.description) then Failure(MissingTitle)
    else if !b.assignedTo.IdArray? then Failure(AssigneesNotArrayOnCreate)
    else Success(NewTask(b.title.value, b.description.value, b.priority, b.dueDate,
                         b.assignedTo.ids, requester.id, b.todoChecklist, b.attachments))
  }

  /** The invariant the checklist update establishes: progress is the
      rounded percentage of checked items and status follows progress. */
  predicate Consistent(t: Task) {
    t.progress == ProgressOf(t.todoChecklist) && t.status == StatusFor(t.progress)
  }

  // ---------------------------------------------------------------------
  // The loaded document

  /** A task document loaded into memory, whose fields the handlers
      overwrite one at a time before saving it. */
  class TaskDocument {
    const id: TaskId
    var title: string
    var description: string
    var priority: string
    var status: string
    var progress: int
    var dueDate: Option<int>
    var assignedTo: seq<UserId>
    var todoChecklist: seq<Item>
    var attachments: seq<string>
    const createdBy: UserId
    const createdAt: int

    /** The document's current contents, as they would be saved. */
    function Value(): Task
      reads this
    {
      Task(id, title, description, priority, status, progress, dueDate,
           assignedTo, todoChecklist, attachments, createdBy, createdAt)
    }

    /** `Task.findById`: a document holding the stored task. */
    constructor Load(t: Task)
      ensures Value() == t
    {
      id, title, description, priority := t.id, t.title, t.description, t.priority;
      status, progress, dueDate := t.status, t.progress, t.dueDate;
      assignedTo, todoChecklist, attachments := t.assignedTo, t.todoChecklist, t.attachments;
      createdBy, createdAt := t.createdBy, t.createdAt;
    }

    /** taskController.js:171-176: the status assignment and the cascade
        that checks every item in place. */
    method SetStatus(s: Option<string>)
      modifies this
      ensures Value() == ApplyStatus(old(Value()), s)
    {
      status := if Truthy(s) then s.value else status;
      if s == Some("completed") {
        ghost var items, before := todoChecklist, Value();
        var i := 0;
        while i < |todoChecklist|
          invariant 0 <= i <= |todoChecklist| == |items|
          invariant Value() == before.(todoChecklist := todoChecklist)
          invariant forall j :: 0 <= j < i ==> todoChecklist[j] == items[j].(completed := true)
          invariant forall j :: i <= j < |items| ==> todoChecklist[j] == items[j]
        {
          todoChecklist := todoChecklist[i := todoChecklist[i].(completed := true)];
          i := i + 1;
        }
        assert todoChecklist == CompleteAll(items);
        progress := 100;
      }
    }

    /** taskController.js:201-213: replace the checklist, then recompute
        progress and status from it. */
    method SetChecklist(items: seq<Item>)
      modifies this
      ensures Value() == ApplyChecklist(old(Value()), items)
    {
      todoChecklist := items;
      var completedCount := CompletedCount(items);
      var totalCount := |items|;
      progress := if totalCount > 0 then RoundedPercent(completedCount, totalCount) else 0;
      if progress == 100 {
        status := "completed";
      } else if progress > 0 {
        status := "in-progress";
      } else {
        status := "pending";
      }
    }

    /** taskController.js:119-131: the six merges, then the `assignedTo`
        check. On `ok == false` the handler answers 400 without saving, so
        the merged fields never reach the store. */
    method Merge(b: UpdateBody) returns (ok: bool)
      modifies this
      ensures ok <==> b.assignedTo != NotArray(true)
      ensures ok ==> Value() == ApplyUpdate(old(Value()), b).value
      ensures !ok ==> Value() == MergeFields(old(Value()), b)
    {
      title := OrString(b.title, title);
      description := OrString(b.description, description);
      priority := OrString(b.priority, priority);
      dueDate := if b.dueDate.Some? then b.dueDate else dueDate;
      todoChecklist := OrKeep(b.todoChecklist, todoChecklist);
      attachments := OrKeep(b.attachments, attachments);
      ok := true;
      match b.assignedTo {
        case NotArray(truthy) =>
          ok := !truthy;
        case IdArray(ids) =>
          assignedTo := ids;
      }
    }
  }

  // ---------------------------------------------------------------------
  // The persisted collection and the handlers

  const NotFound := Response(404, "Task not found")
  const Forbidden := Response(403, "You are not authorized to update this task")

  /** The task collection: documents by id, replaced whole on save. */
  class TaskStore {
    var tasks: map<TaskId, Task>

    constructor (initial: map<TaskId, Task>)
      ensures tasks == initial
    {
      tasks := initial;
    }

    /** `PUT /tasks/:id/status` (taskController.js:158-183). */
    method UpdateTaskStatus(id: TaskId, requester: Requester, s: Option<string>) returns (res: Response)
      modifies this
      ensures id !in old(tasks) ==> res == NotFound && tasks == old(tasks)
      ensures id in old(tasks) && !MayUpdate(old(tasks)[id], requester) ==>
        res == Forbidden && tasks == old(tasks)
      ensures id in old(tasks) && MayUpdate(old(tasks)[id], requester) ==>
        res.code == 200 && tasks == old(tasks)[id := ApplyStatus(old(tasks)[id], s)]
    {
      if id !in tasks {
        return NotFound;
      }
      var task := new TaskDocument.Load(tasks[id]);
      var isAssigned := requester.id in task.assignedTo;
      if !isAssigned && !IsAdmin(requester) {
        return Forbidden;
      }
      task.SetStatus(s);
      tasks := tasks[id := task.Value()];
      res := Response(200, "Status updated");
    }

    /** `PUT /tasks/:id/todo` (taskController.js:188-226). A body without a
        checklist makes `todoChecklist.filter` throw before the save: 500. */
    method UpdateTaskChecklist(id: TaskId, requester: Requester, items: Option<seq<Item>>)
      returns (res: Response)
      modifies this
      ensures id !in old(tasks) ==> res == NotFound && tasks == old(tasks)
      ensures id in old(tasks) && !MayUpdate(old(tasks)[id], requester) ==>
        res == Forbidden && tasks == old(tasks)
      ensures id in old(tasks) && MayUpdate(old(tasks)[id], requester) && items.None? ==>
        res.code == 500 && tasks == old(tasks)
      ensures id in old(tasks) && MayUpdate(old(tasks)[id], requester) && items.Some? ==>
        res.code == 200 && tasks == old(tasks)[id := ApplyChecklist(old(tasks)[id], items.value)]
    {
      if id !in tasks {
        return NotFound;
      }
      var task := new TaskDocument.Load(tasks[id]);
      if requester.id !in task.assignedTo && !IsAdmin(requester) {
        return Forbidden;
      }
      if items.None? {
        return Response(500, "Server Error");
      }
      task.SetChecklist(items.value);
      tasks := tasks[id := task.Value()];
      res := Response(200, "Checklist updated");
    }

    /** `PUT /tasks/:id` (taskController.js:114-138). The handler checks no
        assignment or role: any authenticated user may update any task. */
    method UpdateTask(id: TaskId, b: UpdateBody) returns (res: Response)
      modifies this
      ensures id !in old(tasks) ==> res == NotFound && tasks == old(tasks)
      ensures id in old(tasks) && ApplyUpdate(old(tasks)[id], b).Failure? ==>
        res == AssigneesNotArray && tasks == old(tasks)
      ensures id in old(tasks) && ApplyUpdate(old(tasks)[id], b).Success? ==>
        res.code == 200 && tasks == old(tasks)[id := ApplyUpdate(old(tasks)[id], b).value]
    {
      if id !in tasks {
        return NotFound;
      }
      var task := new TaskDocument.Load(tasks[id]);
      var ok := task.Merge(b);
      if !ok {
        return AssigneesNotArray;
      }
      tasks := tasks[id := task.Value()];
      res := Response(200, "Task updated");
    }
  }

  // ---------------------------------------------------------------------
  // What the handlers promise

  /** Marking a task "completed" checks every item, keeps the items' number,
      order and texts, and sets progress to 100; nothing else changes. */
  lemma CompletingChecksEveryItem(t: Task)
    ensures var u := ApplyStatus(t, Some("completed"));
      && u.status == "completed" && u.progress == 100
      && |u.todoChecklist| == |t.todoChecklist|
      && (forall i :: 0 <= i < |u.todoChecklist| ==>
            u.todoChecklist[i].completed && u.todoChecklist[i].text == t.todoChecklist[i].text)
      && CompletedCount(u.todoChecklist) == |t.todoChecklist|
      && u == t.(status := u.status, progress := u.progress, todoChecklist := u.todoChecklist)
  {
  }

  /** Any other status leaves checklist and progress alone; a falsy one
      keeps the old status as well. */
  lemma OtherStatusKeepsChecklist(t: Task, s: Option<string>)
    requires s != Some("completed")
    ensures ApplyStatus(t, s).todoChecklist == t.todoChecklist
    ensures ApplyStatus(t, s).progress == t.progress
    ensures ApplyStatus(t, s).status == if Truthy(s) then s.value else t.status
    ensures !Truthy(s) ==> ApplyStatus(t, s) == t
  {
  }

  /** Repeating a status update changes nothing more. */
  lemma {:induction false} StatusUpdateIdempotent(t: Task, s: Option<string>)
    ensures ApplyStatus(ApplyStatus(t, s), s) == ApplyStatus(t, s)
  {
    if s == Some("completed") {
      var once := CompleteAll(t.todoChecklist);
      assert CompleteAll(once) == once;
    }
  }

  /** Completing a task keeps the progress invariant exactly when the task
      has a checklist: with no items the progress is forced to 100 while the
      checklist rule would give 0. */
  lemma CompletingKeepsConsistencyIff(t: Task)
    ensures Consistent(ApplyStatus(t, Some("completed"))) <==> |t.todoChecklist| > 0
  {
    var u := ApplyStatus(t, Some("completed"));
    assert CompletedCount(u.todoChecklist) == |u.todoChecklist|;
    ProgressFullIff(u.todoChecklist);
  }

  /** A manually set status other than the derived labels breaks the
      invariant: the status update does not recompute anything. */
  lemma ManualStatusBreaksConsistency(t: Task, s: string)
    requires s != "" && s != "completed" && s != "in-progress" && s != "pending"
    ensures !Consistent(ApplyStatus(t, Some(s)))
  {
  }

  /** A checklist update stores exactly the supplied list, recomputes
      progress and status from it, and touches nothing else. */
  lemma ChecklistUpdateDerives(t: Task, items: seq<Item>)
    ensures var u := ApplyChecklist(t, items);
      && u.todoChecklist == items
      && Consistent(u)
      && (u.status == "completed" <==> u.progress == 100)
      && (u.status == "in-progress" <==> 0 < u.progress < 100)
      && (u.status == "pending" <==> u.progress == 0)
      && u == t.(todoChecklist := items, progress := u.progress, status := u.status)
  {
  }

  /** Progress and status after a checklist update depend only on the list:
      the prior status, whatever set it, is overwritten (last writer wins). */
  lemma ChecklistUpdateOverridesStatus(t: Task, s: Option<string>, items: seq<Item>)
    ensures ApplyChecklist(ApplyStatus(t, s), items).status == Derive(items).1
    ensures ApplyChecklist(ApplyStatus(t, s), items).progress == Derive(items).0
    ensures ApplyChecklist(ApplyStatus(t, s), items) == ApplyChecklist(t, items)
  {
  }

  /** Repeating a checklist update yields the same task. */
  lemma ChecklistUpdateIdempotent(t: Task, items: seq<Item>)
    ensures ApplyChecklist(ApplyChecklist(t, items), items) == ApplyChecklist(t, items)
  {
  }

  /** The merge of `updateTask`: a falsy input keeps each field, a truthy
      one replaces it; status, progress and the creator are never touched;
      a truthy non-array `assignedTo` is refused. */
  lemma UpdateMergeRule(t: Task, b: UpdateBody)
    ensures ApplyUpdate(t, b).Failure? <==> b.assignedTo == NotArray(true)
    ensures ApplyUpdate(t, b).Success? ==>
      var u := ApplyUpdate(t, b).value;
      && u.status == t.status && u.progress == t.progress
      && u.id == t.id && u.createdBy == t.createdBy && u.createdAt == t.createdAt
      && u.title == (if Truthy(b.title) then b.title.value else t.title)
      && u.description == (if Truthy(b.description) then b.description.value else t.description)
      && u.priority == (if Truthy(b.priority) then b.priority.value else t.priority)
      && u.dueDate == (if b.dueDate.None? then t.dueDate else b.dueDate)
      && u.todoChecklist == (if b.todoChecklist.None? then t.todoChecklist else b.todoChecklist.value)
      && u.attachments == (if b.attachments.None? then t.attachments else b.attachments.value)
      && u.assignedTo == (if b.assignedTo.IdArray? then b.assignedTo.ids else t.assignedTo)
  {
  }

  /** Because `updateTask` replaces the checklist without recomputing
      progress, it can leave a consistent task inconsistent. */
  lemma UpdateCanBreakConsistency(t: Task, b: UpdateBody)
    requires Consistent(t) && b.assignedTo.IdArray?
    requires b.todoChecklist.Some? && ProgressOf(b.todoChecklist.value) != t.progress
    ensures ApplyUpdate(t, b).Success? && !Consistent(ApplyUpdate(t, b).value)
  {
  }
}
