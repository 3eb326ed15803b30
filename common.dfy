/** Shared vocabulary of the task-management backend: identifiers, the task
    document as the store holds it, the authenticated requester, and the
    JavaScript truthiness rules the request handlers rely on. */
module Common {

  datatype Option<+T> = None | Some(value: T)

  datatype Result<+R, +E> = Success(value: R) | Failure(error: E)

  /** Object ids are compared as their hexadecimal string form. */
  type UserId = string
  type TaskId = string

  /** One entry of a task's todo checklist. */
  datatype Item = Item(text: string, completed: bool)

  /** A task document as it is persisted. `status` is a plain string on
      purpose: different handlers use different spellings of the same label
      ("in-progress" versus "In Progress", "completed" versus "Completed"),
      and the model keeps that mismatch visible. Dates are integer
      timestamps; a task may lack a due date. */
  datatype Task = Task(
    id: TaskId,
    title: string,
    description: string,
    priority: string,
    status: string,
    progress: int,
    dueDate: Option<int>,
    assignedTo: seq<UserId>,
    todoChecklist: seq<Item>,
    attachments: seq<string>,
    createdBy: UserId,
    createdAt: int)

  /** The user attached to a request by the authentication middleware. */
  datatype Requester = Requester(id: UserId, role: string)

  predicate IsAdmin(r: Requester) {
    r.role == "admin"
  }

  /** JavaScript truthiness of an optional string body field: `undefined`,
      `null` and the empty string are falsy. */
  predicate Truthy(s: Option<string>) {
    s.Some? && s.value != ""
  }

  /** The HTTP outcome of a handler. */
  datatype Response = Response(code: int, message: string)
}
