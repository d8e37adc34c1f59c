/**
 * The entities the core works on: the Task and Comment rows (the fields of
 * TaskRead and CommentRead are the same as the columns), the request bodies,
 * and the authenticated caller.
 */
module Records {
  import opened Common

  /** A JSON document, as stored in a task's metadata column. */
  datatype Json =
    | JNull
    | JBool(b: bool)
    | JNumber(n: int)
    | JString(s: string)
    | JArray(items: seq<Json>)
    | JObject(fields: map<string, Json>)

  /** A row of `tasks`. createdAt is the timestamp, abstracted to an int. */
  datatype Task = Task(
    id: int,
    title: string,
    description: Option<string>,
    status: string,
    ownerId: int,
    createdAt: int,
    metadata: Option<map<string, Json>>)

  /** A row of `comments`: taskId is the parent task, userId the author. */
  datatype Comment = Comment(
    id: int,
    content: string,
    taskId: int,
    userId: int,
    createdAt: int)

  /** The authenticated caller: the user's id and role string. */
  datatype Principal = Principal(id: int, role: string)

  /** Every handler compares the role with the exact string "admin". */
  predicate IsAdmin(user: Principal)
  {
    user.role == "admin"
  }

  /** TaskCreate after defaults: description None and status "pending" unless given. */
  datatype TaskCreate = TaskCreate(title: string, description: Option<string>, status: string)

  /**
   * TaskUpdate.dict(exclude_unset=True): a field is None when the client did not
   * send it, and Some(v) when it did, where v may itself be null (None).
   */
  datatype TaskUpdate = TaskUpdate(
    title: Option<Option<string>>,
    description: Option<Option<string>>,
    status: Option<Option<string>>)

  /** True when the update names at least one field (the dict is non-empty). */
  predicate HasFields(u: TaskUpdate)
  {
    u.title.Some? || u.description.Some? || u.status.Some?
  }

  datatype CommentCreate = CommentCreate(taskId: int, content: string)

  /** One `setattr(comment, key, value)` of update_comment's loop. */
  datatype CommentAssignment =
    | SetContent(content: string)
    | SetTaskId(taskId: int)
    | SetUserId(userId: int)

  function TaskCreatedAt(t: Task): int
  {
    t.createdAt
  }

  function CommentCreatedAt(c: Comment): int
  {
    c.createdAt
  }
}
