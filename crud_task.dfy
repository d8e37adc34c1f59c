/**
 * The task data-access functions: insert, the filtered and paginated
 * listings, lookup, field-scoped update, delete, the metadata write of the
 * background job, and the per-status statistics.
 */
module CrudTask {
  import opened Common
  import opened Records
  import Text
  import Query
  import Store
  import Pagination

  // ----- create_task -----

  /** The row create_task inserts: the request's fields, the given owner, no metadata yet. */
  function NewTask(id: int, taskIn: TaskCreate, ownerId: int, now: int): Task
  {
    Task(id, taskIn.title, taskIn.description, taskIn.status, ownerId, now, None)
  }

  /**
   * create_task: inserts exactly one row, owned by ownerId, with the next id of
   * the sequence; `now` is the insertion time the database stamps.
   */
  method CreateTask(db: Store.Database, taskIn: TaskCreate, ownerId: int, now: int) returns (task: Task)
    requires db.Valid()
    modifies db
    ensures db.Valid()
    ensures task.id == old(db.nextTaskId) && task.id !in old(db.tasks)
    ensures task.ownerId == ownerId && task.createdAt == now && task.metadata.None?
    ensures task.title == taskIn.title && task.description == taskIn.description && task.status == taskIn.status
    ensures db.tasks == old(db.tasks)[task.id := task]
    ensures db.comments == old(db.comments) && db.nextCommentId == old(db.nextCommentId)
  {
    task := NewTask(db.nextTaskId, taskIn, ownerId, now);
    db.tasks := db.tasks[task.id := task];
    db.nextTaskId := db.nextTaskId + 1;
  }

  // ----- WHERE conditions -----

  /** One entry of a query's `conditions` list. */
  datatype TaskCondition =
    | OwnerIs(ownerId: int)
    | StatusLike(pattern: string)
    | TitleLike(pattern: string)
    | CreatedAtLeast(bound: int)
    | CreatedAtMost(bound: int)

  predicate Holds(c: TaskCondition, t: Task)
  {
    match c
    case OwnerIs(o) => t.ownerId == o
    case StatusLike(p) => Text.Like(p, t.status)
    case TitleLike(p) => Text.Like(p, t.title)
    case CreatedAtLeast(b) => t.createdAt >= b
    case CreatedAtMost(b) => t.createdAt <= b
  }

  /** and_(*conditions); an empty list puts no WHERE on the query. */
  predicate AllHold(conditions: seq<TaskCondition>, t: Task)
  {
    forall i :: 0 <= i < |conditions| ==> Holds(conditions[i], t)
  }

  /** The ILIKE pattern f"%{text}%". */
  function Contains(text: string): string
  {
    "%" + text + "%"
  }

  // ----- get_tasks_with_pagination -----

  /** A date filter the parser refuses. */
  predicate DateRejected(fromIsoFormat: string -> Option<int>, value: Option<string>)
  {
    Truthy(value) && Pagination.ParseIsoDate(fromIsoFormat, value.value).None?
  }

  /** The bound a date filter puts on created_at: none when the filter is unset or empty. */
  function DateBound(fromIsoFormat: string -> Option<int>, value: Option<string>): Option<int>
  {
    if Truthy(value) then Pagination.ParseIsoDate(fromIsoFormat, value.value) else None
  }

  /** The ownership part of the listing: a regular user sees only their own tasks, an admin any owner's or the one filtered on. */
  predicate OwnerSelected(filters: Pagination.TaskFilters, currentUserId: int, isAdmin: bool, t: Task)
  {
    if isAdmin then filters.ownerId.Some? ==> t.ownerId == filters.ownerId.value else t.ownerId == currentUserId
  }

  /** A text filter that is set and non-empty requires `field ILIKE '%text%'`. */
  predicate TextSelected(text: Option<string>, field: string)
  {
    Truthy(text) ==> Text.Like(Contains(text.value), field)
  }

  /** A date bound, when there is one, limits created_at (inclusive). */
  predicate AfterSelected(after: Option<int>, t: Task)
  {
    after.Some? ==> t.createdAt >= after.value
  }

  predicate BeforeSelected(before: Option<int>, t: Task)
  {
    before.Some? ==> t.createdAt <= before.value
  }

  /**
   * Which tasks the listing shows: a regular user only their own tasks (their
   * owner_id filter is ignored), an admin all tasks or those of the owner they
   * filter on; then each non-empty text filter and each date bound.
   */
  predicate TaskSelected(filters: Pagination.TaskFilters, currentUserId: int, isAdmin: bool,
                         after: Option<int>, before: Option<int>, t: Task)
  {
    && OwnerSelected(filters, currentUserId, isAdmin, t)
    && TextSelected(filters.status, t.status)
    && TextSelected(filters.titleContains, t.title)
    && AfterSelected(after, t)
    && BeforeSelected(before, t)
  }

  function TaskQuery(filters: Pagination.TaskFilters, currentUserId: int, isAdmin: bool,
                     after: Option<int>, before: Option<int>): Task -> bool
  {
    t => TaskSelected(filters, currentUserId, isAdmin, after, before, t)
  }

  /** Appending a condition to the list adds it to the conjunction. */
  lemma AllHoldSnoc(conditions: seq<TaskCondition>, c: TaskCondition)
    ensures forall t :: AllHold(conditions + [c], t) <==> AllHold(conditions, t) && Holds(c, t)
  {
    forall t ensures AllHold(conditions + [c], t) <==> AllHold(conditions, t) && Holds(c, t) {
      if AllHold(conditions, t) && Holds(c, t) {
        forall i | 0 <= i < |conditions + [c]| ensures Holds((conditions + [c])[i], t) {
          if i < |conditions| {
            assert (conditions + [c])[i] == conditions[i];
          }
        }
      }
      if AllHold(conditions + [c], t) {
        assert Holds((conditions + [c])[|conditions|], t);
        forall i | 0 <= i < |conditions| ensures Holds(conditions[i], t) {
          assert (conditions + [c])[i] == conditions[i];
        }
      }
    }
  }

  /** The first conditions get_tasks_with_pagination appends: the ownership rule, then the non-empty text filters. */
  method OwnerAndTextConditions(filters: Pagination.TaskFilters, currentUserId: int, isAdmin: bool)
    returns (conditions: seq<TaskCondition>)
    ensures forall t :: AllHold(conditions, t) <==>
      OwnerSelected(filters, currentUserId, isAdmin, t) && TextSelected(filters.status, t.status) &&
      TextSelected(filters.titleContains, t.title)
  {
    conditions := [];
    if !isAdmin {
      AllHoldSnoc(conditions, OwnerIs(currentUserId));
      conditions := conditions + [OwnerIs(currentUserId)];
    } else if filters.ownerId.Some? {
      AllHoldSnoc(conditions, OwnerIs(filters.ownerId.value));
      conditions := conditions + [OwnerIs(filters.ownerId.value)];
    }
    assert forall t :: AllHold(conditions, t) <==> OwnerSelected(filters, currentUserId, isAdmin, t);
    if Truthy(filters.status) {
      AllHoldSnoc(conditions, StatusLike(Contains(filters.status.value)));
      conditions := conditions + [StatusLike(Contains(filters.status.value))];
    }
    if Truthy(filters.titleContains) {
      AllHoldSnoc(conditions, TitleLike(Contains(filters.titleContains.value)));
      conditions := conditions + [TitleLike(Contains(filters.titleContains.value))];
    }
  }

  /**
   * get_tasks_with_pagination: a 400 for a date that does not parse (before
   * any query runs); otherwise the requested window of the visible tasks,
   * newest first, and the count of all visible tasks under the same conditions.
   */
  method GetTasksWithPagination(db: Store.Database, pagination: Pagination.PaginationParams,
                                filters: Pagination.TaskFilters, currentUserId: int, isAdmin: bool,
                                fromIsoFormat: string -> Option<int>)
    returns (r: Result<(seq<Task>, int), HttpError>)
    requires pagination.page >= 1 && pagination.pageSize >= 1
    ensures r.Err? <==> DateRejected(fromIsoFormat, filters.createdAfter) || DateRejected(fromIsoFormat, filters.createdBefore)
    ensures r.Err? ==> r.error == if DateRejected(fromIsoFormat, filters.createdAfter) then InvalidCreatedAfter else InvalidCreatedBefore
    ensures r.Ok? ==>
      var query := TaskQuery(filters, currentUserId, isAdmin, DateBound(fromIsoFormat, filters.createdAfter),
                             DateBound(fromIsoFormat, filters.createdBefore));
      && Query.IsNewestFirstPage(db.tasks, query, TaskCreatedAt, Pagination.Offset(pagination),
                                 Pagination.Limit(pagination), r.value.0)
      && r.value.1 == Query.CountWhere(db.tasks, query)
  {
    var conditions := OwnerAndTextConditions(filters, currentUserId, isAdmin);
    var after, before := DateBound(fromIsoFormat, filters.createdAfter), DateBound(fromIsoFormat, filters.createdBefore);
    if Truthy(filters.createdAfter) {
      var dateAfter := Pagination.ParseIsoDate(fromIsoFormat, filters.createdAfter.value);
      if dateAfter.None? {
        return Err(InvalidCreatedAfter);
      }
      AllHoldSnoc(conditions, CreatedAtLeast(dateAfter.value));
      conditions := conditions + [CreatedAtLeast(dateAfter.value)];
    }
    if Truthy(filters.createdBefore) {
      var dateBefore := Pagination.ParseIsoDate(fromIsoFormat, filters.createdBefore.value);
      if dateBefore.None? {
        return Err(InvalidCreatedBefore);
      }
      AllHoldSnoc(conditions, CreatedAtMost(dateBefore.value));
      conditions := conditions + [CreatedAtMost(dateBefore.value)];
    }
    assert forall t :: AllHold(conditions, t) <==> TaskSelected(filters, currentUserId, isAdmin, after, before, t);
    var where := (t: Task) => AllHold(conditions, t);
    var query := TaskQuery(filters, currentUserId, isAdmin, after, before);
    var total := Query.CountWhere(db.tasks, where);
    var ids := Query.SelectNewestFirst(db.tasks, where, TaskCreatedAt);
    var items := Query.RowsAt(db.tasks, Query.Window(ids, Pagination.Offset(pagination), Pagination.Limit(pagination)));
    Query.EquivalentWhere(db.tasks, where, query, ids);
    assert Query.IsSelection(db.tasks, query, ids) && Query.NewestFirst(db.tasks, TaskCreatedAt, ids);
    r := Ok((items, total));
  }

  /**
   * What a listing page promises: every task on it passes the ownership rule
   * (for a regular user: owned by them), each non-empty text filter and each
   * date bound; it is newest first and holds at most page_size tasks.
   */
  lemma TaskPageRows(rows: map<int, Task>, filters: Pagination.TaskFilters, currentUserId: int, isAdmin: bool,
                     after: Option<int>, before: Option<int>, pagination: Pagination.PaginationParams, items: seq<Task>)
    requires pagination.page >= 1 && pagination.pageSize >= 1
    requires Query.IsNewestFirstPage(rows, TaskQuery(filters, currentUserId, isAdmin, after, before), TaskCreatedAt,
                                     Pagination.Offset(pagination), Pagination.Limit(pagination), items)
    ensures forall i :: 0 <= i < |items| ==> !isAdmin ==> items[i].ownerId == currentUserId
    ensures forall i :: 0 <= i < |items| ==> TaskSelected(filters, currentUserId, isAdmin, after, before, items[i])
    ensures forall i, j :: 0 <= i < j < |items| ==> items[i].createdAt >= items[j].createdAt
    ensures |items| <= pagination.pageSize
  {
    Query.NewestFirstPageRows(rows, TaskQuery(filters, currentUserId, isAdmin, after, before), TaskCreatedAt,
                              Pagination.Offset(pagination), Pagination.Limit(pagination), items);
    forall i | 0 <= i < |items| ensures TaskSelected(filters, currentUserId, isAdmin, after, before, items[i]) {
      assert TaskQuery(filters, currentUserId, isAdmin, after, before)(items[i]);
    }
    forall i, j | 0 <= i < j < |items| ensures items[i].createdAt >= items[j].createdAt {
      assert TaskCreatedAt(items[i]) >= TaskCreatedAt(items[j]);
    }
  }

  // ----- get_all_tasks, get_user_tasks -----

  /** get_all_tasks' conditions: each filter applies when it is not None (an empty status still applies). */
  predicate AllTasksSelected(ownerId: Option<int>, status: Option<string>, t: Task)
  {
    && (ownerId.Some? ==> t.ownerId == ownerId.value)
    && (status.Some? ==> Text.Like(Contains(status.value), t.status))
  }

  /**
   * get_all_tasks: the skip/limit window of the matching tasks, newest first. The
   * database refuses a negative OFFSET or LIMIT.
   */
  method GetAllTasks(db: Store.Database, ownerId: Option<int>, status: Option<string>, skip: int, limit: int)
    returns (r: Result<seq<Task>, HttpError>)
    ensures r.Err? <==> skip < 0 || limit < 0
    ensures r.Err? ==> r.error == DatabaseError
    ensures r.Ok? ==> Query.IsNewestFirstPage(db.tasks, t => AllTasksSelected(ownerId, status, t), TaskCreatedAt,
                                              skip, limit, r.value)
  {
    if skip < 0 || limit < 0 {
      return Err(DatabaseError);
    }
    var conditions: seq<TaskCondition> := [];
    if ownerId.Some? {
      AllHoldSnoc(conditions, OwnerIs(ownerId.value));
      conditions := conditions + [OwnerIs(ownerId.value)];
    }
    if status.Some? {
      AllHoldSnoc(conditions, StatusLike(Contains(status.value)));
      conditions := conditions + [StatusLike(Contains(status.value))];
    }
    var where := (t: Task) => AllHold(conditions, t);
    var query := (t: Task) => AllTasksSelected(ownerId, status, t);
    assert forall t :: where(t) <==> query(t);
    var ids := Query.SelectNewestFirst(db.tasks, where, TaskCreatedAt);
    Query.EquivalentWhere(db.tasks, where, query, ids);
    assert Query.IsSelection(db.tasks, query, ids) && Query.NewestFirst(db.tasks, TaskCreatedAt, ids);
    r := Ok(Query.RowsAt(db.tasks, Query.Window(ids, skip, limit)));
  }

  /** get_user_tasks' conditions: the owner always; status and title when not None. */
  predicate UserTasksSelected(ownerId: int, status: Option<string>, titleContains: Option<string>, t: Task)
  {
    && t.ownerId == ownerId
    && (status.Some? ==> Text.Like(Contains(status.value), t.status))
    && (titleContains.Some? ==> Text.Like(Contains(titleContains.value), t.title))
  }

  /** get_user_tasks: the skip/limit window of the owner's matching tasks, newest first. */
  method GetUserTasks(db: Store.Database, ownerId: int, status: Option<string>, titleContains: Option<string>,
                      skip: int, limit: int)
    returns (r: Result<seq<Task>, HttpError>)
    ensures r.Err? <==> skip < 0 || limit < 0
    ensures r.Err? ==> r.error == DatabaseError
    ensures r.Ok? ==> Query.IsNewestFirstPage(db.tasks, t => UserTasksSelected(ownerId, status, titleContains, t),
                                              TaskCreatedAt, skip, limit, r.value)
  {
    if skip < 0 || limit < 0 {
      return Err(DatabaseError);
    }
    AllHoldSnoc([], OwnerIs(ownerId));
    var conditions: seq<TaskCondition> := [] + [OwnerIs(ownerId)];
    if status.Some? {
      AllHoldSnoc(conditions, StatusLike(Contains(status.value)));
      conditions := conditions + [StatusLike(Contains(status.value))];
    }
    if titleContains.Some? {
      AllHoldSnoc(conditions, TitleLike(Contains(titleContains.value)));
      conditions := conditions + [TitleLike(Contains(titleContains.value))];
    }
    var where := (t: Task) => AllHold(conditions, t);
    var query := (t: Task) => UserTasksSelected(ownerId, status, titleContains, t);
    assert forall t :: where(t) <==> query(t);
    var ids := Query.SelectNewestFirst(db.tasks, where, TaskCreatedAt);
    Query.EquivalentWhere(db.tasks, where, query, ids);
    assert Query.IsSelection(db.tasks, query, ids) && Query.NewestFirst(db.tasks, TaskCreatedAt, ids);
    r := Ok(Query.RowsAt(db.tasks, Query.Window(ids, skip, limit)));
  }

  // ----- get_task_by_id -----

  /** get_task_by_id: the row under that primary key, or None. */
  function GetTaskById(db: Store.Database, taskId: int): (r: Option<Task>)
    reads db
    ensures r.Some? <==> taskId in db.tasks
    ensures r.Some? ==> r.value == db.tasks[taskId]
    ensures r.Some? && db.Valid() ==> r.value.id == taskId
  {
    if taskId in db.tasks then Some(db.tasks[taskId]) else None
  }

  // ----- update_task -----

  /** Setting title or status to null violates their NOT NULL constraint. */
  predicate ViolatesNotNull(updates: TaskUpdate)
  {
    updates.title == Some(None) || updates.status == Some(None)
  }

  /** The row after UPDATE … SET with the given fields. */
  function ApplyTaskUpdate(t: Task, updates: TaskUpdate): (r: Task)
    requires !ViolatesNotNull(updates)
    ensures r.id == t.id && r.ownerId == t.ownerId && r.createdAt == t.createdAt && r.metadata == t.metadata
    ensures updates.title.None? ==> r.title == t.title
    ensures updates.description.None? ==> r.description == t.description
    ensures updates.status.None? ==> r.status == t.status
    ensures updates.title.Some? ==> Some(r.title) == updates.title.value
    ensures updates.description.Some? ==> r.description == updates.description.value
    ensures updates.status.Some? ==> Some(r.status) == updates.status.value
  {
    t.(title := if updates.title.Some? then updates.title.value.value else t.title,
       description := if updates.description.Some? then updates.description.value else t.description,
       status := if updates.status.Some? then updates.status.value.value else t.status)
  }

  /**
   * update_task: None when no row has the id; a database error (and no change)
   * when a NOT NULL column would become null; otherwise exactly the named fields
   * change and the updated row is returned.
   */
  method UpdateTask(db: Store.Database, taskId: int, updates: TaskUpdate) returns (r: Result<Option<Task>, HttpError>)
    requires db.Valid()
    requires HasFields(updates)
    modifies db
    ensures db.Valid()
    ensures db.comments == old(db.comments)
    ensures db.nextTaskId == old(db.nextTaskId) && db.nextCommentId == old(db.nextCommentId)
    ensures taskId !in old(db.tasks) ==> r == Ok(None) && db.tasks == old(db.tasks)
    ensures taskId in old(db.tasks) && ViolatesNotNull(updates) ==> r == Err(DatabaseError) && db.tasks == old(db.tasks)
    ensures taskId in old(db.tasks) && !ViolatesNotNull(updates) ==>
      r == Ok(Some(ApplyTaskUpdate(old(db.tasks)[taskId], updates))) && db.tasks == old(db.tasks)[taskId := r.value.value]
  {
    if taskId !in db.tasks {
      return Ok(None);
    }
    if ViolatesNotNull(updates) {
      return Err(DatabaseError);
    }
    var updated := ApplyTaskUpdate(db.tasks[taskId], updates);
    db.tasks := db.tasks[taskId := updated];
    r := Ok(Some(updated));
  }

  // ----- delete_task -----

  /**
   * delete_task: removes the row. Comments that still refer to it would have
   * their task_id set to null, which the NOT NULL column refuses: the delete
   * fails with a database error and nothing changes.
   */
  method DeleteTask(db: Store.Database, taskId: int) returns (err: Option<HttpError>)
    requires db.Valid()
    requires taskId in db.tasks
    modifies db
    ensures db.Valid()
    ensures db.comments == old(db.comments)
    ensures db.nextTaskId == old(db.nextTaskId) && db.nextCommentId == old(db.nextCommentId)
    ensures old(db.Referenced(taskId)) ==> err == Some(DatabaseError) && db.tasks == old(db.tasks)
    ensures !old(db.Referenced(taskId)) ==> err == None && db.tasks == old(db.tasks) - {taskId}
  {
    if db.Referenced(taskId) {
      return Some(DatabaseError);
    }
    db.tasks := db.tasks - {taskId};
    err := None;
  }

  // ----- update_task_metadata -----

  /** The row with its metadata column replaced. */
  function WithMetadata(t: Task, metadata: map<string, Json>): (r: Task)
    ensures r.metadata == Some(metadata)
    ensures r.id == t.id && r.title == t.title && r.description == t.description && r.status == t.status
    ensures r.ownerId == t.ownerId && r.createdAt == t.createdAt
  {
    t.(metadata := Some(metadata))
  }

  /** update_task_metadata: only that task's metadata column changes. */
  method UpdateTaskMetadata(db: Store.Database, taskId: int, metadata: map<string, Json>)
    requires db.Valid()
    requires taskId in db.tasks
    modifies db
    ensures db.Valid()
    ensures db.tasks == old(db.tasks)[taskId := WithMetadata(old(db.tasks)[taskId], metadata)]
    ensures db.comments == old(db.comments)
    ensures db.nextTaskId == old(db.nextTaskId) && db.nextCommentId == old(db.nextCommentId)
  {
    db.tasks := db.tasks[taskId := WithMetadata(db.tasks[taskId], metadata)];
  }

  /** Writing the same metadata twice leaves the row as writing it once. */
  lemma MetadataWriteIdempotent(t: Task, metadata: map<string, Json>)
    ensures WithMetadata(WithMetadata(t, metadata), metadata) == WithMetadata(t, metadata)
  {
  }

  // ----- get_task_statistics -----

  function Owned(userId: int): Task -> bool
  {
    (t: Task) => t.ownerId == userId
  }

  /** How many of the listed tasks have exactly this status. */
  function CountStatus(rows: map<int, Task>, ids: seq<int>, status: string): nat
    requires forall i :: 0 <= i < |ids| ==> ids[i] in rows
  {
    if ids == [] then 0
    else CountStatus(rows, ids[..|ids| - 1], status) + (if rows[ids[|ids| - 1]].status == status then 1 else 0)
  }

  function SumCounts(groups: seq<(string, int)>): int
  {
    if groups == [] then 0 else SumCounts(groups[..|groups| - 1]) + groups[|groups| - 1].1
  }

  /**
   * The rows of `SELECT status, count(id) … GROUP BY status` over the listed
   * tasks: one row per status that occurs, with how often it occurs.
   */
  ghost predicate IsStatusGrouping(rows: map<int, Task>, ids: seq<int>, groups: seq<(string, int)>)
    requires forall i :: 0 <= i < |ids| ==> ids[i] in rows
  {
    && (forall j, k :: 0 <= j < k < |groups| ==> groups[j].0 != groups[k].0)
    && (forall j :: 0 <= j < |groups| ==> groups[j].1 == CountStatus(rows, ids, groups[j].0) >= 1)
    && (forall i :: 0 <= i < |ids| ==> exists j :: 0 <= j < |groups| && groups[j].0 == rows[ids[i]].status)
    && SumCounts(groups) == |ids|
  }

  lemma {:induction false} SumCountsBump(groups: seq<(string, int)>, j: int)
    requires 0 <= j < |groups|
    ensures SumCounts(groups[j := (groups[j].0, groups[j].1 + 1)]) == SumCounts(groups) + 1
  {
    var bumped := groups[j := (groups[j].0, groups[j].1 + 1)];
    var n := |groups| - 1;
    if j < n {
      assert bumped[..n] == groups[..n][j := (groups[j].0, groups[j].1 + 1)];
      SumCountsBump(groups[..n], j);
    } else {
      assert bumped[..n] == groups[..n];
    }
  }

  lemma {:induction false} CountStatusWitness(rows: map<int, Task>, ids: seq<int>, status: string)
    requires forall i :: 0 <= i < |ids| ==> ids[i] in rows
    requires CountStatus(rows, ids, status) >= 1
    ensures exists i :: 0 <= i < |ids| && rows[ids[i]].status == status
  {
    var n := |ids| - 1;
    if rows[ids[n]].status != status {
      CountStatusWitness(rows, ids[..n], status);
      var i :| 0 <= i < n && rows[ids[..n][i]].status == status;
      assert ids[..n][i] == ids[i];
    }
  }

  /** A status that occurs among the listed tasks has its row in the grouping. */
  lemma CountedHasGroup(rows: map<int, Task>, ids: seq<int>, groups: seq<(string, int)>, status: string)
    requires forall i :: 0 <= i < |ids| ==> ids[i] in rows
    requires IsStatusGrouping(rows, ids, groups)
    ensures CountStatus(rows, ids, status) >= 1 ==> exists g :: 0 <= g < |groups| && groups[g].0 == status
  {
    if CountStatus(rows, ids, status) >= 1 {
      CountStatusWitness(rows, ids, status);
      var k :| 0 <= k < |ids| && rows[ids[k]].status == status;
      var g :| 0 <= g < |groups| && groups[g].0 == rows[ids[k]].status;
    }
  }

  /** Where status already has a row of the grouping, or |groups| when it has none. */
  method FindGroup(groups: seq<(string, int)>, status: string) returns (j: nat)
    ensures j <= |groups|
    ensures j < |groups| ==> groups[j].0 == status
    ensures j == |groups| ==> forall k :: 0 <= k < |groups| ==> groups[k].0 != status
  {
    j := 0;
    while j < |groups| && groups[j].0 != status
      invariant j <= |groups|
      invariant forall k :: 0 <= k < j ==> groups[k].0 != status
    {
      j := j + 1;
    }
  }

  /** The grouping after one more row with this status: its group's count goes up, or a new group starts. */
  function CountIn(groups: seq<(string, int)>, j: int, status: string): seq<(string, int)>
    requires 0 <= j <= |groups|
  {
    if j < |groups| then groups[j := (status, groups[j].1 + 1)] else groups + [(status, 1)]
  }

  /** One more listed row adds one to the count of its own status and leaves every other count alone. */
  lemma CountStatusSnoc(rows: map<int, Task>, ids: seq<int>, i: int)
    requires forall k :: 0 <= k < |ids| ==> ids[k] in rows
    requires 0 <= i < |ids|
    ensures forall s ::
      CountStatus(rows, ids[..i + 1], s) == CountStatus(rows, ids[..i], s) + (if s == rows[ids[i]].status then 1 else 0)
  {
    assert ids[..i + 1][..i] == ids[..i];
  }

  /** Counting one more row adds one to the sum of the counts. */
  lemma SumCountsIn(groups: seq<(string, int)>, j: int, status: string)
    requires 0 <= j <= |groups|
    requires j < |groups| ==> groups[j].0 == status
    ensures SumCounts(CountIn(groups, j, status)) == SumCounts(groups) + 1
  {
    if j < |groups| {
      SumCountsBump(groups, j);
    } else {
      assert CountIn(groups, j, status)[..|groups|] == groups;
    }
  }

  /** Counting one more row keeps the grouping a grouping of the longer prefix. */
  lemma GroupStep(rows: map<int, Task>, ids: seq<int>, i: int, groups: seq<(string, int)>, j: int)
    requires forall k :: 0 <= k < |ids| ==> ids[k] in rows
    requires 0 <= i < |ids|
    requires IsStatusGrouping(rows, ids[..i], groups)
    requires 0 <= j <= |groups|
    requires j < |groups| ==> groups[j].0 == rows[ids[i]].status
    requires j == |groups| ==> forall k :: 0 <= k < |groups| ==> groups[k].0 != rows[ids[i]].status
    ensures IsStatusGrouping(rows, ids[..i + 1], CountIn(groups, j, rows[ids[i]].status))
  {
    var done, next := ids[..i], ids[..i + 1];
    var status := rows[ids[i]].status;
    var after := CountIn(groups, j, status);
    CountStatusSnoc(rows, ids, i);
    SumCountsIn(groups, j, status);
    assert |after| >= |groups| && after[j].0 == status;
    assert forall g :: 0 <= g < |groups| ==> after[g].0 == groups[g].0;
    assert SumCounts(after) == |next|;
    forall g, h | 0 <= g < h < |after| ensures after[g].0 != after[h].0 {
      if h < |groups| {
        assert after[h].0 == groups[h].0;
      }
    }
    CountedHasGroup(rows, done, groups, status);
    forall g | 0 <= g < |after| ensures after[g].1 == CountStatus(rows, next, after[g].0) >= 1 {
      if g != j {
        assert after[g] == groups[g];
      }
    }
    assert after[j].0 == rows[next[i]].status;
    GroupStepCovers(rows, next, groups, after);
  }

  /** After counting one more row, every listed row's status still has its group. */
  lemma GroupStepCovers(rows: map<int, Task>, next: seq<int>, groups: seq<(string, int)>, after: seq<(string, int)>)
    requires |next| >= 1 && forall k :: 0 <= k < |next| ==> next[k] in rows
    requires forall k :: 0 <= k < |next| - 1 ==> exists g :: 0 <= g < |groups| && groups[g].0 == rows[next[k]].status
    requires |after| >= |groups| && forall g :: 0 <= g < |groups| ==> after[g].0 == groups[g].0
    requires exists g :: 0 <= g < |after| && after[g].0 == rows[next[|next| - 1]].status
    ensures forall k :: 0 <= k < |next| ==> exists g :: 0 <= g < |after| && after[g].0 == rows[next[k]].status
  {
    forall k | 0 <= k < |next| - 1 ensures exists g :: 0 <= g < |after| && after[g].0 == rows[next[k]].status {
      var g :| 0 <= g < |groups| && groups[g].0 == rows[next[k]].status;
      assert after[g].0 == groups[g].0;
    }
  }


  /** The database's GROUP BY status over the listed tasks. */
  method GroupByStatus(rows: map<int, Task>, ids: seq<int>) returns (groups: seq<(string, int)>)
    requires forall i :: 0 <= i < |ids| ==> ids[i] in rows
    ensures IsStatusGrouping(rows, ids, groups)
  {
    groups := [];
    var i := 0;
    while i < |ids|
      invariant 0 <= i <= |ids|
      invariant IsStatusGrouping(rows, ids[..i], groups)
    {
      var status := rows[ids[i]].status;
      var j := FindGroup(groups, status);
      GroupStep(rows, ids, i, groups, j);
      groups := CountIn(groups, j, status);
      i := i + 1;
    }
    assert ids[..|ids|] == ids;
  }

  /** One pass of the statistics loop: store the count under the lower-cased status, then add it to "total". */
  function StatsStep(stats: map<string, int>, group: (string, int)): map<string, int>
    requires "total" in stats
  {
    var withStatus := stats[Text.LowerStr(group.0) := group.1];
    withStatus["total" := withStatus["total"] + group.1]
  }

  /** The dict the statistics loop builds from the grouped rows, in their order. */
  function StatsOf(groups: seq<(string, int)>): (stats: map<string, int>)
    ensures "total" in stats
  {
    if groups == [] then map["total" := 0] else StatsStep(StatsOf(groups[..|groups| - 1]), groups[|groups| - 1])
  }

  /** The statistics of one more group are one more step of the loop. */
  lemma StatsOfSnoc(groups: seq<(string, int)>, i: int)
    requires 0 <= i < |groups|
    ensures StatsOf(groups[..i + 1]) == StatsStep(StatsOf(groups[..i]), groups[i])
  {
    assert groups[..i + 1][..i] == groups[..i];
  }

  /** When no status lower-cases to "total", the "total" entry is the sum of all group counts. */
  lemma {:induction false} StatsTotal(groups: seq<(string, int)>)
    requires forall j :: 0 <= j < |groups| ==> Text.LowerStr(groups[j].0) != "total"
    ensures StatsOf(groups)["total"] == SumCounts(groups)
  {
    if groups != [] {
      StatsTotal(groups[..|groups| - 1]);
    }
  }

  /** The keys are "total" and the lower-cased statuses. */
  lemma {:induction false} StatsKeys(groups: seq<(string, int)>)
    ensures StatsOf(groups).Keys == {"total"} + set j | 0 <= j < |groups| :: Text.LowerStr(groups[j].0)
  {
    if groups != [] {
      var n := |groups| - 1;
      StatsKeys(groups[..n]);
      var before := set j | 0 <= j < n :: Text.LowerStr(groups[..n][j].0);
      var after := set j | 0 <= j < |groups| :: Text.LowerStr(groups[j].0);
      forall k | k in after ensures k in before + {Text.LowerStr(groups[n].0)} {
        var j :| 0 <= j < |groups| && k == Text.LowerStr(groups[j].0);
        if j < n {
          assert groups[..n][j] == groups[j];
        }
      }
      forall k | k in before ensures k in after {
        var j :| 0 <= j < n && k == Text.LowerStr(groups[..n][j].0);
        assert groups[..n][j] == groups[j];
      }
    }
  }

  /** Statuses differing only in case share one entry: the later group's count overwrites the earlier. */
  lemma StatsCaseCollision()
    ensures StatsOf([("Done", 1), ("done", 2)]) == map["total" := 3, "done" := 2]
  {
    var g: seq<(string, int)> := [("Done", 1), ("done", 2)];
    assert g[..1] == [("Done", 1)] && |g[..1][..0]| == 0;
    assert Text.LowerStr("Done") == "done";
    assert Text.LowerStr("done") == "done";
  }

  /** A status that lower-cases to "total" overwrites the running total before its own count is added. */
  lemma StatsTotalCollision()
    ensures StatsOf([("Open", 3), ("Total", 1)])["total"] == 2
  {
    var g: seq<(string, int)> := [("Open", 3), ("Total", 1)];
    assert g[..1] == [("Open", 3)] && |g[..1][..0]| == 0;
    assert Text.LowerStr("Open") == "open";
    assert Text.LowerStr("Total") == "total";
  }
  /**
   * The entry of a key other than "total" holds the count of the last group
   * whose status lower-cases to it: earlier groups with that key are overwritten.
   */
  lemma {:induction false} StatsEntryIsLastGroup(groups: seq<(string, int)>, k: string, j: int)
    requires k != "total"
    requires 0 <= j < |groups| && Text.LowerStr(groups[j].0) == k
    requires forall g :: j < g < |groups| ==> Text.LowerStr(groups[g].0) != k
    ensures k in StatsOf(groups) && StatsOf(groups)[k] == groups[j].1
  {
    var n := |groups| - 1;
    if j < n {
      var prefix := groups[..n];
      assert prefix[j] == groups[j];
      forall g | j < g < n ensures Text.LowerStr(prefix[g].0) != k {
        assert prefix[g] == groups[g];
      }
      StatsEntryIsLastGroup(prefix, k, j);
    }
  }

  /** Every entry other than "total" holds the count of some group whose status lower-cases to its key. */
  lemma {:induction false} StatsEntryHasGroup(groups: seq<(string, int)>, k: string)
    requires k != "total"
    ensures k in StatsOf(groups) ==>
      exists j :: 0 <= j < |groups| && Text.LowerStr(groups[j].0) == k && StatsOf(groups)[k] == groups[j].1
  {
    if groups != [] && k in StatsOf(groups) {
      var n := |groups| - 1;
      if Text.LowerStr(groups[n].0) != k {
        var prefix := groups[..n];
        StatsEntryHasGroup(prefix, k);
        var j :| 0 <= j < n && Text.LowerStr(prefix[j].0) == k && StatsOf(prefix)[k] == prefix[j].1;
        assert prefix[j] == groups[j];
      }
    }
  }

  /**
   * A status that lower-cases to "total" first overwrites the running total
   * with its count and then adds that count again; later groups add theirs.
   */
  lemma {:induction false} StatsTotalAfterCollision(groups: seq<(string, int)>, j: int)
    requires 0 <= j < |groups| && Text.LowerStr(groups[j].0) == "total"
    requires forall g :: j < g < |groups| ==> Text.LowerStr(groups[g].0) != "total"
    ensures StatsOf(groups)["total"] == 2 * groups[j].1 + SumCounts(groups[j + 1..])
  {
    var n := |groups| - 1;
    if j < n {
      var prefix := groups[..n];
      assert prefix[j] == groups[j];
      forall g | j < g < n ensures Text.LowerStr(prefix[g].0) != "total" {
        assert prefix[g] == groups[g];
      }
      StatsTotalAfterCollision(prefix, j);
      var after := groups[j + 1..];
      assert after[..|after| - 1] == prefix[j + 1..];
      assert after[|after| - 1] == groups[n];
    } else {
      assert groups[j + 1..] == [];
    }
  }


  /** The user's tasks that have exactly this status. */
  function OwnedWithStatus(userId: int, status: string): Task -> bool
  {
    (t: Task) => t.ownerId == userId && t.status == status
  }

  /** No other status among the user's tasks lower-cases to the same key as this one. */
  ghost predicate UnsharedKey(rows: map<int, Task>, userId: int, status: string)
  {
    forall id :: id in rows && rows[id].ownerId == userId && Text.LowerStr(rows[id].status) == Text.LowerStr(status) ==>
      rows[id].status == status
  }

  /**
   * The statistics of a user's tasks: the keys are "total" and each lower-cased
   * status of the user's tasks. Every other key holds the number of the user's
   * tasks with one status that lower-cases to it, and when no other status
   * shares the key that is the status's own count. "total" is the number of
   * tasks the user owns unless some status lower-cases to "total".
   */
  ghost predicate IsStatistics(rows: map<int, Task>, userId: int, stats: map<string, int>)
  {
    && stats.Keys == {"total"} + (set id | id in rows && rows[id].ownerId == userId :: Text.LowerStr(rows[id].status))
    && (forall k :: k in stats && k != "total" ==>
          exists id :: id in rows && rows[id].ownerId == userId && Text.LowerStr(rows[id].status) == k &&
            stats[k] == Query.CountWhere(rows, OwnedWithStatus(userId, rows[id].status)))
    && (forall id ::
          (id in rows && rows[id].ownerId == userId && Text.LowerStr(rows[id].status) != "total" &&
           UnsharedKey(rows, userId, rows[id].status)) ==>
          Text.LowerStr(rows[id].status) in stats &&
          stats[Text.LowerStr(rows[id].status)] == Query.CountWhere(rows, OwnedWithStatus(userId, rows[id].status)))
    && ((forall id :: id in rows && rows[id].ownerId == userId ==> Text.LowerStr(rows[id].status) != "total") ==>
          stats["total"] == Query.CountWhere(rows, Owned(userId)))
  }


  /**
   * get_task_statistics: counts the user's tasks per status. The keys are
   * "total" and each lower-cased status of the user's tasks; "total" is the
   * number of tasks the user owns unless some status lower-cases to "total".
   */
  method GetTaskStatistics(db: Store.Database, userId: int) returns (stats: map<string, int>)
    ensures IsStatistics(db.tasks, userId, stats)
  {
    var ids := Query.SelectUnordered(db.tasks, Owned(userId));
    var groups := GroupByStatus(db.tasks, ids);
    stats := BuildStats(groups);
    StatisticsMeaning(db.tasks, userId, ids, groups);
  }

  /** The loop that folds the grouped rows into the response dict. */
  method BuildStats(groups: seq<(string, int)>) returns (stats: map<string, int>)
    ensures stats == StatsOf(groups)
  {
    stats := map["total" := 0];
    var i := 0;
    while i < |groups|
      invariant 0 <= i <= |groups|
      invariant stats == StatsOf(groups[..i])
    {
      StatsOfSnoc(groups, i);
      stats := stats[Text.LowerStr(groups[i].0) := groups[i].1];
      stats := stats["total" := stats["total"] + groups[i].1];
      i := i + 1;
    }
    assert groups[..|groups|] == groups;
  }

  /** Every row of the grouping comes from some task the user owns. */
  lemma GroupStatusOwned(rows: map<int, Task>, userId: int, ids: seq<int>, groups: seq<(string, int)>, j: int)
    requires Query.IsSelection(rows, Owned(userId), ids)
    requires IsStatusGrouping(rows, ids, groups)
    requires 0 <= j < |groups|
    ensures exists id :: id in rows && rows[id].ownerId == userId && rows[id].status == groups[j].0
  {
    CountStatusWitness(rows, ids, groups[j].0);
    var i :| 0 <= i < |ids| && rows[ids[i]].status == groups[j].0;
    assert Owned(userId)(rows[ids[i]]);
  }

  /** The grouping's statuses are exactly the statuses of the user's tasks, after lower-casing. */
  lemma GroupedStatuses(rows: map<int, Task>, userId: int, ids: seq<int>, groups: seq<(string, int)>)
    requires Query.IsSelection(rows, Owned(userId), ids)
    requires IsStatusGrouping(rows, ids, groups)
    ensures (set j | 0 <= j < |groups| :: Text.LowerStr(groups[j].0)) ==
            (set id | id in rows && rows[id].ownerId == userId :: Text.LowerStr(rows[id].status))
  {
    var fromGroups := set j | 0 <= j < |groups| :: Text.LowerStr(groups[j].0);
    var fromTasks := set id | id in rows && rows[id].ownerId == userId :: Text.LowerStr(rows[id].status);
    forall k | k in fromGroups ensures k in fromTasks {
      var j :| 0 <= j < |groups| && k == Text.LowerStr(groups[j].0);
      GroupStatusOwned(rows, userId, ids, groups, j);
    }
    forall k | k in fromTasks ensures k in fromGroups {
      var id :| id in rows && rows[id].ownerId == userId && k == Text.LowerStr(rows[id].status);
      assert Owned(userId)(rows[id]);
      assert id in ids;
      var i :| 0 <= i < |ids| && ids[i] == id;
      var j :| 0 <= j < |groups| && groups[j].0 == rows[ids[i]].status;
    }
  }

  /** Over a listing without repeats, CountStatus counts the listed rows with that status. */
  lemma {:induction false} CountStatusAsSet(rows: map<int, Task>, ids: seq<int>, status: string)
    requires forall i :: 0 <= i < |ids| ==> ids[i] in rows
    requires Query.Distinct(ids)
    ensures CountStatus(rows, ids, status) == |set x | x in ids && x in rows && rows[x].status == status|
  {
    if ids != [] {
      var n := |ids| - 1;
      var prefix := ids[..n];
      assert forall i :: 0 <= i < n ==> prefix[i] == ids[i];
      CountStatusAsSet(rows, prefix, status);
      var before := set x | x in prefix && x in rows && rows[x].status == status;
      var after := set x | x in ids && x in rows && rows[x].status == status;
      assert ids == prefix + [ids[n]];
      assert ids[n] !in prefix;
      if rows[ids[n]].status == status {
        assert after == before + {ids[n]};
      } else {
        assert after == before;
      }
    }
  }

  /** Over a selection of the user's tasks, counting a status counts the user's tasks with that status. */
  lemma CountStatusIsCountWhere(rows: map<int, Task>, userId: int, ids: seq<int>, status: string)
    requires Query.IsSelection(rows, Owned(userId), ids)
    ensures CountStatus(rows, ids, status) == Query.CountWhere(rows, OwnedWithStatus(userId, status))
  {
    CountStatusAsSet(rows, ids, status);
    var listed := set x | x in ids && x in rows && rows[x].status == status;
    var where := OwnedWithStatus(userId, status);
    forall x | x in listed ensures x in rows && where(rows[x]) {
      var i :| 0 <= i < |ids| && ids[i] == x;
      assert Owned(userId)(rows[ids[i]]);
      assert where(rows[x]);
    }
    forall x | x in rows && where(rows[x]) ensures x in listed {
      assert rows[x].ownerId == userId && rows[x].status == status;
      assert Owned(userId)(rows[x]);
    }
    Query.CountWhereIsSize(rows, where, listed);
  }

  /** When no other status shares its key, the only groups under that key are the status's own. */
  lemma GroupsUnderKey(rows: map<int, Task>, userId: int, ids: seq<int>, groups: seq<(string, int)>, status: string)
    requires Query.IsSelection(rows, Owned(userId), ids)
    requires IsStatusGrouping(rows, ids, groups)
    requires UnsharedKey(rows, userId, status)
    ensures forall g :: 0 <= g < |groups| && Text.LowerStr(groups[g].0) == Text.LowerStr(status) ==> groups[g].0 == status
  {
    forall g | 0 <= g < |groups| && Text.LowerStr(groups[g].0) == Text.LowerStr(status) ensures groups[g].0 == status {
      GroupStatusOwned(rows, userId, ids, groups, g);
    }
  }

  /** The per-status entries of the dict built from the grouped rows. */
  lemma StatisticsCounts(rows: map<int, Task>, userId: int, ids: seq<int>, groups: seq<(string, int)>)
    requires Query.IsSelection(rows, Owned(userId), ids)
    requires IsStatusGrouping(rows, ids, groups)
    ensures forall k :: k in StatsOf(groups) && k != "total" ==>
      exists id :: id in rows && rows[id].ownerId == userId && Text.LowerStr(rows[id].status) == k &&
        StatsOf(groups)[k] == Query.CountWhere(rows, OwnedWithStatus(userId, rows[id].status))
    ensures forall id ::
      (id in rows && rows[id].ownerId == userId && Text.LowerStr(rows[id].status) != "total" &&
       UnsharedKey(rows, userId, rows[id].status)) ==>
      Text.LowerStr(rows[id].status) in StatsOf(groups) &&
      StatsOf(groups)[Text.LowerStr(rows[id].status)] == Query.CountWhere(rows, OwnedWithStatus(userId, rows[id].status))
  {
    var stats := StatsOf(groups);
    forall k | k in stats && k != "total"
      ensures exists id ::
        id in rows && rows[id].ownerId == userId && Text.LowerStr(rows[id].status) == k &&
        stats[k] == Query.CountWhere(rows, OwnedWithStatus(userId, rows[id].status))
    {
      StatsEntryHasGroup(groups, k);
      var j :| 0 <= j < |groups| && Text.LowerStr(groups[j].0) == k && stats[k] == groups[j].1;
      GroupStatusOwned(rows, userId, ids, groups, j);
      var id :| id in rows && rows[id].ownerId == userId && rows[id].status == groups[j].0;
      CountStatusIsCountWhere(rows, userId, ids, groups[j].0);
    }
    forall id | id in rows && rows[id].ownerId == userId && Text.LowerStr(rows[id].status) != "total" &&
                UnsharedKey(rows, userId, rows[id].status)
      ensures Text.LowerStr(rows[id].status) in stats &&
              stats[Text.LowerStr(rows[id].status)] == Query.CountWhere(rows, OwnedWithStatus(userId, rows[id].status))
    {
      var status := rows[id].status;
      assert Owned(userId)(rows[id]);
      var i :| 0 <= i < |ids| && ids[i] == id;
      var j :| 0 <= j < |groups| && groups[j].0 == rows[ids[i]].status;
      GroupsUnderKey(rows, userId, ids, groups, status);
      StatsEntryIsLastGroup(groups, Text.LowerStr(status), j);
      CountStatusIsCountWhere(rows, userId, ids, status);
    }
  }

  /** Ties the grouped rows back to the user's tasks: their statuses and, when no status collides with "total", their number. */
  lemma StatisticsMeaning(rows: map<int, Task>, userId: int, ids: seq<int>, groups: seq<(string, int)>)
    requires Query.IsSelection(rows, Owned(userId), ids)
    requires IsStatusGrouping(rows, ids, groups)
    ensures IsStatistics(rows, userId, StatsOf(groups))
  {
    StatsKeys(groups);
    GroupedStatuses(rows, userId, ids, groups);
    StatisticsCounts(rows, userId, ids, groups);
    if forall id :: id in rows && rows[id].ownerId == userId ==> Text.LowerStr(rows[id].status) != "total" {
      forall j | 0 <= j < |groups| ensures Text.LowerStr(groups[j].0) != "total" {
        GroupStatusOwned(rows, userId, ids, groups, j);
      }
      StatsTotal(groups);
      Query.SelectionSize(rows, Owned(userId), ids);
    }
  }
}
