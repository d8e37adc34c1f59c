/**
 * The task endpoints: each handler's order of checks, its database write, the
 * cache entries it reads, fills or clears, and the metadata job it enqueues.
 * The caller is the authenticated principal; `now` is the insertion time.
 */
module TaskRoutes {
  import opened Common
  import opened Records
  import Cache
  import CacheKeys
  import Pagination
  import Query
  import CrudTask
  import opened Service

  /** The expirations the handlers give their cache entries, in seconds. */
  const ListTtl := 300
  const DetailTtl := 600
  const StatsTtl := 120

  /** A regular user may read and change only their own tasks; an admin any task. */
  predicate MayAccess(user: Principal, t: Task)
  {
    IsAdmin(user) || t.ownerId == user.id
  }

  // ----- POST / -----

  /** The request carries an Idempotency-Key whose record is present and truthy. */
  ghost predicate Replayed(app: App, idempotencyKey: Option<string>)
    reads app.cache
  {
    Truthy(idempotencyKey) && Hit(app.cache.Lookup(Cache.IdempotencyKey(idempotencyKey.value)))
  }

  /** TaskRead(**cached): the cached task, or a 500 when the entry is not a task. */
  function TaskFromCache(v: Value): Result<Task, HttpError>
  {
    if v.TaskDoc? then Ok(v.task) else Err(InternalError)
  }

  /**
   * create_task. A replayed Idempotency-Key returns the recorded response,
   * whoever sends it, and changes nothing. Otherwise exactly one task owned by
   * the caller is inserted, its response recorded under the key (when one is
   * given), the caller's listing pages cleared, and one job for the new id
   * enqueued; every other cache entry stays.
   */
  method CreateTask(app: App, user: Principal, taskIn: TaskCreate, idempotencyKey: Option<string>, now: int)
    returns (r: Result<Task, HttpError>)
    requires app.Valid()
    modifies app, app.db, app.cache
    ensures app.Valid()
    ensures app.cache.online == old(app.cache.online)
    ensures old(Replayed(app, idempotencyKey)) ==>
      && r == TaskFromCache(old(app.cache.Lookup(Cache.IdempotencyKey(idempotencyKey.value))).value)
      && app.db.tasks == old(app.db.tasks) && app.db.comments == old(app.db.comments)
      && app.cache.store == old(app.cache.store) && app.outbox == old(app.outbox)
    ensures !old(Replayed(app, idempotencyKey)) ==>
      && r == Ok(CrudTask.NewTask(old(app.db.nextTaskId), taskIn, user.id, now))
      && r.value.id !in old(app.db.tasks)
      && app.db.tasks == old(app.db.tasks)[r.value.id := r.value]
      && app.db.comments == old(app.db.comments)
      && app.outbox == old(app.outbox) + [r.value.id]
      && (forall k :: Cache.Matches(CacheKeys.UserTasksPattern(user.id), k) ==> app.cache.Lookup(k).None?)
      && (Truthy(idempotencyKey) && app.cache.online ==>
            app.cache.Lookup(Cache.IdempotencyKey(idempotencyKey.value)) == Some(TaskDoc(r.value)))
      && (forall k :: (!Cache.Matches(CacheKeys.UserTasksPattern(user.id), k) &&
                        !(Truthy(idempotencyKey) && k == Cache.IdempotencyKey(idempotencyKey.value))) ==>
            app.cache.Lookup(k) == old(app.cache.Lookup(k)))
  {
    if Truthy(idempotencyKey) {
      var cached := app.cache.GetIdempotency(idempotencyKey.value);
      if Hit(cached) {
        return TaskFromCache(cached.value);
      }
    }
    var task := CrudTask.CreateTask(app.db, taskIn, user.id, now);
    if Truthy(idempotencyKey) {
      var stored := app.cache.SetIdempotency(idempotencyKey.value, TaskDoc(task));
      CacheKeys.IdempotencyKeyNeverInvalidated(idempotencyKey.value, user.id, task.id);
    }
    var cleared := app.cache.DeletePattern(CacheKeys.UserTasksPattern(user.id));
    app.outbox := app.outbox + [task.id];
    r := Ok(task);
  }

  /**
   * A client retrying POST / with the same Idempotency-Key, later, on a
   * reachable cache: both calls answer with the same task, and exactly one
   * task is inserted and one job enqueued.
   */
  method CreateTaskRetried(app: App, user: Principal, taskIn: TaskCreate, idempotencyKey: Option<string>,
                           now: int, retriedAt: int)
    returns (first: Result<Task, HttpError>, retry: Result<Task, HttpError>)
    requires app.Valid() && app.cache.online
    requires Truthy(idempotencyKey) && !Replayed(app, idempotencyKey)
    modifies app, app.db, app.cache
    ensures first.Ok? && retry == first
    ensures first.value.id !in old(app.db.tasks) && app.db.tasks == old(app.db.tasks)[first.value.id := first.value]
    ensures app.outbox == old(app.outbox) + [first.value.id]
  {
    first := CreateTask(app, user, taskIn, idempotencyKey, now);
    assert Replayed(app, idempotencyKey);
    retry := CreateTask(app, user, taskIn, idempotencyKey, retriedAt);
  }

  // ----- GET / -----

  /** The query parameters of the task listing. */
  datatype ListRequest = ListRequest(
    page: int,
    pageSize: int,
    status: Option<string>,
    ownerId: Option<int>,
    titleContains: Option<string>,
    createdAfter: Option<string>,
    createdBefore: Option<string>)

  /** The owner_id filter only an admin may set. */
  function OwnerFilter(user: Principal, q: ListRequest): Option<int>
  {
    if IsAdmin(user) then q.ownerId else None
  }

  /** TaskFilters(...) as the handler builds it, running the date validator. */
  function ListFilters(app: App, user: Principal, q: ListRequest): Result<Pagination.TaskFilters, string>
  {
    Pagination.MakeTaskFilters(app.fromIsoFormat, q.status, OwnerFilter(user, q), q.titleContains,
                               q.createdAfter, q.createdBefore)
  }

  /** The listing's cache key: the caller's id and the hash of the query, is_admin included. */
  function ListKey(app: App, user: Principal, q: ListRequest): string
  {
    CacheKeys.TaskListKey(app.hash, user.id,
      CacheKeys.TaskListFilterItems(q.page, q.pageSize, q.status, OwnerFilter(user, q), q.titleContains,
                                    q.createdAfter, q.createdBefore, IsAdmin(user)))
  }

  /** The tasks the listing shows this caller. */
  function ListQuery(app: App, user: Principal, q: ListRequest): Task -> bool
    requires ListFilters(app, user, q).Ok?
  {
    CrudTask.TaskQuery(ListFilters(app, user, q).value, user.id, IsAdmin(user),
                       CrudTask.DateBound(app.fromIsoFormat, q.createdAfter),
                       CrudTask.DateBound(app.fromIsoFormat, q.createdBefore))
  }

  /** PaginatedResponse(**cached): the cached page, or a 500 when the entry is not a task page. */
  function TaskPageFromCache(v: Value): Result<Pagination.Page<Task>, HttpError>
  {
    if v.TaskPageDoc? then Ok(v.taskPage) else Err(InternalError)
  }

  /**
   * get_tasks. A date the validator refuses is a 500 (the validation error is
   * raised inside the handler). A hit returns the cached page without a query;
   * a miss computes the page of the tasks this caller may see and stores it
   * under the same key for 300 seconds.
   */
  method GetTasks(app: App, user: Principal, q: ListRequest) returns (r: Result<Pagination.Page<Task>, HttpError>)
    requires app.Valid()
    requires q.page >= 1 && 1 <= q.pageSize <= 100
    modifies app.cache
    ensures app.cache.online == old(app.cache.online)
    ensures ListFilters(app, user, q).Err? ==> r == Err(InternalError) && app.cache.store == old(app.cache.store)
    ensures ListFilters(app, user, q).Ok? && Hit(old(app.cache.Lookup(ListKey(app, user, q)))) ==>
      && r == TaskPageFromCache(old(app.cache.Lookup(ListKey(app, user, q))).value)
      && app.cache.store == old(app.cache.store)
    ensures ListFilters(app, user, q).Ok? && !Hit(old(app.cache.Lookup(ListKey(app, user, q)))) ==>
      && r.Ok?
      && Query.IsNewestFirstPage(app.db.tasks, ListQuery(app, user, q), TaskCreatedAt,
                                 Pagination.Offset(Pagination.PaginationParams(q.page, q.pageSize)), q.pageSize, r.value.items)
      && r.value == Pagination.Create(r.value.items, Query.CountWhere(app.db.tasks, ListQuery(app, user, q)), q.page, q.pageSize)
      && app.cache.store == if app.cache.online
                            then old(app.cache.store)[ListKey(app, user, q) := Cache.Entry(TaskPageDoc(r.value), ListTtl)]
                            else old(app.cache.store)
  {
    var pagination := Pagination.PaginationParams(q.page, q.pageSize);
    var filters := ListFilters(app, user, q);
    if filters.Err? {
      return Err(InternalError);
    }
    var key := ListKey(app, user, q);
    var cached := app.cache.Get(key);
    if Hit(cached) {
      return TaskPageFromCache(cached.value);
    }
    var result := CrudTask.GetTasksWithPagination(app.db, pagination, filters.value, user.id, IsAdmin(user), app.fromIsoFormat);
    var (tasks, total) := result.value;
    var response := Pagination.Create(tasks, total, q.page, q.pageSize);
    var stored := app.cache.Set(key, TaskPageDoc(response), ListTtl);
    r := Ok(response);
  }

  /** A regular user's listing shows only tasks they own, whatever owner_id they ask for. */
  lemma ListingIsOwnTasks(app: App, user: Principal, q: ListRequest, rows: map<int, Task>, items: seq<Task>)
    requires q.page >= 1 && q.pageSize >= 1
    requires !IsAdmin(user)
    requires ListFilters(app, user, q).Ok?
    requires Query.IsNewestFirstPage(rows, ListQuery(app, user, q), TaskCreatedAt,
                                     Pagination.Offset(Pagination.PaginationParams(q.page, q.pageSize)), q.pageSize, items)
    ensures forall i :: 0 <= i < |items| ==> items[i].ownerId == user.id
  {
    CrudTask.TaskPageRows(rows, ListFilters(app, user, q).value, user.id, false,
                          CrudTask.DateBound(app.fromIsoFormat, q.createdAfter),
                          CrudTask.DateBound(app.fromIsoFormat, q.createdBefore),
                          Pagination.PaginationParams(q.page, q.pageSize), items);
  }

  // ----- GET /{task_id} -----

  /**
   * get_task. A hit is returned only to an admin or to the cached task's owner
   * (anyone else gets 403). On a miss: 404 for a missing task, then 403, and
   * otherwise the task, cached for 600 seconds.
   */
  method GetTask(app: App, user: Principal, taskId: int) returns (r: Result<Task, HttpError>)
    requires app.Valid()
    modifies app.cache
    ensures app.cache.online == old(app.cache.online)
    ensures Hit(old(app.cache.Lookup(CacheKeys.TaskDetailKey(taskId)))) ==>
      && app.cache.store == old(app.cache.store)
      && r == (var v := old(app.cache.Lookup(CacheKeys.TaskDetailKey(taskId))).value;
               if !v.TaskDoc? then Err(InternalError)
               else if !MayAccess(user, v.task) then Err(Forbidden)
               else Ok(v.task))
    ensures !Hit(old(app.cache.Lookup(CacheKeys.TaskDetailKey(taskId)))) ==>
      && (taskId !in app.db.tasks ==> r == Err(TaskNotFound) && app.cache.store == old(app.cache.store))
      && (taskId in app.db.tasks && !MayAccess(user, app.db.tasks[taskId]) ==>
            r == Err(Forbidden) && app.cache.store == old(app.cache.store))
      && (taskId in app.db.tasks && MayAccess(user, app.db.tasks[taskId]) ==>
            && r == Ok(app.db.tasks[taskId])
            && app.cache.store == if app.cache.online
                                  then old(app.cache.store)[CacheKeys.TaskDetailKey(taskId) := Cache.Entry(TaskDoc(r.value), DetailTtl)]
                                  else old(app.cache.store))
  {
    var key := CacheKeys.TaskDetailKey(taskId);
    var cached := app.cache.Get(key);
    if Hit(cached) {
      if !cached.value.TaskDoc? {
        return Err(InternalError);
      }
      if !MayAccess(user, cached.value.task) {
        return Err(Forbidden);
      }
      return Ok(cached.value.task);
    }
    var task := CrudTask.GetTaskById(app.db, taskId);
    if task.None? {
      return Err(TaskNotFound);
    }
    if !MayAccess(user, task.value) {
      return Err(Forbidden);
    }
    var stored := app.cache.Set(key, TaskDoc(task.value), DetailTtl);
    r := Ok(task.value);
  }

  // ----- PATCH /{task_id} -----

  /**
   * update_task: 404, then 403, then 400 for an empty update, all before any
   * write; a NOT NULL column set to null fails at the commit. After a
   * successful update the task's detail entry and the caller's listing pages
   * are gone, and an admin's update also clears every user's listing pages;
   * nothing else in the cache changes.
   */
  method UpdateTask(app: App, user: Principal, taskId: int, updates: TaskUpdate) returns (r: Result<Task, HttpError>)
    requires app.Valid()
    modifies app.db, app.cache
    ensures app.Valid()
    ensures app.cache.online == old(app.cache.online)
    ensures app.db.comments == old(app.db.comments)
    ensures r.Err? ==> app.db.tasks == old(app.db.tasks) && app.cache.store == old(app.cache.store)
    ensures taskId !in old(app.db.tasks) ==> r == Err(TaskNotFound)
    ensures taskId in old(app.db.tasks) && !MayAccess(user, old(app.db.tasks)[taskId]) ==> r == Err(Forbidden)
    ensures taskId in old(app.db.tasks) && MayAccess(user, old(app.db.tasks)[taskId]) && !HasFields(updates) ==>
      r == Err(NoFieldsToUpdate)
    ensures (taskId in old(app.db.tasks) && MayAccess(user, old(app.db.tasks)[taskId]) && HasFields(updates) &&
             CrudTask.ViolatesNotNull(updates)) ==> r == Err(DatabaseError)
    ensures (taskId in old(app.db.tasks) && MayAccess(user, old(app.db.tasks)[taskId]) && HasFields(updates) &&
             !CrudTask.ViolatesNotNull(updates)) ==>
      && r == Ok(CrudTask.ApplyTaskUpdate(old(app.db.tasks)[taskId], updates))
      && app.db.tasks == old(app.db.tasks)[taskId := r.value]
      && app.cache.Lookup(CacheKeys.TaskDetailKey(taskId)).None?
      && (forall k :: Cache.Matches(CacheKeys.UserTasksPattern(user.id), k) ==> app.cache.Lookup(k).None?)
      && (IsAdmin(user) ==> forall k :: Cache.Matches(CacheKeys.AllUserTasksPattern, k) ==> app.cache.Lookup(k).None?)
      && (forall k :: (k != CacheKeys.TaskDetailKey(taskId) && !Cache.Matches(CacheKeys.UserTasksPattern(user.id), k) &&
                        !(IsAdmin(user) && Cache.Matches(CacheKeys.AllUserTasksPattern, k))) ==>
            app.cache.Lookup(k) == old(app.cache.Lookup(k)))
  {
    var task := CrudTask.GetTaskById(app.db, taskId);
    if task.None? {
      return Err(TaskNotFound);
    }
    if !MayAccess(user, task.value) {
      return Err(Forbidden);
    }
    if !HasFields(updates) {
      return Err(NoFieldsToUpdate);
    }
    var updated := CrudTask.UpdateTask(app.db, taskId, updates);
    if updated.Err? {
      return Err(updated.error);
    }
    var detailKey := CacheKeys.TaskDetailKey(taskId);
    var deleted := app.cache.Delete(detailKey);
    CacheKeys.TaskDetailKeyNotMatchedByListPatterns(taskId, user.id);
    var cleared := app.cache.DeletePattern(CacheKeys.UserTasksPattern(user.id));
    if IsAdmin(user) {
      cleared := app.cache.DeletePattern(CacheKeys.AllUserTasksPattern);
    }
    r := Ok(updated.value.value);
  }

  // ----- DELETE /{task_id} -----

  /**
   * delete_task: 404, then 403; a task that still has comments cannot be
   * deleted (the commit fails). After a successful delete the task row, its
   * detail entry and the caller's listing pages are gone and every other entry
   * stays: when an admin deletes someone else's task, the owner's listing pages
   * survive.
   */
  method DeleteTask(app: App, user: Principal, taskId: int) returns (err: Option<HttpError>)
    requires app.Valid()
    modifies app.db, app.cache
    ensures app.Valid()
    ensures app.cache.online == old(app.cache.online)
    ensures app.db.comments == old(app.db.comments)
    ensures err.Some? ==> app.db.tasks == old(app.db.tasks) && app.cache.store == old(app.cache.store)
    ensures taskId !in old(app.db.tasks) ==> err == Some(TaskNotFound)
    ensures taskId in old(app.db.tasks) && !MayAccess(user, old(app.db.tasks)[taskId]) ==> err == Some(Forbidden)
    ensures taskId in old(app.db.tasks) && MayAccess(user, old(app.db.tasks)[taskId]) && old(app.db.Referenced(taskId)) ==>
      err == Some(DatabaseError)
    ensures taskId in old(app.db.tasks) && MayAccess(user, old(app.db.tasks)[taskId]) && !old(app.db.Referenced(taskId)) ==>
      && err.None?
      && app.db.tasks == old(app.db.tasks) - {taskId}
      && app.cache.Lookup(CacheKeys.TaskDetailKey(taskId)).None?
      && (forall k :: Cache.Matches(CacheKeys.UserTasksPattern(user.id), k) ==> app.cache.Lookup(k).None?)
      && (forall k :: k != CacheKeys.TaskDetailKey(taskId) && !Cache.Matches(CacheKeys.UserTasksPattern(user.id), k) ==>
            app.cache.Lookup(k) == old(app.cache.Lookup(k)))
  {
    var task := CrudTask.GetTaskById(app.db, taskId);
    if task.None? {
      return Some(TaskNotFound);
    }
    if !MayAccess(user, task.value) {
      return Some(Forbidden);
    }
    err := CrudTask.DeleteTask(app.db, taskId);
    if err.Some? {
      return;
    }
    var deleted := app.cache.Delete(CacheKeys.TaskDetailKey(taskId));
    CacheKeys.TaskDetailKeyNotMatchedByListPatterns(taskId, user.id);
    var cleared := app.cache.DeletePattern(CacheKeys.UserTasksPattern(user.id));
  }

  /**
   * The listing pages of another user are not among what delete_task (or a
   * regular user's update_task) clears: they are neither the detail key nor
   * matched by the caller's pattern.
   */
  lemma OtherUsersListingsSurvive(hash: string -> int, caller: int, owner: int, taskId: int,
                                  filters: seq<CacheKeys.FilterItem>)
    requires CacheKeys.DistinctKeys(filters)
    requires owner != caller
    ensures CacheKeys.TaskListKey(hash, owner, filters) != CacheKeys.TaskDetailKey(taskId)
    ensures !Cache.Matches(CacheKeys.UserTasksPattern(caller), CacheKeys.TaskListKey(hash, owner, filters))
  {
    CacheKeys.TaskListKeyMatchesUserPatternIff(hash, owner, caller, filters);
    CacheKeys.TaskListKeyMatchesAllUsersPattern(hash, owner, filters);
    CacheKeys.TaskDetailKeyNotMatchedByListPatterns(taskId, caller);
  }

  // ----- GET /stats/summary -----

  /**
   * get_task_stats: a hit is returned as it is; a miss computes the caller's
   * statistics and caches them for 120 seconds.
   */
  method GetTaskStats(app: App, user: Principal) returns (r: Value)
    requires app.Valid()
    modifies app.cache
    ensures app.cache.online == old(app.cache.online)
    ensures Hit(old(app.cache.Lookup(CacheKeys.StatsKey(user.id)))) ==>
      r == old(app.cache.Lookup(CacheKeys.StatsKey(user.id))).value && app.cache.store == old(app.cache.store)
    ensures !Hit(old(app.cache.Lookup(CacheKeys.StatsKey(user.id)))) ==>
      && r.StatsDoc? && CrudTask.IsStatistics(app.db.tasks, user.id, r.stats)
      && app.cache.store == if app.cache.online
                            then old(app.cache.store)[CacheKeys.StatsKey(user.id) := Cache.Entry(r, StatsTtl)]
                            else old(app.cache.store)
  {
    var key := CacheKeys.StatsKey(user.id);
    var cached := app.cache.Get(key);
    if Hit(cached) {
      return cached.value;
    }
    var stats := CrudTask.GetTaskStatistics(app.db, user.id);
    r := StatsDoc(stats);
    var stored := app.cache.Set(key, r, StatsTtl);
  }
}
