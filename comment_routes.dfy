/**
 * The comment endpoints: the order of the not-found and permission checks,
 * the database write, and the cache entries each handler reads, fills or
 * clears. Every committed write clears all comment listing pages and the
 * parent task's detail entry.
 */
module CommentRoutes {
  import opened Common
  import opened Records
  import Cache
  import CacheKeys
  import Pagination
  import Query
  import CrudTask
  import CrudComment
  import opened Service

  /** How long a page of comments stays cached, in seconds. */
  const CommentsTtl := 180

  /** Only an admin or the comment's author may change or delete it. */
  predicate MayModify(user: Principal, c: Comment)
  {
    IsAdmin(user) || c.userId == user.id
  }

  /** An admin, the comment's author, or the owner of the comment's task may read it. */
  predicate MayRead(tasks: map<int, Task>, user: Principal, c: Comment)
  {
    IsAdmin(user) || c.userId == user.id || (c.taskId in tasks && tasks[c.taskId].ownerId == user.id)
  }

  /**
   * What every comment mutation leaves in the cache: no comment listing page,
   * no detail entry of the parent task, and every other entry as it was.
   */
  ghost predicate InvalidatedAfterCommentWrite(cache: Cache.RedisCache<Value>, oldStore: map<string, Cache.Entry<Value>>,
                                               taskId: int)
    reads cache
  {
    && (cache.online ==> cache.store == oldStore - Cache.MatchingKeys(oldStore, CacheKeys.AllCommentsPattern)
                                                 - {CacheKeys.TaskDetailKey(taskId)})
    && (!cache.online ==> cache.store == oldStore)
    && (forall k :: Cache.Matches(CacheKeys.AllCommentsPattern, k) ==> cache.Lookup(k).None?)
    && cache.Lookup(CacheKeys.TaskDetailKey(taskId)).None?
  }

  /** The two invalidation calls each comment mutation ends with. */
  method InvalidateForComment(cache: Cache.RedisCache<Value>, taskId: int)
    modifies cache`store
    ensures InvalidatedAfterCommentWrite(cache, old(cache.store), taskId)
    ensures forall k :: !Cache.Matches(CacheKeys.AllCommentsPattern, k) && k != CacheKeys.TaskDetailKey(taskId) ==>
      cache.Lookup(k) == old(cache.Lookup(k))
  {
    var cleared := cache.DeletePattern(CacheKeys.AllCommentsPattern);
    var deleted := cache.Delete(CacheKeys.TaskDetailKey(taskId));
  }

  // ----- POST / -----

  /**
   * create_comment: 404 when the task does not exist, then 403 unless the
   * caller is an admin or owns the task; otherwise one comment authored by the
   * caller is inserted and the caches are invalidated.
   */
  method CreateComment(app: App, user: Principal, commentIn: CommentCreate, now: int)
    returns (r: Result<Comment, HttpError>)
    requires app.Valid()
    modifies app.db, app.cache
    ensures app.Valid()
    ensures app.cache.online == old(app.cache.online)
    ensures app.db.tasks == old(app.db.tasks)
    ensures r.Err? ==> app.db.comments == old(app.db.comments) && app.cache.store == old(app.cache.store)
    ensures commentIn.taskId !in old(app.db.tasks) ==> r == Err(TaskNotFound)
    ensures commentIn.taskId in old(app.db.tasks) && !IsAdmin(user) && old(app.db.tasks)[commentIn.taskId].ownerId != user.id ==>
      r == Err(Forbidden)
    ensures commentIn.taskId in old(app.db.tasks) && (IsAdmin(user) || old(app.db.tasks)[commentIn.taskId].ownerId == user.id) ==>
      && r == Ok(Comment(old(app.db.nextCommentId), commentIn.content, commentIn.taskId, user.id, now))
      && r.value.id !in old(app.db.comments)
      && app.db.comments == old(app.db.comments)[r.value.id := r.value]
      && InvalidatedAfterCommentWrite(app.cache, old(app.cache.store), commentIn.taskId)
  {
    var task := CrudTask.GetTaskById(app.db, commentIn.taskId);
    if task.None? {
      return Err(TaskNotFound);
    }
    if !IsAdmin(user) && task.value.ownerId != user.id {
      return Err(Forbidden);
    }
    r := CrudComment.CreateComment(app.db, commentIn, user.id, now);
    InvalidateForComment(app.cache, commentIn.taskId);
  }

  // ----- GET / -----

  /** The query parameters of the comment listing. */
  datatype ListRequest = ListRequest(
    page: int,
    pageSize: int,
    taskId: Option<int>,
    userId: Option<int>,
    contentContains: Option<string>)

  /** CommentFilters as the handler builds them: the user_id filter only for an admin. */
  function ListFilters(user: Principal, q: ListRequest): Pagination.CommentFilters
  {
    Pagination.CommentFilters(q.taskId, if IsAdmin(user) then q.userId else None, q.contentContains)
  }

  function ListKey(app: App, user: Principal, q: ListRequest): string
  {
    CacheKeys.CommentsListKey(app.hash, user.id, q.page, q.pageSize, ListFilters(user, q))
  }

  /** The comments the listing shows: all that pass the filters for an admin, the related ones for anyone else. */
  function ListQuery(tasks: map<int, Task>, user: Principal, q: ListRequest): Comment -> bool
  {
    if IsAdmin(user) then (c: Comment) => CrudComment.CommentSelected(ListFilters(user, q), c)
    else CrudComment.RelatedQuery(tasks, user.id, ListFilters(user, q))
  }

  /** PaginatedResponse(**cached): the cached page, or a 500 when the entry is not a page of comments. */
  function CommentPageFromCache(v: Value): Result<Pagination.Page<Comment>, HttpError>
  {
    if v.CommentPageDoc? then Ok(v.commentPage) else Err(InternalError)
  }

  /**
   * get_comments: a hit returns the cached page without a query; a miss runs
   * the admin query or the related-comments query and caches the page for 180
   * seconds under a key that starts with the caller's id.
   */
  method GetComments(app: App, user: Principal, q: ListRequest) returns (r: Result<Pagination.Page<Comment>, HttpError>)
    requires app.Valid()
    requires q.page >= 1 && 1 <= q.pageSize <= 100
    modifies app.cache
    ensures app.cache.online == old(app.cache.online)
    ensures Hit(old(app.cache.Lookup(ListKey(app, user, q)))) ==>
      r == CommentPageFromCache(old(app.cache.Lookup(ListKey(app, user, q))).value) && app.cache.store == old(app.cache.store)
    ensures !Hit(old(app.cache.Lookup(ListKey(app, user, q)))) ==>
      && r.Ok?
      && Query.IsNewestFirstPage(app.db.comments, ListQuery(app.db.tasks, user, q), CommentCreatedAt,
                                 Pagination.Offset(Pagination.PaginationParams(q.page, q.pageSize)), q.pageSize, r.value.items)
      && r.value == Pagination.Create(r.value.items, Query.CountWhere(app.db.comments, ListQuery(app.db.tasks, user, q)),
                                      q.page, q.pageSize)
      && app.cache.store == if app.cache.online
                            then old(app.cache.store)[ListKey(app, user, q) := Cache.Entry(CommentPageDoc(r.value), CommentsTtl)]
                            else old(app.cache.store)
  {
    var pagination := Pagination.PaginationParams(q.page, q.pageSize);
    var filters := ListFilters(user, q);
    var key := ListKey(app, user, q);
    var cached := app.cache.Get(key);
    if Hit(cached) {
      return CommentPageFromCache(cached.value);
    }
    var comments, total;
    if IsAdmin(user) {
      comments, total := CrudComment.GetCommentsWithPagination(app.db, pagination, filters);
    } else {
      comments, total := CrudComment.GetUserRelatedCommentsWithPagination(app.db, user.id, pagination, filters);
    }
    var response := Pagination.Create(comments, total, q.page, q.pageSize);
    var stored := app.cache.Set(key, CommentPageDoc(response), CommentsTtl);
    r := Ok(response);
  }

  /**
   * A regular user's comment listing shows only comments they wrote or that sit
   * on tasks they own, and a user_id they pass changes nothing.
   */
  lemma ListingIsRelated(app: App, user: Principal, q: ListRequest, rows: map<int, Comment>, tasks: map<int, Task>,
                         items: seq<Comment>)
    requires q.page >= 1 && q.pageSize >= 1
    requires !IsAdmin(user)
    requires Query.IsNewestFirstPage(rows, ListQuery(tasks, user, q), CommentCreatedAt,
                                     Pagination.Offset(Pagination.PaginationParams(q.page, q.pageSize)), q.pageSize, items)
    ensures forall i :: 0 <= i < |items| ==>
      items[i].userId == user.id || (items[i].taskId in tasks && tasks[items[i].taskId].ownerId == user.id)
    ensures forall u :: ListKey(app, user, q.(userId := u)) == ListKey(app, user, q)
  {
    CrudComment.RelatedPageVisible(tasks, rows, user.id, ListFilters(user, q),
                                   Pagination.PaginationParams(q.page, q.pageSize), items);
  }

  // ----- GET /{comment_id} -----

  /**
   * get_comment: 404 when the comment does not exist, then 403 unless the
   * caller is an admin, its author or the owner of its task.
   */
  method GetComment(app: App, user: Principal, commentId: int) returns (r: Result<Comment, HttpError>)
    requires app.Valid()
    ensures commentId !in app.db.comments ==> r == Err(CommentNotFound)
    ensures commentId in app.db.comments && !MayRead(app.db.tasks, user, app.db.comments[commentId]) ==> r == Err(Forbidden)
    ensures commentId in app.db.comments && MayRead(app.db.tasks, user, app.db.comments[commentId]) ==>
      r == Ok(app.db.comments[commentId])
  {
    var comment := CrudComment.GetCommentById(app.db, commentId);
    if comment.None? {
      return Err(CommentNotFound);
    }
    if !IsAdmin(user) && comment.value.userId != user.id {
      var task := CrudTask.GetTaskById(app.db, comment.value.taskId);
      if task.None? || task.value.ownerId != user.id {
        return Err(Forbidden);
      }
    }
    r := Ok(comment.value);
  }

  // ----- PATCH /{comment_id} -----

  /**
   * update_comment: 404, then 403 unless the caller is an admin or the author
   * (owning the task is not enough); otherwise only the content changes and
   * the caches are invalidated.
   */
  method UpdateComment(app: App, user: Principal, commentId: int, content: string) returns (r: Result<Comment, HttpError>)
    requires app.Valid()
    modifies app.db, app.cache
    ensures app.Valid()
    ensures app.cache.online == old(app.cache.online)
    ensures app.db.tasks == old(app.db.tasks)
    ensures r.Err? ==> app.db.comments == old(app.db.comments) && app.cache.store == old(app.cache.store)
    ensures commentId !in old(app.db.comments) ==> r == Err(CommentNotFound)
    ensures commentId in old(app.db.comments) && !MayModify(user, old(app.db.comments)[commentId]) ==> r == Err(Forbidden)
    ensures commentId in old(app.db.comments) && MayModify(user, old(app.db.comments)[commentId]) ==>
      && r == Ok(old(app.db.comments)[commentId].(content := content))
      && app.db.comments == old(app.db.comments)[commentId := r.value]
      && InvalidatedAfterCommentWrite(app.cache, old(app.cache.store), r.value.taskId)
  {
    var comment := CrudComment.GetCommentById(app.db, commentId);
    if comment.None? {
      return Err(CommentNotFound);
    }
    if !IsAdmin(user) && comment.value.userId != user.id {
      return Err(Forbidden);
    }
    CrudComment.ContentOnlyUpdate(comment.value, content);
    r := CrudComment.UpdateComment(app.db, commentId, [SetContent(content)]);
    InvalidateForComment(app.cache, comment.value.taskId);
  }

  // ----- DELETE /{comment_id} -----

  /**
   * delete_comment: 404, then 403 unless the caller is an admin or the author;
   * otherwise exactly that comment is removed and the caches are invalidated.
   */
  method DeleteComment(app: App, user: Principal, commentId: int) returns (err: Option<HttpError>)
    requires app.Valid()
    modifies app.db, app.cache
    ensures app.Valid()
    ensures app.cache.online == old(app.cache.online)
    ensures app.db.tasks == old(app.db.tasks)
    ensures err.Some? ==> app.db.comments == old(app.db.comments) && app.cache.store == old(app.cache.store)
    ensures commentId !in old(app.db.comments) ==> err == Some(CommentNotFound)
    ensures commentId in old(app.db.comments) && !MayModify(user, old(app.db.comments)[commentId]) ==> err == Some(Forbidden)
    ensures commentId in old(app.db.comments) && MayModify(user, old(app.db.comments)[commentId]) ==>
      && err.None?
      && app.db.comments == old(app.db.comments) - {commentId}
      && InvalidatedAfterCommentWrite(app.cache, old(app.cache.store), old(app.db.comments)[commentId].taskId)
  {
    var comment := CrudComment.GetCommentById(app.db, commentId);
    if comment.None? {
      return Some(CommentNotFound);
    }
    if !IsAdmin(user) && comment.value.userId != user.id {
      return Some(Forbidden);
    }
    var taskId := comment.value.taskId;
    CrudComment.DeleteComment(app.db, commentId);
    InvalidateForComment(app.cache, taskId);
    err := None;
  }
}
