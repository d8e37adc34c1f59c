/**
 * The comment data-access functions: insert, lookup, delete, the admin and
 * user-related listings (paginated and not), and the setattr-loop update.
 */
module CrudComment {
  import opened Common
  import opened Records
  import Text
  import Query
  import Store
  import Pagination
  import CrudTask

  // ----- create_comment -----

  /**
   * create_comment: inserts one row with the request's task_id and content and
   * the given author. A task_id with no task row breaks the foreign key: the
   * commit fails with a database error and nothing changes.
   */
  method CreateComment(db: Store.Database, commentIn: CommentCreate, userId: int, now: int)
    returns (r: Result<Comment, HttpError>)
    requires db.Valid()
    modifies db
    ensures db.Valid()
    ensures db.tasks == old(db.tasks) && db.nextTaskId == old(db.nextTaskId)
    ensures r.Err? <==> commentIn.taskId !in old(db.tasks)
    ensures r.Err? ==> r.error == DatabaseError && db.comments == old(db.comments) && db.nextCommentId == old(db.nextCommentId)
    ensures r.Ok? ==>
      && r.value == Comment(old(db.nextCommentId), commentIn.content, commentIn.taskId, userId, now)
      && r.value.id !in old(db.comments)
      && db.comments == old(db.comments)[r.value.id := r.value]
  {
    if commentIn.taskId !in db.tasks {
      return Err(DatabaseError);
    }
    var comment := Comment(db.nextCommentId, commentIn.content, commentIn.taskId, userId, now);
    db.comments := db.comments[comment.id := comment];
    db.nextCommentId := db.nextCommentId + 1;
    r := Ok(comment);
  }

  // ----- get_comment_by_id, delete_comment -----

  /** get_comment_by_id: the row under that primary key, or None. */
  function GetCommentById(db: Store.Database, commentId: int): (r: Option<Comment>)
    reads db
    ensures r.Some? <==> commentId in db.comments
    ensures r.Some? ==> r.value == db.comments[commentId]
    ensures r.Some? && db.Valid() ==> r.value.id == commentId
  {
    if commentId in db.comments then Some(db.comments[commentId]) else None
  }

  /** delete_comment: removes exactly that row. */
  method DeleteComment(db: Store.Database, commentId: int)
    requires db.Valid()
    requires commentId in db.comments
    modifies db
    ensures db.Valid()
    ensures db.comments == old(db.comments) - {commentId}
    ensures db.tasks == old(db.tasks)
    ensures db.nextTaskId == old(db.nextTaskId) && db.nextCommentId == old(db.nextCommentId)
  {
    db.comments := db.comments - {commentId};
  }

  // ----- WHERE conditions -----

  datatype CommentCondition =
    | TaskIs(taskId: int)
    | AuthorIs(userId: int)
    | ContentLike(pattern: string)

  predicate Holds(c: CommentCondition, comment: Comment)
  {
    match c
    case TaskIs(t) => comment.taskId == t
    case AuthorIs(u) => comment.userId == u
    case ContentLike(p) => Text.Like(p, comment.content)
  }

  predicate AllHold(conditions: seq<CommentCondition>, comment: Comment)
  {
    forall i :: 0 <= i < |conditions| ==> Holds(conditions[i], comment)
  }

  lemma AllHoldSnoc(conditions: seq<CommentCondition>, c: CommentCondition)
    ensures forall comment :: AllHold(conditions + [c], comment) <==> AllHold(conditions, comment) && Holds(c, comment)
  {
    forall comment ensures AllHold(conditions + [c], comment) <==> AllHold(conditions, comment) && Holds(c, comment) {
      if AllHold(conditions, comment) && Holds(c, comment) {
        forall i | 0 <= i < |conditions + [c]| ensures Holds((conditions + [c])[i], comment) {
          if i < |conditions| {
            assert (conditions + [c])[i] == conditions[i];
          }
        }
      }
      if AllHold(conditions + [c], comment) {
        assert Holds((conditions + [c])[|conditions|], comment);
        forall i | 0 <= i < |conditions| ensures Holds(conditions[i], comment) {
          assert (conditions + [c])[i] == conditions[i];
        }
      }
    }
  }

  /** Python truthiness of an optional id: neither None nor 0. */
  predicate IdSet(v: Option<int>)
  {
    v.Some? && v.value != 0
  }

  /** The truthy task_id and content_contains filters, which both listings apply. */
  predicate TaskAndContentSelected(filters: Pagination.CommentFilters, c: Comment)
  {
    && (IdSet(filters.taskId) ==> c.taskId == filters.taskId.value)
    && (Truthy(filters.contentContains) ==> Text.Like(CrudTask.Contains(filters.contentContains.value), c.content))
  }

  // ----- get_comments_with_pagination -----

  /** The admin listing's conditions: each truthy filter, the author filter included. */
  predicate CommentSelected(filters: Pagination.CommentFilters, c: Comment)
  {
    && TaskAndContentSelected(filters, c)
    && (IdSet(filters.userId) ==> c.userId == filters.userId.value)
  }

  /**
   * get_comments_with_pagination: the requested window of the comments that
   * pass every truthy filter, newest first, and the count of all of them.
   */
  method GetCommentsWithPagination(db: Store.Database, pagination: Pagination.PaginationParams,
                                   filters: Pagination.CommentFilters)
    returns (comments: seq<Comment>, total: int)
    requires pagination.page >= 1 && pagination.pageSize >= 1
    ensures Query.IsNewestFirstPage(db.comments, c => CommentSelected(filters, c), CommentCreatedAt,
                                    Pagination.Offset(pagination), Pagination.Limit(pagination), comments)
    ensures total == Query.CountWhere(db.comments, c => CommentSelected(filters, c))
  {
    var conditions: seq<CommentCondition> := [];
    if IdSet(filters.taskId) {
      AllHoldSnoc(conditions, TaskIs(filters.taskId.value));
      conditions := conditions + [TaskIs(filters.taskId.value)];
    }
    if IdSet(filters.userId) {
      AllHoldSnoc(conditions, AuthorIs(filters.userId.value));
      conditions := conditions + [AuthorIs(filters.userId.value)];
    }
    if Truthy(filters.contentContains) {
      AllHoldSnoc(conditions, ContentLike(CrudTask.Contains(filters.contentContains.value)));
      conditions := conditions + [ContentLike(CrudTask.Contains(filters.contentContains.value))];
    }
    var where := (c: Comment) => AllHold(conditions, c);
    var query := (c: Comment) => CommentSelected(filters, c);
    assert forall c :: where(c) <==> query(c);
    var ids := Query.SelectNewestFirst(db.comments, where, CommentCreatedAt);
    Query.EquivalentWhere(db.comments, where, query, ids);
    assert Query.IsSelection(db.comments, query, ids) && Query.NewestFirst(db.comments, CommentCreatedAt, ids);
    total := Query.CountWhere(db.comments, where);
    comments := Query.RowsAt(db.comments, Query.Window(ids, Pagination.Offset(pagination), Pagination.Limit(pagination)));
  }

  // ----- get_user_related_comments_with_pagination -----

  /**
   * The inner join with tasks and its OR: a comment is related to the user when
   * its task exists and the user wrote the comment or owns the task.
   */
  predicate RelatedTo(tasks: map<int, Task>, userId: int, c: Comment)
  {
    c.taskId in tasks && (c.userId == userId || tasks[c.taskId].ownerId == userId)
  }

  /** The user-related listing's conditions: related, plus the truthy task and content filters (never the author filter). */
  predicate RelatedSelected(tasks: map<int, Task>, userId: int, filters: Pagination.CommentFilters, c: Comment)
  {
    RelatedTo(tasks, userId, c) && TaskAndContentSelected(filters, c)
  }

  function RelatedQuery(tasks: map<int, Task>, userId: int, filters: Pagination.CommentFilters): Comment -> bool
  {
    c => RelatedSelected(tasks, userId, filters, c)
  }

  /**
   * get_user_related_comments_with_pagination: the requested window of the
   * comments related to the user that pass the truthy task and content filters,
   * newest first, and the count of all of them under the same join and filters.
   */
  method GetUserRelatedCommentsWithPagination(db: Store.Database, userId: int, pagination: Pagination.PaginationParams,
                                              filters: Pagination.CommentFilters)
    returns (comments: seq<Comment>, total: int)
    requires pagination.page >= 1 && pagination.pageSize >= 1
    ensures Query.IsNewestFirstPage(db.comments, RelatedQuery(db.tasks, userId, filters), CommentCreatedAt,
                                    Pagination.Offset(pagination), Pagination.Limit(pagination), comments)
    ensures total == Query.CountWhere(db.comments, RelatedQuery(db.tasks, userId, filters))
  {
    var conditions: seq<CommentCondition> := [];
    if IdSet(filters.taskId) {
      AllHoldSnoc(conditions, TaskIs(filters.taskId.value));
      conditions := conditions + [TaskIs(filters.taskId.value)];
    }
    if Truthy(filters.contentContains) {
      AllHoldSnoc(conditions, ContentLike(CrudTask.Contains(filters.contentContains.value)));
      conditions := conditions + [ContentLike(CrudTask.Contains(filters.contentContains.value))];
    }
    var tasks := db.tasks;
    var where := (c: Comment) => RelatedTo(tasks, userId, c) && AllHold(conditions, c);
    var query := RelatedQuery(tasks, userId, filters);
    assert forall c :: where(c) <==> query(c);
    var ids := Query.SelectNewestFirst(db.comments, where, CommentCreatedAt);
    Query.EquivalentWhere(db.comments, where, query, ids);
    assert Query.IsSelection(db.comments, query, ids) && Query.NewestFirst(db.comments, CommentCreatedAt, ids);
    total := Query.CountWhere(db.comments, where);
    comments := Query.RowsAt(db.comments, Query.Window(ids, Pagination.Offset(pagination), Pagination.Limit(pagination)));
  }

  /**
   * Whatever the filters, the user-related listing shows a user only comments
   * they wrote or comments on tasks they own, at most page_size of them.
   */
  lemma RelatedPageVisible(tasks: map<int, Task>, rows: map<int, Comment>, userId: int,
                           filters: Pagination.CommentFilters, pagination: Pagination.PaginationParams, items: seq<Comment>)
    requires pagination.page >= 1 && pagination.pageSize >= 1
    requires Query.IsNewestFirstPage(rows, RelatedQuery(tasks, userId, filters), CommentCreatedAt,
                                     Pagination.Offset(pagination), Pagination.Limit(pagination), items)
    ensures forall i :: 0 <= i < |items| ==>
      items[i].userId == userId || (items[i].taskId in tasks && tasks[items[i].taskId].ownerId == userId)
    ensures |items| <= pagination.pageSize
  {
    Query.NewestFirstPageRows(rows, RelatedQuery(tasks, userId, filters), CommentCreatedAt,
                              Pagination.Offset(pagination), Pagination.Limit(pagination), items);
    forall i | 0 <= i < |items|
      ensures items[i].userId == userId || (items[i].taskId in tasks && tasks[items[i].taskId].ownerId == userId)
    {
      assert RelatedSelected(tasks, userId, filters, items[i]);
    }
  }

  // ----- get_user_related_comments -----

  /** get_user_related_comments' conditions: the author, and the task when task_id is not None. */
  predicate AuthoredSelected(userId: int, taskId: Option<int>, c: Comment)
  {
    c.userId == userId && (taskId.Some? ==> c.taskId == taskId.value)
  }

  /**
   * get_user_related_comments: the skip/limit window of the user's own comments,
   * in no particular order (the query has no ORDER BY). The database refuses a
   * negative OFFSET or LIMIT.
   */
  method GetUserRelatedComments(db: Store.Database, userId: int, taskId: Option<int>, skip: int, limit: int)
    returns (r: Result<seq<Comment>, HttpError>)
    ensures r.Err? <==> skip < 0 || limit < 0
    ensures r.Err? ==> r.error == DatabaseError
    ensures r.Ok? ==> Query.IsUnorderedPage(db.comments, c => AuthoredSelected(userId, taskId, c), skip, limit, r.value)
  {
    if skip < 0 || limit < 0 {
      return Err(DatabaseError);
    }
    AllHoldSnoc([], AuthorIs(userId));
    var conditions: seq<CommentCondition> := [] + [AuthorIs(userId)];
    if taskId.Some? {
      AllHoldSnoc(conditions, TaskIs(taskId.value));
      conditions := conditions + [TaskIs(taskId.value)];
    }
    var where := (c: Comment) => AllHold(conditions, c);
    var query := (c: Comment) => AuthoredSelected(userId, taskId, c);
    assert forall c :: where(c) <==> query(c);
    var ids := Query.SelectUnordered(db.comments, where);
    Query.EquivalentWhere(db.comments, where, query, ids);
    r := Ok(Query.RowsAt(db.comments, Query.Window(ids, skip, limit)));
  }

  // ----- update_comment -----

  /** One setattr. */
  function Assign(c: Comment, a: CommentAssignment): Comment
  {
    match a
    case SetContent(content) => c.(content := content)
    case SetTaskId(taskId) => c.(taskId := taskId)
    case SetUserId(userId) => c.(userId := userId)
  }

  /** Is this the last assignment in `updates` that names the same column as updates[i]? */
  predicate LastOfItsField(updates: seq<CommentAssignment>, i: int)
    requires 0 <= i < |updates|
  {
    forall j :: i < j < |updates| ==> !SameField(updates[i], updates[j])
  }

  predicate SameField(a: CommentAssignment, b: CommentAssignment)
  {
    (a.SetContent? && b.SetContent?) || (a.SetTaskId? && b.SetTaskId?) || (a.SetUserId? && b.SetUserId?)
  }

  /** The row after the setattr loop, applying `updates` in order; the id and created_at are never assigned. */
  function ApplyAssignments(c: Comment, updates: seq<CommentAssignment>): (r: Comment)
    ensures r.id == c.id && r.createdAt == c.createdAt
  {
    if updates == [] then c else Assign(ApplyAssignments(c, updates[..|updates| - 1]), updates[|updates| - 1])
  }

  /** Does some assignment of `updates` name the same column as `a`? */
  predicate Names(updates: seq<CommentAssignment>, a: CommentAssignment)
  {
    exists i :: 0 <= i < |updates| && SameField(updates[i], a)
  }

  /** setattr never touches a column that `updates` does not name. */
  lemma {:induction false} UnnamedColumnsKept(c: Comment, updates: seq<CommentAssignment>)
    ensures !Names(updates, SetContent("")) ==> ApplyAssignments(c, updates).content == c.content
    ensures !Names(updates, SetTaskId(0)) ==> ApplyAssignments(c, updates).taskId == c.taskId
    ensures !Names(updates, SetUserId(0)) ==> ApplyAssignments(c, updates).userId == c.userId
  {
    if updates != [] {
      var n := |updates| - 1;
      var prefix := updates[..n];
      UnnamedColumnsKept(c, prefix);
      forall a | Names(prefix, a) ensures Names(updates, a) {
        var i :| 0 <= i < n && SameField(prefix[i], a);
        assert prefix[i] == updates[i];
      }
    }
  }

  /** Assignments to different columns commute. */
  lemma AssignOtherColumn(x: Comment, a: CommentAssignment, b: CommentAssignment)
    requires !SameField(a, b)
    ensures Assign(Assign(x, b), a) == Assign(Assign(x, a), b)
  {
  }

  /** Each column `updates` names holds the last value given for it: repeating that assignment changes nothing. */
  lemma {:induction false} LastAssignmentWins(c: Comment, updates: seq<CommentAssignment>)
    ensures forall i :: 0 <= i < |updates| && LastOfItsField(updates, i) ==>
      Assign(ApplyAssignments(c, updates), updates[i]) == ApplyAssignments(c, updates)
  {
    if updates != [] {
      var n := |updates| - 1;
      var prefix := updates[..n];
      LastAssignmentWins(c, prefix);
      var before := ApplyAssignments(c, prefix);
      forall i | 0 <= i < |updates| && LastOfItsField(updates, i)
        ensures Assign(Assign(before, updates[n]), updates[i]) == Assign(before, updates[n])
      {
        if i < n {
          assert prefix[i] == updates[i];
          assert LastOfItsField(prefix, i);
          AssignOtherColumn(before, updates[i], updates[n]);
        }
      }
    }
  }

  /**
   * update_comment: the setattr loop over `updates`, then the commit. A task_id
   * that names no task breaks the foreign key: the commit fails with a database
   * error and nothing changes.
   */
  method UpdateComment(db: Store.Database, commentId: int, updates: seq<CommentAssignment>)
    returns (r: Result<Comment, HttpError>)
    requires db.Valid()
    requires commentId in db.comments
    modifies db
    ensures db.Valid()
    ensures db.tasks == old(db.tasks)
    ensures db.nextTaskId == old(db.nextTaskId) && db.nextCommentId == old(db.nextCommentId)
    ensures r.Err? <==> ApplyAssignments(old(db.comments)[commentId], updates).taskId !in old(db.tasks)
    ensures r.Err? ==> r.error == DatabaseError && db.comments == old(db.comments)
    ensures r.Ok? ==> (r.value == ApplyAssignments(old(db.comments)[commentId], updates) &&
                       db.comments == old(db.comments)[commentId := r.value])
  {
    var comment := db.comments[commentId];
    var i := 0;
    while i < |updates|
      invariant 0 <= i <= |updates|
      invariant comment == ApplyAssignments(db.comments[commentId], updates[..i])
    {
      assert updates[..i + 1][..i] == updates[..i];
      comment := Assign(comment, updates[i]);
      i := i + 1;
    }
    assert updates[..|updates|] == updates;
    if comment.taskId !in db.tasks {
      return Err(DatabaseError);
    }
    db.comments := db.comments[commentId := comment];
    r := Ok(comment);
  }

  /** The update the comment route sends, {"content": content}, changes the content and nothing else. */
  lemma ContentOnlyUpdate(c: Comment, content: string)
    ensures ApplyAssignments(c, [SetContent(content)]) == c.(content := content)
  {
    var u := [SetContent(content)];
    assert u[..0] == [];
  }
}
