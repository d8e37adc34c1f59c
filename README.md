# fastapi_task_manager: cache, idempotency and visibility layer

This project models the core of the task manager API in Dafny: the layer of request
handlers that sits between the clients and two stores.

- **Task and comment tables** are the `Store.Database` class: two maps keyed by primary key, plus the id sequences.
  Its `Valid()` invariant holds the foreign key from a comment to its task.
- **The Redis cache** is the `Cache.RedisCache` class.
  - Every entry records the expiry it was written with.
  - Every backend failure is swallowed. An `online` flag says whether the backend answers. When it does not, `get` yields None, `set` and `delete` false, and `delete_pattern` 0, and nothing changes.
- **The outbox** is a sequence of task ids: the metadata jobs handed to the background worker.

The state is gathered in `Service.App`. It also carries Python's string `hash()` and `datetime.fromisoformat`, which are taken as given functions.

## Modules

- **CacheKeys**:
  - the key builders (`task:{id}`, `tasks:user:{uid}:{hash}`, `tasks:user:{uid}:*`, `task_stats:user:{uid}`, `comments:user:{uid}:page:…`);
  - proofs about which pattern clears which key.
- **Pagination**: offset and limit, `PaginatedResponse.create`, and the ISO-date validator of `TaskFilters`.
- **Query**: the meaning of a `SELECT`.
  - A WHERE predicate selects rows. A count uses the same predicate.
  - `ORDER BY created_at DESC` orders the rows. Ties may come in any order, so a page is specified as a window of *some* newest-first listing.
  - `OFFSET`/`LIMIT` cut the window.
  - `SelectNewestFirst` and `SelectUnordered` are loops that produce such listings.
- **Text**:
  - PostgreSQL `ILIKE` (`%`, `_` and `\`, ASCII case folding), proved equal to case-insensitive substring search when the search text has no metacharacters;
  - decimal rendering of integers;
  - Python's string order (used by `sorted`).
- **CrudTask, CrudComment**: the data-access functions.
  - The query builders append to a list of conditions, and the conjunction of that list is proved equal to a declarative selection predicate.
  - The statistics loop is proved against a specification of `GROUP BY status`.
- **TaskRoutes, CommentRoutes**: the handlers. They fix:
  - the order of the 404, 403 and 400 checks;
  - the idempotent replay of task creation;
  - read-through caching with TTLs of 300, 600, 120 and 180 seconds;
  - the invalidation each committed write performs;
  - the one metadata job per created task.

### Where the behaviour is not what one might expect

The model follows the code on each of these points.

- **A write clears the caller's listing pages, not the owner's.**
  - An admin's update also clears every user's pages with `tasks:user:*`.
  - An admin's delete of another user's task leaves that owner's listing pages cached (`TaskRoutes.OtherUsersListingsSurvive`).
  - Comment writes clear all `comments:*` keys and the parent task's `task:{id}` key.
- **The statistics entry `task_stats:user:{id}` is never invalidated.** Nothing any handler clears matches it (`CacheKeys.StatsKeyNeverInvalidated`); it expires only after its 120 seconds.
- **Statistics keys collide.**
  - Per-status keys are lower-cased, so statuses that differ only in case overwrite one another (`CrudTask.StatsCaseCollision`).
  - A status spelled "Total" overwrites the running total (`CrudTask.StatsTotalCollision`).
  - In general, an entry other than "total" holds the count of the *last* group that lower-cases to its key (`CrudTask.StatsEntryIsLastGroup`). A status that lower-cases to "total" leaves "total" at twice its own count plus the counts grouped after it (`CrudTask.StatsTotalAfterCollision`).
- **An idempotent replay answers whoever sends the key.** The recorded response is returned without looking at the caller.
- **Deleting a task that has comments fails with a 500.**
  - The mapper would set the comments' `task_id` to null, which its NOT NULL constraint refuses.
  - Likewise, setting `title` or `status` to null fails at the database.
- **An invalid date in `GET /tasks/` is a 500, not a 400.**
  - `TaskFilters` runs its validator inside the handler, and the resulting validation error reaches the general exception handler.
  - The 400 branches of `get_tasks_with_pagination` are modelled but cannot be reached from the route.

## Model

| member | source | states |
|---|---|---|
| Cache.IdempotencyKey | Projects2025/fastapi_task_manager/app/core/cache.py:99-105 | the record key is "idempotency:" followed by the client's key, which can be read back from it |
| Cache.IdempotencyKeyInjective | Projects2025/fastapi_task_manager/app/core/cache.py:99-105 | different client keys never share a record |
| Cache.RedisCache.constructor | Projects2025/fastapi_task_manager/app/core/cache.py:107 | a fresh cache is empty |
| Cache.RedisCache.Lookup | Projects2025/fastapi_task_manager/app/core/cache.py:40-54 | what get would return: the stored value iff the backend answers and the key is present, else None |
| Cache.RedisCache.Get | Projects2025/fastapi_task_manager/app/core/cache.py:40-54 | get returns the stored value iff the backend answers and the key is present; a miss or a failure gives None |
| Cache.RedisCache.Set | Projects2025/fastapi_task_manager/app/core/cache.py:56-70 | set returns true iff the backend answers and the expiry is positive (Redis refuses any other SETEX, and that error is swallowed); then get(key) returns the value, the entry carries the given expiry, and every other key reads as before; a failure changes nothing |
| Cache.RedisCache.Delete | Projects2025/fastapi_task_manager/app/core/cache.py:72-82 | delete returns true iff the key was present; afterwards it is absent and every other key reads as before; a failure returns false and changes nothing |
| Cache.RedisCache.DeletePattern | Projects2025/fastapi_task_manager/app/core/cache.py:84-97 | delete_pattern removes exactly the keys the pattern matches and returns how many (0 when none match or the backend fails); keys that do not match are untouched |
| Cache.RedisCache.GetIdempotency | Projects2025/fastapi_task_manager/app/core/cache.py:99-101 | get_idempotency is get on the "idempotency:" key |
| Cache.RedisCache.SetIdempotency | Projects2025/fastapi_task_manager/app/core/cache.py:103-105 | set_idempotency is set on the "idempotency:" key with a 24-hour (86400 s) expiry |
| Cache.Matches | Projects2025/fastapi_task_manager/app/core/cache.py:89 | a pattern without '*' matches only itself; a key a trailing-'*' pattern matches agrees with the pattern on every character before the '*' |
| CacheKeys.SortByKey | Projects2025/fastapi_task_manager/app/core/cache.py:112 | sorted(filters.items()): the same items, strictly ascending by key |
| CacheKeys.Present | Projects2025/fastapi_task_manager/app/core/cache.py:112 | the items kept in the key are exactly those whose value is not None |
| CacheKeys.FilterStringIgnoresOrderAndNone | Projects2025/fastapi_task_manager/app/core/cache.py:112 | two filter dicts with the same non-None items give the same filter string, whatever their insertion order |
| CacheKeys.TaskListKey | Projects2025/fastapi_task_manager/app/core/cache.py:110-113 | make_task_cache_key: every listing key is matched by its owner's pattern |
| CacheKeys.TaskDetailKey | Projects2025/fastapi_task_manager/app/core/cache.py:115-117 | make_task_detail_cache_key: "task:" followed by an id segment that holds no ':' and no '*' |
| CacheKeys.UserTasksPattern | Projects2025/fastapi_task_manager/app/core/cache.py:119-121 | make_user_tasks_cache_key: the pattern matches exactly the keys that start with "tasks:user:{uid}:" |
| CacheKeys.StatsKey | Projects2025/fastapi_task_manager/app/api/v1/routes/task.py:195 | "task_stats:user:" followed by an id segment that holds no ':' and no '*' |
| CacheKeys.CommentsListKey | Projects2025/fastapi_task_manager/app/api/v1/routes/comment.py:81 | "comments:*" matches the key, and the key starts with "comments:user:{caller}:" |
| CacheKeys.TaskListKeyIgnoresOrderAndNone | Projects2025/fastapi_task_manager/app/core/cache.py:110-113 | make_task_cache_key ignores None entries and dict order |
| CacheKeys.PrefixPattern | Projects2025/fastapi_task_manager/app/core/cache.py:89 | a "prefix*" pattern matches exactly the keys that start with prefix |
| CacheKeys.IdSegmentsAgree | Projects2025/fastapi_task_manager/app/core/cache.py:113-121 | two rendered ids, each closed by ':', that a key holds after the same prefix are the same id |
| CacheKeys.IdSegmentsSplit | Projects2025/fastapi_task_manager/app/core/cache.py:113-121 | a key made of a prefix, a rendered id, ':' and a rest determines the id and the rest |
| CacheKeys.TaskListKeyMatchesUserPatternIff | Projects2025/fastapi_task_manager/app/core/cache.py:110-121 | user u's listing key matches user v's pattern iff u == v (7 and 70 are kept apart) |
| CacheKeys.TaskListKeyMatchesAllUsersPattern | Projects2025/fastapi_task_manager/app/api/v1/routes/task.py:164-165 | "tasks:user:*" clears every user's listing pages |
| CacheKeys.TaskDetailKeyInjective | Projects2025/fastapi_task_manager/app/core/cache.py:115-117 | different tasks have different detail keys |
| CacheKeys.TaskDetailKeyNotMatchedByListPatterns | Projects2025/fastapi_task_manager/app/core/cache.py:115-121 | no listing pattern (one user's or all users') and not "comments:*" matches a "task:" key |
| CacheKeys.StatsKeyNeverInvalidated | Projects2025/fastapi_task_manager/app/api/v1/routes/task.py:195-202 | the statistics key is matched by no invalidation pattern and is no detail key, so no handler ever clears it |
| CacheKeys.IdempotencyKeyNeverInvalidated | Projects2025/fastapi_task_manager/app/api/v1/routes/task.py:46-52 | an idempotency record is matched by no invalidation pattern and is no detail key |
| CacheKeys.CommentsListKeyFamily | Projects2025/fastapi_task_manager/app/api/v1/routes/comment.py:81 | a comment listing key starts with "comments:user:{caller}:", is cleared by "comments:*" and by nothing the task handlers clear |
| CacheKeys.CommentsListKeyInjective | Projects2025/fastapi_task_manager/app/api/v1/routes/comment.py:81 | two comment listing keys that are equal have the same caller, page and page_size; only the filters' hash may collide |
| CacheKeys.TaskListFilterItems | Projects2025/fastapi_task_manager/app/api/v1/routes/task.py:81-93 | the dict get_tasks keys its cache entry on has distinct keys |
| Text.IntToStringInjective | Projects2025/fastapi_task_manager/app/core/cache.py:117 | different integers render differently in an f-string |
| Text.IlikeIsSubstringSearch | Projects2025/fastapi_task_manager/app/api/v1/crud/task.py:59 | ILIKE '%t%' holds iff t occurs in the column ignoring case, when t has no metacharacters |
| Pagination.Offset | Projects2025/fastapi_task_manager/app/schemas/pagination.py:12-14 | the offset is non-negative when page and page_size are at least 1 |
| Pagination.Create | Projects2025/fastapi_task_manager/app/schemas/pagination.py:30-47 | items, total, page and page_size pass through; total_pages is the ceiling of total/page_size (0 when total is 0); has_next iff page < total_pages; has_prev iff page > 1 |
| Pagination.CeilingDivision | Projects2025/fastapi_task_manager/app/schemas/pagination.py:38 | (total_pages-1)*page_size < total <= total_pages*page_size for total >= 1, and total_pages == 0 for total == 0 |
| Pagination.Limit | Projects2025/fastapi_task_manager/app/schemas/pagination.py:16-18 | offset + limit is the next page's offset, so pages neither overlap nor leave gaps; a positive page_size gives a positive limit |
| Pagination.ConsecutivePages | Projects2025/fastapi_task_manager/app/schemas/pagination.py:12-18 | two consecutive pages of a listing concatenate to the double-size window: contiguous and disjoint |
| Pagination.HasNextIffMoreRows | Projects2025/fastapi_task_manager/app/schemas/pagination.py:45 | has_next holds iff the next page of the same listing is non-empty |
| Pagination.ValidateDate | Projects2025/fastapi_task_manager/app/schemas/pagination.py:57-64 | the value passes unchanged iff it is None, empty, or parses after replacing Z by +00:00; otherwise "Invalid ISO date format" |
| Pagination.MakeTaskFilters | Projects2025/fastapi_task_manager/app/schemas/pagination.py:49-64 | TaskFilters is built iff both dates validate, with the given fields |
| Query.Window | Projects2025/fastapi_task_manager/app/api/v1/crud/task.py:96-97 | OFFSET/LIMIT: the window's length and that its i-th row is row offset+i |
| Query.SelectNewestFirst | Projects2025/fastapi_task_manager/app/api/v1/crud/task.py:93-101 | the loop lists every matching row exactly once, newest first |
| Query.SelectUnordered | Projects2025/fastapi_task_manager/app/api/v1/crud/comment.py:62-69 | the loop lists every matching row exactly once |
| Query.SelectionSize | Projects2025/fastapi_task_manager/app/api/v1/crud/task.py:85-90 | the count query counts exactly the rows the listing lists |
| Query.EquivalentWhere | Projects2025/fastapi_task_manager/app/api/v1/crud/task.py:81-90 | WHERE clauses that agree on every row select the same rows and count the same |
| Query.NewestFirstPageRows | Projects2025/fastapi_task_manager/app/api/v1/crud/task.py:93-101 | every row of a page satisfies the WHERE clause, the page is newest first, and its length is min(limit, count - offset) |
| Query.UnorderedPageRows | Projects2025/fastapi_task_manager/app/api/v1/crud/comment.py:67-69 | every row of an unordered page satisfies the WHERE clause and its length is min(limit, count - offset) |
| CrudTask.CreateTask | Projects2025/fastapi_task_manager/app/api/v1/crud/task.py:23-31 | exactly one task is added, under a fresh id, owned by owner_id, with the request's fields and no metadata |
| CrudTask.AllHoldSnoc | Projects2025/fastapi_task_manager/app/api/v1/crud/task.py:81-82 | appending a condition conjoins it to the WHERE clause |
| CrudTask.GetTasksWithPagination | Projects2025/fastapi_task_manager/app/api/v1/crud/task.py:34-103 | 400 iff a date does not parse, naming the first bad one; otherwise the offset/limit window of the visible tasks newest first, and the count of all of them under the same conditions |
| CrudTask.TaskPageRows | Projects2025/fastapi_task_manager/app/api/v1/crud/task.py:49-78 | each listed task passes every active filter; a regular user sees only their own tasks; at most page_size tasks, newest first |
| CrudTask.GetAllTasks | Projects2025/fastapi_task_manager/app/api/v1/crud/task.py:106-130 | the skip/limit window, newest first, of the tasks that pass the filters that are not None; a negative skip or limit is a database error |
| CrudTask.GetUserTasks | Projects2025/fastapi_task_manager/app/api/v1/crud/task.py:133-158 | the same over the owner's tasks, with the status and title filters applied when not None |
| CrudTask.GetTaskById | Projects2025/fastapi_task_manager/app/api/v1/crud/task.py:161-171 | the task with that id, or None iff there is none |
| CrudTask.ApplyTaskUpdate | Projects2025/fastapi_task_manager/app/api/v1/crud/task.py:174-181 | exactly the named fields take the given values; id, owner, created_at and metadata stay |
| CrudTask.UpdateTask | Projects2025/fastapi_task_manager/app/api/v1/crud/task.py:174-189 | None iff no task has the id; a null title or status is a database error with nothing changed; otherwise only that row changes, to the updated task |
| CrudTask.DeleteTask | Projects2025/fastapi_task_manager/app/api/v1/crud/task.py:192-195 | removes exactly that task, or fails with a database error and changes nothing while comments refer to it |
| CrudTask.WithMetadata | Projects2025/fastapi_task_manager/app/api/v1/crud/task.py:198-200 | only the metadata column changes |
| CrudTask.UpdateTaskMetadata | Projects2025/fastapi_task_manager/app/api/v1/crud/task.py:198-203 | only that task's metadata changes; every other row and table stays |
| CrudTask.MetadataWriteIdempotent | Projects2025/fastapi_task_manager/app/api/v1/crud/task.py:198-203 | writing the same metadata twice equals writing it once |
| CrudTask.GroupByStatus | Projects2025/fastapi_task_manager/app/api/v1/crud/task.py:209-213 | one row per distinct status of the user's tasks, each with the number of tasks that have it; the counts sum to the number of tasks |
| CrudTask.StatsOf | Projects2025/fastapi_task_manager/app/api/v1/crud/task.py:215-218 | the statistics dict always has a "total" entry |
| CrudTask.StatsTotal | Projects2025/fastapi_task_manager/app/api/v1/crud/task.py:215-218 | "total" is the sum of the group counts when no status lower-cases to "total" |
| CrudTask.StatsKeys | Projects2025/fastapi_task_manager/app/api/v1/crud/task.py:215-218 | the keys are "total" and the lower-cased statuses |
| CrudTask.StatsCaseCollision | Projects2025/fastapi_task_manager/app/api/v1/crud/task.py:217 | "Done" and "done" share one entry, which holds the later count; the per-status entries then sum to less than total |
| CrudTask.StatsTotalCollision | Projects2025/fastapi_task_manager/app/api/v1/crud/task.py:217-218 | a status "Total" overwrites the running total |
| CrudTask.BuildStats | Projects2025/fastapi_task_manager/app/api/v1/crud/task.py:215-218 | the loop builds exactly the dict StatsOf describes for the grouped rows |
| CrudTask.GetTaskStatistics | Projects2025/fastapi_task_manager/app/api/v1/crud/task.py:206-220 | the keys are "total" and each lower-cased status of the user's tasks; each other entry is the number of the user's tasks with one status that lower-cases to the key, and exactly that status's count when no other status shares the key; "total" is the number of tasks the user owns unless some status lower-cases to "total" |
| CrudTask.StatsEntryIsLastGroup | Projects2025/fastapi_task_manager/app/api/v1/crud/task.py:217 | an entry other than "total" holds the count of the last group whose status lower-cases to its key |
| CrudTask.StatsEntryHasGroup | Projects2025/fastapi_task_manager/app/api/v1/crud/task.py:217 | every entry other than "total" holds the count of some group whose status lower-cases to its key |
| CrudTask.StatsTotalAfterCollision | Projects2025/fastapi_task_manager/app/api/v1/crud/task.py:217-218 | after the last status that lower-cases to "total", "total" is twice that group's count plus the counts of the later groups |
| CrudTask.CountStatusAsSet | Projects2025/fastapi_task_manager/app/api/v1/crud/task.py:209-213 | over a listing without repeats, a status's count is the number of listed rows with it |
| CrudTask.CountStatusIsCountWhere | Projects2025/fastapi_task_manager/app/api/v1/crud/task.py:209-213 | over the user's tasks, a group's count is COUNT(id) WHERE owner_id = user AND status = s |
| CrudTask.GroupsUnderKey | Projects2025/fastapi_task_manager/app/api/v1/crud/task.py:209-213 | when no other status of the user's shares a status's lower-cased key, every group under that key is that status's group |
| CrudTask.StatisticsCounts | Projects2025/fastapi_task_manager/app/api/v1/crud/task.py:206-220 | the per-status entries of the dict built from the grouped rows are counts of the user's tasks, as GetTaskStatistics states |
| CrudTask.StatisticsMeaning | Projects2025/fastapi_task_manager/app/api/v1/crud/task.py:206-220 | the dict built from any GROUP BY status result over the user's tasks is their statistics, as GetTaskStatistics states |
| CrudComment.CreateComment | Projects2025/fastapi_task_manager/app/api/v1/crud/comment.py:9-28 | exactly one comment is added, under a fresh id, authored by user_id, with the request's task_id and content; a missing task is a database error with nothing changed |
| CrudComment.GetCommentById | Projects2025/fastapi_task_manager/app/api/v1/crud/comment.py:72-74 | the comment with that id, or None iff there is none |
| CrudComment.DeleteComment | Projects2025/fastapi_task_manager/app/api/v1/crud/comment.py:77-79 | removes exactly that comment |
| CrudComment.AllHoldSnoc | Projects2025/fastapi_task_manager/app/api/v1/crud/comment.py:102-103 | appending a condition conjoins it to the WHERE clause |
| CrudComment.GetCommentsWithPagination | Projects2025/fastapi_task_manager/app/api/v1/crud/comment.py:81-118 | the page, newest first, of comments passing each truthy filter (task_id, user_id, content), and the count under the same filters; 0 or "" means no filter |
| CrudComment.GetUserRelatedCommentsWithPagination | Projects2025/fastapi_task_manager/app/api/v1/crud/comment.py:120-168 | the page, newest first, of comments the user wrote or that sit on tasks they own, passing the truthy task_id and content filters (never user_id), and the count under the same join and filters |
| CrudComment.RelatedPageVisible | Projects2025/fastapi_task_manager/app/api/v1/crud/comment.py:131-139 | every comment on that page was written by the user or sits on a task they own; at most page_size of them |
| CrudComment.GetUserRelatedComments | Projects2025/fastapi_task_manager/app/api/v1/crud/comment.py:55-69 | the skip/limit window, in no set order, of the user's own comments (on the task, when task_id is not None); a negative skip or limit is a database error |
| CrudComment.ApplyAssignments | Projects2025/fastapi_task_manager/app/api/v1/crud/comment.py:172-173 | an assignment can name only content, task_id or user_id, so id and created_at keep their values |
| CrudComment.UnnamedColumnsKept | Projects2025/fastapi_task_manager/app/api/v1/crud/comment.py:172-173 | a column no assignment names keeps its value |
| CrudComment.LastAssignmentWins | Projects2025/fastapi_task_manager/app/api/v1/crud/comment.py:172-173 | each named column holds the last value given for it |
| CrudComment.UpdateComment | Projects2025/fastapi_task_manager/app/api/v1/crud/comment.py:170-177 | only that comment changes, to the result of the setattr loop; a task_id naming no task is a database error with nothing changed |
| CrudComment.ContentOnlyUpdate | Projects2025/fastapi_task_manager/app/api/v1/routes/comment.py:164 | the update {"content": c} changes the content and nothing else |
| TaskRoutes.CreateTask | Projects2025/fastapi_task_manager/app/api/v1/routes/task.py:28-57 | a present idempotency record is returned to any caller and nothing changes; otherwise one task owned by the caller is inserted, its response recorded under the key when a key is given and the cache is up, the caller's listing pages cleared, exactly one job for its id enqueued, and no other cache entry touched |
| TaskRoutes.CreateTaskRetried | Projects2025/fastapi_task_manager/app/api/v1/routes/task.py:36-57 | a second POST with the same Idempotency-Key on a reachable cache answers with the same task; exactly one task is inserted and one job enqueued |
| TaskRoutes.GetTasks | Projects2025/fastapi_task_manager/app/api/v1/routes/task.py:61-113 | an invalid date is a 500; a hit returns the cached page and changes nothing; a miss returns the page of the tasks the caller may see, with the count, and caches it under the same key for 300 s |
| TaskRoutes.ListingIsOwnTasks | Projects2025/fastapi_task_manager/app/api/v1/routes/task.py:74-103 | a regular user's listing holds only their own tasks, whatever owner_id they pass |
| TaskRoutes.GetTask | Projects2025/fastapi_task_manager/app/api/v1/routes/task.py:117-140 | a hit is returned only to an admin or the cached owner (else 403); a miss gives 404, then 403, else the task, cached for 600 s |
| TaskRoutes.UpdateTask | Projects2025/fastapi_task_manager/app/api/v1/routes/task.py:144-168 | 404, then 403, then 400, with no write; on success only the named fields change, and the detail key, the caller's pages and, for an admin, all users' pages are gone; every other entry stays |
| TaskRoutes.DeleteTask | Projects2025/fastapi_task_manager/app/api/v1/routes/task.py:171-186 | 404, then 403; on success the task, its detail key and the caller's pages are gone, and every other entry stays |
| TaskRoutes.OtherUsersListingsSurvive | Projects2025/fastapi_task_manager/app/api/v1/routes/task.py:182-184 | another user's listing keys are neither the deleted task's detail key nor matched by the caller's pattern |
| TaskRoutes.GetTaskStats | Projects2025/fastapi_task_manager/app/api/v1/routes/task.py:190-205 | a hit is returned as it is; a miss returns the caller's statistics ("total" and one count per lower-cased status, each the count of one of the caller's statuses) and caches them for 120 s |
| CommentRoutes.InvalidateForComment | Projects2025/fastapi_task_manager/app/api/v1/routes/comment.py:53-54 | afterwards no "comments:*" key and not the parent task's detail key remain; every other entry stays |
| CommentRoutes.CreateComment | Projects2025/fastapi_task_manager/app/api/v1/routes/comment.py:30-58 | 404 for a missing task, then 403 unless admin or task owner; otherwise one comment by the caller is inserted and the caches are invalidated |
| CommentRoutes.GetComments | Projects2025/fastapi_task_manager/app/api/v1/routes/comment.py:62-115 | a hit returns the cached page; a miss runs the admin query or the related-comments query and caches the page for 180 s under the caller's key |
| CommentRoutes.ListingIsRelated | Projects2025/fastapi_task_manager/app/api/v1/routes/comment.py:74-101 | a regular user sees only comments they wrote or on their tasks, and the user_id they pass does not change the key |
| CommentRoutes.GetComment | Projects2025/fastapi_task_manager/app/api/v1/routes/comment.py:119-141 | 404 first; the comment iff the caller is admin, its author or its task's owner, else 403 |
| CommentRoutes.UpdateComment | Projects2025/fastapi_task_manager/app/api/v1/routes/comment.py:145-173 | 404, then 403 unless admin or author; on success only the content changes and the caches are invalidated |
| CommentRoutes.DeleteComment | Projects2025/fastapi_task_manager/app/api/v1/routes/comment.py:177-201 | 404, then 403 unless admin or author; on success exactly that comment is removed and the caches are invalidated |

## Left out

- **Redis connection handling and the expiry clock.** `connect`/`close` and time are not modelled. An entry records its TTL, but nothing ever expires.
- **Serialization.** JSON and pickle are not modelled. Cached values are the shapes the handlers store: a task, a page of tasks or comments, or a statistics dict.
  - Decoding a hit of another shape is modelled as a 500.
  - A statistics dict that happens to contain an "owner_id" status, read back as a task, is not modelled.
- **Partial cache outages.** The backend is either up or down for the whole lifetime of a cache. A failure in the middle of a handler, after some calls succeeded, is not modelled.
- **Redis `KEYS` glob.** Only a pattern ending in a single `*` is interpreted, as a prefix, because those are the only patterns the application passes. Any other pattern matches only itself.
- **Python `hash()`** is an arbitrary given function; nothing, not even injectivity, is assumed of it.
- **The repr of comment filters.** It quotes strings without Python's escaping.
- **Text handling.**
  - Lower-casing covers ASCII letters only.
  - `datetime.fromisoformat` and timezone-aware comparison are a given parser yielding an integer timestamp.
- **Logging** is a no-op.
  - routes/task.py never binds `logger`, so every logging call there raises NameError, which FastAPI answers with a 500. The model treats those calls as no-ops and so does not capture these outcomes:
    - an idempotent replay of POST / fails at line 39, before its return at line 41; a replay is always a 500;
    - a first POST / with a key inserts the task and records it, then fails at line 48, so the caller's listing pages are not cleared (line 52) and no metadata job is enqueued (line 53);
    - a POST / without a key does all its work and fails at line 55;
    - a GET /{id} cache hit fails at line 128, before its return at line 130; a miss caches the task and fails at line 138;
    - a GET /stats/summary hit fails at line 198, before its return at line 200; a miss caches the statistics and fails at line 203;
    - a GET / miss caches its page and fails at line 111 (a hit, line 96, logs nothing); PATCH and DELETE finish their writes and fail at lines 166 and 185.
  - crud/comment.py uses `PaginationParams`, `CommentFilters` and `selectinload` without importing them. The intended behaviour is modelled.
- **Framework machinery.**
  - Rate limiting (slowapi) is not modelled.
  - The tenacity retry around `create_task` is not modelled.
  - FastAPI's 422 for an out-of-range `page` or `page_size` is not modelled. The handlers require `page >= 1` and `1 <= page_size <= 100`, as the framework guarantees before calling them.
- **Authentication.** The caller is a given principal; admin means the role string is exactly "admin".
- **The users table and its foreign keys** (`owner_id`, `user_id`) are not part of this model.
- **The background worker and its HTTP fetch.** Only the enqueue is modelled, as an append to the outbox. The worker's metadata write is `CrudTask.UpdateTaskMetadata`.
- **The second metadata path in celery_app/.** celery_app/tasks.py:3-18 runs celery_app/helpers.py:4-20, which calls `crud.update_task` with a `description` and a `task_metadata` value. `CrudTask.UpdateTask` takes only title, description and status, so a metadata write through `update_task` is not part of this model; the metadata write is modelled through `update_task_metadata` only.
- **Concurrency.** Interleaving of requests and of the worker is out of scope, including races on the idempotency check.
- **`get_comments_by_user` and `get_all_comments`** in crud/comment.py are called by no handler and are not part of this model.
- **`update_task`'s second 404 in routes/task.py.** It happens when the row vanished between the read and the update, which cannot occur in a sequential model.
- CrudComment.ApplyAssignments / CrudComment.UpdateComment: an update in the model can name only content, task_id and user_id. The source's setattr loop (crud/comment.py:172-173) accepts any attribute name, id and created_at included, and would overwrite those too. The only caller, routes/comment.py:164, sends just {"content": content}.
- **Preconditions on the crud functions.**
  - CrudTask.UpdateTask requires at least one field. The route answers an empty update with 400 before calling it; an UPDATE with no values is not modelled.
  - CrudTask.DeleteTask requires the task to exist, because the source receives an already loaded row. So do CrudTask.UpdateTaskMetadata, CrudComment.DeleteComment and CrudComment.UpdateComment for their rows.
