/**
 * The cache key builders and the key families they produce:
 *   task:{id}                        one task (TaskRead)
 *   tasks:user:{uid}:{hash}          a page of a user's task listing
 *   tasks:user:{uid}:*               every listing page of one user
 *   task_stats:user:{uid}            a user's statistics
 *   comments:user:{uid}:page:…       a page of a user's comment listing
 * Python's hash() is salted per process, so it is a parameter here and
 * nothing is assumed of it.
 */
module CacheKeys {
  import opened Common
  import Text
  import Cache
  import Pagination

  /** One (key, str(value)) item of a filters dict; None stays None. */
  type FilterItem = (string, Option<string>)

  /** A dict has each key at most once; the sequence is its insertion order. */
  predicate DistinctKeys(items: seq<FilterItem>)
  {
    forall i, j :: 0 <= i < j < |items| ==> items[i].0 != items[j].0
  }

  /** Keys strictly ascending in Python's str order. */
  predicate StrictlySorted(items: seq<FilterItem>)
  {
    forall i, j :: 0 <= i < j < |items| ==> Text.Less(items[i].0, items[j].0)
  }

  /** Put x into a key-sorted sequence after every smaller key. */
  function InsertByKey(x: FilterItem, s: seq<FilterItem>): (r: seq<FilterItem>)
    requires StrictlySorted(s)
    requires forall i :: 0 <= i < |s| ==> s[i].0 != x.0
    ensures |r| == |s| + 1
    ensures forall e :: e in r <==> e == x || e in s
    ensures StrictlySorted(r)
  {
    if s == [] then [x]
    else if Text.Less(x.0, s[0].0) then
      assert forall i :: 0 <= i < |s| ==> Text.Less(x.0, s[i].0) by {
        forall i | 0 <= i < |s| ensures Text.Less(x.0, s[i].0) {
          if i > 0 { Text.LessTransitive(x.0, s[0].0, s[i].0); }
        }
      }
      [x] + s
    else
      Text.LessTotal(x.0, s[0].0);
      var rest := InsertByKey(x, s[1..]);
      assert forall e :: e in s <==> e == s[0] || e in s[1..] by {
        assert s == [s[0]] + s[1..];
      }
      assert forall j :: 0 <= j < |rest| ==> Text.Less(s[0].0, rest[j].0) by {
        forall j | 0 <= j < |rest| ensures Text.Less(s[0].0, rest[j].0) {
          assert rest[j] in rest;
          if rest[j] != x {
            var k :| 0 <= k < |s[1..]| && s[1..][k] == rest[j];
            assert s[k + 1] == rest[j];
          }
        }
      }
      [s[0]] + rest
  }

  /** sorted(filters.items()): the dict's keys are distinct, so tuples compare by key alone. */
  function SortByKey(items: seq<FilterItem>): (r: seq<FilterItem>)
    requires DistinctKeys(items)
    ensures |r| == |items|
    ensures forall e :: e in r <==> e in items
    ensures StrictlySorted(r)
  {
    if items == [] then []
    else
      var tail := items[1..];
      assert forall e :: e in items <==> e == items[0] || e in tail by {
        assert items == [items[0]] + tail;
      }
      var sortedTail := SortByKey(tail);
      assert forall i :: 0 <= i < |sortedTail| ==> sortedTail[i].0 != items[0].0 by {
        forall i | 0 <= i < |sortedTail| ensures sortedTail[i].0 != items[0].0 {
          assert sortedTail[i] in tail;
          var j :| 0 <= j < |tail| && tail[j] == sortedTail[i];
          assert tail[j] == items[j + 1];
        }
      }
      InsertByKey(items[0], sortedTail)
  }

  /** The f"{k}:{v}" strings for the items whose value is not None, in order. */
  function Rendered(items: seq<FilterItem>): seq<string>
  {
    if items == [] then []
    else if items[0].1.None? then Rendered(items[1..])
    else [items[0].0 + ":" + items[0].1.value] + Rendered(items[1..])
  }

  /** The items whose value is not None, in order. */
  function Present(items: seq<FilterItem>): (r: seq<FilterItem>)
    ensures forall e :: e in r <==> e in items && e.1.Some?
  {
    if items == [] then []
    else
      assert forall e :: e in items <==> e == items[0] || e in items[1..] by {
        assert items == [items[0]] + items[1..];
      }
      if items[0].1.None? then Present(items[1..]) else [items[0]] + Present(items[1..])
  }

  lemma {:induction false} PresentSorted(items: seq<FilterItem>)
    requires StrictlySorted(items)
    ensures StrictlySorted(Present(items))
  {
    if items != [] {
      PresentSorted(items[1..]);
      var p := Present(items[1..]);
      if items[0].1.Some? {
        forall j | 0 <= j < |p| ensures Text.Less(items[0].0, p[j].0) {
          assert p[j] in items[1..];
          var k :| 0 <= k < |items[1..]| && items[1..][k] == p[j];
          assert items[1..][k] == items[k + 1];
        }
      }
    }
  }

  lemma {:induction false} RenderedIsPresent(items: seq<FilterItem>)
    ensures Rendered(items) == Rendered(Present(items))
  {
    if items != [] {
      RenderedIsPresent(items[1..]);
      if items[0].1.Some? {
        var p := [items[0]] + Present(items[1..]);
        assert p[0] == items[0] && p[1..] == Present(items[1..]);
      }
    }
  }

  /** Two key-sorted sequences with the same items are the same sequence. */
  lemma {:induction false} SortedUnique(a: seq<FilterItem>, b: seq<FilterItem>)
    requires StrictlySorted(a) && StrictlySorted(b)
    requires forall e :: e in a <==> e in b
    ensures a == b
  {
    if a != [] {
      assert a[0] in a;
    }
    if b != [] {
      assert b[0] in b;
    }
    if a != [] && b != [] {
      if a[0] != b[0] {
        assert b[0] in a;
        var i :| 0 <= i < |a| && a[i] == b[0];
        assert a[0] in b;
        var j :| 0 <= j < |b| && b[j] == a[0];
        Text.LessIrreflexive(a[0].0);
        Text.LessIrreflexive(b[0].0);
        assert Text.Less(a[0].0, b[0].0);
        Text.LessAsymmetric(a[0].0, b[0].0);
        assert false;
      }
      forall e ensures e in a[1..] <==> e in b[1..] {
        assert a == [a[0]] + a[1..] && b == [b[0]] + b[1..];
        if e in a[1..] {
          var i :| 0 <= i < |a[1..]| && a[1..][i] == e;
          assert a[i + 1] == e;
          Text.LessIrreflexive(a[0].0);
          assert e != a[0];
          assert e in b;
          var j :| 0 <= j < |b| && b[j] == e;
          assert j != 0;
          assert b[1..][j - 1] == e;
        }
        if e in b[1..] {
          var i :| 0 <= i < |b[1..]| && b[1..][i] == e;
          assert b[i + 1] == e;
          Text.LessIrreflexive(b[0].0);
          assert e != b[0];
          assert e in a;
          var j :| 0 <= j < |a| && a[j] == e;
          assert j != 0;
          assert a[1..][j - 1] == e;
        }
      }
      SortedUnique(a[1..], b[1..]);
    }
  }

  /** "_".join(f"{k}:{v}" for k, v in sorted(filters.items()) if v is not None). */
  function FilterString(items: seq<FilterItem>): string
    requires DistinctKeys(items)
  {
    Text.Join("_", Rendered(SortByKey(items)))
  }

  /**
   * The filter string depends only on the items whose value is not None: not
   * on the dict's insertion order, and not on which keys are present with None.
   */
  lemma FilterStringIgnoresOrderAndNone(a: seq<FilterItem>, b: seq<FilterItem>)
    requires DistinctKeys(a) && DistinctKeys(b)
    requires forall e :: e in a && e.1.Some? <==> e in b && e.1.Some?
    ensures FilterString(a) == FilterString(b)
  {
    var sa, sb := SortByKey(a), SortByKey(b);
    PresentSorted(sa);
    PresentSorted(sb);
    SortedUnique(Present(sa), Present(sb));
    RenderedIsPresent(sa);
    RenderedIsPresent(sb);
  }

  // ----- Key builders -----

  const TasksUserPrefix := "tasks:user:"
  /** The pattern an admin's update clears: every user's listing pages. */
  const AllUserTasksPattern := "tasks:user:*"
  /** The pattern every comment mutation clears. */
  const AllCommentsPattern := "comments:*"

  /** make_task_cache_key: a listing page is always cleared by its owner's pattern. */
  function TaskListKey(hash: string -> int, userId: int, filters: seq<FilterItem>): (r: string)
    requires DistinctKeys(filters)
    ensures Cache.Matches(UserTasksPattern(userId), r)
  {
    var head := TasksUserPrefix + Text.IntToString(userId) + ":";
    var key := head + Text.IntToString(hash(FilterString(filters)));
    PrefixOfJoin(head, Text.IntToString(hash(FilterString(filters))));
    PrefixPattern(head, key);
    key
  }

  /** make_task_detail_cache_key: "task:" and then an id segment holding no separator and no glob character. */
  function TaskDetailKey(taskId: int): (r: string)
    ensures |r| >= 6 && r[..5] == "task:"
    ensures forall i :: 5 <= i < |r| ==> r[i] != ':' && r[i] != '*'
  {
    var id := Text.IntToString(taskId);
    forall i | 0 <= i < |id| ensures id[i] != ':' && id[i] != '*' {
      Text.IntToStringPlain(taskId, i);
    }
    "task:" + id
  }

  /**
   * make_user_tasks_cache_key: the pattern matches exactly the keys that start
   * with the user's id segment, closed by ':'.
   */
  function UserTasksPattern(userId: int): (r: string)
    ensures forall key :: Cache.Matches(r, key) <==> TasksUserPrefix + Text.IntToString(userId) + ":" <= key
  {
    var head := TasksUserPrefix + Text.IntToString(userId) + ":";
    forall key ensures Cache.Matches(head + "*", key) <==> head <= key {
      PrefixPattern(head, key);
    }
    head + "*"
  }

  /** The key get_task_stats caches under: a fixed prefix and then an id segment with no separator or glob character. */
  function StatsKey(userId: int): (r: string)
    ensures |r| >= 17 && r[..16] == "task_stats:user:"
    ensures forall i :: 16 <= i < |r| ==> r[i] != ':' && r[i] != '*'
  {
    var id := Text.IntToString(userId);
    forall i | 0 <= i < |id| ensures id[i] != ':' && id[i] != '*' {
      Text.IntToStringPlain(userId, i);
    }
    "task_stats:user:" + id
  }

  /** str(value) for the values of get_tasks' key dict. */
  function RenderInt(n: Option<int>): Option<string>
  {
    if n.Some? then Some(Text.IntToString(n.value)) else None
  }

  function RenderBool(b: bool): string
  {
    if b then "True" else "False"
  }

  /** The dict get_tasks builds its cache key from, in its insertion order. */
  function TaskListFilterItems(page: int, pageSize: int, status: Option<string>, ownerId: Option<int>,
                               titleContains: Option<string>, createdAfter: Option<string>,
                               createdBefore: Option<string>, isAdmin: bool): (items: seq<FilterItem>)
    ensures DistinctKeys(items)
  {
    [("page", Some(Text.IntToString(page))),
     ("page_size", Some(Text.IntToString(pageSize))),
     ("status", status),
     ("owner_id", RenderInt(ownerId)),
     ("title_contains", titleContains),
     ("created_after", createdAfter),
     ("created_before", createdBefore),
     ("is_admin", Some(RenderBool(isAdmin)))]
  }

  /** repr() of an optional value inside str(dict): None, an int, or a quoted string. */
  function ReprInt(n: Option<int>): string
  {
    if n.Some? then Text.IntToString(n.value) else "None"
  }

  function ReprStr(s: Option<string>): string
  {
    if s.Some? then "'" + s.value + "'" else "None"
  }

  /** str(filters.dict()) for CommentFilters. */
  function CommentFiltersRepr(f: Pagination.CommentFilters): string
  {
    "{'task_id': " + ReprInt(f.taskId) + ", 'user_id': " + ReprInt(f.userId) +
    ", 'content_contains': " + ReprStr(f.contentContains) + "}"
  }

  /** The part of a comment listing key after the caller's id. */
  function CommentsPageSuffix(page: int, pageSize: int, filtersHash: int): string
  {
    "page:" + Text.IntToString(page) + ":size:" + Text.IntToString(pageSize) + ":filters:" +
    Text.IntToString(filtersHash)
  }

  /**
   * The key get_comments caches a page under: "comments:*" clears it, and it
   * starts with the caller's id segment, closed by ':'.
   */
  function CommentsListKey(hash: string -> int, userId: int, page: int, pageSize: int,
                           filters: Pagination.CommentFilters): (r: string)
    ensures Cache.Matches(AllCommentsPattern, r)
    ensures "comments:user:" + Text.IntToString(userId) + ":" <= r
  {
    var rest := CommentsPageSuffix(page, pageSize, hash(CommentFiltersRepr(filters)));
    var named := "comments:user:" + Text.IntToString(userId);
    var head := named + ":";
    PrefixOfJoin(head, rest);
    PrefixOfJoin(named, ":");
    PrefixOfJoin("comments:user:", Text.IntToString(userId));
    assert "comments:" <= "comments:user:";
    PrefixTransitive("comments:", "comments:user:", named);
    PrefixTransitive("comments:", named, head);
    PrefixTransitive("comments:", head, head + rest);
    PrefixPattern("comments:", head + rest);
    head + rest
  }

  // ----- Properties of the key families -----

  /** Listings built from dicts that agree on their non-None items share one key. */
  lemma TaskListKeyIgnoresOrderAndNone(hash: string -> int, userId: int, a: seq<FilterItem>, b: seq<FilterItem>)
    requires DistinctKeys(a) && DistinctKeys(b)
    requires forall e :: e in a && e.1.Some? <==> e in b && e.1.Some?
    ensures TaskListKey(hash, userId, a) == TaskListKey(hash, userId, b)
  {
    FilterStringIgnoresOrderAndNone(a, b);
  }

  /** A string starts with each of its prefixes. */
  lemma PrefixOfJoin(a: string, b: string)
    ensures a <= a + b
  {
    assert (a + b)[..|a|] == a;
  }

  lemma PrefixTransitive(a: string, b: string, c: string)
    requires a <= b && b <= c
    ensures a <= c
  {
    assert c[..|b|][..|a|] == c[..|a|];
  }

  /** A "prefix*" pattern matches exactly the keys that start with prefix. */
  lemma PrefixPattern(prefix: string, key: string)
    ensures Cache.Matches(prefix + "*", key) <==> prefix <= key
  {
    assert (prefix + "*")[..|prefix|] == prefix;
  }

  /**
   * Two rendered ids, each closed by ':', that a key holds at the same place
   * are the same id: an id holds no ':', so neither can stop inside the other.
   */
  lemma IdSegmentsAgree(prefix: string, u: int, v: int, key: string)
    requires prefix + Text.IntToString(u) + ":" <= key
    requires prefix + Text.IntToString(v) + ":" <= key
    ensures u == v
  {
    var su, sv := Text.IntToString(u), Text.IntToString(v);
    var tail := key[|prefix|..];
    assert su + ":" <= tail by {
      assert (prefix + su + ":")[|prefix|..] == su + ":";
    }
    assert sv + ":" <= tail by {
      assert (prefix + sv + ":")[|prefix|..] == sv + ":";
    }
    forall i | 0 <= i < |su| ensures su[i] != ':' {
      Text.IntToStringPlain(u, i);
    }
    forall i | 0 <= i < |sv| ensures sv[i] != ':' {
      Text.IntToStringPlain(v, i);
    }
    // neither id can stop inside the other: tail has ':' right after each
    assert tail[|su|] == ':' && tail[|sv|] == ':';
    assert |su| == |sv|;
    assert su == tail[..|su|] == sv;
    Text.IntToStringInjective(u, v);
  }

  /** A key that holds a rendered id closed by ':' after a known prefix splits into that id and what follows. */
  lemma IdSegmentsSplit(prefix: string, u: int, v: int, restU: string, restV: string)
    requires prefix + Text.IntToString(u) + ":" + restU == prefix + Text.IntToString(v) + ":" + restV
    ensures u == v && restU == restV
  {
    var key := prefix + Text.IntToString(u) + ":" + restU;
    PrefixOfJoin(prefix + Text.IntToString(u) + ":", restU);
    PrefixOfJoin(prefix + Text.IntToString(v) + ":", restV);
    IdSegmentsAgree(prefix, u, v, key);
    var head := prefix + Text.IntToString(u) + ":";
    assert restU == key[|head|..] == restV;
  }

  /**
   * Cache partitioning: a listing key of user u is cleared by the pattern of
   * user v exactly when u == v. The ':' after the id keeps 7 and 70 apart.
   */
  lemma TaskListKeyMatchesUserPatternIff(hash: string -> int, u: int, v: int, filters: seq<FilterItem>)
    requires DistinctKeys(filters)
    ensures Cache.Matches(UserTasksPattern(v), TaskListKey(hash, u, filters)) <==> u == v
  {
    var key := TaskListKey(hash, u, filters);
    assert TasksUserPrefix + Text.IntToString(u) + ":" <= key;
    if Cache.Matches(UserTasksPattern(v), key) {
      IdSegmentsAgree(TasksUserPrefix, u, v, key);
    }
  }

  /** The admin's pattern clears every user's listing pages. */
  lemma TaskListKeyMatchesAllUsersPattern(hash: string -> int, u: int, filters: seq<FilterItem>)
    requires DistinctKeys(filters)
    ensures Cache.Matches(AllUserTasksPattern, TaskListKey(hash, u, filters))
  {
    var key := TaskListKey(hash, u, filters);
    var named := TasksUserPrefix + Text.IntToString(u);
    // the owner's pattern matches key, so key starts with the owner's id segment
    assert named + ":" <= key;
    PrefixOfJoin(TasksUserPrefix, Text.IntToString(u));
    PrefixOfJoin(named, ":");
    PrefixTransitive(TasksUserPrefix, named, named + ":");
    PrefixTransitive(TasksUserPrefix, named + ":", key);
    assert AllUserTasksPattern == TasksUserPrefix + "*";
    PrefixPattern(TasksUserPrefix, key);
  }

  /** Different tasks never share a detail key. */
  lemma TaskDetailKeyInjective(a: int, b: int)
    requires TaskDetailKey(a) == TaskDetailKey(b)
    ensures a == b
  {
    assert Text.IntToString(a) == TaskDetailKey(a)[5..];
    assert Text.IntToString(b) == TaskDetailKey(b)[5..];
    Text.IntToStringInjective(a, b);
  }

  /** No task-listing pattern, of one user or of all, clears a detail key: "task:" differs from "tasks" at its fifth character. */
  lemma TaskDetailKeyNotMatchedByListPatterns(taskId: int, userId: int)
    ensures !Cache.Matches(UserTasksPattern(userId), TaskDetailKey(taskId))
    ensures !Cache.Matches(AllUserTasksPattern, TaskDetailKey(taskId))
    ensures !Cache.Matches(AllCommentsPattern, TaskDetailKey(taskId))
  {
    var key := TaskDetailKey(taskId);
    assert key[4] == ':';
    var p := UserTasksPattern(userId);
    assert p[4] == 's' && |p| >= 6;
    assert AllUserTasksPattern[4] == 's';
    assert AllCommentsPattern[0] == 'c' && key[0] == 't';
  }

  /**
   * The statistics entry is never matched by what a mutation clears: the
   * listing patterns, the comment pattern, or a detail key.
   */
  lemma StatsKeyNeverInvalidated(userId: int, v: int, taskId: int)
    ensures !Cache.Matches(UserTasksPattern(v), StatsKey(userId))
    ensures !Cache.Matches(AllUserTasksPattern, StatsKey(userId))
    ensures !Cache.Matches(AllCommentsPattern, StatsKey(userId))
    ensures StatsKey(userId) != TaskDetailKey(taskId)
  {
    var key := StatsKey(userId);
    assert key[4] == '_';
    var p := UserTasksPattern(v);
    assert p[4] == 's' && |p| >= 6;
    assert AllUserTasksPattern[4] == 's';
    assert AllCommentsPattern[0] == 'c' && key[0] == 't';
    assert TaskDetailKey(taskId)[4] == ':';
  }

  /** An idempotency record is never cleared by the patterns mutations use, nor equal to a detail key. */
  lemma IdempotencyKeyNeverInvalidated(key: string, v: int, taskId: int)
    ensures !Cache.Matches(UserTasksPattern(v), Cache.IdempotencyKey(key))
    ensures !Cache.Matches(AllUserTasksPattern, Cache.IdempotencyKey(key))
    ensures !Cache.Matches(AllCommentsPattern, Cache.IdempotencyKey(key))
    ensures Cache.IdempotencyKey(key) != TaskDetailKey(taskId)
  {
    var k := Cache.IdempotencyKey(key);
    assert k[0] == 'i';
    assert UserTasksPattern(v)[0] == 't' && |UserTasksPattern(v)| >= 2;
    assert TaskDetailKey(taskId)[0] == 't';
  }

  /** The page suffix read as segments, each closed by ':'. */
  lemma CommentsPageSuffixSegments(page: int, pageSize: int, filtersHash: int)
    ensures CommentsPageSuffix(page, pageSize, filtersHash) ==
      "page:" + Text.IntToString(page) + ":" + ("size:" + Text.IntToString(pageSize) + ":" + ("filters:" + Text.IntToString(filtersHash)))
  {
    var sp, ss, sh := Text.IntToString(page), Text.IntToString(pageSize), Text.IntToString(filtersHash);
    assert ":size:" == ":" + "size:";
    assert ":filters:" == ":" + "filters:";
  }

  /**
   * A comment listing key determines the caller, the page and the page size:
   * two requests that differ in any of them never share a cached page.
   */
  lemma CommentsListKeyInjective(hash: string -> int, u1: int, page1: int, size1: int, f1: Pagination.CommentFilters,
                                 u2: int, page2: int, size2: int, f2: Pagination.CommentFilters)
    requires CommentsListKey(hash, u1, page1, size1, f1) == CommentsListKey(hash, u2, page2, size2, f2)
    ensures u1 == u2 && page1 == page2 && size1 == size2
  {
    var h1, h2 := hash(CommentFiltersRepr(f1)), hash(CommentFiltersRepr(f2));
    var rest1, rest2 := CommentsPageSuffix(page1, size1, h1), CommentsPageSuffix(page2, size2, h2);
    IdSegmentsSplit("comments:user:", u1, u2, rest1, rest2);
    CommentsPageSuffixSegments(page1, size1, h1);
    CommentsPageSuffixSegments(page2, size2, h2);
    var tail1 := "size:" + Text.IntToString(size1) + ":" + ("filters:" + Text.IntToString(h1));
    var tail2 := "size:" + Text.IntToString(size2) + ":" + ("filters:" + Text.IntToString(h2));
    IdSegmentsSplit("page:", page1, page2, tail1, tail2);
    IdSegmentsSplit("size:", size1, size2, "filters:" + Text.IntToString(h1), "filters:" + Text.IntToString(h2));
  }

  /** A "prefix*" pattern whose first character differs from the key's does not match it. */
  lemma FirstCharDiffers(pattern: string, key: string)
    requires |pattern| >= 2 && pattern[|pattern| - 1] == '*'
    requires |key| >= 1 && pattern[0] != key[0]
    ensures !Cache.Matches(pattern, key)
  {
  }

  /**
   * Comment listing keys form their own family: "comments:*" clears them, and
   * no task pattern or task detail key reaches them.
   */
  lemma CommentsListKeyFamily(hash: string -> int, userId: int, page: int, pageSize: int,
                              filters: Pagination.CommentFilters, v: int, taskId: int)
    ensures Cache.Matches(AllCommentsPattern, CommentsListKey(hash, userId, page, pageSize, filters))
    ensures "comments:user:" + Text.IntToString(userId) + ":" <= CommentsListKey(hash, userId, page, pageSize, filters)
    ensures !Cache.Matches(UserTasksPattern(v), CommentsListKey(hash, userId, page, pageSize, filters))
    ensures !Cache.Matches(AllUserTasksPattern, CommentsListKey(hash, userId, page, pageSize, filters))
    ensures CommentsListKey(hash, userId, page, pageSize, filters) != TaskDetailKey(taskId)
  {
    var key := CommentsListKey(hash, userId, page, pageSize, filters);
    assert key[0] == 'c';
    FirstCharDiffers(UserTasksPattern(v), key);
    FirstCharDiffers(AllUserTasksPattern, key);
    assert TaskDetailKey(taskId)[0] == 't';
  }

}
