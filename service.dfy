/**
 * The state the request handlers share: the database, the Redis cache, and the
 * outbox of metadata jobs handed to the background worker, together with the
 * two library functions the handlers depend on (Python's string hash and
 * datetime.fromisoformat), taken as given.
 */
module Service {
  import opened Common
  import opened Records
  import Store
  import Cache
  import Pagination

  /**
   * The JSON dicts the handlers put in the cache, by shape: a TaskRead, a
   * PaginatedResponse of tasks or of comments, or the statistics dict.
   */
  datatype Value =
    | TaskDoc(task: Task)
    | TaskPageDoc(taskPage: Pagination.Page<Task>)
    | CommentPageDoc(commentPage: Pagination.Page<Comment>)
    | StatsDoc(stats: map<string, int>)

  /** Python truthiness of the decoded dict: only an empty dict is falsy, and only a statistics dict can be empty. */
  predicate IsTruthy(v: Value)
  {
    !(v.StatsDoc? && v.stats == map[])
  }

  /** `if cached:` after a cache get. */
  predicate Hit(v: Option<Value>)
  {
    v.Some? && IsTruthy(v.value)
  }

  class App {
    const db: Store.Database
    const cache: Cache.RedisCache<Value>
    /** The task ids handed to fetch_task_metadata.delay, oldest first. */
    var outbox: seq<int>
    /** Python's hash() of a string in this process. */
    const hash: string -> int
    /** datetime.fromisoformat: the timestamp, or None where it raises ValueError. */
    const fromIsoFormat: string -> Option<int>

    ghost predicate Valid()
      reads db
    {
      db.Valid()
    }

    constructor (db: Store.Database, cache: Cache.RedisCache<Value>, hash: string -> int,
                 fromIsoFormat: string -> Option<int>)
      requires db.Valid()
      ensures Valid()
      ensures this.db == db && this.cache == cache && this.hash == hash && this.fromIsoFormat == fromIsoFormat
      ensures outbox == []
    {
      this.db := db;
      this.cache := cache;
      this.hash := hash;
      this.fromIsoFormat := fromIsoFormat;
      outbox := [];
    }
  }
}
