/**
 * The relational store: the `tasks` and `comments` tables keyed by primary
 * key, with the sequences that hand out new ids. A committed write replaces a
 * table; a write the database refuses leaves both tables as they were.
 */
module Store {
  import opened Records

  class Database {
    var tasks: map<int, Task>
    var comments: map<int, Comment>
    /** The next id the tasks sequence hands out. */
    var nextTaskId: int
    /** The next id the comments sequence hands out. */
    var nextCommentId: int

    /**
     * Every row sits under its own id, every id came from its sequence, and
     * every comment's task_id refers to an existing task (the foreign key).
     */
    ghost predicate Valid()
      reads this
    {
      && nextTaskId >= 1 && nextCommentId >= 1
      && (forall id :: id in tasks ==> tasks[id].id == id && 1 <= id < nextTaskId)
      && (forall id :: id in comments ==> comments[id].id == id && 1 <= id < nextCommentId)
      && (forall id :: id in comments ==> comments[id].taskId in tasks)
    }

    constructor ()
      ensures Valid()
      ensures tasks == map[] && comments == map[]
    {
      tasks := map[];
      comments := map[];
      nextTaskId := 1;
      nextCommentId := 1;
    }

    /** True when some comment still refers to the task (deleting it would break the foreign key). */
    predicate Referenced(taskId: int)
      reads this
    {
      exists id :: id in comments && comments[id].taskId == taskId
    }
  }
}
