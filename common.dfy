/** Failure-compatible wrappers and the HTTP error values the handlers raise. */
module Common {

  datatype Option<+T> = None | Some(value: T)

  datatype Result<+T, +E> = Ok(value: T) | Err(error: E)

  /** An HTTPException (or an exception turned into a response by an error handler). */
  datatype HttpError = HttpError(status: int, detail: string)

  const TaskNotFound := HttpError(404, "Task not found")
  const CommentNotFound := HttpError(404, "Comment not found")
  const Forbidden := HttpError(403, "Forbidden")
  const NoFieldsToUpdate := HttpError(400, "No fields to update")
  const InvalidCreatedAfter := HttpError(400, "Invalid created_after date format")
  const InvalidCreatedBefore := HttpError(400, "Invalid created_before date format")
  /** The database error handler's response (an SQLAlchemyError reached the app). */
  const DatabaseError := HttpError(500, "Database error occurred")
  /** The general exception handler's response (any other exception, e.g. a pydantic ValidationError). */
  const InternalError := HttpError(500, "Internal server error")

  /** Python truthiness of an optional string: neither None nor "". */
  predicate Truthy(s: Option<string>)
  {
    s.Some? && s.value != ""
  }
}
