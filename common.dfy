/** Shared vocabulary of the controllers: identifiers, the error responses
    they throw, the tagged result every handler returns, and the ownership
    guard that every mutation of an owned document applies. */
module Common {

  /** A document identifier as it travels in path parameters and is stored in
      reference fields. Whether a string is a well-formed identifier is decided
      by the database library; every handler receives that decision as a
      predicate `isValidId`. */
  type Id = string

  datatype Option<+T> = None | Some(value: T)

  /** The HTTP status codes the controllers throw. */
  const BAD_REQUEST: int := 400
  const FORBIDDEN: int := 403
  const NOT_FOUND: int := 404
  const INTERNAL_ERROR: int := 500

  /** `new ApiError(status, message)` */
  datatype ApiError = ApiError(status: int, message: string)

  /** A handler either answers with a payload or throws an `ApiError`. */
  datatype Result<+T> = Ok(value: T) | Fail(error: ApiError) {
    predicate HasStatus(code: int) {
      Fail? && error.status == code
    }
  }

  /** JavaScript truthiness of an optional string field: present and not "". */
  predicate Truthy(s: Option<string>) {
    s.Some? && s.value != ""
  }

  /** The ownership guard: `doc.owner.toString() === req.user?._id?.toString()`.
      An anonymous actor (`None`) never owns anything. */
  predicate IsOwner(owner: Id, actor: Option<Id>) {
    actor == Some(owner)
  }

}
