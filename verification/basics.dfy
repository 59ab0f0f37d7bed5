/** Identifiers, timestamps, optional values and the HTTP status codes the handlers return. */
module Basics {

  /** An optional value, as a nullable database column or a lookup that may miss. */
  datatype Option<+T> = None | Some(value: T)

  /** Database identifiers (generated by the database, opaque here). */
  type Id = string

  /** `new Date()` values; only their order matters to the model. */
  type Timestamp = int

  const StatusOk: int := 200
  const StatusCreated: int := 201
  const StatusBadRequest: int := 400
  const StatusUnauthorized: int := 401
  const StatusNotFound: int := 404
  const StatusServerError: int := 500
}
