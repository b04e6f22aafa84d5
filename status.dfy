/** The HTTP status codes the handlers write. */
module Status {
  const STATUS_OK: int := 200
  const STATUS_FORBIDDEN: int := 403
  const STATUS_NOT_FOUND: int := 404
  const STATUS_INTERNAL_SERVER_ERROR: int := 500
}
