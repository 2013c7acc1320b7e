/** The HTTP status codes the routes answer with. */
module Http {
  const Ok: nat := 200
  const BadRequest: nat := 400
  const Unauthorized: nat := 401
  const Forbidden: nat := 403
  const NotFound: nat := 404
  const ServerError: nat := 500
}
