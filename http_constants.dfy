/** The status codes the application names in its configuration (backend/config/http_constants.php). */
module HttpConstants {

  const Ok: int := 200
  const Created: int := 201
  const Unauthorized: int := 401
  const Forbidden: int := 403
  const NotFound: int := 404
  const UnprocessableEntity: int := 422
}
