/** What a route handler answers: an HTTP status and a typed body. */
module Http {
  datatype Response<+B> = Response(status: nat, body: B)

  const StatusOk: nat := 200
  const StatusCreated: nat := 201
  const StatusBadRequest: nat := 400
  const StatusUnauthorized: nat := 401
  const StatusNotFound: nat := 404
  const StatusServerError: nat := 500
}
