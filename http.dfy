/** The HTTP status codes the handlers answer with (Go's net/http constants), and the text of
    the errors they render. */
module Http {
  /** An error's text: one the handler words itself, or one that a library (the JSON decoder,
      the etcd client) reports and that this model does not fix. */
  datatype ErrorText = Says(text: string) | Reported


  const StatusOK: int := 200
  const StatusCreated: int := 201
  const StatusBadRequest: int := 400
  const StatusForbidden: int := 403
  const StatusNotFound: int := 404
  const StatusInternalServerError: int := 500
}
