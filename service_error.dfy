/** The service's error value (src/serv/service_error.rs): an HTTP status code,
    a short machine-readable status, a message and optional details. */
module ServiceErrors {
  import opened Wrappers

  const BAD_REQUEST: int := 400
  const NOT_FOUND: int := 404
  const INTERNAL_SERVER_ERROR: int := 500

  /** `details` is a JSON value in the source; the only details the core ever
      attaches are lists of tag names, so they are kept as such. */
  datatype ServiceError = ServiceError(
    statusCode: int,
    status: string,
    message: string,
    details: Option<seq<string>>)

  /** The SQL errors the store can raise: the only ones are constraint
      violations, named by the columns whose uniqueness failed, as SQLite
      reports them. */
  datatype SqlError = UniqueConstraintFailed(columns: string)

  /** The text of an SQL error (its `Display`). */
  function SqlMessage(err: SqlError): string {
    "UNIQUE constraint failed: " + err.columns
  }

  /** Different constraint errors have different texts: the message of a
      500 SQL error tells which constraint failed. */
  lemma SqlMessageInjective(a: SqlError, b: SqlError)
    ensures SqlMessage(a) == SqlMessage(b) <==> a == b
  {
    var prefix := "UNIQUE constraint failed: ";
    if SqlMessage(a) == SqlMessage(b) {
      assert a.columns == SqlMessage(a)[|prefix|..];
      assert b.columns == SqlMessage(b)[|prefix|..];
    }
  }

  predicate IsClientError(e: ServiceError) {
    400 <= e.statusCode < 500
  }

  /** `ServiceError::bad_request`. */
  function BadRequest(status: string, message: string): (e: ServiceError)
    ensures StatusCode(e) == BAD_REQUEST && IsClientError(e)
    ensures e.status == status && e.message == message && e.details == None
  {
    ServiceError(BAD_REQUEST, status, message, None)
  }

  /** `ServiceError::not_found`. */
  function NotFound(status: string, message: string): (e: ServiceError)
    ensures StatusCode(e) == NOT_FOUND && IsClientError(e)
    ensures e.status == status && e.message == message && e.details == None
  {
    ServiceError(NOT_FOUND, status, message, None)
  }

  /** `ServiceError::with_details`: attaches details and keeps everything else. */
  function WithDetails(e: ServiceError, details: seq<string>): (r: ServiceError)
    ensures r.details == Some(details)
    ensures StatusCode(r) == StatusCode(e) && r.status == e.status && r.message == e.message
  {
    e.(details := Some(details))
  }

  /** `with_message` is used on a constant error but not defined in the
      modelled files; it is taken to replace the message only. */
  function WithMessage(e: ServiceError, message: string): (r: ServiceError)
    ensures r.message == message
    ensures StatusCode(r) == StatusCode(e) && r.status == e.status && r.details == e.details
  {
    e.(message := message)
  }

  /** `From<SqlError> for ServiceError`: every SQL error is a server fault. */
  function FromSql(err: SqlError): (e: ServiceError)
    ensures StatusCode(e) == INTERNAL_SERVER_ERROR && !IsClientError(e)
    ensures e.status == "SQL" && e.message == SqlMessage(err) && e.details == None
  {
    ServiceError(INTERNAL_SERVER_ERROR, "SQL", SqlMessage(err), None)
  }

  /** `ResponseError::status_code`: the stored code. */
  function StatusCode(e: ServiceError): (code: int)
    ensures code == e.statusCode
  {
    e.statusCode
  }

  /** `consts::TAG_DUPLICATION` (the constants module is not part of this model:
      its code is taken to be 400 and its message left empty). */
  const TagDuplication: ServiceError := BadRequest("TAG_DUPLICATION", "")

  /** `consts::CONFIRMATION_REQUIRED` (same caveat as TagDuplication). */
  const ConfirmationRequired: ServiceError := BadRequest("CONFIRMATION_REQUIRED", "")
}
