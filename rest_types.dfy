/**
 * Request validation of the REST layer. Decoding of JSON bodies and query
 * strings happens before these functions: they receive the decoded values.
 */
module RestTypes {
  import opened Wrappers
  import opened Domain

  /** Why a request was refused. */
  datatype RequestError = DecodeError | UnexpectedStatus

  /** The body of a create request, once decoded. */
  datatype SetRequest = SetRequest(data: string, status: Status)

  /** The parameters of a list request. */
  datatype GetAllRequest = GetAllRequest(statusFilter: Status)

  /**
   * A status is acceptable when it is one of the predefined names, or empty
   * (the empty string means "no status given").
   */
  function ValidateStatus(status: string): (ok: bool)
    ensures ok <==> status in KnownStatuses || status == ""
  {
    !(status != Ready && status != Done && status != InProgress && status != "")
  }

  /**
   * Every string other than the three names and the empty string is refused.
   * A corollary of ValidateStatus's ensures, kept as documentation.
   */
  lemma ValidateStatusRejectsOthers(status: string)
    requires status != Ready && status != Done && status != InProgress && status != ""
    ensures !ValidateStatus(status)
  {
  }

  /**
   * Builds a list request from the `status` query parameter (the empty string
   * when the parameter is missing).
   */
  function CreateGetAllRequest(status: string): (r: Result<GetAllRequest, RequestError>)
    ensures r.Ok? <==> ValidateStatus(status)
    ensures r.Ok? ==> r.value.statusFilter == status
    ensures r.Err? ==> r.error == UnexpectedStatus
  {
    if !ValidateStatus(status) then Err(UnexpectedStatus)
    else Ok(GetAllRequest(status))
  }

  /**
   * Checks a create request. `decoded` is `None` when the body was not valid
   * JSON for a `SetRequest`.
   */
  function CreateSetRequest(decoded: Option<SetRequest>): (r: Result<SetRequest, RequestError>)
    ensures decoded.None? ==> r == Err(DecodeError)
    ensures decoded.Some? ==> (r.Ok? <==> ValidateStatus(decoded.value.status))
    ensures decoded.Some? && r.Ok? ==> r.value == decoded.value
    ensures decoded.Some? && r.Err? ==> r.error == UnexpectedStatus
  {
    match decoded
    case None => Err(DecodeError)
    case Some(req) =>
      if !ValidateStatus(req.status) then Err(UnexpectedStatus)
      else Ok(req)
  }

  /**
   * An accepted create request may carry an empty status and comes back unchanged.
   * An instance of CreateSetRequest's ensures, kept as documentation.
   */
  lemma CreateSetRequestAcceptsEmptyStatus(data: string)
    ensures CreateSetRequest(Some(SetRequest(data, ""))) == Ok(SetRequest(data, ""))
  {
  }
}
