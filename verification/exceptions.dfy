/** The exceptions that flow through the core, the two exception-classification
    tables, and the names of the calls a request makes (used to inject failures). */
module Exceptions {
  import opened Wrappers

  const UNAUTHORIZED: int := 401
  const FORBIDDEN: int := 403
  const NOT_FOUND: int := 404

  datatype Exc =
    /** `HttpClientErrorException` carrying an HTTP status */
    | HttpClientError(status: int)
    /** `ResponseStatusException` carrying an HTTP status */
    | ResponseStatus(status: int)
    /** `OAuth2AuthenticationException`, raised while obtaining a token */
    | OAuth2Failure
    | IllegalArgument(message: string)
    | NullPointer
    /** any other exception: a transport or storage failure */
    | Unexpected
    /** the client layer's own exceptions */
    | ClientAuthentication
    | ClientNotFound
    | ClientError
    /** the service layer's own exceptions */
    | ServiceNotAllowed
    | ServiceNotFound
    | ServiceError

  predicate IsClientException(e: Exc) {
    e.ClientAuthentication? || e.ClientNotFound? || e.ClientError?
  }

  predicate IsServiceException(e: Exc) {
    e.ServiceNotAllowed? || e.ServiceNotFound? || e.ServiceError?
  }

  /** `ClientExceptionHandler.handleException`: total, never throws, and always
      yields one of the three client exceptions. */
  function ClientHandle(e: Exc): (r: Exc)
    ensures IsClientException(r)
    ensures r == ClientAuthentication <==> e == OAuth2Failure || e == HttpClientError(UNAUTHORIZED)
    ensures r == ClientNotFound <==> e == HttpClientError(NOT_FOUND)
    ensures r == ClientError <==>
      e != OAuth2Failure && e != HttpClientError(UNAUTHORIZED) && e != HttpClientError(NOT_FOUND)
  {
    match e
    case OAuth2Failure => ClientAuthentication
    case HttpClientError(status) =>
      if status == UNAUTHORIZED then ClientAuthentication
      else if status == NOT_FOUND then ClientNotFound
      else ClientError
    case _ => ClientError
  }

  /** `ServiceExceptionHandler.handleException`: total, always one of the three
      service exceptions. */
  function ServiceHandle(e: Exc): (r: Exc)
    ensures IsServiceException(r)
    ensures r == ServiceNotFound <==> e == ClientNotFound
    ensures r == ServiceNotAllowed <==> e == ClientAuthentication
    ensures r == ServiceError <==> e != ClientNotFound && e != ClientAuthentication
  {
    if e.ClientNotFound? then ServiceNotFound
    else if e.ClientAuthentication? then ServiceNotAllowed
    else ServiceError
  }

  /** The two tables composed: authentication failures become `ServiceNotAllowed`,
      a 404 becomes `ServiceNotFound`, and everything else, a 403 included, becomes
      `ServiceError`. */
  lemma ComposedHandlers(e: Exc)
    ensures ServiceHandle(ClientHandle(e)) ==
      if e == OAuth2Failure || e == HttpClientError(UNAUTHORIZED) then ServiceNotAllowed
      else if e == HttpClientError(NOT_FOUND) then ServiceNotFound
      else ServiceError
    ensures ServiceHandle(ClientHandle(HttpClientError(FORBIDDEN))) == ServiceError
  {
  }

  /** The calls one request may make; a fault map names the ones that throw and
      what they throw. */
  datatype Call =
    | CheckUser | CheckGroup | FetchMembers
    | FindApi | FetchOwned
    | StoreSave | StoreUpdate | StoreDelete
    | OwnerAdd | OwnerRemove
    | ConvertSpec
    | ToolGet | ToolPut | ToolDelete

  /** The exception injected for `key` (a call, or a rollback position), if any. */
  function FaultOf<K>(faults: map<K, Exc>, key: K): (r: Option<Exc>)
    ensures r.Some? <==> key in faults
    ensures r.Some? ==> r.value == faults[key]
  {
    if key in faults then Some(faults[key]) else None
  }
}
