/** The application error type and the failures the injector can produce. */
module Errors {

  datatype ErrorCode =
    | VALIDATION_ERROR
    | RESOURCE_NOT_FOUND
    | RESOURCE_ALREADY_EXISTS
    | RESOURCE_CONFLICT
    | ACCESS_DENIED
    | THROTTLED
    | PROVIDER_UNAVAILABLE
    | PROVIDER_ERROR
    | INTERNAL_ERROR

  datatype AppError = AppError(code: ErrorCode, message: string, statusCode: int, retryable: bool)

  datatype FailureType = HTTP_500 | HTTP_403 | TIMEOUT | LATENCY | THROTTLE | CONNECTION_FAILURE

  /** The error a failing rule raises. LATENCY has none: it delays and lets the call through. */
  function InjectedError(failure: FailureType): (e: AppError)
    requires failure != LATENCY
    ensures e.code != RESOURCE_NOT_FOUND && 400 <= e.statusCode < 600
    ensures e.code == ACCESS_DENIED <==> failure == HTTP_403
    ensures e.code == INTERNAL_ERROR <==> failure == HTTP_500
    ensures e.code == THROTTLED <==> failure == THROTTLE
    ensures e.code == PROVIDER_UNAVAILABLE <==> failure == TIMEOUT || failure == CONNECTION_FAILURE
    ensures e.statusCode == match e.code
      case ACCESS_DENIED => 403
      case INTERNAL_ERROR => 500
      case THROTTLED => 429
      case _ => 503
    ensures e.retryable <==> e.statusCode == 429 || e.statusCode == 503
  {
    match failure
    case HTTP_500 => AppError(INTERNAL_ERROR, "Injected failure: internal server error.", 500, false)
    case HTTP_403 => AppError(ACCESS_DENIED, "Injected failure: access denied.", 403, false)
    case TIMEOUT => AppError(PROVIDER_UNAVAILABLE, "Injected failure: operation timed out.", 503, true)
    case THROTTLE => AppError(THROTTLED, "Injected failure: request throttled.", 429, true)
    case CONNECTION_FAILURE =>
      AppError(PROVIDER_UNAVAILABLE, "Injected failure: could not reach the provider.", 503, true)
  }
}
