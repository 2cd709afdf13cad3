/** How the result of one upstream call becomes the outcome recorded for the task. */
module Forwarder {

  /** The summary extracted from a 200 answer, or why there is none; every such failure has the
      code `upstream_error`. */
  datatype SummaryResult = Summary(text: string) | SummaryError(message: string, truncatedJson: bool)

  /** What happened to the call. `NotSent` covers the failures before the HTTP client is
      entered; `message` in `Response` is the trimmed body or the status text standing in for it. */
  datatype UpstreamResult =
    | NotSent(message: string)
    | CallFailed(timeout: bool, message: string)
    | BodyFailed(message: string)
    | Response(status: int, message: string, summary: SummaryResult)

  datatype ForwardOutcome = ForwardOutcome(
    summary: string,
    errorCode: string,
    errorMessage: string,
    transportUncertain: bool
  )

  const UNCERTAIN_MESSAGE := "connection to newapi broke after request dispatch; task result may be uncertain"

  const UNCERTAIN := ForwardOutcome("", "upstream_transport_uncertain", UNCERTAIN_MESSAGE, true)

  const TIMED_OUT := ForwardOutcome("", "upstream_timeout", "upstream request timed out", false)

  function Failure(code: string, message: string): ForwardOutcome {
    ForwardOutcome("", code, message, false)
  }

  function HttpFailureCode(status: int): string {
    if status == 401 || status == 403 then "auth_failed"
    else if status == 402 then "insufficient_balance"
    else if status == 429 then "upstream_rate_limited"
    else if status == 400 || status == 404 || status == 422 then "invalid_request"
    else "upstream_error"
  }

  /** `wrote` tells whether the write hook had run when the call returned; it also runs when
      writing failed, and its error is not looked at. */
  function Classify(r: UpstreamResult, wrote: bool): ForwardOutcome {
    match r
    case NotSent(message) => Failure("unknown_error", message)
    case CallFailed(timeout, message) =>
      if wrote then UNCERTAIN
      else if timeout then TIMED_OUT
      else Failure("upstream_error", message)
    case BodyFailed(message) =>
      if wrote then UNCERTAIN else Failure("upstream_error", message)
    case Response(status, message, summary) =>
      if status == 408 then TIMED_OUT
      else if status != 200 then Failure(HttpFailureCode(status), message)
      else
        match summary
        case Summary(text) => ForwardOutcome(text, "", "", false)
        case SummaryError(errorText, truncatedJson) =>
          if wrote && truncatedJson then UNCERTAIN else Failure("upstream_error", errorText)
  }

  /** The answer was cut off: no answer, no complete body, or a body whose JSON stops short. */
  predicate AnswerCutOff(r: UpstreamResult) {
    r.CallFailed? || r.BodyFailed?
    || (r.Response? && r.status == 200 && r.summary.SummaryError? && r.summary.truncatedJson)
  }

  /** A task is left uncertain exactly when the write hook had run and the answer was cut off;
      it succeeds exactly when a 200 answer carried a summary. */
  lemma UncertainExactlyWhenAnswerLost(r: UpstreamResult, wrote: bool)
    ensures Classify(r, wrote).transportUncertain <==> wrote && AnswerCutOff(r)
    ensures Classify(r, wrote).errorCode == "" <==> r.Response? && r.status == 200 && r.summary.Summary?
  {
    if r.Response? && r.status != 200 {
      assert HttpFailureCode(r.status) != "";
    }
  }
}
