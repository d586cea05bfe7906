/**
  What every request-backed store slice shares: a request goes pending,
  then settles as fulfilled or rejected, and a rejection leaves a message
  taken from the rejection payload or the request's own default.
*/
module AsyncThunk {
  import opened Common

  /** The lifecycle event of one request. */
  datatype Phase = Pending | Fulfilled | Rejected

  /**
    The message a rejection leaves: the payload's `error` field when it is
    a non-empty text, otherwise the fallback. An absent payload or field is
    `None`.
  */
  function RejectionMessage(payloadError: Option<string>, fallback: string): (m: string)
    ensures payloadError.Some? && payloadError.value != "" ==> m == payloadError.value
    ensures payloadError.None? || payloadError.value == "" ==> m == fallback
    ensures fallback != "" ==> m != ""
  {
    match payloadError
    case Some(e) => if e != "" then e else fallback
    case None => fallback
  }

  /** The error field is either cleared or a message someone can read. */
  predicate ValidError(e: Option<string>) {
    e.None? || e.value != ""
  }
}
