/**
 * What a page receives from the server and what it hands to the notification banner.
 * An awaited axios call either resolves with a status and a body or rejects with an
 * error; every page turns a rejection into one error notification.
 */
module Outcomes {
  import opened Optional
  import opened Text

  datatype Kind = Success | Error | Info

  /** One call of `showNotification(message, kind)`. */
  datatype Notice = Notice(message: string, kind: Kind)

  /**
   * An axios rejection: its `code`, its `message` and, when the server answered,
   * the `message` field of the response body ("" when the body has none).
   */
  datatype HttpError = HttpError(code: string, message: string, response: Option<string>)

  /** The outcome of one awaited request. */
  datatype Response<T> = Ok(status: int, data: T) | Err(error: HttpError)

  /** The text shown while the backend is still starting up. */
  const WaitMessage: string := "HATA: Veriler veritabanından çekiliyor. Lütfen bekleyiniz..."

  /** A timeout or a connection failure, as opposed to an error status from the server. */
  predicate IsNetworkError(e: HttpError) {
    e.code == "ECONNABORTED" || Contains(e.message, "timeout") || Contains(e.message, "Network Error")
  }

  /**
   * `${context}: ${error.response.data.message || error.message}` when the server answered,
   * the bare context when it did not.
   */
  function ResponseMessage(context: string, e: HttpError): (r: string)
    ensures |context| <= |r| && r[..|context|] == context
    ensures e.response.None? ==> r == context
    ensures e.response.Some? && e.response.value != "" ==>
      |e.response.value| <= |r| && r[|r| - |e.response.value|..] == e.response.value
  {
    match e.response
    case None => context
    case Some(m) =>
      var detail := if m != "" then m else e.message;
      var r := context + ": " + detail;
      assert r[|r| - |detail|..] == detail;
      r
  }

  /** The Books page's three-way branch: a network failure is reported first, whatever the server sent. */
  function DescribeWithNetwork(context: string, e: HttpError): (n: Notice)
    ensures n.kind == Error
    ensures IsNetworkError(e) ==> n.message == WaitMessage
    ensures !IsNetworkError(e) ==> n.message == ResponseMessage(context, e)
  {
    if IsNetworkError(e) then Notice(WaitMessage, Error) else Notice(ResponseMessage(context, e), Error)
  }

  /** `${context}: ${error.message}`, the report of the Publishers and Categories pages. */
  function DescribeMessage(context: string, e: HttpError): (n: Notice)
    ensures n.kind == Error && |context| <= |n.message| && n.message[..|context|] == context
  {
    Notice(context + ": " + e.message, Error)
  }
}
