/**
 * The two exception renderers registered in backend/bootstrap/app.php:
 * a validation failure and an HTTP abort each become an envelope with
 * empty data. Also the summary message the framework gives a validation
 * failure.
 */
module ExceptionRendering {
  import opened Helpers
  import Input
  import HttpConstants

  datatype Exception =
    | ValidationException(message: string, errors: seq<FieldErrors>)
    | HttpException(status: int, message: string)

  /** The exception `abort()` raises. */
  function FromAbort(e: HttpError): Exception
  {
    HttpException(e.status, e.message)
  }

  function AllMessages(errors: seq<FieldErrors>): seq<string>
  {
    if errors == [] then [] else errors[0].messages + AllMessages(errors[1..])
  }

  /** The framework's summary: the first message, then "(and N more error[s])" when there are others. */
  function Summarize(errors: seq<FieldErrors>): string
  {
    var all := AllMessages(errors);
    if all == [] then "The given data was invalid."
    else if |all| == 1 then all[0]
    else all[0] + " (and " + Input.IntToString(|all| - 1) + " more " + (if |all| == 2 then "error" else "errors") + ")"
  }

  /** The exception a failed validation throws. */
  function FromValidation(errors: seq<FieldErrors>): Exception
  {
    ValidationException(Summarize(errors), errors)
  }

  /** The render closures: empty data; 422 and the field map, or the abort's own status and `[message]`. */
  function Render(e: Exception): (r: Envelope)
    ensures r.data == NoData && r.message == e.message
    ensures e.ValidationException? ==> r.status == HttpConstants.UnprocessableEntity && r.errors == ByField(e.errors)
    ensures e.HttpException? ==> r.status == e.status && r.errors == Messages([e.message])
  {
    match e
    case ValidationException(message, errors) =>
      Envelope(NoData, message, HttpConstants.UnprocessableEntity, ByField(errors))
    case HttpException(status, message) =>
      Envelope(NoData, message, status, Messages([message]))
  }

  /** The response an abort ends in: its status on the wire and in the body, its message twice. */
  lemma AbortResponse(e: HttpError)
    ensures JsonResponse(Render(FromAbort(e))) == HttpResponse(e.status, Envelope(NoData, e.message, e.status, Messages([e.message])))
  {
  }

  /** A validation failure with a single message is summarised as that message. */
  lemma SummarizeSingleMessage(field: string, message: string)
    ensures Summarize([FieldErrors(field, [message])]) == message
  {
    assert AllMessages([FieldErrors(field, [message])]) == [message] by {
      assert AllMessages([FieldErrors(field, [message])][1..]) == [];
    }
  }
}
