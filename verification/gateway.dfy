/**
 * The network round-trip of the submit handler (`app.js` lines 108-119),
 * reduced to how its outcome is classified.  Whatever goes wrong inside the
 * `try` block ends in the same `catch`; a body that parses but lacks the two
 * fields is NOT an error: the missing fields read as `undefined`.
 */
module Gateway {
  import opened JsValues

  /** What the parsed response body yields for the two property reads. */
  datatype Body =
    | Unparsable                                              // `response.json()` rejects
    | JsonNull                                                // reading a property of null throws
    | Parsed(predictedDemand: JsValue, taxisRequired: JsValue)

  /** What the transport delivers: nothing at all, or a status and a body. */
  datatype Transport = NoResponse | Responded(status: int, body: Body)

  datatype GatewayError = Unreachable | ServerRejected(status: int) | BadBody

  datatype Outcome = Ok(demand: JsValue, taxis: JsValue) | Failed(reason: GatewayError)

  /** `response.ok`: the status is in the range 200-299. */
  predicate IsOkStatus(status: int)
  {
    200 <= status <= 299
  }

  /**
   * Success exactly when a 2xx response came back with a body whose property
   * reads do not throw; the two values are handed on unchanged, whatever they are.
   */
  function Interpret(t: Transport): (o: Outcome)
    ensures o.Ok? <==> t.Responded? && IsOkStatus(t.status) && t.body.Parsed?
    ensures o.Ok? ==> o.demand == t.body.predictedDemand && o.taxis == t.body.taxisRequired
    ensures t.NoResponse? ==> o == Failed(Unreachable)
    ensures t.Responded? && !IsOkStatus(t.status) ==> o == Failed(ServerRejected(t.status))
  {
    match t
    case NoResponse => Failed(Unreachable)
    case Responded(status, body) =>
      if !IsOkStatus(status) then Failed(ServerRejected(status))
      else
        match body
        case Parsed(d, x) => Ok(d, x)
        case _ => Failed(BadBody)
  }

  /** A 2xx response with the fields absent is a success carrying `undefined`, not an error. */
  lemma MissingFieldsAreNotAnError(status: int)
    requires IsOkStatus(status)
    ensures Interpret(Responded(status, Parsed(JUndefined, JUndefined))) == Ok(JUndefined, JUndefined)
  {
  }
}
