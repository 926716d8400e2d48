/**
  Per-endpoint outcome classification: the body of the loop over
  `$curlHandles` in APIpool::fetchData. The transport is reduced to what the
  loop reads from one finished handle.
 */
module Classification {
  import opened PhpValues
  import opened Response
  import Decimal

  /** What `curl_errno`, `curl_error`, `curl_getinfo(.., CURLINFO_HTTP_CODE)`
      and `curl_multi_getcontent` report for one finished handle. */
  datatype Observation = Observation(errno: int, errorMessage: string, status: int, body: string)

  /** The four kinds of result an endpoint can have, in precedence order. */
  datatype Outcome =
    | TransportFailure(message: string)
    | HttpFailure(status: int)
    | InvalidBody
    | Decoded(payload: Value)

  /** Reference classification: transport error first, then a status other
      than 200, then an invalid body, else the decoded payload. */
  function OutcomeOf(o: Observation, json: JsonParser): Outcome
  {
    if o.errno != 0 then TransportFailure(o.errorMessage)
    else if o.status != 200 then HttpFailure(o.status)
    else if !ValidateResponse(o.body, json) then InvalidBody
    else Decoded(ProcessResponse(o.body, json))
  }

  /** The message stored for a status other than 200. */
  function StatusMessage(status: int): string
  {
    "HTTP status code " + Decimal.IntToString(status)
  }

  /** How each outcome is stored in `$this->responses`. */
  function Stored(out: Outcome): Value
  {
    match out
    case TransportFailure(m) => ErrorEntry(m)
    case HttpFailure(s) => ErrorEntry(StatusMessage(s))
    case InvalidBody => ErrorEntry("Invalid response")
    case Decoded(v) => v
  }

  /** The value fetchData stores for one handle, branch for branch as the loop body. */
  function Classify(o: Observation, json: JsonParser): (r: Value)
    ensures r == Stored(OutcomeOf(o, json))
    ensures o.errno != 0 ==> r == ErrorEntry(o.errorMessage)
    ensures o.errno == 0 && o.status == 200 && ValidateResponse(o.body, json) ==> r == ProcessResponse(o.body, json)
    ensures o.errno == 0 && o.status == 200 && ValidateResponse(o.body, json) && AssocErrorIsObjectError(json, o.body)
      ==> r == json.assocMode(o.body).value
    ensures o.errno == 0 && o.status == 200 && !EmptyString(o.body) && json.objectModeError(o.body) != JSON_ERROR_NONE
      ==> r == ErrorEntry("Invalid response")
    ensures o.errno == 0 && o.status == 200 && !ValidateResponse(o.body, json) ==> r == ErrorEntry("Invalid response")
    ensures o.errno == 0 && o.status != 200 ==> r == ErrorEntry(StatusMessage(o.status))
  {
    if o.errno != 0 then ErrorEntry(o.errorMessage)
    else if o.status == 200 && ValidateResponse(o.body, json) then ProcessResponse(o.body, json)
    else if o.status == 200 then ErrorEntry("Invalid response")
    else ErrorEntry("HTTP status code " + Decimal.IntToString(o.status))
  }

  /** A transport error decides the entry whatever status and body came with it. */
  lemma TransportErrorDominates(o: Observation, status: int, body: string, json: JsonParser)
    requires o.errno != 0
    ensures Classify(o.(status := status, body := body), json) == Classify(o, json)
  {
  }

  /** The entry stored for a status other than 200 determines the status. */
  lemma HttpFailureIdentifiesStatus(o1: Observation, o2: Observation, json: JsonParser)
    requires o1.errno == 0 && o1.status != 200
    requires o2.errno == 0 && o2.status != 200
    ensures Classify(o1, json) == Classify(o2, json) <==> o1.status == o2.status
  {
    if Classify(o1, json) == Classify(o2, json) {
      var p := "HTTP status code ";
      var a := Decimal.IntToString(o1.status);
      var b := Decimal.IntToString(o2.status);
      assert Index(Classify(o1, json), "error") == Str(p + a);
      assert p + a == p + b;
      assert (p + a)[|p|..] == a && (p + b)[|p|..] == b;
      Decimal.IntToStringInjective(o1.status, o2.status);
    }
  }

  /** The stored entry has `'error'` set exactly when the endpoint failed or
      when a successfully decoded payload itself carries a non-null `"error"`. */
  lemma ErrorSetIff(o: Observation, json: JsonParser)
    ensures IsSet(Classify(o, json), "error")
        <==> !OutcomeOf(o, json).Decoded? || IsSet(OutcomeOf(o, json).payload, "error")
  {
  }

  /** A 200 response whose body decodes without error to `["error" => m]` is stored exactly as
      a transport failure with message `m` is, and so is reported as an error. */
  lemma ErrorFieldPayloadLooksLikeFailure(o: Observation, json: JsonParser, m: string)
    requires o.errno == 0 && o.status == 200 && ValidateResponse(o.body, json)
    requires json.assocMode(o.body) == JsonDecode(ErrorEntry(m), JSON_ERROR_NONE)
    ensures Classify(o, json) == Classify(o.(errno := 1, errorMessage := m), json)
    ensures IsSet(Classify(o, json), "error")
  {
  }

  /** A 200 response whose body is "0" is stored as invalid, whatever the parser says. */
  lemma ZeroBodyIsInvalidResponse(o: Observation, json: JsonParser)
    requires o.errno == 0 && o.status == 200 && o.body == "0"
    ensures Classify(o, json) == ErrorEntry("Invalid response")
  {
  }
}
