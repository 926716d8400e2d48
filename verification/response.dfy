/**
  Judging and decoding a response body (APIpool::validateResponse and
  APIpool::processResponse). The two methods call `json_decode` in different
  modes: validation calls `json_decode($response)`, which builds objects, and
  decoding calls `json_decode($response, true)`, which builds arrays. The modes
  can disagree on the error code: object mode also rejects an object whose
  property name starts with a NUL byte, which array mode accepts. So the parser
  is a pair of parameters, one per mode.
 */
module Response {
  import opened PhpValues

  /** PHP's JSON_ERROR_NONE. */
  const JSON_ERROR_NONE: int := 0

  /** The decoded value and the error code of one `json_decode` call. */
  datatype JsonDecode = JsonDecode(value: Value, lastError: int)

  /**
    `objectModeError(b)`: the code `json_last_error()` reports after
    `json_decode(b)`; `assocMode(b)`: what `json_decode(b, true)` returns,
    with the code reported after it.
   */
  datatype JsonParser = JsonParser(objectModeError: string -> int, assocMode: string -> JsonDecode)

  /**
    What PHP's parser guarantees for a body: every body array mode rejects,
    object mode rejects too (object mode rejects strictly more).
   */
  predicate AssocErrorIsObjectError(json: JsonParser, body: string)
  {
    json.assocMode(body).lastError != JSON_ERROR_NONE ==> json.objectModeError(body) != JSON_ERROR_NONE
  }

  /** APIpool::validateResponse: non-empty in PHP's sense and parses in object mode without error. */
  function ValidateResponse(body: string, json: JsonParser): (ok: bool)
    ensures body == "" || body == "0" ==> !ok
    ensures body != "" && body != "0" ==> (ok <==> json.objectModeError(body) == JSON_ERROR_NONE)
  {
    if EmptyString(body) then false
    else json.objectModeError(body) == JSON_ERROR_NONE
  }

  /** APIpool::processResponse: the array-mode decoded value, or `["raw" => body]` when parsing fails. */
  function ProcessResponse(body: string, json: JsonParser): (r: Value)
    ensures json.assocMode(body).lastError == JSON_ERROR_NONE ==> r == json.assocMode(body).value
    ensures json.assocMode(body).lastError != JSON_ERROR_NONE ==> r == RawEntry(body) && !IsSet(r, "error")
  {
    var decoded := json.assocMode(body);
    if decoded.lastError == JSON_ERROR_NONE then decoded.value
    else RawEntry(body)
  }

  /**
    Once a body has passed validation, decoding it never takes the raw
    fallback, because every body array mode rejects is rejected by object
    mode as well.
   */
  lemma RawFallbackUnreachable(body: string, json: JsonParser)
    requires ValidateResponse(body, json)
    requires AssocErrorIsObjectError(json, body)
    ensures ProcessResponse(body, json) == json.assocMode(body).value
    ensures json.assocMode(body).lastError == JSON_ERROR_NONE
  {
  }
}
