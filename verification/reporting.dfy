/**
  The error/success split of APIpool::processResponses: each stored entry, in
  key order, is reported as an error when `isset($response['error'])` holds and
  as a response otherwise. The text of the console and log lines is not modelled.
 */
module Reporting {
  import opened PhpValues
  import opened OrderedMap

  /** One reported entry: the endpoint and either `$response['error']` or the whole response. */
  datatype ReportLine =
    | ErrorLine(endpoint: string, error: Value)
    | ResponseLine(endpoint: string, response: Value)

  /** The report for the entries under `order`, in that order. */
  function ReportLines(order: seq<string>, values: map<string, Value>): (lines: seq<ReportLine>)
    requires forall k :: k in order ==> k in values
    ensures |lines| == |order|
    ensures forall i :: 0 <= i < |lines| ==> lines[i].endpoint == order[i]
    ensures forall i :: 0 <= i < |lines| ==> (lines[i].ErrorLine? <==> IsSet(values[order[i]], "error"))
    ensures forall i :: 0 <= i < |lines| && lines[i].ErrorLine? ==> lines[i].error == Index(values[order[i]], "error")
    ensures forall i :: 0 <= i < |lines| && lines[i].ResponseLine? ==> lines[i].response == values[order[i]]
  {
    if order == [] then []
    else
      var endpoint := order[0];
      var response := values[endpoint];
      var line :=
        if IsSet(response, "error") then ErrorLine(endpoint, Index(response, "error"))
        else ResponseLine(endpoint, response);
      [line] + ReportLines(order[1..], values)
  }

  /** APIpool::processResponses: one line per stored entry, in key order. */
  function ProcessResponses(responses: OMap<Value>): (lines: seq<ReportLine>)
    requires Valid(responses)
    ensures |lines| == |responses.keys|
    ensures forall i :: 0 <= i < |lines| ==> lines[i].endpoint == responses.keys[i]
    ensures forall i :: 0 <= i < |lines| ==>
      (lines[i].ErrorLine? <==> IsSet(responses.values[responses.keys[i]], "error"))
    ensures forall i :: 0 <= i < |lines| && lines[i].ErrorLine? ==>
      lines[i].error == Index(responses.values[responses.keys[i]], "error")
    ensures forall i :: 0 <= i < |lines| && lines[i].ResponseLine? ==>
      lines[i].response == responses.values[responses.keys[i]]
  {
    ReportLines(responses.keys, responses.values)
  }
}
