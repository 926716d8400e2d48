/**
  The APIpool object: the registered endpoints and the responses map, with
  addEndpoint, getEndpoints, fetchData and run. The URL validator
  (`filter_var(.., FILTER_VALIDATE_URL)`), the JSON parser and the transport
  are parameters.
 */
module ApiPool {
  import opened Wrappers
  import opened PhpValues
  import opened OrderedMap
  import opened Response
  import opened Classification
  import opened Aggregation
  import opened Reporting

  datatype Pool = Pool(endpoints: seq<string>, responses: OMap<Value>)

  /** The state APIpool::__construct leaves behind. */
  const Initial: Pool := Pool([], Empty())

  /** APIpool::addEndpoint: append a URL the validator accepts, ignore any other. */
  function AddEndpoint(p: Pool, url: string, isValidUrl: string -> bool): (r: Pool)
    ensures isValidUrl(url) ==> r.endpoints == p.endpoints + [url]
    ensures !isValidUrl(url) ==> r == p
    ensures r.responses == p.responses
  {
    if isValidUrl(url) then p.(endpoints := p.endpoints + [url]) else p
  }

  /** APIpool::getEndpoints. */
  function GetEndpoints(p: Pool): (es: seq<string>)
    ensures |es| == |p.endpoints| && forall i :: 0 <= i < |es| ==> es[i] == p.endpoints[i]
  {
    p.endpoints
  }

  /** Calling addEndpoint on each of `urls` in turn. */
  function AddEndpoints(p: Pool, urls: seq<string>, isValidUrl: string -> bool): Pool
  {
    if urls == [] then p
    else AddEndpoint(AddEndpoints(p, urls[..|urls| - 1], isValidUrl), urls[|urls| - 1], isValidUrl)
  }

  /** The accepted URLs of `urls`, in order, repeats included. */
  function Accepted(urls: seq<string>, isValidUrl: string -> bool): (a: seq<string>)
    ensures forall u :: u in a <==> u in urls && isValidUrl(u)
  {
    if urls == [] then []
    else
      var n := |urls| - 1;
      assert urls == urls[..n] + [urls[n]];
      Accepted(urls[..n], isValidUrl) + (if isValidUrl(urls[n]) then [urls[n]] else [])
  }

  /** getEndpoints returns the accepted URLs in submission order, without
      dropping repeats; rejected URLs leave no trace. */
  lemma {:induction false} RegistryKeepsSubmissionOrder(p: Pool, urls: seq<string>, isValidUrl: string -> bool)
    ensures GetEndpoints(AddEndpoints(p, urls, isValidUrl)) == p.endpoints + Accepted(urls, isValidUrl)
    ensures AddEndpoints(p, urls, isValidUrl).responses == p.responses
  {
    if urls != [] {
      RegistryKeepsSubmissionOrder(p, urls[..|urls| - 1], isValidUrl);
    }
  }

  /** Registering a valid URL twice lists it twice. */
  lemma DuplicatesKept(p: Pool, url: string, isValidUrl: string -> bool)
    requires isValidUrl(url)
    ensures GetEndpoints(AddEndpoint(AddEndpoint(p, url, isValidUrl), url, isValidUrl)) == p.endpoints + [url, url]
  {
  }

  /** APIpool::fetchData with the transport's report for handle `i` given as `obs[i]`. */
  function FetchData(p: Pool, obs: seq<Observation>, json: JsonParser): (r: Pool)
    requires Valid(p.responses)
    requires |obs| == |p.endpoints|
    ensures r.endpoints == p.endpoints
    ensures Valid(r.responses)
    ensures r.responses.keys == InsertionOrder(p.responses.keys, Dedup(p.endpoints))
    ensures forall e :: e !in p.endpoints ==> Get(r.responses, e) == Get(p.responses, e)
  {
    var handles := BuildHandles(p.endpoints);
    DedupFirstOccurrence(p.endpoints);
    p.(responses := CollectResults(handles.keys, handles, obs, json, p.responses))
  }

  /** After a fetch, every registered endpoint holds the classification of the
      handle made for its last occurrence. */
  lemma FetchedValue(p: Pool, obs: seq<Observation>, json: JsonParser, e: string)
    requires Valid(p.responses)
    requires |obs| == |p.endpoints|
    requires e in p.endpoints
    ensures Get(FetchData(p, obs, json).responses, e) == Some(Classify(obs[LastIndex(p.endpoints, e)], json))
  {
    DedupFirstOccurrence(p.endpoints);
    HandleOfLastOccurrence(p.endpoints, e);
  }

  /**
    The invariant of every reachable pool: the keys of `responses` are a prefix
    of the distinct registered endpoints in first-occurrence order. It holds
    initially and is kept by addEndpoint (endpoints are only appended) and by
    fetchData.
   */
  ghost predicate Consistent(p: Pool)
  {
    Valid(p.responses) && p.responses.keys <= Dedup(p.endpoints)
  }

  lemma InitialConsistent()
    ensures Initial.endpoints == [] && Initial.responses.keys == []
    ensures Consistent(Initial)
  {
  }

  lemma AddEndpointKeepsConsistent(p: Pool, url: string, isValidUrl: string -> bool)
    requires Consistent(p)
    ensures Consistent(AddEndpoint(p, url, isValidUrl))
  {
    if isValidUrl(url) {
      var e := p.endpoints + [url];
      assert e[..|e| - 1] == p.endpoints;
      InsertionOrderContents(Dedup(p.endpoints), [url]);
    }
  }

  /**
    Though fetchData never clears `responses`, after a fetch from a reachable
    state its keys are exactly the distinct registered endpoints, in order of
    first registration.
   */
  lemma FetchKeysAreDistinctEndpoints(p: Pool, obs: seq<Observation>, json: JsonParser)
    requires Consistent(p)
    requires |obs| == |p.endpoints|
    ensures FetchData(p, obs, json).responses.keys == Dedup(p.endpoints)
    ensures Consistent(FetchData(p, obs, json))
  {
    DedupFirstOccurrence(p.endpoints);
    InsertionOrderFromPrefix(p.responses.keys, Dedup(p.endpoints));
  }

  /** Keeping the previous run's responses makes no difference: the result is
      the one a fetch into an empty array gives. */
  lemma StaleResponsesUnobservable(p: Pool, obs: seq<Observation>, json: JsonParser)
    requires Consistent(p)
    requires |obs| == |p.endpoints|
    ensures FetchData(p, obs, json).responses == FetchData(p.(responses := Empty()), obs, json).responses
  {
    var cleared := p.(responses := Empty());
    FetchKeysAreDistinctEndpoints(p, obs, json);
    FetchKeysAreDistinctEndpoints(cleared, obs, json);
    var a := FetchData(p, obs, json).responses;
    var b := FetchData(cleared, obs, json).responses;
    DedupFirstOccurrence(p.endpoints);
    forall k | k in a.keys ensures Get(a, k) == Get(b, k) {
      FetchedValue(p, obs, json, k);
      FetchedValue(cleared, obs, json, k);
    }
    Extensionality(a, b);
  }

  /** Only the handle made for an endpoint's last occurrence matters: reports
      for the overwritten handles of repeated URLs never reach `responses`. */
  lemma OverwrittenHandlesIgnored(p: Pool, obs: seq<Observation>, obs': seq<Observation>, json: JsonParser)
    requires Consistent(p)
    requires |obs| == |obs'| == |p.endpoints|
    requires forall e :: e in p.endpoints ==> obs[LastIndex(p.endpoints, e)] == obs'[LastIndex(p.endpoints, e)]
    ensures FetchData(p, obs, json).responses == FetchData(p, obs', json).responses
  {
    FetchKeysAreDistinctEndpoints(p, obs, json);
    FetchKeysAreDistinctEndpoints(p, obs', json);
    var a := FetchData(p, obs, json).responses;
    var b := FetchData(p, obs', json).responses;
    DedupFirstOccurrence(p.endpoints);
    forall k | k in a.keys ensures Get(a, k) == Get(b, k) {
      FetchedValue(p, obs, json, k);
      FetchedValue(p, obs', json, k);
    }
    Extensionality(a, b);
  }

  /** APIpool::run: fetch, then report every stored entry. */
  function Run(p: Pool, obs: seq<Observation>, json: JsonParser): (r: (Pool, seq<ReportLine>))
    requires Valid(p.responses)
    requires |obs| == |p.endpoints|
    ensures r.0.endpoints == p.endpoints && Valid(r.0.responses)
    ensures |r.1| == |r.0.responses.keys|
    ensures forall i :: 0 <= i < |r.1| ==> r.1[i].endpoint == r.0.responses.keys[i]
    ensures forall e :: e in p.endpoints ==> e in r.0.responses.keys
  {
    var q := FetchData(p, obs, json);
    DedupFirstOccurrence(p.endpoints);
    InsertionOrderContents(p.responses.keys, Dedup(p.endpoints));
    (q, ProcessResponses(q.responses))
  }

  /**
    A run from a reachable state reports each distinct endpoint once, in order
    of first registration, and reports it as an error exactly when its last
    handle failed (transport error, status other than 200, invalid body) or
    its decoded payload carries a non-null "error" field.
   */
  lemma RunReportsEachEndpointOnce(p: Pool, obs: seq<Observation>, json: JsonParser)
    requires Consistent(p)
    requires |obs| == |p.endpoints|
    ensures var lines := Run(p, obs, json).1;
      && |lines| == |Dedup(p.endpoints)|
      && forall i :: 0 <= i < |lines| ==>
        && lines[i].endpoint == Dedup(p.endpoints)[i]
        && lines[i].endpoint in p.endpoints
        && (var out := OutcomeOf(obs[LastIndex(p.endpoints, lines[i].endpoint)], json);
              lines[i].ErrorLine? <==> !out.Decoded? || IsSet(out.payload, "error"))
        && (var stored := Classify(obs[LastIndex(p.endpoints, lines[i].endpoint)], json);
              && (lines[i].ErrorLine? ==> IsSet(stored, "error") && lines[i].error == Index(stored, "error"))
              && (lines[i].ResponseLine? ==> lines[i].response == stored))
  {
    var q := FetchData(p, obs, json);
    var lines := ProcessResponses(q.responses);
    FetchKeysAreDistinctEndpoints(p, obs, json);
    DedupFirstOccurrence(p.endpoints);
    forall i | 0 <= i < |lines|
      ensures lines[i].endpoint in p.endpoints
      ensures var out := OutcomeOf(obs[LastIndex(p.endpoints, lines[i].endpoint)], json);
        (lines[i].ErrorLine? <==> !out.Decoded? || IsSet(out.payload, "error"))
      ensures var stored := Classify(obs[LastIndex(p.endpoints, lines[i].endpoint)], json);
        && (lines[i].ErrorLine? ==> IsSet(stored, "error") && lines[i].error == Index(stored, "error"))
        && (lines[i].ResponseLine? ==> lines[i].response == stored)
    {
      var e := q.responses.keys[i];
      assert e in Dedup(p.endpoints);
      FetchedValue(p, obs, json, e);
      ErrorSetIff(obs[LastIndex(p.endpoints, e)], json);
    }
  }
}
