# APIpool — a Dafny model of the fetch-and-aggregate core

`APIpool` is a PHP class. It keeps a list of endpoint URLs and fetches all of
them concurrently with curl. It classifies each finished request as a transport
error, an HTTP error, an invalid body or a decoded JSON payload, and stores the
result in a `responses` array keyed by endpoint. `run()` then reports each
stored entry as an error or as a response.

This project models the decision and aggregation logic of that class as pure
functions over immutable data:

- `php_values.dfy` (`PhpValues`): the PHP values the pool stores. It also
  defines `isset($v['error'])`, `empty()` on a string, and the
  `["error" => …]` and `["raw" => …]` entries.
- `ordered_map.dfy` (`OrderedMap`): a PHP array with string keys, as an
  insertion order over a map. `Valid` is the representation invariant that
  every PHP array satisfies: each key is listed once, and the order lists
  exactly the stored keys. `Put` is `$a[$k] = $v`: it overwrites in place or
  appends.
- `decimal.dfy` (`Decimal`): how PHP writes an integer into a string, used
  for `"HTTP status code $http_code"`, together with its inverse.
- `response.dfy` (`Response`): `validateResponse` and `processResponse`.
- `classification.dfy` (`Classification`): the per-handle decision in
  `fetchData`. It also has a reference classification (`OutcomeOf`) written in
  plain precedence order.
- `aggregation.dfy` (`Aggregation`): the two loops of `fetchData`. The first
  builds the handle array, the second walks it and assigns each result.
- `reporting.dfy` (`Reporting`): the error/response split of
  `processResponses`.
- `api_pool.dfy` (`ApiPool`): the object state, `addEndpoint`,
  `getEndpoints`, `fetchData` and `run`, and the invariant every reachable
  state keeps across runs.

Foreign calls are parameters:

- `isValidUrl: string -> bool` stands for `filter_var($url, FILTER_VALIDATE_URL)`.
- `json: JsonParser` stands for PHP's JSON parser, with one function per mode.
  `json.objectModeError(b)` is the code `json_last_error()` reports after
  `json_decode(b)`, which `validateResponse` calls. `json.assocMode(b)` is the
  value and code of `json_decode(b, true)`, which `processResponse` calls.
  The two modes can disagree. Object mode also rejects an object whose
  property name starts with a NUL byte, which array mode accepts; such a 200
  body is stored as "Invalid response".
- The transport is a sequence `obs` with one `Observation` per handle. An
  observation holds `curl_errno`, `curl_error`, the HTTP code and the body.
  The handle for the endpoint at position `i` of the list reports `obs[i]`.

Behaviour worth noting:

- The code never clears `responses` between runs. `StaleResponsesUnobservable`
  proves that, from every reachable state, this cannot be observed.
- A 200 body that is not JSON is stored as `"Invalid response"`, because
  validation rejects it before decoding is tried. The `["raw" => …]` fallback
  of `processResponse` is therefore unreachable from `fetchData`
  (`RawFallbackUnreachable`).
- The body `"0"` is rejected, because PHP's `empty("0")` is true.
- For a repeated URL, the key keeps the position of its first occurrence. The
  value comes from the handle of its last occurrence.

## Model

| member | source | states |
|---|---|---|
| ApiPool.InitialConsistent | APIpool.php:29-31 | a new pool has no endpoints and an empty responses array, and it satisfies the reachable-state invariant |
| ApiPool.AddEndpoint | APIpool.php:36-43 | an accepted URL is appended after the existing endpoints, which stay unchanged; a rejected URL leaves the pool exactly as it was; responses are never touched |
| ApiPool.RegistryKeepsSubmissionOrder | APIpool.php:36-47 | after any series of addEndpoint calls, getEndpoints returns the earlier list followed by exactly the accepted URLs in submission order, repeats included |
| ApiPool.GetEndpoints | APIpool.php:45-47 | returns the stored list element for element: no deduplication and no reordering (RegistryKeepsSubmissionOrder relates it to the calls that built it) |
| ApiPool.DuplicatesKept | APIpool.php:38-47 | registering the same valid URL twice lists it twice (no deduplication) |
| Response.ValidateResponse | APIpool.php:130-138 | the bodies "" and "0" are invalid whatever the parser says; any other body is valid iff object-mode json_decode reports JSON_ERROR_NONE |
| PhpValues.EmptyString | APIpool.php:132 | PHP's empty() on a string holds exactly for the empty string and the one-character string "0" |
| PhpValues.IsSet | APIpool.php:111 | isset($v['error']) holds exactly for an array whose first entry under that key is non-null: never for a non-array or when the key is absent, and, when the key is present, iff its first entry is not null |
| Response.ProcessResponse | APIpool.php:99-107 | the array-mode decoded value when array-mode parsing reports no error, otherwise ["raw" => body], which never has 'error' set |
| Response.RawFallbackUnreachable | APIpool.php:80-81 | on a body that passed validation, and for which every array-mode error is also an object-mode error, processResponse returns the array-mode value, never the raw wrapper |
| Classification.Classify | APIpool.php:73-89 | the stored value equals the reference outcome's stored form; a transport error gives ["error" => curl message]; otherwise a 200 with a valid body gives processResponse's value, which is the array-mode payload when array mode rejects nothing object mode accepts; a 200 with an invalid body, including one only object mode rejects, gives ["error" => "Invalid response"], and any other status gives ["error" => "HTTP status code <code>"] |
| Classification.TransportErrorDominates | APIpool.php:74-77 | with a transport error, changing the status or the body does not change the stored value |
| Classification.HttpFailureIdentifiesStatus | APIpool.php:86-88 | for non-200 statuses without a transport error, two handles store the same value iff their status codes are equal |
| Classification.ErrorSetIff | APIpool.php:110-111 | the stored value has 'error' set iff the reference outcome is a failure, or a decoded payload that itself has a non-null "error" |
| Classification.ErrorFieldPayloadLooksLikeFailure | APIpool.php:77-81 | a 200 payload decoding to ["error" => m] is stored exactly like a transport failure with message m, and has 'error' set |
| Classification.ZeroBodyIsInvalidResponse | APIpool.php:83-85 | a 200 response with body "0" is stored as ["error" => "Invalid response"] for every parser |
| Decimal.IntToString | APIpool.php:88 | an integer interpolated into a string is written as an optional minus sign, present iff it is negative, followed by decimal digits with no leading zero |
| Decimal.IntRoundTrip | APIpool.php:88 | the decimal text of the status code reads back as the same integer |
| Decimal.IntToStringInjective | APIpool.php:88 | distinct status codes give distinct texts |
| OrderedMap.Put | APIpool.php:62 | array assignment keeps the array valid; an existing key keeps its position and a new key is appended; the key now maps to the new value and every other key is unchanged |
| OrderedMap.Extensionality | APIpool.php:72-89 | two arrays with the same key order and the same value under every key are the same array |
| PhpValues.ErrorEntry | APIpool.php:77 | ["error" => msg] has 'error' set and maps it to msg, including when msg is empty |
| PhpValues.RawEntry | APIpool.php:105 | ["raw" => body] holds the body under "raw" and does not have 'error' set |
| Aggregation.DedupFirstOccurrence | APIpool.php:62 | the key order of a PHP array filled from a list lists each element once, nothing else, ordered by first occurrence |
| Aggregation.BuildHandles | APIpool.php:54-64 | the handle array's keys are the distinct endpoints in first-occurrence order, and every handle names a position in the endpoint list |
| Aggregation.HandleOfLastOccurrence | APIpool.php:54-62 | a registered URL keeps the handle of its last occurrence; an unregistered one has no handle |
| Aggregation.CollectResults | APIpool.php:72-89 | walking the handles sets each visited endpoint to its own handle's classification; new keys are appended in walk order and untouched keys keep their old values |
| Reporting.ReportLines | APIpool.php:110-116 | one line per entry, in key order; a line is an error line iff the entry has 'error' set; an error line carries $response['error'] and a response line carries the whole entry |
| Reporting.ProcessResponses | APIpool.php:109-118 | one report line per stored key, in key order; it is an error line iff that entry has 'error' set; an error line carries the entry's 'error' value and a response line carries the whole entry |
| ApiPool.FetchData | APIpool.php:50-96 | fetching keeps the endpoints, keeps responses a valid array, appends newly seen endpoints to its key order, and leaves entries of unregistered keys unchanged |
| ApiPool.FetchedValue | APIpool.php:62-89 | after a fetch every registered endpoint holds the classification of its last occurrence's handle |
| ApiPool.AddEndpointKeepsConsistent | APIpool.php:36-43 | adding an endpoint keeps the reachable-state invariant: the response keys are a prefix of the distinct endpoints |
| ApiPool.FetchKeysAreDistinctEndpoints | APIpool.php:72-89 | from a reachable state, the response keys after a fetch are exactly the distinct endpoints in first-registration order, although nothing is cleared |
| ApiPool.StaleResponsesUnobservable | APIpool.php:29-31 | from a reachable state, fetching into the old responses gives the same array as fetching into an empty one |
| ApiPool.OverwrittenHandlesIgnored | APIpool.php:62-63 | observations of handles overwritten by a later duplicate never affect the responses |
| ApiPool.Run | APIpool.php:140-143 | a run keeps the endpoints, reports one line per stored key in key order, and every registered endpoint has a key (RunReportsEachEndpointOnce gives the full split) |
| ApiPool.RunReportsEachEndpointOnce | APIpool.php:140-143 | a run reports each distinct endpoint once, in first-registration order; a line is an error iff the last handle failed or its decoded payload has a non-null "error"; an error line carries the 'error' value of that handle's classification and a response line carries the classification itself |

## Left out

- Logging: `log`, its timestamps, levels and file appends, and every log call in the modelled methods. These are I/O; the unused `$logLevel`/`$logLevels` fields go with them.
- Console output in `processResponses`: `echo`, string concatenation of `$response['error']`, and `json_encode` pretty-printing. These are formatting. A report line keeps the value that would be printed.
- The curl multi handle: `curl_multi_init`, the `curl_multi_exec`/`curl_multi_select` polling loop, removing and closing handles, and the leaked handle of an overwritten duplicate. These are network I/O, concurrency and resource management. Each handle's outcome is given as an observation.
- `CURLOPT_TIMEOUT` and `CURLOPT_FAILONERROR`. How libcurl turns timeouts and status codes of 400 or above into `curl_errno` is outside the code; it shows up only through the observation.
- `sanitizeUrl`. It only changes the URL that is requested. The result key is always the unsanitized endpoint.
- The internals of URL validation and JSON parsing. They are function parameters.
- `curl_multi_getcontent` returning null rather than a string. The body is modelled as a string; `empty(null)` would reject it just as it rejects `""`.
- PHP's conversion of decimal-integer string keys to integer keys. URLs the validator accepts carry a scheme, so an endpoint key is never such a string.
- `isset` on a string offset: the model follows PHP 7.1 and later, where `$s['error']` is never set.
- ApiPool.FetchData: requires one observation per endpoint and a valid responses array. The loop creates exactly one handle per endpoint, and every PHP array is valid, so no state the class can reach is excluded.
- Response.RawFallbackUnreachable: takes as a hypothesis, per body, that array-mode json_decode rejects nothing object mode accepts. This is how PHP's parser behaves, but its internals are not modelled, so the model cannot derive it.
- Arrays inside a `Value` may list a key twice, which no PHP array does. The parser parameter is taken to return arrays with distinct keys (json_decode keeps the last of repeated object keys); no proof depends on this.
