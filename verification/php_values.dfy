/**
  The slice of PHP's value model that the pool reads and writes: the values
  `json_decode($body, true)` can produce, the arrays the pool stores as error
  entries, `isset($v['error'])`, and `empty()` applied to a response body.
 */
module PhpValues {
  import opened Wrappers

  /** A PHP array key: integer or string. */
  datatype Key = IntKey(i: int) | StrKey(s: string)

  /** A PHP value. Floating-point numbers are kept as their textual form. */
  datatype Value =
    | Null
    | Bool(b: bool)
    | Int(i: int)
    | Float(repr: string)
    | Str(s: string)
    | Array(entries: seq<(Key, Value)>)

  /** The value stored under `k` in an array's entries (first match). */
  function Find(entries: seq<(Key, Value)>, k: Key): (r: Option<Value>)
    ensures r.Some? <==> exists i :: 0 <= i < |entries| && entries[i].0 == k
    ensures r.Some? ==> (k, r.value) in entries
    ensures forall i ::
      (0 <= i < |entries| && entries[i].0 == k && (forall j :: 0 <= j < i ==> entries[j].0 != k))
      ==> r == Some(entries[i].1)
  {
    if entries == [] then None
    else if entries[0].0 == k then Some(entries[0].1)
    else
      var r := Find(entries[1..], k);
      assert forall i :: 1 <= i < |entries| ==> entries[i] == entries[1..][i - 1];
      r
  }

  /** PHP's `isset($v[k])` for a string key `k`: only an array with a non-null
      entry under `k` qualifies (a string offset such as `$s['error']` is never set). */
  predicate IsSet(v: Value, k: string)
    ensures IsSet(v, k) ==> v.Array? && exists x :: x != Null && (StrKey(k), x) in v.entries
    ensures v.Array? && (forall i :: 0 <= i < |v.entries| ==> v.entries[i].0 != StrKey(k)) ==> !IsSet(v, k)
    ensures v.Array? ==> forall i ::
      (0 <= i < |v.entries| && v.entries[i].0 == StrKey(k) && (forall j :: 0 <= j < i ==> v.entries[j].0 != StrKey(k)))
      ==> (IsSet(v, k) <==> v.entries[i].1 != Null)
  {
    v.Array? && Find(v.entries, StrKey(k)).Some? && Find(v.entries, StrKey(k)).value != Null
  }

  /** `$v[k]` for an entry known to be set. */
  function Index(v: Value, k: string): Value
    requires IsSet(v, k)
  {
    Find(v.entries, StrKey(k)).value
  }

  /** PHP's `empty()` on a string: true exactly for "" and "0". */
  predicate EmptyString(s: string)
    ensures EmptyString(s) <==> |s| == 0 || (|s| == 1 && s[0] == '0')
  {
    s == "" || s == "0"
  }

  /** `["error" => msg]`: the entry the pool stores for a failed endpoint. */
  function ErrorEntry(msg: string): (r: Value)
    ensures IsSet(r, "error") && Index(r, "error") == Str(msg)
  {
    Array([(StrKey("error"), Str(msg))])
  }

  /** `["raw" => body]`: the decoder's fallback for a body that does not parse. */
  function RawEntry(body: string): (r: Value)
    ensures !IsSet(r, "error")
    ensures r.Array? && Find(r.entries, StrKey("raw")) == Some(Str(body))
  {
    Array([(StrKey("raw"), Str(body))])
  }
}
