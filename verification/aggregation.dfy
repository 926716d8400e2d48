/**
  Run aggregation in APIpool::fetchData. The first loop assigns one handle per
  registered endpoint into `$curlHandles[$endpoint]`; the second walks that
  array in key order and assigns each handle's classification to
  `$this->responses[$endpoint]`. A handle is named by the position of its
  endpoint in the registered list, and the transport's report for handle `i`
  is `obs[i]`.
 */
module Aggregation {
  import opened Wrappers
  import opened PhpValues
  import opened OrderedMap
  import opened Response
  import opened Classification

  /** The distinct elements of `s` in order of first occurrence. */
  function Dedup(s: seq<string>): seq<string>
  {
    InsertionOrder([], s)
  }

  /** Position of the first occurrence of `e` in `s`. */
  function FirstIndex(s: seq<string>, e: string): (i: nat)
    requires e in s
    ensures i < |s| && s[i] == e
    ensures forall j :: 0 <= j < i ==> s[j] != e
  {
    if s[0] == e then 0 else 1 + FirstIndex(s[1..], e)
  }

  /** Position of the last occurrence of `e` in `s`. */
  function LastIndex(s: seq<string>, e: string): (i: nat)
    requires e in s
    ensures i < |s| && s[i] == e
    ensures forall j :: i < j < |s| ==> s[j] != e
  {
    if s[|s| - 1] == e then |s| - 1
    else
      assert e in s[..|s| - 1] by {
        var j :| 0 <= j < |s| && s[j] == e;
        assert s[..|s| - 1][j] == e;
      }
      LastIndex(s[..|s| - 1], e)
  }

  /**
    `Dedup` lists every element once, nothing else, and in the order of the
    elements' first occurrences.
   */
  lemma {:induction false} DedupFirstOccurrence(s: seq<string>)
    ensures Distinct(Dedup(s))
    ensures forall x :: x in Dedup(s) <==> x in s
    ensures forall i, j :: 0 <= i < j < |Dedup(s)| ==> FirstIndex(s, Dedup(s)[i]) < FirstIndex(s, Dedup(s)[j])
  {
    InsertionOrderContents([], s);
    if s != [] {
      var n := |s| - 1;
      var init := s[..n];
      DedupFirstOccurrence(init);
      assert s == init + [s[n]];
      var d := Dedup(init);
      forall x | x in init ensures FirstIndex(s, x) == FirstIndex(init, x) && FirstIndex(s, x) < n {
        FirstIndexPrefix(s, n, x);
      }
      if s[n] !in d {
        assert Dedup(s) == d + [s[n]];
        assert FirstIndex(s, s[n]) == n by {
          forall j | 0 <= j < n ensures s[j] != s[n] {
            assert s[j] == init[j];
          }
        }
      }
    }
  }

  lemma {:induction false} FirstIndexPrefix(s: seq<string>, n: nat, x: string)
    requires n <= |s|
    requires x in s[..n]
    ensures FirstIndex(s, x) == FirstIndex(s[..n], x)
  {
    if s[0] != x {
      assert s[..n][1..] == s[1..][..n - 1];
      FirstIndexPrefix(s[1..], n - 1, x);
    }
  }

  /** `$curlHandles` after the first loop of fetchData: one handle per endpoint,
      a repeated URL overwriting the handle stored for it earlier. */
  function BuildHandles(endpoints: seq<string>): (h: OMap<nat>)
    ensures Valid(h)
    ensures h.keys == Dedup(endpoints)
    ensures forall k :: k in h.values ==> h.values[k] < |endpoints|
  {
    if endpoints == [] then Empty()
    else
      var n := |endpoints| - 1;
      Put<nat>(BuildHandles(endpoints[..n]), endpoints[n], n)
  }

  /** The handle kept for an endpoint is the one made for its last occurrence;
      a URL never registered has no handle. */
  lemma {:induction false} HandleOfLastOccurrence(endpoints: seq<string>, e: string)
    ensures e in endpoints ==> Get(BuildHandles(endpoints), e) == Some(LastIndex(endpoints, e))
    ensures e !in endpoints ==> Get(BuildHandles(endpoints), e) == None
  {
    if endpoints != [] {
      var n := |endpoints| - 1;
      HandleOfLastOccurrence(endpoints[..n], e);
      if e != endpoints[n] && e in endpoints {
        var j :| 0 <= j < |endpoints| && endpoints[j] == e;
        assert endpoints[..n][j] == e;
      }
      if e !in endpoints {
        assert forall x :: x in endpoints[..n] ==> x in endpoints;
      }
    }
  }

  /**
    `$this->responses` after the second loop of fetchData, started from `acc`:
    walking the handle array's keys `order`, each endpoint is assigned the
    classification of its handle; keys the walk does not reach keep their
    old values.
   */
  function CollectResults(order: seq<string>, handles: OMap<nat>, obs: seq<Observation>, json: JsonParser,
                          acc: OMap<Value>): (r: OMap<Value>)
    requires Valid(acc)
    requires forall k :: k in order ==> k in handles.values && handles.values[k] < |obs|
    ensures Valid(r)
    ensures r.keys == InsertionOrder(acc.keys, order)
    ensures forall k :: k in order ==> Get(r, k) == Some(Classify(obs[handles.values[k]], json))
    ensures forall k :: k !in order ==> Get(r, k) == Get(acc, k)
  {
    if order == [] then acc
    else
      var n := |order| - 1;
      var k := order[n];
      assert order == order[..n] + [k];
      var before := CollectResults(order[..n], handles, obs, json, acc);
      Put(before, k, Classify(obs[handles.values[k]], json))
  }

}
