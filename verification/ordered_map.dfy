/**
  A PHP array with string keys, as the pool uses for `$curlHandles` and
  `$this->responses`: an insertion order over a map. Assigning `$a[$k] = $v`
  overwrites the value in place when `$k` is present and appends `$k` to the
  order otherwise, so iteration follows first insertion.
 */
module OrderedMap {
  import opened Wrappers

  datatype OMap<V> = OMap(keys: seq<string>, values: map<string, V>)

  ghost predicate Distinct(s: seq<string>)
  {
    forall i, j :: 0 <= i < j < |s| ==> s[i] != s[j]
  }

  /** Every key is listed once in the order, and the order lists exactly the stored keys. */
  ghost predicate Valid<V>(m: OMap<V>)
  {
    && Distinct(m.keys)
    && forall k :: k in m.values <==> k in m.keys
  }

  /** `[]`. */
  function Empty<V>(): (m: OMap<V>)
    ensures Valid(m) && m.keys == []
  {
    OMap([], map[])
  }

  /** `$m[$k] ?? null`: the value under `k`, if any. */
  function Get<V>(m: OMap<V>, k: string): Option<V>
  {
    if k in m.values then Some(m.values[k]) else None
  }

  /** `$m[$k] = $v`. */
  function Put<V>(m: OMap<V>, k: string, v: V): (r: OMap<V>)
    requires Valid(m)
    ensures Valid(r)
    ensures r.keys == if k in m.keys then m.keys else m.keys + [k]
    ensures Get(r, k) == Some(v)
    ensures forall k' :: k' != k ==> Get(r, k') == Get(m, k')
  {
    if k in m.values then OMap(m.keys, m.values[k := v])
    else OMap(m.keys + [k], m.values[k := v])
  }

  /**
    The key order of an array whose keys were `keys` after assigning, in turn,
    to every key of `inserted`: keys already present keep their place, new
    ones are appended in the order they are first assigned.
   */
  function InsertionOrder(keys: seq<string>, inserted: seq<string>): seq<string>
  {
    if inserted == [] then keys
    else
      var before := InsertionOrder(keys, inserted[..|inserted| - 1]);
      var k := inserted[|inserted| - 1];
      if k in before then before else before + [k]
  }

  lemma {:induction false} InsertionOrderContents(keys: seq<string>, inserted: seq<string>)
    ensures forall x :: x in InsertionOrder(keys, inserted) <==> x in keys || x in inserted
    ensures Distinct(keys) ==> Distinct(InsertionOrder(keys, inserted))
    ensures keys <= InsertionOrder(keys, inserted)
  {
    if inserted != [] {
      var init := inserted[..|inserted| - 1];
      InsertionOrderContents(keys, init);
      assert inserted == init + [inserted[|inserted| - 1]];
    }
  }

  /** Assigning only to keys that are already present changes no position. */
  lemma {:induction false} InsertionOrderNoNewKeys(keys: seq<string>, inserted: seq<string>)
    requires forall x :: x in inserted ==> x in keys
    ensures InsertionOrder(keys, inserted) == keys
  {
    if inserted != [] {
      var init := inserted[..|inserted| - 1];
      assert forall x :: x in init ==> x in inserted;
      InsertionOrderNoNewKeys(keys, init);
      assert inserted[|inserted| - 1] in inserted;
    }
  }

  /**
    Assigning to the keys of a duplicate-free sequence `order`, starting from an
    array whose keys are a prefix of `order`, yields exactly `order`.
   */
  lemma {:induction false} InsertionOrderFromPrefix(keys: seq<string>, order: seq<string>)
    requires Distinct(order)
    requires keys <= order
    ensures InsertionOrder(keys, order) == order
  {
    if order == [] {
    } else if |keys| == |order| {
      assert keys == order;
      InsertionOrderNoNewKeys(keys, order);
    } else {
      var n := |order| - 1;
      var init := order[..n];
      assert keys <= init;
      InsertionOrderFromPrefix(keys, init);
      assert order[n] !in init by {
        forall j | 0 <= j < n ensures init[j] != order[n] {
          assert init[j] == order[j];
        }
      }
      assert init + [order[n]] == order;
    }
  }

  /** Two arrays with the same key order and the same value under every key are equal. */
  lemma Extensionality<V>(a: OMap<V>, b: OMap<V>)
    requires Valid(a) && Valid(b)
    requires a.keys == b.keys
    requires forall k :: k in a.keys ==> Get(a, k) == Get(b, k)
    ensures a == b
  {
    assert a.values == b.values by {
      forall k | k in a.values ensures a.values[k] == b.values[k] {
        assert Get(a, k) == Get(b, k);
      }
    }
  }
}
