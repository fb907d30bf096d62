/**
 * The two ways the modelled code turns a list into a map.
 *  - PutAll: a loop calling HashMap.put, where a later item overwrites an earlier one
 *    under the same key and an item may also be skipped or abort the loop.
 *  - Collect: Collectors.toMap, which rejects a key met twice.
 * Both walk the list from the front, so both are defined on the list minus its last item.
 */
module Indexing {
  import opened Wrappers

  /** Item i is stored under key k. */
  ghost predicate StoredAt<T, K>(items: seq<T>, keyOf: T -> Result<Option<K>>, i: int, k: K)
    requires 0 <= i < |items|
  {
    keyOf(items[i]) == Ok(Some(k))
  }

  /** The map a put-loop over items builds; the first failing item aborts it. */
  function PutAll<T, K(==)>(items: seq<T>, keyOf: T -> Result<Option<K>>): Result<map<K, T>>
    decreases |items|
  {
    if items == [] then Ok(map[])
    else
      var last := items[|items| - 1];
      match PutAll(items[..|items| - 1], keyOf)
      case Err(e) => Err(e)
      case Ok(m) =>
        match keyOf(last)
        case Err(e) => Err(e)
        case Ok(None) => Ok(m)
        case Ok(Some(k)) => Ok(m[k := last])
  }

  /** The put-loop fails exactly when some item fails, and it reports the first such failure. */
  lemma {:induction false} PutAllFails<T, K>(items: seq<T>, keyOf: T -> Result<Option<K>>)
    ensures PutAll(items, keyOf).Err? <==> exists i :: 0 <= i < |items| && keyOf(items[i]).Err?
    ensures PutAll(items, keyOf).Err? ==>
      exists i :: 0 <= i < |items| && keyOf(items[i]) == Err(PutAll(items, keyOf).error)
        && forall j :: 0 <= j < i ==> keyOf(items[j]).Ok?
    decreases |items|
  {
    if items != [] {
      var n := |items| - 1;
      var prefix := items[..n];
      PutAllFails(prefix, keyOf);
      assert forall i :: 0 <= i < n ==> prefix[i] == items[i];
      if PutAll(prefix, keyOf).Err? {
        var i :| 0 <= i < n && keyOf(prefix[i]) == Err(PutAll(prefix, keyOf).error)
          && forall j :: 0 <= j < i ==> keyOf(prefix[j]).Ok?;
        assert keyOf(items[i]) == Err(PutAll(items, keyOf).error);
      } else if keyOf(items[n]).Err? {
        assert forall j :: 0 <= j < n ==> keyOf(items[j]).Ok?;
      } else {
        forall i | 0 <= i < |items| ensures keyOf(items[i]).Ok? {
          if i < n { assert keyOf(prefix[i]).Ok?; }
        }
      }
    }
  }

  /**
   * A successful put-loop stores exactly the keys of the stored items, and each key
   * holds the LAST item stored under it.
   */
  lemma {:induction false} PutAllContents<T, K>(items: seq<T>, keyOf: T -> Result<Option<K>>)
    requires PutAll(items, keyOf).Ok?
    ensures forall k :: k in PutAll(items, keyOf).value <==>
      exists i :: 0 <= i < |items| && StoredAt(items, keyOf, i, k)
    ensures forall k :: k in PutAll(items, keyOf).value ==>
      exists i :: 0 <= i < |items| && StoredAt(items, keyOf, i, k)
        && PutAll(items, keyOf).value[k] == items[i]
        && forall j :: i < j < |items| ==> !StoredAt(items, keyOf, j, k)
    decreases |items|
  {
    if items != [] {
      var n := |items| - 1;
      var prefix := items[..n];
      var m := PutAll(prefix, keyOf).value;
      var m' := PutAll(items, keyOf).value;
      PutAllContents(prefix, keyOf);
      assert forall i :: 0 <= i < n ==> prefix[i] == items[i];
      assert forall i, k :: 0 <= i < n ==> (StoredAt(prefix, keyOf, i, k) <==> StoredAt(items, keyOf, i, k));
      forall k | k in m'
        ensures exists i :: (0 <= i < |items| && StoredAt(items, keyOf, i, k)
          && m'[k] == items[i]
          && forall j :: i < j < |items| ==> !StoredAt(items, keyOf, j, k))
      {
        if StoredAt(items, keyOf, n, k) {
          assert m'[k] == items[n];
        } else {
          assert k in m && m'[k] == m[k];
          var i :| 0 <= i < n && StoredAt(prefix, keyOf, i, k) && m[k] == prefix[i]
            && forall j :: i < j < n ==> !StoredAt(prefix, keyOf, j, k);
          assert StoredAt(items, keyOf, i, k);
        }
      }
      forall k | exists i :: 0 <= i < |items| && StoredAt(items, keyOf, i, k)
        ensures k in m'
      {
        var i :| 0 <= i < |items| && StoredAt(items, keyOf, i, k);
        if i < n { assert StoredAt(prefix, keyOf, i, k); }
      }
    }
  }

  /** When every item before `i` passes and item `i` fails, the put-loop reports item i's failure. */
  lemma {:induction false} PutAllStopsAt<T, K>(items: seq<T>, keyOf: T -> Result<Option<K>>, i: nat)
    requires i < |items| && PutAll(items[..i], keyOf).Ok? && keyOf(items[i]).Err?
    ensures PutAll(items, keyOf) == Err(keyOf(items[i]).error)
    decreases |items|
  {
    var n := |items| - 1;
    if i == n {
      assert items[..n] == items[..i];
    } else {
      assert items[..n][..i] == items[..i];
      PutAllStopsAt(items[..n], keyOf, i);
    }
  }

  /** The map Collectors.toMap builds: values are computed in order and a repeated key fails. */
  function Collect<T, K(==), V>(items: seq<T>, keyOf: T -> K, valueOf: T -> Result<V>): Result<map<K, V>>
    decreases |items|
  {
    if items == [] then Ok(map[])
    else
      var last := items[|items| - 1];
      match Collect(items[..|items| - 1], keyOf, valueOf)
      case Err(e) => Err(e)
      case Ok(m) =>
        match valueOf(last)
        case Err(e) => Err(e)
        case Ok(v) => if keyOf(last) in m then Err(DuplicateKey) else Ok(m[keyOf(last) := v])
  }

  /** No two items share a key. */
  ghost predicate DistinctKeys<T, K>(items: seq<T>, keyOf: T -> K)
  {
    forall i, j :: 0 <= i < j < |items| ==> keyOf(items[i]) != keyOf(items[j])
  }

  /**
   * Collect succeeds exactly when every value can be computed and no key repeats; it then
   * maps the key of every item, and nothing else, to that item's value.
   */
  lemma CollectSpec<T, K, V>(items: seq<T>, keyOf: T -> K, valueOf: T -> Result<V>)
    ensures Collect(items, keyOf, valueOf).Ok? <==>
      (forall i :: 0 <= i < |items| ==> valueOf(items[i]).Ok?) && DistinctKeys(items, keyOf)
    ensures Collect(items, keyOf, valueOf).Ok? ==>
      && (forall i :: 0 <= i < |items| ==>
            && keyOf(items[i]) in Collect(items, keyOf, valueOf).value
            && Collect(items, keyOf, valueOf).value[keyOf(items[i])] == valueOf(items[i]).value)
      && (forall k :: k in Collect(items, keyOf, valueOf).value ==>
            exists i :: 0 <= i < |items| && keyOf(items[i]) == k)
  {
    CollectSucceeds(items, keyOf, valueOf);
    if Collect(items, keyOf, valueOf).Ok? {
      CollectContents(items, keyOf, valueOf);
    }
  }

  /** Collect succeeds exactly when every value can be computed and no key repeats. */
  lemma {:induction false} CollectSucceeds<T, K, V>(items: seq<T>, keyOf: T -> K, valueOf: T -> Result<V>)
    ensures Collect(items, keyOf, valueOf).Ok? <==>
      (forall i :: 0 <= i < |items| ==> valueOf(items[i]).Ok?) && DistinctKeys(items, keyOf)
    decreases |items|
  {
    if items != [] {
      var n := |items| - 1;
      var prefix := items[..n];
      CollectSucceeds(prefix, keyOf, valueOf);
      assert forall i :: 0 <= i < n ==> prefix[i] == items[i];
      if Collect(prefix, keyOf, valueOf).Ok? && valueOf(items[n]).Ok? {
        var m := Collect(prefix, keyOf, valueOf).value;
        CollectContents(prefix, keyOf, valueOf);
        if keyOf(items[n]) in m {
          var i :| 0 <= i < n && keyOf(prefix[i]) == keyOf(items[n]);
          assert !DistinctKeys(items, keyOf);
        } else {
          forall i, j | 0 <= i < j < |items| ensures keyOf(items[i]) != keyOf(items[j]) {
            if j < n {
              assert keyOf(prefix[i]) != keyOf(prefix[j]);
            } else {
              assert keyOf(prefix[i]) in m;
            }
          }
        }
      } else if Collect(prefix, keyOf, valueOf).Err? {
        if !(forall i :: 0 <= i < n ==> valueOf(prefix[i]).Ok?) {
          var i :| 0 <= i < n && valueOf(prefix[i]).Err?;
          assert valueOf(items[i]).Err?;
        } else {
          var i, j :| 0 <= i < j < n && keyOf(prefix[i]) == keyOf(prefix[j]);
          assert keyOf(items[i]) == keyOf(items[j]);
        }
      }
    }
  }

  /** A successful Collect maps the key of every item, and nothing else, to that item's value. */
  lemma {:induction false} CollectContents<T, K, V>(items: seq<T>, keyOf: T -> K, valueOf: T -> Result<V>)
    requires Collect(items, keyOf, valueOf).Ok?
    ensures forall i :: 0 <= i < |items| ==>
      && valueOf(items[i]).Ok?
      && keyOf(items[i]) in Collect(items, keyOf, valueOf).value
      && Collect(items, keyOf, valueOf).value[keyOf(items[i])] == valueOf(items[i]).value
    ensures forall k :: k in Collect(items, keyOf, valueOf).value ==>
      exists i :: 0 <= i < |items| && keyOf(items[i]) == k
    decreases |items|
  {
    if items != [] {
      var n := |items| - 1;
      var prefix := items[..n];
      CollectContents(prefix, keyOf, valueOf);
      var m := Collect(prefix, keyOf, valueOf).value;
      var r := Collect(items, keyOf, valueOf).value;
      assert r == m[keyOf(items[n]) := valueOf(items[n]).value];
      forall k | k in r ensures exists i :: 0 <= i < |items| && keyOf(items[i]) == k {
        if k in m {
          var i :| 0 <= i < n && keyOf(prefix[i]) == k;
          assert keyOf(items[i]) == k;
        }
      }
      forall i | 0 <= i < |items|
        ensures valueOf(items[i]).Ok? && keyOf(items[i]) in r && r[keyOf(items[i])] == valueOf(items[i]).value
      {
        if i < n {
          assert prefix[i] == items[i];
          assert keyOf(prefix[i]) in m;
        }
      }
    }
  }

  /** `order` lists every element of `keys` exactly once. */
  ghost predicate Enumerates<K(!new)>(order: seq<K>, keys: set<K>)
  {
    && |order| == |keys|
    && (forall k :: k in keys <==> k in order)
    && (forall i, j :: 0 <= i < j < |order| ==> order[i] != order[j])
  }

  /**
   * Iterating over a HashMap: every key once, in an order the model leaves unspecified.
   */
  method Enumerate<K(==,!new), V>(m: map<K, V>) returns (order: seq<K>)
    ensures Enumerates(order, m.Keys)
  {
    order := [];
    var rest := m.Keys;
    while rest != {}
      invariant forall k :: k in m.Keys <==> k in rest || k in order
      invariant forall k :: k in rest ==> k !in order
      invariant forall i, j :: 0 <= i < j < |order| ==> order[i] != order[j]
      invariant |order| + |rest| == |m.Keys|
      decreases |rest|
    {
      var k :| k in rest;
      order := order + [k];
      rest := rest - {k};
    }
  }
}
