/** Python's `dict`: an association list in insertion order whose keys are
    distinct. Assigning to an existing key keeps its place; a new key goes
    last. */
module Dicts {
  import opened Common

  type Dict<K, V> = seq<(K, V)>

  /** The keys of a dictionary. */
  function Keys<K, V>(d: Dict<K, V>): set<K> {
    if |d| == 0 then {} else Keys(d[..|d| - 1]) + {d[|d| - 1].0}
  }

  /** `list(d.keys())`. */
  function KeyList<K, V>(d: Dict<K, V>): (r: seq<K>)
    ensures |r| == |d| && forall i :: 0 <= i < |d| ==> r[i] == d[i].0
  {
    seq(|d|, i requires 0 <= i < |d| => d[i].0)
  }

  lemma {:induction false} KeysAt<K, V>(d: Dict<K, V>)
    ensures forall i :: 0 <= i < |d| ==> d[i].0 in Keys(d)
    ensures forall k :: k in Keys(d) ==> exists i :: 0 <= i < |d| && d[i].0 == k
  {
    if |d| > 0 {
      KeysAt(d[..|d| - 1]);
    }
  }

  /** The key list holds exactly the keys. */
  lemma KeyListKeys<K, V>(d: Dict<K, V>)
    ensures forall k :: k in KeyList(d) <==> k in Keys(d)
  {
    KeysAt(d);
  }

  ghost predicate DistinctKeys<K, V>(d: Dict<K, V>) {
    forall i, j :: 0 <= i < j < |d| ==> d[i].0 != d[j].0
  }

  /** `d.get(k)`. */
  function Get<K(==), V>(d: Dict<K, V>, k: K): (r: Option<V>)
    ensures r.Some? <==> k in Keys(d)
  {
    if |d| == 0 then None
    else if d[|d| - 1].0 == k then Some(d[|d| - 1].1)
    else Get(d[..|d| - 1], k)
  }

  /** An entry whose key does not recur later is what `get` finds. */
  lemma {:induction false} GetAt<K, V>(d: Dict<K, V>, i: nat)
    requires i < |d|
    requires forall j :: i < j < |d| ==> d[j].0 != d[i].0
    ensures Get(d, d[i].0) == Some(d[i].1)
  {
    if i < |d| - 1 {
      var init := d[..|d| - 1];
      assert init[i] == d[i];
      forall j | i < j < |init|
        ensures init[j].0 != init[i].0
      {
        assert init[j] == d[j];
      }
      GetAt(init, i);
    }
  }

  /** `d[k] = v`. */
  function Put<K(==), V>(d: Dict<K, V>, k: K, v: V): (r: Dict<K, V>)
    ensures Keys(r) == Keys(d) + {k}
    ensures |r| == if k in Keys(d) then |d| else |d| + 1
  {
    if |d| == 0 then [(k, v)]
    else
      var init := d[..|d| - 1];
      var last := d[|d| - 1];
      if last.0 == k then
        var r := init + [(k, v)];
        assert r[..|r| - 1] == init;
        r
      else if k in Keys(init) then
        var r := Put(init, k, v) + [last];
        assert r[..|r| - 1] == Put(init, k, v);
        r
      else
        var r := d + [(k, v)];
        assert r[..|r| - 1] == d;
        r
  }

  /** After `d[k] = v`, `k` maps to `v` and every other key is unchanged. */
  lemma {:induction false} PutGet<K, V>(d: Dict<K, V>, k: K, v: V, k': K)
    ensures Get(Put(d, k, v), k') == if k' == k then Some(v) else Get(d, k')
  {
    if |d| > 0 {
      var init := d[..|d| - 1];
      var last := d[|d| - 1];
      if last.0 == k {
        assert (init + [(k, v)])[..|d| - 1] == init;
      } else if k in Keys(init) {
        PutGet(init, k, v, k');
        assert (Put(init, k, v) + [last])[..|Put(init, k, v)|] == Put(init, k, v);
      } else {
        assert (d + [(k, v)])[..|d|] == d;
      }
    }
  }

  /** Assignment keeps the keys distinct. */
  lemma {:induction false} PutDistinct<K, V>(d: Dict<K, V>, k: K, v: V)
    requires DistinctKeys(d)
    ensures DistinctKeys(Put(d, k, v))
  {
    if |d| > 0 {
      var init := d[..|d| - 1];
      var last := d[|d| - 1];
      KeysAt(init);
      if last.0 != k && k !in Keys(init) {
        KeysAt(d);
        forall i, j | 0 <= i < j < |d| + 1
          ensures Put(d, k, v)[i].0 != Put(d, k, v)[j].0
        {
          if j == |d| {
            assert Put(d, k, v)[i] == d[i];
          }
        }
      } else if last.0 != k {
        PutDistinct(init, k, v);
        var p := Put(init, k, v);
        KeysAt(p);
        forall i | 0 <= i < |init|
          ensures init[i].0 != last.0
        {
          assert init[i] == d[i];
        }
        assert last.0 !in Keys(p);
      }
    }
  }

  /** Assigning a key the dictionary lacks appends the pair. */
  lemma {:induction false} PutFresh<K, V>(d: Dict<K, V>, k: K, v: V)
    requires k !in Keys(d)
    ensures Put(d, k, v) == d + [(k, v)]
  {
    if |d| > 0 {
      var init := d[..|d| - 1];
      assert Keys(d) == Keys(init) + {d[|d| - 1].0};
    }
  }
}
