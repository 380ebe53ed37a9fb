/** The JavaScript `Map` the library's containers extend, as a sequence of
    (key, value) entries in insertion order with distinct keys. `set` on a
    present key replaces the value in place; on a new key it appends. */
module OrderedMaps {
  import opened Wrappers

  /** No two entries share a key. */
  predicate UniqueKeys<K(==), V>(m: seq<(K, V)>)
  {
    forall i, j :: 0 <= i < j < |m| ==> m[i].0 != m[j].0
  }

  /** `[...map.keys()]`. */
  function Keys<K, V>(m: seq<(K, V)>): (ks: seq<K>)
    ensures |ks| == |m| && forall i :: 0 <= i < |m| ==> ks[i] == m[i].0
  {
    seq(|m|, i requires 0 <= i < |m| => m[i].0)
  }

  /** A key is among the pairs' keys when it is the first one or among the
      rest's. */
  lemma KeysFirst<K, V>(m: seq<(K, V)>, k: K)
    requires |m| > 0
    ensures k in Keys(m) <==> k == m[0].0 || k in Keys(m[1..])
  {
    if k in Keys(m) && k != m[0].0 {
      var i :| 0 <= i < |m| && Keys(m)[i] == k;
      assert Keys(m[1..])[i - 1] == k;
    }
    if k in Keys(m[1..]) {
      var i :| 0 <= i < |m| - 1 && Keys(m[1..])[i] == k;
      assert Keys(m)[i + 1] == k;
    }
  }

  /** `[...map.values()]`. */
  function Values<K, V>(m: seq<(K, V)>): (vs: seq<V>)
    ensures |vs| == |m| && forall i :: 0 <= i < |m| ==> vs[i] == m[i].1
  {
    seq(|m|, i requires 0 <= i < |m| => m[i].1)
  }

  /** The position of the entry with key `k`. */
  function IndexOf<K(==), V>(m: seq<(K, V)>, k: K): (r: Option<nat>)
    ensures r.Some? ==> r.value < |m| && m[r.value].0 == k && forall j :: 0 <= j < r.value ==> m[j].0 != k
    ensures r.None? ==> forall j :: 0 <= j < |m| ==> m[j].0 != k
  {
    if |m| == 0 then None
    else if m[0].0 == k then Some(0)
    else match IndexOf(m[1..], k)
      case None => None
      case Some(i) => Some(i + 1)
  }

  /** `map.has(k)`. */
  predicate Has<K(==), V>(m: seq<(K, V)>, k: K)
  {
    IndexOf(m, k).Some?
  }

  /** A key is listed exactly when `has` finds it. */
  lemma InKeys<K, V>(m: seq<(K, V)>, k: K)
    ensures k in Keys(m) <==> Has(m, k)
  {
    if k in Keys(m) {
      var j :| 0 <= j < |m| && Keys(m)[j] == k;
      assert m[j].0 == k;
    }
    if Has(m, k) {
      assert Keys(m)[IndexOf(m, k).value] == k;
    }
  }

  /** `map.get(k)`, `None` standing for `undefined`. */
  function Get<K(==), V>(m: seq<(K, V)>, k: K): (r: Option<V>)
    ensures r.Some? <==> Has(m, k)
    ensures r.Some? ==> exists i :: 0 <= i < |m| && m[i] == (k, r.value)
  {
    match IndexOf(m, k)
    case None => None
    case Some(i) => Some(m[i].1)
  }

  /** `map.set(k, v)`: the value is replaced in place when the key is
      present, and a new entry goes last otherwise. */
  function Put<K(==), V>(m: seq<(K, V)>, k: K, v: V): (r: seq<(K, V)>)
    ensures Has(m, k) ==> r == m[IndexOf(m, k).value := (k, v)]
    ensures !Has(m, k) ==> r == m + [(k, v)]
  {
    match IndexOf(m, k)
    case None => m + [(k, v)]
    case Some(i) => m[i := (k, v)]
  }

  /** Storing a pair that is already there changes nothing. */
  lemma PutSame<K, V>(m: seq<(K, V)>, i: int)
    requires UniqueKeys(m) && 0 <= i < |m|
    ensures Put(m, m[i].0, m[i].1) == m
  {
    var j := IndexOf(m, m[i].0).value;
    assert j == i;
    assert m[i := m[i]] == m;
  }

  /** A store keeps distinct keys distinct. */
  lemma PutKeepsUnique<K, V>(m: seq<(K, V)>, k: K, v: V)
    ensures UniqueKeys(m) ==> UniqueKeys(Put(m, k, v))
  {
    if UniqueKeys(m) {
      PutSpec(m, k, v);
    }
  }

  /** `map.delete(k)`: the entry is removed and the others keep their
      order. */
  function Remove<K(==), V>(m: seq<(K, V)>, k: K): (r: seq<(K, V)>)
    ensures Has(m, k) ==> r == m[..IndexOf(m, k).value] + m[IndexOf(m, k).value + 1..]
    ensures !Has(m, k) ==> r == m
  {
    match IndexOf(m, k)
    case None => m
    case Some(i) => m[..i] + m[i + 1..]
  }

  /** After `set`, the key maps to the new value, every other key to what
      it mapped to before, and keys stay distinct. */
  lemma PutSpec<K, V>(m: seq<(K, V)>, k: K, v: V)
    requires UniqueKeys(m)
    ensures UniqueKeys(Put(m, k, v))
    ensures Get(Put(m, k, v), k) == Some(v)
    ensures forall k' :: k' != k ==> Get(Put(m, k, v), k') == Get(m, k')
    ensures Has(m, k) ==> |Put(m, k, v)| == |m| && Keys(Put(m, k, v)) == Keys(m)
  {
    var r := Put(m, k, v);
    if Has(m, k) {
      var i := IndexOf(m, k).value;
      assert forall j :: 0 <= j < |r| && j != i ==> r[j] == m[j];
      assert r[i] == (k, v);
    } else {
      assert forall j :: 0 <= j < |m| ==> r[j] == m[j];
      assert r[|m|] == (k, v);
    }
    forall k' | k' != k
      ensures Get(r, k') == Get(m, k')
    {
      GetUnique(m, k');
      GetUnique(r, k');
      if Has(m, k') {
        var j := IndexOf(m, k').value;
        assert r[j] == m[j];
      } else {
        assert forall j :: 0 <= j < |r| ==> r[j].0 != k';
      }
    }
    GetUnique(r, k);
  }

  /** After `delete`, the key is absent, every other key maps to what it
      mapped to before, and keys stay distinct. */
  lemma RemoveSpec<K, V>(m: seq<(K, V)>, k: K)
    requires UniqueKeys(m)
    ensures UniqueKeys(Remove(m, k))
    ensures !Has(Remove(m, k), k)
    ensures forall k' :: k' != k ==> Get(Remove(m, k), k') == Get(m, k')
    ensures Has(m, k) ==> |Remove(m, k)| == |m| - 1
  {
    var r := Remove(m, k);
    if Has(m, k) {
      var i := IndexOf(m, k).value;
      assert forall j :: 0 <= j < |r| ==> r[j] == if j < i then m[j] else m[j + 1];
      forall k' | k' != k
        ensures Get(r, k') == Get(m, k')
      {
        GetUnique(m, k');
        GetUnique(r, k');
        if Has(m, k') {
          var j := IndexOf(m, k').value;
          if j < i {
            assert r[j] == m[j];
          } else {
            assert r[j - 1] == m[j];
          }
        } else {
          assert forall j :: 0 <= j < |r| ==> r[j].0 != k';
        }
      }
    }
    GetUnique(r, k);
  }

  /** A key no entry carries is absent, and `set` appends it. */
  lemma AbsentKey<K, V>(m: seq<(K, V)>, k: K, v: V)
    requires forall j :: 0 <= j < |m| ==> m[j].0 != k
    ensures !Has(m, k) && Put(m, k, v) == m + [(k, v)]
  {
  }

  /** `set(k, v)` for each key in turn. */
  function PutAll<K(==), V>(m: seq<(K, V)>, keys: seq<K>, v: V): seq<(K, V)>
    decreases |keys|
  {
    if |keys| == 0 then m else PutAll(Put(m, keys[0], v), keys[1..], v)
  }

  /** One step of `PutAll`: the key at `i` is set first. */
  lemma PutAllStep<K, V>(m: seq<(K, V)>, keys: seq<K>, i: int, v: V)
    requires 0 <= i < |keys|
    ensures PutAll(m, keys[i..], v) == PutAll(Put(m, keys[i], v), keys[i + 1..], v)
  {
    assert keys[i..][1..] == keys[i + 1..];
  }

  /** Each key paired with the same value. */
  function PairsWith<K, V>(keys: seq<K>, v: V): (r: seq<(K, V)>)
    ensures |r| == |keys| && forall i :: 0 <= i < |keys| ==> r[i] == (keys[i], v)
  {
    seq(|keys|, i requires 0 <= i < |keys| => (keys[i], v))
  }

  /** Setting keys that are new and distinct appends them in their order. */
  lemma {:induction false} PutAllAppends<K, V>(m: seq<(K, V)>, keys: seq<K>, v: V)
    requires forall i, j :: 0 <= i < |keys| && 0 <= j < |m| ==> m[j].0 != keys[i]
    requires forall i, j :: 0 <= i < j < |keys| ==> keys[i] != keys[j]
    ensures PutAll(m, keys, v) == m + PairsWith(keys, v)
    decreases |keys|
  {
    if |keys| > 0 {
      AppendsFresh(m, keys, v);
      PutAllAppends(m + [(keys[0], v)], keys[1..], v);
      AppendsFirst(m, keys, v);
    }
  }

  /** The first new key is appended, then the others after it. */
  lemma AppendsFirst<K, V>(m: seq<(K, V)>, keys: seq<K>, v: V)
    requires |keys| > 0 && forall j :: 0 <= j < |m| ==> m[j].0 != keys[0]
    requires PutAll(m + [(keys[0], v)], keys[1..], v) == m + [(keys[0], v)] + PairsWith(keys[1..], v)
    ensures PutAll(m, keys, v) == m + PairsWith(keys, v)
  {
    AbsentKey(m, keys[0], v);
    PutAllFirst(m, keys, v);
    PairsWithFirst(keys, v);
    AppendAssociates(m, [(keys[0], v)], PairsWith(keys[1..], v));
  }

  /** Concatenation is associative. */
  lemma AppendAssociates<T>(a: seq<T>, b: seq<T>, c: seq<T>)
    ensures a + b + c == a + (b + c)
  {
  }

  /** After the first key is appended, the other keys are still new and
      distinct. */
  lemma AppendsFresh<K, V>(m: seq<(K, V)>, keys: seq<K>, v: V)
    requires |keys| > 0
    requires forall i, j :: 0 <= i < |keys| && 0 <= j < |m| ==> m[j].0 != keys[i]
    requires forall i, j :: 0 <= i < j < |keys| ==> keys[i] != keys[j]
    ensures var m', tail := m + [(keys[0], v)], keys[1..];
      (forall i, j :: 0 <= i < |tail| && 0 <= j < |m'| ==> m'[j].0 != tail[i])
      && (forall i, j :: 0 <= i < j < |tail| ==> tail[i] != tail[j])
  {
    var m', tail := m + [(keys[0], v)], keys[1..];
    forall i, j | 0 <= i < |tail| && 0 <= j < |m'|
      ensures m'[j].0 != tail[i]
    {
      assert tail[i] == keys[i + 1];
      if j < |m| {
        assert m'[j] == m[j];
      }
    }
    forall i, j | 0 <= i < j < |tail|
      ensures tail[i] != tail[j]
    {
      assert tail[i] == keys[i + 1] && tail[j] == keys[j + 1];
    }
  }

  /** `PutAll` sets the first key first. */
  lemma PutAllFirst<K, V>(m: seq<(K, V)>, keys: seq<K>, v: V)
    requires |keys| > 0
    ensures PutAll(m, keys, v) == PutAll(Put(m, keys[0], v), keys[1..], v)
  {
  }

  /** The first key's pair, then the others'. */
  lemma PairsWithFirst<K, V>(keys: seq<K>, v: V)
    requires |keys| > 0
    ensures PairsWith(keys, v) == [(keys[0], v)] + PairsWith(keys[1..], v)
  {
  }

  /** Setting keys keeps keys distinct. */
  lemma {:induction false} PutAllUnique<K, V>(m: seq<(K, V)>, keys: seq<K>, v: V)
    requires UniqueKeys(m)
    ensures UniqueKeys(PutAll(m, keys, v))
    decreases |keys|
  {
    if |keys| > 0 {
      PutSpec(m, keys[0], v);
      PutAllUnique(Put(m, keys[0], v), keys[1..], v);
    }
  }

  /** With distinct keys, an entry found anywhere is the one `get` sees. */
  lemma GetUnique<K, V>(m: seq<(K, V)>, k: K)
    requires UniqueKeys(m)
    ensures forall i :: 0 <= i < |m| && m[i].0 == k ==> Get(m, k) == Some(m[i].1)
  {
  }

  /** `new Map(pairs)`: each pair set in turn, so a repeated key keeps the
      position of its first occurrence and the value of its last. */
  function FromPairs<K(==, !new), V>(pairs: seq<(K, V)>): (m: seq<(K, V)>)
    ensures UniqueKeys(m)
    ensures forall k :: Has(m, k) <==> k in Keys(pairs)
    decreases |pairs|
  {
    if |pairs| == 0 then []
    else
      var prefix := FromPairs(pairs[..|pairs| - 1]);
      var last := pairs[|pairs| - 1];
      PutSpec(prefix, last.0, last.1);
      assert Keys(pairs) == Keys(pairs[..|pairs| - 1]) + [last.0];
      var r := Put(prefix, last.0, last.1);
      forall k
        ensures Has(r, k) <==> Has(prefix, k) || k == last.0
      {
        assert Get(r, k).Some? <==> Has(r, k);
        assert Get(prefix, k).Some? <==> Has(prefix, k);
      }
      r
  }

  /** Two pairs with different keys go through the constructor as they are. */
  lemma FromTwoPairs<K(!new), V>(p: (K, V), q: (K, V))
    requires p.0 != q.0
    ensures FromPairs([p, q]) == [p, q]
  {
    var pairs := [p, q];
    assert pairs[0].0 != pairs[1].0;
    FromPairsUnique(pairs);
  }

  /** Pairs with distinct keys make a map holding exactly those pairs, in
      their order. */
  lemma {:induction false} FromPairsUnique<K(!new), V>(pairs: seq<(K, V)>)
    requires UniqueKeys(pairs)
    ensures FromPairs(pairs) == pairs
    decreases |pairs|
  {
    if |pairs| > 0 {
      var prefix := pairs[..|pairs| - 1];
      var last := pairs[|pairs| - 1];
      FromPairsUnique(prefix);
      assert !Has(prefix, last.0) by {
        assert forall j :: 0 <= j < |prefix| ==> prefix[j].0 == pairs[j].0;
      }
      assert prefix + [last] == pairs;
    }
  }
}
