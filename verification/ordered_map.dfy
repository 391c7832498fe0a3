/** A JavaScript `Map` keyed by integers: an association list that keeps
    insertion order. Setting an existing key overwrites its value in place,
    setting a new key appends it, deleting removes it. Iteration is the
    list order. */
module OrderedMap {
  import opened Outcomes

  datatype Entry<V> = Entry(key: int, value: V)

  predicate HasKey<V>(m: seq<Entry<V>>, k: int) {
    exists i :: 0 <= i < |m| && m[i].key == k
  }

  /** A key the first entry does not carry is held by the map iff it is
      held by the rest. */
  lemma HasKeyPastHead<V>(m: seq<Entry<V>>, k: int)
    requires |m| > 0 && m[0].key != k
    ensures HasKey(m, k) <==> HasKey(m[1..], k)
  {
    if HasKey(m, k) {
      var i :| 0 <= i < |m| && m[i].key == k;
      assert m[1..][i - 1].key == k;
    }
    if HasKey(m[1..], k) {
      var i :| 0 <= i < |m[1..]| && m[1..][i].key == k;
      assert m[i + 1].key == k;
    }
  }

  /** The first entry's key is held, and so is every key the rest holds. */
  lemma HasKeyOfTail<V>(m: seq<Entry<V>>)
    requires |m| > 0
    ensures HasKey(m, m[0].key)
    ensures forall k :: HasKey(m[1..], k) ==> HasKey(m, k)
  {
    assert m[0].key == m[0].key;
    forall k | HasKey(m[1..], k)
      ensures HasKey(m, k)
    {
      var i :| 0 <= i < |m[1..]| && m[1..][i].key == k;
      assert m[i + 1].key == k;
    }
  }

  /** A `Map` never holds a key twice. */
  predicate DistinctKeys<V>(m: seq<Entry<V>>) {
    forall i, j :: 0 <= i < j < |m| ==> m[i].key != m[j].key
  }

  /** `map.get(k)`: the value under `k`, absent (`undefined`) if none. */
  function Get<V>(m: seq<Entry<V>>, k: int): (r: Option<V>)
    ensures r.Some? <==> HasKey(m, k)
    decreases |m|
  {
    if |m| == 0 then None
    else if m[0].key == k then Some(m[0].value)
    else
      HasKeyPastHead(m, k);
      Get(m[1..], k)
  }

  /** In a map that holds each key once, `map.get(k)` yields the value
      stored with `k`. */
  lemma {:induction false} GetFindsEntry<V>(m: seq<Entry<V>>, k: int, i: int)
    requires DistinctKeys(m) && 0 <= i < |m| && m[i].key == k
    ensures Get(m, k) == Some(m[i].value)
    decreases i
  {
    if i > 0 {
      assert m[0].key != k;
      DistinctKeysTail(m);
      assert m[1..][i - 1] == m[i];
      GetFindsEntry(m[1..], k, i - 1);
    }
  }

  /** `map.set(k, v)`. */
  function Set<V>(m: seq<Entry<V>>, k: int, v: V): (r: seq<Entry<V>>)
    ensures Get(r, k) == Some(v)
    ensures forall k' :: k' != k ==> Get(r, k') == Get(m, k')
    ensures forall i :: 0 <= i < |r| ==> r[i] in m || r[i] == Entry(k, v)
    decreases |m|
  {
    if |m| == 0 then [Entry(k, v)]
    else if m[0].key == k then [Entry(k, v)] + m[1..]
    else
      HasKeyPastHead(m, k);
      var rest := Set(m[1..], k, v);
      var r := [m[0]] + rest;
      assert r[0] == m[0] && r[1..] == rest;
      assert forall i :: 0 < i < |r| ==> r[i] == rest[i - 1];
      assert forall i :: 0 < i < |m| ==> m[i] == m[1..][i - 1];
      r
  }

  /** The rest of a map without its first entry still has distinct keys. */
  lemma DistinctKeysTail<V>(m: seq<Entry<V>>)
    requires |m| > 0 && DistinctKeys(m)
    ensures DistinctKeys(m[1..])
    ensures forall i :: 0 <= i < |m[1..]| ==> m[1..][i].key != m[0].key
  {
    forall i, j | 0 <= i < j < |m[1..]|
      ensures m[1..][i].key != m[1..][j].key
    {
      assert m[1..][i] == m[i + 1] && m[1..][j] == m[j + 1];
    }
    forall i | 0 <= i < |m[1..]|
      ensures m[1..][i].key != m[0].key
    {
      assert m[1..][i] == m[i + 1];
    }
  }

  /** Setting a key never duplicates one. */
  lemma {:induction false} SetKeepsDistinct<V>(m: seq<Entry<V>>, k: int, v: V)
    requires DistinctKeys(m)
    ensures DistinctKeys(Set(m, k, v))
    decreases |m|
  {
    if |m| > 0 {
      DistinctKeysTail(m);
      if m[0].key == k {
        var r := Set(m, k, v);
        assert r == [Entry(k, v)] + m[1..];
        assert forall i :: 0 < i < |r| ==> r[i] == m[i];
      } else {
        SetKeepsDistinct(m[1..], k, v);
        var rest := Set(m[1..], k, v);
        var r := Set(m, k, v);
        assert r == [m[0]] + rest;
        forall j | 0 <= j < |rest|
          ensures rest[j].key != m[0].key
        {
          if rest[j] != Entry(k, v) {
            var t :| 0 <= t < |m[1..]| && m[1..][t] == rest[j];
          }
        }
        assert forall i :: 0 < i < |r| ==> r[i] == rest[i - 1];
      }
    }
  }

  /** `map.delete(k)`. */
  function Delete<V>(m: seq<Entry<V>>, k: int): (r: seq<Entry<V>>)
    ensures !HasKey(r, k)
    ensures forall k' :: k' != k ==> Get(r, k') == Get(m, k')
    ensures forall i :: 0 <= i < |r| ==> r[i] in m && r[i].key != k
    ensures forall i :: 0 <= i < |m| && m[i].key != k ==> m[i] in r
    ensures DistinctKeys(m) ==> DistinctKeys(r)
    decreases |m|
  {
    if |m| == 0 then []
    else if m[0].key == k then Delete(m[1..], k)
    else [m[0]] + Delete(m[1..], k)
  }

  /** Deleting works piecewise: the entries that stay keep their order. */
  lemma {:induction false} DeleteKeepsOrder<V>(xs: seq<Entry<V>>, ys: seq<Entry<V>>, k: int)
    ensures Delete(xs + ys, k) == Delete(xs, k) + Delete(ys, k)
    decreases |xs|
  {
    if |xs| == 0 {
      assert xs + ys == ys;
    } else {
      assert (xs + ys)[0] == xs[0];
      assert (xs + ys)[1..] == xs[1..] + ys;
      DeleteKeepsOrder(xs[1..], ys, k);
    }
  }

  /** Deleting from a single entry drops it exactly when it has the key. */
  lemma DeleteSingle<V>(e: Entry<V>, k: int)
    ensures Delete([e], k) == if e.key == k then [] else [e]
  {
    assert [e][1..] == [];
  }

  /** Deleting a key the map does not hold changes nothing. */
  lemma {:induction false} DeleteAbsent<V>(m: seq<Entry<V>>, k: int)
    requires !HasKey(m, k)
    ensures Delete(m, k) == m
    decreases |m|
  {
    if |m| > 0 {
      assert m[0].key != k;
      HasKeyPastHead(m, k);
      DeleteAbsent(m[1..], k);
      assert [m[0]] + m[1..] == m;
    }
  }

  /** A list is its part before `i`, its entry at `i` and its part after. */
  lemma SplitAt<V>(m: seq<Entry<V>>, i: int)
    requires 0 <= i < |m|
    ensures m == m[..i] + ([m[i]] + m[i + 1..])
  {
  }

  /** In a map holding each key once, no entry before or after position
      `i` carries the key at `i`. */
  lemma KeyOnlyAt<V>(m: seq<Entry<V>>, i: int)
    requires DistinctKeys(m) && 0 <= i < |m|
    ensures !HasKey(m[..i], m[i].key) && !HasKey(m[i + 1..], m[i].key)
  {
    forall j | 0 <= j < i
      ensures m[..i][j].key != m[i].key
    {
      assert m[..i][j] == m[j];
    }
    var after := m[i + 1..];
    forall j | 0 <= j < |after|
      ensures after[j].key != m[i].key
    {
      assert after[j] == m[i + 1 + j];
    }
  }

  /** In a map holding each key once, `map.delete(k)` removes exactly the
      entry with that key and keeps the others in their order. */
  lemma DeleteRemovesEntry<V>(m: seq<Entry<V>>, i: int)
    requires DistinctKeys(m) && 0 <= i < |m|
    ensures Delete(m, m[i].key) == m[..i] + m[i + 1..]
  {
    var k := m[i].key;
    var xs, ys := m[..i], m[i + 1..];
    var rest := [m[i]] + ys;
    SplitAt(m, i);
    KeyOnlyAt(m, i);
    DeleteKeepsOrder(xs, rest, k);
    DeleteKeepsOrder([m[i]], ys, k);
    DeleteSingle(m[i], k);
    DeleteAbsent(xs, k);
    DeleteAbsent(ys, k);
    assert Delete(rest, k) == ys;
  }

  /** Setting a held key keeps the key order; setting a new key appends it
      at the end. */
  lemma {:induction false} SetKeepsOrder<V>(m: seq<Entry<V>>, k: int, v: V)
    ensures HasKey(m, k) ==> |Set(m, k, v)| == |m| && forall i :: 0 <= i < |m| ==> Set(m, k, v)[i].key == m[i].key
    ensures !HasKey(m, k) ==> Set(m, k, v) == m + [Entry(k, v)]
    decreases |m|
  {
    if |m| > 0 && m[0].key != k {
      HasKeyPastHead(m, k);
      SetKeepsOrder(m[1..], k, v);
      var rest := Set(m[1..], k, v);
      assert Set(m, k, v) == [m[0]] + rest;
      if !HasKey(m, k) {
        assert [m[0]] + (m[1..] + [Entry(k, v)]) == m + [Entry(k, v)];
      }
    }
  }
}
