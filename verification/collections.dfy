/** The Java collections the plugin builds, as sequences in iteration order.

    A `LinkedHashMap` (and a `HashMap`, whose order the model fixes to insertion
    order) is a sequence of key/value pairs with distinct keys; `put` on a present
    key replaces the value in place. A `HashSet` is a sequence with no two elements
    equal under the element class's `equals`; `add` of an element equal to one
    already present leaves the set as it was. */
module Collections {
  import opened Wrappers

  type OrderedMap<V> = seq<(string, V)>

  function Keys<V>(m: OrderedMap<V>): (ks: seq<string>)
    ensures |ks| == |m| && forall i :: 0 <= i < |m| ==> ks[i] == m[i].0
  {
    seq(|m|, i requires 0 <= i < |m| => m[i].0)
  }

  ghost predicate UniqueKeys<V>(m: OrderedMap<V>) {
    forall i, j :: 0 <= i < j < |m| ==> m[i].0 != m[j].0
  }

  /** The position of key `k`, or -1. */
  function KeyIndex<V>(m: OrderedMap<V>, k: string): (r: int)
    ensures -1 <= r < |m|
    ensures r >= 0 ==> m[r].0 == k && forall i :: 0 <= i < r ==> m[i].0 != k
    ensures r == -1 <==> forall i :: 0 <= i < |m| ==> m[i].0 != k
  {
    if |m| == 0 then -1
    else if m[0].0 == k then 0
    else
      var r := KeyIndex(m[1..], k);
      if r < 0 then -1
      else
        assert forall i :: 1 <= i < r + 1 ==> m[i].0 == m[1..][i - 1].0;
        r + 1
  }

  /** `Map.get`: the value stored under `k`, None when `k` is absent. */
  function Get<V>(m: OrderedMap<V>, k: string): (r: Option<V>)
    ensures r.Some? <==> exists i :: 0 <= i < |m| && m[i].0 == k
    ensures r.Some? ==> exists i :: 0 <= i < |m| && m[i] == (k, r.value)
  {
    var i := KeyIndex(m, k);
    if i < 0 then None else Some(m[i].1)
  }

  /** `Map.put`: replaces the value of a present key where it stands, and appends a
      new key at the end. */
  function Put<V>(m: OrderedMap<V>, k: string, v: V): (r: OrderedMap<V>)
    ensures Get(r, k) == Some(v)
    ensures forall k' :: k' != k ==> Get(r, k') == Get(m, k')
    ensures Keys(r) == if Get(m, k).Some? then Keys(m) else Keys(m) + [k]
    ensures UniqueKeys(m) ==> UniqueKeys(r)
    ensures |r| > 0
  {
    var i := KeyIndex(m, k);
    if i < 0 then
      PutAppends(m, k, v);
      m + [(k, v)]
    else
      PutReplaces(m, k, v, i);
      m[i := (k, v)]
  }

  lemma PutAppends<V>(m: OrderedMap<V>, k: string, v: V)
    requires KeyIndex(m, k) < 0
    ensures var r := m + [(k, v)];
      && Get(r, k) == Some(v)
      && (forall k' :: k' != k ==> Get(r, k') == Get(m, k'))
      && Keys(r) == Keys(m) + [k]
      && (UniqueKeys(m) ==> UniqueKeys(r))
  {
    var r := m + [(k, v)];
    forall k' | k' != k ensures KeyIndex(r, k') == KeyIndex(m, k') {
      KeyIndexAppend(m, k', (k, v));
    }
    KeyIndexAppend(m, k, (k, v));
    assert Keys(r) == Keys(m) + [k];
  }

  lemma PutReplaces<V>(m: OrderedMap<V>, k: string, v: V, i: int)
    requires 0 <= i == KeyIndex(m, k)
    ensures var r := m[i := (k, v)];
      && Get(r, k) == Some(v)
      && (forall k' :: k' != k ==> Get(r, k') == Get(m, k'))
      && Keys(r) == Keys(m)
      && (UniqueKeys(m) ==> UniqueKeys(r))
  {
    var r := m[i := (k, v)];
    assert Keys(r) == Keys(m);
    forall k' ensures KeyIndex(r, k') == KeyIndex(m, k') {
      KeyIndexSameKeys(m, r, k');
    }
  }

  lemma KeyIndexAppend<V>(m: OrderedMap<V>, k: string, e: (string, V))
    ensures KeyIndex(m + [e], k) == if KeyIndex(m, k) >= 0 then KeyIndex(m, k)
      else if e.0 == k then |m| else -1
  {
    var me := m + [e];
    var a, r := KeyIndex(m, k), KeyIndex(me, k);
    assert forall i :: 0 <= i < |m| ==> me[i] == m[i];
    if a >= 0 {
      assert me[a].0 == k;
    } else if e.0 == k {
      assert me[|m|].0 == k;
    }
  }

  lemma KeyIndexSameKeys<V>(m: OrderedMap<V>, r: OrderedMap<V>, k: string)
    requires Keys(m) == Keys(r)
    ensures KeyIndex(r, k) == KeyIndex(m, k)
  {
    assert forall i :: 0 <= i < |m| ==> m[i].0 == Keys(m)[i] == Keys(r)[i] == r[i].0;
  }

  /** The map a sequence of `put`s builds from an empty map, in order. */
  function PutAll<V>(m: OrderedMap<V>, entries: seq<(string, V)>): (r: OrderedMap<V>)
    ensures UniqueKeys(m) ==> UniqueKeys(r)
    decreases |entries|
  {
    if |entries| == 0 then m
    else PutAll(Put(m, entries[0].0, entries[0].1), entries[1..])
  }

  /** The last `put` of a key decides its value. */
  lemma {:induction false} PutAllLastWins<V>(m: OrderedMap<V>, entries: seq<(string, V)>, k: string)
    ensures LastKeyIndex(entries, k) >= 0 ==> Get(PutAll(m, entries), k) == Some(entries[LastKeyIndex(entries, k)].1)
    ensures LastKeyIndex(entries, k) < 0 ==> Get(PutAll(m, entries), k) == Get(m, k)
    decreases |entries|
  {
    if |entries| == 0 {
      assert PutAll(m, entries) == m;
    } else {
      var m', rest := Put(m, entries[0].0, entries[0].1), entries[1..];
      assert PutAll(m, entries) == PutAll(m', rest);
      PutAllLastWins(m', rest, k);
      LastKeyIndexFront(entries, k);
      var i, j := LastKeyIndex(entries, k), LastKeyIndex(rest, k);
      if j >= 0 {
        assert i == j + 1 && entries[i] == rest[j];
        assert Get(PutAll(m', rest), k) == Some(rest[j].1);
      } else if entries[0].0 == k {
        assert i == 0;
        assert Get(PutAll(m', rest), k) == Get(m', k) == Some(entries[0].1);
      } else {
        assert i == -1;
        assert Get(PutAll(m', rest), k) == Get(m', k) == Get(m, k);
      }
    }
  }

  /** The last position of a key in a non-empty sequence, from that in its tail. */
  lemma LastKeyIndexFront<V>(entries: seq<(string, V)>, k: string)
    requires |entries| > 0
    ensures LastKeyIndex(entries[1..], k) >= 0 ==> LastKeyIndex(entries, k) == LastKeyIndex(entries[1..], k) + 1
    ensures LastKeyIndex(entries[1..], k) < 0 && entries[0].0 == k ==> LastKeyIndex(entries, k) == 0
    ensures LastKeyIndex(entries[1..], k) < 0 && entries[0].0 != k ==> LastKeyIndex(entries, k) == -1
  {
    var rest := entries[1..];
    var j := LastKeyIndex(rest, k);
    assert forall i :: 1 <= i < |entries| ==> entries[i] == rest[i - 1];
  }

  /** The last position of key `k` among `entries`, or -1. */
  function LastKeyIndex<V>(entries: seq<(string, V)>, k: string): (r: int)
    ensures -1 <= r < |entries|
    ensures r >= 0 ==> entries[r].0 == k && forall i :: r < i < |entries| ==> entries[i].0 != k
    ensures r == -1 <==> forall i :: 0 <= i < |entries| ==> entries[i].0 != k
  {
    if |entries| == 0 then -1
    else if entries[|entries| - 1].0 == k then |entries| - 1
    else LastKeyIndex(entries[..|entries| - 1], k)
  }

  /** No two elements of `s` have the same identity under `key`. */
  ghost predicate DistinctBy<T, K>(s: seq<T>, key: T -> K) {
    forall i, j :: 0 <= i < j < |s| ==> key(s[i]) != key(s[j])
  }

  /** `Set.add` where `key` is what the element class's `equals` compares: an element
      whose key is already present is dropped, any other is appended. */
  function AddBy<T, K(==)>(s: seq<T>, x: T, key: T -> K): (r: seq<T>)
    ensures (exists i :: 0 <= i < |s| && key(s[i]) == key(x)) ==> r == s
    ensures (forall i :: 0 <= i < |s| ==> key(s[i]) != key(x)) ==> r == s + [x]
    ensures DistinctBy(s, key) ==> DistinctBy(r, key)
  {
    if exists i :: 0 <= i < |s| && key(s[i]) == key(x) then s else s + [x]
  }

  /** `Set.addAll`: the elements of `xs` added one by one. */
  function AddAllBy<T, K(==)>(s: seq<T>, xs: seq<T>, key: T -> K): (r: seq<T>)
    ensures DistinctBy(s, key) ==> DistinctBy(r, key)
    ensures |s| <= |r| && r[..|s|] == s
    decreases |xs|
  {
    if |xs| == 0 then s else AddAllBy(AddBy(s, xs[0], key), xs[1..], key)
  }

  /** Every added element is represented in the union by an element of equal key. */
  lemma {:induction false} AddAllByCovers<T, K>(s: seq<T>, xs: seq<T>, key: T -> K)
    ensures forall j :: 0 <= j < |xs| ==> exists i :: 0 <= i < |AddAllBy(s, xs, key)| && key(AddAllBy(s, xs, key)[i]) == key(xs[j])
    decreases |xs|
  {
    if |xs| > 0 {
      var s' := AddBy(s, xs[0], key);
      var r := AddAllBy(s', xs[1..], key);
      AddAllByCovers(s', xs[1..], key);
      assert AddAllBy(s, xs, key) == r;
      forall j | 0 <= j < |xs| ensures exists i :: 0 <= i < |r| && key(r[i]) == key(xs[j]) {
        if j == 0 {
          var i: int;
          if exists i :: 0 <= i < |s| && key(s[i]) == key(xs[0]) {
            i :| 0 <= i < |s| && key(s[i]) == key(xs[0]);
          } else {
            i := |s|;
          }
          assert r[i] == r[..|s'|][i] == s'[i];
        } else {
          assert xs[j] == xs[1..][j - 1];
        }
      }
    }
  }

  /** The union holds only elements of the two operands. */
  lemma {:induction false} AddAllByFrom<T, K>(s: seq<T>, xs: seq<T>, key: T -> K)
    ensures forall i :: 0 <= i < |AddAllBy(s, xs, key)| ==> AddAllBy(s, xs, key)[i] in s || AddAllBy(s, xs, key)[i] in xs
    decreases |xs|
  {
    if |xs| > 0 {
      var s' := AddBy(s, xs[0], key);
      var r := AddAllBy(s', xs[1..], key);
      AddAllByFrom(s', xs[1..], key);
      forall i | 0 <= i < |r| ensures r[i] in s || r[i] in xs {
        if r[i] in xs[1..] {
          var j :| 0 <= j < |xs[1..]| && xs[1..][j] == r[i];
          assert xs[j + 1] == r[i];
        }
      }
    }
  }

  /** Adding two sequences one after the other adds their concatenation. */
  lemma {:induction false} AddAllByAppend<T, K>(s: seq<T>, xs: seq<T>, ys: seq<T>, key: T -> K)
    ensures AddAllBy(s, xs + ys, key) == AddAllBy(AddAllBy(s, xs, key), ys, key)
    decreases |xs|
  {
    if |xs| > 0 {
      assert (xs + ys)[0] == xs[0] && (xs + ys)[1..] == xs[1..] + ys;
      AddAllByAppend(AddBy(s, xs[0], key), xs[1..], ys, key);
    } else {
      assert xs + ys == ys;
    }
  }

  /** Adding a set built from `t` is adding `t` and then the rest. */
  lemma {:induction false} AddAllByNested<T, K>(s: seq<T>, t: seq<T>, xs: seq<T>, key: T -> K)
    ensures AddAllBy(s, AddAllBy(t, xs, key), key) == AddAllBy(AddAllBy(s, t, key), xs, key)
    decreases |xs|
  {
    if |xs| > 0 {
      var x := xs[0];
      AddAllByNested(s, AddBy(t, x, key), xs[1..], key);
      if exists i :: 0 <= i < |t| && key(t[i]) == key(x) {
        var i :| 0 <= i < |t| && key(t[i]) == key(x);
        AddAllByCovers(s, t, key);
      } else {
        AddAllByAppend(s, t, [x], key);
        assert AddAllBy(AddAllBy(s, t, key), [x], key) == AddBy(AddAllBy(s, t, key), x, key) by {
          assert [x][1..] == [];
        }
      }
    }
  }
}
