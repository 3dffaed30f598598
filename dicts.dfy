/**
 * Python dictionaries as the decoder uses them: a finite map whose keys remember
 * the order in which they were first inserted, and the counting dictionaries
 * that the decoder builds with `if k not in d: d[k] = 0; d[k] += 1`.
 */
module Dicts {

  /** All elements of `s` are different. */
  ghost predicate Distinct<K>(s: seq<K>) {
    forall i, j :: 0 <= i < j < |s| ==> s[i] != s[j]
  }

  /** A Python dict: `m` holds the entries, `keys` their insertion order. */
  datatype ODict<K, V> = ODict(keys: seq<K>, m: map<K, V>) {

    /** Every key is listed exactly once, and only the keys of the map are listed. */
    ghost predicate Valid() {
      Distinct(keys) && (forall k :: k in m ==> k in keys) && (forall k :: k in keys ==> k in m)
    }
  }

  function Empty<K(==), V>(): (d: ODict<K, V>)
    ensures d.Valid() && d.keys == []
  {
    ODict([], map[])
  }

  /** `d[k] = v`: a new key goes to the end, an existing key keeps its place. */
  function Put<K(==), V>(d: ODict<K, V>, k: K, v: V): (r: ODict<K, V>)
    requires d.Valid()
    ensures r.Valid()
    ensures r.m == d.m[k := v]
    ensures r.keys == if k in d.m then d.keys else d.keys + [k]
  {
    if k in d.m then ODict(d.keys, d.m[k := v]) else ODict(d.keys + [k], d.m[k := v])
  }

  /** `if k not in d: d[k] = 0` followed by `d[k] += 1`. */
  function Inc<K(==)>(d: ODict<K, nat>, k: K): (r: ODict<K, nat>)
    requires d.Valid()
    ensures r.Valid()
  {
    Put(d, k, (if k in d.m then d.m[k] else 0) + 1)
  }

  /** The counting dictionary the loop `for k in ks: Inc(k)` builds from an empty dict. */
  function Counter<K(==)>(ks: seq<K>): (d: ODict<K, nat>)
    ensures d.Valid()
  {
    if ks == [] then Empty() else Inc(Counter(ks[..|ks| - 1]), ks[|ks| - 1])
  }

  /** The position of the first occurrence of `k` in `ks`. */
  function FirstIndex<K(==)>(ks: seq<K>, k: K): (i: nat)
    requires k in ks
    ensures i < |ks| && ks[i] == k
    ensures forall j :: 0 <= j < i ==> ks[j] != k
  {
    if ks[0] == k then 0 else 1 + FirstIndex(ks[1..], k)
  }

  /** The entries of a dict in insertion order, as `d.items()` lists them. */
  function Items<K(==), V>(d: ODict<K, V>): (s: seq<(K, V)>)
    requires d.Valid()
    ensures |s| == |d.keys|
    ensures forall i :: 0 <= i < |s| ==> s[i] == (d.keys[i], d.m[d.keys[i]])
  {
    seq(|d.keys|, i requires 0 <= i < |d.keys| => (d.keys[i], d.m[d.keys[i]]))
  }

  /** `dict(items)`: later entries overwrite earlier ones with the same key. */
  function FromItems<K(==), V>(s: seq<(K, V)>): (d: ODict<K, V>)
    ensures d.Valid()
  {
    if s == [] then Empty() else Put(FromItems(s[..|s| - 1]), s[|s| - 1].0, s[|s| - 1].1)
  }

  /** The sum of `m[k]` over the listed keys. */
  function SumOver<K(==)>(ks: seq<K>, m: map<K, nat>): nat
    requires forall k :: k in ks ==> k in m
  {
    if ks == [] then 0 else SumOver(ks[..|ks| - 1], m) + m[ks[|ks| - 1]]
  }

  /** The sum of all values of a counting dictionary. */
  function Total<K(==)>(d: ODict<K, nat>): nat
    requires d.Valid()
  {
    SumOver(d.keys, d.m)
  }

  // ---------------------------------------------------------------------------
  // Lemmas
  // ---------------------------------------------------------------------------

  lemma {:induction false} FirstIndexAppend<K>(ks: seq<K>, x: K, k: K)
    requires k in ks + [x]
    ensures k in ks ==> FirstIndex(ks + [x], k) == FirstIndex(ks, k)
    ensures k !in ks ==> FirstIndex(ks + [x], k) == |ks|
  {
    if ks != [] && ks[0] != k {
      assert (ks + [x])[1..] == ks[1..] + [x];
      FirstIndexAppend(ks[1..], x, k);
    }
  }

  lemma {:induction false} SumOverAppend<K>(ks: seq<K>, k: K, m: map<K, nat>)
    requires forall q :: q in ks + [k] ==> q in m
    ensures SumOver(ks + [k], m) == SumOver(ks, m) + m[k]
  {
    assert (ks + [k])[..|ks|] == ks;
  }

  /** The sum only depends on the values of the listed keys. */
  lemma {:induction false} SumOverSame<K>(ks: seq<K>, m1: map<K, nat>, m2: map<K, nat>)
    requires forall q :: q in ks ==> q in m1 && q in m2 && m1[q] == m2[q]
    ensures SumOver(ks, m1) == SumOver(ks, m2)
  {
    if ks != [] {
      SumOverSame(ks[..|ks| - 1], m1, m2);
    }
  }

  /** Changing the value of one key changes the sum by the difference, if the key is listed. */
  lemma {:induction false} SumOverUpdate<K>(ks: seq<K>, m: map<K, nat>, k: K, v: nat)
    requires forall q :: q in ks ==> q in m
    requires Distinct(ks)
    ensures k in ks ==> SumOver(ks, m[k := v]) + m[k] == SumOver(ks, m) + v
    ensures k !in ks ==> SumOver(ks, m[k := v]) == SumOver(ks, m)
  {
    if ks != [] {
      var pre := ks[..|ks| - 1];
      assert Distinct(pre);
      assert forall q :: q in pre ==> q in ks;
      SumOverUpdate(pre, m, k, v);
      if ks[|ks| - 1] == k {
        assert k !in pre;
      } else {
        assert k in ks ==> k in pre;
      }
    }
  }

  /** Assigning a key twice is assigning it once, with the second value. */
  lemma PutTwice<K, V>(d: ODict<K, V>, k: K, v1: V, v2: V)
    requires d.Valid()
    ensures Put(Put(d, k, v1), k, v2) == Put(d, k, v2)
  {
    assert d.m[k := v1][k := v2] == d.m[k := v2];
  }

  /** Incrementing a count adds one to the total. */
  lemma TotalInc<K>(d: ODict<K, nat>, k: K)
    requires d.Valid()
    ensures Total(Inc(d, k)) == Total(d) + 1
  {
    var r := Inc(d, k);
    if k in d.m {
      SumOverUpdate(d.keys, d.m, k, d.m[k] + 1);
    } else {
      SumOverUpdate(d.keys, d.m, k, 1);
      SumOverAppend(d.keys, k, r.m);
    }
  }

  /** A counter has exactly the counted elements as keys, each with its number of occurrences. */
  lemma {:induction false} CounterCounts<K>(ks: seq<K>)
    ensures forall k :: k in Counter(ks).m <==> k in ks
    ensures forall k :: k in Counter(ks).m ==> Counter(ks).m[k] == multiset(ks)[k]
  {
    if ks != [] {
      var pre, x := ks[..|ks| - 1], ks[|ks| - 1];
      CounterCounts(pre);
      assert ks == pre + [x];
    }
  }

  /** `keys` lists elements of `ks` in the order of their first occurrence in `ks`. */
  ghost predicate InFirstOccurrenceOrder<K>(keys: seq<K>, ks: seq<K>) {
    && (forall k :: k in keys ==> k in ks)
    && (forall i, j :: 0 <= i < j < |keys| ==> FirstIndex(ks, keys[i]) < FirstIndex(ks, keys[j]))
  }

  lemma FirstOccurrenceOrderAppend<K>(keys: seq<K>, ks: seq<K>, x: K)
    requires InFirstOccurrenceOrder(keys, ks)
    ensures InFirstOccurrenceOrder(keys, ks + [x])
    ensures x !in ks ==> InFirstOccurrenceOrder(keys + [x], ks + [x])
  {
    forall k | k in keys ensures FirstIndex(ks + [x], k) == FirstIndex(ks, k) {
      FirstIndexAppend(ks, x, k);
    }
    if x !in ks {
      var keys' := keys + [x];
      FirstIndexAppend(ks, x, x);
      forall i, j | 0 <= i < j < |keys'|
        ensures FirstIndex(ks + [x], keys'[i]) < FirstIndex(ks + [x], keys'[j])
      {
        assert keys'[i] == keys[i];
        if j < |keys| {
          assert keys'[j] == keys[j];
        }
      }
    }
  }

  /** A counter lists its keys in the order of their first occurrence. */
  lemma {:induction false} CounterKeyOrder<K>(ks: seq<K>)
    ensures InFirstOccurrenceOrder(Counter(ks).keys, ks)
  {
    if ks != [] {
      var pre, x := ks[..|ks| - 1], ks[|ks| - 1];
      CounterKeyOrder(pre);
      CounterCounts(pre);
      assert ks == pre + [x];
      FirstOccurrenceOrderAppend(Counter(pre).keys, pre, x);
    }
  }

  /** The counts of a counter add up to the number of counted elements. */
  lemma {:induction false} CounterTotal<K>(ks: seq<K>)
    ensures Total(Counter(ks)) == |ks|
  {
    if ks != [] {
      CounterTotal(ks[..|ks| - 1]);
      TotalInc(Counter(ks[..|ks| - 1]), ks[|ks| - 1]);
    }
  }

  /** The keys of a list of pairs are pairwise different. */
  ghost predicate DistinctKeys<K, V>(s: seq<(K, V)>) {
    forall i, j :: 0 <= i < j < |s| ==> s[i].0 != s[j].0
  }

  /** `dict(items)` over items with distinct keys keeps their order and values. */
  lemma {:induction false} FromItemsDistinct<K, V>(s: seq<(K, V)>)
    requires DistinctKeys(s)
    ensures |FromItems(s).keys| == |s|
    ensures forall i :: 0 <= i < |s| ==> FromItems(s).keys[i] == s[i].0 && FromItems(s).m[s[i].0] == s[i].1
  {
    if s != [] {
      var pre := s[..|s| - 1];
      FromItemsDistinct(pre);
      var d := FromItems(pre);
      assert s[|s| - 1].0 !in d.keys by {
        forall i | 0 <= i < |d.keys| ensures d.keys[i] != s[|s| - 1].0 {
          assert d.keys[i] == pre[i].0 == s[i].0;
        }
      }
    }
  }

  /** Every item's key is a key of `dict(items)`. */
  lemma {:induction false} FromItemsHasItemKey<K, V>(s: seq<(K, V)>, i: nat)
    requires i < |s|
    ensures s[i].0 in FromItems(s).m
  {
    if i < |s| - 1 {
      var pre := s[..|s| - 1];
      FromItemsHasItemKey(pre, i);
      assert pre[i] == s[i];
    }
  }

  /** `dict(items)` has exactly the keys of the items. */
  lemma FromItemsKeys<K, V>(s: seq<(K, V)>)
    ensures forall k :: k in FromItems(s).m <==> exists i :: 0 <= i < |s| && s[i].0 == k
  {
    forall k ensures k in FromItems(s).m <==> exists i :: 0 <= i < |s| && s[i].0 == k {
      if k in FromItems(s).m {
        FromItemsSource(s, k);
      } else {
        forall i | 0 <= i < |s| ensures s[i].0 != k {
          FromItemsHasItemKey(s, i);
        }
      }
    }
  }

  /** In `dict(items)`, a key maps to the value of its last item. */
  lemma {:induction false} FromItemsLastWins<K, V>(s: seq<(K, V)>, i: nat)
    requires i < |s|
    requires forall j :: i < j < |s| ==> s[j].0 != s[i].0
    ensures s[i].0 in FromItems(s).m && FromItems(s).m[s[i].0] == s[i].1
  {
    var pre, x := s[..|s| - 1], s[|s| - 1];
    if i < |pre| {
      assert forall j :: 0 <= j < |pre| ==> pre[j] == s[j];
      FromItemsLastWins(pre, i);
      assert x.0 != s[i].0;
    }
  }

  /** Every entry of `dict(items)` comes from one of the items. */
  lemma {:induction false} FromItemsSource<K, V>(s: seq<(K, V)>, k: K)
    requires k in FromItems(s).m
    ensures exists i :: 0 <= i < |s| && s[i] == (k, FromItems(s).m[k])
  {
    var pre, x := s[..|s| - 1], s[|s| - 1];
    if k == x.0 {
      assert s[|s| - 1] == (k, FromItems(s).m[k]);
    } else {
      FromItemsSource(pre, k);
      var i :| 0 <= i < |pre| && pre[i] == (k, FromItems(pre).m[k]);
      assert s[i] == pre[i];
    }
  }

  lemma {:induction false} DistinctKeysOnce<K, V>(s: seq<(K, V)>, x: (K, V))
    requires DistinctKeys(s)
    ensures multiset(s)[x] <= 1
  {
    if s != [] {
      var pre, y := s[..|s| - 1], s[|s| - 1];
      DistinctKeysOnce(pre, x);
      assert s == pre + [y];
      if x == y {
        assert forall i :: 0 <= i < |pre| ==> pre[i].0 != y.0;
        assert x !in pre;
      }
    }
  }

  lemma DuplicateCounted<T>(s: seq<T>, i: int, j: int)
    requires 0 <= i < j < |s| && s[i] == s[j]
    ensures multiset(s)[s[i]] >= 2
  {
    assert s == s[..j] + s[j..];
    assert s[i] in s[..j];
    assert s[j] in s[j..];
  }

  lemma SameKeySamePair<K, V>(t: seq<(K, V)>, x: (K, V), y: (K, V))
    requires DistinctKeys(t) && x in t && y in t && x.0 == y.0
    ensures x == y
  {
    var p :| 0 <= p < |t| && t[p] == x;
    var q :| 0 <= q < |t| && t[q] == y;
  }

  /** Reordering pairs whose keys are distinct leaves the keys distinct. */
  lemma PermutationKeepsDistinctKeys<K, V>(s: seq<(K, V)>, t: seq<(K, V)>)
    requires multiset(s) == multiset(t) && DistinctKeys(t)
    ensures DistinctKeys(s)
  {
    forall i, j | 0 <= i < j < |s| ensures s[i].0 != s[j].0 {
      if s[i].0 == s[j].0 {
        assert s[i] in multiset(t) && s[j] in multiset(t);
        SameKeySamePair(t, s[i], s[j]);
        DuplicateCounted(s, i, j);
        DistinctKeysOnce(t, s[i]);
      }
    }
  }
}
