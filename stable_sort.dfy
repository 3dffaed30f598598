/**
 * Python's `sorted(items, key=lambda item: item[1], reverse=True)` on a list of
 * (key, value) pairs: descending by value and, because Python's sort is stable
 * even with `reverse=True`, pairs with equal values keep their input order.
 */
module StableSort {

  /** Values never increase from left to right. */
  ghost predicate NonIncreasing<K>(s: seq<(K, real)>) {
    forall i, j :: 0 <= i < j < |s| ==> s[i].1 >= s[j].1
  }

  /** The pairs of `s` whose value is `v`, in their order in `s`. */
  ghost function WithValue<K>(s: seq<(K, real)>, v: real): seq<(K, real)> {
    if s == [] then [] else (if s[0].1 == v then [s[0]] else []) + WithValue(s[1..], v)
  }

  /** Inserts `x` after every pair whose value is at least `x`'s. */
  function InsertDesc<K>(t: seq<(K, real)>, x: (K, real)): seq<(K, real)> {
    if t == [] then [x]
    else if t[0].1 >= x.1 then [t[0]] + InsertDesc(t[1..], x)
    else [x] + t
  }

  /** Insertion sort, descending by value; the specification of Python's stable `sorted(..., reverse=True)`. */
  function SortDesc<K>(s: seq<(K, real)>): seq<(K, real)> {
    if s == [] then [] else InsertDesc(SortDesc(s[..|s| - 1]), s[|s| - 1])
  }

  // ---------------------------------------------------------------------------
  // Lemmas
  // ---------------------------------------------------------------------------

  lemma {:induction false} WithValueConcat<K>(a: seq<(K, real)>, b: seq<(K, real)>, v: real)
    ensures WithValue(a + b, v) == WithValue(a, v) + WithValue(b, v)
  {
    if a != [] {
      assert (a + b)[1..] == a[1..] + b;
      WithValueConcat(a[1..], b, v);
    } else {
      assert a + b == b;
    }
  }

  lemma {:induction false} WithValueAbsent<K>(t: seq<(K, real)>, v: real)
    requires forall i :: 0 <= i < |t| ==> t[i].1 < v
    ensures WithValue(t, v) == []
  {
    if t != [] {
      WithValueAbsent(t[1..], v);
    }
  }

  /** The first pair with value `v` is the first pair of `WithValue(s, v)`. */
  lemma {:induction false} WithValueHead<K>(s: seq<(K, real)>, v: real)
    requires WithValue(s, v) != []
    ensures exists i :: (0 <= i < |s| && s[i] == WithValue(s, v)[0] && s[i].1 == v
      && forall j :: 0 <= j < i ==> s[j].1 != v)
  {
    if s[0].1 != v {
      WithValueHead(s[1..], v);
      var i :| 0 <= i < |s[1..]| && s[1..][i] == WithValue(s[1..], v)[0] && s[1..][i].1 == v
        && forall j :: 0 <= j < i ==> s[1..][j].1 != v;
      assert s[i + 1] == WithValue(s, v)[0];
      assert forall j :: 0 <= j < i + 1 ==> s[j].1 != v by {
        forall j | 0 <= j < i + 1 ensures s[j].1 != v {
          if j > 0 { assert s[j] == s[1..][j - 1]; }
        }
      }
    } else {
      assert s[0] == WithValue(s, v)[0];
    }
  }

  lemma {:induction false} InsertDescPermutes<K>(t: seq<(K, real)>, x: (K, real))
    ensures multiset(InsertDesc(t, x)) == multiset(t) + multiset{x}
  {
    if t != [] && t[0].1 >= x.1 {
      InsertDescPermutes(t[1..], x);
      assert t == [t[0]] + t[1..];
    }
  }

  /** A property shared by `x` and every pair of `t` holds for every pair of the insertion. */
  lemma {:induction false} InsertDescAll<K>(t: seq<(K, real)>, x: (K, real), P: ((K, real)) -> bool)
    requires forall i :: 0 <= i < |t| ==> P(t[i])
    requires P(x)
    ensures forall k :: 0 <= k < |InsertDesc(t, x)| ==> P(InsertDesc(t, x)[k])
  {
    if t != [] && t[0].1 >= x.1 {
      InsertDescAll(t[1..], x, P);
      assert InsertDesc(t, x) == [t[0]] + InsertDesc(t[1..], x);
    }
  }

  /** Inserting into a sorted list keeps it sorted. */
  lemma {:induction false} InsertDescSorted<K>(t: seq<(K, real)>, x: (K, real))
    requires NonIncreasing(t)
    ensures NonIncreasing(InsertDesc(t, x))
  {
    if t != [] && t[0].1 >= x.1 {
      NonIncreasingTail(t);
      InsertDescSorted(t[1..], x);
      var rest := InsertDesc(t[1..], x);
      InsertDescAll(t[1..], x, (y: (K, real)) => y.1 <= t[0].1);
      var r := InsertDesc(t, x);
      assert r == [t[0]] + rest;
      forall i, j | 0 <= i < j < |r| ensures r[i].1 >= r[j].1 {
        assert r[j] == rest[j - 1];
        if i > 0 { assert r[i] == rest[i - 1]; }
      }
    }
  }

  lemma WithValueCons<K>(h: (K, real), rest: seq<(K, real)>, v: real)
    ensures WithValue([h] + rest, v) == (if h.1 == v then [h] else []) + WithValue(rest, v)
  {
    assert ([h] + rest)[1..] == rest;
  }

  lemma NonIncreasingTail<K>(t: seq<(K, real)>)
    requires t != [] && NonIncreasing(t)
    ensures NonIncreasing(t[1..])
    ensures forall i :: 0 <= i < |t| ==> t[i].1 <= t[0].1
  {
  }

  /** Inserting `x` puts it after every pair with its value and leaves the other values' pairs in order. */
  lemma {:induction false} InsertDescStable<K>(t: seq<(K, real)>, x: (K, real), v: real)
    requires NonIncreasing(t)
    ensures WithValue(InsertDesc(t, x), v) == WithValue(t, v) + (if x.1 == v then [x] else [])
  {
    if t == [] {
      WithValueCons(x, [], v);
    } else if t[0].1 >= x.1 {
      NonIncreasingTail(t);
      InsertDescStable(t[1..], x, v);
      WithValueCons(t[0], InsertDesc(t[1..], x), v);
    } else {
      WithValueCons(x, t, v);
      if x.1 == v {
        NonIncreasingTail(t);
        WithValueAbsent(t, v);
      }
    }
  }

  /** The sort is a permutation, sorted descending, and stable: for every value the pairs carrying it keep their input order. */
  lemma {:induction false} SortDescSpec<K>(s: seq<(K, real)>)
    ensures |SortDesc(s)| == |s|
    ensures NonIncreasing(SortDesc(s))
    ensures multiset(SortDesc(s)) == multiset(s)
    ensures forall v :: WithValue(SortDesc(s), v) == WithValue(s, v)
  {
    if s != [] {
      var pre, x := s[..|s| - 1], s[|s| - 1];
      SortDescSpec(pre);
      InsertDescPermutes(SortDesc(pre), x);
      InsertDescSorted(SortDesc(pre), x);
      assert s == pre + [x];
      forall v ensures WithValue(SortDesc(s), v) == WithValue(s, v) {
        InsertDescStable(SortDesc(pre), x, v);
        WithValueConcat(pre, [x], v);
        assert WithValue([x], v) == (if x.1 == v then [x] else []) by {
          assert [x][1..] == [];
        }
      }
      assert |SortDesc(s)| == |multiset(SortDesc(s))| == |multiset(s)| == |s|;
    }
  }

  /** The first pair of the sorted list carries the largest value, and no earlier pair of the input carries that value. */
  lemma SortHeadIsFirstMaximum<K>(s: seq<(K, real)>)
    requires s != []
    ensures |SortDesc(s)| == |s|
    ensures exists i :: (0 <= i < |s| && s[i] == SortDesc(s)[0]
      && (forall j :: 0 <= j < |s| ==> s[j].1 <= s[i].1)
      && (forall j :: 0 <= j < i ==> s[j].1 < s[i].1))
  {
    SortDescSpec(s);
    var r := SortDesc(s);
    var h := r[0];
    assert forall j :: 0 <= j < |s| ==> s[j].1 <= h.1 by {
      forall j | 0 <= j < |s| ensures s[j].1 <= h.1 {
        assert s[j] in multiset(r);
        var p :| 0 <= p < |r| && r[p] == s[j];
      }
    }
    assert WithValue(r, h.1)[0] == h;
    WithValueHead(s, h.1);
  }

  /** `rank` strictly increases along `s`. */
  ghost predicate RankIncreasing<K>(s: seq<(K, real)>, rank: K -> int) {
    forall i, j :: 0 <= i < j < |s| ==> rank(s[i].0) < rank(s[j].0)
  }

  /** Pairs with equal values appear in increasing `rank`. */
  ghost predicate TiesByRank<K>(s: seq<(K, real)>, rank: K -> int) {
    forall i, j :: 0 <= i < j < |s| && s[i].1 == s[j].1 ==> rank(s[i].0) < rank(s[j].0)
  }

  /** Prepending `h` keeps ties in rank order when `h` ranks below every later pair with its value. */
  lemma ConsTiesByRank<K>(h: (K, real), rest: seq<(K, real)>, rank: K -> int)
    requires TiesByRank(rest, rank)
    requires forall k :: 0 <= k < |rest| && rest[k].1 == h.1 ==> rank(h.0) < rank(rest[k].0)
    ensures TiesByRank([h] + rest, rank)
  {
    var r := [h] + rest;
    forall i, j | 0 <= i < j < |r| && r[i].1 == r[j].1 ensures rank(r[i].0) < rank(r[j].0) {
      assert r[j] == rest[j - 1];
      if i > 0 { assert r[i] == rest[i - 1]; }
    }
  }

  lemma {:induction false} InsertDescTiesByRank<K>(t: seq<(K, real)>, x: (K, real), rank: K -> int)
    requires NonIncreasing(t) && TiesByRank(t, rank)
    requires forall i :: 0 <= i < |t| ==> rank(t[i].0) < rank(x.0)
    ensures TiesByRank(InsertDesc(t, x), rank)
  {
    if t == [] {
    } else if t[0].1 >= x.1 {
      var h := t[0];
      assert t == [h] + t[1..];
      assert TiesByRank(t[1..], rank) && NonIncreasing(t[1..]);
      InsertDescTiesByRank(t[1..], x, rank);
      InsertDescAll(t[1..], x, (y: (K, real)) => y.1 == h.1 ==> rank(h.0) < rank(y.0));
      ConsTiesByRank(h, InsertDesc(t[1..], x), rank);
    } else {
      NonIncreasingTail(t);
      ConsTiesByRank(x, t, rank);
    }
  }

  /**
   * Stability seen through a rank: when the input lists its keys in increasing
   * rank (first occurrence, insertion order), pairs with equal values come out
   * of the sort in increasing rank.
   */
  lemma {:induction false} SortDescTiesByRank<K>(s: seq<(K, real)>, rank: K -> int)
    requires RankIncreasing(s, rank)
    ensures TiesByRank(SortDesc(s), rank)
  {
    if s != [] {
      var pre, x := s[..|s| - 1], s[|s| - 1];
      assert RankIncreasing(pre, rank);
      SortDescTiesByRank(pre, rank);
      SortDescSpec(pre);
      var t := SortDesc(pre);
      forall i | 0 <= i < |t| ensures rank(t[i].0) < rank(x.0) {
        assert t[i] in multiset(pre);
        var p :| 0 <= p < |pre| && pre[p] == t[i];
        assert s[p] == t[i];
      }
      InsertDescTiesByRank(t, x, rank);
    }
  }
}
