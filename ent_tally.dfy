/**
 * `get_ent_to_label_to_n`: for every region, how many samples carried each
 * label, as a dict of dicts whose keys remember their first insertion.
 */
module EntTally {
  import opened Dicts
  import opened Geo

  /** region id -> label -> number of samples */
  type Tally = ODict<string, ODict<string, nat>>

  /** The outer dict and every inner dict are well formed. */
  ghost predicate TallyValid(t: Tally) {
    t.Valid() && forall e :: e in t.m ==> t.m[e].Valid()
  }

  /** One sample counted: the region's inner dict is created on first sight, then the label's count goes up by one. */
  function Bump(t: Tally, entId: string, labelText: string): (r: Tally)
    requires TallyValid(t)
    ensures TallyValid(r)
  {
    Put(t, entId, Inc(if entId in t.m then t.m[entId] else Empty(), labelText))
  }

  /** The tally of a list of samples, counted in order. */
  function TallyOf(infos: seq<Info>): (t: Tally)
    ensures TallyValid(t)
  {
    if infos == [] then Empty()
    else
      var last := infos[|infos| - 1];
      Bump(TallyOf(infos[..|infos| - 1]), last.entId, last.labelText)
  }

  /**
   * `get_ent_to_label_to_n`: for each sample, creates the region's dict and the
   * label's count when missing, then increments the count.
   */
  method GetEntToLabelToN(infos: seq<Info>) returns (idx: Tally)
    ensures idx == TallyOf(infos)
  {
    idx := Empty();
    for i := 0 to |infos|
      invariant idx == TallyOf(infos[..i])
    {
      assert infos[..i + 1][..i] == infos[..i];
      ghost var before := idx;
      var entId, labelText := infos[i].entId, infos[i].labelText;
      if entId !in idx.m {
        idx := Put(idx, entId, Empty());
      }
      var inner := idx.m[entId];
      ghost var innerBefore := inner;
      if labelText !in inner.m {
        inner := Put(inner, labelText, 0);
        PutTwice(innerBefore, labelText, 0, 1);
      }
      inner := Put(inner, labelText, inner.m[labelText] + 1);
      assert inner == Inc(innerBefore, labelText);
      if entId !in before.m {
        PutTwice(before, entId, Empty(), inner);
      }
      idx := Put(idx, entId, inner);
      assert idx == Bump(before, entId, labelText);
    }
    assert infos[..|infos|] == infos;
  }

  /** The region ids of the samples, in order. */
  function EntIds(infos: seq<Info>): seq<string> {
    seq(|infos|, i requires 0 <= i < |infos| => infos[i].entId)
  }

  /** The labels of the samples of region `e`, in order. */
  function LabelsOf(infos: seq<Info>, e: string): seq<string> {
    if infos == [] then []
    else
      var last := infos[|infos| - 1];
      LabelsOf(infos[..|infos| - 1], e) + (if last.entId == e then [last.labelText] else [])
  }

  lemma TallyOfStep(pre: seq<Info>, x: Info)
    ensures TallyOf(pre + [x]) == Bump(TallyOf(pre), x.entId, x.labelText)
  {
    assert (pre + [x])[..|pre|] == pre;
  }

  lemma EntIdsStep(pre: seq<Info>, x: Info)
    ensures EntIds(pre + [x]) == EntIds(pre) + [x.entId]
  {
    var a, b := EntIds(pre + [x]), EntIds(pre) + [x.entId];
    assert |a| == |b|;
    forall i | 0 <= i < |a| ensures a[i] == b[i] {
      if i < |pre| {
        assert (pre + [x])[i] == pre[i];
      }
    }
  }

  lemma LabelsOfStep(pre: seq<Info>, x: Info, e: string)
    ensures LabelsOf(pre + [x], e) == LabelsOf(pre, e) + (if x.entId == e then [x.labelText] else [])
  {
    assert (pre + [x])[..|pre|] == pre;
  }

  lemma CounterStep<K>(ks: seq<K>, k: K)
    ensures Counter(ks + [k]) == Inc(Counter(ks), k)
  {
    assert (ks + [k])[..|ks|] == ks;
  }

  /** The outer keys are those of the region-id counter, and a region is a key exactly when some sample carries it. */
  ghost predicate KeysShaped(infos: seq<Info>) {
    && TallyOf(infos).keys == Counter(EntIds(infos)).keys
    && forall e :: e in TallyOf(infos).m <==> LabelsOf(infos, e) != []
  }

  /** Each inner dict is the counter of its region's labels. */
  ghost predicate InnerShaped(infos: seq<Info>) {
    forall e :: e in TallyOf(infos).m ==> TallyOf(infos).m[e] == Counter(LabelsOf(infos, e))
  }

  lemma KeysStep(pre: seq<Info>, x: Info)
    requires KeysShaped(pre)
    ensures KeysShaped(pre + [x])
  {
    assert TallyOf(pre + [x]).keys == Counter(EntIds(pre + [x])).keys by {
      TallyOfStep(pre, x);
      EntIdsStep(pre, x);
      CounterStep(EntIds(pre), x.entId);
      assert x.entId in TallyOf(pre).m <==> x.entId in Counter(EntIds(pre)).m;
    }
    forall e ensures e in TallyOf(pre + [x]).m <==> LabelsOf(pre + [x], e) != [] {
      KeysStepAt(pre, x, e);
    }
  }

  lemma KeysStepAt(pre: seq<Info>, x: Info, e: string)
    requires KeysShaped(pre)
    ensures e in TallyOf(pre + [x]).m <==> LabelsOf(pre + [x], e) != []
  {
    TallyOfStep(pre, x);
    LabelsOfStep(pre, x, e);
    if e != x.entId {
      assert LabelsOf(pre, e) + [] == LabelsOf(pre, e);
    }
  }

  lemma InnerStepAt(pre: seq<Info>, x: Info, e: string)
    requires KeysShaped(pre) && InnerShaped(pre)
    requires e in TallyOf(pre + [x]).m
    ensures TallyOf(pre + [x]).m[e] == Counter(LabelsOf(pre + [x], e))
  {
    TallyOfStep(pre, x);
    LabelsOfStep(pre, x, e);
    var t, r := TallyOf(pre), TallyOf(pre + [x]);
    if e == x.entId {
      var previous := if e in t.m then t.m[e] else Empty();
      assert previous == Counter(LabelsOf(pre, e));
      CounterStep(LabelsOf(pre, e), x.labelText);
    } else {
      assert LabelsOf(pre, e) + [] == LabelsOf(pre, e);
    }
  }

  lemma InnerStep(pre: seq<Info>, x: Info)
    requires KeysShaped(pre) && InnerShaped(pre)
    ensures InnerShaped(pre + [x])
  {
    forall e | e in TallyOf(pre + [x]).m ensures TallyOf(pre + [x]).m[e] == Counter(LabelsOf(pre + [x], e)) {
      InnerStepAt(pre, x, e);
    }
  }

  /**
   * The outer dict is the counter of the region ids, and each inner dict is the
   * counter of the labels of that region's samples; a region is a key exactly
   * when some sample carries it.
   */
  lemma {:induction false} TallyShape(infos: seq<Info>)
    ensures TallyOf(infos).keys == Counter(EntIds(infos)).keys
    ensures forall e :: e in TallyOf(infos).m <==> LabelsOf(infos, e) != []
    ensures forall e :: e in TallyOf(infos).m ==> TallyOf(infos).m[e] == Counter(LabelsOf(infos, e))
  {
    if infos != [] {
      var pre, x := infos[..|infos| - 1], infos[|infos| - 1];
      assert infos == pre + [x];
      TallyShape(pre);
      KeysStep(pre, x);
      InnerStep(pre, x);
    }
  }

  /**
   * Region `e` is a key exactly when some sample carries it; its inner dict has
   * exactly the labels of its samples, each with the number of samples that
   * carry both `e` and that label, so no inner dict is empty and every count is
   * at least one.
   */
  lemma TallyCounts(infos: seq<Info>)
    ensures var t := TallyOf(infos);
      && (forall e :: e in t.m <==> e in EntIds(infos))
      && (forall e :: e in t.m ==> t.m[e].keys != [])
      && (forall e, l :: e in t.m ==> (l in t.m[e].m <==> l in LabelsOf(infos, e)))
      && (forall e, l :: e in t.m && l in t.m[e].m ==>
            t.m[e].m[l] == multiset(LabelsOf(infos, e))[l] && t.m[e].m[l] >= 1)
  {
    var t := TallyOf(infos);
    TallyShape(infos);
    CounterCounts(EntIds(infos));
    forall e | e in t.m
      ensures t.m[e].keys != []
      ensures forall l :: l in t.m[e].m <==> l in LabelsOf(infos, e)
      ensures forall l :: l in t.m[e].m ==> t.m[e].m[l] == multiset(LabelsOf(infos, e))[l] >= 1
    {
      RegionCounts(infos, e);
    }
  }

  lemma RegionCounts(infos: seq<Info>, e: string)
    requires e in TallyOf(infos).m
    ensures var inner := TallyOf(infos).m[e];
      && inner.keys != []
      && (forall l :: l in inner.m <==> l in LabelsOf(infos, e))
      && (forall l :: l in inner.m ==> inner.m[l] == multiset(LabelsOf(infos, e))[l] >= 1)
  {
    var inner, labels := TallyOf(infos).m[e], LabelsOf(infos, e);
    assert inner == Counter(labels) && labels != [] by {
      TallyShape(infos);
    }
    CounterCounts(labels);
    assert labels[0] in inner.m;
  }

  /** Regions appear in the order of their first sample, and labels in the order of their first sample in that region. */
  lemma TallyOrder(infos: seq<Info>)
    ensures var t := TallyOf(infos);
      && InFirstOccurrenceOrder(t.keys, EntIds(infos))
      && forall e :: e in t.m ==> InFirstOccurrenceOrder(t.m[e].keys, LabelsOf(infos, e))
  {
    TallyShape(infos);
    CounterKeyOrder(EntIds(infos));
    forall e | e in TallyOf(infos).m
      ensures InFirstOccurrenceOrder(TallyOf(infos).m[e].keys, LabelsOf(infos, e))
    {
      CounterKeyOrder(LabelsOf(infos, e));
    }
  }

  /** The number of samples counted for each region. */
  ghost function RegionTotals(t: Tally): map<string, nat>
    requires TallyValid(t)
  {
    map e | e in t.m :: Total(t.m[e])
  }

  /** The sum of all counts over all regions and labels. */
  ghost function GrandTotal(t: Tally): nat
    requires TallyValid(t)
  {
    SumOver(t.keys, RegionTotals(t))
  }

  /** After counting one sample, the sample's region totals one more, and every other region is unchanged. */
  lemma BumpRegionTotal(t: Tally, entId: string, labelText: string, e: string)
    requires TallyValid(t)
    requires e in Bump(t, entId, labelText).m
    ensures e in RegionTotals(Bump(t, entId, labelText))
    ensures e == entId ==>
      RegionTotals(Bump(t, entId, labelText))[e] == (if entId in t.m then Total(t.m[entId]) else 0) + 1
    ensures e != entId ==> e in t.m && RegionTotals(Bump(t, entId, labelText))[e] == RegionTotals(t)[e]
  {
    var r := Bump(t, entId, labelText);
    if e == entId {
      var previous := if entId in t.m then t.m[entId] else Empty();
      TotalInc(previous, labelText);
      assert r.m[e] == Inc(previous, labelText);
    } else {
      assert r.m[e] == t.m[e];
    }
  }

  /** After counting one sample, the region totals are the old ones with the sample's region raised by one. */
  lemma BumpRegionTotals(t: Tally, entId: string, labelText: string)
    requires TallyValid(t)
    ensures var v := (if entId in t.m then Total(t.m[entId]) else 0) + 1;
      var r := Bump(t, entId, labelText);
      forall e :: e in r.keys ==>
        e in RegionTotals(r) && e in RegionTotals(t)[entId := v] && RegionTotals(r)[e] == RegionTotals(t)[entId := v][e]
  {
    var r := Bump(t, entId, labelText);
    forall e | e in r.keys {
      BumpRegionTotal(t, entId, labelText, e);
    }
  }

  /** The grand total after counting one sample, as a sum over the raised region totals. */
  lemma BumpGrandTotal(t: Tally, entId: string, labelText: string)
    requires TallyValid(t)
    ensures var r := Bump(t, entId, labelText);
      var v := (if entId in t.m then Total(t.m[entId]) else 0) + 1;
      GrandTotal(r) == SumOver(r.keys, RegionTotals(t)[entId := v])
  {
    var r := Bump(t, entId, labelText);
    var v := (if entId in t.m then Total(t.m[entId]) else 0) + 1;
    BumpRegionTotals(t, entId, labelText);
    SumOverSame(r.keys, RegionTotals(r), RegionTotals(t)[entId := v]);
  }

  /** Counting one sample adds one to the grand total. */
  lemma BumpTotal(t: Tally, entId: string, labelText: string)
    requires TallyValid(t)
    ensures GrandTotal(Bump(t, entId, labelText)) == GrandTotal(t) + 1
  {
    var r := Bump(t, entId, labelText);
    var v := (if entId in t.m then Total(t.m[entId]) else 0) + 1;
    BumpGrandTotal(t, entId, labelText);
    SumOverRaise(t.keys, r.keys, RegionTotals(t), entId, v);
  }

  /** Raising one key's value by one, or appending a new key with value one, adds one to the sum. */
  lemma SumOverRaise(keys: seq<string>, newKeys: seq<string>, totals: map<string, nat>, e: string, v: nat)
    requires Distinct(keys) && forall k :: k in keys ==> k in totals
    requires e in keys ==> newKeys == keys && v == totals[e] + 1
    requires e !in keys ==> newKeys == keys + [e] && v == 1
    ensures forall k :: k in newKeys ==> k in totals[e := v]
    ensures SumOver(newKeys, totals[e := v]) == SumOver(keys, totals) + 1
  {
    SumOverUpdate(keys, totals, e, v);
    if e !in keys {
      SumOverAppend(keys, e, totals[e := v]);
    }
  }

  /** The counts over all regions and labels add up to the number of samples. */
  lemma {:induction false} TallyTotal(infos: seq<Info>)
    ensures GrandTotal(TallyOf(infos)) == |infos|
  {
    if infos != [] {
      var pre, x := infos[..|infos| - 1], infos[|infos| - 1];
      TallyTotal(pre);
      BumpTotal(TallyOf(pre), x.entId, x.labelText);
    }
  }
}
