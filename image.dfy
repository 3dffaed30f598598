/**
 * The colour side of the decoder: the saturation mask that turns washed-out
 * pixels into the background, the mask-cluster-mask pipeline that produces the
 * colour matrix, and the histogram of the colours the grid sampler kept.
 *
 * The k-means clustering is a parameter, `centreOf`, that maps each pixel to
 * the centre of its cluster.
 */
module ImageOps {
  import opened Dicts
  import opened StableSort
  import opened Colors
  import opened Geo

  // ---------------------------------------------------------------------------
  // replace_low_saturation_colors
  // ---------------------------------------------------------------------------

  /** What the mask does to one pixel: a pixel becomes the background exactly when its saturation is strictly below the threshold. */
  function Masked(c: Color, minSaturation: real, background: Color): (r: Color)
    ensures Saturation(c) < minSaturation ==> r == background
    ensures Saturation(c) >= minSaturation ==> r == c
  {
    if Saturation(c) < minSaturation then background else c
  }

  /** Masking twice with the same parameters is masking once. */
  lemma MaskedIdempotent(c: Color, minSaturation: real, background: Color)
    ensures Masked(Masked(c, minSaturation, background), minSaturation, background)
         == Masked(c, minSaturation, background)
  {
  }

  /** A pixel whose saturation equals the threshold is kept: the comparison is strict. */
  lemma MaskedKeepsThreshold(c: Color, minSaturation: real, background: Color)
    requires Saturation(c) == minSaturation
    ensures Masked(c, minSaturation, background) == c
  {
  }

  /**
   * `replace_low_saturation_colors`: copies the image, then overwrites every
   * pixel of low saturation with the background. The input is not modified.
   */
  method ReplaceLowSaturationColors(a: array2<Color>, minSaturation: real, background: Color)
    returns (res: array2<Color>)
    ensures fresh(res) && res.Length0 == a.Length0 && res.Length1 == a.Length1
    ensures forall i, j :: 0 <= i < a.Length0 && 0 <= j < a.Length1 ==>
      res[i, j] == Masked(a[i, j], minSaturation, background)
  {
    res := new Color[a.Length0, a.Length1]((i, j) reads a requires 0 <= i < a.Length0 && 0 <= j < a.Length1 => a[i, j]);
    for i := 0 to res.Length0
      invariant forall p, q :: 0 <= p < i && 0 <= q < res.Length1 ==> res[p, q] == Masked(a[p, q], minSaturation, background)
      invariant forall p, q :: i <= p < res.Length0 && 0 <= q < res.Length1 ==> res[p, q] == a[p, q]
    {
      for j := 0 to res.Length1
        invariant forall p, q :: 0 <= p < i && 0 <= q < res.Length1 ==> res[p, q] == Masked(a[p, q], minSaturation, background)
        invariant forall q :: 0 <= q < j ==> res[i, q] == Masked(a[i, q], minSaturation, background)
        invariant forall q :: j <= q < res.Length1 ==> res[i, q] == a[i, q]
        invariant forall p, q :: i < p < res.Length0 && 0 <= q < res.Length1 ==> res[p, q] == a[p, q]
      {
        if Saturation(res[i, j]) < minSaturation {
          res[i, j] := background;
        }
      }
    }
  }

  // ---------------------------------------------------------------------------
  // get_color_matrix
  // ---------------------------------------------------------------------------

  /**
   * `cluster_colors`: every pixel replaced by the centre of its cluster, in a
   * new array of the same shape.
   */
  method ClusterColors(a: array2<Color>, centreOf: Color -> Color) returns (res: array2<Color>)
    ensures fresh(res) && res.Length0 == a.Length0 && res.Length1 == a.Length1
    ensures forall i, j :: 0 <= i < a.Length0 && 0 <= j < a.Length1 ==> res[i, j] == centreOf(a[i, j])
  {
    res := new Color[a.Length0, a.Length1]((i, j) reads a requires 0 <= i < a.Length0 && 0 <= j < a.Length1 => centreOf(a[i, j]));
  }

  /**
   * One pixel through mask, cluster, mask. Whatever the clustering returns,
   * the result is the background or saturated enough.
   */
  function DecodedPixel(c: Color, minSaturation: real, background: Color, centreOf: Color -> Color): (r: Color)
    ensures r == background || Saturation(r) >= minSaturation
  {
    Masked(centreOf(Masked(c, minSaturation, background)), minSaturation, background)
  }

  /** A further pass of the mask leaves the colour matrix as it is. */
  lemma DecodedPixelMaskStable(c: Color, minSaturation: real, background: Color, centreOf: Color -> Color)
    ensures Masked(DecodedPixel(c, minSaturation, background, centreOf), minSaturation, background)
         == DecodedPixel(c, minSaturation, background, centreOf)
  {
    MaskedIdempotent(centreOf(Masked(c, minSaturation, background)), minSaturation, background);
  }

  /**
   * `get_color_matrix`: mask, cluster, mask. Every pixel of the result is the
   * background or has saturation at least the threshold.
   */
  method GetColorMatrix(a: array2<Color>, minSaturation: real, background: Color, centreOf: Color -> Color)
    returns (res: array2<Color>)
    ensures fresh(res) && res.Length0 == a.Length0 && res.Length1 == a.Length1
    ensures forall i, j :: 0 <= i < a.Length0 && 0 <= j < a.Length1 ==>
      res[i, j] == DecodedPixel(a[i, j], minSaturation, background, centreOf)
    ensures forall i, j :: 0 <= i < a.Length0 && 0 <= j < a.Length1 ==>
      res[i, j] == background || Saturation(res[i, j]) >= minSaturation
  {
    var masked := ReplaceLowSaturationColors(a, minSaturation, background);
    var clustered := ClusterColors(masked, centreOf);
    res := ReplaceLowSaturationColors(clustered, minSaturation, background);
  }

  // ---------------------------------------------------------------------------
  // get_most_common_colors
  // ---------------------------------------------------------------------------

  /** The colours of the samples, in order. */
  function ColorsOf(infos: seq<Info>): seq<Color> {
    seq(|infos|, i requires 0 <= i < |infos| => infos[i].color)
  }

  /** Each count divided by `n`. */
  function Shares<K>(items: seq<(K, nat)>, n: nat): seq<(K, real)>
    requires n > 0 || items == []
  {
    seq(|items|, i requires 0 <= i < |items| => (items[i].0, items[i].1 as real / n as real))
  }

  /** The share of each colour, colours in the order they first appear. */
  function Frequencies(infos: seq<Info>): seq<(Color, real)> {
    var counts := Counter(ColorsOf(infos));
    assert infos == [] ==> counts.keys == [];
    Shares(Items(counts), |infos|)
  }

  /** `get_most_common_colors`: the colour shares as a dict ordered by decreasing share. */
  function MostCommonColors(infos: seq<Info>): ODict<Color, real> {
    FromItems(SortDesc(Frequencies(infos)))
  }

  /** `get_most_common_colors`: counts the colours in a loop, then divides and sorts. */
  method GetMostCommonColors(infos: seq<Info>) returns (d: ODict<Color, real>)
    ensures d == MostCommonColors(infos)
  {
    var colorCount := Empty();
    for i := 0 to |infos|
      invariant colorCount == Counter(ColorsOf(infos[..i]))
    {
      assert ColorsOf(infos[..i + 1]) == ColorsOf(infos[..i]) + [infos[i].color];
      assert ColorsOf(infos[..i + 1])[..i] == ColorsOf(infos[..i]);
      colorCount := Inc(colorCount, infos[i].color);
    }
    assert infos[..|infos|] == infos;
    var n := |infos|;
    d := FromItems(SortDesc(Shares(Items(colorCount), n)));
  }

  /** The rank of a colour: the position of its first occurrence. */
  ghost function FirstSeen(cs: seq<Color>): Color -> int {
    c => if c in cs then FirstIndex(cs, c) as int else 0
  }

  /** One pair per key of the colour counter, in its order, each share the colour's count divided by `n`. */
  lemma FrequenciesCounts(infos: seq<Info>)
    ensures var fr, cs := Frequencies(infos), ColorsOf(infos);
      && |fr| == |Counter(cs).keys|
      && (forall i :: 0 <= i < |fr| ==> fr[i].0 == Counter(cs).keys[i])
      && (forall i :: 0 <= i < |fr| ==> fr[i].1 == multiset(cs)[fr[i].0] as real / |infos| as real)
  {
    var cs := ColorsOf(infos);
    var counts := Counter(cs);
    var items := Items(counts);
    var fr := Frequencies(infos);
    assert fr == Shares(items, |infos|);
    CounterCounts(cs);
    forall i | 0 <= i < |fr|
      ensures fr[i].0 == counts.keys[i]
      ensures fr[i].1 == multiset(cs)[fr[i].0] as real / |infos| as real
    {
      assert items[i].1 == multiset(cs)[items[i].0];
    }
  }

  /** The raw colour counts add up to the number of samples. */
  lemma ColorCountsTotal(infos: seq<Info>)
    ensures Total(Counter(ColorsOf(infos))) == |infos|
  {
    CounterTotal(ColorsOf(infos));
  }

  /** The frequency list has one pair per distinct colour, and nothing else. */
  lemma FrequenciesCover(infos: seq<Info>)
    ensures var fr, cs := Frequencies(infos), ColorsOf(infos);
      && DistinctKeys(fr)
      && (forall c :: c in cs <==> exists i :: 0 <= i < |fr| && fr[i].0 == c)
  {
    var cs := ColorsOf(infos);
    var counts := Counter(cs);
    var fr := Frequencies(infos);
    FrequenciesCounts(infos);
    CounterCounts(cs);
    forall c | c in cs ensures exists i :: 0 <= i < |fr| && fr[i].0 == c {
      var i :| 0 <= i < |counts.keys| && counts.keys[i] == c;
      assert fr[i].0 == c;
    }
  }

  /** The frequency list lists colours in the order of their first occurrence. */
  lemma FrequenciesRanked(infos: seq<Info>)
    ensures RankIncreasing(Frequencies(infos), FirstSeen(ColorsOf(infos)))
  {
    var cs := ColorsOf(infos);
    var counts := Counter(cs);
    var fr := Frequencies(infos);
    FrequenciesCounts(infos);
    CounterCounts(cs);
    CounterKeyOrder(cs);
    forall i, j | 0 <= i < j < |fr| ensures FirstSeen(cs)(fr[i].0) < FirstSeen(cs)(fr[j].0) {
      assert fr[i].0 == counts.keys[i] && fr[j].0 == counts.keys[j];
    }
  }

  /** The histogram dict lists the sorted pairs, in order, with their values. */
  lemma HistogramLayout(infos: seq<Info>)
    ensures var fr := Frequencies(infos); var sorted, d := SortDesc(fr), MostCommonColors(infos);
      && multiset(sorted) == multiset(fr)
      && NonIncreasing(sorted)
      && |d.keys| == |sorted|
      && (forall i :: 0 <= i < |sorted| ==> d.keys[i] == sorted[i].0 && d.m[sorted[i].0] == sorted[i].1)
  {
    var fr := Frequencies(infos);
    var sorted := SortDesc(fr);
    FrequenciesCover(infos);
    SortDescSpec(fr);
    PermutationKeepsDistinctKeys(sorted, fr);
    FromItemsDistinct(sorted);
  }

  /** A colour is a key of the histogram exactly when some sample has it. */
  lemma HistogramHasColor(infos: seq<Info>, c: Color)
    ensures c in MostCommonColors(infos).m <==> c in ColorsOf(infos)
  {
    var cs, fr := ColorsOf(infos), Frequencies(infos);
    var sorted := SortDesc(fr);
    assert multiset(sorted) == multiset(fr) by { SortDescSpec(fr); }
    assert c in cs <==> exists p :: 0 <= p < |fr| && fr[p].0 == c by { FrequenciesCover(infos); }
    if c in cs {
      var p :| 0 <= p < |fr| && fr[p].0 == c;
      assert fr[p] in multiset(sorted);
      var i :| 0 <= i < |sorted| && sorted[i] == fr[p];
      FromItemsHasItemKey(sorted, i);
    }
    if c in MostCommonColors(infos).m {
      FromItemsSource(sorted, c);
      var i :| 0 <= i < |sorted| && sorted[i] == (c, FromItems(sorted).m[c]);
      assert sorted[i] in multiset(fr);
      var p :| 0 <= p < |fr| && fr[p] == sorted[i];
    }
  }

  /** The histogram's keys are exactly the colours of the samples; an empty input gives an empty dict. */
  lemma MostCommonColorsKeys(infos: seq<Info>)
    ensures var d, cs := MostCommonColors(infos), ColorsOf(infos);
      && d.Valid()
      && (infos == [] ==> d.keys == [])
      && (forall c :: c in d.m <==> c in cs)
  {
    if infos == [] {
      assert Frequencies(infos) == [];
    }
    forall c ensures c in MostCommonColors(infos).m <==> c in ColorsOf(infos) {
      HistogramHasColor(infos, c);
    }
  }

  /** Each colour of the histogram maps to its count divided by the number of samples. */
  lemma MostCommonColorsShares(infos: seq<Info>)
    ensures var d, cs := MostCommonColors(infos), ColorsOf(infos);
      forall c :: c in d.m ==> d.m[c] == multiset(cs)[c] as real / |infos| as real
  {
    var cs, fr := ColorsOf(infos), Frequencies(infos);
    var sorted := SortDesc(fr);
    var d := MostCommonColors(infos);
    HistogramLayout(infos);
    FrequenciesCounts(infos);
    forall c | c in d.m ensures d.m[c] == multiset(cs)[c] as real / |infos| as real {
      var i :| 0 <= i < |d.keys| && d.keys[i] == c;
      assert sorted[i] in multiset(fr);
      var p :| 0 <= p < |fr| && fr[p] == sorted[i];
    }
  }

  /**
   * Shares never increase along the histogram, and colours with equal shares
   * keep the order of their first appearance among the samples.
   */
  lemma MostCommonColorsOrder(infos: seq<Info>)
    ensures var d, cs := MostCommonColors(infos), ColorsOf(infos);
      && d.Valid()
      && (forall i, j :: 0 <= i < j < |d.keys| ==> d.m[d.keys[i]] >= d.m[d.keys[j]])
      && (forall i, j :: 0 <= i < j < |d.keys| && d.m[d.keys[i]] == d.m[d.keys[j]] ==>
            FirstSeen(cs)(d.keys[i]) < FirstSeen(cs)(d.keys[j]))
  {
    var cs, fr := ColorsOf(infos), Frequencies(infos);
    HistogramLayout(infos);
    FrequenciesRanked(infos);
    SortDescTiesByRank(fr, FirstSeen(cs));
  }
}
