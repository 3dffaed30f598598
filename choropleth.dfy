/**
 * The decisions behind the region map (`generate_image_for_ents`), without the
 * drawing: the label-to-colour inversion, the dominant label of each region,
 * the fill each region is drawn with, and the share of the population that
 * lives in coloured regions.
 */
module Choropleth {
  import opened Wrappers
  import opened Dicts
  import opened StableSort
  import opened Colors
  import opened Geo
  import opened EntTally

  // ---------------------------------------------------------------------------
  // label_to_color
  // ---------------------------------------------------------------------------

  /** Each pair with its components swapped. */
  function Swapped<A, B>(s: seq<(A, B)>): seq<(B, A)> {
    seq(|s|, i requires 0 <= i < |s| => (s[i].1, s[i].0))
  }

  /** `{label: color for color, label in color_to_label.items()}` */
  function InvertLabels(colorToLabel: ODict<Color, string>): ODict<string, Color>
    requires colorToLabel.Valid()
  {
    FromItems(Swapped(Items(colorToLabel)))
  }

  /** The swapped items list each palette colour's label with the colour, in palette order. */
  lemma SwappedItems(colorToLabel: ODict<Color, string>)
    requires colorToLabel.Valid()
    ensures var s := Swapped(Items(colorToLabel));
      && |s| == |colorToLabel.keys|
      && forall i :: 0 <= i < |s| ==> s[i] == (colorToLabel.m[colorToLabel.keys[i]], colorToLabel.keys[i])
  {
  }

  /** The inverted dict has exactly the labels of the palette. */
  lemma InvertLabelsKeys(colorToLabel: ODict<Color, string>)
    requires colorToLabel.Valid()
    ensures InvertLabels(colorToLabel).Valid()
    ensures forall l :: l in InvertLabels(colorToLabel).m <==> l in colorToLabel.m.Values
  {
    var s := Swapped(Items(colorToLabel));
    var keys, m := colorToLabel.keys, colorToLabel.m;
    SwappedItems(colorToLabel);
    FromItemsKeys(s);
    forall l ensures l in InvertLabels(colorToLabel).m <==> l in m.Values {
      if l in m.Values {
        var c :| c in m && m[c] == l;
        var i :| 0 <= i < |keys| && keys[i] == c;
        assert s[i].0 == l;
      }
    }
  }

  /** Each label maps back to a palette colour that carries that label. */
  lemma InvertLabelsInverts(colorToLabel: ODict<Color, string>, l: string)
    requires colorToLabel.Valid()
    requires l in InvertLabels(colorToLabel).m
    ensures InvertLabels(colorToLabel).m[l] in colorToLabel.m
    ensures colorToLabel.m[InvertLabels(colorToLabel).m[l]] == l
  {
    var s := Swapped(Items(colorToLabel));
    SwappedItems(colorToLabel);
    FromItemsSource(s, l);
    var i :| 0 <= i < |s| && s[i] == (l, FromItems(s).m[l]);
  }

  /** When several palette colours share a label, the one listed last wins. */
  lemma InvertLabelsLastWins(colorToLabel: ODict<Color, string>, i: nat)
    requires colorToLabel.Valid() && i < |colorToLabel.keys|
    requires forall j :: i < j < |colorToLabel.keys| ==>
      colorToLabel.m[colorToLabel.keys[j]] != colorToLabel.m[colorToLabel.keys[i]]
    ensures colorToLabel.m[colorToLabel.keys[i]] in InvertLabels(colorToLabel).m
    ensures InvertLabels(colorToLabel).m[colorToLabel.m[colorToLabel.keys[i]]] == colorToLabel.keys[i]
  {
    var s := Swapped(Items(colorToLabel));
    SwappedItems(colorToLabel);
    assert forall j :: i < j < |s| ==> s[j].0 != s[i].0;
    FromItemsLastWins(s, i);
  }

  // ---------------------------------------------------------------------------
  // The dominant label
  // ---------------------------------------------------------------------------

  /** The counts as reals, the sort's key type. */
  function AsReals<K>(s: seq<(K, nat)>): seq<(K, real)> {
    seq(|s|, i requires 0 <= i < |s| => (s[i].0, s[i].1 as real))
  }

  /**
   * `sorted(label_to_n.items(), key=count, reverse=True)[0][0]`; None where
   * indexing the empty list raises.
   */
  function DominantLabel(labelToN: ODict<string, nat>): Option<string>
    requires labelToN.Valid()
  {
    var sorted := SortDesc(AsReals(Items(labelToN)));
    if sorted == [] then None else Some(sorted[0].0)
  }

  /**
   * There is a dominant label exactly when some label was counted; it has the
   * largest count, and every label inserted before it has a smaller one, so
   * ties go to the label inserted first.
   */
  lemma DominantLabelSpec(labelToN: ODict<string, nat>)
    requires labelToN.Valid()
    ensures var r, keys := DominantLabel(labelToN), labelToN.keys;
      && (r.None? <==> keys == [])
      && (r.Some? ==> exists i :: (0 <= i < |keys| && keys[i] == r.value
            && (forall j :: 0 <= j < |keys| ==> labelToN.m[keys[j]] <= labelToN.m[keys[i]])
            && (forall j :: 0 <= j < i ==> labelToN.m[keys[j]] < labelToN.m[keys[i]])))
  {
    var keys, m := labelToN.keys, labelToN.m;
    var s := AsReals(Items(labelToN));
    assert |s| == |keys|;
    if s != [] {
      SortHeadIsFirstMaximum(s);
      var i :| 0 <= i < |s| && s[i] == SortDesc(s)[0]
        && (forall j :: 0 <= j < |s| ==> s[j].1 <= s[i].1)
        && (forall j :: 0 <= j < i ==> s[j].1 < s[i].1);
      assert s[i] == (keys[i], m[keys[i]] as real);
      forall j | 0 <= j < |keys| ensures m[keys[j]] <= m[keys[i]] {
        assert s[j] == (keys[j], m[keys[j]] as real);
      }
      forall j | 0 <= j < i ensures m[keys[j]] < m[keys[i]] {
        assert s[j] == (keys[j], m[keys[j]] as real);
      }
    }
  }

  // ---------------------------------------------------------------------------
  // The population loop
  // ---------------------------------------------------------------------------

  /** A region as the drawing step lists it. */
  datatype Region = Region(id: string, population: int)

  /** The face colour of a region: white, or the colour of its dominant label. */
  datatype Fill = White | Paint(color: Color)

  /** Why drawing the map raises. */
  datatype DrawError =
    | NoLabelCounts(entId: string)      // `sorted(...)[0]` of an empty dict
    | LabelWithoutColor(labelText: string)  // `label_to_color[max_label]` misses
    | ZeroTotalPopulation               // `coloured_population / total_population`

  /** The fill of one region: white when it has no samples, else the colour of its dominant label. */
  function FillOf(region: Region, tally: Tally, labelToColor: ODict<string, Color>): Result<Fill, DrawError>
    requires TallyValid(tally)
  {
    if region.id !in tally.m then Ok(White)
    else
      match DominantLabel(tally.m[region.id])
      case None => Err(NoLabelCounts(region.id))
      case Some(l) => if l in labelToColor.m then Ok(Paint(labelToColor.m[l])) else Err(LabelWithoutColor(l))
  }

  /** The fills of the regions in order, or the error of the first region that raises. */
  function Fills(regions: seq<Region>, tally: Tally, labelToColor: ODict<string, Color>): Result<seq<Fill>, DrawError>
    requires TallyValid(tally)
  {
    if regions == [] then Ok([])
    else
      match Fills(regions[..|regions| - 1], tally, labelToColor)
      case Err(e) => Err(e)
      case Ok(fills) =>
        match FillOf(regions[|regions| - 1], tally, labelToColor)
        case Err(e) => Err(e)
        case Ok(f) => Ok(fills + [f])
  }

  /** The sum of the populations. */
  function TotalPopulation(regions: seq<Region>): int {
    if regions == [] then 0 else TotalPopulation(regions[..|regions| - 1]) + regions[|regions| - 1].population
  }

  /** The sum of the populations of the regions that have samples. */
  function ColouredPopulation(regions: seq<Region>, tally: Tally): int {
    if regions == [] then 0
    else
      var last := regions[|regions| - 1];
      ColouredPopulation(regions[..|regions| - 1], tally) + (if last.id in tally.m then last.population else 0)
  }

  /** What the map shows: one fill per region, and the coloured share of the population. */
  datatype Colouring = Colouring(fills: seq<Fill>, pColoured: real)

  /** The outcome of the loop and the division after it. */
  function Colour(regions: seq<Region>, tally: Tally, colorToLabel: ODict<Color, string>): Result<Colouring, DrawError>
    requires colorToLabel.Valid() && TallyValid(tally)
  {
    match Fills(regions, tally, InvertLabels(colorToLabel))
    case Err(e) => Err(e)
    case Ok(fills) =>
      var total := TotalPopulation(regions);
      if total == 0 then Err(ZeroTotalPopulation)
      else Ok(Colouring(fills, ColouredPopulation(regions, tally) as real / total as real))
  }

  /** Once a prefix has raised, the whole list raises with the same error. */
  lemma {:induction false} FillsErrorPersists(regions: seq<Region>, k: nat, tally: Tally, labelToColor: ODict<string, Color>)
    requires TallyValid(tally) && k <= |regions|
    requires Fills(regions[..k], tally, labelToColor).Err?
    ensures Fills(regions, tally, labelToColor) == Fills(regions[..k], tally, labelToColor)
    decreases |regions| - k
  {
    if k < |regions| {
      assert regions[..k + 1][..k] == regions[..k];
      FillsErrorPersists(regions, k + 1, tally, labelToColor);
    } else {
      assert regions[..k] == regions;
    }
  }

  /** Extending the prefix by region `i` extends the three folds by that region. */
  lemma PrefixStep(regions: seq<Region>, i: nat, tally: Tally, labelToColor: ODict<string, Color>)
    requires TallyValid(tally) && i < |regions|
    ensures TotalPopulation(regions[..i + 1]) == TotalPopulation(regions[..i]) + regions[i].population
    ensures ColouredPopulation(regions[..i + 1], tally)
      == ColouredPopulation(regions[..i], tally) + (if regions[i].id in tally.m then regions[i].population else 0)
    ensures Fills(regions[..i + 1], tally, labelToColor)
      == match Fills(regions[..i], tally, labelToColor)
         case Err(e) => Err(e)
         case Ok(fills) =>
           match FillOf(regions[i], tally, labelToColor)
           case Err(e) => Err(e)
           case Ok(f) => Ok(fills + [f])
  {
    assert regions[..i + 1][..i] == regions[..i];
  }

  /**
   * The population loop of `generate_image_for_ents`: adds every population to
   * the total and the populations of regions with samples to the coloured sum,
   * picks each region's fill, then divides.
   */
  method ColourEnts(regions: seq<Region>, tally: Tally, colorToLabel: ODict<Color, string>)
    returns (r: Result<Colouring, DrawError>)
    requires colorToLabel.Valid() && TallyValid(tally)
    ensures r == Colour(regions, tally, colorToLabel)
  {
    var labelToColor := InvertLabels(colorToLabel);
    var totalPopulation, colouredPopulation := 0, 0;
    var fills := [];
    for i := 0 to |regions|
      invariant totalPopulation == TotalPopulation(regions[..i])
      invariant colouredPopulation == ColouredPopulation(regions[..i], tally)
      invariant Fills(regions[..i], tally, labelToColor) == Ok(fills)
    {
      PrefixStep(regions, i, tally, labelToColor);
      var region := regions[i];
      totalPopulation := totalPopulation + region.population;
      var fill;
      if region.id in tally.m {
        colouredPopulation := colouredPopulation + region.population;
        var labelToN := tally.m[region.id];
        var sorted := SortDesc(AsReals(Items(labelToN)));
        if sorted == [] {
          FillsErrorPersists(regions, i + 1, tally, labelToColor);
          return Err(NoLabelCounts(region.id));
        }
        var maxLabel := sorted[0].0;
        if maxLabel !in labelToColor.m {
          FillsErrorPersists(regions, i + 1, tally, labelToColor);
          return Err(LabelWithoutColor(maxLabel));
        }
        fill := Paint(labelToColor.m[maxLabel]);
      } else {
        fill := White;
      }
      fills := fills + [fill];
    }
    assert regions[..|regions|] == regions;
    if totalPopulation == 0 {
      return Err(ZeroTotalPopulation);
    }
    return Ok(Colouring(fills, colouredPopulation as real / totalPopulation as real));
  }

  // ---------------------------------------------------------------------------
  // Properties
  // ---------------------------------------------------------------------------

  /**
   * The fills succeed exactly when every region's fill does; then there is one
   * fill per region, each the region's own; otherwise the error is that of the
   * first region that raises.
   */
  lemma {:induction false} FillsSpec(regions: seq<Region>, tally: Tally, labelToColor: ODict<string, Color>)
    requires TallyValid(tally)
    ensures var r := Fills(regions, tally, labelToColor);
      && (r.Ok? <==> forall i :: 0 <= i < |regions| ==> FillOf(regions[i], tally, labelToColor).Ok?)
      && (r.Ok? ==> (|r.value| == |regions|
            && forall i :: 0 <= i < |regions| ==> FillOf(regions[i], tally, labelToColor) == Ok(r.value[i])))
      && (r.Err? ==> exists i :: (0 <= i < |regions| && FillOf(regions[i], tally, labelToColor) == Err(r.error)
            && forall j :: 0 <= j < i ==> FillOf(regions[j], tally, labelToColor).Ok?))
  {
    if regions != [] {
      var pre := regions[..|regions| - 1];
      FillsSpec(pre, tally, labelToColor);
      assert forall i :: 0 <= i < |pre| ==> pre[i] == regions[i];
    }
  }

  /**
   * A region is white exactly when it has no samples; a painted region gets a
   * colour whose label is the region's dominant label.
   */
  lemma FillOfSpec(region: Region, tally: Tally, colorToLabel: ODict<Color, string>)
    requires colorToLabel.Valid() && TallyValid(tally)
    ensures var f := FillOf(region, tally, InvertLabels(colorToLabel));
      && (f == Ok(White) <==> region.id !in tally.m)
      && (f.Ok? && f.value.Paint? ==>
            && region.id in tally.m
            && DominantLabel(tally.m[region.id]).Some?
            && f.value.color in colorToLabel.m
            && colorToLabel.m[f.value.color] == DominantLabel(tally.m[region.id]).value)
  {
    var f := FillOf(region, tally, InvertLabels(colorToLabel));
    if f.Ok? && f.value.Paint? {
      InvertLabelsInverts(colorToLabel, DominantLabel(tally.m[region.id]).value);
    }
  }

  /** A tally built from samples has a dominant label for each of its regions, so `NoLabelCounts` never arises from it. */
  lemma TallyHasDominantLabels(infos: seq<Info>, e: string)
    requires e in TallyOf(infos).m
    ensures DominantLabel(TallyOf(infos).m[e]).Some?
  {
    RegionCounts(infos, e);
    DominantLabelSpec(TallyOf(infos).m[e]);
  }

  /** With non-negative populations the coloured sum lies between 0 and the total. */
  lemma {:induction false} PopulationBounds(regions: seq<Region>, tally: Tally)
    requires forall i :: 0 <= i < |regions| ==> regions[i].population >= 0
    ensures 0 <= ColouredPopulation(regions, tally) <= TotalPopulation(regions)
  {
    if regions != [] {
      var pre := regions[..|regions| - 1];
      assert forall i :: 0 <= i < |pre| ==> pre[i] == regions[i];
      PopulationBounds(pre, tally);
    }
  }

  /** With non-negative populations the coloured share is a fraction between 0 and 1. */
  lemma ColouredShareBounds(regions: seq<Region>, tally: Tally, colorToLabel: ODict<Color, string>)
    requires colorToLabel.Valid() && TallyValid(tally)
    requires forall i :: 0 <= i < |regions| ==> regions[i].population >= 0
    requires Colour(regions, tally, colorToLabel).Ok?
    ensures 0.0 <= Colour(regions, tally, colorToLabel).value.pColoured <= 1.0
  {
    PopulationBounds(regions, tally);
    FractionBounds(ColouredPopulation(regions, tally) as real, TotalPopulation(regions) as real);
  }
}
