/**
 * The grid sampler: the pixel box from the extreme reference points, the grid
 * step from the pixel-per-degree scale, the classification of one pixel, and
 * the column-major scan that collects the classified samples.
 *
 * The least-squares fit of the pixel-to-latlng polynomial (`fit`) and the
 * region lookup at the map's granularity (`regionAt`) are parameters.
 */
module Geo {
  import opened Wrappers
  import opened Dicts
  import opened Colors
  import opened EntFuture

  /** The extreme-point tags a reference point may carry. */
  datatype Direction = N | S | E | W

  /** A reference point: a pixel, its known latitude/longitude, and an optional extreme-point tag. */
  datatype Reference = Reference(xy: (int, int), latlng: LatLng, extremePoint: Option<Direction>)

  /**
   * The bounds `get_extreme_points` returns. None stands for the infinite value a
   * bound starts from (+inf for the minimums, -inf for the maximums).
   */
  datatype ExtremePoints = ExtremePoints(xMin: Option<int>, xMax: Option<int>, yMin: Option<int>, yMax: Option<int>)

  /** Why the sampler raises instead of returning samples. */
  datatype DecodeError =
    | EmptyReferenceList            // no references: the fit indexes an empty array (and get_step's max() would fail too)
    | ZeroLatitudeSpan              // all reference latitudes equal: division by zero
    | MissingExtremePoint(d: Direction)  // int() of an infinite bound
    | ZeroStep                      // range() with a step of 0

  /** One classified sample: pixel, rounded latlng, region id, label and colour. */
  datatype Info = Info(xy: (int, int), latlng: LatLng, entId: string, labelText: string, color: Color)

  /** What `get_info` does with one pixel: a sample, or None for one of three reasons (checked in this order). */
  datatype InfoOutcome = Sampled(info: Info) | Background | Unlabelled | Unresolved

  /**
   * The fixed inputs of the per-pixel classification: the background colour,
   * the label of each palette colour, the fitted pixel-to-latlng transform
   * (including its rounding to 6 places) and the region lookup.
   */
  datatype Sampler = Sampler(
    background: Color,
    colorToLabel: ODict<Color, string>,
    transform: (int, int) -> LatLng,
    regionAt: LatLng -> Option<Ent>)

  function Max(a: int, b: int): int { if a >= b then a else b }

  function Min(a: int, b: int): int { if a <= b then a else b }

  // ---------------------------------------------------------------------------
  // get_extreme_points
  // ---------------------------------------------------------------------------

  /** The index of the last reference tagged `d`. */
  function LastTagged(refs: seq<Reference>, d: Direction): (r: Option<nat>)
    ensures r.Some? ==> (r.value < |refs| && refs[r.value].extremePoint == Some(d)
      && forall j :: r.value < j < |refs| ==> refs[j].extremePoint != Some(d))
    ensures r.None? ==> forall j :: 0 <= j < |refs| ==> refs[j].extremePoint != Some(d)
  {
    if refs == [] then None
    else if refs[|refs| - 1].extremePoint == Some(d) then Some(|refs| - 1)
    else LastTagged(refs[..|refs| - 1], d)
  }

  /** The coordinate the bound for `d` takes from the last reference tagged `d`: y for N and S, x for W and E. */
  function TaggedCoord(refs: seq<Reference>, d: Direction): Option<int> {
    match LastTagged(refs, d)
    case None => None
    case Some(i) => Some(if d == N || d == S then refs[i].xy.1 else refs[i].xy.0)
  }

  /** N gives y_min, S gives y_max, W gives x_min, E gives x_max. */
  function ExtremePointsOf(refs: seq<Reference>): ExtremePoints {
    ExtremePoints(TaggedCoord(refs, W), TaggedCoord(refs, E), TaggedCoord(refs, N), TaggedCoord(refs, S))
  }

  /** `get_extreme_points`: each bound comes from the last reference tagged with its direction. */
  method GetExtremePoints(refs: seq<Reference>) returns (b: ExtremePoints)
    ensures b == ExtremePointsOf(refs)
  {
    var xMin, xMax, yMin, yMax := None, None, None, None;
    for i := 0 to |refs|
      invariant ExtremePoints(xMin, xMax, yMin, yMax) == ExtremePointsOf(refs[..i])
    {
      assert refs[..i + 1][..i] == refs[..i];
      var (x, y) := refs[i].xy;
      match refs[i].extremePoint {
        case Some(N) => yMin := Some(y);
        case Some(S) => yMax := Some(y);
        case Some(W) => xMin := Some(x);
        case Some(E) => xMax := Some(x);
        case None =>
      }
    }
    assert refs[..|refs|] == refs;
    b := ExtremePoints(xMin, xMax, yMin, yMax);
  }

  /** A reference without a tag changes no bound. */
  lemma UntaggedReferenceIgnored(refs: seq<Reference>, r: Reference)
    requires r.extremePoint.None?
    ensures ExtremePointsOf(refs + [r]) == ExtremePointsOf(refs)
  {
    assert (refs + [r])[..|refs|] == refs;
  }

  // ---------------------------------------------------------------------------
  // get_step
  // ---------------------------------------------------------------------------

  function MaxOf(s: seq<real>): (m: real)
    requires s != []
    ensures m in s && forall i :: 0 <= i < |s| ==> s[i] <= m
  {
    if |s| == 1 then s[0] else
      var m := MaxOf(s[1..]);
      assert forall i :: 1 <= i < |s| ==> s[i] == s[1..][i - 1];
      if s[0] >= m then s[0] else m
  }

  function MinOf(s: seq<real>): (m: real)
    requires s != []
    ensures m in s && forall i :: 0 <= i < |s| ==> m <= s[i]
  {
    if |s| == 1 then s[0] else
      var m := MinOf(s[1..]);
      assert forall i :: 1 <= i < |s| ==> s[i] == s[1..][i - 1];
      if s[0] <= m then s[0] else m
  }

  /** The reference latitudes. */
  function Lats(refs: seq<Reference>): (s: seq<real>)
    ensures |s| == |refs| && forall i :: 0 <= i < |refs| ==> s[i] == refs[i].latlng.0
  {
    seq(|refs|, i requires 0 <= i < |refs| => refs[i].latlng.0)
  }

  /** The reference pixel rows. */
  function Rows(refs: seq<Reference>): (s: seq<real>)
    ensures |s| == |refs| && forall i :: 0 <= i < |refs| ==> s[i] == refs[i].xy.1 as real
  {
    seq(|refs|, i requires 0 <= i < |refs| => refs[i].xy.1 as real)
  }

  /** Python's `int()` on a float: truncation toward zero. */
  function Trunc(v: real): (t: int)
    ensures v >= 0.0 ==> 0 <= t && t as real <= v < t as real + 1.0
    ensures v < 0.0 ==> t <= 0 && t as real - 1.0 < v <= t as real
  {
    if v >= 0.0 then v.Floor else -((-v).Floor)
  }

  /**
   * `get_step`: pixel rows per degree of latitude over ALL references (not only
   * the extreme ones), times the box size, truncated.
   */
  function GetStep(refs: seq<Reference>, boxSizeLat: real): (r: Result<int, DecodeError>)
    ensures r == Err(EmptyReferenceList) <==> refs == []
    ensures r == Err(ZeroLatitudeSpan) <==> refs != [] && MaxOf(Lats(refs)) == MinOf(Lats(refs))
    ensures r.Ok? ==> MaxOf(Lats(refs)) > MinOf(Lats(refs))
    ensures r.Ok? && boxSizeLat >= 0.0 ==> r.value >= 0
    ensures r.Err? ==> r.error == EmptyReferenceList || r.error == ZeroLatitudeSpan
  {
    if refs == [] then Err(EmptyReferenceList)
    else
      var latMax, latMin := MaxOf(Lats(refs)), MinOf(Lats(refs));
      var yMax, yMin := MaxOf(Rows(refs)), MinOf(Rows(refs));
      if latMax == latMin then Err(ZeroLatitudeSpan)
      else
        assert yMin <= Rows(refs)[0] <= yMax && latMin <= Lats(refs)[0] <= latMax;
        var mLat := (yMax - yMin) / (latMax - latMin);
        RatioNonNegative(yMax - yMin, latMax - latMin);
        if boxSizeLat >= 0.0 then
          ProductNonNegative(mLat, boxSizeLat);
          Ok(Trunc(mLat * boxSizeLat))
        else
          Ok(Trunc(mLat * boxSizeLat))
  }

  lemma RatioNonNegative(a: real, b: real)
    requires a >= 0.0 && b > 0.0
    ensures a / b >= 0.0
  {
  }

  lemma ProductNonNegative(a: real, b: real)
    requires a >= 0.0 && b >= 0.0
    ensures a * b >= 0.0
  {
  }

  // ---------------------------------------------------------------------------
  // get_info
  // ---------------------------------------------------------------------------

  /** `color_to_label.get(color)` is truthy: present and not the empty string. */
  predicate HasLabel(colorToLabel: ODict<Color, string>, color: Color) {
    color in colorToLabel.m && colorToLabel.m[color] != ""
  }

  /**
   * `get_info`: a pixel is skipped when its colour is the background, else when
   * its colour has no label, else when its latlng lies in no region; only
   * then is the transform's region looked up and a sample built.
   */
  function GetInfo(x: int, y: int, color: Color, s: Sampler): (r: InfoOutcome)
    ensures r.Background? <==> color == s.background
    ensures r.Unlabelled? <==> color != s.background && !HasLabel(s.colorToLabel, color)
    ensures r.Unresolved? <==> (color != s.background && HasLabel(s.colorToLabel, color)
      && s.regionAt(s.transform(x, y)).None?)
    ensures r.Sampled? ==> (r.info.xy == (x, y) && r.info.color == color
      && r.info.labelText == s.colorToLabel.m[color] && r.info.latlng == s.transform(x, y)
      && s.regionAt(r.info.latlng).Some? && s.regionAt(r.info.latlng).value.id == r.info.entId)
  {
    if color == s.background then Background
    else if !HasLabel(s.colorToLabel, color) then Unlabelled
    else
      var latlng := s.transform(x, y);
      match s.regionAt(latlng)
      case None => Unresolved
      case Some(ent) => Sampled(Info((x, y), latlng, ent.id, s.colorToLabel.m[color], color))
  }

  /** What every emitted sample satisfies. */
  ghost predicate WellFormed(info: Info, s: Sampler) {
    && info.color != s.background
    && HasLabel(s.colorToLabel, info.color)
    && info.labelText == s.colorToLabel.m[info.color]
    && info.latlng == s.transform(info.xy.0, info.xy.1)
    && s.regionAt(info.latlng).Some? && s.regionAt(info.latlng).value.id == info.entId
  }

  // ---------------------------------------------------------------------------
  // get_latlng_color_info_list
  // ---------------------------------------------------------------------------

  /** Python's `range(start, end, step)` for a positive step. */
  function Range(start: int, end: int, step: int): (r: seq<int>)
    requires step > 0
    ensures r == [] <==> start >= end
    ensures forall i :: 0 <= i < |r| ==> start <= r[i] < end
    ensures forall i :: 0 <= i < |r| ==> r[i] == start + i * step
    ensures r != [] ==> r[|r| - 1] + step >= end
    ensures forall i, j :: 0 <= i < j < |r| ==> r[i] < r[j]
    decreases end - start
  {
    if start >= end then []
    else
      var rest := Range(start + step, end, step);
      var r := [start] + rest;
      assert forall i :: 0 < i < |r| ==> r[i] == rest[i - 1];
      r
  }

  /** The grid lines `x_range` and `y_range`, or the error raised while computing them. */
  function ScanRanges(refs: seq<Reference>, boxSizeLat: real, width: int, height: int): Result<(seq<int>, seq<int>), DecodeError>
    requires boxSizeLat >= 0.0
  {
    match GetStep(refs, boxSizeLat)
    case Err(e) => Err(e)
    case Ok(step) =>
      var b := ExtremePointsOf(refs);
      if b.xMin.None? then Err(MissingExtremePoint(W))
      else if b.xMax.None? then Err(MissingExtremePoint(E))
      else if step == 0 then Err(ZeroStep)
      else if b.yMin.None? then Err(MissingExtremePoint(N))
      else if b.yMax.None? then Err(MissingExtremePoint(S))
      else
        Ok((GridLines(b.xMin.value, b.xMax.value, width, step), GridLines(b.yMin.value, b.yMax.value, height, step)))
  }

  /**
   * `range(max(0, lo), min(limit, hi + 1), step)`: the grid lines of one axis,
   * increasing, inside the image `[0, limit)` and inside the box `[lo, hi]`.
   */
  function GridLines(lo: int, hi: int, limit: int, step: int): (r: seq<int>)
    requires step > 0
    ensures Increasing(r)
    ensures forall i :: 0 <= i < |r| ==> 0 <= r[i] < limit && lo <= r[i] <= hi
  {
    Range(Max(0, lo), Min(limit, hi + 1), step)
  }

  /** Every grid line lies inside the image and inside the extreme-point box. */
  ghost predicate InsideImageAndBox(xs: seq<int>, ys: seq<int>, b: ExtremePoints, width: int, height: int) {
    && b.xMin.Some? && b.xMax.Some? && b.yMin.Some? && b.yMax.Some?
    && (forall i :: 0 <= i < |xs| ==> 0 <= xs[i] < width && b.xMin.value <= xs[i] <= b.xMax.value)
    && (forall j :: 0 <= j < |ys| ==> 0 <= ys[j] < height && b.yMin.value <= ys[j] <= b.yMax.value)
  }

  ghost predicate Increasing(s: seq<int>) {
    forall i, j :: 0 <= i < j < |s| ==> s[i] < s[j]
  }

  /** The grid lines are increasing and inside both the image and the box; the errors arise exactly as the source raises them. */
  lemma ScanRangesSpec(refs: seq<Reference>, boxSizeLat: real, width: int, height: int)
    requires boxSizeLat >= 0.0
    ensures var g := ScanRanges(refs, boxSizeLat, width, height);
      && (g.Ok? ==> Increasing(g.value.0) && Increasing(g.value.1)
                    && InsideImageAndBox(g.value.0, g.value.1, ExtremePointsOf(refs), width, height))
      && (g == Err(ZeroStep) <==> (GetStep(refs, boxSizeLat) == Ok(0)
            && ExtremePointsOf(refs).xMin.Some? && ExtremePointsOf(refs).xMax.Some?))
      && (g == Err(MissingExtremePoint(N)) ==> ExtremePointsOf(refs).yMin.None?)
  {
    var b := ExtremePointsOf(refs);
    var st := GetStep(refs, boxSizeLat);
    if st.Ok? && b.xMin.Some? && b.xMax.Some? && st.value != 0 && b.yMin.Some? && b.yMax.Some? {
      assert ScanRanges(refs, boxSizeLat, width, height).Ok?;
    }
  }

  /** The samples of column `x`, rows in the order of `ys`. */
  function Column(x: int, ys: seq<int>, m: array2<Color>, s: Sampler): seq<Info>
    reads m
    requires 0 <= x < m.Length1 && forall j :: 0 <= j < |ys| ==> 0 <= ys[j] < m.Length0
  {
    if ys == [] then []
    else
      var y := ys[|ys| - 1];
      Column(x, ys[..|ys| - 1], m, s)
        + match GetInfo(x, y, m[y, x], s) case Sampled(info) => [info] case _ => []
  }

  /** The samples of the grid `xs` by `ys`, column by column: exactly the non-None `get_info` results in scan order. */
  function Scan(xs: seq<int>, ys: seq<int>, m: array2<Color>, s: Sampler): seq<Info>
    reads m
    requires forall i :: 0 <= i < |xs| ==> 0 <= xs[i] < m.Length1
    requires forall j :: 0 <= j < |ys| ==> 0 <= ys[j] < m.Length0
  {
    if xs == [] then [] else Scan(xs[..|xs| - 1], ys, m, s) + Column(xs[|xs| - 1], ys, m, s)
  }

  /** The nested loops of `get_latlng_color_info_list`: x outer, y inner, keeping every pixel `get_info` keeps. */
  method ScanGrid(xs: seq<int>, ys: seq<int>, m: array2<Color>, s: Sampler) returns (infoList: seq<Info>)
    requires forall i :: 0 <= i < |xs| ==> 0 <= xs[i] < m.Length1
    requires forall j :: 0 <= j < |ys| ==> 0 <= ys[j] < m.Length0
    ensures infoList == Scan(xs, ys, m, s)
  {
    infoList := [];
    for i := 0 to |xs|
      invariant infoList == Scan(xs[..i], ys, m, s)
    {
      var x := xs[i];
      assert xs[..i + 1][..i] == xs[..i];
      for j := 0 to |ys|
        invariant infoList == Scan(xs[..i], ys, m, s) + Column(x, ys[..j], m, s)
      {
        var y := ys[j];
        assert ys[..j + 1][..j] == ys[..j];
        var info := GetInfo(x, y, m[y, x], s);
        if info.Sampled? {
          infoList := infoList + [info.info];
        }
      }
      assert ys[..|ys|] == ys;
    }
    assert xs[..|xs|] == xs;
  }

  /** The samples of the grid, or the error raised before scanning. */
  function InfoList(refs: seq<Reference>, boxSizeLat: real, m: array2<Color>, s: Sampler): Result<seq<Info>, DecodeError>
    reads m
    requires boxSizeLat >= 0.0
  {
    match ScanRanges(refs, boxSizeLat, m.Length1, m.Length0)
    case Err(e) => Err(e)
    case Ok(g) => Ok(Scan(g.0, g.1, m, s))
  }

  /**
   * `get_latlng_color_info_list`: fits the transform, takes the box and the
   * step, and scans x outer, y inner, keeping every pixel `get_info` keeps.
   */
  method GetLatLngColorInfoList(
    refs: seq<Reference>, background: Color, boxSizeLat: real, colorToLabel: ODict<Color, string>,
    m: array2<Color>, fit: seq<Reference> -> ((int, int) -> LatLng), regionAt: LatLng -> Option<Ent>)
    returns (r: Result<seq<Info>, DecodeError>)
    requires boxSizeLat >= 0.0
    ensures r == InfoList(refs, boxSizeLat, m, Sampler(background, colorToLabel, fit(refs), regionAt))
  {
    if refs == [] {
      // the fit runs first, and raises on the empty coordinate array
      return Err(EmptyReferenceList);
    }
    var s := Sampler(background, colorToLabel, fit(refs), regionAt);
    var b := GetExtremePoints(refs);
    var step := GetStep(refs, boxSizeLat);
    if step.Err? {
      return Err(step.error);
    }
    if b.xMin.None? {
      return Err(MissingExtremePoint(W));
    }
    if b.xMax.None? {
      return Err(MissingExtremePoint(E));
    }
    var xStart := Max(0, b.xMin.value);
    var xEnd := Min(m.Length1, b.xMax.value + 1);
    if step.value == 0 {
      return Err(ZeroStep);
    }
    var xRange := Range(xStart, xEnd, step.value);
    if b.yMin.None? {
      return Err(MissingExtremePoint(N));
    }
    if b.yMax.None? {
      return Err(MissingExtremePoint(S));
    }
    var yStart := Max(0, b.yMin.value);
    var yEnd := Min(m.Length0, b.yMax.value + 1);
    var yRange := Range(yStart, yEnd, step.value);
    var infoList := ScanGrid(xRange, yRange, m, s);
    assert ScanRanges(refs, boxSizeLat, m.Length1, m.Length0) == Ok((xRange, yRange));
    return Ok(infoList);
  }

  // ---------------------------------------------------------------------------
  // Properties of the scan
  // ---------------------------------------------------------------------------

  /** Samples come in increasing x, and for equal x in increasing y. */
  ghost predicate ColumnMajor(r: seq<Info>) {
    forall p, q :: 0 <= p < q < |r| ==>
      r[p].xy.0 < r[q].xy.0 || (r[p].xy.0 == r[q].xy.0 && r[p].xy.1 < r[q].xy.1)
  }

  lemma {:induction false} ColumnMembers(x: int, ys: seq<int>, m: array2<Color>, s: Sampler)
    requires 0 <= x < m.Length1 && forall j :: 0 <= j < |ys| ==> 0 <= ys[j] < m.Length0
    ensures |Column(x, ys, m, s)| <= |ys|
    ensures forall k :: 0 <= k < |Column(x, ys, m, s)| ==>
      var info := Column(x, ys, m, s)[k];
      && info.xy.0 == x && info.xy.1 in ys && info.color == m[info.xy.1, x] && WellFormed(info, s)
  {
    if ys != [] {
      var pre := ys[..|ys| - 1];
      ColumnMembers(x, pre, m, s);
      assert forall y :: y in pre ==> y in ys;
    }
  }

  lemma {:induction false} ColumnOrder(x: int, ys: seq<int>, m: array2<Color>, s: Sampler)
    requires 0 <= x < m.Length1 && forall j :: 0 <= j < |ys| ==> 0 <= ys[j] < m.Length0
    requires Increasing(ys)
    ensures ColumnMajor(Column(x, ys, m, s))
  {
    if ys != [] {
      var pre, y := ys[..|ys| - 1], ys[|ys| - 1];
      ColumnOrder(x, pre, m, s);
      ColumnMembers(x, pre, m, s);
      var c := Column(x, pre, m, s);
      assert forall k :: 0 <= k < |c| ==> c[k].xy.0 == x && c[k].xy.1 < y by {
        forall k | 0 <= k < |c| ensures c[k].xy.0 == x && c[k].xy.1 < y {
          var p :| 0 <= p < |pre| && pre[p] == c[k].xy.1;
        }
      }
      var o := GetInfo(x, y, m[y, x], s);
      if o.Sampled? {
        assert Column(x, ys, m, s) == c + [o.info];
        AppendColumnMajor(c, o.info);
      } else {
        assert Column(x, ys, m, s) == c + [];
        assert c + [] == c;
      }
    }
  }

  /** A sample further down the same column extends a column-major list. */
  lemma AppendColumnMajor(c: seq<Info>, info: Info)
    requires ColumnMajor(c)
    requires forall k :: 0 <= k < |c| ==> c[k].xy.0 == info.xy.0 && c[k].xy.1 < info.xy.1
    ensures ColumnMajor(c + [info])
  {
    var r := c + [info];
    forall p, q | 0 <= p < q < |r|
      ensures r[p].xy.0 < r[q].xy.0 || (r[p].xy.0 == r[q].xy.0 && r[p].xy.1 < r[q].xy.1)
    {
      assert r[p] == c[p];
    }
  }

  lemma {:induction false} ScanMembers(xs: seq<int>, ys: seq<int>, m: array2<Color>, s: Sampler)
    requires forall i :: 0 <= i < |xs| ==> 0 <= xs[i] < m.Length1
    requires forall j :: 0 <= j < |ys| ==> 0 <= ys[j] < m.Length0
    ensures forall k :: 0 <= k < |Scan(xs, ys, m, s)| ==>
      var info := Scan(xs, ys, m, s)[k];
      && info.xy.0 in xs && info.xy.1 in ys && info.color == m[info.xy.1, info.xy.0] && WellFormed(info, s)
  {
    if xs != [] {
      var pre, x := xs[..|xs| - 1], xs[|xs| - 1];
      ScanMembers(pre, ys, m, s);
      ColumnMembers(x, ys, m, s);
      assert forall v :: v in pre ==> v in xs;
    }
  }

  lemma {:induction false} ScanOrder(xs: seq<int>, ys: seq<int>, m: array2<Color>, s: Sampler)
    requires forall i :: 0 <= i < |xs| ==> 0 <= xs[i] < m.Length1
    requires forall j :: 0 <= j < |ys| ==> 0 <= ys[j] < m.Length0
    requires Increasing(xs) && Increasing(ys)
    ensures ColumnMajor(Scan(xs, ys, m, s))
  {
    if xs != [] {
      var pre, x := xs[..|xs| - 1], xs[|xs| - 1];
      ScanOrder(pre, ys, m, s);
      ScanMembers(pre, ys, m, s);
      ColumnOrder(x, ys, m, s);
      ColumnMembers(x, ys, m, s);
      var a, c := Scan(pre, ys, m, s), Column(x, ys, m, s);
      assert forall k :: 0 <= k < |a| ==> a[k].xy.0 < x by {
        forall k | 0 <= k < |a| ensures a[k].xy.0 < x {
          var p :| 0 <= p < |pre| && pre[p] == a[k].xy.0;
        }
      }
      ConcatColumnMajor(a, c, x);
    }
  }

  /** Columns to the left of `x` followed by column `x` stay column-major. */
  lemma ConcatColumnMajor(a: seq<Info>, c: seq<Info>, x: int)
    requires ColumnMajor(a) && ColumnMajor(c)
    requires forall k :: 0 <= k < |a| ==> a[k].xy.0 < x
    requires forall k :: 0 <= k < |c| ==> c[k].xy.0 == x
    ensures ColumnMajor(a + c)
  {
    var r := a + c;
    forall p, q | 0 <= p < q < |r|
      ensures r[p].xy.0 < r[q].xy.0 || (r[p].xy.0 == r[q].xy.0 && r[p].xy.1 < r[q].xy.1)
    {
      if q < |a| {
        assert r[p] == a[p] && r[q] == a[q];
      } else if p < |a| {
        assert r[p] == a[p] && r[q] == c[q - |a|];
      } else {
        assert r[p] == c[p - |a|] && r[q] == c[q - |a|];
      }
    }
  }

  lemma {:induction false} ScanLength(xs: seq<int>, ys: seq<int>, m: array2<Color>, s: Sampler)
    requires forall i :: 0 <= i < |xs| ==> 0 <= xs[i] < m.Length1
    requires forall j :: 0 <= j < |ys| ==> 0 <= ys[j] < m.Length0
    ensures |Scan(xs, ys, m, s)| <= |xs| * |ys|
  {
    if xs != [] {
      var pre := xs[..|xs| - 1];
      ScanLength(pre, ys, m, s);
      ColumnMembers(xs[|xs| - 1], ys, m, s);
      assert |Scan(xs, ys, m, s)| == |Scan(pre, ys, m, s)| + |Column(xs[|xs| - 1], ys, m, s)|;
      MulSucc(|pre|, |ys|);
    }
  }

  lemma MulSucc(a: nat, b: nat)
    ensures a * b + b == (a + 1) * b
  {
  }

  /**
   * What `get_latlng_color_info_list` promises about a successful result:
   * every sample's pixel lies inside the image and the extreme-point box, the
   * samples are in column-major order, none has the background colour, each
   * carries the label of its colour and the id of its region, and there are at
   * most as many samples as grid points.
   */
  lemma InfoListSpec(refs: seq<Reference>, boxSizeLat: real, m: array2<Color>, s: Sampler)
    requires boxSizeLat >= 0.0
    requires ScanRanges(refs, boxSizeLat, m.Length1, m.Length0).Ok?
    ensures var g := ScanRanges(refs, boxSizeLat, m.Length1, m.Length0).value;
      var b := ExtremePointsOf(refs);
      InsideImageAndBox(g.0, g.1, b, m.Length1, m.Length0) &&
      var r := Scan(g.0, g.1, m, s);
      && ColumnMajor(r)
      && |r| <= |g.0| * |g.1|
      && forall k :: 0 <= k < |r| ==>
           && 0 <= r[k].xy.0 < m.Length1 && 0 <= r[k].xy.1 < m.Length0
           && b.xMin.value <= r[k].xy.0 <= b.xMax.value && b.yMin.value <= r[k].xy.1 <= b.yMax.value
           && r[k].color == m[r[k].xy.1, r[k].xy.0]
           && WellFormed(r[k], s)
  {
    ScanRangesSpec(refs, boxSizeLat, m.Length1, m.Length0);
    var g := ScanRanges(refs, boxSizeLat, m.Length1, m.Length0).value;
    ScanOrder(g.0, g.1, m, s);
    ScanLength(g.0, g.1, m, s);
    ScanMembers(g.0, g.1, m, s);
  }
}
