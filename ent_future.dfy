/**
 * Resolving a latitude/longitude to the administrative regions of Sri Lanka
 * that contain it. The region lists (`Ent.list_from_type`) and the polygon
 * containment test of the geometry library are parameters: `listFromType`
 * and `contains`.
 */
module EntFuture {
  import opened Wrappers
  import opened Dicts

  /** The administrative levels, coarsest first. */
  datatype EntType = Province | District | Dsd | Gnd

  /** A region as the entity service lists it; its polygon is reachable only through `contains`. */
  datatype Ent = Ent(id: string, name: string)

  /** A geometry point: `x` is the longitude, `y` the latitude. */
  datatype Point = Point(x: real, y: real)

  /** (latitude, longitude) */
  type LatLng = (real, real)

  /** The id every search of the hierarchy starts from. */
  const Country: string := "LK"

  /** The levels the hierarchy search walks through, in order. */
  const Levels: seq<EntType> := [Province, District, Dsd, Gnd]

  /** `p` occurs in `s` starting at position `i`. */
  ghost predicate OccursAt(p: string, s: string, i: int) {
    0 <= i && i + |p| <= |s| && s[i..i + |p|] == p
  }

  /** `p` occurs somewhere inside `s`. */
  ghost predicate IsSubstring(p: string, s: string) {
    exists i :: OccursAt(p, s, i)
  }

  /** Python's `p in s` on strings: a substring test, not a prefix test. */
  function ContainsStr(s: string, p: string): (b: bool)
    ensures b <==> IsSubstring(p, s)
    decreases |s|
  {
    if |p| > |s| then
      assert forall i :: !OccursAt(p, s, i);
      false
    else if s[..|p|] == p then
      assert OccursAt(p, s, 0);
      true
    else
      var b := ContainsStr(s[1..], p);
      assert b ==> IsSubstring(p, s) by {
        if b {
          var i :| OccursAt(p, s[1..], i);
          assert s[1..][i..i + |p|] == s[i + 1..i + 1 + |p|];
          assert OccursAt(p, s, i + 1);
        }
      }
      assert IsSubstring(p, s) ==> b by {
        if IsSubstring(p, s) {
          var i :| OccursAt(p, s, i);
          assert i != 0;
          assert s[1..][i - 1..i - 1 + |p|] == s[i..i + |p|];
          assert OccursAt(p, s[1..], i - 1);
        }
      }
      b
  }

  /** `[ent for ent in ents if parent_ent_id in ent.id]` */
  function Candidates(ents: seq<Ent>, parentEntId: string): (c: seq<Ent>)
    ensures forall e :: e in c <==> e in ents && IsSubstring(parentEntId, e.id)
  {
    if ents == [] then []
    else
      assert forall e :: e in ents <==> e == ents[0] || e in ents[1..];
      (if ContainsStr(ents[0].id, parentEntId) then [ents[0]] else []) + Candidates(ents[1..], parentEntId)
  }

  /** The first element of `s` that `keep` accepts, or None when it accepts none. */
  function FirstWhere(s: seq<Ent>, keep: Ent -> bool): (r: Option<Ent>)
    ensures r.None? <==> forall i :: 0 <= i < |s| ==> !keep(s[i])
    ensures r.Some? ==> exists i :: (0 <= i < |s| && s[i] == r.value && keep(s[i])
      && forall j :: 0 <= j < i ==> !keep(s[j]))
  {
    if s == [] then None
    else if keep(s[0]) then Some(s[0])
    else
      var r := FirstWhere(s[1..], keep);
      assert forall j :: 0 < j < |s| ==> s[j] == s[1..][j - 1];
      assert r.Some? ==> exists i :: (0 <= i < |s| && s[i] == r.value && keep(s[i])
        && forall j :: 0 <= j < i ==> !keep(s[j])) by {
        if r.Some? {
          var i :| 0 <= i < |s[1..]| && s[1..][i] == r.value && keep(s[1..][i])
            && forall j :: 0 <= j < i ==> !keep(s[1..][j]);
          assert s[i + 1] == r.value;
        }
      }
      r
  }

  /** The geometry test, as a predicate on regions. */
  function Inside(pt: Point, contains: (Ent, Point) -> bool): Ent -> bool {
    e => contains(e, pt)
  }

  /** The candidate filter followed by `keep`. */
  function UnderParent(parentEntId: string, keep: Ent -> bool): Ent -> bool {
    (e: Ent) => ContainsStr(e.id, parentEntId) && keep(e)
  }

  /**
   * What `from_latlng` returns: the first region of the level, in list order,
   * whose id contains the parent id and whose geometry contains the point,
   * which is built as (longitude, latitude).
   */
  function SearchLevel(latlng: LatLng, regionEntType: EntType, parentEntId: string,
                       listFromType: EntType -> seq<Ent>, contains: (Ent, Point) -> bool): Option<Ent>
  {
    FirstWhere(listFromType(regionEntType), UnderParent(parentEntId, Inside(Point(latlng.1, latlng.0), contains)))
  }

  /** Searching the filtered candidates finds what searching the whole list with both tests finds. */
  lemma {:induction false} FirstWhereCandidates(ents: seq<Ent>, parentEntId: string, keep: Ent -> bool)
    ensures FirstWhere(Candidates(ents, parentEntId), keep)
         == FirstWhere(ents, UnderParent(parentEntId, keep))
  {
    if ents != [] {
      FirstWhereCandidates(ents[1..], parentEntId, keep);
      var c := Candidates(ents, parentEntId);
      if ContainsStr(ents[0].id, parentEntId) {
        assert c[1..] == Candidates(ents[1..], parentEntId);
      } else {
        assert c == Candidates(ents[1..], parentEntId);
      }
    }
  }

  /**
   * `from_latlng`: scans the regions of one level whose id contains the parent
   * id and returns the first whose geometry contains the point.
   */
  method FromLatLng(latlng: LatLng, regionEntType: EntType := Province, parentEntId: string := Country,
                    listFromType: EntType -> seq<Ent>, contains: (Ent, Point) -> bool)
    returns (r: Option<Ent>)
    ensures r == SearchLevel(latlng, regionEntType, parentEntId, listFromType, contains)
  {
    var ents := listFromType(regionEntType);
    var candidateEnts := Candidates(ents, parentEntId);
    var (lat, lng) := latlng;
    var point := Point(lng, lat);
    var keep := Inside(point, contains);
    FirstWhereCandidates(ents, parentEntId, keep);
    for i := 0 to |candidateEnts|
      invariant FirstWhere(candidateEnts[i..], keep) == FirstWhere(candidateEnts, keep)
    {
      assert candidateEnts[i..][1..] == candidateEnts[i + 1..];
      if contains(candidateEnts[i], point) {
        return Some(candidateEnts[i]);
      }
    }
    return None;
  }

  /** The id the search at level `k` is restricted by: the country, then the region found one level up. */
  ghost function ParentAt(h: ODict<EntType, Ent>, k: nat): string
    requires h.Valid() && k <= |h.keys| <= |Levels| && h.keys == Levels[..|h.keys|]
  {
    if k == 0 then Country else assert Levels[k - 1] in h.keys; h.m[Levels[k - 1]].id
  }

  /** The levels found so far are a prefix of the walk order. */
  ghost predicate Chain(h: ODict<EntType, Ent>) {
    h.Valid() && |h.keys| <= |Levels| && h.keys == Levels[..|h.keys|]
  }

  /** Every level found holds what the search of that level, under its parent, returns. */
  ghost predicate Located(h: ODict<EntType, Ent>, latlng: LatLng,
                          listFromType: EntType -> seq<Ent>, contains: (Ent, Point) -> bool)
    requires Chain(h)
  {
    forall q :: 0 <= q < |h.keys| ==>
      SearchLevel(latlng, Levels[q], ParentAt(h, q), listFromType, contains) == Some(h.m[Levels[q]])
  }

  /** Adding the region found at level `k` extends the chain by that level and makes it the next level's parent. */
  lemma PutLevel(h: ODict<EntType, Ent>, k: nat, e: Ent)
    requires Chain(h) && k == |h.keys| < |Levels|
    ensures Chain(Put(h, Levels[k], e)) && Put(h, Levels[k], e).keys == Levels[..k + 1]
    ensures Put(h, Levels[k], e).m[Levels[k]] == e
    ensures ParentAt(Put(h, Levels[k], e), k + 1) == e.id
  {
    assert Levels[k] !in h.keys;
    assert Levels[..k + 1] == Levels[..k] + [Levels[k]];
  }

  /** Adding the region found at level `k` keeps the region and the parent of every level up to `k`. */
  lemma ParentAtPut(h: ODict<EntType, Ent>, k: nat, e: Ent, q: nat)
    requires Chain(h) && k == |h.keys| < |Levels| && q <= k
    ensures Chain(Put(h, Levels[k], e))
    ensures q < k ==> Put(h, Levels[k], e).m[Levels[q]] == h.m[Levels[q]]
    ensures ParentAt(Put(h, Levels[k], e), q) == ParentAt(h, q)
  {
    PutLevel(h, k, e);
    if q > 0 {
      assert Levels[q - 1] != Levels[k];
    }
  }

  /** Adding the region the search of the next level returns keeps every level located. */
  lemma LocatedPut(h: ODict<EntType, Ent>, k: nat, e: Ent, latlng: LatLng,
                   listFromType: EntType -> seq<Ent>, contains: (Ent, Point) -> bool)
    requires Chain(h) && k == |h.keys| < |Levels| && Located(h, latlng, listFromType, contains)
    requires SearchLevel(latlng, Levels[k], ParentAt(h, k), listFromType, contains) == Some(e)
    ensures Chain(Put(h, Levels[k], e)) && Located(Put(h, Levels[k], e), latlng, listFromType, contains)
  {
    var h' := Put(h, Levels[k], e);
    PutLevel(h, k, e);
    forall q | 0 <= q < k + 1
      ensures SearchLevel(latlng, Levels[q], ParentAt(h', q), listFromType, contains) == Some(h'.m[Levels[q]])
    {
      ParentAtPut(h, k, e, q);
    }
  }

  /**
   * `list_regions_from_latlng`: walks province, district, DSD and GND, each
   * search restricted to the region found one level up, and stops at the
   * first level where no region contains the point. The result's keys are
   * the levels found, which are always a prefix of that order.
   */
  method ListRegionsFromLatLng(latlng: LatLng, listFromType: EntType -> seq<Ent>, contains: (Ent, Point) -> bool)
    returns (h: ODict<EntType, Ent>)
    ensures h.Valid() && |h.keys| <= |Levels| && h.keys == Levels[..|h.keys|]
    ensures forall k :: 0 <= k < |h.keys| ==>
      SearchLevel(latlng, Levels[k], ParentAt(h, k), listFromType, contains) == Some(h.m[Levels[k]])
    ensures |h.keys| < |Levels| ==>
      SearchLevel(latlng, Levels[|h.keys|], ParentAt(h, |h.keys|), listFromType, contains) == None
  {
    h := Empty();
    var parentEntId := Country;
    for k := 0 to |Levels|
      invariant Chain(h) && |h.keys| == k
      invariant parentEntId == ParentAt(h, k)
      invariant Located(h, latlng, listFromType, contains)
    {
      var ent := FromLatLng(latlng, Levels[k], parentEntId, listFromType, contains);
      if ent.None? {
        return;
      }
      PutLevel(h, k, ent.value);
      LocatedPut(h, k, ent.value, latlng, listFromType, contains);
      h := Put(h, Levels[k], ent.value);
      parentEntId := ent.value.id;
    }
  }
}
