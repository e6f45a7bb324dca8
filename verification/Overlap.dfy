/** `structural_overlap`: the overlap verdict for two footprints. Latitude is `x` and
    longitude is `y`. */
module Overlap {
  import opened Options
  import opened Polygons
  import opened Longitudes
  import B = ClipBoundary
  import C = Clipping
  import I = ClipIntersection
  import X = ClipConvex

  const MIN_AREA := 0.000001
  const MAX_VERTICES := 600

  /** A complete label box. */
  datatype Label = Label(minLat: real, maxLat: real, minLon: real, maxLon: real)

  datatype BoxKey = MinLatitude | MaxLatitude | MinLongitude | MaxLongitude | OtherKey(name: string)

  /** A label box as documented: keys may be absent or null. */
  type Corners = map<BoxKey, Option<real>>

  datatype Footprint = Footprint(bbox: Option<Corners>, polygon: Option<Polygon>)

  datatype Verdict =
    | MissingEvidence
    | IncompleteBox
    | Disjoint
    | ByPolygon(vertices: nat, area: real)
    | ByBox(lat: Window, lon: Window, wraparound: bool)

  predicate Confirmed(v: Verdict) {
    v.ByPolygon? || v.ByBox?
  }

  // -------------------------------------------------------------------------
  // Trustworthy polygons
  // -------------------------------------------------------------------------

  /** The vertices whose key was not seen before. The key rounds both coordinates. */
  function Deduped(vs: Polygon, key: Point -> Point, seen: set<Point>): Polygon {
    if vs == [] then []
    else if key(vs[0]) in seen then Deduped(vs[1..], key, seen)
    else [vs[0]] + Deduped(vs[1..], key, seen + {key(vs[0])})
  }

  method DedupeVertices(vs: Polygon, key: Point -> Point) returns (out: Polygon)
    ensures out == Deduped(vs, key, {})
  {
    var seen: set<Point> := {};
    out := [];
    for i := 0 to |vs|
      invariant out + Deduped(vs[i..], key, seen) == Deduped(vs, key, {})
    {
      assert vs[i..][1..] == vs[i + 1..];
      if key(vs[i]) in seen { continue; }
      seen := seen + {key(vs[i])};
      out := out + [vs[i]];
    }
    assert out + [] == out;
  }

  /** Only given vertices are kept, each with a key of its own that was not seen before. */
  lemma {:induction false} DedupedDistinct(vs: Polygon, key: Point -> Point, seen: set<Point>)
    ensures var r := Deduped(vs, key, seen);
            && (forall p | p in r :: p in vs && key(p) !in seen)
            && DistinctKeys(r, key)
  {
    if vs != [] {
      assert vs == [vs[0]] + vs[1..];
      if key(vs[0]) in seen {
        DedupedDistinct(vs[1..], key, seen);
      } else {
        var more := seen + {key(vs[0])};
        DedupedDistinct(vs[1..], key, more);
        var rest := Deduped(vs[1..], key, more);
        forall j | 0 <= j < |rest| ensures key(rest[j]) != key(vs[0]) {
          assert rest[j] in rest;
        }
        DistinctCons(vs[0], rest, key);
      }
    }
  }

  ghost predicate DistinctKeys(vs: Polygon, key: Point -> Point) {
    forall i, j | 0 <= i < j < |vs| :: key(vs[i]) != key(vs[j])
  }

  lemma {:induction false} DistinctCons(p: Point, rest: Polygon, key: Point -> Point)
    requires DistinctKeys(rest, key) && forall j | 0 <= j < |rest| :: key(rest[j]) != key(p)
    ensures DistinctKeys([p] + rest, key)
  {
  }

  /** Every vertex shares its key with one that was kept or seen before. */
  lemma {:induction false} DedupedCovers(vs: Polygon, key: Point -> Point, seen: set<Point>, p: Point)
    requires p in vs && key(p) !in seen
    ensures KeyIn(key(p), Deduped(vs, key, seen), key)
  {
    var head := key(vs[0]);
    if head in seen {
      DedupedCovers(vs[1..], key, seen, p);
    } else if head == key(p) {
      assert vs[0] in Deduped(vs, key, seen);
    } else {
      DedupedCovers(vs[1..], key, seen + {head}, p);
      var q :| q in Deduped(vs[1..], key, seen + {head}) && key(q) == key(p);
      assert q in Deduped(vs, key, seen);
    }
  }

  ghost predicate KeyIn(k: Point, vs: Polygon, key: Point -> Point) {
    exists p | p in vs :: key(p) == k
  }

  function PolygonBox(vs: Polygon): Label
    requires vs != []
  {
    if |vs| == 1 then Label(vs[0].x, vs[0].x, vs[0].y, vs[0].y)
    else
      var b := PolygonBox(vs[1..]);
      Label(Min(vs[0].x, b.minLat), Max(vs[0].x, b.maxLat), Min(vs[0].y, b.minLon), Max(vs[0].y, b.maxLon))
  }

  /** `max(1.0, span * 0.2)` */
  function Slack(lo: real, hi: real): real {
    Max(1.0, Abs(hi - lo) * 0.2)
  }

  /** A fifth of the span, whichever way it is given, but never less than one degree. */
  lemma {:induction false} SlackExactly(lo: real, hi: real)
    ensures Slack(lo, hi) == Slack(hi, lo)
    ensures lo <= hi ==> Slack(lo, hi) == if hi - lo <= 5.0 then 1.0 else (hi - lo) / 5.0
  {
  }

  predicate WithinTolerance(p: Label, box: Label) {
    && p.minLat >= box.minLat - Slack(box.minLat, box.maxLat)
    && p.maxLat <= box.maxLat + Slack(box.minLat, box.maxLat)
    && p.minLon >= box.minLon - Slack(box.minLon, box.maxLon)
    && p.maxLon <= box.maxLon + Slack(box.minLon, box.maxLon)
  }

  predicate NearBox(p: Point, box: Label) {
    && box.minLat - Slack(box.minLat, box.maxLat) <= p.x <= box.maxLat + Slack(box.minLat, box.maxLat)
    && box.minLon - Slack(box.minLon, box.maxLon) <= p.y <= box.maxLon + Slack(box.minLon, box.maxLon)
  }

  /** The box test holds exactly when every vertex is near the label's box. */
  lemma {:induction false} ToleranceIsPerVertex(vs: Polygon, box: Label)
    requires vs != []
    ensures WithinTolerance(PolygonBox(vs), box) <==> forall p | p in vs :: NearBox(p, box)
  {
    assert vs == [vs[0]] + vs[1..];
    if |vs| > 1 {
      ToleranceIsPerVertex(vs[1..], box);
      assert forall p | p in vs[1..] :: p in vs;
    }
    assert vs[0] in vs;
  }

  function UnwrappedAll(pts: Polygon, ref: real): (r: Polygon)
    ensures |r| == |pts|
  {
    if pts == [] then [] else [Point(pts[0].x, Near(pts[0].y, ref))] + UnwrappedAll(pts[1..], ref)
  }

  method UnwrapLongitudes(pts: Polygon, ref: real) returns (out: Polygon)
    ensures out == UnwrappedAll(pts, ref)
  {
    out := [];
    for i := 0 to |pts|
      invariant out + UnwrappedAll(pts[i..], ref) == UnwrappedAll(pts, ref)
    {
      assert pts[i..][1..] == pts[i + 1..];
      var lon2 := UnwrapLongitude(pts[i].y, ref);
      out := out + [Point(pts[i].x, lon2)];
    }
    assert out + [] == out;
  }

  /** Every vertex keeps its latitude and meridian and lies within half a turn of the
      reference. */
  lemma {:induction false} UnwrappedAllSound(pts: Polygon, ref: real)
    ensures forall i | 0 <= i < |pts| :: Moved(pts[i], UnwrappedAll(pts, ref)[i], ref)
  {
    if pts != [] {
      NearSound(pts[0].y, ref);
      UnwrappedAllSound(pts[1..], ref);
      var r := UnwrappedAll(pts, ref);
      forall i | 0 <= i < |pts| ensures Moved(pts[i], r[i], ref) {
        if i > 0 { assert Moved(pts[1..][i - 1], UnwrappedAll(pts[1..], ref)[i - 1], ref); }
      }
    }
  }

  ghost predicate Moved(from: Point, to: Point, ref: real) {
    to.x == from.x && SameMeridian(from.y, to.y) && -180.0 <= to.y - ref <= 180.0
  }

  // -------------------------------------------------------------------------
  // The polygon path
  // -------------------------------------------------------------------------

  function Reference(a: Label, b: Label): real {
    ((a.minLon + a.maxLon) + (b.minLon + b.maxLon)) / 4.0
  }

  /** The meridian half-way between the middles of the two boxes. */
  lemma {:induction false} ReferenceIsMean(a: Label, b: Label)
    ensures var middle, other := a.minLon + (a.maxLon - a.minLon) / 2.0, b.minLon + (b.maxLon - b.minLon) / 2.0;
            Reference(a, b) - middle == other - Reference(a, b)
  {
  }

  /** The distinct vertices of a documented polygon, if it may be trusted. */
  function Trusted(polygon: Option<Polygon>, key: Point -> Point, box: Label): Option<Polygon> {
    if polygon.None? || !(3 <= |polygon.value| <= MAX_VERTICES) then None
    else
      var vs := Deduped(polygon.value, key, {});
      if |vs| < 3 || !WithinTolerance(PolygonBox(vs), box) then None else Some(vs)
  }

  /** The clipped intersection of two trusted polygons. */
  function Shared(va: Polygon, vb: Polygon, ref: real): Polygon {
    C.Clip(UnwrappedAll(va, ref), UnwrappedAll(vb, ref))
  }

  function PolygonVerdict(
      pa: Option<Polygon>, pb: Option<Polygon>, a: Label, b: Label, key: Point -> Point): Option<Verdict> {
    var va, vb := Trusted(pa, key, a), Trusted(pb, key, b);
    if va.None? || vb.None? then None
    else
      var shared := Shared(va.value, vb.value, Reference(a, b));
      var area := Abs(SignedArea(shared));
      if area <= MIN_AREA then None else Some(ByPolygon(|shared|, area))
  }

  method PolygonOverlap(pa: Option<Polygon>, pb: Option<Polygon>, a: Label, b: Label, key: Point -> Point)
    returns (r: Option<Verdict>)
    ensures r == PolygonVerdict(pa, pb, a, b, key)
  {
    if pa.None? || pb.None? || |pa.value| < 3 || |pb.value| < 3 { return None; }
    if |pa.value| > MAX_VERTICES || |pb.value| > MAX_VERTICES { return None; }
    var polyA := DedupeVertices(pa.value, key);
    var polyB := DedupeVertices(pb.value, key);
    if |polyA| < 3 || |polyB| < 3 { return None; }
    if !(WithinTolerance(PolygonBox(polyA), a) && WithinTolerance(PolygonBox(polyB), b)) { return None; }
    var ref := Reference(a, b);
    var aPts := UnwrapLongitudes(polyA, ref);
    var bPts := UnwrapLongitudes(polyB, ref);
    var clipped := C.ClipPolygon(aPts, bPts);
    var area := PolygonArea(clipped);
    if area <= MIN_AREA { return None; }
    return Some(ByPolygon(|clipped|, area));
  }

  /** Trusted is a polygon of three to six hundred vertices, three of them or more with
      different keys, all of these near the label's box. */
  lemma {:induction false} TrustedExactly(polygon: Option<Polygon>, key: Point -> Point, box: Label)
    ensures Trusted(polygon, key, box).Some?
       <==> && polygon.Some? && 3 <= |polygon.value| <= 600 && |Deduped(polygon.value, key, {})| >= 3
            && forall p | p in Deduped(polygon.value, key, {}) :: NearBox(p, box)
    ensures Trusted(polygon, key, box).Some? ==> Trusted(polygon, key, box).value == Deduped(polygon.value, key, {})
  {
    if polygon.Some? && |Deduped(polygon.value, key, {})| >= 3 {
      ToleranceIsPerVertex(Deduped(polygon.value, key, {}), box);
    }
  }

  /** A vertex of a trusted polygon is a documented one, near the label's box. */
  lemma {:induction false} TrustedSound(polygon: Option<Polygon>, key: Point -> Point, box: Label)
    requires Trusted(polygon, key, box).Some?
    ensures var vs := Trusted(polygon, key, box).value;
            && |vs| >= 3
            && (forall p | p in vs :: p in polygon.value && NearBox(p, box))
            && DistinctKeys(vs, key)
            && forall p | p in polygon.value :: KeyIn(key(p), vs, key)
  {
    DedupedDistinct(polygon.value, key, {});
    forall p | p in polygon.value ensures KeyIn(key(p), Deduped(polygon.value, key, {}), key) {
      DedupedCovers(polygon.value, key, {}, p);
    }
    ToleranceIsPerVertex(Deduped(polygon.value, key, {}), box);
  }

  /** What backs a verdict reached by polygons: a clipped polygon of three or more vertices
      and more than the least area, inside the hull of the first footprint and, up to the
      clipping tolerance, on the inner side of every edge of the second. */
  ghost predicate Backed(va: Polygon, vb: Polygon, ref: real, vertices: nat, area: real) {
    var shared, clip := Shared(va, vb, ref), Oriented(UnwrappedAll(vb, ref));
    && |shared| == vertices >= 3
    && area == Abs(SignedArea(shared)) > MIN_AREA
    && (forall p | p in shared :: C.InHull(p, UnwrappedAll(va, ref)))
    && (forall p, k | p in shared && 0 <= k < |clip| :: C.Side(clip[k], clip[Next(k, |clip|)], p) >= -C.EPS)
  }

  lemma {:induction false} PolygonVerdictBacked(
      pa: Option<Polygon>, pb: Option<Polygon>, a: Label, b: Label, key: Point -> Point)
    requires PolygonVerdict(pa, pb, a, b, key).Some?
    ensures var va, vb := Trusted(pa, key, a), Trusted(pb, key, b);
            var v := PolygonVerdict(pa, pb, a, b, key).value;
            && va.Some? && vb.Some? && v.ByPolygon?
            && Backed(va.value, vb.value, Reference(a, b), v.vertices, v.area)
  {
    var va, vb := Trusted(pa, key, a).value, Trusted(pb, key, b).value;
    var ref := Reference(a, b);
    var shared, given := Shared(va, vb, ref), UnwrappedAll(vb, ref);
    if |shared| < 3 { ThinHasNoArea(shared); }
    forall p | p in shared ensures C.InHull(p, UnwrappedAll(va, ref)) {
      C.ClipSound(UnwrappedAll(va, ref), given, p, 0);
    }
    forall p, k | p in shared && 0 <= k < |Oriented(given)|
      ensures C.Side(Oriented(given)[k], Oriented(given)[Next(k, |Oriented(given)|)], p) >= -C.EPS
    {
      C.ClipSound(UnwrappedAll(va, ref), given, p, k);
    }
  }

  /** For footprints in convex position the clipped polygon has the points both have in common
      and no others, if the second has area and no crossing was degenerate. */
  lemma {:induction false} SharedIsCommon(
      ccw: bool, va: Polygon, turning: bool, vb: Polygon, ref: real, p: Point)
    requires |va| >= 3 && |vb| >= 3
    requires X.Turns(ccw, UnwrappedAll(va, ref)) && X.Turns(turning, UnwrappedAll(vb, ref))
    requires SignedArea(UnwrappedAll(vb, ref)) != 0.0
    requires B.NeverDegenerate(UnwrappedAll(va, ref), Oriented(UnwrappedAll(vb, ref)), 0)
    ensures C.InHull(p, Shared(va, vb, ref))
       <==> C.InHull(p, UnwrappedAll(va, ref)) && C.InHull(p, UnwrappedAll(vb, ref))
  {
    I.ClipIsIntersection(ccw, UnwrappedAll(va, ref), turning, UnwrappedAll(vb, ref), p);
  }

  // -------------------------------------------------------------------------
  // The bounding-box path
  // -------------------------------------------------------------------------

  function LonWindow(box: Label): Window {
    Unwrapped(box.minLon, box.maxLon)
  }

  function LatWindow(a: Label, b: Label): Window {
    Window(Max(a.minLat, b.minLat), Min(a.maxLat, b.maxLat))
  }

  function BoxVerdict(a: Label, b: Label): Verdict {
    var lat := LatWindow(a, b);
    var direct := Intersection(LonWindow(a), LonWindow(b), false);
    var window := Intersection(LonWindow(a), LonWindow(b), true);
    if lat.east <= lat.west || window.None? then Disjoint else ByBox(lat, window.value, direct.None?)
  }

  method BoxOverlap(a: Label, b: Label) returns (v: Verdict)
    ensures v == BoxVerdict(a, b)
  {
    var minLat, maxLat := Max(a.minLat, b.minLat), Min(a.maxLat, b.maxLat);
    var a0, a1, b0, b1 := a.minLon, a.maxLon, b.minLon, b.maxLon;
    if a1 < a0 { a1 := a1 + 360.0; }
    if b1 < b0 { b1 := b1 + 360.0; }
    var direct := LonWindowIntersection(Window(a0, a1), Window(b0, b1), false);
    var window := LonWindowIntersection(Window(a0, a1), Window(b0, b1), true);
    if maxLat <= minLat || window.None? { return Disjoint; }
    return ByBox(Window(minLat, maxLat), window.value, direct.None?);
  }

  predicate LabelPlausible(box: Label) {
    Plausible(box.minLon) && Plausible(box.maxLon)
  }

  /** For boxes in range, the box path confirms an overlap exactly when the latitudes
      overlap and some number of turns makes the longitudes overlap by more than the
      tolerance; the window it reports is then a longest one. */
  lemma {:induction false} BoxExactly(a: Label, b: Label)
    requires LabelPlausible(a) && LabelPlausible(b)
    ensures var v := BoxVerdict(a, b);
            && (v.ByBox? <==>
                  && Length(LatWindow(a, b)) > 0.0
                  && exists k :: Longitudes.Overlap(LonWindow(a), LonWindow(b), k) > MIN_OVERLAP)
            && (v.ByBox? ==> forall k :: Longitudes.Overlap(LonWindow(a), LonWindow(b), k) <= Length(v.lon))
            && (v.ByBox? ==> v.lat == Window(if a.minLat < b.minLat then b.minLat else a.minLat,
                                             if a.maxLat < b.maxLat then a.maxLat else b.maxLat))
            && (v.ByBox? ==>
                  (v.wraparound <==> Longitudes.Overlap(LonWindow(a), LonWindow(b), 0) <= 0.000000001))
  {
    LongestOverTurns(a.minLon, a.maxLon, b.minLon, b.maxLon);
    FirstLongest(LonWindow(a), LonWindow(b));
  }

  /** Swapping the products changes neither the verdict nor the extent it reports. */
  lemma {:induction false} BoxSymmetric(a: Label, b: Label)
    ensures var v, w := BoxVerdict(a, b), BoxVerdict(b, a);
            && v.ByBox? == w.ByBox?
            && (v.ByBox? ==> v.lat == w.lat && Length(v.lon) == Length(w.lon) && v.wraparound == w.wraparound)
  {
    IntersectionSymmetric(LonWindow(a), LonWindow(b), false);
    IntersectionSymmetric(LonWindow(a), LonWindow(b), true);
  }

  // -------------------------------------------------------------------------
  // The verdict
  // -------------------------------------------------------------------------

  /** `c.get(key)` */
  function Value(c: Corners, key: BoxKey): Option<real> {
    if key in c then c[key] else None
  }

  function Complete(c: Corners): Option<Label> {
    var minLat, maxLat := Value(c, MinLatitude), Value(c, MaxLatitude);
    var minLon, maxLon := Value(c, MinLongitude), Value(c, MaxLongitude);
    if minLat.Some? && maxLat.Some? && minLon.Some? && maxLon.Some?
    then Some(Label(minLat.value, maxLat.value, minLon.value, maxLon.value))
    else None
  }

  /** `not bbox`: an empty object counts as missing. */
  predicate NoBox(f: Footprint) {
    f.bbox.None? || f.bbox.value == map[]
  }

  /** The box of a footprint; None also for a footprint that is not there. */
  function Box(f: Footprint): Option<Label> {
    if f.bbox.None? then None else Complete(f.bbox.value)
  }

  function Structural(fa: Footprint, fb: Footprint, key: Point -> Point): Verdict {
    if NoBox(fa) || NoBox(fb) then MissingEvidence
    else if Box(fa).None? || Box(fb).None? then IncompleteBox
    else
      var a, b := Box(fa).value, Box(fb).value;
      var byPolygon := PolygonVerdict(fa.polygon, fb.polygon, a, b, key);
      if byPolygon.Some? then byPolygon.value else BoxVerdict(a, b)
  }

  method StructuralOverlap(fa: Footprint, fb: Footprint, key: Point -> Point) returns (v: Verdict)
    ensures v == Structural(fa, fb, key)
  {
    if NoBox(fa) || NoBox(fb) { return MissingEvidence; }
    var a, b := Complete(fa.bbox.value), Complete(fb.bbox.value);
    if a.None? || b.None? { return IncompleteBox; }
    var byPolygon := PolygonOverlap(fa.polygon, fb.polygon, a.value, b.value, key);
    if byPolygon.Some? { return byPolygon.value; }
    v := BoxOverlap(a.value, b.value);
  }

  /** A box is complete when all four corners are there and not null; each comes from its own
      key. */
  lemma {:induction false} CompleteExactly(c: Corners, box: Label)
    ensures Complete(c) == Some(box)
       <==> && MinLatitude in c && c[MinLatitude] == Some(box.minLat)
            && MaxLatitude in c && c[MaxLatitude] == Some(box.maxLat)
            && MinLongitude in c && c[MinLongitude] == Some(box.minLon)
            && MaxLongitude in c && c[MaxLongitude] == Some(box.maxLon)
  {
  }

  /** What the verdict rests on, case by case: boxes that are missing or empty, corners that
      are, polygons that can both be trusted and share enough area, and otherwise the boxes. */
  lemma {:induction false} StructuralExactly(fa: Footprint, fb: Footprint, key: Point -> Point)
    ensures var v := Structural(fa, fb, key);
            var given := fa.bbox.Some? && fa.bbox.value != map[] && fb.bbox.Some? && fb.bbox.value != map[];
            && (v.MissingEvidence? <==> !given)
            && (given ==> (v.IncompleteBox? <==> Complete(fa.bbox.value).None? || Complete(fb.bbox.value).None?))
            && (given && !v.IncompleteBox? ==>
                  var a, b := Complete(fa.bbox.value).value, Complete(fb.bbox.value).value;
                  var va, vb := Trusted(fa.polygon, key, a), Trusted(fb.polygon, key, b);
                  var shared := if va.Some? && vb.Some? then Shared(va.value, vb.value, Reference(a, b)) else [];
                  var area := Abs(SignedArea(shared));
                  if va.Some? && vb.Some? && area > 0.000001 then v == ByPolygon(|shared|, area)
                  else v == BoxVerdict(a, b) && !v.ByPolygon?)
  {
  }

  /** No overlap is invented: a confirmation rests on two complete boxes, and either on a
      clipped polygon with area or on boxes that overlap in latitude and, after some number
      of turns, in longitude. */
  lemma {:induction false} ConfirmedIsBacked(fa: Footprint, fb: Footprint, key: Point -> Point)
    requires Confirmed(Structural(fa, fb, key))
    ensures Box(fa).Some? && Box(fb).Some?
    ensures var v, a, b := Structural(fa, fb, key), Box(fa).value, Box(fb).value;
            if v.ByPolygon? then
              var va, vb := Trusted(fa.polygon, key, a), Trusted(fb.polygon, key, b);
              va.Some? && vb.Some? && Backed(va.value, vb.value, Reference(a, b), v.vertices, v.area)
            else
              && v.lat == LatWindow(a, b) && Length(v.lat) > 0.0
              && exists k :: Longitudes.Overlap(LonWindow(a), LonWindow(b), k) == Length(v.lon) > MIN_OVERLAP
  {
    var a, b := Box(fa).value, Box(fb).value;
    if PolygonVerdict(fa.polygon, fb.polygon, a, b, key).Some? {
      PolygonVerdictBacked(fa.polygon, fb.polygon, a, b, key);
    } else {
      ScanSound(LonWindow(a), LonWindow(b), Shifts(true), Shifts(true), None);
      ShiftsAreTurns(LonWindow(a), LonWindow(b), Structural(fa, fb, key).lon);
    }
  }

  /** A footprint pair with plausible complete boxes that is called disjoint has boxes that
      stay apart at every number of turns. */
  lemma {:induction false} DisjointIsApart(fa: Footprint, fb: Footprint, key: Point -> Point)
    requires Structural(fa, fb, key).Disjoint? && LabelPlausible(Box(fa).value) && LabelPlausible(Box(fb).value)
    ensures Length(LatWindow(Box(fa).value, Box(fb).value)) <= 0.0
         || forall k :: Longitudes.Overlap(LonWindow(Box(fa).value), LonWindow(Box(fb).value), k) <= MIN_OVERLAP
  {
    BoxExactly(Box(fa).value, Box(fb).value);
  }
}
