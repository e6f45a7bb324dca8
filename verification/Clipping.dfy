/**
 Sutherland-Hodgman clipping with the degenerate-denominator branch, over exact reals.
*/
module Clipping {
  import opened Polygons
  import opened RealSums

  const EPS := 0.000000000001

  /** The cross product `inside` tests; the left side of the edge from `a` to `b` is positive. */
  function Side(a: Point, b: Point, p: Point): real {
    (b.x - a.x) * (p.y - a.y) - (b.y - a.y) * (p.x - a.x)
  }

  predicate Inside(p: Point, a: Point, b: Point) {
    Side(a, b, p) >= 0.0
  }

  function Denominator(p1: Point, p2: Point, a: Point, b: Point): real {
    (p1.x - p2.x) * (a.y - b.y) - (p1.y - p2.y) * (a.x - b.x)
  }

  function Along(c: real, d: real, t: real): real {
    c + t * (d - c)
  }

  function Lerp(p: Point, q: Point, t: real): Point {
    Point(Along(p.x, q.x, t), Along(p.y, q.y, t))
  }

  function Intersect(p1: Point, p2: Point, a: Point, b: Point): Point {
    var denom := Denominator(p1, p2, a, b);
    if Abs(denom) < EPS then p2
    else Lerp(p1, p2, ((p1.x - a.x) * (a.y - b.y) - (p1.y - a.y) * (a.x - b.x)) / denom)
  }

  /** What one step of the inner loop appends for the subject edge from `s` to `e`. */
  function Emit(s: Point, e: Point, a: Point, b: Point): Polygon {
    if Inside(e, a, b) then
      if Inside(s, a, b) then [e] else [Intersect(s, e, a, b), e]
    else if Inside(s, a, b) then [Intersect(s, e, a, b)]
    else []
  }

  function Pass(pts: Polygon, s: Point, a: Point, b: Point): Polygon {
    if pts == [] then [] else Emit(s, pts[0], a, b) + Pass(pts[1..], pts[0], a, b)
  }

  function ClipEdge(pts: Polygon, a: Point, b: Point): Polygon {
    if pts == [] then [] else Pass(pts, pts[|pts| - 1], a, b)
  }

  function ClipFrom(pts: Polygon, clip: Polygon, i: nat): Polygon
    requires i <= |clip|
    decreases |clip| - i
  {
    if i == |clip| || pts == [] then pts
    else ClipFrom(ClipEdge(pts, clip[i], clip[Next(i, |clip|)]), clip, i + 1)
  }

  function Clip(subject: Polygon, clip: Polygon): Polygon {
    if |clip| < 3 || |subject| < 3 then [] else ClipFrom(subject, Oriented(clip), 0)
  }

  lemma {:induction false} PassSnoc(pts: Polygon, e: Point, s: Point, a: Point, b: Point)
    ensures Pass(pts + [e], s, a, b) == Pass(pts, s, a, b) + Emit(if pts == [] then s else pts[|pts| - 1], e, a, b)
  {
    if pts == [] {
      assert ([e])[1..] == [];
    } else {
      assert (pts + [e])[1..] == pts[1..] + [e];
      PassSnoc(pts[1..], e, pts[0], a, b);
    }
  }

  /** The inner loop of `_clip_polygon`: one pass against the edge from `a` to `b`. */
  method ClipAgainst(input: Polygon, a: Point, b: Point) returns (output: Polygon)
    requires input != []
    ensures output == ClipEdge(input, a, b)
  {
    output := [];
    var last := input[|input| - 1];
    var s := last;
    for j := 0 to |input|
      invariant output == Pass(input[..j], last, a, b)
      invariant s == if j == 0 then last else input[j - 1]
    {
      var e := input[j];
      assert input[..j + 1] == input[..j] + [e];
      PassSnoc(input[..j], e, last, a, b);
      ghost var before := output;
      if Inside(e, a, b) {
        if !Inside(s, a, b) { output := output + [Intersect(s, e, a, b)]; }
        output := output + [e];
      } else if Inside(s, a, b) {
        output := output + [Intersect(s, e, a, b)];
      }
      assert output == before + Emit(s, e, a, b);
      s := e;
    }
    assert input[..|input|] == input;
  }

  /** `_clip_polygon` */
  method ClipPolygon(subject: Polygon, given: Polygon) returns (output: Polygon)
    ensures output == Clip(subject, given)
    ensures |subject| < 3 || |given| < 3 ==> output == []
  {
    output := subject;
    var clip := given;
    var n := |clip|;
    if n < 3 || |output| < 3 { return []; }
    if SignedArea(clip) < 0.0 { clip := Reverse(clip); }
    var i := 0;
    while i < n
      invariant 0 <= i <= n == |clip|
      invariant ClipFrom(output, clip, i) == Clip(subject, given)
    {
      var input := output;
      output := [];
      if input == [] { break; }
      output := ClipAgainst(input, clip[i], clip[Next(i, n)]);
      i := i + 1;
    }
  }

  // -------------------------------------------------------------------------
  // The algebra of one crossing
  // -------------------------------------------------------------------------

  lemma {:induction false} DenominatorIsDifference(s: Point, e: Point, a: Point, b: Point)
    ensures Denominator(s, e, a, b) == Side(a, b, s) - Side(a, b, e)
    ensures (s.x - a.x) * (a.y - b.y) - (s.y - a.y) * (a.x - b.x) == Side(a, b, s)
  {
  }

  lemma {:induction false} SideOfLerp(a: Point, b: Point, p: Point, q: Point, t: real)
    ensures Side(a, b, Lerp(p, q, t)) == Along(Side(a, b, p), Side(a, b, q), t)
  {
    var dx, dy := b.x - a.x, b.y - a.y;
    assert dx * (t * (q.y - p.y)) - dy * (t * (q.x - p.x)) == t * (dx * (q.y - p.y) - dy * (q.x - p.x));
    assert dx * (q.y - p.y) - dy * (q.x - p.x) == Side(a, b, q) - Side(a, b, p);
  }

  lemma {:induction false} FractionInUnit(c: real, d: real)
    requires (c >= 0.0 > d) || (d >= 0.0 > c)
    ensures c - d != 0.0 && 0.0 <= c / (c - d) <= 1.0 && (c / (c - d)) * (c - d) == c
  {
    var t := c / (c - d);
    assert t * (c - d) == c;
  }

  lemma {:induction false} AlongRoot(c: real, d: real, t: real)
    requires t * (c - d) == c
    ensures Along(c, d, t) == 0.0
  {
    assert t * (d - c) == -(t * (c - d));
  }

  /** A crossing edge yields its end point (degenerate) or the exact crossing. */
  lemma {:induction false} CrossingPoint(s: Point, e: Point, a: Point, b: Point) returns (t: real)
    requires Inside(s, a, b) != Inside(e, a, b)
    ensures 0.0 <= t <= 1.0 && Intersect(s, e, a, b) == Lerp(s, e, t)
    ensures Side(a, b, Intersect(s, e, a, b)) > -EPS
    ensures Abs(Side(a, b, s) - Side(a, b, e)) < EPS ==> Intersect(s, e, a, b) == e
    ensures Abs(Side(a, b, s) - Side(a, b, e)) >= EPS ==>
              Side(a, b, Intersect(s, e, a, b)) == 0.0 && t * (Side(a, b, s) - Side(a, b, e)) == Side(a, b, s)
  {
    var c, d := Side(a, b, s), Side(a, b, e);
    DenominatorIsDifference(s, e, a, b);
    FractionInUnit(c, d);
    if Abs(c - d) < EPS {
      t := 1.0;
      assert Lerp(s, e, t) == e;
    } else {
      t := c / (c - d);
      SideOfLerp(a, b, s, e, t);
      AlongRoot(c, d, t);
    }
  }

  // -------------------------------------------------------------------------
  // Soundness: one pass
  // -------------------------------------------------------------------------

  /** On the segment between two points of `pts`, and not beyond the edge by EPS. */
  ghost predicate Derived(p: Point, pts: Polygon, a: Point, b: Point) {
    Side(a, b, p) > -EPS && exists s, e, t :: s in pts && e in pts && 0.0 <= t <= 1.0 && p == Lerp(s, e, t)
  }

  lemma {:induction false} PassDerived(all: Polygon, pts: Polygon, s: Point, a: Point, b: Point, p: Point)
    requires s in all && (forall q | q in pts :: q in all) && p in Pass(pts, s, a, b)
    ensures Derived(p, all, a, b)
  {
    var e := pts[0];
    if p in Emit(s, e, a, b) {
      if p == e && Inside(e, a, b) {
        assert Lerp(e, e, 0.0) == p;
      } else {
        var t := CrossingPoint(s, e, a, b);
        assert p == Lerp(s, e, t);
      }
    } else {
      PassDerived(all, pts[1..], e, a, b, p);
    }
  }

  ghost predicate AllAtLeast(pts: Polygon, a: Point, b: Point, m: real) {
    forall p | p in pts :: Side(a, b, p) >= m
  }

  /** A pass puts every vertex within EPS of its own half-plane and keeps every lower
      bound against any other edge. */
  lemma {:induction false} PassBounds(pts: Polygon, a: Point, b: Point, c: Point, d: Point, m: real)
    ensures AllAtLeast(ClipEdge(pts, a, b), a, b, -EPS)
    ensures AllAtLeast(pts, c, d, m) ==> AllAtLeast(ClipEdge(pts, a, b), c, d, m)
  {
    forall p | p in ClipEdge(pts, a, b)
      ensures Side(a, b, p) >= -EPS && (AllAtLeast(pts, c, d, m) ==> Side(c, d, p) >= m)
    {
      PassDerived(pts, pts, pts[|pts| - 1], a, b, p);
      var s, e, t :| s in pts && e in pts && 0.0 <= t <= 1.0 && p == Lerp(s, e, t);
      if AllAtLeast(pts, c, d, m) { LerpAtLeast(c, d, s, e, t, m); }
    }
  }

  lemma {:induction false} LerpAtLeast(c: Point, d: Point, s: Point, e: Point, t: real, m: real)
    requires Side(c, d, s) >= m && Side(c, d, e) >= m && 0.0 <= t <= 1.0
    ensures Side(c, d, Lerp(s, e, t)) >= m
  {
    SideOfLerp(c, d, s, e, t);
    Between(Side(c, d, s), Side(c, d, e), t, m);
  }

  lemma {:induction false} Between(x: real, y: real, t: real, m: real)
    requires x >= m && y >= m && 0.0 <= t <= 1.0
    ensures Along(x, y, t) >= m
  {
    assert Along(x, y, t) == (1.0 - t) * x + t * y;
    assert (1.0 - t) * x >= (1.0 - t) * m && t * y >= t * m;
    assert (1.0 - t) * m + t * m == m;
  }

  // -------------------------------------------------------------------------
  // Convex combinations
  // -------------------------------------------------------------------------

  function Dot(ws: seq<real>, xs: seq<real>): real
    requires |ws| == |xs|
  {
    if ws == [] then 0.0 else ws[0] * xs[0] + Dot(ws[1..], xs[1..])
  }

  function Xs(pts: Polygon): (r: seq<real>)
    ensures |r| == |pts|
  {
    seq(|pts|, i requires 0 <= i < |pts| => pts[i].x)
  }

  function Ys(pts: Polygon): (r: seq<real>)
    ensures |r| == |pts|
  {
    seq(|pts|, i requires 0 <= i < |pts| => pts[i].y)
  }

  function Combine(ws: seq<real>, pts: Polygon): Point
    requires |ws| == |pts|
  {
    Point(Dot(ws, Xs(pts)), Dot(ws, Ys(pts)))
  }

  predicate IsConvex(ws: seq<real>) {
    (forall i | 0 <= i < |ws| :: ws[i] >= 0.0) && Sum(ws) == 1.0
  }

  /** A convex combination of the vertices of `pts`. */
  ghost predicate InHull(p: Point, pts: Polygon) {
    exists ws: seq<real> :: |ws| == |pts| && IsConvex(ws) && p == Combine(ws, pts)
  }

  function Mix(u: seq<real>, v: seq<real>, t: real): (r: seq<real>)
    requires |u| == |v|
    ensures |r| == |u|
  {
    if u == [] then [] else [Along(u[0], v[0], t)] + Mix(u[1..], v[1..], t)
  }

  lemma {:induction false} MixSum(u: seq<real>, v: seq<real>, t: real)
    requires |u| == |v|
    ensures Sum(Mix(u, v, t)) == Along(Sum(u), Sum(v), t)
  {
    if u != [] {
      MixSum(u[1..], v[1..], t);
      assert Mix(u, v, t)[1..] == Mix(u[1..], v[1..], t);
      Distribute(u[0], v[0], t, 1.0, Sum(u[1..]), Sum(v[1..]));
    }
  }

  lemma {:induction false} MixDot(u: seq<real>, v: seq<real>, t: real, xs: seq<real>)
    requires |u| == |v| == |xs|
    ensures Dot(Mix(u, v, t), xs) == Along(Dot(u, xs), Dot(v, xs), t)
  {
    if u != [] {
      MixDot(u[1..], v[1..], t, xs[1..]);
      assert Mix(u, v, t)[1..] == Mix(u[1..], v[1..], t);
      Distribute(u[0], v[0], t, xs[0], Dot(u[1..], xs[1..]), Dot(v[1..], xs[1..]));
    }
  }

  lemma {:induction false} Distribute(u: real, v: real, t: real, x: real, c: real, d: real)
    ensures Along(u, v, t) * x + Along(c, d, t) == Along(u * x + c, v * x + d, t)
  {
    assert Along(u, v, t) * x == u * x + t * (v * x - u * x);
  }

  lemma {:induction false} MixIsConvex(u: seq<real>, v: seq<real>, t: real)
    requires |u| == |v| && 0.0 <= t <= 1.0
    requires forall i | 0 <= i < |u| :: u[i] >= 0.0 && v[i] >= 0.0
    ensures forall i | 0 <= i < |u| :: Mix(u, v, t)[i] >= 0.0
  {
    if u != [] {
      Between(u[0], v[0], t, 0.0);
      MixIsConvex(u[1..], v[1..], t);
    }
  }

  lemma {:induction false} HullIsConvex(p: Point, q: Point, t: real, pts: Polygon)
    requires InHull(p, pts) && InHull(q, pts) && 0.0 <= t <= 1.0
    ensures InHull(Lerp(p, q, t), pts)
  {
    var u: seq<real> :| |u| == |pts| && IsConvex(u) && p == Combine(u, pts);
    var v: seq<real> :| |v| == |pts| && IsConvex(v) && q == Combine(v, pts);
    MixSum(u, v, t);
    MixDot(u, v, t, Xs(pts));
    MixDot(u, v, t, Ys(pts));
    MixIsConvex(u, v, t);
    assert IsConvex(Mix(u, v, t));
  }

  function Zeros(n: nat): (r: seq<real>)
    ensures |r| == n && forall i | 0 <= i < n :: r[i] == 0.0
  {
    seq(n, i => 0.0)
  }

  lemma {:induction false} ZeroWeights(xs: seq<real>)
    ensures Sum(Zeros(|xs|)) == 0.0 && Dot(Zeros(|xs|), xs) == 0.0
  {
    if xs != [] {
      assert Zeros(|xs|)[1..] == Zeros(|xs[1..]|);
      ZeroWeights(xs[1..]);
    }
  }

  function Unit(n: nat, i: nat): (ws: seq<real>)
    requires i < n
    ensures |ws| == n && forall k | 0 <= k < n :: ws[k] >= 0.0
  {
    if i == 0 then [1.0] + Zeros(n - 1) else [0.0] + Unit(n - 1, i - 1)
  }

  lemma {:induction false} UnitWeights(xs: seq<real>, i: nat)
    requires i < |xs|
    ensures Sum(Unit(|xs|, i)) == 1.0 && Dot(Unit(|xs|, i), xs) == xs[i]
  {
    if i == 0 {
      ZeroWeights(xs[1..]);
      assert Unit(|xs|, i)[1..] == Zeros(|xs[1..]|);
    } else {
      UnitWeights(xs[1..], i - 1);
      assert Unit(|xs|, i)[1..] == Unit(|xs[1..]|, i - 1);
    }
  }

  lemma {:induction false} VertexInHull(pts: Polygon, p: Point)
    requires p in pts
    ensures InHull(p, pts)
  {
    var i :| 0 <= i < |pts| && pts[i] == p;
    UnitWeights(Xs(pts), i);
    UnitWeights(Ys(pts), i);
    assert IsConvex(Unit(|pts|, i)) && Combine(Unit(|pts|, i), pts) == p;
  }

  ghost predicate AllInHull(pts: Polygon, subject: Polygon) {
    forall p | p in pts :: InHull(p, subject)
  }

  lemma {:induction false} PassInHull(pts: Polygon, a: Point, b: Point, subject: Polygon)
    requires AllInHull(pts, subject)
    ensures AllInHull(ClipEdge(pts, a, b), subject)
  {
    forall p | p in ClipEdge(pts, a, b) ensures InHull(p, subject) {
      PassDerived(pts, pts, pts[|pts| - 1], a, b, p);
      var s, e, t :| s in pts && e in pts && 0.0 <= t <= 1.0 && p == Lerp(s, e, t);
      HullIsConvex(s, e, t, subject);
    }
  }

  // -------------------------------------------------------------------------
  // Soundness: the whole clip
  // -------------------------------------------------------------------------

  ghost predicate WithinEdges(pts: Polygon, clip: Polygon, n: nat)
    requires n <= |clip|
  {
    forall k | 0 <= k < n :: AllAtLeast(pts, clip[k], clip[Next(k, |clip|)], -EPS)
  }

  lemma {:induction false} ClipFromSound(pts: Polygon, clip: Polygon, i: nat, subject: Polygon)
    requires i <= |clip| && WithinEdges(pts, clip, i) && AllInHull(pts, subject)
    ensures WithinEdges(ClipFrom(pts, clip, i), clip, |clip|) && AllInHull(ClipFrom(pts, clip, i), subject)
    decreases |clip| - i
  {
    if i < |clip| && pts != [] {
      var a, b := clip[i], clip[Next(i, |clip|)];
      var cut := ClipEdge(pts, a, b);
      forall k | 0 <= k < i + 1 ensures AllAtLeast(cut, clip[k], clip[Next(k, |clip|)], -EPS) {
        PassBounds(pts, a, b, clip[k], clip[Next(k, |clip|)], -EPS);
      }
      PassInHull(pts, a, b, subject);
      ClipFromSound(cut, clip, i + 1, subject);
    }
  }

  /** Every returned vertex lies within EPS of every half-plane of the oriented clip
      polygon and is a convex combination of subject vertices. */
  lemma {:induction false} ClipSound(subject: Polygon, clip: Polygon, p: Point, k: nat)
    requires p in Clip(subject, clip) && k < |clip|
    ensures Side(Oriented(clip)[k], Oriented(clip)[Next(k, |clip|)], p) >= -EPS
    ensures InHull(p, subject)
  {
    forall q | q in subject ensures InHull(q, subject) { VertexInHull(subject, q); }
    ClipFromSound(subject, Oriented(clip), 0, subject);
    assert AllAtLeast(Clip(subject, clip), Oriented(clip)[k], Oriented(clip)[Next(k, |clip|)], -EPS);
  }
}
