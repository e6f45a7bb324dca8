/** Clipping loses no boundary: what survives of the subject's vertices and edges. */
module ClipBoundary {
  import opened Polygons
  import opened Clipping
  import opened RealSums

  ghost predicate OnSegment(p: Point, s: Point, e: Point) {
    exists t :: 0.0 <= t <= 1.0 && p == Lerp(s, e, t)
  }

  function Prev(pts: Polygon, i: nat): Point
    requires i < |pts|
  {
    if i == 0 then pts[|pts| - 1] else pts[i - 1]
  }

  /** On one of the edges of the closed polygon. */
  ghost predicate OnCycle(p: Point, pts: Polygon) {
    exists i :: 0 <= i < |pts| && OnSegment(p, Prev(pts, i), pts[i])
  }

  /** A crossing for which `intersect` gives up and returns the end point. */
  predicate Degenerate(s: Point, e: Point, a: Point, b: Point) {
    Inside(s, a, b) != Inside(e, a, b) && Abs(Side(a, b, s) - Side(a, b, e)) < EPS
  }

  ghost predicate NoDegenerate(pts: Polygon, a: Point, b: Point) {
    forall i | 0 <= i < |pts| :: !Degenerate(Prev(pts, i), pts[i], a, b)
  }

  // -------------------------------------------------------------------------
  // One edge of the subject
  // -------------------------------------------------------------------------

  lemma {:induction false} ScaleLerp(s: Point, e: Point, t: real, u: real)
    requires 0.0 <= u <= t
    ensures OnSegment(Lerp(s, e, u), s, Lerp(s, e, t))
  {
    if t == 0.0 {
      assert Lerp(s, e, u) == Lerp(s, Lerp(s, e, t), 0.0);
    } else {
      var v := u / t;
      assert v * t == u && 0.0 <= v <= 1.0 by { Ratio(u, t); }
      ScaleProduct(s.x, e.x, v, t, u);
      ScaleProduct(s.y, e.y, v, t, u);
      assert Lerp(s, Lerp(s, e, t), v) == Lerp(s, e, u);
    }
  }

  lemma {:induction false} Ratio(u: real, t: real)
    requires 0.0 <= u <= t && t > 0.0
    ensures (u / t) * t == u && 0.0 <= u / t <= 1.0
  {
  }

  lemma {:induction false} ScaleProduct(s: real, e: real, v: real, t: real, u: real)
    requires v * t == u
    ensures Along(s, Along(s, e, t), v) == Along(s, e, u)
  {
    assert v * (t * (e - s)) == (v * t) * (e - s);
  }

  lemma {:induction false} RestOfLerp(s: Point, e: Point, t: real, u: real)
    requires t <= u <= 1.0
    ensures OnSegment(Lerp(s, e, u), Lerp(s, e, t), e)
  {
    if t == 1.0 {
      assert Lerp(s, e, u) == Lerp(Lerp(s, e, t), e, 0.0);
    } else {
      var w := (u - t) / (1.0 - t);
      Ratio(u - t, 1.0 - t);
      RestProduct(s.x, e.x, t, u, w);
      RestProduct(s.y, e.y, t, u, w);
      assert Lerp(Lerp(s, e, t), e, w) == Lerp(s, e, u);
    }
  }

  lemma {:induction false} RestProduct(s: real, e: real, t: real, u: real, w: real)
    requires w * (1.0 - t) == u - t
    ensures Along(Along(s, e, t), e, w) == Along(s, e, u)
  {
    var d := e - s;
    assert e - Along(s, e, t) == (1.0 - t) * d;
    assert w * ((1.0 - t) * d) == (u - t) * d;
  }

  /** The edge leaves the half-plane. */
  lemma {:induction false} LeavingKept(s: Point, e: Point, a: Point, b: Point, u: real)
    requires 0.0 <= u <= 1.0 && Side(a, b, Lerp(s, e, u)) >= 0.0 && Inside(s, a, b) && !Inside(e, a, b)
    ensures OnSegment(Lerp(s, e, u), s, Intersect(s, e, a, b))
  {
    var t := CrossingPoint(s, e, a, b);
    if Abs(Side(a, b, s) - Side(a, b, e)) >= EPS {
      SideOfLerp(a, b, s, e, u);
      Compare(Side(a, b, s), Side(a, b, e), t, u);
      ScaleLerp(s, e, t, u);
    }
  }

  /** The edge enters the half-plane. */
  lemma {:induction false} EnteringKept(s: Point, e: Point, a: Point, b: Point, u: real)
    requires 0.0 <= u <= 1.0 && Side(a, b, Lerp(s, e, u)) >= 0.0 && !Inside(s, a, b) && Inside(e, a, b)
    requires Side(a, b, Lerp(s, e, u)) >= EPS || Abs(Side(a, b, s) - Side(a, b, e)) >= EPS
    ensures OnSegment(Lerp(s, e, u), Intersect(s, e, a, b), e)
  {
    var t := CrossingPoint(s, e, a, b);
    SideOfLerp(a, b, s, e, u);
    if Abs(Side(a, b, s) - Side(a, b, e)) < EPS {
      AtMostEnd(Side(a, b, s), Side(a, b, e), u);
    } else {
      Compare(Side(a, b, s), Side(a, b, e), t, u);
      RestOfLerp(s, e, t, u);
    }
  }

  /** A point of a subject edge inside the half-plane lies on the part of that edge that
      is kept, unless the crossing is degenerate and the point within EPS of the line. */
  lemma {:induction false} SegmentKept(s: Point, e: Point, a: Point, b: Point, p: Point)
    requires OnSegment(p, s, e) && Inside(p, a, b)
    requires Side(a, b, p) >= EPS || !Degenerate(s, e, a, b)
    ensures Inside(s, a, b) || Inside(e, a, b)
    ensures Inside(s, a, b) && !Inside(e, a, b) ==> OnSegment(p, s, Intersect(s, e, a, b))
    ensures !Inside(s, a, b) && Inside(e, a, b) ==> OnSegment(p, Intersect(s, e, a, b), e)
  {
    var u :| 0.0 <= u <= 1.0 && p == Lerp(s, e, u);
    if Inside(s, a, b) && !Inside(e, a, b) {
      LeavingKept(s, e, a, b, u);
    } else if Inside(e, a, b) && !Inside(s, a, b) {
      EnteringKept(s, e, a, b, u);
    } else if !Inside(s, a, b) {
      SideOfLerp(a, b, s, e, u);
      OutsideBetween(Side(a, b, s), Side(a, b, e), u);
    }
  }

  lemma {:induction false} OutsideBetween(c: real, d: real, u: real)
    requires c < 0.0 && d < 0.0 && 0.0 <= u <= 1.0
    ensures Along(c, d, u) < 0.0
  {
    assert Along(c, d, u) == (1.0 - u) * c + u * d;
    if u > 0.0 { assert u * d < 0.0; } else { assert u * d == 0.0; }
    assert (1.0 - u) * c <= 0.0;
  }

  lemma {:induction false} AtMostEnd(c: real, d: real, u: real)
    requires c <= d && 0.0 <= u <= 1.0
    ensures Along(c, d, u) <= d
  {
    assert d - Along(c, d, u) == (1.0 - u) * (d - c);
  }

  lemma {:induction false} Compare(c: real, d: real, t: real, u: real)
    requires t * (c - d) == c && Along(c, d, u) >= 0.0 && c != d
    ensures c > d ==> u <= t
    ensures c < d ==> u >= t
  {
    assert u * (d - c) == -(u * (c - d));
    assert Along(c, d, u) == t * (c - d) - u * (c - d);
    assert Times(u - t, c - d) == u * (c - d) - t * (c - d);
    assert Times(t - u, d - c) == u * (c - d) - t * (c - d);
    if c > d && u > t { TimesPositive(u - t, c - d); }
    if c < d && u < t { TimesPositive(t - u, d - c); }
  }

  // -------------------------------------------------------------------------
  // One pass
  // -------------------------------------------------------------------------

  lemma {:induction false} PassConcat(x: Polygon, y: Polygon, s: Point, a: Point, b: Point)
    ensures Pass(x + y, s, a, b) == Pass(x, s, a, b) + Pass(y, if x == [] then s else x[|x| - 1], a, b)
  {
    if x == [] {
      assert x + y == y;
    } else {
      assert (x + y)[1..] == x[1..] + y;
      PassConcat(x[1..], y, x[0], a, b);
    }
  }

  lemma {:induction false} PassSplit(pts: Polygon, i: nat, s: Point, a: Point, b: Point)
    requires i < |pts|
    ensures Pass(pts, s, a, b)
         == Pass(pts[..i], s, a, b)
            + Emit(if i == 0 then s else pts[i - 1], pts[i], a, b)
            + Pass(pts[i + 1..], pts[i], a, b)
  {
    assert pts == pts[..i + 1] + pts[i + 1..] && pts[..i + 1] == pts[..i] + [pts[i]];
    PassConcat(pts[..i + 1], pts[i + 1..], s, a, b);
    PassSnoc(pts[..i], pts[i], s, a, b);
  }

  /** A pass whose last input is inside ends with it. */
  lemma {:induction false} PassEnds(x: Polygon, s: Point, a: Point, b: Point)
    requires x != [] && Inside(x[|x| - 1], a, b)
    ensures var r := Pass(x, s, a, b); r != [] && r[|r| - 1] == x[|x| - 1]
  {
    var front, e := x[..|x| - 1], x[|x| - 1];
    assert x == front + [e];
    PassSnoc(front, e, s, a, b);
  }

  /** The output around subject edge `i`: before it, its own part, after it. */
  lemma {:induction false} PassAround(
      pts: Polygon, i: nat, a: Point, b: Point) returns (before: Polygon, after: Polygon)
    requires i < |pts|
    ensures ClipEdge(pts, a, b) == before + Emit(Prev(pts, i), pts[i], a, b) + after
    ensures Inside(Prev(pts, i), a, b) && i > 0 ==> before != [] && before[|before| - 1] == Prev(pts, i)
    ensures i == 0 ==> before == []
  {
    var last := pts[|pts| - 1];
    before, after := Pass(pts[..i], last, a, b), Pass(pts[i + 1..], pts[i], a, b);
    PassSplit(pts, i, last, a, b);
    if i > 0 && Inside(Prev(pts, i), a, b) { PassEnds(pts[..i], last, a, b); }
  }

  /** Where edge `i` starts inside, its part of the output follows its start point. */
  lemma {:induction false} PrevKept(pts: Polygon, i: nat, a: Point, b: Point, before: Polygon, after: Polygon)
    requires i < |pts| && Inside(Prev(pts, i), a, b)
    requires ClipEdge(pts, a, b) == before + Emit(Prev(pts, i), pts[i], a, b) + after
    requires i > 0 ==> before != [] && before[|before| - 1] == Prev(pts, i)
    requires i == 0 ==> before == []
    ensures |before| < |ClipEdge(pts, a, b)| && Prev(ClipEdge(pts, a, b), |before|) == Prev(pts, i)
  {
    if i == 0 { PassEnds(pts, pts[|pts| - 1], a, b); }
  }

  /** One pass keeps a boundary point inside the half-plane on the boundary. */
  lemma {:induction false} PassKeepsBoundary(pts: Polygon, a: Point, b: Point, p: Point)
    requires OnCycle(p, pts) && Inside(p, a, b)
    requires Side(a, b, p) >= EPS || NoDegenerate(pts, a, b)
    ensures OnCycle(p, ClipEdge(pts, a, b))
  {
    var i :| 0 <= i < |pts| && OnSegment(p, Prev(pts, i), pts[i]);
    var s, e, out := Prev(pts, i), pts[i], ClipEdge(pts, a, b);
    SegmentKept(s, e, a, b, p);
    var before, after := PassAround(pts, i, a, b);
    var k := |before|;
    if Inside(s, a, b) {
      PrevKept(pts, i, a, b, before, after);
      assert OnSegment(p, Prev(out, k), out[k]);
    } else {
      assert out[k] == Intersect(s, e, a, b) && out[k + 1] == e;
      assert OnSegment(p, Prev(out, k + 1), out[k + 1]);
    }
  }

  lemma {:induction false} PassKeepsVertex(pts: Polygon, s: Point, a: Point, b: Point, p: Point)
    requires p in pts && Inside(p, a, b)
    ensures p in Pass(pts, s, a, b)
  {
    if p != pts[0] { PassKeepsVertex(pts[1..], pts[0], a, b, p); }
  }

  // -------------------------------------------------------------------------
  // The whole clip
  // -------------------------------------------------------------------------

  /** `p` is left of every edge from the `i`-th on, by at least `margin`. */
  ghost predicate InsideAll(p: Point, clip: Polygon, i: nat, margin: real) {
    forall k | i <= k < |clip| :: Side(clip[k], clip[Next(k, |clip|)], p) >= margin
  }

  /** No pass from the `i`-th on meets a degenerate crossing. */
  ghost predicate NeverDegenerate(pts: Polygon, clip: Polygon, i: nat)
    requires i <= |clip|
    decreases |clip| - i
  {
    i < |clip| && pts != [] ==>
      var a, b := clip[i], clip[Next(i, |clip|)];
      NoDegenerate(pts, a, b) && NeverDegenerate(ClipEdge(pts, a, b), clip, i + 1)
  }

  lemma {:induction false} BoundaryFrom(pts: Polygon, clip: Polygon, i: nat, p: Point, margin: real)
    requires i <= |clip| && OnCycle(p, pts) && InsideAll(p, clip, i, margin) && margin >= 0.0
    requires margin >= EPS || NeverDegenerate(pts, clip, i)
    ensures OnCycle(p, ClipFrom(pts, clip, i))
    decreases |clip| - i
  {
    if i < |clip| {
      var a, b := clip[i], clip[Next(i, |clip|)];
      assert Side(a, b, p) >= margin;
      PassKeepsBoundary(pts, a, b, p);
      BoundaryFrom(ClipEdge(pts, a, b), clip, i + 1, p, margin);
    }
  }

  /** Every point of a subject edge inside all clip half-planes lies on an edge of the
      output, provided no crossing was degenerate. */
  lemma {:induction false} BoundaryKept(subject: Polygon, clip: Polygon, p: Point)
    requires |subject| >= 3 && |clip| >= 3 && OnCycle(p, subject)
    requires InsideAll(p, Oriented(clip), 0, 0.0) && NeverDegenerate(subject, Oriented(clip), 0)
    ensures OnCycle(p, Clip(subject, clip))
  {
    BoundaryFrom(subject, Oriented(clip), 0, p, 0.0);
  }

  /** With a margin of EPS that proviso is not needed. */
  lemma {:induction false} BoundaryKeptWithMargin(subject: Polygon, clip: Polygon, p: Point)
    requires |subject| >= 3 && |clip| >= 3 && OnCycle(p, subject)
    requires InsideAll(p, Oriented(clip), 0, EPS)
    ensures OnCycle(p, Clip(subject, clip))
  {
    BoundaryFrom(subject, Oriented(clip), 0, p, EPS);
  }

  lemma {:induction false} VertexFrom(pts: Polygon, clip: Polygon, i: nat, p: Point)
    requires i <= |clip| && p in pts && InsideAll(p, clip, i, 0.0)
    ensures p in ClipFrom(pts, clip, i)
    decreases |clip| - i
  {
    if i < |clip| {
      var a, b := clip[i], clip[Next(i, |clip|)];
      assert Side(a, b, p) >= 0.0;
      PassKeepsVertex(pts, pts[|pts| - 1], a, b, p);
      VertexFrom(ClipEdge(pts, a, b), clip, i + 1, p);
    }
  }

  /** Every subject vertex inside all clip half-planes survives, without proviso. */
  lemma {:induction false} VertexKept(subject: Polygon, clip: Polygon, p: Point)
    requires |subject| >= 3 && |clip| >= 3 && p in subject && InsideAll(p, Oriented(clip), 0, 0.0)
    ensures p in Clip(subject, clip)
  {
    VertexFrom(subject, Oriented(clip), 0, p);
  }

  // -------------------------------------------------------------------------
  // What a degenerate crossing does instead
  // -------------------------------------------------------------------------

  /** Entering, the end point comes twice and the piece before it is lost; leaving, a
      vertex outside the half-plane is emitted, so the bound of `ClipSound` is not zero. */
  lemma {:induction false} DegenerateEmits(s: Point, e: Point, a: Point, b: Point)
    requires Degenerate(s, e, a, b)
    ensures Inside(e, a, b) ==> Emit(s, e, a, b) == [e, e]
    ensures Inside(s, a, b) ==> Emit(s, e, a, b) == [e] && -EPS < Side(a, b, e) < 0.0
  {
    var t := CrossingPoint(s, e, a, b);
  }
}
