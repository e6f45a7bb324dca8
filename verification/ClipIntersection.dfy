/**
 Signed area, orientation and half-planes agree, so that clipping one polygon in convex
 position by another leaves what both have in common.
*/
module ClipIntersection {
  import opened ClipBoundary
  import opened ClipConvex
  import opened Clipping
  import opened Polygons

  // -------------------------------------------------------------------------
  // The signed area is the sum of the turns seen from one vertex
  // -------------------------------------------------------------------------

  /** Twice the signed areas of the triangles between a point and the edges of a chain. */
  function Fan(o: Point, pts: Polygon): real {
    if |pts| <= 1 then 0.0 else Side(o, pts[0], pts[1]) + Fan(o, pts[1..])
  }

  lemma {:induction false} SideIsCrosses(o: Point, p: Point, q: Point)
    ensures Side(o, p, q) == Cross(o, p) + Cross(p, q) + Cross(q, o)
  {
  }

  lemma {:induction false} FanIsChain(o: Point, pts: Polygon)
    requires pts != []
    ensures Fan(o, pts) == Cross(o, pts[0]) + Chain(pts) + Cross(pts[|pts| - 1], o)
  {
    if |pts| == 1 {
      CrossSwap(o, pts[0]);
    } else {
      FanIsChain(o, pts[1..]);
      SideIsCrosses(o, pts[0], pts[1]);
      CrossSwap(o, pts[1]);
    }
  }

  /** The shoelace area is the sum of the triangles fanned out from the first vertex, each
      counted by the cross product the half-plane test uses. */
  lemma {:induction false} AreaIsFan(pts: Polygon)
    requires pts != []
    ensures 2.0 * SignedArea(pts) == Fan(pts[0], pts)
  {
    FanIsChain(pts[0], pts);
    SignedAreaIsChain(pts);
    CrossSwap(pts[0], pts[0]);
  }

  /** An axis-parallel box walked counter-clockwise has width times height. */
  lemma {:induction false} BoxArea(x: real, y: real, width: real, height: real)
    ensures SignedArea([Point(x, y), Point(x + width, y), Point(x + width, y + height), Point(x, y + height)])
         == width * height
  {
    var p, q, r, s := Point(x, y), Point(x + width, y), Point(x + width, y + height), Point(x, y + height);
    var pts := [p, q, r, s];
    AreaIsFan(pts);
    assert pts[1..] == [q, r, s] && [q, r, s][1..] == [r, s] && [r, s][1..] == [s];
    assert Fan(p, [s]) == 0.0;
    assert Fan(p, [r, s]) == Side(p, r, s);
    assert Fan(p, [q, r, s]) == Side(p, q, r) + Side(p, r, s);
    assert Side(p, q, r) == width * height && Side(p, r, s) == width * height;
  }

  lemma {:induction false} FanOfTurns(ccw: bool, pts: Polygon, k: nat)
    requires Turns(ccw, pts) && k < |pts|
    ensures if ccw then Fan(pts[0], pts[k..]) >= 0.0 else Fan(pts[0], pts[k..]) <= 0.0
    decreases |pts| - k
  {
    if k + 1 < |pts| {
      assert pts[k..][1..] == pts[k + 1..];
      FanOfTurns(ccw, pts, k + 1);
      WeakTurn(ccw, pts, 0, k, k + 1);
      SideSwaps(pts[0], pts[k], pts[k + 1]);
    }
  }

  lemma {:induction false} SideSwaps(p: Point, q: Point, r: Point)
    ensures Side(q, p, r) == -Side(p, q, r)
  {
  }

  /** A polygon that turns left has non-negative area, one that turns right non-positive. */
  lemma {:induction false} AreaOfTurns(ccw: bool, pts: Polygon)
    requires Turns(ccw, pts)
    ensures if ccw then SignedArea(pts) >= 0.0 else SignedArea(pts) <= 0.0
  {
    if pts != [] {
      AreaIsFan(pts);
      FanOfTurns(ccw, pts, 0);
      assert pts[0..] == pts;
    }
  }

  // -------------------------------------------------------------------------
  // The oriented clip polygon turns left
  // -------------------------------------------------------------------------

  lemma {:induction false} ReverseAt(pts: Polygon, k: nat)
    requires k < |pts|
    ensures Reverse(pts)[k] == pts[|pts| - 1 - k]
  {
    if k < |pts| - 1 { ReverseAt(pts[1..], k); }
  }

  lemma {:induction false} ReverseTurns(ccw: bool, pts: Polygon)
    requires Turns(ccw, pts)
    ensures Turns(!ccw, Reverse(pts))
  {
    var other, back, n := !ccw, Reverse(pts), |pts| - 1;
    forall i, j, k | 0 <= i < j < k < |back| ensures TurnAt(other, back, i, j, k) {
      ReverseAt(pts, i);
      ReverseAt(pts, j);
      ReverseAt(pts, k);
      WeakTurn(ccw, pts, n - k, n - j, n - i);
      TurnCycles(ccw, pts[n - k], pts[n - j], pts[n - i]);
      TurnFlips(ccw, back[i], back[j], back[k]);
    }
  }

  lemma {:induction false} TurnFlips(ccw: bool, p: Point, q: Point, r: Point)
    ensures Turn(!ccw, p, q, r) == Turn(ccw, r, q, p)
  {
    SideSwaps(p, q, r);
    SideCycles(p, q, r);
    SideCycles(r, q, p);
    SideSwaps(q, r, p);
  }

  lemma {:induction false} ReverseMembers(pts: Polygon, p: Point)
    ensures p in Reverse(pts) <==> p in pts
  {
    if pts != [] {
      ReverseMembers(pts[1..], p);
      assert pts == [pts[0]] + pts[1..];
    }
  }

  lemma {:induction false} SameHull(p: Point, pts: Polygon, other: Polygon)
    requires forall q | q in pts :: q in other
    ensures InHull(p, pts) ==> InHull(p, other)
  {
    if InHull(p, pts) {
      forall q | q in pts ensures InHull(q, other) { VertexInHull(other, q); }
      HullOfHull(p, pts, other);
    }
  }

  /** Whichever way a polygon in convex position is given, the clip polygon used turns left
      and has the same hull. */
  lemma {:induction false} OrientedTurnsLeft(ccw: bool, clip: Polygon, p: Point)
    requires Turns(ccw, clip) && SignedArea(clip) != 0.0
    ensures Turns(true, Oriented(clip)) && SignedArea(Oriented(clip)) > 0.0
    ensures InHull(p, Oriented(clip)) <==> InHull(p, clip)
  {
    AreaOfTurns(ccw, clip);
    OrientedIsCounterClockwise(clip);
    if !ccw { ReverseTurns(ccw, clip); }
    forall q ensures q in Oriented(clip) <==> q in clip { ReverseMembers(clip, q); }
    SameHull(p, Oriented(clip), clip);
    SameHull(p, clip, Oriented(clip));
  }

  // -------------------------------------------------------------------------
  // Inside all half-planes is inside the hull
  // -------------------------------------------------------------------------

  /** A polygon with area has a proper triangle in its fan. */
  lemma {:induction false} ProperTriangle(o: Point, pts: Polygon) returns (j: nat)
    requires Fan(o, pts) > 0.0
    ensures j + 1 < |pts| && Side(o, pts[j], pts[j + 1]) > 0.0
  {
    if Side(o, pts[0], pts[1]) > 0.0 {
      j := 0;
    } else {
      j := ProperTriangle(o, pts[1..]);
      j := j + 1;
    }
  }

  function Centre(x: Point, y: Point, z: Point): Point {
    Lerp(x, Lerp(y, z, 1.0 / 2.0), 2.0 / 3.0)
  }

  /** A line through the centre of a triangle sees its corners balanced. */
  lemma {:induction false} CentreBalances(x: Point, y: Point, z: Point, p: Point)
    ensures var c := Centre(x, y, z); Side(c, p, x) + Side(c, p, y) + Side(c, p, z) == 0.0
  {
    var c, m := Centre(x, y, z), Lerp(y, z, 1.0 / 2.0);
    SideOfLerp(c, p, y, z, 1.0 / 2.0);
    SideOfLerp(c, p, x, m, 2.0 / 3.0);
    assert Side(c, p, c) == 0.0;
  }

  lemma {:induction false} OnOneLine(x: Point, y: Point, z: Point, c: Point, p: Point)
    requires c != p && Side(c, p, x) == 0.0 && Side(c, p, y) == 0.0 && Side(c, p, z) == 0.0
    ensures Side(x, y, z) == 0.0
  {
    var j := SameLevel(x, y, c, p);
    var k := SameLevel(x, z, c, p);
    var dx, dy := p.x - c.x, p.y - c.y;
    assert (j * dx) * (k * dy) == (j * dy) * (k * dx);
  }

  lemma {:induction false} CornersOnBothSides(x: Point, y: Point, z: Point, p: Point)
    requires Side(x, y, z) > 0.0 && p != Centre(x, y, z)
    ensures var c := Centre(x, y, z);
            && (Side(c, p, x) >= 0.0 || Side(c, p, y) >= 0.0 || Side(c, p, z) >= 0.0)
            && (Side(c, p, x) < 0.0 || Side(c, p, y) < 0.0 || Side(c, p, z) < 0.0)
  {
    var c := Centre(x, y, z);
    CentreBalances(x, y, z, p);
    if Side(c, p, x) == 0.0 && Side(c, p, y) == 0.0 && Side(c, p, z) == 0.0 { OnOneLine(x, y, z, c, p); }
  }

  lemma {:induction false} CentreInHull(x: Point, y: Point, z: Point, pts: Polygon)
    requires x in pts && y in pts && z in pts
    ensures InHull(Centre(x, y, z), pts)
  {
    VertexInHull(pts, x);
    VertexInHull(pts, y);
    VertexInHull(pts, z);
    HullIsConvex(y, z, 1.0 / 2.0, pts);
    HullIsConvex(x, Lerp(y, z, 1.0 / 2.0), 2.0 / 3.0, pts);
  }

  /** A point beside all edges of a polygon with positive area is in its hull. */
  lemma {:induction false} BesideInHull(pts: Polygon, p: Point)
    requires pts != [] && SignedArea(pts) > 0.0 && BesideAll(true, pts, p)
    ensures InHull(p, pts)
  {
    AreaIsFan(pts);
    var j := ProperTriangle(pts[0], pts);
    var x, y, z := pts[0], pts[j], pts[j + 1];
    var c := Centre(x, y, z);
    CentreInHull(x, y, z, pts);
    if p != c {
      CornersOnBothSides(x, y, z, p);
      assert Side(c, p, p) == 0.0;
      var u := if Side(c, p, x) >= 0.0 then 0 else if Side(c, p, y) >= 0.0 then j else j + 1;
      var v := if Side(c, p, x) < 0.0 then 0 else if Side(c, p, y) < 0.0 then j else j + 1;
      assert High(pts, c, p, 0.0, u) && !High(pts, c, p, 0.0, v);
      var q, r := BetweenCrossings(true, pts, c, p, p, u, v);
      BetweenInHull(p, q, r, pts);
    }
  }

  /** The two ways to name the edges of a closed polygon. */
  lemma {:induction false} BesideIsInside(pts: Polygon, p: Point)
    ensures BesideAll(true, pts, p) <==> InsideAll(p, pts, 0, 0.0)
  {
    var n := |pts|;
    if BesideAll(true, pts, p) {
      forall k | 0 <= k < n ensures Side(pts[k], pts[Next(k, n)], p) >= 0.0 {
        assert Turn(true, Prev(pts, Next(k, n)), pts[Next(k, n)], p) >= 0.0;
      }
    }
    if InsideAll(p, pts, 0, 0.0) {
      forall i | 0 <= i < n ensures Turn(true, Prev(pts, i), pts[i], p) >= 0.0 {
        assert Side(pts[Before(i, n)], pts[Next(Before(i, n), n)], p) >= 0.0;
      }
    }
  }

  /** Inside all half-planes of the clip polygon is inside the clip polygon. */
  lemma {:induction false} HalfPlanesAreHull(ccw: bool, clip: Polygon, p: Point)
    requires Turns(ccw, clip) && SignedArea(clip) != 0.0
    ensures InsideAll(p, Oriented(clip), 0, 0.0) <==> InHull(p, clip)
  {
    var edges := Oriented(clip);
    OrientedTurnsLeft(ccw, clip, p);
    BesideIsInside(edges, p);
    if InsideAll(p, edges, 0, 0.0) { BesideInHull(edges, p); }
    if InHull(p, edges) {
      forall i | 0 <= i < |edges| ensures Turn(true, Prev(edges, i), edges[i], p) >= 0.0 {
        HullBesideEdge(true, edges, i, p);
      }
    }
  }

  // -------------------------------------------------------------------------
  // The intersection of two polygons
  // -------------------------------------------------------------------------

  /** Of two polygons in convex position, the second with area, clipping leaves exactly what
      they have in common, provided no crossing was degenerate. */
  lemma {:induction false} ClipIsIntersection(
      ccw: bool, subject: Polygon, turning: bool, clip: Polygon, p: Point)
    requires |subject| >= 3 && |clip| >= 3 && Turns(ccw, subject) && Turns(turning, clip) && SignedArea(clip) != 0.0
    requires NeverDegenerate(subject, Oriented(clip), 0)
    ensures InHull(p, Clip(subject, clip)) <==> InHull(p, subject) && InHull(p, clip)
  {
    IntersectionExactly(ccw, subject, clip, p);
    HalfPlanesAreHull(turning, clip, p);
  }
}
