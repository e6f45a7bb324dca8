/** Shoelace areas of footprint polygons, over exact reals. */
module Polygons {

  datatype Point = Point(x: real, y: real)

  type Polygon = seq<Point>

  function Cross(p: Point, q: Point): real {
    p.x * q.y - q.x * p.y
  }

  function Abs(r: real): real {
    if r < 0.0 then -r else r
  }

  function ZipSum(ps: Polygon, qs: Polygon): real
    requires |ps| == |qs|
  {
    if ps == [] then 0.0 else Cross(ps[0], qs[0]) + ZipSum(ps[1..], qs[1..])
  }

  function Rotate(pts: Polygon, k: nat): (r: Polygon)
    requires k <= |pts|
    ensures |r| == |pts|
  {
    pts[k..] + pts[..k]
  }

  function Next(i: nat, n: nat): (r: nat)
    requires i < n
    ensures r == if i + 1 == n then 0 else i + 1
  {
    (i + 1) % n
  }

  /** `sum(... for ... in zip(pts, pts[1:] + pts[:1])) / 2.0` */
  function SignedArea(pts: Polygon): real {
    if pts == [] then 0.0 else ZipSum(pts, Rotate(pts, 1)) / 2.0
  }

  function Reverse(pts: Polygon): (r: Polygon)
    ensures |r| == |pts|
  {
    if pts == [] then [] else Reverse(pts[1..]) + [pts[0]]
  }

  /** The clip polygon turned counter-clockwise. */
  function Oriented(pts: Polygon): (r: Polygon)
    ensures |r| == |pts|
  {
    if SignedArea(pts) < 0.0 then Reverse(pts) else pts
  }

  // -------------------------------------------------------------------------
  // The sum along an open chain
  // -------------------------------------------------------------------------

  function Chain(pts: Polygon): real {
    if |pts| <= 1 then 0.0 else Cross(pts[0], pts[1]) + Chain(pts[1..])
  }

  lemma {:induction false} ChainConcat(a: Polygon, b: Polygon)
    requires a != [] && b != []
    ensures Chain(a + b) == Chain(a) + Cross(a[|a| - 1], b[0]) + Chain(b)
  {
    if |a| == 1 {
      assert (a + b)[1..] == b;
    } else {
      assert (a + b)[1..] == a[1..] + b;
      ChainConcat(a[1..], b);
    }
  }

  lemma {:induction false} ZipIsChain(pts: Polygon, next: Point)
    ensures pts != [] ==> ZipSum(pts, pts[1..] + [next]) == Chain(pts) + Cross(pts[|pts| - 1], next)
  {
    if |pts| > 1 {
      assert (pts[1..] + [next])[1..] == pts[1..][1..] + [next];
      ZipIsChain(pts[1..], next);
    }
  }

  lemma {:induction false} SignedAreaIsChain(pts: Polygon)
    requires pts != []
    ensures 2.0 * SignedArea(pts) == Chain(pts) + Cross(pts[|pts| - 1], pts[0])
  {
    ZipIsChain(pts, pts[0]);
    assert Rotate(pts, 1) == pts[1..] + [pts[0]];
  }

  // -------------------------------------------------------------------------
  // Laws
  // -------------------------------------------------------------------------

  /** Starting the polygon at another vertex changes nothing. */
  lemma {:induction false} RotationKeepsArea(pts: Polygon, k: nat)
    requires k <= |pts|
    ensures SignedArea(Rotate(pts, k)) == SignedArea(pts)
  {
    var a, b := pts[..k], pts[k..];
    if a == [] || b == [] {
      assert Rotate(pts, k) == pts;
    } else {
      assert pts == a + b;
      ChainConcat(a, b);
      ChainConcat(b, a);
      SignedAreaIsChain(pts);
      SignedAreaIsChain(Rotate(pts, k));
    }
  }

  lemma {:induction false} CrossSwap(p: Point, q: Point)
    ensures Cross(p, q) == -Cross(q, p)
  {
  }

  lemma {:induction false} ReverseChain(pts: Polygon)
    ensures Chain(Reverse(pts)) == -Chain(pts)
    ensures pts != [] ==> Reverse(pts)[0] == pts[|pts| - 1] && Reverse(pts)[|pts| - 1] == pts[0]
  {
    if |pts| > 1 {
      ReverseChain(pts[1..]);
      ChainConcat(Reverse(pts[1..]), [pts[0]]);
      CrossSwap(pts[0], pts[1]);
    }
  }

  /** Walking the polygon backwards negates its area. */
  lemma {:induction false} ReversalNegatesArea(pts: Polygon)
    ensures SignedArea(Reverse(pts)) == -SignedArea(pts)
  {
    if pts != [] {
      ReverseChain(pts);
      SignedAreaIsChain(pts);
      SignedAreaIsChain(Reverse(pts));
      CrossSwap(pts[0], pts[|pts| - 1]);
    }
  }

  /** The clip polygon that is used never has negative area, and is the given one or its
      reversal. */
  lemma {:induction false} OrientedIsCounterClockwise(pts: Polygon)
    ensures SignedArea(Oriented(pts)) == Abs(SignedArea(pts))
    ensures Oriented(pts) == pts || (Oriented(pts) == Reverse(pts) && SignedArea(pts) < 0.0)
  {
    ReversalNegatesArea(pts);
  }

  lemma {:induction false} ThinHasNoArea(pts: Polygon)
    requires |pts| < 3
    ensures SignedArea(pts) == 0.0
  {
    if pts != [] {
      SignedAreaIsChain(pts);
      CrossSwap(pts[0], pts[|pts| - 1]);
    }
  }

  /** `_polygon_area`: the modular-index loop computes the absolute zip-based area; with
      fewer than three vertices that area is zero as well. */
  method PolygonArea(pts: Polygon) returns (r: real)
    ensures r == Abs(SignedArea(pts))
  {
    var n := |pts|;
    if n < 3 {
      ThinHasNoArea(pts);
      return 0.0;
    }
    var area := 0.0;
    for i := 0 to n
      invariant area == if i < n then Chain(pts[..i + 1]) else 2.0 * SignedArea(pts)
    {
      if i < n - 1 { ChainStep(pts, i); } else { SignedAreaIsChain(pts); assert pts[..n] == pts; }
      area := area + Cross(pts[i], pts[Next(i, n)]);
    }
    r := Abs(area) / 2.0;
  }

  lemma {:induction false} ChainStep(pts: Polygon, i: nat)
    requires i + 1 < |pts|
    ensures Chain(pts[..i + 2]) == Chain(pts[..i + 1]) + Cross(pts[i], pts[i + 1])
  {
    assert pts[..i + 2] == pts[..i + 1] + [pts[i + 1]];
    ChainConcat(pts[..i + 1], [pts[i + 1]]);
  }
}
