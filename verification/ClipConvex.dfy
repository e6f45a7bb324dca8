/** Clipping a subject in convex position computes the intersection. */
module ClipConvex {
  import opened ClipBoundary
  import opened Clipping
  import opened Polygons
  import opened RealSums

  /** Positive for a turn to the left when `ccw`, to the right otherwise. */
  function Turn(ccw: bool, p: Point, q: Point, r: Point): real {
    if ccw then Side(p, q, r) else Side(q, p, r)
  }

  predicate TurnAt(ccw: bool, pts: Polygon, i: nat, j: nat, k: nat)
    requires i <= j <= k < |pts|
  {
    Turn(ccw, pts[i], pts[j], pts[k]) >= 0.0
  }

  /** Convex position: walking round, any three vertices turn the same way or not at all. */
  ghost predicate Turns(ccw: bool, pts: Polygon) {
    forall i, j, k | 0 <= i < j < k < |pts| :: TurnAt(ccw, pts, i, j, k)
  }

  lemma {:induction false} WeakTurn(ccw: bool, pts: Polygon, i: nat, j: nat, k: nat)
    requires Turns(ccw, pts) && i <= j <= k < |pts|
    ensures Turn(ccw, pts[i], pts[j], pts[k]) >= 0.0
  {
    if i < j < k { assert TurnAt(ccw, pts, i, j, k); }
  }

  lemma {:induction false} TurnCycles(ccw: bool, p: Point, q: Point, r: Point)
    ensures Turn(ccw, p, q, r) == Turn(ccw, q, r, p) == Turn(ccw, r, p, q)
  {
    SideCycles(p, q, r);
    SideCycles(q, p, r);
  }

  lemma {:induction false} SideCycles(p: Point, q: Point, r: Point)
    ensures Side(p, q, r) == Side(q, r, p) == Side(r, p, q)
  {
  }

  /** A point between two ends turns no other way than both of them. */
  lemma {:induction false} TurnBetween(ccw: bool, p: Point, q: Point, s: Point, e: Point, t: real)
    requires Turn(ccw, p, q, s) >= 0.0 && Turn(ccw, p, q, e) >= 0.0 && 0.0 <= t <= 1.0
    ensures Turn(ccw, p, q, Lerp(s, e, t)) >= 0.0
  {
    var c, d := if ccw then p else q, if ccw then q else p;
    LerpAtLeast(c, d, s, e, t, 0.0);
  }

  // -------------------------------------------------------------------------
  // A pass keeps convex position
  // -------------------------------------------------------------------------

  lemma {:induction false} InsertTurns(ccw: bool, x: Polygon, s: Point, e: Point, y: Polygon, t: real)
    requires Turns(ccw, x + [s, e] + y) && 0.0 <= t <= 1.0
    ensures Turns(ccw, x + [s, Lerp(s, e, t), e] + y)
  {
    var was, now, n := x + [s, e] + y, x + [s, Lerp(s, e, t), e] + y, |x| + 1;
    forall i, j, k | 0 <= i < j < k < |now| ensures TurnAt(ccw, now, i, j, k) {
      InsertedAt(ccw, x, s, e, y, t, i, j, k);
    }
  }

  lemma {:induction false} InsertedAt(
      ccw: bool, x: Polygon, s: Point, e: Point, y: Polygon, t: real, i: nat, j: nat, k: nat)
    requires Turns(ccw, x + [s, e] + y) && 0.0 <= t <= 1.0
    requires i < j < k < |x| + 3 + |y|
    ensures TurnAt(ccw, x + [s, Lerp(s, e, t), e] + y, i, j, k)
  {
    var was, now, n := x + [s, e] + y, x + [s, Lerp(s, e, t), e] + y, |x| + 1;
    var i', j', k' := if i < n then i else i - 1, if j < n then j else j - 1, if k < n then k else k - 1;
    assert was[n - 1] == s && was[n] == e && now[n] == Lerp(s, e, t);
    assert (i != n ==> now[i] == was[i']) && (j != n ==> now[j] == was[j']) && (k != n ==> now[k] == was[k']);
    if i == n {
      WeakTurn(ccw, was, n - 1, j', k');
      WeakTurn(ccw, was, n, j', k');
      TurnCycles(ccw, s, now[j], now[k]);
      TurnCycles(ccw, e, now[j], now[k]);
      TurnBetween(ccw, now[j], now[k], s, e, t);
      TurnCycles(ccw, now[i], now[j], now[k]);
    } else if j == n {
      WeakTurn(ccw, was, i', n - 1, k');
      WeakTurn(ccw, was, i', n, k');
      TurnCycles(ccw, now[i], s, now[k]);
      TurnCycles(ccw, now[i], e, now[k]);
      TurnBetween(ccw, now[k], now[i], s, e, t);
      TurnCycles(ccw, now[i], now[j], now[k]);
    } else if k == n {
      WeakTurn(ccw, was, i', j', n - 1);
      WeakTurn(ccw, was, i', j', n);
      TurnBetween(ccw, now[i], now[j], s, e, t);
    } else {
      WeakTurn(ccw, was, i', j', k');
    }
  }

  lemma {:induction false} DropTurns(ccw: bool, x: Polygon, q: Point, y: Polygon)
    requires Turns(ccw, x + [q] + y)
    ensures Turns(ccw, x + y)
  {
    var was, now := x + [q] + y, x + y;
    forall i, j, k | 0 <= i < j < k < |now| ensures TurnAt(ccw, now, i, j, k) {
      var i', j', k' := if i < |x| then i else i + 1, if j < |x| then j else j + 1, if k < |x| then k else k + 1;
      assert now[i] == was[i'] && now[j] == was[j'] && now[k] == was[k'];
      WeakTurn(ccw, was, i', j', k');
    }
  }

  /** The walk goes from `s` to `e`: what it appends, then `e`, then what is left. */
  lemma {:induction false} EmitTurns(ccw: bool, x: Polygon, s: Point, e: Point, y: Polygon, a: Point, b: Point)
    requires Turns(ccw, x + [s, e] + y)
    ensures Turns(ccw, x + Emit(s, e, a, b) + ([e] + y))
  {
    if Inside(s, a, b) == Inside(e, a, b) {
      if Inside(e, a, b) {
        assert Lerp(s, e, 1.0) == e;
        InsertTurns(ccw, x, s, e, y, 1.0);
        assert x + [s, e, e] + y == x + [s] + ([e] + ([e] + y));
        DropTurns(ccw, x, s, [e] + ([e] + y));
        assert x + ([e] + ([e] + y)) == x + [e] + ([e] + y);
      } else {
        assert x + [s, e] + y == x + [s] + ([e] + y);
        DropTurns(ccw, x, s, [e] + y);
        assert x + [] + ([e] + y) == x + ([e] + y);
      }
    } else {
      var t := CrossingPoint(s, e, a, b);
      var q := Lerp(s, e, t);
      InsertTurns(ccw, x, s, e, y, t);
      if Inside(e, a, b) {
        assert x + [s, q, e] + y == (x + [s]) + [q, e] + y;
        assert Lerp(q, e, 1.0) == e;
        InsertTurns(ccw, x + [s], q, e, y, 1.0);
        assert (x + [s]) + [q, e, e] + y == x + [s] + ([q, e] + ([e] + y));
        DropTurns(ccw, x, s, [q, e] + ([e] + y));
        assert x + ([q, e] + ([e] + y)) == x + [q, e] + ([e] + y);
      } else {
        assert x + [s, q, e] + y == x + [s] + ([q] + ([e] + y));
        DropTurns(ccw, x, s, [q] + ([e] + y));
        assert x + ([q] + ([e] + y)) == x + [q] + ([e] + y);
      }
    }
  }

  lemma {:induction false} PassTurns(ccw: bool, x: Polygon, s: Point, rest: Polygon, a: Point, b: Point)
    requires Turns(ccw, x + [s] + rest)
    ensures Turns(ccw, x + Pass(rest, s, a, b))
    decreases |rest|
  {
    if rest == [] {
      DropTurns(ccw, x, s, []);
    } else {
      var e, y := rest[0], rest[1..];
      assert x + [s] + rest == x + [s, e] + y;
      EmitTurns(ccw, x, s, e, y, a, b);
      var front := x + Emit(s, e, a, b);
      assert front + ([e] + y) == front + [e] + y;
      PassTurns(ccw, front, e, y, a, b);
      assert front + Pass(y, e, a, b) == x + Pass(rest, s, a, b);
    }
  }

  /** A pass keeps convex position. */
  lemma {:induction false} ClipEdgeTurns(ccw: bool, pts: Polygon, a: Point, b: Point)
    requires Turns(ccw, pts)
    ensures Turns(ccw, ClipEdge(pts, a, b))
  {
    if pts != [] {
      var n := |pts| - 1;
      var closed := [] + [pts[n]] + pts;
      forall i, j, k | 0 <= i < j < k < |closed| ensures TurnAt(ccw, closed, i, j, k) {
        if i == 0 {
          WeakTurn(ccw, pts, j - 1, k - 1, n);
          TurnCycles(ccw, pts[n], pts[j - 1], pts[k - 1]);
        } else {
          WeakTurn(ccw, pts, i - 1, j - 1, k - 1);
        }
      }
      PassTurns(ccw, [], pts[n], pts, a, b);
      assert [] + Pass(pts, pts[n], a, b) == ClipEdge(pts, a, b);
    }
  }

  // -------------------------------------------------------------------------
  // Hulls and half-planes
  // -------------------------------------------------------------------------

  function Sides(pts: Polygon, a: Point, b: Point): (r: seq<real>)
    ensures |r| == |pts|
  {
    seq(|pts|, i requires 0 <= i < |pts| => Side(a, b, pts[i]))
  }

  function Weighted(a: Point, b: Point, total: real, x: real, y: real): real {
    (b.x - a.x) * (y - total * a.y) - (b.y - a.y) * (x - total * a.x)
  }

  lemma {:induction false} WeightedStep(a: Point, b: Point, w: real, p: Point, total: real, x: real, y: real)
    ensures Weighted(a, b, w + total, w * p.x + x, w * p.y + y) == w * Side(a, b, p) + Weighted(a, b, total, x, y)
  {
    var dx, dy, u, v := b.x - a.x, b.y - a.y, p.x - a.x, p.y - a.y;
    var xx, yy := x - total * a.x, y - total * a.y;
    assert w * p.x + x - (w + total) * a.x == w * u + xx;
    assert w * p.y + y - (w + total) * a.y == w * v + yy;
    assert dx * (w * v + yy) == w * (dx * v) + dx * yy;
    assert dy * (w * u + xx) == w * (dy * u) + dy * xx;
    assert w * (dx * v - dy * u) == w * (dx * v) - w * (dy * u);
  }

  lemma {:induction false} WeightedSides(ws: seq<real>, pts: Polygon, a: Point, b: Point)
    requires |ws| == |pts|
    ensures Weighted(a, b, Sum(ws), Dot(ws, Xs(pts)), Dot(ws, Ys(pts))) == Dot(ws, Sides(pts, a, b))
  {
    if ws != [] {
      WeightedSides(ws[1..], pts[1..], a, b);
      assert Xs(pts)[1..] == Xs(pts[1..]) && Ys(pts)[1..] == Ys(pts[1..]);
      assert Sides(pts, a, b)[1..] == Sides(pts[1..], a, b);
      WeightedStep(a, b, ws[0], pts[0], Sum(ws[1..]), Dot(ws[1..], Xs(pts[1..])), Dot(ws[1..], Ys(pts[1..])));
    }
  }

  lemma {:induction false} DotAtLeast(ws: seq<real>, xs: seq<real>, m: real)
    requires |ws| == |xs| && forall i | 0 <= i < |ws| :: ws[i] >= 0.0 && xs[i] >= m
    ensures Dot(ws, xs) >= Times(m, Sum(ws))
  {
    if ws != [] {
      assert forall i | 0 <= i < |ws[1..]| :: ws[1..][i] == ws[i + 1] && xs[1..][i] == xs[i + 1];
      DotAtLeast(ws[1..], xs[1..], m);
      AtLeastProduct(ws[0], xs[0], m, Sum(ws[1..]));
    }
  }

  lemma {:induction false} AtLeastProduct(w: real, x: real, m: real, rest: real)
    requires w >= 0.0 && x >= m
    ensures w * x + Times(m, rest) >= Times(m, w + rest)
  {
    assert w * (x - m) >= 0.0;
    assert w * (x - m) == w * x - m * w;
    assert Times(m, w + rest) == m * w + Times(m, rest);
  }

  lemma {:induction false} DotBelow(ws: seq<real>, xs: seq<real>, h: real)
    requires |ws| == |xs| && forall i | 0 <= i < |ws| :: ws[i] >= 0.0 && xs[i] < h
    ensures Dot(ws, xs) <= Times(h, Sum(ws))
    ensures Sum(ws) > 0.0 ==> Dot(ws, xs) < Times(h, Sum(ws))
  {
    if ws != [] {
      assert forall i | 0 <= i < |ws[1..]| :: ws[1..][i] == ws[i + 1] && xs[1..][i] == xs[i + 1];
      DotBelow(ws[1..], xs[1..], h);
      assert Times(h, ws[0] + Sum(ws[1..])) == ws[0] * h + Times(h, Sum(ws[1..]));
      if ws[0] > 0.0 {
        TimesPositive(ws[0], h - xs[0]);
        assert ws[0] * (h - xs[0]) == ws[0] * h - ws[0] * xs[0];
      } else {
        assert ws[0] * xs[0] == 0.0 && ws[0] * h == 0.0;
      }
    }
  }

  lemma {:induction false} CombinedSide(ws: seq<real>, pts: Polygon, a: Point, b: Point)
    requires |ws| == |pts| && Sum(ws) == 1.0
    ensures Side(a, b, Combine(ws, pts)) == Dot(ws, Sides(pts, a, b))
  {
    WeightedSides(ws, pts, a, b);
  }

  /** What bounds every vertex bounds the hull. */
  lemma {:induction false} HullAtLeast(p: Point, pts: Polygon, a: Point, b: Point, m: real)
    requires InHull(p, pts) && AllAtLeast(pts, a, b, m)
    ensures Side(a, b, p) >= m
  {
    var ws: seq<real> :| |ws| == |pts| && IsConvex(ws) && p == Combine(ws, pts);
    CombinedSide(ws, pts, a, b);
    forall i | 0 <= i < |pts| ensures Sides(pts, a, b)[i] >= m { assert pts[i] in pts; }
    DotAtLeast(ws, Sides(pts, a, b), m);
    assert Times(m, 1.0) == m;
  }

  lemma {:induction false} HullReaches(p: Point, pts: Polygon, a: Point, b: Point) returns (u: nat)
    requires InHull(p, pts)
    ensures u < |pts| && Side(a, b, pts[u]) >= Side(a, b, p)
  {
    var ws: seq<real> :| |ws| == |pts| && IsConvex(ws) && p == Combine(ws, pts);
    CombinedSide(ws, pts, a, b);
    var h, xs := Side(a, b, p), Sides(pts, a, b);
    assert Times(h, 1.0) == h;
    assert exists i :: 0 <= i < |xs| && xs[i] >= h by {
      if forall i | 0 <= i < |xs| :: xs[i] < h { DotBelow(ws, xs, h); }
    }
    u :| 0 <= u < |xs| && xs[u] >= h;
  }

  /** A polygon in convex position has its hull on one side of each of its edges. */
  lemma {:induction false} HullBesideEdge(ccw: bool, pts: Polygon, i: nat, p: Point)
    requires Turns(ccw, pts) && InHull(p, pts) && i < |pts|
    ensures Turn(ccw, Prev(pts, i), pts[i], p) >= 0.0
  {
    var s, e, n := Prev(pts, i), pts[i], |pts| - 1;
    forall q | q in pts ensures Turn(ccw, s, e, q) >= 0.0 {
      var k :| 0 <= k < |pts| && pts[k] == q;
      if i == 0 {
        WeakTurn(ccw, pts, 0, k, n);
        TurnCycles(ccw, s, e, q);
      } else if k < i {
        WeakTurn(ccw, pts, k, i - 1, i);
        TurnCycles(ccw, q, s, e);
      } else {
        WeakTurn(ccw, pts, i - 1, i, k);
      }
    }
    HullAtLeast(p, pts, if ccw then s else e, if ccw then e else s, 0.0);
  }

  // -------------------------------------------------------------------------
  // The level line through a point of the hull
  // -------------------------------------------------------------------------

  predicate High(pts: Polygon, a: Point, b: Point, h: real, i: nat)
    requires i < |pts|
  {
    Side(a, b, pts[i]) >= h
  }

  function Before(i: nat, n: nat): nat
    requires i < n
  {
    if i == 0 then n - 1 else i - 1
  }

  /** Walking on from a vertex on one side of the level to one on the other. */
  lemma {:induction false} SwitchUpTo(
      pts: Polygon, a: Point, b: Point, h: real, up: bool, u: nat, v: nat) returns (i: nat)
    requires u < v < |pts| && High(pts, a, b, h, u) == up && High(pts, a, b, h, v) != up
    ensures 0 < i < |pts| && High(pts, a, b, h, i - 1) == up && High(pts, a, b, h, i) != up
    decreases v - u
  {
    if High(pts, a, b, h, u + 1) != up { i := u + 1; } else { i := SwitchUpTo(pts, a, b, h, up, u + 1, v); }
  }

  lemma {:induction false} Switch(
      pts: Polygon, a: Point, b: Point, h: real, up: bool, u: nat, v: nat) returns (i: nat)
    requires u < |pts| && v < |pts| && High(pts, a, b, h, u) == up && High(pts, a, b, h, v) != up
    ensures i < |pts| && High(pts, a, b, h, Before(i, |pts|)) == up && High(pts, a, b, h, i) != up
  {
    var n := |pts| - 1;
    if u < v { i := SwitchUpTo(pts, a, b, h, up, u, v); }
    else if High(pts, a, b, h, n) != up { i := SwitchUpTo(pts, a, b, h, up, u, n); }
    else if High(pts, a, b, h, 0) != up { i := 0; }
    else { i := SwitchUpTo(pts, a, b, h, up, 0, v); }
  }

  /** The point of an edge at a level between its ends. */
  lemma {:induction false} LevelPoint(s: Point, e: Point, a: Point, b: Point, h: real) returns (q: Point)
    requires Side(a, b, s) >= h > Side(a, b, e) || Side(a, b, e) >= h > Side(a, b, s)
    ensures OnSegment(q, s, e) && Side(a, b, q) == h && Side(s, e, q) == 0.0
  {
    var c, d := Side(a, b, s) - h, Side(a, b, e) - h;
    FractionInUnit(c, d);
    var t := c / (c - d);
    q := Lerp(s, e, t);
    AlongRoot(c, d, t);
    SideOfLerp(a, b, s, e, t);
    SideOfLerp(s, e, s, e, t);
  }

  function Shift(q: Point, a: Point, b: Point, k: real): Point {
    Point(q.x + k * (b.x - a.x), q.y + k * (b.y - a.y))
  }

  /** Points of one level differ by a multiple of the direction. */
  lemma {:induction false} SameLevel(q: Point, p: Point, a: Point, b: Point) returns (k: real)
    requires Side(a, b, q) == Side(a, b, p) && a != b
    ensures p == Shift(q, a, b, k)
  {
    var dx, dy, x, y := b.x - a.x, b.y - a.y, p.x - q.x, p.y - q.y;
    assert dx * y == dy * x;
    k := if dx != 0.0 then x / dx else y / dy;
    Proportional(dx, dy, x, y, k);
  }

  lemma {:induction false} Proportional(dx: real, dy: real, x: real, y: real, k: real)
    requires dx * y == dy * x && (dx != 0.0 || dy != 0.0)
    requires k == if dx != 0.0 then x / dx else y / dy
    ensures k * dx == x && k * dy == y
  {
    if dx != 0.0 {
      assert k * dx == x;
      assert dx * (k * dy) == dy * (k * dx);
      assert dx * (k * dy - y) == 0.0;
    } else {
      assert k * dy == y;
      assert dy * x == 0.0;
    }
  }

  lemma {:induction false} ShiftSide(s: Point, e: Point, q: Point, a: Point, b: Point, k: real)
    ensures Side(s, e, Shift(q, a, b, k)) == Side(s, e, q) + Times(k, Side(a, b, s) - Side(a, b, e))
  {
    var dx, dy, u, v := b.x - a.x, b.y - a.y, e.x - s.x, e.y - s.y;
    assert Side(a, b, s) - Side(a, b, e) == u * dy - v * dx;
    assert u * (k * dy) == k * (u * dy) && v * (k * dx) == k * (v * dx);
    assert k * (u * dy - v * dx) == k * (u * dy) - k * (v * dx);
  }

  /** A point beside an edge, at the level of a point of the edge, is on that side of it. */
  lemma {:induction false} ShiftSign(ccw: bool, s: Point, e: Point, q: Point, a: Point, b: Point, k: real)
    requires Side(s, e, q) == 0.0 && Turn(ccw, s, e, Shift(q, a, b, k)) >= 0.0
    ensures ccw && Side(a, b, s) > Side(a, b, e) ==> k >= 0.0
    ensures ccw && Side(a, b, s) < Side(a, b, e) ==> k <= 0.0
    ensures !ccw && Side(a, b, s) > Side(a, b, e) ==> k <= 0.0
    ensures !ccw && Side(a, b, s) < Side(a, b, e) ==> k >= 0.0
  {
    var p, f := Shift(q, a, b, k), Side(a, b, s) - Side(a, b, e);
    ShiftSide(s, e, q, a, b, k);
    assert Side(e, s, p) == -Side(s, e, p);
    if f > 0.0 {
      if k > 0.0 { TimesPositive(k, f); } else if k < 0.0 { TimesPositive(-k, f); assert Times(-k, f) == -Times(k, f); }
    } else if f < 0.0 {
      if k > 0.0 { TimesPositive(k, -f); assert Times(k, -f) == -Times(k, f); }
      else if k < 0.0 { TimesPositive(-k, -f); assert Times(-k, -f) == Times(k, f); }
    }
  }

  /** Reached by opposite shifts from two points, a point lies between them. */
  lemma {:induction false} BetweenShifts(p: Point, q: Point, r: Point, a: Point, b: Point, j: real, k: real)
    requires p == Shift(q, a, b, j) && p == Shift(r, a, b, k) && (j >= 0.0 >= k || k >= 0.0 >= j)
    ensures OnSegment(p, q, r)
  {
    if j == 0.0 {
      assert p == Lerp(q, r, 0.0);
    } else {
      var t := j / (j - k);
      if j > 0.0 { Ratio(j, j - k); } else { Ratio(-j, k - j); assert t == (-j) / (k - j); }
      assert t * (j - k) == j;
      ShiftAlong(q.x, r.x, b.x - a.x, j, k, t);
      ShiftAlong(q.y, r.y, b.y - a.y, j, k, t);
      assert p == Lerp(q, r, t);
    }
  }

  lemma {:induction false} ShiftAlong(q: real, r: real, d: real, j: real, k: real, t: real)
    requires q + j * d == r + k * d && t * (j - k) == j
    ensures Along(q, r, t) == q + j * d
  {
    assert r - q == (j - k) * d;
    assert t * ((j - k) * d) == (t * (j - k)) * d;
  }

  // -------------------------------------------------------------------------
  // One pass keeps the hull inside its half-plane
  // -------------------------------------------------------------------------

  lemma {:induction false} AllKept(pts: Polygon, s: Point, a: Point, b: Point)
    requires Inside(s, a, b) && forall i | 0 <= i < |pts| :: Inside(pts[i], a, b)
    ensures Pass(pts, s, a, b) == pts
  {
    if pts != [] {
      assert forall i | 0 <= i < |pts[1..]| :: pts[1..][i] == pts[i + 1];
      AllKept(pts[1..], pts[0], a, b);
      assert pts == [pts[0]] + pts[1..];
    }
  }

  lemma {:induction false} CycleInHull(p: Point, pts: Polygon)
    requires OnCycle(p, pts)
    ensures InHull(p, pts)
  {
    var i :| 0 <= i < |pts| && OnSegment(p, Prev(pts, i), pts[i]);
    var t :| 0.0 <= t <= 1.0 && p == Lerp(Prev(pts, i), pts[i], t);
    VertexInHull(pts, pts[i]);
    VertexInHull(pts, Prev(pts, i));
    HullIsConvex(Prev(pts, i), pts[i], t, pts);
  }

  /** On the inner side of every edge. */
  ghost predicate BesideAll(ccw: bool, pts: Polygon, p: Point) {
    forall i | 0 <= i < |pts| :: Turn(ccw, Prev(pts, i), pts[i], p) >= 0.0
  }

  /** The level line through a point beside all edges crosses edge `i` at `q`, where the level
      goes down or up; the point is `k` steps from there. */
  lemma {:induction false} CrossesAt(
      ccw: bool, pts: Polygon, a: Point, b: Point, p: Point, i: nat) returns (q: Point, k: real)
    requires BesideAll(ccw, pts, p) && i < |pts|
    requires var h := Side(a, b, p); (Side(a, b, Prev(pts, i)) >= h) != (Side(a, b, pts[i]) >= h)
    ensures OnCycle(q, pts) && Side(a, b, q) == Side(a, b, p) && p == Shift(q, a, b, k)
    ensures if ccw == (Side(a, b, Prev(pts, i)) >= Side(a, b, p)) then k >= 0.0 else k <= 0.0
  {
    var s, e := Prev(pts, i), pts[i];
    q := LevelPoint(s, e, a, b, Side(a, b, p));
    k := SameLevel(q, p, a, b);
    assert Turn(ccw, s, e, p) >= 0.0;
    ShiftSign(ccw, s, e, q, a, b, k);
  }

  /** A point beside all edges, with vertices on both sides of its level, lies between two
      boundary points of that level. */
  lemma {:induction false} BetweenCrossings(
      ccw: bool, pts: Polygon, a: Point, b: Point, p: Point, u: nat, v: nat) returns (q: Point, r: Point)
    requires BesideAll(ccw, pts, p) && u < |pts| && v < |pts|
    requires High(pts, a, b, Side(a, b, p), u) && !High(pts, a, b, Side(a, b, p), v)
    ensures OnCycle(q, pts) && OnCycle(r, pts) && OnSegment(p, q, r)
    ensures Side(a, b, q) == Side(a, b, r) == Side(a, b, p)
  {
    var h := Side(a, b, p);
    var i := Switch(pts, a, b, h, true, u, v);
    var j := Switch(pts, a, b, h, false, v, u);
    var k, l;
    q, k := CrossesAt(ccw, pts, a, b, p, i);
    r, l := CrossesAt(ccw, pts, a, b, p, j);
    BetweenShifts(p, q, r, a, b, k, l);
  }

  lemma {:induction false} BetweenInHull(p: Point, q: Point, r: Point, pts: Polygon)
    requires OnCycle(q, pts) && OnCycle(r, pts) && OnSegment(p, q, r)
    ensures InHull(p, pts)
  {
    CycleInHull(q, pts);
    CycleInHull(r, pts);
    var t :| 0.0 <= t <= 1.0 && p == Lerp(q, r, t);
    HullIsConvex(q, r, t, pts);
  }

  /** One pass keeps the hull of a polygon in convex position inside the half-plane. */
  lemma {:induction false} PassKeepsHull(ccw: bool, pts: Polygon, a: Point, b: Point, p: Point)
    requires Turns(ccw, pts) && InHull(p, pts) && Inside(p, a, b)
    requires Side(a, b, p) >= EPS || NoDegenerate(pts, a, b)
    ensures InHull(p, ClipEdge(pts, a, b))
  {
    var h := Side(a, b, p);
    var u := HullReaches(p, pts, a, b);
    if forall v: nat | v < |pts| :: High(pts, a, b, h, v) {
      forall i: nat | i < |pts| ensures Inside(pts[i], a, b) { assert High(pts, a, b, h, i); }
      AllKept(pts, pts[|pts| - 1], a, b);
    } else {
      var v: nat :| v < |pts| && !High(pts, a, b, h, v);
      forall i | 0 <= i < |pts| ensures Turn(ccw, Prev(pts, i), pts[i], p) >= 0.0 {
        HullBesideEdge(ccw, pts, i, p);
      }
      var q, r := BetweenCrossings(ccw, pts, a, b, p, u, v);
      PassKeepsBoundary(pts, a, b, q);
      PassKeepsBoundary(pts, a, b, r);
      BetweenInHull(p, q, r, ClipEdge(pts, a, b));
    }
  }

  lemma {:induction false} HullFrom(ccw: bool, pts: Polygon, clip: Polygon, i: nat, p: Point, margin: real)
    requires i <= |clip| && Turns(ccw, pts) && InHull(p, pts) && InsideAll(p, clip, i, margin) && margin >= 0.0
    requires margin >= EPS || NeverDegenerate(pts, clip, i)
    ensures InHull(p, ClipFrom(pts, clip, i))
    decreases |clip| - i
  {
    if i < |clip| && pts != [] {
      var a, b := clip[i], clip[Next(i, |clip|)];
      assert Side(a, b, p) >= margin;
      PassKeepsHull(ccw, pts, a, b, p);
      ClipEdgeTurns(ccw, pts, a, b);
      HullFrom(ccw, ClipEdge(pts, a, b), clip, i + 1, p, margin);
    }
  }

  // -------------------------------------------------------------------------
  // Nothing else is in the hull of the output
  // -------------------------------------------------------------------------

  function AddScaled(v: seq<real>, k: real, u: seq<real>): (r: seq<real>)
    requires |u| == |v|
    ensures |r| == |u|
  {
    if u == [] then [] else [v[0] + k * u[0]] + AddScaled(v[1..], k, u[1..])
  }

  lemma {:induction false} AddScaledSum(v: seq<real>, k: real, u: seq<real>)
    requires |u| == |v|
    ensures Sum(AddScaled(v, k, u)) == Sum(v) + Times(k, Sum(u))
  {
    if u != [] {
      AddScaledSum(v[1..], k, u[1..]);
      assert Times(k, u[0] + Sum(u[1..])) == k * u[0] + Times(k, Sum(u[1..]));
    }
  }

  lemma {:induction false} AddScaledDot(v: seq<real>, k: real, u: seq<real>, xs: seq<real>)
    requires |u| == |v| == |xs|
    ensures Dot(AddScaled(v, k, u), xs) == Dot(v, xs) + Times(k, Dot(u, xs))
  {
    if u != [] {
      AddScaledDot(v[1..], k, u[1..], xs[1..]);
      Expand(v[0], k, u[0], xs[0], Dot(u[1..], xs[1..]));
    }
  }

  lemma {:induction false} Expand(v: real, k: real, u: real, x: real, d: real)
    ensures (v + k * u) * x + Times(k, d) == v * x + Times(k, u * x + d)
  {
    assert (k * u) * x == k * (u * x);
  }

  predicate NonNegative(ws: seq<real>) {
    forall i | 0 <= i < |ws| :: ws[i] >= 0.0
  }

  lemma {:induction false} AddScaledNonNegative(v: seq<real>, k: real, u: seq<real>)
    requires |u| == |v| && k >= 0.0 && NonNegative(u) && NonNegative(v)
    ensures NonNegative(AddScaled(v, k, u))
  {
    if u != [] {
      assert NonNegative(u[1..]) && NonNegative(v[1..]);
      AddScaledNonNegative(v[1..], k, u[1..]);
      assert k * u[0] >= 0.0;
    }
  }

  /** Weights on points of a hull become weights on its vertices. */
  lemma {:induction false} Refold(ws: seq<real>, pts: Polygon, subject: Polygon) returns (vs: seq<real>)
    requires |ws| == |pts| && NonNegative(ws) && AllInHull(pts, subject)
    ensures |vs| == |subject| && NonNegative(vs) && Sum(vs) == Sum(ws) && Combine(vs, subject) == Combine(ws, pts)
  {
    if ws == [] {
      vs := Zeros(|subject|);
      ZeroWeights(Xs(subject));
      ZeroWeights(Ys(subject));
    } else {
      assert pts[0] in pts && AllInHull(pts[1..], subject) && NonNegative(ws[1..]);
      var rest := Refold(ws[1..], pts[1..], subject);
      var us: seq<real> :| |us| == |subject| && IsConvex(us) && pts[0] == Combine(us, subject);
      vs := AddScaled(rest, ws[0], us);
      AddScaledNonNegative(rest, ws[0], us);
      AddScaledSum(rest, ws[0], us);
      AddScaledDot(rest, ws[0], us, Xs(subject));
      AddScaledDot(rest, ws[0], us, Ys(subject));
      CombineStep(ws, pts);
    }
  }

  lemma {:induction false} CombineStep(ws: seq<real>, pts: Polygon)
    requires |ws| == |pts| > 0
    ensures Sum(ws) == Sum(ws[1..]) + Times(ws[0], 1.0)
    ensures Combine(ws, pts).x == Combine(ws[1..], pts[1..]).x + Times(ws[0], pts[0].x)
    ensures Combine(ws, pts).y == Combine(ws[1..], pts[1..]).y + Times(ws[0], pts[0].y)
  {
    assert Xs(pts)[1..] == Xs(pts[1..]) && Ys(pts)[1..] == Ys(pts[1..]);
  }

  lemma {:induction false} HullOfHull(p: Point, pts: Polygon, subject: Polygon)
    requires InHull(p, pts) && AllInHull(pts, subject)
    ensures InHull(p, subject)
  {
    var ws: seq<real> :| |ws| == |pts| && IsConvex(ws) && p == Combine(ws, pts);
    var vs := Refold(ws, pts, subject);
    assert IsConvex(vs);
  }

  /** Without a degenerate crossing nothing outside the half-plane is put out. */
  lemma {:induction false} PassInside(pts: Polygon, a: Point, b: Point)
    requires NoDegenerate(pts, a, b)
    ensures AllAtLeast(ClipEdge(pts, a, b), a, b, 0.0)
  {
    if pts != [] {
      forall i | 0 <= i < |pts| ensures !Degenerate(Walked(pts, pts[|pts| - 1], i), pts[i], a, b) {
        assert !Degenerate(Prev(pts, i), pts[i], a, b);
      }
      EmittedInside(pts, pts[|pts| - 1], a, b);
    }
  }

  /** Where the walk that began at `s` stands before vertex `i`. */
  function Walked(pts: Polygon, s: Point, i: nat): Point
    requires i < |pts|
  {
    if i == 0 then s else pts[i - 1]
  }

  lemma {:induction false} EmittedInside(pts: Polygon, s: Point, a: Point, b: Point)
    requires forall i | 0 <= i < |pts| :: !Degenerate(Walked(pts, s, i), pts[i], a, b)
    ensures AllAtLeast(Pass(pts, s, a, b), a, b, 0.0)
  {
    if pts != [] {
      var e, rest := pts[0], pts[1..];
      forall i | 0 <= i < |rest| ensures !Degenerate(Walked(rest, e, i), rest[i], a, b) {
        assert !Degenerate(Walked(pts, s, i + 1), pts[i + 1], a, b);
      }
      EmittedInside(rest, e, a, b);
      assert !Degenerate(Walked(pts, s, 0), e, a, b);
      if Inside(s, a, b) != Inside(e, a, b) { var t := CrossingPoint(s, e, a, b); }
      forall p | p in Emit(s, e, a, b) ensures Side(a, b, p) >= 0.0 {}
    }
  }

  ghost predicate InsideEdges(pts: Polygon, clip: Polygon, n: nat)
    requires n <= |clip|
  {
    forall k | 0 <= k < n :: AllAtLeast(pts, clip[k], clip[Next(k, |clip|)], 0.0)
  }

  lemma {:induction false} InsideFrom(pts: Polygon, clip: Polygon, i: nat)
    requires i <= |clip| && InsideEdges(pts, clip, i) && NeverDegenerate(pts, clip, i)
    ensures InsideEdges(ClipFrom(pts, clip, i), clip, |clip|)
    decreases |clip| - i
  {
    if i < |clip| && pts != [] {
      var a, b := clip[i], clip[Next(i, |clip|)];
      var cut := ClipEdge(pts, a, b);
      PassInside(pts, a, b);
      forall k | 0 <= k < i + 1 ensures AllAtLeast(cut, clip[k], clip[Next(k, |clip|)], 0.0) {
        if k < i { PassBounds(pts, a, b, clip[k], clip[Next(k, |clip|)], 0.0); }
      }
      InsideFrom(cut, clip, i + 1);
    }
  }

  lemma {:induction false} HullWithin(subject: Polygon, clip: Polygon, p: Point)
    requires |subject| >= 3 && |clip| >= 3 && InHull(p, Clip(subject, clip))
    ensures InHull(p, subject) && InsideAll(p, Oriented(clip), 0, -EPS)
    ensures NeverDegenerate(subject, Oriented(clip), 0) ==> InsideAll(p, Oriented(clip), 0, 0.0)
  {
    var edges, out := Oriented(clip), Clip(subject, clip);
    forall q | q in out ensures InHull(q, subject) { ClipSound(subject, clip, q, 0); }
    HullOfHull(p, out, subject);
    forall k | 0 <= k < |edges| ensures Side(edges[k], edges[Next(k, |edges|)], p) >= -EPS {
      forall q | q in out ensures Side(edges[k], edges[Next(k, |edges|)], q) >= -EPS { ClipSound(subject, clip, q, k); }
      HullAtLeast(p, out, edges[k], edges[Next(k, |edges|)], -EPS);
    }
    if NeverDegenerate(subject, edges, 0) {
      InsideFrom(subject, edges, 0);
      forall k | 0 <= k < |edges| ensures Side(edges[k], edges[Next(k, |edges|)], p) >= 0.0 {
        assert AllAtLeast(out, edges[k], edges[Next(k, |edges|)], 0.0);
        HullAtLeast(p, out, edges[k], edges[Next(k, |edges|)], 0.0);
      }
    }
  }

  // -------------------------------------------------------------------------
  // The intersection
  // -------------------------------------------------------------------------

  /** Of a subject in convex position clipping leaves exactly the part inside all
      half-planes of the clip polygon, provided no crossing was degenerate. */
  lemma {:induction false} IntersectionExactly(ccw: bool, subject: Polygon, clip: Polygon, p: Point)
    requires |subject| >= 3 && |clip| >= 3 && Turns(ccw, subject)
    requires NeverDegenerate(subject, Oriented(clip), 0)
    ensures InHull(p, Clip(subject, clip)) <==> InHull(p, subject) && InsideAll(p, Oriented(clip), 0, 0.0)
  {
    if InHull(p, Clip(subject, clip)) { HullWithin(subject, clip, p); }
    if InHull(p, subject) && InsideAll(p, Oriented(clip), 0, 0.0) {
      HullFrom(ccw, subject, Oriented(clip), 0, p, 0.0);
    }
  }

  /** Without that proviso it leaves that part to within EPS either way. */
  lemma {:induction false} IntersectionWithin(ccw: bool, subject: Polygon, clip: Polygon, p: Point)
    requires |subject| >= 3 && |clip| >= 3 && Turns(ccw, subject)
    ensures InHull(p, subject) && InsideAll(p, Oriented(clip), 0, EPS) ==> InHull(p, Clip(subject, clip))
    ensures InHull(p, Clip(subject, clip)) ==> InHull(p, subject) && InsideAll(p, Oriented(clip), 0, -EPS)
  {
    if InHull(p, Clip(subject, clip)) { HullWithin(subject, clip, p); }
    if InHull(p, subject) && InsideAll(p, Oriented(clip), 0, EPS) {
      HullFrom(ccw, subject, Oriented(clip), 0, p, EPS);
    }
  }
}
