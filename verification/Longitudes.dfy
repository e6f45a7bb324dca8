/** Longitude windows and vertices modulo whole turns, over exact reals. */
module Longitudes {
  import opened Options

  const TURN := 360.0
  const MIN_OVERLAP := 0.000000001

  datatype Window = Window(west: real, east: real)

  function Max(x: real, y: real): real {
    if x < y then y else x
  }

  function Min(x: real, y: real): real {
    if y < x then y else x
  }

  function Length(w: Window): real {
    w.east - w.west
  }

  /** What two windows have in common after each is shifted; of negative length if nothing. */
  function Common(a: Window, b: Window, sa: real, sb: real): Window {
    Window(Max(a.west + sa, b.west + sb), Min(a.east + sa, b.east + sb))
  }

  // -------------------------------------------------------------------------
  // The search over shifts
  // -------------------------------------------------------------------------

  function Shifts(allow: bool): seq<real> {
    if allow then [0.0, -TURN, TURN] else [0.0]
  }

  /** A candidate replaces the best so far when it is strictly longer. */
  function Better(best: Option<Window>, w: Window): Option<Window> {
    if Length(w) > MIN_OVERLAP && (best.None? || Length(w) > Length(best.value)) then Some(w) else best
  }

  function ScanRow(a: Window, b: Window, sa: real, sbs: seq<real>, best: Option<Window>): Option<Window> {
    if sbs == [] then best else ScanRow(a, b, sa, sbs[1..], Better(best, Common(a, b, sa, sbs[0])))
  }

  function Scan(a: Window, b: Window, sas: seq<real>, sbs: seq<real>, best: Option<Window>): Option<Window> {
    if sas == [] then best else Scan(a, b, sas[1..], sbs, ScanRow(a, b, sas[0], sbs, best))
  }

  function Intersection(a: Window, b: Window, allowShifts: bool): Option<Window> {
    Scan(a, b, Shifts(allowShifts), Shifts(allowShifts), None)
  }

  method LonWindowIntersection(a: Window, b: Window, allowShifts: bool) returns (best: Option<Window>)
    ensures best == Intersection(a, b, allowShifts)
  {
    var shifts := Shifts(allowShifts);
    best := None;
    for i := 0 to |shifts|
      invariant Scan(a, b, shifts[i..], shifts, best) == Intersection(a, b, allowShifts)
    {
      ghost var before := best;
      for j := 0 to |shifts|
        invariant ScanRow(a, b, shifts[i], shifts[j..], best) == ScanRow(a, b, shifts[i], shifts, before)
      {
        var w := Common(a, b, shifts[i], shifts[j]);
        assert shifts[j..][1..] == shifts[j + 1..];
        if Length(w) > MIN_OVERLAP && (best.None? || Length(w) > Length(best.value)) {
          best := Some(w);
        }
      }
      assert shifts[i..][1..] == shifts[i + 1..];
    }
  }

  // -------------------------------------------------------------------------
  // What the search finds
  // -------------------------------------------------------------------------

  /** Every candidate is at most as long as the best, or too short to count. */
  predicate Dominates(best: Option<Window>, w: Window) {
    Length(w) <= MIN_OVERLAP || (best.Some? && Length(w) <= Length(best.value))
  }

  ghost predicate Candidate(a: Window, b: Window, sas: seq<real>, sbs: seq<real>, w: Window) {
    exists sa, sb | sa in sas && sb in sbs :: w == Common(a, b, sa, sb)
  }

  lemma {:induction false} ScanRowSound(a: Window, b: Window, sa: real, sbs: seq<real>, best: Option<Window>)
    requires best.Some? ==> Length(best.value) > MIN_OVERLAP
    ensures var r := ScanRow(a, b, sa, sbs, best);
            && (r.Some? ==> Length(r.value) > MIN_OVERLAP)
            && (r == best || (r.Some? && exists sb | sb in sbs :: r.value == Common(a, b, sa, sb)))
            && (forall w | Dominates(best, w) :: Dominates(r, w))
            && (forall sb | sb in sbs :: Dominates(r, Common(a, b, sa, sb)))
  {
    if sbs != [] {
      var next := Better(best, Common(a, b, sa, sbs[0]));
      ScanRowSound(a, b, sa, sbs[1..], next);
      assert sbs == [sbs[0]] + sbs[1..];
    }
  }

  lemma {:induction false} ScanSound(a: Window, b: Window, sas: seq<real>, sbs: seq<real>, best: Option<Window>)
    requires best.Some? ==> Length(best.value) > MIN_OVERLAP
    ensures var r := Scan(a, b, sas, sbs, best);
            && (r.Some? ==> Length(r.value) > MIN_OVERLAP)
            && (r == best || (r.Some? && Candidate(a, b, sas, sbs, r.value)))
            && (forall w | Dominates(best, w) :: Dominates(r, w))
            && (forall sa, sb | sa in sas && sb in sbs :: Dominates(r, Common(a, b, sa, sb)))
  {
    if sas != [] {
      var next := ScanRow(a, b, sas[0], sbs, best);
      ScanRowSound(a, b, sas[0], sbs, best);
      ScanSound(a, b, sas[1..], sbs, next);
      assert sas == [sas[0]] + sas[1..];
    }
  }

  // -------------------------------------------------------------------------
  // Which of several longest candidates is reported
  // -------------------------------------------------------------------------

  function RowCandidates(a: Window, b: Window, sa: real, sbs: seq<real>): seq<Window> {
    if sbs == [] then [] else [Common(a, b, sa, sbs[0])] + RowCandidates(a, b, sa, sbs[1..])
  }

  /** The candidates in the order of the two loops. */
  function Candidates(a: Window, b: Window, sas: seq<real>, sbs: seq<real>): seq<Window> {
    if sas == [] then [] else RowCandidates(a, b, sas[0], sbs) + Candidates(a, b, sas[1..], sbs)
  }

  function Best(ws: seq<Window>, best: Option<Window>): Option<Window> {
    if ws == [] then best else Best(ws[1..], Better(best, ws[0]))
  }

  lemma {:induction false} BestConcat(x: seq<Window>, y: seq<Window>, best: Option<Window>)
    ensures Best(x + y, best) == Best(y, Best(x, best))
  {
    if x == [] {
      assert x + y == y;
    } else {
      assert (x + y)[1..] == x[1..] + y;
      BestConcat(x[1..], y, Better(best, x[0]));
    }
  }

  lemma {:induction false} ScanRowIsBest(a: Window, b: Window, sa: real, sbs: seq<real>, best: Option<Window>)
    ensures ScanRow(a, b, sa, sbs, best) == Best(RowCandidates(a, b, sa, sbs), best)
  {
    if sbs != [] {
      var w := Common(a, b, sa, sbs[0]);
      ScanRowIsBest(a, b, sa, sbs[1..], Better(best, w));
      assert RowCandidates(a, b, sa, sbs)[1..] == RowCandidates(a, b, sa, sbs[1..]);
    }
  }

  lemma {:induction false} ScanIsBest(a: Window, b: Window, sas: seq<real>, sbs: seq<real>, best: Option<Window>)
    ensures Scan(a, b, sas, sbs, best) == Best(Candidates(a, b, sas, sbs), best)
  {
    if sas != [] {
      ScanRowIsBest(a, b, sas[0], sbs, best);
      ScanIsBest(a, b, sas[1..], sbs, ScanRow(a, b, sas[0], sbs, best));
      BestConcat(RowCandidates(a, b, sas[0], sbs), Candidates(a, b, sas[1..], sbs), best);
    }
  }

  /** `i` is the place of the first longest window, if any counts. */
  ghost predicate FirstOfLongest(ws: seq<Window>, i: nat)
    requires i < |ws|
  {
    && Length(ws[i]) > 0.000000001
    && (forall j | 0 <= j < |ws| :: Length(ws[j]) <= Length(ws[i]))
    && (forall j | 0 <= j < i :: Length(ws[j]) < Length(ws[i]))
  }

  lemma {:induction false} BestIsFirst(ws: seq<Window>)
    ensures Best(ws, None).None? ==> forall w | w in ws :: Length(w) <= 0.000000001
    ensures Best(ws, None).Some? ==> exists i: nat :: i < |ws| && FirstOfLongest(ws, i) && Best(ws, None).value == ws[i]
  {
    if ws != [] {
      var front, last, n := ws[..|ws| - 1], ws[|ws| - 1], |ws| - 1;
      assert ws == front + [last];
      BestIsFirst(front);
      BestConcat(front, [last], None);
      var before := Best(front, None);
      assert Best([last], before) == Best([][..], Better(before, last)) == Better(before, last);
      if before.Some? {
        var i: nat :| i < |front| && FirstOfLongest(front, i) && before.value == front[i];
        if Length(last) > Length(front[i]) { assert FirstOfLongest(ws, n); } else { assert FirstOfLongest(ws, i); }
      } else if Length(last) > 0.000000001 {
        forall j | 0 <= j < n ensures Length(ws[j]) <= 0.000000001 { assert ws[j] == front[j] && front[j] in front; }
        assert FirstOfLongest(ws, n);
      }
    }
  }

  /** The nine candidates in order: each shift of the first window by nothing, a turn back, a
      turn on, with each such shift of the second. */
  function Nine(a: Window, b: Window): seq<Window> {
    [Common(a, b, 0.0, 0.0), Common(a, b, 0.0, -360.0), Common(a, b, 0.0, 360.0),
     Common(a, b, -360.0, 0.0), Common(a, b, -360.0, -360.0), Common(a, b, -360.0, 360.0),
     Common(a, b, 360.0, 0.0), Common(a, b, 360.0, -360.0), Common(a, b, 360.0, 360.0)]
  }

  /** The window reported is the first of the longest of these; without shifts it is what the
      windows have in common as they stand. */
  lemma {:induction false} FirstLongest(a: Window, b: Window)
    ensures var r, ws := Intersection(a, b, true), Nine(a, b);
            && (r.None? ==> forall w | w in ws :: Length(w) <= 0.000000001)
            && (r.Some? ==> exists i: nat :: i < |ws| && FirstOfLongest(ws, i) && r.value == ws[i])
    ensures var w := Common(a, b, 0.0, 0.0);
            Intersection(a, b, false) == if Length(w) > 0.000000001 then Some(w) else None
  {
    ScanIsBest(a, b, Shifts(true), Shifts(true), None);
    NineCandidates(a, b);
    BestIsFirst(Nine(a, b));
    var one: seq<real> := [0.0];
    assert one[1..] == [];
    assert ScanRow(a, b, 0.0, one, None) == ScanRow(a, b, 0.0, [], Better(None, Common(a, b, 0.0, 0.0)));
    assert Scan(a, b, one, one, None) == Scan(a, b, [], one, ScanRow(a, b, 0.0, one, None));
  }

  lemma {:induction false} NineCandidates(a: Window, b: Window)
    ensures Candidates(a, b, Shifts(true), Shifts(true)) == Nine(a, b)
  {
    var shifts: seq<real> := [0.0, -360.0, 360.0];
    RowOfThree(a, b, 0.0);
    RowOfThree(a, b, -360.0);
    RowOfThree(a, b, 360.0);
    assert shifts[1..] == [-360.0, 360.0] && shifts[1..][1..] == [360.0] && shifts[1..][1..][1..] == [];
    assert Candidates(a, b, [360.0], shifts) == RowCandidates(a, b, 360.0, shifts) + [];
    assert Candidates(a, b, [-360.0, 360.0], shifts)
        == RowCandidates(a, b, -360.0, shifts) + Candidates(a, b, [360.0], shifts);
  }

  lemma {:induction false} RowOfThree(a: Window, b: Window, sa: real)
    ensures RowCandidates(a, b, sa, [0.0, -360.0, 360.0])
         == [Common(a, b, sa, 0.0), Common(a, b, sa, -360.0), Common(a, b, sa, 360.0)]
  {
    var shifts: seq<real> := [0.0, -360.0, 360.0];
    assert shifts[1..] == [-360.0, 360.0] && shifts[1..][1..] == [360.0] && shifts[1..][1..][1..] == [];
    assert RowCandidates(a, b, sa, [360.0]) == [Common(a, b, sa, 360.0)];
    assert RowCandidates(a, b, sa, [-360.0, 360.0]) == [Common(a, b, sa, -360.0)] + RowCandidates(a, b, sa, [360.0]);
  }

  /** How long the common part is when the first window is turned `k` times. */
  function Overlap(a: Window, b: Window, k: int): real {
    Length(Common(a, b, TURN * k as real, 0.0))
  }

  lemma {:induction false} ShiftsAreTurns(a: Window, b: Window, w: Window)
    requires Candidate(a, b, Shifts(true), Shifts(true), w)
    ensures exists k :: -2 <= k <= 2 && Length(w) == Overlap(a, b, k)
  {
    var sa, sb :| sa in Shifts(true) && sb in Shifts(true) && w == Common(a, b, sa, sb);
    var m, n := Turns(sa), Turns(sb);
    ShiftIsTurn(sa);
    ShiftIsTurn(sb);
    CommonLength(a, b, m, n);
  }

  lemma {:induction false} ShiftIsTurn(s: real)
    requires s in Shifts(true)
    ensures s == TURN * Turns(s) as real
  {
  }

  /** Only the difference of the two shifts matters. */
  lemma {:induction false} CommonLength(a: Window, b: Window, m: int, n: int)
    ensures Length(Common(a, b, TURN * m as real, TURN * n as real)) == Overlap(a, b, m - n)
  {
  }

  function Turns(s: real): int {
    if s == 0.0 then 0 else if s < 0.0 then -1 else 1
  }

  lemma {:induction false} TurnsAreShifts(a: Window, b: Window, k: int, best: Option<Window>)
    requires -2 <= k <= 2
    requires forall sa, sb | sa in Shifts(true) && sb in Shifts(true) :: Dominates(best, Common(a, b, sa, sb))
    ensures Overlap(a, b, k) <= MIN_OVERLAP || (best.Some? && Overlap(a, b, k) <= Length(best.value))
  {
    var m := if k > 0 then 1 else if k < 0 then -1 else 0;
    var sa, sb := TURN * m as real, TURN * (m - k) as real;
    assert Shifts(true) == [0.0, -TURN, TURN];
    assert Shifts(true)[0] == 0.0 && Shifts(true)[1] == -TURN && Shifts(true)[2] == TURN;
    assert sa in Shifts(true) && sb in Shifts(true);
    CommonLength(a, b, m, m - k);
  }

  // -------------------------------------------------------------------------
  // Boxes
  // -------------------------------------------------------------------------

  /** `if a1 < a0: a1 += 360.0` */
  function Unwrapped(minLon: real, maxLon: real): Window {
    Window(minLon, if maxLon < minLon then maxLon + TURN else maxLon)
  }

  predicate Plausible(lon: real) {
    -180.0 <= lon <= 360.0
  }

  lemma {:induction false} FarTurnsMiss(a: Window, b: Window, k: int)
    requires -180.0 <= a.west && a.east <= 720.0 && -180.0 <= b.west && b.east <= 720.0
    requires k < -2 || k > 2
    ensures Overlap(a, b, k) < 0.0
  {
    if k > 2 {
      assert TURN * k as real >= 1080.0;
    } else {
      assert TURN * k as real <= -1080.0;
    }
  }

  /** The nine shift pairs find the longest overlap there is over any number of turns, and
      find none only when no turn gives an overlap above the tolerance. */
  lemma {:induction false} LongestOverTurns(minA: real, maxA: real, minB: real, maxB: real)
    requires Plausible(minA) && Plausible(maxA) && Plausible(minB) && Plausible(maxB)
    ensures var a, b := Unwrapped(minA, maxA), Unwrapped(minB, maxB);
            var w := Intersection(a, b, true);
            && (w.None? <==> forall k :: Overlap(a, b, k) <= MIN_OVERLAP)
            && (w.Some? ==>
                  && Length(w.value) > MIN_OVERLAP
                  && (exists k :: Length(w.value) == Overlap(a, b, k))
                  && forall k :: Overlap(a, b, k) <= Length(w.value))
  {
    var a, b := Unwrapped(minA, maxA), Unwrapped(minB, maxB);
    var w := Intersection(a, b, true);
    ScanSound(a, b, Shifts(true), Shifts(true), None);
    forall k ensures Overlap(a, b, k) <= MIN_OVERLAP || (w.Some? && Overlap(a, b, k) <= Length(w.value)) {
      if -2 <= k <= 2 { TurnsAreShifts(a, b, k, w); } else { FarTurnsMiss(a, b, k); }
    }
    if w.Some? { ShiftsAreTurns(a, b, w.value); }
  }

  lemma {:induction false} NothingFound(a: Window, b: Window, sas: seq<real>, sbs: seq<real>)
    requires forall sa, sb | sa in sas && sb in sbs :: Length(Common(a, b, sa, sb)) <= MIN_OVERLAP
    ensures Scan(a, b, sas, sbs, None) == None
  {
    ScanSound(a, b, sas, sbs, None);
  }

  /** Beyond that range three turns may be needed, which the shifts do not reach. */
  lemma {:induction false} OutOfRangeIsMissed()
    ensures var a, b := Unwrapped(0.0, 10.0), Unwrapped(1080.0, 1090.0);
            Intersection(a, b, true) == None && Overlap(a, b, 3) == 10.0
  {
    var a, b := Unwrapped(0.0, 10.0), Unwrapped(1080.0, 1090.0);
    forall sa, sb | sa in Shifts(true) && sb in Shifts(true) ensures Length(Common(a, b, sa, sb)) <= MIN_OVERLAP {
      assert sa <= TURN && sb >= -TURN;
    }
    NothingFound(a, b, Shifts(true), Shifts(true));
  }

  // -------------------------------------------------------------------------
  // When nine pairs suffice
  // -------------------------------------------------------------------------

  /** The number of turns that brings the middles of the two windows closest. */
  function NearestTurn(a: Window, b: Window): int {
    ((b.west + b.east - a.west - a.east) / (2.0 * TURN) + 0.5).Floor
  }

  function Clamp(k: int): int {
    if k < -2 then -2 else if k > 2 then 2 else k
  }

  /** Overlaps in closed form: no longer than either window, and shrinking by a turn with
      every turn away from where the middles meet. */
  lemma {:induction false} OverlapForm(a: Window, b: Window, k: int)
    ensures Overlap(a, b, k) == Min(Min(Length(a), Length(b)),
                                    Min(b.east - a.west - TURN * k as real, a.east - b.west + TURN * k as real))
  {
  }

  /** Between the nearest turn and any other one, overlaps only shrink. */
  lemma {:induction false} CloserIsLonger(a: Window, b: Window, j: int, k: int)
    requires var n := NearestTurn(a, b); n <= j <= k || k <= j <= n
    ensures Overlap(a, b, k) <= Overlap(a, b, j)
  {
    var n, c := NearestTurn(a, b), (b.west + b.east - a.west - a.east) / (2.0 * TURN);
    assert c - 0.5 <= n as real <= c + 0.5;
    OverlapForm(a, b, j);
    OverlapForm(a, b, k);
    if j < k {
      assert (j + k) as real >= 2.0 * c by { assert j + k >= 2 * n + 1; }
    } else if k < j {
      assert (j + k) as real <= 2.0 * c by { assert j + k <= 2 * n - 1; }
    }
  }

  /** The search answers for every number of turns. */
  ghost predicate CompleteSearch(a: Window, b: Window) {
    var w := Intersection(a, b, true);
    && (w.None? <==> forall k :: Overlap(a, b, k) <= MIN_OVERLAP)
    && (w.Some? ==> forall k :: Overlap(a, b, k) <= Length(w.value))
  }

  /** It does so, for any two windows, exactly when the nearest turn gives no overlap that
      counts or none longer than the nearest of the turns it tries. */
  lemma {:induction false} CompleteSearchExactly(a: Window, b: Window)
    ensures var n := NearestTurn(a, b);
            CompleteSearch(a, b) <==> Overlap(a, b, n) <= MIN_OVERLAP || Overlap(a, b, n) <= Overlap(a, b, Clamp(n))
  {
    var n, w := NearestTurn(a, b), Intersection(a, b, true);
    ScanSound(a, b, Shifts(true), Shifts(true), None);
    TurnsAreShifts(a, b, Clamp(n), w);
    if w.Some? {
      ShiftsAreTurns(a, b, w.value);
      var k :| -2 <= k <= 2 && Length(w.value) == Overlap(a, b, k);
      CloserIsLonger(a, b, Clamp(n), k);
    }
    forall k ensures Overlap(a, b, k) <= Overlap(a, b, n) { CloserIsLonger(a, b, n, k); }
  }

  /** Which window comes first does not matter to whether there is an overlap, or how long. */
  lemma {:induction false} IntersectionSymmetric(a: Window, b: Window, allowShifts: bool)
    ensures var v, w := Intersection(a, b, allowShifts), Intersection(b, a, allowShifts);
            v.Some? == w.Some? && (v.Some? ==> Length(v.value) == Length(w.value))
  {
    AtMost(a, b, allowShifts);
    AtMost(b, a, allowShifts);
  }

  lemma {:induction false} AtMost(a: Window, b: Window, allowShifts: bool)
    ensures var v, w := Intersection(a, b, allowShifts), Intersection(b, a, allowShifts);
            v.Some? ==> w.Some? && Length(v.value) <= Length(w.value)
  {
    var shifts := Shifts(allowShifts);
    var v, w := Intersection(a, b, allowShifts), Intersection(b, a, allowShifts);
    ScanSound(a, b, shifts, shifts, None);
    ScanSound(b, a, shifts, shifts, None);
    if v.Some? {
      var sa, sb :| sa in shifts && sb in shifts && v.value == Common(a, b, sa, sb);
      assert Dominates(w, Common(b, a, sb, sa));
      assert Common(b, a, sb, sa) == Common(a, b, sa, sb);
    }
  }

  // -------------------------------------------------------------------------
  // Vertices
  // -------------------------------------------------------------------------

  /** The first loop: whole turns down until at most half a turn east of the reference. */
  function Lowered(lon: real, ref: real): real
    decreases if lon - ref > 180.0 then (lon - ref).Floor else 0
  {
    if lon - ref > 180.0 then Lowered(lon - TURN, ref) else lon
  }

  function Raised(lon: real, ref: real): real
    decreases if ref - lon > 180.0 then (ref - lon).Floor else 0
  {
    if lon - ref < -180.0 then Raised(lon + TURN, ref) else lon
  }

  function Near(lon: real, ref: real): real {
    Raised(Lowered(lon, ref), ref)
  }

  method UnwrapLongitude(lon: real, ref: real) returns (lon2: real)
    ensures lon2 == Near(lon, ref)
  {
    lon2 := lon;
    while lon2 - ref > 180.0
      invariant Lowered(lon2, ref) == Lowered(lon, ref)
      decreases if lon2 - ref > 180.0 then (lon2 - ref).Floor else 0
    {
      lon2 := lon2 - TURN;
    }
    while lon2 - ref < -180.0
      invariant Raised(lon2, ref) == Near(lon, ref)
      decreases if ref - lon2 > 180.0 then (ref - lon2).Floor else 0
    {
      lon2 := lon2 + TURN;
    }
  }

  function Turned(lon: real, k: int): real {
    lon + TURN * k as real
  }

  ghost predicate SameMeridian(x: real, y: real) {
    exists k :: y == Turned(x, k)
  }

  lemma {:induction false} LoweredSound(lon: real, ref: real)
    ensures SameMeridian(lon, Lowered(lon, ref)) && Lowered(lon, ref) - ref <= 180.0
    ensures lon - ref >= -180.0 ==> Lowered(lon, ref) - ref >= -180.0
    decreases if lon - ref > 180.0 then (lon - ref).Floor else 0
  {
    if lon - ref > 180.0 {
      LoweredSound(lon - TURN, ref);
      var k :| Lowered(lon, ref) == Turned(lon - TURN, k);
      assert Lowered(lon, ref) == Turned(lon, k - 1);
    } else {
      assert lon == Turned(lon, 0);
    }
  }

  lemma {:induction false} RaisedSound(lon: real, ref: real)
    requires lon - ref <= 180.0
    ensures SameMeridian(lon, Raised(lon, ref)) && -180.0 <= Raised(lon, ref) - ref <= 180.0
    decreases if ref - lon > 180.0 then (ref - lon).Floor else 0
  {
    if lon - ref < -180.0 {
      RaisedSound(lon + TURN, ref);
      var k :| Raised(lon, ref) == Turned(lon + TURN, k);
      assert Raised(lon, ref) == Turned(lon, k + 1);
    } else {
      assert lon == Turned(lon, 0);
    }
  }

  /** The loops end on the same meridian within half a turn of the reference. */
  lemma {:induction false} NearSound(lon: real, ref: real)
    ensures SameMeridian(lon, Near(lon, ref)) && -180.0 <= Near(lon, ref) - ref <= 180.0
  {
    LoweredSound(lon, ref);
    RaisedSound(Lowered(lon, ref), ref);
    var k :| Lowered(lon, ref) == Turned(lon, k);
    var m :| Near(lon, ref) == Turned(Lowered(lon, ref), m);
    assert Near(lon, ref) == Turned(lon, k + m);
  }

  /** Away from the opposite meridian there is one such value, so the turn a label happens
      to use makes no difference. */
  lemma {:induction false} NearUnique(x: real, y: real, ref: real)
    requires SameMeridian(x, y) && Near(x, ref) - ref != 180.0 && Near(x, ref) - ref != -180.0
    ensures Near(y, ref) == Near(x, ref)
  {
    NearSound(x, ref);
    NearSound(y, ref);
    var k :| y == Turned(x, k);
    var m :| Near(x, ref) == Turned(x, m);
    var n :| Near(y, ref) == Turned(y, n);
    WithinATurn(k + n - m);
  }

  lemma {:induction false} WithinATurn(k: int)
    requires -TURN < Turned(0.0, k) < TURN
    ensures k == 0
  {
  }
}
