/**
 Deterministic window sampling: the stride-doubling grid, the planes that let each valid
 pixel count once although windows overlap, and the pooled variance, over exact reals.
*/
module WindowSampling {
  import opened Options
  import opened RealSums

  datatype Config = Config(window: nat, stride: nat, maxWindows: int, canny: bool)

  /** A window, named by its first row and column. */
  datatype Window = Window(row: nat, col: nat)

  /** The Sobel energy, Laplacian and Canny answer for one pixel of one window. */
  datatype Kernels = Kernels(
    energy: (Window, nat, nat) -> real,
    laplacian: (Window, nat, nat) -> real,
    edge: (Window, nat, nat) -> bool)

  function Max(a: int, b: int): int { if a < b then b else a }

  // -------------------------------------------------------------------------
  // The grid
  // -------------------------------------------------------------------------

  /** `len(range(0, extent, stride))` */
  function Starts(extent: nat, stride: nat): nat
    requires stride >= 1
  {
    if extent == 0 then 0 else (extent - 1) / stride + 1
  }

  /** The multiples of the stride below the extent, counted. */
  lemma {:induction false} StartsExactly(extent: nat, stride: nat, k: nat)
    requires stride >= 1
    ensures k < Starts(extent, stride) <==> k * stride < extent
  {
    if extent > 0 {
      var q, r := (extent - 1) / stride, (extent - 1) % stride;
      assert extent - 1 == q * stride + r && 0 <= r < stride;
      if k <= q { Multiples(k, q, stride); } else { Multiples(q + 1, k, stride); }
    } else {
      Multiples(0, k, stride);
    }
  }

  lemma {:induction false} Multiples(a: nat, b: nat, stride: nat)
    requires a <= b
    ensures a * stride <= b * stride
  {
    assert b * stride - a * stride == (b - a) * stride;
  }

  predicate Settled(height: nat, width: nat, stride: nat, maxWindows: int)
    requires stride >= 1
  {
    Starts(height, stride) * Starts(width, stride) <= maxWindows || stride >= Max(Max(height, width), 1)
  }

  function StrideUsed(height: nat, width: nat, stride: nat, maxWindows: int): (r: nat)
    requires stride >= 1
    ensures r >= stride
    decreases Max(Max(height, width), 1) - stride
  {
    if Settled(height, width, stride, maxWindows) then stride
    else StrideUsed(height, width, 2 * stride, maxWindows)
  }

  /** The loop of `_window_grid`. */
  method GridStride(height: nat, width: nat, cfg: Config) returns (used: nat)
    ensures used == StrideUsed(height, width, Max(1, cfg.stride), cfg.maxWindows)
  {
    used := Max(1, cfg.stride);
    while !Settled(height, width, used, cfg.maxWindows)
      invariant used >= 1
      invariant StrideUsed(height, width, used, cfg.maxWindows)
             == StrideUsed(height, width, Max(1, cfg.stride), cfg.maxWindows)
      decreases Max(Max(height, width), 1) - used
    {
      used := used * 2;
    }
  }

  /** The stride doubled so many times. */
  function Doubled(stride: nat, times: nat): (r: nat)
    ensures r >= stride
    decreases times
  {
    if times == 0 then stride else Doubled(2 * stride, times - 1)
  }

  /** Few enough windows, or a stride of at least the image. */
  predicate FewEnough(height: nat, width: nat, stride: nat, maxWindows: int)
    requires stride >= 1
  {
    (stride >= height && stride >= width) || Starts(height, stride) * Starts(width, stride) <= maxWindows
  }

  /** The stride used is the first of the stride, twice it, four times it, ... that will do. */
  lemma {:induction false} StrideIsFirst(height: nat, width: nat, stride: nat, maxWindows: int) returns (k: nat)
    requires stride >= 1
    ensures StrideUsed(height, width, stride, maxWindows) == Doubled(stride, k)
    ensures FewEnough(height, width, Doubled(stride, k), maxWindows)
    ensures forall j: nat | j < k :: !FewEnough(height, width, Doubled(stride, j), maxWindows)
    decreases Max(Max(height, width), 1) - stride
  {
    if Settled(height, width, stride, maxWindows) {
      k := 0;
    } else {
      var i := StrideIsFirst(height, width, 2 * stride, maxWindows);
      k := i + 1;
      forall j: nat | j < k ensures !FewEnough(height, width, Doubled(stride, j), maxWindows) {
        if j > 0 { assert Doubled(stride, j) == Doubled(2 * stride, j - 1); }
      }
    }
  }

  /** The grid never has more windows than allowed, except one when none are allowed. */
  lemma {:induction false} WindowsBounded(height: nat, width: nat, stride: nat, maxWindows: int)
    requires stride >= 1
    ensures var s := StrideUsed(height, width, stride, maxWindows);
            Starts(height, s) * Starts(width, s) <= Max(maxWindows, 1)
    decreases Max(Max(height, width), 1) - stride
  {
    if !Settled(height, width, stride, maxWindows) {
      WindowsBounded(height, width, 2 * stride, maxWindows);
    } else if stride >= Max(Max(height, width), 1) {
      AtMostOneStart(height, stride);
      AtMostOneStart(width, stride);
      var a, b := Starts(height, stride), Starts(width, stride);
      assert a == 0 ==> a * b == 0;
    }
  }

  lemma {:induction false} AtMostOneStart(extent: nat, stride: nat)
    requires stride >= 1 && stride >= extent
    ensures Starts(extent, stride) <= 1
  {
    if extent > 0 { assert (extent - 1) / stride == 0; }
  }

  // -------------------------------------------------------------------------
  // Which window sees a pixel first
  // -------------------------------------------------------------------------

  /** The least start from `from` on, in steps of `stride`, whose window reaches beyond `i`. */
  function FirstFrom(i: nat, stride: nat, window: nat, from: nat): (r: nat)
    requires stride >= 1 && window >= 1
    ensures r >= from && r + window > i
    decreases i - from
  {
    if from + window > i then from else FirstFrom(i, stride, window, from + stride)
  }

  function First(i: nat, stride: nat, window: nat): nat
    requires stride >= 1 && window >= 1
  {
    FirstFrom(i, stride, window, 0)
  }

  /** `First` is a start of the grid (the `m`-th), and no earlier start reaches beyond `i`. */
  lemma {:induction false} FirstIsLeast(i: nat, stride: nat, window: nat, n: nat, k: nat) returns (m: nat)
    requires stride >= 1 && window >= 1 && n <= k && k * stride + window > i
    ensures FirstFrom(i, stride, window, n * stride) == m * stride && n <= m <= k
    decreases k - n
  {
    if n * stride + window > i {
      m := n;
    } else {
      assert (n + 1) * stride == n * stride + stride;
      m := FirstIsLeast(i, stride, window, n + 1, k);
    }
  }

  /** Some window contains coordinate `i`. */
  predicate Covered(i: nat, stride: nat, window: nat)
    requires stride >= 1 && window >= 1
  {
    First(i, stride, window) <= i
  }

  /** `at` is a start the scan reaches: everything first seen before it is before it. */
  predicate Reached(i: nat, stride: nat, window: nat, at: nat)
    requires stride >= 1 && window >= 1
  {
    First(i, stride, window) < at || First(i, stride, window) == FirstFrom(i, stride, window, at)
  }

  lemma {:induction false} CoveredFrom(i: nat, stride: nat, window: nat, from: nat)
    requires 1 <= stride <= window && from <= i
    ensures FirstFrom(i, stride, window, from) <= i
    decreases i - from
  {
    if from + window <= i { CoveredFrom(i, stride, window, from + stride); }
  }

  /** Every coordinate is covered exactly when the stride does not exceed the window or
      one window spans the whole extent. */
  lemma {:induction false} CoverageExactly(extent: nat, stride: nat, window: nat)
    requires stride >= 1 && window >= 1
    ensures (forall i | 0 <= i < extent :: Covered(i, stride, window)) <==> stride <= window || extent <= window
  {
    if stride <= window {
      forall i | 0 <= i < extent ensures Covered(i, stride, window) { CoveredFrom(i, stride, window, 0); }
    } else if extent > window {
      assert FirstFrom(window, stride, window, 0) == FirstFrom(window, stride, window, stride);
      assert !Covered(window, stride, window);
    }
  }

  // -------------------------------------------------------------------------
  // The accumulation planes
  // -------------------------------------------------------------------------

  /** The mask window is cast to one byte before it is compared with zero. */
  predicate ValidPixel(m: nat) {
    m % 256 == 0
  }

  /** Among byte values only zero is valid, and a value is as valid as its low byte. */
  lemma {:induction false} ValidExactly(m: nat, high: nat)
    ensures m < 256 ==> (ValidPixel(m) <==> m == 0)
    ensures ValidPixel(m + 256 * high) <==> ValidPixel(m)
  {
  }

  predicate Before(i: nat, j: nat, stride: nat, window: nat, row: nat, col: nat)
    requires stride >= 1 && window >= 1
  {
    First(i, stride, window) < row || (First(i, stride, window) == row && First(j, stride, window) < col)
  }

  predicate Sampled(m: nat, i: nat, j: nat, stride: nat, window: nat)
    requires stride >= 1 && window >= 1
  {
    ValidPixel(m) && Covered(i, stride, window) && Covered(j, stride, window)
  }

  function FirstWindow(i: nat, j: nat, stride: nat, window: nat): Window
    requires stride >= 1 && window >= 1
  {
    Window(First(i, stride, window), First(j, stride, window))
  }

  predicate Contains(v: Window, window: nat, i: nat, j: nat) {
    v.row <= i < v.row + window && v.col <= j < v.col + window
  }

  /** The `k`-th start of an extent has a window that contains `i`. */
  predicate StartCovers(k: nat, i: nat, stride: nat, window: nat, extent: nat) {
    k * stride < extent && k * stride <= i < k * stride + window
  }

  /** The grid window in row `k` and column `l` of the grid contains the pixel. */
  predicate GridContains(k: nat, l: nat, i: nat, j: nat, stride: nat, window: nat, height: nat, width: nat) {
    StartCovers(k, i, stride, window, height) && StartCovers(l, j, stride, window, width)
  }

  lemma {:induction false} FirstIsStart(i: nat, stride: nat, window: nat, k: nat) returns (m: nat)
    requires stride >= 1 && window >= 1 && k * stride + window > i
    ensures First(i, stride, window) == m * stride <= k * stride
  {
    assert 0 * stride == 0;
    m := FirstIsLeast(i, stride, window, 0, k);
    Product(m, k, stride);
  }

  lemma {:induction false} Product(m: nat, k: nat, stride: nat)
    requires m <= k
    ensures m * stride <= k * stride
  {
  }

  /** A coordinate is covered exactly when some window of the grid contains it. */
  lemma {:induction false} CoveredByGrid(i: nat, stride: nat, window: nat, extent: nat)
    requires stride >= 1 && window >= 1 && i < extent
    ensures Covered(i, stride, window) <==> exists k: nat :: StartCovers(k, i, stride, window, extent)
  {
    if Covered(i, stride, window) {
      assert i * stride >= i by { Product(1, stride, i); assert 1 * i == i; }
      var m := FirstIsStart(i, stride, window, i);
      assert StartCovers(m, i, stride, window, extent);
    }
    if k: nat :| StartCovers(k, i, stride, window, extent) {
      var m := FirstIsStart(i, stride, window, k);
    }
  }

  /** A pixel is sampled exactly when it is valid and lies in the union of the windows. */
  lemma {:induction false} SampledInUnion(m: nat, i: nat, j: nat, s: nat, w: nat, height: nat, width: nat)
    requires s >= 1 && w >= 1 && i < height && j < width
    ensures Sampled(m, i, j, s, w)
       <==> ValidPixel(m) && exists k: nat, l: nat :: GridContains(k, l, i, j, s, w, height, width)
  {
    CoveredByGrid(i, s, w, height);
    CoveredByGrid(j, s, w, width);
    if Covered(i, s, w) && Covered(j, s, w) {
      var k: nat :| StartCovers(k, i, s, w, height);
      var l: nat :| StartCovers(l, j, s, w, width);
      assert GridContains(k, l, i, j, s, w, height, width);
    }
  }

  /** The first window of a pixel is a window of the grid that contains it, and no window
      that contains it comes earlier in row-by-row order. */
  lemma {:induction false} FirstInScanOrder(i: nat, j: nat, s: nat, w: nat, height: nat, width: nat, k: nat, l: nat)
    requires s >= 1 && w >= 1 && i < height && j < width && GridContains(k, l, i, j, s, w, height, width)
    ensures exists m: nat, n: nat ::
              && GridContains(m, n, i, j, s, w, height, width)
              && FirstWindow(i, j, s, w) == Window(m * s, n * s)
    ensures var v := FirstWindow(i, j, s, w); v.row < k * s || (v.row == k * s && v.col <= l * s)
  {
    var m := FirstIsStart(i, s, w, k);
    var n := FirstIsStart(j, s, w, l);
    assert GridContains(m, n, i, j, s, w, height, width);
  }

  /** Moving on by one start passes exactly the pixels first seen from here. */
  lemma {:induction false} NextStart(i: nat, stride: nat, window: nat, at: nat)
    requires stride >= 1 && window >= 1 && Reached(i, stride, window, at)
    ensures Reached(i, stride, window, at + stride)
    ensures First(i, stride, window) < at + stride <==> First(i, stride, window) <= at
  {
  }

  lemma {:induction false} NextColumn(i: nat, j: nat, stride: nat, window: nat, row: nat, col: nat)
    requires stride >= 1 && window >= 1 && Reached(j, stride, window, col)
    ensures Before(i, j, stride, window, row, col + stride)
       <==> Before(i, j, stride, window, row, col) || FirstWindow(i, j, stride, window) == Window(row, col)
  {
    NextStart(j, stride, window, col);
  }

  // -------------------------------------------------------------------------
  // Pooled variance
  // -------------------------------------------------------------------------

  function Square(x: real): real { Times(x, x) }

  function Squares(xs: seq<real>): (r: seq<real>)
    ensures |r| == |xs|
  {
    if xs == [] then [] else [Square(xs[0])] + Squares(xs[1..])
  }

  /** How `_windowed_metrics` combines the two pooled sums over `n` sampled values. */
  function Variance(sum: real, sumOfSquares: real, n: int): real
    requires n > 0
  {
    sumOfSquares / n as real - Square(sum / n as real)
  }

  /** The sum of `(x - y)^2` over `ys`. */
  function Spread(x: real, ys: seq<real>): real {
    if ys == [] then 0.0 else Square(x - ys[0]) + Spread(x, ys[1..])
  }

  /** The sum of squared differences over all pairs. */
  function PairSpread(xs: seq<real>): real {
    if xs == [] then 0.0 else Spread(xs[0], xs[1..]) + PairSpread(xs[1..])
  }

  predicate AllEqual(xs: seq<real>) {
    forall i, j | 0 <= i < |xs| && 0 <= j < |xs| :: xs[i] == xs[j]
  }

  predicate SpreadIs(spread: real, n: int, x: real, sum: real, squares: real) {
    spread == n as real * Square(x) - 2.0 * x * sum + squares
  }

  predicate PairSpreadIs(spread: real, n: int, sum: real, squares: real) {
    spread == n as real * squares - Square(sum)
  }

  lemma {:induction false} SpreadStep(spread: real, n: int, x: real, s: real, q: real, y: real)
    requires SpreadIs(spread, n, x, s, q)
    ensures SpreadIs(Square(x - y) + spread, n + 1, x, y + s, Square(y) + q)
  {
    var m := n as real;
    assert (n + 1) as real == m + 1.0;
    assert (x - y) * (x - y) == x * x - 2.0 * (x * y) + y * y;
    assert 2.0 * x * (y + s) == 2.0 * (x * y) + 2.0 * x * s;
    assert (m + 1.0) * (x * x) == m * (x * x) + x * x;
  }

  lemma {:induction false} PairStep(pairs: real, spread: real, n: int, x: real, s: real, q: real)
    requires SpreadIs(spread, n, x, s, q) && PairSpreadIs(pairs, n, s, q)
    ensures PairSpreadIs(spread + pairs, n + 1, x + s, Square(x) + q)
  {
    var m := n as real;
    assert (n + 1) as real == m + 1.0;
    assert (x + s) * (x + s) == x * x + 2.0 * (x * s) + s * s;
    assert 2.0 * x * s == 2.0 * (x * s);
    assert (m + 1.0) * (x * x + q) == m * (x * x) + x * x + m * q + q;
  }

  lemma {:induction false} SpreadSums(x: real, ys: seq<real>)
    ensures SpreadIs(Spread(x, ys), |ys|, x, Sum(ys), Sum(Squares(ys)))
  {
    if ys != [] {
      SpreadSums(x, ys[1..]);
      SpreadStep(Spread(x, ys[1..]), |ys[1..]|, x, Sum(ys[1..]), Sum(Squares(ys[1..])), ys[0]);
      assert Squares(ys)[1..] == Squares(ys[1..]);
    }
  }

  lemma {:induction false} PairSpreadSums(xs: seq<real>)
    ensures PairSpreadIs(PairSpread(xs), |xs|, Sum(xs), Sum(Squares(xs)))
  {
    if xs != [] {
      var x, ys := xs[0], xs[1..];
      PairSpreadSums(ys);
      SpreadSums(x, ys);
      PairStep(PairSpread(ys), Spread(x, ys), |ys|, x, Sum(ys), Sum(Squares(ys)));
      assert Squares(xs)[1..] == Squares(ys);
    }
  }

  lemma {:induction false} SquareSign(d: real)
    ensures Square(d) >= 0.0 && (Square(d) == 0.0 <==> d == 0.0)
  {
    if d > 0.0 { TimesPositive(d, d); }
    if d < 0.0 { TimesPositive(-d, -d); assert Times(d, d) == Times(-d, -d); }
  }

  lemma {:induction false} SpreadNonNegative(x: real, ys: seq<real>)
    ensures Spread(x, ys) >= 0.0
    ensures Spread(x, ys) == 0.0 <==> forall i | 0 <= i < |ys| :: ys[i] == x
  {
    if ys != [] {
      SpreadNonNegative(x, ys[1..]);
      assert forall i | 0 <= i < |ys[1..]| :: ys[1..][i] == ys[i + 1];
      SquareSign(x - ys[0]);
    }
  }

  lemma {:induction false} PairSpreadNonNegative(xs: seq<real>)
    ensures PairSpread(xs) >= 0.0 && (PairSpread(xs) == 0.0 <==> AllEqual(xs))
  {
    if xs != [] {
      SpreadNonNegative(xs[0], xs[1..]);
      PairSpreadNonNegative(xs[1..]);
      assert forall i | 0 <= i < |xs[1..]| :: xs[1..][i] == xs[i + 1];
    }
  }

  lemma {:induction false} VarianceSign(pairs: real, n: int, s: real, q: real)
    requires n > 0 && PairSpreadIs(pairs, n, s, q) && pairs >= 0.0
    ensures Variance(s, q, n) >= 0.0 && (Variance(s, q, n) == 0.0 <==> pairs == 0.0)
  {
    var r, v := n as real, Variance(s, q, n);
    var mean, meanOfSquares := s / r, q / r;
    assert r * mean == s && r * meanOfSquares == q;
    assert (r * r) * (meanOfSquares - mean * mean) == r * (r * meanOfSquares) - (r * mean) * (r * mean);
    assert Times(Square(r), v) == pairs;
    SquareSign(r);
    if v > 0.0 { TimesPositive(Square(r), v); }
    if v < 0.0 { TimesPositive(Square(r), -v); }
  }

  /** The pooled variance is never negative, and zero only for a constant sample. */
  lemma {:induction false} VarianceNonNegative(xs: seq<real>)
    requires xs != []
    ensures Variance(Sum(xs), Sum(Squares(xs)), |xs|) >= 0.0
    ensures Variance(Sum(xs), Sum(Squares(xs)), |xs|) == 0.0 <==> AllEqual(xs)
  {
    PairSpreadSums(xs);
    PairSpreadNonNegative(xs);
    VarianceSign(PairSpread(xs), |xs|, Sum(xs), Sum(Squares(xs)));
  }

  class Planes {
    const mask: array2<nat>
    const height: nat
    const width: nat
    const seen: array2<bool>
    const energy: array2<real>
    const lap: array2<real>
    const lapSq: array2<real>
    const edge: array2<bool>

    ghost predicate Shaped()
    {
      && seen.Length0 == energy.Length0 == lap.Length0 == lapSq.Length0 == edge.Length0 == mask.Length0 == height
      && seen.Length1 == energy.Length1 == lap.Length1 == lapSq.Length1 == edge.Length1 == mask.Length1 == width
      && energy != lap && energy != lapSq && lap != lapSq && seen != edge
    }

    constructor (mask: array2<nat>)
      ensures Shaped() && this.mask == mask
      ensures fresh(seen) && fresh(energy) && fresh(lap) && fresh(lapSq) && fresh(edge)
      ensures forall i, j | 0 <= i < height && 0 <= j < width :: !seen[i, j] && !edge[i, j]
    {
      this.mask := mask;
      this.height := mask.Length0;
      this.width := mask.Length1;
      this.seen := new bool[mask.Length0, mask.Length1]((i, j) => false);
      this.energy := new real[mask.Length0, mask.Length1]((i, j) => 0.0);
      this.lap := new real[mask.Length0, mask.Length1]((i, j) => 0.0);
      this.lapSq := new real[mask.Length0, mask.Length1]((i, j) => 0.0);
      this.edge := new bool[mask.Length0, mask.Length1]((i, j) => false);
    }

    predicate Fresh(v: Window, window: nat, i: nat, j: nat)
      reads mask, seen
      requires Shaped() && i < height && j < width
    {
      Contains(v, window, i, j) && ValidPixel(mask[i, j]) && !seen[i, j]
    }

    /** One window of the loop of `_windowed_metrics`. */
    method Examine(v: Window, window: nat, k: Kernels, canny: bool)
      requires Shaped()
      modifies seen, energy, lap, lapSq, edge
      ensures forall i, j | 0 <= i < height && 0 <= j < width ::
        if old(Fresh(v, window, i, j)) then
          seen[i, j] && energy[i, j] == k.energy(v, i, j) && lap[i, j] == k.laplacian(v, i, j)
          && lapSq[i, j] == Square(k.laplacian(v, i, j))
        else
          seen[i, j] == old(seen[i, j]) && energy[i, j] == old(energy[i, j]) && lap[i, j] == old(lap[i, j])
          && lapSq[i, j] == old(lapSq[i, j])
      ensures forall i, j | 0 <= i < height && 0 <= j < width ::
        edge[i, j] == (old(edge[i, j]) || (canny && Contains(v, window, i, j) && k.edge(v, i, j)
                       && exists p, q | 0 <= p < height && 0 <= q < width :: old(Fresh(v, window, p, q))))
    {
      if !(exists p, q | 0 <= p < height && 0 <= q < width :: Fresh(v, window, p, q)) { return; }
      if canny {
        forall i, j | 0 <= i < height && 0 <= j < width && Contains(v, window, i, j) {
          edge[i, j] := edge[i, j] || k.edge(v, i, j);
        }
      }
      forall i, j | 0 <= i < height && 0 <= j < width && Fresh(v, window, i, j) {
        energy[i, j] := k.energy(v, i, j);
      }
      forall i, j | 0 <= i < height && 0 <= j < width && Fresh(v, window, i, j) {
        lap[i, j] := k.laplacian(v, i, j);
      }
      forall i, j | 0 <= i < height && 0 <= j < width && Fresh(v, window, i, j) {
        lapSq[i, j] := Square(k.laplacian(v, i, j));
      }
      forall i, j | 0 <= i < height && 0 <= j < width && Fresh(v, window, i, j) {
        seen[i, j] := true;
      }
    }

    // -----------------------------------------------------------------------
    // The whole scan
    // -----------------------------------------------------------------------

    ghost predicate Scanned(row: nat, col: nat, s: nat, w: nat)
      reads mask, seen
      requires Shaped() && s >= 1 && w >= 1
    {
      forall i, j | 0 <= i < height && 0 <= j < width ::
        seen[i, j] <==> Sampled(mask[i, j], i, j, s, w) && Before(i, j, s, w, row, col)
    }

    /** Each seen pixel holds the values its first window gave it. */
    ghost predicate Valued(s: nat, w: nat, k: Kernels)
      reads seen, energy, lap, lapSq
      requires Shaped() && s >= 1 && w >= 1
    {
      forall i, j | 0 <= i < height && 0 <= j < width && seen[i, j] ::
        var v := FirstWindow(i, j, s, w);
        energy[i, j] == k.energy(v, i, j) && lap[i, j] == k.laplacian(v, i, j)
        && lapSq[i, j] == Square(k.laplacian(v, i, j))
    }

    /** `v` is the first window of some seen pixel. */
    ghost predicate Contributes(v: Window, s: nat, w: nat)
      reads seen
      requires Shaped() && s >= 1 && w >= 1
    {
      exists p, q :: 0 <= p < height && 0 <= q < width && seen[p, q] && FirstWindow(p, q, s, w) == v
    }

    /** An edge is recorded by every contributing window that contains the pixel. */
    ghost predicate Edged(s: nat, w: nat, k: Kernels, canny: bool)
      reads seen, edge
      requires Shaped() && s >= 1 && w >= 1
    {
      forall i, j | 0 <= i < height && 0 <= j < width ::
        edge[i, j] <==> canny && exists v :: Contributes(v, s, w) && Contains(v, w, i, j) && k.edge(v, i, j)
    }

    lemma {:induction false} FreshExactly(row: nat, col: nat, s: nat, w: nat, i: nat, j: nat)
      requires Shaped() && s >= 1 && w >= 1 && Scanned(row, col, s, w) && i < height && j < width
      requires Reached(i, s, w, row) && Reached(j, s, w, col)
      ensures Fresh(Window(row, col), w, i, j)
         <==> Sampled(mask[i, j], i, j, s, w) && FirstWindow(i, j, s, w) == Window(row, col)
    {
      assert seen[i, j] <==> Sampled(mask[i, j], i, j, s, w) && Before(i, j, s, w, row, col);
    }

    /** The body of the scan at (`row`, `col`). */
    method ExamineAt(row: nat, col: nat, s: nat, w: nat, k: Kernels, canny: bool)
      requires Shaped() && s >= 1 && w >= 1 && Scanned(row, col, s, w) && Valued(s, w, k) && Edged(s, w, k, canny)
      requires forall i | 0 <= i < height :: Reached(i, s, w, row)
      requires forall j | 0 <= j < width :: Reached(j, s, w, col)
      modifies seen, energy, lap, lapSq, edge
      ensures Scanned(row, col + s, s, w) && Valued(s, w, k) && Edged(s, w, k, canny)
    {
      ghost var v := Window(row, col);
      forall i, j | 0 <= i < height && 0 <= j < width
        ensures Fresh(v, w, i, j) <==> Sampled(mask[i, j], i, j, s, w) && FirstWindow(i, j, s, w) == v
      {
        FreshExactly(row, col, s, w, i, j);
      }
      forall i, j | 0 <= i < height && 0 <= j < width
        ensures Before(i, j, s, w, row, col + s) <==> Before(i, j, s, w, row, col) || FirstWindow(i, j, s, w) == v
      {
        NextColumn(i, j, s, w, row, col);
      }
      Examine(Window(row, col), w, k, canny);
    }

    /** The loop of `_windowed_metrics`: afterwards exactly the valid pixels of the union of
        windows are seen, each with the values of its first window in scan order. */
    method Scan(s: nat, w: nat, k: Kernels, canny: bool)
      requires Shaped() && s >= 1 && w >= 1
      requires forall i, j | 0 <= i < height && 0 <= j < width :: !seen[i, j] && !edge[i, j]
      modifies seen, energy, lap, lapSq, edge
      ensures forall i, j | 0 <= i < height && 0 <= j < width :: seen[i, j] <==> Sampled(mask[i, j], i, j, s, w)
      ensures Valued(s, w, k) && Edged(s, w, k, canny)
    {
      var row := 0;
      while row < height
        invariant Scanned(row, 0, s, w) && Valued(s, w, k) && Edged(s, w, k, canny)
        invariant forall i | 0 <= i < height :: Reached(i, s, w, row)
      {
        var col := 0;
        while col < width
          invariant Scanned(row, col, s, w) && Valued(s, w, k) && Edged(s, w, k, canny)
          invariant forall j | 0 <= j < width :: Reached(j, s, w, col)
        {
          ExamineAt(row, col, s, w, k, canny);
          ghost var next := col + s;
          forall j | 0 <= j < width ensures Reached(j, s, w, next) { NextStart(j, s, w, col); }
          col := col + s;
        }
        forall i | 0 <= i < height
          ensures Reached(i, s, w, row + s) && (First(i, s, w) < row + s <==> First(i, s, w) <= row)
        {
          NextStart(i, s, w, row);
        }
        row := row + s;
      }
    }

    // -----------------------------------------------------------------------
    // Pooling
    // -----------------------------------------------------------------------

    /** `plane[seen]`: the seen values in row-major order, rows before `i` and row `i` up
        to column `j`. */
    ghost function Pooled(plane: array2<real>, i: nat, j: nat): seq<real>
      reads seen, plane
      requires Shaped() && plane.Length0 == height && plane.Length1 == width
      requires j <= width && (i < height || (i == height && j == 0))
      decreases i, j
    {
      if j > 0 then Pooled(plane, i, j - 1) + (if seen[i, j - 1] then [plane[i, j - 1]] else [])
      else if i > 0 then Pooled(plane, i - 1, width)
      else []
    }

    method Pool(plane: array2<real>) returns (xs: seq<real>)
      requires Shaped() && plane.Length0 == height && plane.Length1 == width
      ensures xs == Pooled(plane, height, 0)
    {
      xs := [];
      for i := 0 to height
        invariant xs == Pooled(plane, i, 0)
      {
        for j := 0 to width
          invariant xs == Pooled(plane, i, j)
        {
          if seen[i, j] { xs := xs + [plane[i, j]]; }
        }
      }
    }

    lemma {:induction false} PooledSquares(i: nat, j: nat)
      requires Shaped() && j <= width && (i < height || (i == height && j == 0))
      requires forall p, q | 0 <= p < height && 0 <= q < width && seen[p, q] :: lapSq[p, q] == Square(lap[p, q])
      ensures Pooled(lapSq, i, j) == Squares(Pooled(lap, i, j))
      decreases i, j
    {
      if j > 0 {
        PooledSquares(i, j - 1);
        if seen[i, j - 1] {
          SquaresSnoc(Pooled(lap, i, j - 1), lap[i, j - 1]);
        } else {
          assert Pooled(lapSq, i, j) == Pooled(lapSq, i, j - 1) && Pooled(lap, i, j) == Pooled(lap, i, j - 1);
        }
      } else if i > 0 {
        PooledSquares(i - 1, width);
      }
    }

    /** The pooled Laplacian mean and variance; None when no pixel was seen. */
    method LaplacianStatistics(s: nat, w: nat, k: Kernels) returns (r: Option<(real, real)>)
      requires Shaped() && s >= 1 && w >= 1 && Valued(s, w, k)
      ensures r.None? <==> Pooled(lap, height, 0) == []
      ensures r.Some? ==>
        var xs := Pooled(lap, height, 0);
        && r.value.0 == Sum(xs) / |xs| as real
        && r.value.1 == Variance(Sum(xs), Sum(Squares(xs)), |xs|)
        && r.value.1 >= 0.0
    {
      var xs := Pool(lap);
      var ys := Pool(lapSq);
      PooledSquares(height, 0);
      if xs == [] { return None; }
      VarianceNonNegative(xs);
      var mean := Sum(xs) / |xs| as real;
      var sumOfSquares := Sum(ys);
      return Some((mean, sumOfSquares / |xs| as real - Square(mean)));
    }
  }

  lemma {:induction false} SquaresSnoc(xs: seq<real>, x: real)
    ensures Squares(xs + [x]) == Squares(xs) + [Square(x)]
  {
    if xs == [] {
      assert xs + [x] == [x];
    } else {
      assert (xs + [x])[1..] == xs[1..] + [x];
      SquaresSnoc(xs[1..], x);
      assert Squares(xs + [x]) == [Square(xs[0])] + (Squares(xs[1..]) + [Square(x)]);
    }
  }

  /** With that, all valid pixels of a non-empty image are sampled, whatever the mask,
      exactly when neither direction leaves gaps. */
  lemma {:induction false} EveryValidPixelSampled(height: nat, width: nat, s: nat, w: nat)
    requires height > 0 && width > 0 && s >= 1 && w >= 1
    ensures (forall i, j, m | 0 <= i < height && 0 <= j < width && ValidPixel(m) :: Sampled(m, i, j, s, w))
       <==> (s <= w || height <= w) && (s <= w || width <= w)
  {
    CoverageExactly(height, s, w);
    CoverageExactly(width, s, w);
    assert ValidPixel(0);
    if forall i, j, m | 0 <= i < height && 0 <= j < width && ValidPixel(m) :: Sampled(m, i, j, s, w) {
      forall i | 0 <= i < height ensures Covered(i, s, w) { assert Sampled(0, i, 0, s, w); }
      forall j | 0 <= j < width ensures Covered(j, s, w) { assert Sampled(0, 0, j, s, w); }
    }
  }
}
