/**
 * The selection rules of backend/lcms_app/analysis.py: smoothing-window normalisation,
 * peak picking with non-maximum suppression, trapezoidal peak area, the charge-ladder
 * contiguity gates and the exclusive ion-set selection of the deconvolution, mass
 * outlier rejection, the singly-charged species filter and theoretical m/z values.
 * Intensities, times, masses and m/z values are reals; numerical routines of SciPy and
 * NumPy that the rules call are parameters.
 */
module Analysis {
  import opened Wrappers
  import opened Sorting

  // ---------------------------------------------------------------------------
  // _find_peaks_simple
  // ---------------------------------------------------------------------------

  /** Index i is a candidate: an interior sample not below either neighbour. */
  predicate IsLocalMax(y: seq<real>, i: int)
  {
    1 <= i < |y| - 1 && y[i] >= y[i - 1] && y[i] >= y[i + 1]
  }

  /** `intensity[i]`, total so that it can serve as a sort key. */
  function Height(y: seq<real>, i: int): real
  {
    if 0 <= i < |y| then y[i] else 0.0
  }

  /** The order of `sorted(peak_idx, key=lambda x: intensity[x], reverse=True)`. */
  function HigherFirst(y: seq<real>): (int, int) -> bool
  {
    (a: int, b: int) => Height(y, a) >= Height(y, b)
  }

  /** Candidate c lies closer than d samples to a kept index at least as high. */
  ghost predicate Suppressed(y: seq<real>, kept: seq<int>, c: int, d: int)
  {
    exists k :: k in kept && k - d < c < k + d && Height(y, k) >= Height(y, c)
  }

  /** The first loop of `_find_peaks_simple`: every local maximum, in ascending order. */
  method LocalMaxima(y: seq<real>) returns (candidates: seq<int>)
    ensures forall k :: 0 <= k < |candidates| ==> IsLocalMax(y, candidates[k])
    ensures forall a, b :: 0 <= a < b < |candidates| ==> candidates[a] < candidates[b]
    ensures forall c :: IsLocalMax(y, c) ==> c in candidates
  {
    candidates := [];
    var i := 1;
    while i < |y| - 1
      invariant 1 <= i <= |y| - 1 || (|y| < 2 && i == 1)
      invariant forall k :: 0 <= k < |candidates| ==> IsLocalMax(y, candidates[k]) && candidates[k] < i
      invariant forall a, b :: 0 <= a < b < |candidates| ==> candidates[a] < candidates[b]
      invariant forall c :: IsLocalMax(y, c) && c < i ==> c in candidates
    {
      if y[i] >= y[i - 1] && y[i] >= y[i + 1] {
        candidates := candidates + [i];
      }
      i := i + 1;
    }
  }

  /** The inner loop: `blocked.add(idx + offset)` for offset in `range(-d + 1, d)`. */
  method Block(blocked: set<int>, idx: int, d: int) returns (result: set<int>)
    ensures forall j :: j in result <==> j in blocked || idx - d < j < idx + d
  {
    result := blocked;
    var off := -d + 1;
    while off < d
      invariant -d + 1 <= off && (off <= d || off == -d + 1)
      invariant forall j :: j in result <==> j in blocked || idx - d < j < idx + off
    {
      result := result + {idx + off};
      off := off + 1;
    }
  }

  /** What the greedy pass has established after looking at order[..n]. */
  ghost predicate GreedyInvariant(y: seq<real>, order: seq<int>, n: int, kept: seq<int>, d: int)
  {
    && 0 <= n <= |order|
    && (forall k :: k in kept ==> k in order[..n])
    && Distinct(kept)
    && (forall k, m :: k in kept && n <= m < |order| ==> Height(y, k) >= Height(y, order[m]))
    && (forall a, b :: a in kept && b in kept && a != b ==> a - b >= d || b - a >= d)
    && (forall m :: 0 <= m < n ==> order[m] in kept || Suppressed(y, kept, order[m], d))
    && (n > 0 ==> order[0] in kept)
    && (d < 1 ==> kept == order[..n])
  }

  /** Keeping order[n], which no kept index blocks, preserves the invariant. */
  lemma GreedyKeep(y: seq<real>, order: seq<int>, n: int, kept: seq<int>, d: int)
    requires Sorted(order, HigherFirst(y)) && Distinct(order)
    requires GreedyInvariant(y, order, n, kept, d) && n < |order|
    requires forall k :: k in kept ==> !(k - d < order[n] < k + d)
    ensures GreedyInvariant(y, order, n + 1, kept + [order[n]], d)
  {
    var idx := order[n];
    var kept' := kept + [idx];
    assert order[..n + 1] == order[..n] + [idx];
    forall k | k in kept ensures k != idx {
      var m :| 0 <= m < n && order[m] == k;
      assert order[m] != order[n];
    }
    AppendDistinct(kept, idx);
    AppendSpaced(kept, idx, d);
    GreedyKeepHeights(y, order, n, kept, d);
    forall m | 0 <= m < n + 1 ensures order[m] in kept' || Suppressed(y, kept', order[m], d) {
      if m < n && order[m] !in kept {
        var k :| k in kept && k - d < order[m] < k + d && Height(y, k) >= Height(y, order[m]);
        assert k in kept';
      }
    }
    if n == 0 {
      assert order[0] == idx;
    } else {
      assert order[0] in kept;
    }
  }

  /** Appending a new element keeps a sequence free of duplicates. */
  lemma AppendDistinct(s: seq<int>, x: int)
    requires Distinct(s) && x !in s
    ensures Distinct(s + [x])
  {
    forall i, j | 0 <= i < j < |s + [x]| ensures (s + [x])[i] != (s + [x])[j] {
      assert (s + [x])[i] == s[i] && s[i] in s;
    }
  }

  /** Appending an index at least d away from every kept one keeps them all d apart. */
  lemma AppendSpaced(kept: seq<int>, x: int, d: int)
    requires forall a, b :: a in kept && b in kept && a != b ==> a - b >= d || b - a >= d
    requires forall k :: k in kept ==> !(k - d < x < k + d)
    ensures forall a, b :: a in kept + [x] && b in kept + [x] && a != b ==> a - b >= d || b - a >= d
  {
  }

  /** After keeping order[n], every kept index is at least as high as every later candidate. */
  lemma GreedyKeepHeights(y: seq<real>, order: seq<int>, n: int, kept: seq<int>, d: int)
    requires Sorted(order, HigherFirst(y))
    requires GreedyInvariant(y, order, n, kept, d) && n < |order|
    ensures forall k, m :: k in kept + [order[n]] && n + 1 <= m < |order| ==> Height(y, k) >= Height(y, order[m])
  {
    forall k, m | k in kept + [order[n]] && n + 1 <= m < |order| ensures Height(y, k) >= Height(y, order[m]) {
      if k == order[n] {
        assert HigherFirst(y)(order[n], order[m]);
      } else {
        assert k in kept;
      }
    }
  }

  /** Dropping order[n], which a kept index blocks, preserves the invariant. */
  lemma GreedySkip(y: seq<real>, order: seq<int>, n: int, kept: seq<int>, d: int)
    requires GreedyInvariant(y, order, n, kept, d) && n < |order|
    requires exists k :: k in kept && k - d < order[n] < k + d
    ensures GreedyInvariant(y, order, n + 1, kept, d)
  {
    var idx := order[n];
    assert order[..n + 1] == order[..n] + [idx];
    var k :| k in kept && k - d < idx < k + d;
    assert Suppressed(y, kept, idx, d);
    if d < 1 {
      assert false;
    }
  }

  /**
   * The greedy pass over candidates sorted highest first: a candidate is kept unless
   * an index already kept lies closer than d samples.
   */
  method SuppressNonMaxima(y: seq<real>, order: seq<int>, d: int) returns (kept: seq<int>)
    requires Sorted(order, HigherFirst(y))
    requires Distinct(order)
    ensures Distinct(kept)
    ensures forall k :: k in kept ==> k in order
    ensures forall a, b :: a in kept && b in kept && a != b ==> a - b >= d || b - a >= d
    ensures forall m :: 0 <= m < |order| ==> order[m] in kept || Suppressed(y, kept, order[m], d)
    ensures |order| > 0 ==> order[0] in kept
    ensures d < 1 ==> kept == order
  {
    var blocked: set<int> := {};
    kept := [];
    var n := 0;
    while n < |order|
      invariant GreedyInvariant(y, order, n, kept, d)
      invariant forall j :: j in blocked <==> exists k :: k in kept && k - d < j < k + d
    {
      var idx := order[n];
      if idx !in blocked {
        GreedyKeep(y, order, n, kept, d);
        var blocked' := Block(blocked, idx, d);
        BlockedAfterKeep(blocked, blocked', kept, idx, d);
        kept := kept + [idx];
        blocked := blocked';
      } else {
        GreedySkip(y, order, n, kept, d);
      }
      n := n + 1;
    }
    GreedyDone(y, order, kept, d);
  }

  /** Blocking around a newly kept index keeps `blocked` the neighbourhood of the kept ones. */
  lemma BlockedAfterKeep(blocked: set<int>, blocked': set<int>, kept: seq<int>, idx: int, d: int)
    requires forall j :: j in blocked <==> exists k :: k in kept && k - d < j < k + d
    requires forall j :: j in blocked' <==> j in blocked || idx - d < j < idx + d
    ensures forall j :: j in blocked' <==> exists k :: k in kept + [idx] && k - d < j < k + d
  {
    forall j ensures j in blocked' <==> exists k :: k in kept + [idx] && k - d < j < k + d {
      if j in blocked' {
        if j in blocked {
          var k :| k in kept && k - d < j < k + d;
          assert k in kept + [idx];
        } else {
          assert idx in kept + [idx];
        }
      }
    }
  }

  /** Once every candidate has been looked at, the invariant is the pass's promise. */
  lemma GreedyDone(y: seq<real>, order: seq<int>, kept: seq<int>, d: int)
    requires GreedyInvariant(y, order, |order|, kept, d)
    ensures Distinct(kept)
    ensures forall k :: k in kept ==> k in order
    ensures forall a, b :: a in kept && b in kept && a != b ==> a - b >= d || b - a >= d
    ensures forall m :: 0 <= m < |order| ==> order[m] in kept || Suppressed(y, kept, order[m], d)
    ensures |order| > 0 ==> order[0] in kept
    ensures d < 1 ==> kept == order
  {
    assert order[..|order|] == order;
  }

  /**
   * What `_find_peaks_simple` promises of `peaks`: nothing for fewer than 3 samples; only
   * local maxima, strictly ascending and at least `minDistance` apart; every local maximum
   * either returned or suppressed by a kept one at least as high; and a highest local
   * maximum always kept.
   */
  ghost predicate PeakPicking(y: seq<real>, minDistance: int, peaks: seq<int>)
  {
    && (|y| < 3 ==> peaks == [])
    && (forall k :: 0 <= k < |peaks| ==> IsLocalMax(y, peaks[k]))
    && (forall i, j :: 0 <= i < j < |peaks| ==> peaks[i] < peaks[j])
    && (minDistance >= 1 ==> forall i, j :: 0 <= i < j < |peaks| ==> peaks[j] - peaks[i] >= minDistance)
    && (minDistance < 1 ==> forall c :: IsLocalMax(y, c) <==> c in peaks)
    && (forall c :: IsLocalMax(y, c) ==> c in peaks || Suppressed(y, peaks, c, minDistance))
    && ((exists c :: IsLocalMax(y, c)) ==>
          exists k :: k in peaks && IsLocalMax(y, k) && forall c :: IsLocalMax(y, c) ==> y[k] >= y[c])
  }

  /**
   * `_find_peaks_simple`: local maxima of `intensity`, thinned greedily from the highest
   * down (a candidate closer than `minDistance` samples to one already kept is dropped),
   * returned in ascending order.
   */
  method FindPeaksSimple(y: seq<real>, minDistance: int) returns (peaks: seq<int>)
    ensures PeakPicking(y, minDistance, peaks)
  {
    if |y| < 3 {
      assert !exists c :: IsLocalMax(y, c);
      return [];
    }
    var candidates := LocalMaxima(y);
    if candidates == [] {
      assert !exists c :: IsLocalMax(y, c);
      return [];
    }
    var order := SortBy(candidates, HigherFirst(y));
    OrderOfCandidates(y, candidates, order);
    var kept := SuppressNonMaxima(y, order, minDistance);
    peaks := SortBy(kept, Ascending);
    PeaksFromKept(y, order, kept, peaks, minDistance);
  }

  /** The candidates in descending-intensity order: distinct, and exactly the local maxima. */
  lemma OrderOfCandidates(y: seq<real>, candidates: seq<int>, order: seq<int>)
    requires forall a, b :: 0 <= a < b < |candidates| ==> candidates[a] < candidates[b]
    requires forall k :: 0 <= k < |candidates| ==> IsLocalMax(y, candidates[k])
    requires forall c :: IsLocalMax(y, c) ==> c in candidates
    requires order == SortBy(candidates, HigherFirst(y))
    ensures Sorted(order, HigherFirst(y)) && Distinct(order)
    ensures forall c :: IsLocalMax(y, c) <==> c in order
  {
    assert TotalPreorder(HigherFirst(y));
    assert Distinct(candidates);
    DistinctPermutation(candidates, order);
    SameElements(candidates, order);
  }

  /** What the greedy pass guarantees, carried over to the ascending result. */
  lemma PeaksFromKept(y: seq<real>, order: seq<int>, kept: seq<int>, peaks: seq<int>, d: int)
    requires Sorted(order, HigherFirst(y)) && forall c :: IsLocalMax(y, c) <==> c in order
    requires order != [] && order[0] in kept
    requires Distinct(kept) && forall k :: k in kept ==> k in order
    requires forall a, b :: a in kept && b in kept && a != b ==> a - b >= d || b - a >= d
    requires forall m :: 0 <= m < |order| ==> order[m] in kept || Suppressed(y, kept, order[m], d)
    requires d < 1 ==> kept == order
    requires peaks == SortBy(kept, Ascending)
    ensures forall k :: 0 <= k < |peaks| ==> IsLocalMax(y, peaks[k])
    ensures forall i, j :: 0 <= i < j < |peaks| ==> peaks[i] < peaks[j]
    ensures d >= 1 ==> forall i, j :: 0 <= i < j < |peaks| ==> peaks[j] - peaks[i] >= d
    ensures d < 1 ==> forall c :: IsLocalMax(y, c) <==> c in peaks
    ensures forall c :: IsLocalMax(y, c) ==> c in peaks || Suppressed(y, peaks, c, d)
    ensures exists k :: k in peaks && IsLocalMax(y, k) && forall c :: IsLocalMax(y, c) ==> y[k] >= y[c]
  {
    assert TotalPreorder(Ascending);
    SameElements(kept, peaks);
    assert forall k :: 0 <= k < |order| ==> IsLocalMax(y, order[k]);
    PeaksShape(y, order, kept, peaks, d);
    PeaksCover(y, order, kept, peaks, d);
    PeaksKeepHighest(y, order, kept, peaks);
    ghost var top := order[0];
    assert top in peaks && IsLocalMax(y, top) && forall c :: IsLocalMax(y, c) ==> y[top] >= y[c];
  }

  lemma PeaksShape(y: seq<real>, candidates: seq<int>, kept: seq<int>, peaks: seq<int>, d: int)
    requires forall k :: 0 <= k < |candidates| ==> IsLocalMax(y, candidates[k])
    requires forall k :: k in kept ==> k in candidates
    requires Distinct(kept)
    requires forall a, b :: a in kept && b in kept && a != b ==> a - b >= d || b - a >= d
    requires multiset(peaks) == multiset(kept) && Sorted(peaks, Ascending)
    ensures forall k :: 0 <= k < |peaks| ==> IsLocalMax(y, peaks[k])
    ensures forall i, j :: 0 <= i < j < |peaks| ==> peaks[i] < peaks[j]
    ensures d >= 1 ==> forall i, j :: 0 <= i < j < |peaks| ==> peaks[j] - peaks[i] >= d
  {
    DistinctPermutation(kept, peaks);
    StrictlyAscending(peaks);
    SameElements(kept, peaks);
    forall k | 0 <= k < |peaks| ensures IsLocalMax(y, peaks[k]) {
      assert peaks[k] in kept;
      var m :| 0 <= m < |candidates| && candidates[m] == peaks[k];
    }
    forall i, j | 0 <= i < j < |peaks| && d >= 1 ensures peaks[j] - peaks[i] >= d {
      assert peaks[i] in kept && peaks[j] in kept && peaks[i] < peaks[j];
    }
  }

  lemma PeaksCover(y: seq<real>, order: seq<int>, kept: seq<int>, peaks: seq<int>, d: int)
    requires forall c :: IsLocalMax(y, c) <==> c in order
    requires forall m :: 0 <= m < |order| ==> order[m] in kept || Suppressed(y, kept, order[m], d)
    requires d < 1 ==> kept == order
    requires forall x :: x in kept <==> x in peaks
    ensures d < 1 ==> forall c :: IsLocalMax(y, c) <==> c in peaks
    ensures forall c :: IsLocalMax(y, c) ==> c in peaks || Suppressed(y, peaks, c, d)
  {
    forall c | IsLocalMax(y, c) ensures c in peaks || Suppressed(y, peaks, c, d) {
      var m :| 0 <= m < |order| && order[m] == c;
      if c !in kept {
        var k :| k in kept && k - d < c < k + d && Height(y, k) >= Height(y, c);
        assert k in peaks;
      }
    }
  }

  lemma PeaksKeepHighest(y: seq<real>, order: seq<int>, kept: seq<int>, peaks: seq<int>)
    requires forall c :: IsLocalMax(y, c) <==> c in order
    requires Sorted(order, HigherFirst(y))
    requires |order| > 0 && order[0] in kept
    requires forall x :: x in kept <==> x in peaks
    ensures order[0] in peaks && IsLocalMax(y, order[0])
    ensures forall c :: IsLocalMax(y, c) ==> y[order[0]] >= y[c]
  {
    assert IsLocalMax(y, order[0]);
    forall c | IsLocalMax(y, c) ensures y[order[0]] >= y[c] {
      var m :| 0 <= m < |order| && order[m] == c;
      if m > 0 {
        assert HigherFirst(y)(order[0], order[m]);
      }
    }
  }

  /** What holds of every element holds of every element of a permutation. */
  lemma AllPermuted<T>(a: seq<T>, b: seq<T>, p: T -> bool)
    requires multiset(a) == multiset(b)
    requires forall k :: 0 <= k < |a| ==> p(a[k])
    ensures forall k :: 0 <= k < |b| ==> p(b[k])
  {
    forall k | 0 <= k < |b| ensures p(b[k]) {
      assert b[k] in multiset(a);
      var j :| 0 <= j < |a| && a[j] == b[k];
    }
  }

  /** Two sequences with the same multiset have the same elements. */
  lemma SameElements<T>(a: seq<T>, b: seq<T>)
    requires multiset(a) == multiset(b)
    ensures forall x :: x in a <==> x in b
  {
    forall x ensures x in a <==> x in b {
      assert x in a <==> x in multiset(a);
      assert x in b <==> x in multiset(b);
    }
  }

  // ---------------------------------------------------------------------------
  // smooth_data
  // ---------------------------------------------------------------------------

  /** What `smooth_data` does with data of length n and a requested window. */
  datatype SmoothPlan = Unchanged | Filter(window: int)

  /** An even window is widened by one. */
  function OddUp(w: int): (r: int)
    ensures r % 2 == 1 && (r == w || r == w + 1)
  {
    if w % 2 == 0 then w + 1 else w
  }

  /**
   * The window rules of `smooth_data`: data shorter than the window is returned as is; an
   * even window is made odd; a window that does not fit is replaced by the largest odd
   * number below the length, and the data is returned as is when that is below 3.
   */
  function SmoothWindow(n: nat, windowSize: int): (p: SmoothPlan)
    ensures p.Unchanged? <==> n < windowSize || (OddUp(windowSize) >= n && n <= 3)
    ensures p.Filter? ==> p.window % 2 == 1 && p.window < n
    ensures p.Filter? && OddUp(windowSize) < n ==> p.window == OddUp(windowSize)
    ensures p.Filter? && OddUp(windowSize) >= n ==> 3 <= p.window && n - 2 <= p.window
  {
    if n < windowSize then Unchanged
    else
      var w := OddUp(windowSize);
      if w >= n then
        var clamped := if n % 2 == 0 then n - 1 else n - 2;
        if clamped < 3 then Unchanged else Filter(clamped)
      else Filter(w)
  }

  /**
   * `smooth_data`. `savgol(d, w)` is SciPy's Savitzky-Golay filter of order 2, None where it
   * raises; `movingAverage(d, w)` is the moving-average fallback. A negative window makes the
   * fallback itself raise, so the window is required to be non-negative.
   */
  function SmoothData(data: Option<seq<real>>, windowSize: int,
                      savgol: (seq<real>, int) -> Option<seq<real>>,
                      movingAverage: (seq<real>, int) -> seq<real>): (r: Option<seq<real>>)
    requires windowSize >= 0
    ensures data.None? ==> r.None?
    ensures data.Some? && |data.value| < windowSize ==> r == data
    ensures data.Some? && SmoothWindow(|data.value|, windowSize).Unchanged? ==> r == data
    ensures data.Some? && SmoothWindow(|data.value|, windowSize).Filter? ==>
      var w := SmoothWindow(|data.value|, windowSize).window;
      1 <= w < |data.value| && w % 2 == 1 &&
      r == (if savgol(data.value, w).Some? then savgol(data.value, w)
            else Some(movingAverage(data.value, w)))
  {
    match data
    case None => None
    case Some(d) =>
      match SmoothWindow(|d|, windowSize)
      case Unchanged => data
      case Filter(w) =>
        match savgol(d, w)
        case Some(smoothed) => Some(smoothed)
        case None => Some(movingAverage(d, w))
  }

  // ---------------------------------------------------------------------------
  // calculate_peak_area
  // ---------------------------------------------------------------------------

  /** The time mask: `start_time <= t` and `t <= end_time`, each bound only when given. */
  predicate InWindow(t: real, start: Option<real>, end: Option<real>)
  {
    (start.None? || start.value <= t) && (end.None? || t <= end.value)
  }

  /** Number of samples inside the window. */
  function CountInWindow(times: seq<real>, start: Option<real>, end: Option<real>): (c: nat)
    ensures c <= |times|
  {
    if times == [] then 0
    else (if InWindow(times[0], start, end) then 1 else 0) + CountInWindow(times[1..], start, end)
  }

  /** Times and intensities restricted to the samples inside the window, in order. */
  function Windowed(times: seq<real>, ys: seq<real>, start: Option<real>, end: Option<real>)
    : (r: (seq<real>, seq<real>))
    requires |times| == |ys|
    ensures |r.0| == |r.1| == CountInWindow(times, start, end)
    ensures forall k :: 0 <= k < |r.0| ==> InWindow(r.0[k], start, end) && r.0[k] in times
    ensures start.None? && end.None? ==> r == (times, ys)
  {
    if times == [] then ([], [])
    else
      var rest := Windowed(times[1..], ys[1..], start, end);
      assert times == [times[0]] + times[1..] && ys == [ys[0]] + ys[1..];
      if InWindow(times[0], start, end) then ([times[0]] + rest.0, [ys[0]] + rest.1)
      else rest
  }

  /** The composite trapezoidal rule of `integrate.trapezoid(y, x)`. */
  function Trapezoid(x: seq<real>, y: seq<real>): real
    requires |x| == |y|
  {
    if |x| < 2 then 0.0
    else (x[1] - x[0]) * (y[0] + y[1]) / 2.0 + Trapezoid(x[1..], y[1..])
  }

  /** `calculate_peak_area`: arrays are None when missing. */
  function PeakArea(times: Option<seq<real>>, ys: Option<seq<real>>,
                    start: Option<real>, end: Option<real>): (area: real)
    ensures times.None? || ys.None? ==> area == 0.0
    ensures times.Some? && ys.Some? && |times.value| != |ys.value| ==> area == 0.0
    ensures times.Some? && ys.Some? && CountInWindow(times.value, start, end) < 2 ==> area == 0.0
  {
    if times.None? || ys.None? || |times.value| != |ys.value| then 0.0
    else
      var w := Windowed(times.value, ys.value, start, end);
      if |w.0| < 2 then 0.0 else Trapezoid(w.0, w.1)
  }

  /** Intensities of samples outside the window never affect the windowed data. */
  lemma {:induction false} WindowedIgnoresOutside(times: seq<real>, ys: seq<real>, zs: seq<real>,
                                                  start: Option<real>, end: Option<real>)
    requires |times| == |ys| == |zs|
    requires forall i :: 0 <= i < |times| && InWindow(times[i], start, end) ==> ys[i] == zs[i]
    ensures Windowed(times, ys, start, end) == Windowed(times, zs, start, end)
  {
    if times != [] {
      WindowedIgnoresOutside(times[1..], ys[1..], zs[1..], start, end);
    }
  }

  /** Only samples with start <= t <= end contribute to the area. */
  lemma AreaIgnoresOutside(times: seq<real>, ys: seq<real>, zs: seq<real>,
                           start: Option<real>, end: Option<real>)
    requires |times| == |ys| == |zs|
    requires forall i :: 0 <= i < |times| && InWindow(times[i], start, end) ==> ys[i] == zs[i]
    ensures PeakArea(Some(times), Some(ys), start, end) == PeakArea(Some(times), Some(zs), start, end)
  {
    WindowedIgnoresOutside(times, ys, zs, start, end);
  }

  /** Windowing once more with the same bounds changes nothing. */
  lemma {:induction false} WindowedIdempotent(times: seq<real>, ys: seq<real>,
                                              start: Option<real>, end: Option<real>)
    requires |times| == |ys|
    ensures var w := Windowed(times, ys, start, end);
      Windowed(w.0, w.1, start, end) == w
  {
    if times != [] {
      WindowedIdempotent(times[1..], ys[1..], start, end);
    }
  }

  /** The area over a window equals the unwindowed area of the windowed samples. */
  lemma AreaOfWindow(times: seq<real>, ys: seq<real>, start: Option<real>, end: Option<real>)
    requires |times| == |ys|
    ensures var w := Windowed(times, ys, start, end);
      PeakArea(Some(times), Some(ys), start, end) == PeakArea(Some(w.0), Some(w.1), None, None)
  {
  }

  predicate NonDecreasing(x: seq<real>)
  {
    forall i, j :: 0 <= i < j < |x| ==> x[i] <= x[j]
  }

  lemma {:induction false} WindowedNonDecreasing(times: seq<real>, ys: seq<real>,
                                                 start: Option<real>, end: Option<real>)
    requires |times| == |ys| && NonDecreasing(times)
    ensures NonDecreasing(Windowed(times, ys, start, end).0)
  {
    if times != [] {
      assert NonDecreasing(times[1..]) by {
        forall i, j | 0 <= i < j < |times[1..]| ensures times[1..][i] <= times[1..][j] {
          assert times[i + 1] <= times[j + 1];
        }
      }
      WindowedNonDecreasing(times[1..], ys[1..], start, end);
      var rest := Windowed(times[1..], ys[1..], start, end);
      forall k | 0 <= k < |rest.0| ensures times[0] <= rest.0[k] {
        var m :| 0 <= m < |times[1..]| && times[1..][m] == rest.0[k];
        assert times[0] <= times[m + 1];
      }
      ConsNonDecreasing(times[0], rest.0);
    }
  }

  /** A value no larger than any element of a non-decreasing sequence can go in front. */
  lemma ConsNonDecreasing(x: real, s: seq<real>)
    requires NonDecreasing(s) && forall k :: 0 <= k < |s| ==> x <= s[k]
    ensures NonDecreasing([x] + s)
  {
    forall i, j | 0 <= i < j < |[x] + s| ensures ([x] + s)[i] <= ([x] + s)[j] {
      assert ([x] + s)[j] == s[j - 1];
      if i > 0 {
        assert ([x] + s)[i] == s[i - 1];
      }
    }
  }

  lemma {:induction false} TrapezoidNonnegative(x: seq<real>, y: seq<real>)
    requires |x| == |y| && NonDecreasing(x)
    requires forall k :: 0 <= k < |y| ==> y[k] >= 0.0
    ensures Trapezoid(x, y) >= 0.0
  {
    if |x| >= 2 {
      assert x[0] <= x[1];
      assert (x[1] - x[0]) * (y[0] + y[1]) >= 0.0;
      assert NonDecreasing(x[1..]) by {
        forall i, j | 0 <= i < j < |x[1..]| ensures x[1..][i] <= x[1..][j] {
          assert x[i + 1] <= x[j + 1];
        }
      }
      TrapezoidNonnegative(x[1..], y[1..]);
    }
  }

  /** Over ascending times and non-negative intensities the area is non-negative. */
  lemma AreaNonnegative(times: seq<real>, ys: seq<real>, start: Option<real>, end: Option<real>)
    requires |times| == |ys| && NonDecreasing(times)
    requires forall k :: 0 <= k < |ys| ==> ys[k] >= 0.0
    ensures PeakArea(Some(times), Some(ys), start, end) >= 0.0
  {
    WindowedNonDecreasing(times, ys, start, end);
    WindowedNonnegative(times, ys, start, end);
    var w := Windowed(times, ys, start, end);
    TrapezoidNonnegative(w.0, w.1);
  }

  lemma {:induction false} WindowedNonnegative(times: seq<real>, ys: seq<real>,
                                               start: Option<real>, end: Option<real>)
    requires |times| == |ys|
    requires forall k :: 0 <= k < |ys| ==> ys[k] >= 0.0
    ensures forall k :: 0 <= k < |Windowed(times, ys, start, end).1| ==>
      Windowed(times, ys, start, end).1[k] >= 0.0
  {
    if times != [] {
      WindowedNonnegative(times[1..], ys[1..], start, end);
    }
  }

  // ---------------------------------------------------------------------------
  // detect_singly_charged and get_theoretical_mz
  // ---------------------------------------------------------------------------

  /** The proton mass: monoisotopic 1.007276, otherwise the average 1.00784. */
  function ProtonMass(monoisotopic: bool): real
  {
    if monoisotopic then 1.007276 else 1.00784
  }

  /** A picked peak: its (centroided) m/z and its smoothed intensity. */
  datatype Peak = Peak(mz: real, intensity: real)

  /** A reported z = 1 species. */
  datatype Species = Species(mass: real, mz: real, intensity: real, charges: seq<int>)

  /** `reverse=True` sort on intensity. */
  predicate IntensityFirst(a: Species, b: Species)
  {
    a.intensity >= b.intensity
  }

  /** `min_distance_pts`: pwhh over the m/z resolution, truncated, at least 2. */
  function MinDistancePts(pwhh: real, resolution: real): (d: int)
    ensures d >= 2
    ensures resolution > 0.0 && pwhh / resolution >= 2.0 ==> d == (pwhh / resolution).Floor
    ensures !(resolution > 0.0 && pwhh / resolution >= 2.0) ==> d == 2
  {
    if resolution > 0.0 then
      var q := (pwhh / resolution).Floor;
      if q >= 2 then q else 2
    else 2
  }

  /** `mz_min <= mz <= mz_max` for one of the excluded ranges. */
  predicate Excluded(ranges: seq<(real, real)>, mz: real)
  {
    exists k :: 0 <= k < |ranges| && ranges[k].0 <= mz <= ranges[k].1
  }

  /** The first loop: picked peaks at or above the noise cutoff, in index order. */
  function AboveNoise(found: seq<int>, inten: seq<real>, centroid: int -> real, noiseCutoff: real)
    : (ps: seq<Peak>)
    requires forall k :: 0 <= k < |found| ==> 0 <= found[k] < |inten|
    ensures forall k :: 0 <= k < |ps| ==> ps[k].intensity >= noiseCutoff
  {
    if found == [] then []
    else
      var init := AboveNoise(found[..|found| - 1], inten, centroid, noiseCutoff);
      var idx := found[|found| - 1];
      if inten[idx] < noiseCutoff then init else init + [Peak(centroid(idx), inten[idx])]
  }

  /** The base peak intensity `max(p['intensity'] for p in peaks)`. */
  function MaxIntensity(ps: seq<Peak>): (m: real)
    requires ps != []
    ensures forall k :: 0 <= k < |ps| ==> ps[k].intensity <= m
    ensures exists k :: 0 <= k < |ps| && ps[k].intensity == m
  {
    if |ps| == 1 then ps[0].intensity
    else
      var rest := MaxIntensity(ps[1..]);
      assert forall k :: 1 <= k < |ps| ==> ps[k] == ps[1..][k - 1];
      if ps[0].intensity >= rest then ps[0].intensity else rest
  }

  /** `max_intensity * min_intensity_pct / 100.0`. */
  function PercentOf(x: real, pct: real): real
  {
    x * pct / 100.0
  }

  /** Whether a peak is reported, and the species it becomes. */
  predicate Reported(p: Peak, minIntensity: real, lowMw: real, highMw: real,
                     exclude: seq<(real, real)>, proton: real)
  {
    && p.intensity >= minIntensity
    && lowMw <= p.mz - proton <= highMw
    && !Excluded(exclude, p.mz)
  }

  function SpeciesOf(p: Peak, proton: real): Species
  {
    Species(p.mz - proton, p.mz, p.intensity, [1])
  }

  /** The second loop: the peaks that pass every filter, as z = 1 species, in order. */
  function ReportedSpecies(ps: seq<Peak>, minIntensity: real, lowMw: real, highMw: real,
                           exclude: seq<(real, real)>, proton: real): (rs: seq<Species>)
    ensures |rs| <= |ps|
  {
    if ps == [] then []
    else
      var init := ReportedSpecies(ps[..|ps| - 1], minIntensity, lowMw, highMw, exclude, proton);
      var p := ps[|ps| - 1];
      if Reported(p, minIntensity, lowMw, highMw, exclude, proton) then init + [SpeciesOf(p, proton)]
      else init
  }

  /** The loop over `peak_idx` keeping the peaks at or above the noise cutoff. */
  method CollectAboveNoise(peakIdx: seq<int>, inten: seq<real>, centroid: int -> real, noiseCutoff: real)
    returns (peaks: seq<Peak>)
    requires forall k :: 0 <= k < |peakIdx| ==> 0 <= peakIdx[k] < |inten|
    ensures peaks == AboveNoise(peakIdx, inten, centroid, noiseCutoff)
  {
    peaks := [];
    var i := 0;
    while i < |peakIdx|
      invariant 0 <= i <= |peakIdx|
      invariant peaks == AboveNoise(peakIdx[..i], inten, centroid, noiseCutoff)
    {
      var idx := peakIdx[i];
      assert peakIdx[..i + 1][..i] == peakIdx[..i];
      if inten[idx] >= noiseCutoff {
        peaks := peaks + [Peak(centroid(idx), inten[idx])];
      }
      i := i + 1;
    }
    assert peakIdx[..i] == peakIdx;
  }

  /** `max(p['intensity'] for p in peaks)`. */
  method BaseIntensity(peaks: seq<Peak>) returns (maxIntensity: real)
    requires peaks != []
    ensures maxIntensity == MaxIntensity(peaks)
  {
    maxIntensity := peaks[0].intensity;
    var m := 1;
    while m < |peaks|
      invariant 1 <= m <= |peaks|
      invariant forall k :: 0 <= k < m ==> peaks[k].intensity <= maxIntensity
      invariant exists k :: 0 <= k < m && peaks[k].intensity == maxIntensity
    {
      if peaks[m].intensity > maxIntensity {
        maxIntensity := peaks[m].intensity;
      }
      m := m + 1;
    }
  }

  /** The inner `for mz_min, mz_max in exclude_mz_ranges` loop. */
  method InExcludedRange(ranges: seq<(real, real)>, mz: real) returns (excluded: bool)
    ensures excluded <==> Excluded(ranges, mz)
  {
    excluded := false;
    var e := 0;
    while e < |ranges|
      invariant 0 <= e <= |ranges|
      invariant !exists k :: 0 <= k < e && ranges[k].0 <= mz <= ranges[k].1
    {
      if ranges[e].0 <= mz <= ranges[e].1 {
        return true;
      }
      e := e + 1;
    }
  }

  /** The loop building `results` from the peaks above noise. */
  method CollectReported(peaks: seq<Peak>, minIntensity: real, lowMw: real, highMw: real,
                         exclude: seq<(real, real)>, proton: real) returns (species: seq<Species>)
    ensures species == ReportedSpecies(peaks, minIntensity, lowMw, highMw, exclude, proton)
  {
    species := [];
    var j := 0;
    while j < |peaks|
      invariant 0 <= j <= |peaks|
      invariant species == ReportedSpecies(peaks[..j], minIntensity, lowMw, highMw, exclude, proton)
    {
      var p := peaks[j];
      assert peaks[..j + 1][..j] == peaks[..j];
      var keep := p.intensity >= minIntensity && lowMw <= p.mz - proton <= highMw;
      if keep && |exclude| > 0 {
        var excluded := InExcludedRange(exclude, p.mz);
        keep := !excluded;
      }
      if keep {
        species := species + [SpeciesOf(p, proton)];
      }
      j := j + 1;
    }
    assert peaks[..j] == peaks;
  }

  /**
   * A species as reported: charge state [1], mass in range and equal to m/z minus the proton,
   * m/z outside the excluded ranges, intensity at least `floor` and the noise cutoff.
   */
  predicate ValidSpecies(s: Species, lowMw: real, highMw: real, exclude: seq<(real, real)>,
                         proton: real, floor: real, noiseCutoff: real)
  {
    && s.charges == [1]
    && lowMw <= s.mass <= highMw
    && s.mass == s.mz - proton
    && !Excluded(exclude, s.mz)
    && s.intensity >= floor
    && s.intensity >= noiseCutoff
  }

  /** Each reported species is valid. */
  lemma {:induction false} ReportedSpeciesBounds(ps: seq<Peak>, minIntensity: real, lowMw: real, highMw: real,
                              exclude: seq<(real, real)>, proton: real, noiseCutoff: real)
    requires forall k :: 0 <= k < |ps| ==> ps[k].intensity >= noiseCutoff
    ensures forall k :: 0 <= k < |ReportedSpecies(ps, minIntensity, lowMw, highMw, exclude, proton)| ==>
      ValidSpecies(ReportedSpecies(ps, minIntensity, lowMw, highMw, exclude, proton)[k],
                   lowMw, highMw, exclude, proton, minIntensity, noiseCutoff)
  {
    if ps != [] {
      var init := ps[..|ps| - 1];
      forall j | 0 <= j < |init| ensures init[j].intensity >= noiseCutoff {
        assert init[j] == ps[j];
      }
      ReportedSpeciesBounds(init, minIntensity, lowMw, highMw, exclude, proton, noiseCutoff);
      var p := ps[|ps| - 1];
      var before := ReportedSpecies(init, minIntensity, lowMw, highMw, exclude, proton);
      var rs := ReportedSpecies(ps, minIntensity, lowMw, highMw, exclude, proton);
      assert rs == if Reported(p, minIntensity, lowMw, highMw, exclude, proton)
                   then before + [SpeciesOf(p, proton)] else before;
      assert p.intensity >= noiseCutoff;
      forall k | 0 <= k < |rs| ensures ValidSpecies(rs[k], lowMw, highMw, exclude, proton, minIntensity, noiseCutoff) {
        if k < |before| {
          assert rs[k] == before[k];
          assert ValidSpecies(before[k], lowMw, highMw, exclude, proton, minIntensity, noiseCutoff);
        } else {
          assert Reported(p, minIntensity, lowMw, highMw, exclude, proton);
          assert rs[k] == SpeciesOf(p, proton);
        }
      }
    }
  }

  /** Each picked peak at or above the noise cutoff is among the peaks kept. */
  lemma {:induction false} AboveNoiseComplete(found: seq<int>, inten: seq<real>, centroid: int -> real,
                                              noiseCutoff: real)
    requires forall k :: 0 <= k < |found| ==> 0 <= found[k] < |inten|
    ensures forall j :: 0 <= j < |found| && inten[found[j]] >= noiseCutoff ==>
      Peak(centroid(found[j]), inten[found[j]]) in AboveNoise(found, inten, centroid, noiseCutoff)
  {
    if found != [] {
      var init := found[..|found| - 1];
      AboveNoiseComplete(init, inten, centroid, noiseCutoff);
      forall j | 0 <= j < |found| - 1 ensures found[j] == init[j] {
      }
    }
  }

  /** The picked peaks, one per index in `found`. */
  function PeaksAt(found: seq<int>, inten: seq<real>, centroid: int -> real): (ps: seq<Peak>)
    requires forall k :: 0 <= k < |found| ==> 0 <= found[k] < |inten|
    ensures |ps| == |found|
  {
    seq(|found|, k requires 0 <= k < |found| => Peak(centroid(found[k]), inten[found[k]]))
  }

  /** Each picked peak at or above the cutoff is kept as many times as it is picked; no other is. */
  lemma {:induction false} AboveNoiseCounts(found: seq<int>, inten: seq<real>, centroid: int -> real,
                                            noiseCutoff: real)
    requires forall k :: 0 <= k < |found| ==> 0 <= found[k] < |inten|
    ensures forall p :: multiset(AboveNoise(found, inten, centroid, noiseCutoff))[p]
                     == if p.intensity >= noiseCutoff then multiset(PeaksAt(found, inten, centroid))[p] else 0
  {
    if found != [] {
      var init := found[..|found| - 1];
      var idx := found[|found| - 1];
      var last := Peak(centroid(idx), inten[idx]);
      AboveNoiseCounts(init, inten, centroid, noiseCutoff);
      assert PeaksAt(found, inten, centroid) == PeaksAt(init, inten, centroid) + [last];
      assert multiset(PeaksAt(found, inten, centroid)) == multiset(PeaksAt(init, inten, centroid)) + multiset{last};
    }
  }

  /** The peak a z = 1 species comes from. */
  function SourcePeak(s: Species): Peak
  {
    Peak(s.mz, s.intensity)
  }

  /**
   * A species is reported as many times as its peak occurs, when its peak passes every
   * filter and it is that peak's z = 1 species; otherwise it is not reported.
   */
  lemma {:induction false} ReportedSpeciesCounts(ps: seq<Peak>, minIntensity: real, lowMw: real, highMw: real,
                                                 exclude: seq<(real, real)>, proton: real)
    ensures forall s :: (multiset(ReportedSpecies(ps, minIntensity, lowMw, highMw, exclude, proton))[s]
      == if s == SpeciesOf(SourcePeak(s), proton) && Reported(SourcePeak(s), minIntensity, lowMw, highMw, exclude, proton)
         then multiset(ps)[SourcePeak(s)] else 0)
  {
    if ps != [] {
      var init := ps[..|ps| - 1];
      var p := ps[|ps| - 1];
      ReportedSpeciesCounts(init, minIntensity, lowMw, highMw, exclude, proton);
      assert ps == init + [p];
      assert multiset(ps) == multiset(init) + multiset{p};
      var rs := ReportedSpecies(ps, minIntensity, lowMw, highMw, exclude, proton);
      var before := ReportedSpecies(init, minIntensity, lowMw, highMw, exclude, proton);
      if Reported(p, minIntensity, lowMw, highMw, exclude, proton) {
        assert rs == before + [SpeciesOf(p, proton)];
        assert multiset(rs) == multiset(before) + multiset{SpeciesOf(p, proton)};
        assert SourcePeak(SpeciesOf(p, proton)) == p;
        forall s ensures s == SpeciesOf(p, proton) <==> s == SpeciesOf(SourcePeak(s), proton) && SourcePeak(s) == p {
        }
      } else {
        assert rs == before;
        forall s | s == SpeciesOf(SourcePeak(s), proton) && Reported(SourcePeak(s), minIntensity, lowMw, highMw, exclude, proton)
          ensures SourcePeak(s) != p {
        }
      }
    }
  }

  /** Every peak that passes all filters is reported. */
  lemma {:induction false} ReportedSpeciesComplete(ps: seq<Peak>, minIntensity: real, lowMw: real, highMw: real,
                                                   exclude: seq<(real, real)>, proton: real)
    ensures forall j :: 0 <= j < |ps| && Reported(ps[j], minIntensity, lowMw, highMw, exclude, proton) ==>
      SpeciesOf(ps[j], proton) in ReportedSpecies(ps, minIntensity, lowMw, highMw, exclude, proton)
  {
    if ps != [] {
      var init := ps[..|ps| - 1];
      ReportedSpeciesComplete(init, minIntensity, lowMw, highMw, exclude, proton);
      forall j | 0 <= j < |ps| - 1 ensures ps[j] == init[j] {
      }
    }
  }

  /** What `detect_singly_charged` reports for the indices `found` of the picked peaks. */
  method ReportPeaks(found: seq<int>, inten: seq<real>, centroid: int -> real, noiseCutoff: real,
                     minIntensityPct: real, lowMw: real, highMw: real, exclude: seq<(real, real)>,
                     proton: real) returns (results: seq<Species>)
    requires forall k :: 0 <= k < |found| ==> 0 <= found[k] < |inten|
    ensures Sorted(results, IntensityFirst)
    ensures var ps := AboveNoise(found, inten, centroid, noiseCutoff);
      && (ps == [] ==> results == [])
      && (ps != [] ==>
            var cutoff := PercentOf(MaxIntensity(ps), minIntensityPct);
            && multiset(results) == multiset(ReportedSpecies(ps, cutoff, lowMw, highMw, exclude, proton))
            && forall k :: 0 <= k < |results| ==>
                 ValidSpecies(results[k], lowMw, highMw, exclude, proton, cutoff, noiseCutoff))
  {
    var peaks := CollectAboveNoise(found, inten, centroid, noiseCutoff);
    if peaks == [] {
      return [];
    }
    var maxIntensity := BaseIntensity(peaks);
    var minIntensity := PercentOf(maxIntensity, minIntensityPct);
    var unsorted := CollectReported(peaks, minIntensity, lowMw, highMw, exclude, proton);
    ReportedSpeciesBounds(peaks, minIntensity, lowMw, highMw, exclude, proton, noiseCutoff);
    results := SortBy(unsorted, IntensityFirst);
    assert TotalPreorder(IntensityFirst);
    AllPermuted(unsorted, results, s => ValidSpecies(s, lowMw, highMw, exclude, proton, minIntensity, noiseCutoff));
  }

  /**
   * The species reported for the picked peaks `found`: those above the noise cutoff and the
   * relative intensity cutoff that pass the mass and exclusion filters, each once, sorted by
   * falling intensity; nothing when no peak clears the noise cutoff.
   */
  predicate SinglyReport(found: seq<int>, inten: seq<real>, centroid: int -> real, noiseCutoff: real,
                         minIntensityPct: real, lowMw: real, highMw: real, exclude: seq<(real, real)>,
                         proton: real, results: seq<Species>)
  {
    && (forall k :: 0 <= k < |found| ==> 0 <= found[k] < |inten|)
    && Sorted(results, IntensityFirst)
    && var ps := AboveNoise(found, inten, centroid, noiseCutoff);
       && (ps == [] ==> results == [])
       && (ps != [] ==>
             var cutoff := PercentOf(MaxIntensity(ps), minIntensityPct);
             && multiset(results) == multiset(ReportedSpecies(ps, cutoff, lowMw, highMw, exclude, proton))
             && forall k :: 0 <= k < |results| ==>
                  ValidSpecies(results[k], lowMw, highMw, exclude, proton, cutoff, noiseCutoff))
  }

  /**
   * `detect_singly_charged`: the smoothed spectrum `inten` (smoothing is not modelled) is
   * peak-picked with `FindPeaksSimple`; `centroid(i)` is the parabolic centroid m/z of peak i;
   * `resolution` is the median m/z spacing (1.0 for a single point). The picked indices are
   * returned as `found`.
   */
  method DetectSinglyCharged(mz: seq<real>, inten: seq<real>, centroid: int -> real,
                             resolution: real, pwhh: real, noiseCutoff: real, minIntensityPct: real,
                             lowMw: real, highMw: real, exclude: seq<(real, real)>, monoisotopic: bool)
    returns (results: seq<Species>, found: seq<int>)
    ensures |mz| == 0 || |inten| == 0 ==> results == [] && found == []
    ensures forall k :: 0 <= k < |found| ==> IsLocalMax(inten, found[k])
    ensures forall k :: 0 <= k < |found| ==> 0 <= found[k] < |inten|
    ensures |mz| > 0 && |inten| > 0 ==> PeakPicking(inten, MinDistancePts(pwhh, resolution), found)
    ensures SinglyReport(found, inten, centroid, noiseCutoff, minIntensityPct, lowMw, highMw, exclude,
                         ProtonMass(monoisotopic), results)
  {
    found := [];
    if |mz| == 0 || |inten| == 0 {
      return [], found;
    }
    found := FindPeaksSimple(inten, MinDistancePts(pwhh, resolution));
    results := ReportPeaks(found, inten, centroid, noiseCutoff, minIntensityPct, lowMw, highMw, exclude,
                           ProtonMass(monoisotopic));
  }

  /** One entry of `get_theoretical_mz`. */
  datatype ChargeMz = ChargeMz(charge: int, mz: real)

  /** The neutral mass an ion of charge z at the given m/z carries. */
  function MassFromMz(mz: real, z: int, monoisotopic: bool): real
  {
    (z as real) * mz - (z as real) * ProtonMass(monoisotopic)
  }

  /**
   * `get_theoretical_mz`: the m/z `(mass + z * proton) / z` of each requested charge, in
   * order. A zero charge raises ZeroDivisionError in the source.
   */
  function TheoreticalMz(mass: real, charges: seq<int>, monoisotopic: bool): (r: seq<ChargeMz>)
    requires forall k :: 0 <= k < |charges| ==> charges[k] != 0
    ensures |r| == |charges|
    ensures forall k :: 0 <= k < |r| ==> r[k].charge == charges[k]
    ensures forall k :: 0 <= k < |r| ==> MassFromMz(r[k].mz, r[k].charge, monoisotopic) == mass
  {
    seq(|charges|, k requires 0 <= k < |charges| =>
      var z := charges[k] as real;
      var mz := (mass + z * ProtonMass(monoisotopic)) / z;
      assert z * mz == mass + z * ProtonMass(monoisotopic);
      ChargeMz(charges[k], mz))
  }

  /** Reading the mass back from a theoretical m/z and re-deriving the m/z is the identity. */
  lemma MzRoundTrip(mz: real, z: int, monoisotopic: bool)
    requires z != 0
    ensures TheoreticalMz(MassFromMz(mz, z, monoisotopic), [z], monoisotopic) == [ChargeMz(z, mz)]
  {
    var m := MassFromMz(mz, z, monoisotopic);
    var r := TheoreticalMz(m, [z], monoisotopic);
    var zr := z as real;
    assert zr * r[0].mz == zr * mz;
  }
}
