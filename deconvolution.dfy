/**
 * The decision rules of the charge-ladder deconvolution in backend/lcms_app/analysis.py
 * (`deconvolute_protein_local_lcms_machine_like`): the contiguity gates on a
 * candidate's charge states, the deferred, exclusive selection of candidate ion sets in
 * both passes, the final ordering, and the per-ion mass outlier mask. The numerical parts (ion matching, the component mass
 * estimate, the envelope fit, the median) are parameters or inputs.
 */
module Deconvolution {
  import opened Sorting

  // ---------------------------------------------------------------------------
  // Longest run of consecutive charge states
  // ---------------------------------------------------------------------------

  /** The charges at indices s .. e-1 go up by one at every step. */
  predicate Consecutive(c: seq<int>, s: int, e: int)
    requires 0 <= s <= e <= |c|
  {
    forall k :: s < k < e ==> c[k] == c[k - 1] + 1
  }

  /** A run cannot start before an index where the ladder breaks. */
  lemma RunStartsAtBreak(c: seq<int>, s: int, e: int, b: int)
    requires 0 <= s < e <= |c| && 0 <= b < e
    requires Consecutive(c, s, e)
    requires b == 0 || c[b] != c[b - 1] + 1
    ensures b <= s
  {
  }

  /**
   * The `longest`/`current` loop over the sorted charge states: the length of the longest
   * run of consecutive charges, 1 when there are none.
   */
  method LongestRun(c: seq<int>) returns (longest: int)
    ensures 1 <= longest && (|c| > 0 ==> longest <= |c|) && (|c| == 0 ==> longest == 1)
    ensures |c| > 0 ==> exists s, e :: 0 <= s < e <= |c| && e - s == longest && Consecutive(c, s, e)
    ensures forall s, e :: 0 <= s < e <= |c| && Consecutive(c, s, e) ==> e - s <= longest
  {
    longest := 1;
    if |c| == 0 {
      return;
    }
    var current := 1;
    var i := 1;
    ghost var best := 0;
    while i < |c|
      invariant 1 <= i <= |c|
      invariant 1 <= current <= i && current <= longest
      invariant Consecutive(c, i - current, i)
      invariant i - current == 0 || c[i - current] != c[i - current - 1] + 1
      invariant 0 <= best && best + longest <= i && Consecutive(c, best, best + longest)
      invariant forall s, e :: 0 <= s < e <= i && Consecutive(c, s, e) ==> e - s <= longest
    {
      ghost var before, prevLongest := current, longest;
      if c[i] == c[i - 1] + 1 {
        ConsecutiveExtend(c, i - current, i);
        current := current + 1;
        if current > longest {
          longest := current;
          best := i + 1 - current;
        }
      } else {
        current := 1;
      }
      RunsBounded(c, i, before, current, prevLongest, longest);
      i := i + 1;
    }
  }

  lemma ConsecutiveExtend(c: seq<int>, s: int, i: int)
    requires 0 <= s < i < |c| && Consecutive(c, s, i) && c[i] == c[i - 1] + 1
    ensures Consecutive(c, s, i + 1)
  {
  }

  /** After index i the bound on every run still holds, given the run that now ends there. */
  lemma RunsBounded(c: seq<int>, i: int, before: int, current: int, prevLongest: int, longest: int)
    requires 1 <= i < |c| && 1 <= before <= i
    requires Consecutive(c, i - before, i)
    requires i - before == 0 || c[i - before] != c[i - before - 1] + 1
    requires current == if c[i] == c[i - 1] + 1 then before + 1 else 1
    requires prevLongest <= longest && current <= longest
    requires forall s, e :: 0 <= s < e <= i && Consecutive(c, s, e) ==> e - s <= prevLongest
    ensures forall s, e :: 0 <= s < e <= i + 1 && Consecutive(c, s, e) ==> e - s <= longest
  {
    forall s, e | 0 <= s < e <= i + 1 && Consecutive(c, s, e) ensures e - s <= longest {
      if e == i + 1 && s < i {
        assert Consecutive(c, s, i);
        RunStartsAtBreak(c, s, i, i - before);
      }
    }
  }

  function Max(a: int, b: int): int { if a >= b then a else b }

  /**
   * The first-pass gate as written: reject when `contig_min > 1 and longest < contig_min`;
   * with at least 8 charges also when `longest < max(contig_min, 6)` or the ratio
   * longest / count is below 0.60; with 4 to 7 charges when `longest < 4` or the ratio is
   * below 0.60.
   */
  predicate FirstPassGate(longest: int, count: int, contigMin: int)
  {
    && !(contigMin > 1 && longest < contigMin)
    && (count >= 8 ==>
          !(longest < Max(contigMin, 6) || (longest as real) / (count as real) < 0.60))
    && (4 <= count < 8 ==>
          !(longest < 4 || (longest as real) / (count as real) < 0.60))
  }

  /** The shortest longest run the first-pass gate accepts for a ladder of `count` charges. */
  function MinRun(count: int, contigMin: int): int
  {
    var base := Max(contigMin, 1);
    if count >= 8 then Max(Max(base, 6), (3 * count + 4) / 5)
    else if count >= 4 then Max(Max(base, 4), (3 * count + 4) / 5)
    else base
  }

  /** The ratio test is the integer test 5 * longest >= 3 * count. */
  lemma RatioTest(longest: int, count: int)
    requires count > 0
    ensures (longest as real) / (count as real) < 0.60 <==> 5 * longest < 3 * count
  {
    var l, n := longest as real, count as real;
    assert l / n * n == l;
    if l / n < 0.60 {
      assert l < 0.60 * n;
    } else {
      assert l >= 0.60 * n;
    }
  }

  /** 5 * l >= 3 * n is l >= ceil(3n / 5). */
  lemma CeilingTest(l: int, count: int)
    ensures 5 * l >= 3 * count <==> l >= (3 * count + 4) / 5
  {
    var q := (3 * count + 4) / 5;
    assert 5 * q <= 3 * count + 4 < 5 * q + 5;
  }

  /** The gate accepts exactly the ladders whose longest run reaches MinRun. */
  lemma FirstPassGateMinRun(longest: int, count: int, contigMin: int)
    requires longest >= 1
    ensures FirstPassGate(longest, count, contigMin) <==> longest >= MinRun(count, contigMin)
  {
    if count >= 4 {
      RatioTest(longest, count);
      CeilingTest(longest, count);
    }
  }

  /** The first-pass contiguity check of a candidate's sorted, distinct charge states. */
  method ContiguityGate(charges: seq<int>, contigMin: int) returns (accept: bool)
    ensures |charges| > 0 ==> (accept <==>
      exists s, e :: 0 <= s < e <= |charges| && Consecutive(charges, s, e) &&
                     e - s >= MinRun(|charges|, contigMin))
    ensures |charges| == 0 ==> (accept <==> contigMin <= 1)
  {
    var longest := LongestRun(charges);
    accept := FirstPassGate(longest, |charges|, contigMin);
    FirstPassGateMinRun(longest, |charges|, contigMin);
  }

  /** The relaxed second-pass check: two or more charges need one consecutive pair. */
  method SecondPassGate(charges: seq<int>) returns (accept: bool)
    ensures accept <==> |charges| < 2 || exists k :: 0 < k < |charges| && charges[k] == charges[k - 1] + 1
  {
    accept := true;
    if |charges| >= 2 {
      var longest := LongestRun(charges);
      accept := longest >= 2;
      if accept {
        var s, e :| 0 <= s < e <= |charges| && e - s == longest && Consecutive(charges, s, e);
        assert charges[s + 1] == charges[s] + 1;
      }
      forall k | 0 < k < |charges| && charges[k] == charges[k - 1] + 1 ensures longest >= 2 {
        assert Consecutive(charges, k - 1, k + 1);
      }
    }
  }

  // ---------------------------------------------------------------------------
  // Deferred, exclusive selection of candidate ion sets
  // ---------------------------------------------------------------------------

  /**
   * A candidate component: its mass estimate, its sorted distinct charge states, its summed
   * intensity and the indices of the spectrum peaks it claims. A selected result carries the
   * same mass, charges and intensity as its candidate (the result's mass is re-estimated from
   * the same ions), so results are modelled as the candidates themselves.
   */
  datatype Candidate = Candidate(mass: real, charges: seq<int>, intensity: real, ions: set<int>)

  /** The sort key `(num_charges, intensity)` with `reverse=True`. */
  predicate QualityFirst(a: Candidate, b: Candidate)
  {
    |a.charges| > |b.charges| || (|a.charges| == |b.charges| && a.intensity >= b.intensity)
  }

  lemma QualityFirstTotal()
    ensures TotalPreorder(QualityFirst)
  {
  }

  function Abs(x: real): real { if x < 0.0 then -x else x }

  /** The two passes of `deconvolute_protein_local_lcms_machine_like` select under different rules. */
  datatype Pass = FirstPass | ResidualPass

  /**
   * `r` makes `c` a duplicate: in the first pass the masses agree within 0.005 % and the
   * charge states share a value; in the residual pass the masses agree within 0.1 %.
   */
  predicate Duplicate(pass: Pass, r: Candidate, c: Candidate)
  {
    && c.mass != 0.0
    && match pass
       case FirstPass =>
         Abs(r.mass - c.mass) / c.mass < 0.00005 && exists z :: z in r.charges && z in c.charges
       case ResidualPass =>
         Abs(r.mass - c.mass) / c.mass < 0.001
  }

  /** Fraction of the candidate's ions already claimed. */
  function OverlapRatio(ions: set<int>, used: set<int>): real
    requires ions != {}
  {
    (|ions * used| as real) / (|ions| as real)
  }

  /** The ions claimed by a list of selected candidates. */
  function Union(s: seq<Candidate>): set<int>
  {
    if s == [] then {} else Union(s[..|s| - 1]) + s[|s| - 1].ions
  }

  /** An ion is claimed exactly when one of the selected candidates holds it. */
  lemma {:induction false} UnionMembers(s: seq<Candidate>)
    ensures forall x :: x in Union(s) <==> exists k :: 0 <= k < |s| && x in s[k].ions
  {
    if s != [] {
      var init := s[..|s| - 1];
      UnionMembers(init);
      assert Union(s) == Union(init) + s[|s| - 1].ions;
      forall x | x in Union(s) ensures exists k :: 0 <= k < |s| && x in s[k].ions {
        if x !in s[|s| - 1].ions {
          var k :| 0 <= k < |init| && x in init[k].ions;
          assert s[k] == init[k];
        }
      }
      forall x, k | 0 <= k < |s| && x in s[k].ions ensures x in Union(s) {
        if k < |s| - 1 {
          assert init[k] == s[k];
        }
      }
    }
  }

  /**
   * Whether `c` is taken, given the results selected before it (`prior`, then the ones this
   * pass took, `chosen`). The first pass skips an empty ion set; the residual pass only
   * checks the overlap of a non-empty one.
   */
  predicate Admissible(pass: Pass, c: Candidate, prior: seq<Candidate>, chosen: seq<Candidate>, maxOverlap: real)
  {
    && (match pass
        case FirstPass => c.ions != {} && OverlapRatio(c.ions, Union(chosen)) <= maxOverlap
        case ResidualPass => c.ions == {} || OverlapRatio(c.ions, Union(chosen)) <= maxOverlap)
    && !exists r :: r in prior + chosen && Duplicate(pass, r, c)
  }

  /** The selection the loop makes: candidates in order, each taken when admissible. */
  function Select(pass: Pass, order: seq<Candidate>, maxOverlap: real,
                  prior: seq<Candidate>, chosen: seq<Candidate>): seq<Candidate>
    decreases |order|
  {
    if order == [] then chosen
    else if Admissible(pass, order[0], prior, chosen, maxOverlap) then
      Select(pass, order[1..], maxOverlap, prior, chosen + [order[0]])
    else Select(pass, order[1..], maxOverlap, prior, chosen)
  }

  /**
   * The inner `for r in results` loop: whether some earlier result duplicates c. The loop
   * divides by the candidate's mass, so `raises` says when its first step divides by zero.
   */
  method HasDuplicate(pass: Pass, results: seq<Candidate>, c: Candidate) returns (dup: bool, raises: bool)
    ensures raises <==> results != [] && c.mass == 0.0
    ensures raises ==> !dup
    ensures dup <==> exists r :: r in results && Duplicate(pass, r, c)
  {
    raises := results != [] && c.mass == 0.0;
    dup := false;
    var j := 0;
    while j < |results|
      invariant 0 <= j <= |results|
      invariant !exists r :: r in results[..j] && Duplicate(pass, r, c)
    {
      if Duplicate(pass, results[j], c) {
        dup := true;
        return;
      }
      assert results[..j + 1] == results[..j] + [results[j]];
      j := j + 1;
    }
    assert results[..j] == results;
  }

  /** The first-pass loop over the sorted candidates, growing `results` and `used_ions`. */
  method FirstPassSelection(order: seq<Candidate>, maxOverlap: real)
    returns (results: seq<Candidate>, used: set<int>)
    ensures results == Select(FirstPass, order, maxOverlap, [], [])
    ensures used == Union(results)
  {
    results := [];
    used := {};
    var i := 0;
    while i < |order|
      invariant 0 <= i <= |order|
      invariant Select(FirstPass, order[i..], maxOverlap, [], results) == Select(FirstPass, order, maxOverlap, [], [])
      invariant used == Union(results)
    {
      var c := order[i];
      assert order[i..][0] == c && order[i..][1..] == order[i + 1..];
      var fits := c.ions != {} && (|c.ions * used| as real) / (|c.ions| as real) <= maxOverlap;
      if fits {
        var dup, _ := HasDuplicate(FirstPass, results, c);
        if !dup {
          assert [] + results == results;
          assert (results + [c])[..|results + [c]| - 1] == results;
          results := results + [c];
          used := used + c.ions;
        }
      }
      i := i + 1;
    }
  }

  /**
   * The residual-pass loop: candidates built from the unclaimed peaks are appended to the
   * first-pass results; duplicates are checked against all results so far, overlap against
   * the ions this pass claimed (`used_residual`).
   */
  method ResidualSelection(order: seq<Candidate>, maxOverlap: real, earlier: seq<Candidate>)
    returns (results: seq<Candidate>, usedResidual: set<int>)
    ensures results == earlier + Select(ResidualPass, order, maxOverlap, earlier, [])
    ensures usedResidual == Union(results[|earlier|..])
  {
    results := earlier;
    ghost var chosen: seq<Candidate> := [];
    usedResidual := {};
    var i := 0;
    while i < |order|
      invariant 0 <= i <= |order|
      invariant results == earlier + chosen
      invariant Select(ResidualPass, order[i..], maxOverlap, earlier, chosen) ==
                Select(ResidualPass, order, maxOverlap, earlier, [])
      invariant usedResidual == Union(chosen)
    {
      var c := order[i];
      assert order[i..][0] == c && order[i..][1..] == order[i + 1..];
      var skip := c.ions != {} && (|c.ions * usedResidual| as real) / (|c.ions| as real) > maxOverlap;
      if !skip {
        var dup, _ := HasDuplicate(ResidualPass, results, c);
        if !dup {
          assert (chosen + [c])[..|chosen + [c]| - 1] == chosen;
          results := results + [c];
          chosen := chosen + [c];
          usedResidual := usedResidual + c.ions;
        }
      }
      i := i + 1;
    }
    assert results[|earlier|..] == chosen;
  }

  lemma SubsetCard(a: set<int>, b: set<int>)
    requires a <= b
    ensures |a| <= |b|
  {
    assert b == a + (b - a);
    assert a * (b - a) == {};
  }

  lemma DivideMonotone(a: real, b: real, n: real)
    requires a <= b && n > 0.0
    ensures a / n <= b / n
  {
    assert b / n - a / n == (b - a) / n;
  }

  /** Taking more results never makes a rejected candidate admissible. */
  lemma RejectionPersists(pass: Pass, c: Candidate, prior: seq<Candidate>, chosen: seq<Candidate>,
                          more: seq<Candidate>, maxOverlap: real)
    requires !Admissible(pass, c, prior, chosen, maxOverlap)
    ensures !Admissible(pass, c, prior, chosen + more, maxOverlap)
  {
    var bigger := chosen + more;
    UnionMembers(chosen);
    UnionMembers(bigger);
    assert Union(chosen) <= Union(bigger) by {
      forall x | x in Union(chosen) ensures x in Union(bigger) {
        var k :| 0 <= k < |chosen| && x in chosen[k].ions;
        assert bigger[k] == chosen[k];
      }
    }
    if c.ions != {} {
      SubsetCard(c.ions * Union(chosen), c.ions * Union(bigger));
      DivideMonotone(|c.ions * Union(chosen)| as real, |c.ions * Union(bigger)| as real, |c.ions| as real);
    }
    forall r | r in prior + chosen ensures r in prior + bigger {
    }
  }

  /** The selection extends what was chosen before, with candidates from the input. */
  lemma {:induction false} SelectExtends(pass: Pass, order: seq<Candidate>, maxOverlap: real,
                                         prior: seq<Candidate>, chosen: seq<Candidate>)
    ensures var r := Select(pass, order, maxOverlap, prior, chosen);
      |chosen| <= |r| <= |chosen| + |order| && r[..|chosen|] == chosen &&
      forall k :: |chosen| <= k < |r| ==> r[k] in order
    decreases |order|
  {
    if order != [] {
      if Admissible(pass, order[0], prior, chosen, maxOverlap) {
        SelectExtends(pass, order[1..], maxOverlap, prior, chosen + [order[0]]);
      } else {
        SelectExtends(pass, order[1..], maxOverlap, prior, chosen);
      }
    }
  }

  /** Every selected candidate was admissible given the results selected before it. */
  lemma {:induction false} SelectAdmissible(pass: Pass, order: seq<Candidate>, maxOverlap: real,
                                            prior: seq<Candidate>, chosen: seq<Candidate>)
    ensures var r := Select(pass, order, maxOverlap, prior, chosen);
      forall k :: |chosen| <= k < |r| ==> Admissible(pass, r[k], prior, r[..k], maxOverlap)
    decreases |order|
  {
    if order != [] {
      var r := Select(pass, order, maxOverlap, prior, chosen);
      if Admissible(pass, order[0], prior, chosen, maxOverlap) {
        var next := chosen + [order[0]];
        SelectAdmissible(pass, order[1..], maxOverlap, prior, next);
        SelectExtends(pass, order[1..], maxOverlap, prior, next);
        assert r == Select(pass, order[1..], maxOverlap, prior, next);
        assert r[..|next|] == next;
        assert r[..|chosen|] == next[..|chosen|] == chosen;
        assert r[|chosen|] == next[|chosen|] == order[0];
        forall k | |chosen| <= k < |r| ensures Admissible(pass, r[k], prior, r[..k], maxOverlap) {
          if k == |chosen| {
            assert r[k] == order[0] && r[..k] == chosen;
          }
        }
      } else {
        assert r == Select(pass, order[1..], maxOverlap, prior, chosen);
        SelectAdmissible(pass, order[1..], maxOverlap, prior, chosen);
        SelectExtends(pass, order[1..], maxOverlap, prior, chosen);
      }
    }
  }

  /** Every candidate left out was inadmissible also given all the selected results. */
  lemma {:induction false} SelectMaximal(pass: Pass, order: seq<Candidate>, maxOverlap: real,
                                         prior: seq<Candidate>, chosen: seq<Candidate>)
    ensures var r := Select(pass, order, maxOverlap, prior, chosen);
      forall k :: 0 <= k < |order| ==> order[k] in r || !Admissible(pass, order[k], prior, r, maxOverlap)
    decreases |order|
  {
    if order != [] {
      var r := Select(pass, order, maxOverlap, prior, chosen);
      var next := if Admissible(pass, order[0], prior, chosen, maxOverlap) then chosen + [order[0]] else chosen;
      SelectMaximal(pass, order[1..], maxOverlap, prior, next);
      SelectExtends(pass, order[1..], maxOverlap, prior, next);
      forall k | 0 <= k < |order| ensures order[k] in r || !Admissible(pass, order[k], prior, r, maxOverlap) {
        if k == 0 {
          if next == chosen {
            assert r == chosen + r[|chosen|..];
            RejectionPersists(pass, order[0], prior, chosen, r[|chosen|..], maxOverlap);
          } else {
            assert r[|chosen|] == order[0];
          }
        } else {
          assert order[k] == order[1..][k - 1];
        }
      }
    }
  }

  /** Every result of a pass was admissible when it was taken. */
  lemma SelectedWereAdmissible(pass: Pass, order: seq<Candidate>, maxOverlap: real, prior: seq<Candidate>)
    ensures var r := Select(pass, order, maxOverlap, prior, []);
      forall k :: 0 <= k < |r| ==> Admissible(pass, r[k], prior, r[..k], maxOverlap)
  {
    SelectAdmissible(pass, order, maxOverlap, prior, []);
  }

  lemma AdmissibleAt(pass: Pass, order: seq<Candidate>, maxOverlap: real, prior: seq<Candidate>, j: int)
    requires 0 <= j < |Select(pass, order, maxOverlap, prior, [])|
    ensures var r := Select(pass, order, maxOverlap, prior, []);
      Admissible(pass, r[j], prior, r[..j], maxOverlap)
  {
    SelectedWereAdmissible(pass, order, maxOverlap, prior);
  }

  /** A set with no ion claimed by earlier results is disjoint from each of their sets. */
  lemma DisjointFromClaimed(earlier: seq<Candidate>, i: int, ions: set<int>)
    requires 0 <= i < |earlier| && |ions * Union(earlier)| == 0
    ensures earlier[i].ions * ions == {}
  {
    UnionMembers(earlier);
    assert ions * Union(earlier) == {};
    forall x | x in earlier[i].ions ensures x !in ions {
      assert x in Union(earlier);
      assert x !in ions * Union(earlier);
    }
  }

  /**
   * First pass: the selected ion sets are non-empty, no result duplicates an earlier one,
   * and with `max_overlap <= 0` the ion sets are pairwise disjoint.
   */
  lemma ExclusiveFirstPass(order: seq<Candidate>, maxOverlap: real)
    ensures var r := Select(FirstPass, order, maxOverlap, [], []);
      && (forall k :: 0 <= k < |r| ==> r[k].ions != {})
      && (forall i, j :: 0 <= i < j < |r| ==> !Duplicate(FirstPass, r[i], r[j]))
      && (maxOverlap <= 0.0 ==> forall i, j :: 0 <= i < j < |r| ==> r[i].ions * r[j].ions == {})
  {
    var r := Select(FirstPass, order, maxOverlap, [], []);
    forall k | 0 <= k < |r| ensures r[k].ions != {} {
      AdmissibleAt(FirstPass, order, maxOverlap, [], k);
    }
    forall i, j | 0 <= i < j < |r| ensures !Duplicate(FirstPass, r[i], r[j]) {
      AdmissibleAt(FirstPass, order, maxOverlap, [], j);
      assert r[i] in [] + r[..j];
    }
    if maxOverlap <= 0.0 {
      forall i, j | 0 <= i < j < |r| ensures r[i].ions * r[j].ions == {} {
        AdmissibleAt(FirstPass, order, maxOverlap, [], j);
        var n := |r[j].ions| as real;
        assert (|r[j].ions * Union(r[..j])| as real) / n <= 0.0;
        DisjointFromClaimed(r[..j], i, r[j].ions);
      }
    }
  }


  /**
   * The selection part of `deconvolute_protein_local_lcms_machine_like`: no candidates give
   * no results; otherwise the first pass runs over the candidates sorted by quality; the residual pass runs over
   * `residual` (the candidates built from the peaks no first-pass result claimed) when at
   * least `min_peaks` peak indices are still unclaimed; the results are sorted by quality.
   */
  method SelectComponents(candidates: seq<Candidate>, residual: seq<Candidate>, peakIndices: set<int>,
                          minPeaks: int, maxOverlap: real) returns (results: seq<Candidate>)
    ensures candidates == [] ==> results == []
    ensures Sorted(results, QualityFirst)
    ensures candidates != [] ==>
      var first := Select(FirstPass, SortBy(candidates, QualityFirst), maxOverlap, [], []);
      var extra := if |peakIndices - Union(first)| >= minPeaks
                   then Select(ResidualPass, SortBy(residual, QualityFirst), maxOverlap, first, [])
                   else [];
      multiset(results) == multiset(first + extra)
  {
    if candidates == [] {
      return [];
    }
    var order := SortBy(candidates, QualityFirst);
    var first, used := FirstPassSelection(order, maxOverlap);
    results := first;
    var unclaimed := peakIndices - used;
    if |unclaimed| >= minPeaks {
      var residualOrder := SortBy(residual, QualityFirst);
      var usedResidual;
      results, usedResidual := ResidualSelection(residualOrder, maxOverlap, first);
    }
    QualityFirstTotal();
    results := SortBy(results, QualityFirst);
  }

  // ---------------------------------------------------------------------------
  // _reject_mass_outliers
  // ---------------------------------------------------------------------------

  /**
   * The ions whose mass lies closer than `limit` to `center`, masses and intensities masked
   * alike.
   */
  function Inliers(masses: seq<real>, intensities: seq<real>, center: real, limit: real)
    : (r: (seq<real>, seq<real>))
    requires |masses| == |intensities|
    ensures |r.0| == |r.1| <= |masses|
  {
    if masses == [] then ([], [])
    else
      var rest := Inliers(masses[1..], intensities[1..], center, limit);
      if Abs(masses[0] - center) < limit then ([masses[0]] + rest.0, [intensities[0]] + rest.1)
      else rest
  }

  /** The mask keeps only masses within the limit. */
  lemma {:induction false} InliersWithin(masses: seq<real>, intensities: seq<real>, center: real, limit: real)
    requires |masses| == |intensities|
    ensures forall k :: 0 <= k < |Inliers(masses, intensities, center, limit).0| ==>
      Abs(Inliers(masses, intensities, center, limit).0[k] - center) < limit
  {
    if masses != [] {
      var rest := Inliers(masses[1..], intensities[1..], center, limit);
      InliersWithin(masses[1..], intensities[1..], center, limit);
      if Abs(masses[0] - center) < limit {
        var r := [masses[0]] + rest.0;
        assert Inliers(masses, intensities, center, limit).0 == r;
        forall k | 0 <= k < |r| ensures Abs(r[k] - center) < limit {
          if k > 0 {
            assert r[k] == rest.0[k - 1];
          }
        }
      }
    }
  }

  /** The mask drops ions: it keeps nothing that was not in either array. */
  lemma {:induction false} InliersSubset(masses: seq<real>, intensities: seq<real>, center: real, limit: real)
    requires |masses| == |intensities|
    ensures multiset(Inliers(masses, intensities, center, limit).0) <= multiset(masses)
    ensures multiset(Inliers(masses, intensities, center, limit).1) <= multiset(intensities)
  {
    if masses != [] {
      InliersSubset(masses[1..], intensities[1..], center, limit);
      assert masses == [masses[0]] + masses[1..];
      assert intensities == [intensities[0]] + intensities[1..];
    }
  }

  /** The mask keeps every mass within the limit. */
  lemma {:induction false} InliersComplete(masses: seq<real>, intensities: seq<real>, center: real, limit: real)
    requires |masses| == |intensities|
    ensures forall j :: 0 <= j < |masses| && Abs(masses[j] - center) < limit ==>
      masses[j] in Inliers(masses, intensities, center, limit).0
  {
    if masses != [] {
      var rest := Inliers(masses[1..], intensities[1..], center, limit);
      InliersComplete(masses[1..], intensities[1..], center, limit);
      forall j | 0 < j < |masses| && Abs(masses[j] - center) < limit ensures masses[j] in rest.0 {
        assert masses[j] == masses[1..][j - 1];
      }
    }
  }

  /** The positions from `i` on that the mask `abs_devs < limit` keeps, in ascending order. */
  function KeptIndices(masses: seq<real>, center: real, limit: real, i: nat): seq<nat>
    decreases |masses| - i
  {
    if i >= |masses| then []
    else (if Abs(masses[i] - center) < limit then [i] else []) + KeptIndices(masses, center, limit, i + 1)
  }

  /** The kept positions are ascending, and a position is kept exactly when its mass is within the limit. */
  lemma {:induction false} KeptIndicesExact(masses: seq<real>, center: real, limit: real, i: nat)
    ensures forall k :: 0 <= k < |KeptIndices(masses, center, limit, i)| ==>
      i <= KeptIndices(masses, center, limit, i)[k] < |masses|
    ensures forall a, b :: 0 <= a < b < |KeptIndices(masses, center, limit, i)| ==>
      KeptIndices(masses, center, limit, i)[a] < KeptIndices(masses, center, limit, i)[b]
    ensures forall j :: i <= j < |masses| ==>
      (j in KeptIndices(masses, center, limit, i) <==> Abs(masses[j] - center) < limit)
    decreases |masses| - i
  {
    if i < |masses| {
      KeptIndicesExact(masses, center, limit, i + 1);
      var rest := KeptIndices(masses, center, limit, i + 1);
      var head: seq<nat> := if Abs(masses[i] - center) < limit then [i] else [];
      assert KeptIndices(masses, center, limit, i) == head + rest;
    }
  }

  /**
   * The boolean mask applied to both arrays: the kept masses and intensities are taken
   * pairwise at the kept positions.
   */
  lemma InliersIndexed(masses: seq<real>, intensities: seq<real>, center: real, limit: real, i: nat)
    requires |masses| == |intensities| && i <= |masses|
    ensures |Inliers(masses[i..], intensities[i..], center, limit).0| == |KeptIndices(masses, center, limit, i)|
    ensures forall k :: 0 <= k < |KeptIndices(masses, center, limit, i)| ==>
      && KeptIndices(masses, center, limit, i)[k] < |masses|
      && Inliers(masses[i..], intensities[i..], center, limit).0[k] == masses[KeptIndices(masses, center, limit, i)[k]]
      && Inliers(masses[i..], intensities[i..], center, limit).1[k]
           == intensities[KeptIndices(masses, center, limit, i)[k]]
  {
    InliersCount(masses, intensities, center, limit, i);
    forall k | 0 <= k < |KeptIndices(masses, center, limit, i)|
      ensures && KeptIndices(masses, center, limit, i)[k] < |masses|
              && Inliers(masses[i..], intensities[i..], center, limit).0[k] == masses[KeptIndices(masses, center, limit, i)[k]]
              && Inliers(masses[i..], intensities[i..], center, limit).1[k]
                   == intensities[KeptIndices(masses, center, limit, i)[k]]
    {
      InliersAt(masses, intensities, center, limit, i, k);
    }
  }

  /** The mask keeps as many ions as there are kept positions. */
  lemma {:induction false} InliersCount(masses: seq<real>, intensities: seq<real>, center: real, limit: real,
                                        i: nat)
    requires |masses| == |intensities| && i <= |masses|
    ensures |Inliers(masses[i..], intensities[i..], center, limit).0| == |KeptIndices(masses, center, limit, i)|
    decreases |masses| - i
  {
    if i < |masses| {
      InliersCount(masses, intensities, center, limit, i + 1);
      var ms, ins := masses[i..], intensities[i..];
      assert ms[1..] == masses[i + 1..] && ins[1..] == intensities[i + 1..];
    }
  }

  /** The k-th kept ion is the mass and intensity at the k-th kept position. */
  lemma {:induction false} InliersAt(masses: seq<real>, intensities: seq<real>, center: real, limit: real,
                                     i: nat, k: nat)
    requires |masses| == |intensities| && i <= |masses|
    requires k < |KeptIndices(masses, center, limit, i)|
    ensures KeptIndices(masses, center, limit, i)[k] < |masses|
    ensures k < |Inliers(masses[i..], intensities[i..], center, limit).0|
    ensures Inliers(masses[i..], intensities[i..], center, limit).0[k] == masses[KeptIndices(masses, center, limit, i)[k]]
    ensures Inliers(masses[i..], intensities[i..], center, limit).1[k] == intensities[KeptIndices(masses, center, limit, i)[k]]
    decreases |masses| - i
  {
    InliersCount(masses, intensities, center, limit, i);
    InliersCount(masses, intensities, center, limit, i + 1);
    var ms, ins := masses[i..], intensities[i..];
    assert ms[1..] == masses[i + 1..] && ins[1..] == intensities[i + 1..];
    var rest := Inliers(masses[i + 1..], intensities[i + 1..], center, limit);
    var idx := KeptIndices(masses, center, limit, i + 1);
    var all := KeptIndices(masses, center, limit, i);
    var r := Inliers(ms, ins, center, limit);
    if Abs(masses[i] - center) < limit {
      assert r == ([masses[i]] + rest.0, [intensities[i]] + rest.1);
      assert all == [i] + idx;
      if k > 0 {
        InliersAt(masses, intensities, center, limit, i + 1, k - 1);
        assert all[k] == idx[k - 1] && r.0[k] == rest.0[k - 1] && r.1[k] == rest.1[k - 1];
      }
    } else {
      assert r == rest && all == idx;
      InliersAt(masses, intensities, center, limit, i + 1, k);
    }
  }

  /** The deviation limit: 5 Da for a tight cluster (MAD below 0.1), else factor times MAD. */
  function OutlierLimit(masses: seq<real>, maxMadFactor: real, median: seq<real> -> real): real
  {
    var center := median(masses);
    var mad := median(seq(|masses|, k requires 0 <= k < |masses| => Abs(masses[k] - center)));
    if mad < 0.1 then 5.0 else maxMadFactor * mad
  }

  /**
   * `_reject_mass_outliers`, with NumPy's median as a parameter. Fewer than 4 ions, or a mask
   * keeping fewer than 3, leave the input as it is.
   */
  function RejectMassOutliers(masses: seq<real>, intensities: seq<real>, maxMadFactor: real,
                              median: seq<real> -> real): (r: (seq<real>, seq<real>))
    requires |masses| == |intensities|
    ensures |r.0| == |r.1|
    ensures |masses| < 4 ==> r == (masses, intensities)
    ensures r == (masses, intensities) ||
      (&& 3 <= |r.0|
       && multiset(r.0) <= multiset(masses) && multiset(r.1) <= multiset(intensities)
       && forall k :: 0 <= k < |r.0| ==>
            Abs(r.0[k] - median(masses)) < OutlierLimit(masses, maxMadFactor, median))
    ensures r != (masses, intensities) ==>
      forall j :: 0 <= j < |masses| && Abs(masses[j] - median(masses)) < OutlierLimit(masses, maxMadFactor, median)
        ==> masses[j] in r.0
    ensures |masses| >= 4 && |KeptIndices(masses, median(masses), OutlierLimit(masses, maxMadFactor, median), 0)| >= 3
      ==> r == Inliers(masses, intensities, median(masses), OutlierLimit(masses, maxMadFactor, median))
    ensures |KeptIndices(masses, median(masses), OutlierLimit(masses, maxMadFactor, median), 0)| < 3
      ==> r == (masses, intensities)
  {
    if |masses| < 4 then (masses, intensities)
    else
      var kept := Inliers(masses, intensities, median(masses), OutlierLimit(masses, maxMadFactor, median));
      var center, limit := median(masses), OutlierLimit(masses, maxMadFactor, median);
      InliersWithin(masses, intensities, center, limit);
      InliersSubset(masses, intensities, center, limit);
      InliersComplete(masses, intensities, center, limit);
      InliersIndexed(masses, intensities, center, limit, 0);
      assert masses[0..] == masses && intensities[0..] == intensities;
      if |kept.0| < 3 then (masses, intensities) else kept
  }
}
