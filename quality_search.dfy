/** The JPEG quality bisection of `jpeg_bsearch_dssim`: probe the floor
    midpoint of the bracket [qStart, qEnd], stop when the score is within the
    tolerance of the target, otherwise move one end of the bracket to the
    probe, until the bracket has no interior point left. */
module QualitySearch {
  import opened Measure

  /** The initial bracket and the tolerance of the search. */
  const QStart: int := 80
  const QEnd: int := 100
  const Tolerance: real := 0.01

  /** The encoder + scorer at every quality, for one source image. */
  type Oracle = int -> Measurement

  /** What the search returns: `[size, dssim, quality]` of one probe. */
  datatype Sample = Sample(size: nat, dssim: real, quality: int)

  function Abs(x: real): real { if x < 0.0 then -x else x }

  predicate WithinTolerance(dssim: real, target: real) {
    Abs(dssim - target) < Tolerance
  }

  /** The outcome of one loop iteration on the bracket [lo, hi]. */
  datatype Step =
    | Failed                                 // `return nil unless dssim`
    | Converged(sample: Sample)              // `break if delta.abs < 0.01`
    | Narrowed(lo: int, hi: int, sample: Sample)  // one bound moved to the probe

  /** One iteration of the loop on the bracket [lo, hi]. */
  function Probe(jpeg: Oracle, target: real, lo: int, hi: int): Step
    requires lo + 1 < hi
  {
    var q := (lo + hi) / 2;
    match jpeg(q)
    case NoOutput => Failed
    case Measured(_, None) => Failed
    case Measured(size, Some(d)) =>
      var delta := d - target;
      if Abs(delta) < Tolerance then Converged(Sample(size, d, q))
      else if delta > 0.0 then Narrowed(q, hi, Sample(size, d, q))
      else Narrowed(lo, q, Sample(size, d, q))
  }

  /** The probe sits strictly inside the bracket and is the sample handed
      back by the oracle; the step fails exactly when that sample has no
      score and stops exactly when the score is within the tolerance;
      otherwise exactly one bound moves to the probe (qStart when the score
      is above the target, qEnd when not) and the bracket shrinks. */
  lemma ProbeFacts(jpeg: Oracle, target: real, lo: int, hi: int)
    requires lo + 1 < hi
    ensures var r := Probe(jpeg, target, lo, hi);
      && (r.Failed? <==> Score(jpeg((lo + hi) / 2)).None?)
      && (!r.Failed? ==> r.sample.quality == (lo + hi) / 2 && lo < r.sample.quality < hi)
      && (!r.Failed? ==> jpeg(r.sample.quality) == Measured(r.sample.size, Some(r.sample.dssim)))
      && (r.Converged? <==> !r.Failed? && WithinTolerance(r.sample.dssim, target))
      && (r.Narrowed? ==> lo <= r.lo < r.hi <= hi && r.hi - r.lo < hi - lo)
      && (r.Narrowed? ==>
           if r.sample.dssim - target > 0.0 then r.lo == r.sample.quality && r.hi == hi
           else r.lo == lo && r.hi == r.sample.quality)
  {
  }

  /** The search from the bracket [lo, hi]: None when a probe fails,
      otherwise the last sample taken. */
  function Search(jpeg: Oracle, target: real, lo: int, hi: int): Option<Sample>
    requires lo + 1 < hi
    decreases hi - lo
  {
    ProbeFacts(jpeg, target, lo, hi);
    match Probe(jpeg, target, lo, hi)
    case Failed => None
    case Converged(s) => Some(s)
    case Narrowed(l, h, s) => if h > l + 1 then Search(jpeg, target, l, h) else Some(s)
  }

  /** The qualities handed to the oracle, in order. */
  function Probes(jpeg: Oracle, target: real, lo: int, hi: int): seq<int>
    requires lo + 1 < hi
    decreases hi - lo
  {
    ProbeFacts(jpeg, target, lo, hi);
    [(lo + hi) / 2] +
      match Probe(jpeg, target, lo, hi)
      case Narrowed(l, h, _) => if h > l + 1 then Probes(jpeg, target, l, h) else []
      case _ => []
  }

  /** Search and Probes after one step of the loop. */
  lemma Unfold(jpeg: Oracle, target: real, lo: int, hi: int)
    requires lo + 1 < hi
    ensures var p := Probe(jpeg, target, lo, hi);
      && (p.Failed? ==> Search(jpeg, target, lo, hi) == None)
      && (p.Converged? ==> Search(jpeg, target, lo, hi) == Some(p.sample))
      && (p.Narrowed? && p.hi <= p.lo + 1 ==> Search(jpeg, target, lo, hi) == Some(p.sample))
      && (p.Narrowed? && p.hi > p.lo + 1 ==>
            Search(jpeg, target, lo, hi) == Search(jpeg, target, p.lo, p.hi) &&
            Probes(jpeg, target, lo, hi) == [(lo + hi) / 2] + Probes(jpeg, target, p.lo, p.hi))
      && (!(p.Narrowed? && p.hi > p.lo + 1) ==> Probes(jpeg, target, lo, hi) == [(lo + hi) / 2])
  {
    ProbeFacts(jpeg, target, lo, hi);
  }

  /** The number of probes a bracket of width w can take at most: each step
      leaves a bracket of width at most ceil(w / 2). */
  function ProbeBound(w: int): nat
    decreases w
  {
    if w <= 1 then 0 else 1 + ProbeBound((w + 1) / 2)
  }

  lemma {:induction false} ProbeBoundMonotone(v: int, w: int)
    requires v <= w
    ensures ProbeBound(v) <= ProbeBound(w)
    decreases w
  {
    if v > 1 {
      ProbeBoundMonotone((v + 1) / 2, (w + 1) / 2);
    }
  }

  /** Every probe lies strictly inside the bracket, and the search takes at
      most ProbeBound(hi - lo) probes. */
  lemma {:induction false} ProbesInBracket(jpeg: Oracle, target: real, lo: int, hi: int)
    requires lo + 1 < hi
    ensures 1 <= |Probes(jpeg, target, lo, hi)| <= ProbeBound(hi - lo)
    ensures forall i :: 0 <= i < |Probes(jpeg, target, lo, hi)| ==> lo < Probes(jpeg, target, lo, hi)[i] < hi
    decreases hi - lo
  {
    var p := Probe(jpeg, target, lo, hi);
    ProbeFacts(jpeg, target, lo, hi);
    if p.Narrowed? && p.hi > p.lo + 1 {
      ProbesInBracket(jpeg, target, p.lo, p.hi);
      ProbeBoundMonotone(p.hi - p.lo, (hi - lo + 1) / 2);
    }
  }

  /** The default bracket [80, 100] takes at most 5 probes, each in [81, 99]. */
  lemma DefaultSearchProbes(jpeg: Oracle, target: real)
    ensures 1 <= |Probes(jpeg, target, QStart, QEnd)| <= 5
    ensures forall q :: q in Probes(jpeg, target, QStart, QEnd) ==> 81 <= q <= 99
  {
    ProbesInBracket(jpeg, target, QStart, QEnd);
    assert ProbeBound(20) == 5 by {
      assert ProbeBound(1) == 0;
      assert ProbeBound(2) == 1;
      assert ProbeBound(3) == 2;
      assert ProbeBound(5) == 3;
      assert ProbeBound(10) == 4;
    }
  }

  /** All or nothing, early exit, and the last sample: every probe but the
      last one was scored and missed the tolerance; the search fails exactly
      when the last probe has no score, and otherwise returns the sample of
      the last probe, whether it met the tolerance or the bracket collapsed. */
  lemma {:induction false} SearchReturnsLastProbe(jpeg: Oracle, target: real, lo: int, hi: int)
    requires lo + 1 < hi
    ensures var ps := Probes(jpeg, target, lo, hi);
      |ps| >= 1 &&
      (forall i :: 0 <= i < |ps| - 1 ==>
         Score(jpeg(ps[i])).Some? && !WithinTolerance(Score(jpeg(ps[i])).value, target)) &&
      (Search(jpeg, target, lo, hi).None? <==> Score(jpeg(ps[|ps| - 1])).None?) &&
      (Search(jpeg, target, lo, hi).Some? ==>
         var s := Search(jpeg, target, lo, hi).value;
         s.quality == ps[|ps| - 1] && jpeg(s.quality) == Measured(s.size, Some(s.dssim)))
    decreases hi - lo
  {
    var p := Probe(jpeg, target, lo, hi);
    ProbeFacts(jpeg, target, lo, hi);
    if p.Narrowed? && p.hi > p.lo + 1 {
      SearchReturnsLastProbe(jpeg, target, p.lo, p.hi);
      var rest := Probes(jpeg, target, p.lo, p.hi);
      var ps := Probes(jpeg, target, lo, hi);
      assert ps == [(lo + hi) / 2] + rest;
      forall i | 0 <= i < |ps| - 1
        ensures Score(jpeg(ps[i])).Some? && !WithinTolerance(Score(jpeg(ps[i])).value, target)
      {
        if i > 0 {
          assert ps[i] == rest[i - 1];
        }
      }
    }
  }

  /** The returned quality lies strictly inside the bracket. */
  lemma SearchQualityInBracket(jpeg: Oracle, target: real, lo: int, hi: int)
    requires lo + 1 < hi
    ensures Search(jpeg, target, lo, hi).Some? ==> lo < Search(jpeg, target, lo, hi).value.quality < hi
  {
    SearchReturnsLastProbe(jpeg, target, lo, hi);
    ProbesInBracket(jpeg, target, lo, hi);
  }

  /** A target above every score: each probe lowers qEnd, and the search
      returns the sample at lo + 1. */
  lemma {:induction false} TargetAboveAllScores(jpeg: Oracle, target: real, lo: int, hi: int)
    requires lo + 1 < hi
    requires forall q :: lo < q < hi ==>
      Score(jpeg(q)).Some? && Score(jpeg(q)).value - target <= -Tolerance
    ensures Search(jpeg, target, lo, hi).Some?
    ensures Search(jpeg, target, lo, hi).value.quality == lo + 1
    decreases hi - lo
  {
    var q := (lo + hi) / 2;
    assert lo < q < hi;
    var p := Probe(jpeg, target, lo, hi);
    ProbeFacts(jpeg, target, lo, hi);
    assert p.Narrowed? && p.lo == lo && p.hi == q;
    if q > lo + 1 {
      TargetAboveAllScores(jpeg, target, lo, q);
    }
  }

  /** A target below every score: each probe raises qStart, and the search
      returns the sample at hi - 1. */
  lemma {:induction false} TargetBelowAllScores(jpeg: Oracle, target: real, lo: int, hi: int)
    requires lo + 1 < hi
    requires forall q :: lo < q < hi ==>
      Score(jpeg(q)).Some? && Score(jpeg(q)).value - target >= Tolerance
    ensures Search(jpeg, target, lo, hi).Some?
    ensures Search(jpeg, target, lo, hi).value.quality == hi - 1
    decreases hi - lo
  {
    var q := (lo + hi) / 2;
    assert lo < q < hi;
    var p := Probe(jpeg, target, lo, hi);
    ProbeFacts(jpeg, target, lo, hi);
    assert p.Narrowed? && p.lo == q && p.hi == hi;
    if hi > q + 1 {
      TargetBelowAllScores(jpeg, target, q, hi);
    }
  }

  /** A stand-in scorer that falls by 0.05 per quality step, at a fixed size. */
  function LinearScore(q: int): Measurement {
    Measured(1000, Some((100 - q) as real / 20.0))
  }

  /** The search returns the last sample, not the closest: with target 0.13
      it probes 90, 95, 97 and 98, then the bracket [97, 98] collapses; it
      returns quality 98 (off by 0.03) although quality 97 was off by 0.02. */
  lemma ReturnsLastNotClosest()
    ensures Probes(LinearScore, 0.13, QStart, QEnd) == [90, 95, 97, 98]
    ensures Search(LinearScore, 0.13, QStart, QEnd) == Some(Sample(1000, 0.1, 98))
    ensures Abs(0.15 - 0.13) < Abs(0.1 - 0.13) && Score(LinearScore(97)) == Some(0.15)
  {
    assert Probe(LinearScore, 0.13, 80, 100) == Narrowed(90, 100, Sample(1000, 0.5, 90));
    assert Probe(LinearScore, 0.13, 90, 100) == Narrowed(95, 100, Sample(1000, 0.25, 95));
    assert Probe(LinearScore, 0.13, 95, 100) == Narrowed(97, 100, Sample(1000, 0.15, 97));
    assert Probe(LinearScore, 0.13, 97, 100) == Narrowed(97, 98, Sample(1000, 0.1, 98));
  }

  /** A stand-in scorer of 1 / quality (no output at quality 0 or below). */
  function ReciprocalScore(q: int): Measurement {
    if q <= 0 then NoOutput else Measured(0, Some(1.0 / (q as real)))
  }

  /** With the scorer 1 / quality and target 1/95, every score in the bracket
      is within 0.01 of the target, so the search stops at its first probe. */
  lemma ReciprocalScoreStopsAtFirstProbe()
    ensures Probes(ReciprocalScore, 1.0 / 95.0, QStart, QEnd) == [90]
    ensures Search(ReciprocalScore, 1.0 / 95.0, QStart, QEnd) == Some(Sample(0, 1.0 / 90.0, 90))
  {
    assert Abs(1.0 / 90.0 - 1.0 / 95.0) < Tolerance;
    assert Probe(ReciprocalScore, 1.0 / 95.0, 80, 100) == Converged(Sample(0, 1.0 / 90.0, 90));
  }

  /** One loop iteration keeps the loop's account of the search: with the
      probes taken so far followed by those still to come from the bracket
      [lo, hi] making up the whole sequence, the step either ends the search
      with its result or leaves a bracket that continues it. */
  lemma StepKeeps(jpeg: Oracle, target: real, lo: int, hi: int, before: seq<int>, whole: Option<Sample>, all: seq<int>)
    requires lo + 1 < hi
    requires Search(jpeg, target, lo, hi) == whole && before + Probes(jpeg, target, lo, hi) == all
    ensures var p := Probe(jpeg, target, lo, hi);
      var probes := before + [(lo + hi) / 2];
      && (p.Failed? ==> whole == None && probes == all)
      && (p.Converged? ==> whole == Some(p.sample) && probes == all)
      && (p.Narrowed? && p.hi <= p.lo + 1 ==> whole == Some(p.sample) && probes == all)
      && (p.Narrowed? && p.hi > p.lo + 1 ==>
            Search(jpeg, target, p.lo, p.hi) == whole && probes + Probes(jpeg, target, p.lo, p.hi) == all)
  {
    Unfold(jpeg, target, lo, hi);
    var p := Probe(jpeg, target, lo, hi);
    var q := (lo + hi) / 2;
    if p.Narrowed? && p.hi > p.lo + 1 {
      assert before + ([q] + Probes(jpeg, target, p.lo, p.hi)) == before + [q] + Probes(jpeg, target, p.lo, p.hi);
    } else {
      assert before + [q] == all;
    }
  }

  /** The while loop of `jpeg_bsearch_dssim` over the locals qStart, qEnd,
      quality, size and dssim, from the bracket [lo, hi]: it computes Search
      and calls the oracle at exactly the qualities of Probes. */
  method Bisect(jpeg: Oracle, target: real, lo: int, hi: int) returns (r: Option<Sample>, ghost probes: seq<int>)
    requires lo + 1 < hi
    ensures r == Search(jpeg, target, lo, hi)
    ensures probes == Probes(jpeg, target, lo, hi)
    ensures r.Some? ==> lo < r.value.quality < hi && r.value.quality == probes[|probes| - 1]
  {
    ghost var whole := Search(jpeg, target, lo, hi);
    ghost var all := Probes(jpeg, target, lo, hi);
    var qStart, qEnd := lo, hi;
    var size: nat, dssim: real, quality: int := 0, 0.0, 0;
    probes := [];
    while qEnd > qStart + 1
      invariant lo <= qStart < qEnd <= hi
      invariant qEnd > qStart + 1 ==>
        Search(jpeg, target, qStart, qEnd) == whole && probes + Probes(jpeg, target, qStart, qEnd) == all
      invariant qEnd <= qStart + 1 ==> whole == Some(Sample(size, dssim, quality)) && probes == all
      invariant probes != [] ==> lo < quality < hi && quality == probes[|probes| - 1]
      invariant qEnd <= qStart + 1 ==> probes != []
      decreases qEnd - qStart
    {
      ghost var step := Probe(jpeg, target, qStart, qEnd);
      StepKeeps(jpeg, target, qStart, qEnd, probes, whole, all);
      ProbeFacts(jpeg, target, qStart, qEnd);
      quality := (qStart + qEnd) / 2;
      probes := probes + [quality];
      var m := jpeg(quality);
      if !m.Measured? || m.dssim.None? {
        assert step == Failed;
        return None, probes;
      }
      size, dssim := m.size, m.dssim.value;
      var delta := dssim - target;
      if Abs(delta) < Tolerance {
        assert step == Converged(Sample(size, dssim, quality));
        break;
      }
      if delta > 0.0 {
        qStart := quality;
      } else {
        qEnd := quality;
      }
      assert step == Narrowed(qStart, qEnd, Sample(size, dssim, quality));
    }
    r := Some(Sample(size, dssim, quality));
  }

  /** `jpeg_bsearch_dssim`: the loop started on the bracket [80, 100]. It
      calls the oracle at most five times, each time at a quality in
      [81, 99], and a quality it returns is the last one probed. */
  method JpegBsearchDssim(jpeg: Oracle, target: real) returns (r: Option<Sample>, ghost probes: seq<int>)
    ensures r == Search(jpeg, target, QStart, QEnd)
    ensures probes == Probes(jpeg, target, QStart, QEnd)
    ensures 1 <= |probes| <= 5 && forall q :: q in probes ==> 81 <= q <= 99
    ensures r.Some? ==> 81 <= r.value.quality <= 99 && r.value.quality == probes[|probes| - 1]
  {
    r, probes := Bisect(jpeg, target, QStart, QEnd);
    DefaultSearchProbes(jpeg, target);
  }
}
