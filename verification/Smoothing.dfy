/** The calculator's integer estimate against the recurrence of section 2 of RFC 6298 on exact
    numbers: the truncations never add up to more than a few microseconds, however long the
    history. */
module Smoothing {
  import opened Bytes
  import opened Rto

  /** SRTT and RTTVAR without rounding. */
  datatype Exact = Exact(srtt: real, rttvar: real)

  function Distance(a: real, b: real): real {
    if a < b then b - a else a - b
  }

  /** The first sample R sets SRTT to R and RTTVAR to R/2; after that beta is 1/4 and alpha 1/8, and
      RTTVAR is updated with the SRTT from before the sample. */
  function ExactStep(s: Maybe<Exact>, r: real): Exact {
    match s
    case None => Exact(r, r / 2.0)
    case Some(x) => Exact(0.875 * x.srtt + 0.125 * r, 0.75 * x.rttvar + 0.25 * Distance(x.srtt, r))
  }

  function ExactOver(h: seq<Event>): Maybe<Exact>
    decreases |h|
  {
    if h == [] then None
    else
      var before := ExactOver(h[..|h| - 1]);
      if h[|h| - 1].Sample? then Some(ExactStep(before, h[|h| - 1].rtt as real)) else before
  }

  /** The timeout of section 2 of RFC 6298: a backoff until a clean sample follows it, SRTT plus four
      RTTVAR, or the initial value. */
  function ExactEstimate(cfg: RtoSettings, h: seq<Event>): real {
    if h != [] && h[|h| - 1].BackedOff? then h[|h| - 1].timeout as real
    else match ExactOver(h)
      case None => cfg.initialRto as real
      case Some(x) => x.srtt + 4.0 * x.rttvar
  }

  // ---- One sample ----

  /** The quotient of a by b cut off toward zero, without naming a division. */
  predicate CutOff(q: int, a: int, b: int) {
    if a >= 0 then b * q <= a < b * q + b && q >= 0 else b * q - b < a <= b * q && q <= 0
  }

  lemma QuotientExact(a: int, b: int, q: int)
    requires b == 2 || b == 4 || b == 8
    ensures Quotient(a, b) == q <==> CutOff(q, a, b)
  {
    if b == 2 {
    } else if b == 4 {
    } else {
    }
  }

  /** One sample, for every estimate and every sample: the eighth of seven old and one new, and the
      quarter of three old and one deviation from the old SRTT, each cut off toward zero. */
  lemma SmoothenExact(s: Smooth, rtt: int, s': Smooth)
    ensures Smoothen(Some(s), rtt) == s' <==>
      && CutOff(s'.srtt, 7 * s.srtt + rtt, 8)
      && CutOff(s'.rttvar, 3 * s.rttvar + (if s.srtt < rtt then rtt - s.srtt else s.srtt - rtt), 4)
    ensures Smoothen(None, rtt) == s' <==> s'.srtt == rtt && CutOff(s'.rttvar, rtt, 2)
  {
    hide Quotient, CutOff;
    QuotientExact(7 * s.srtt + rtt, 8, s'.srtt);
    QuotientExact(3 * s.rttvar + (if s.srtt < rtt then rtt - s.srtt else s.srtt - rtt), 4, s'.rttvar);
    QuotientExact(rtt, 2, s'.rttvar);
  }

  // ---- Whole histories ----

  /** How far an integer estimate may be from the exact one: in microseconds, SRTT up to 7 and RTTVAR
      up to 10 either way. */
  ghost predicate Near(x: Exact, s: Smooth) {
    Distance(x.srtt, s.srtt as real) <= 7.0 && Distance(x.rttvar, s.rttvar as real) <= 10.0
  }

  /** Truncation only ever loses: on samples that are not negative the integer SRTT is never above
      the exact one. */
  ghost predicate Below(x: Exact, s: Smooth) {
    0.0 <= x.srtt - s.srtt as real <= 7.0 && -7.0 <= x.rttvar - s.rttvar as real <= 10.0
  }

  lemma StepNear(x: Exact, s: Smooth, rtt: int)
    requires Near(x, s)
    ensures Near(ExactStep(Some(x), rtt as real), Smoothen(Some(s), rtt))
  {
    SmoothenExact(s, rtt, Smoothen(Some(s), rtt));
    hide Smoothen;
  }

  lemma StepBelow(x: Exact, s: Smooth, rtt: int)
    requires Below(x, s) && s.srtt >= 0 && s.rttvar >= 0 && rtt >= 0
    ensures Below(ExactStep(Some(x), rtt as real), Smoothen(Some(s), rtt))
    ensures Smoothen(Some(s), rtt).srtt >= 0 && Smoothen(Some(s), rtt).rttvar >= 0
  {
    SmoothenExact(s, rtt, Smoothen(Some(s), rtt));
    hide Smoothen;
  }

  lemma FirstNear(rtt: int)
    ensures Near(ExactStep(None, rtt as real), Smoothen(None, rtt))
    ensures rtt >= 0 ==> Below(ExactStep(None, rtt as real), Smoothen(None, rtt)) && Smoothen(None, rtt).rttvar >= 0
  {
  }

  /** For every history whatever, the integer estimate stays within the bounds of the exact one. */
  lemma {:induction false} SmoothNear(h: seq<Event>)
    ensures SmoothOver(h).Some? <==> ExactOver(h).Some?
    ensures SmoothOver(h).Some? ==> Near(ExactOver(h).value, SmoothOver(h).value)
    decreases |h|
  {
    if h != [] {
      hide Near, Smoothen, ExactStep;
      var before, e := h[..|h| - 1], h[|h| - 1];
      SmoothNear(before);
      if e.Sample? {
        if SmoothOver(before).None? {
          FirstNear(e.rtt);
        } else {
          StepNear(ExactOver(before).value, SmoothOver(before).value, e.rtt);
        }
      }
    }
  }

  ghost predicate SamplesNonNegative(h: seq<Event>) {
    forall i :: 0 <= i < |h| && h[i].Sample? ==> h[i].rtt >= 0
  }

  /** For every history of samples that are not negative: 0 <= exact SRTT - srtt <= 7, and RTTVAR is
      at most 7 above and at most 10 below the exact one. */
  lemma {:induction false} SmoothBelow(h: seq<Event>)
    requires SamplesNonNegative(h)
    ensures SmoothOver(h).Some? <==> ExactOver(h).Some?
    ensures SmoothOver(h).Some? ==>
      && Below(ExactOver(h).value, SmoothOver(h).value)
      && SmoothOver(h).value.srtt >= 0 && SmoothOver(h).value.rttvar >= 0
    decreases |h|
  {
    if h != [] {
      hide Below, Smoothen, ExactStep;
      var before, e := h[..|h| - 1], h[|h| - 1];
      SmoothBelow(before);
      if e.Sample? {
        if SmoothOver(before).None? {
          FirstNear(e.rtt);
          FirstIsSample(e.rtt);
        } else {
          StepBelow(ExactOver(before).value, SmoothOver(before).value, e.rtt);
        }
      }
    }
  }

  lemma FirstIsSample(rtt: int)
    ensures Smoothen(None, rtt).srtt == rtt
  {
  }

  // ---- The timeout ----

  /** For every history, the timeout it stands for is within 47 microseconds of the standard's. */
  lemma EstimateNear(cfg: RtoSettings, h: seq<Event>)
    ensures Distance(ExactEstimate(cfg, h), Estimate(cfg, h) as real) <= 47.0
    ensures h != [] && h[|h| - 1].BackedOff? ==> ExactEstimate(cfg, h) == Estimate(cfg, h) as real
    ensures SamplesNonNegative(h) ==> -28.0 <= ExactEstimate(cfg, h) - Estimate(cfg, h) as real <= 47.0
  {
    SmoothNear(h);
    if SamplesNonNegative(h) {
      SmoothBelow(h);
    }
    hide SmoothOver, ExactOver;
  }

  /** Every run with non-decreasing times, every path: the timeout handed out is within 47
      microseconds of the RFC 6298 timeout over that path's events since its last eviction. */
  lemma TimeoutNear(cfg: RtoSettings, es: seq<Event>, p: Path)
    requires cfg.historyDuration >= 0 && InOrder(es)
    ensures Distance(ExactEstimate(cfg, Since(cfg, es, p)), Timeout(cfg, AbsorbAll(cfg, es), p) as real) <= 47.0
  {
    hide *;
    TimeoutIsEstimate(cfg, es, p);
    EstimateNear(cfg, Since(cfg, es, p));
  }
}
