/** Retransmission timeout estimation per network path (section 2 of RFC 6298 with Karn's rule),
    as a value: what the calculator's map and timeline hold, and what every run of it means. */
module Rto {
  import opened Bytes
  import opened Sequences
  import opened Address

  datatype Path = Path(source: IpAddress, target: IpAddress)

  /** Durations and time points in microseconds, unbounded. */
  datatype RtoSettings = RtoSettings(initialRto: int, historyDuration: int)

  datatype Smooth = Smooth(srtt: int, rttvar: int)

  datatype Entry = Entry(lastUpdate: int, smooth: Maybe<Smooth>, backoff: Maybe<int>)

  /** The entries, and their paths from least to most recently updated. */
  datatype RtoState = RtoState(byPath: map<Path, Entry>, timeline: seq<Path>)

  const NO_HISTORY := RtoState(map[], [])

  /** Integer division of a signed count, truncated toward zero. */
  function Quotient(a: int, b: int): int
    requires b > 0
  {
    if a >= 0 then a / b else -((-a) / b)
  }

  /** One RTT sample folded into the estimate, with alpha 1/8 and beta 1/4. */
  function Smoothen(s: Maybe<Smooth>, rtt: int): Smooth {
    match s
    case None => Smooth(rtt, Quotient(rtt, 2))
    case Some(v) =>
      var delta := if v.srtt - rtt < 0 then -(v.srtt - rtt) else v.srtt - rtt;
      Smooth(Quotient(7 * v.srtt + rtt, 8), Quotient(3 * v.rttvar + delta, 4))
  }

  /** The timeout an entry stands for: a backoff until a clean sample replaces it. */
  function TimeoutOf(cfg: RtoSettings, e: Entry): int {
    if e.backoff.Some? then e.backoff.value
    else if e.smooth.Some? then e.smooth.value.srtt + 4 * e.smooth.value.rttvar
    else cfg.initialRto
  }

  function Timeout(cfg: RtoSettings, st: RtoState, p: Path): int {
    if p in st.byPath then TimeoutOf(cfg, st.byPath[p]) else cfg.initialRto
  }

  predicate Outdated(cfg: RtoSettings, e: Entry, now: int) {
    now - e.lastUpdate > cfg.historyDuration
  }

  /** Evict from the front of the timeline for as long as the front is outdated. */
  function ClearOutdated(cfg: RtoSettings, st: RtoState, now: int): RtoState
    decreases |st.timeline|
  {
    if st.timeline != [] && st.timeline[0] in st.byPath && Outdated(cfg, st.byPath[st.timeline[0]], now)
    then ClearOutdated(cfg, RtoState(st.byPath - {st.timeline[0]}, st.timeline[1..]), now)
    else st
  }

  /** Stamp the path's entry, creating it if needed, and move it to the back of the timeline. */
  function Touch(st: RtoState, now: int, p: Path): RtoState {
    var e := if p in st.byPath then st.byPath[p].(lastUpdate := now) else Entry(now, None, None);
    RtoState(st.byPath[p := e], Without(st.timeline, p) + [p])
  }

  /** A round trip of a request that was never retransmitted. */
  function NewRtt(cfg: RtoSettings, st: RtoState, now: int, p: Path, rtt: int): RtoState {
    var st' := ClearOutdated(cfg, Touch(st, now, p), now);
    if p in st'.byPath then
      var e := st'.byPath[p];
      st'.(byPath := st'.byPath[p := e.(backoff := None, smooth := Some(Smoothen(e.smooth, rtt)))])
    else st'
  }

  /** A response to a retransmitted request: no sample, keep its last timeout. A path seen for
      the first time is only filed; nothing is evicted then. */
  function Backoff(cfg: RtoSettings, st: RtoState, now: int, p: Path, timeout: int): RtoState {
    var st' := Touch(st, now, p);
    var st'' := st'.(byPath := st'.byPath[p := st'.byPath[p].(backoff := Some(timeout))]);
    if p in st.byPath then ClearOutdated(cfg, st'', now) else st''
  }

  datatype Event =
    | Sample(now: int, path: Path, rtt: int)
    | BackedOff(now: int, path: Path, timeout: int)

  function Absorb(cfg: RtoSettings, st: RtoState, e: Event): RtoState {
    match e
    case Sample(now, p, rtt) => NewRtt(cfg, st, now, p, rtt)
    case BackedOff(now, p, timeout) => Backoff(cfg, st, now, p, timeout)
  }

  function AbsorbAll(cfg: RtoSettings, es: seq<Event>): RtoState {
    if es == [] then NO_HISTORY else Absorb(cfg, AbsorbAll(cfg, es[..|es| - 1]), es[|es| - 1])
  }

  predicate InOrder(es: seq<Event>) {
    forall i, j :: 0 <= i < j < |es| ==> es[i].now <= es[j].now
  }

  // ---- The timeline is the map in order of last update ----

  ghost predicate Threaded(st: RtoState) {
    && (forall p :: p in st.timeline <==> p in st.byPath)
    && (forall i, j :: 0 <= i < j < |st.timeline| ==> st.timeline[i] != st.timeline[j])
  }

  ghost predicate Ordered(st: RtoState) {
    && Threaded(st)
    && forall i, j :: 0 <= i < j < |st.timeline| ==>
         st.byPath[st.timeline[i]].lastUpdate <= st.byPath[st.timeline[j]].lastUpdate
  }

  ghost predicate NotAfter(st: RtoState, now: int) {
    forall p :: p in st.byPath ==> st.byPath[p].lastUpdate <= now
  }

  /** The simple form of eviction: look at every entry. */
  ghost function Young(cfg: RtoSettings, m: map<Path, Entry>, now: int): map<Path, Entry> {
    map p | p in m && !Outdated(cfg, m[p], now) :: m[p]
  }

  /** On an ordered timeline, looking only at the front evicts exactly what looking at every
      entry would. */
  lemma {:induction false} FrontOnlyIsFilter(cfg: RtoSettings, st: RtoState, now: int)
    requires Ordered(st)
    ensures Ordered(ClearOutdated(cfg, st, now))
    ensures ClearOutdated(cfg, st, now).byPath == Young(cfg, st.byPath, now)
    decreases |st.timeline|
  {
    hide Ordered, Young, Outdated;
    if st.timeline == [] {
      NothingToClear(cfg, st, now);
    } else {
      var front := st.timeline[0];
      FrontFiled(st);
      if Outdated(cfg, st.byPath[front], now) {
        DropFront(st);
        FrontOnlyIsFilter(cfg, RtoState(st.byPath - {front}, st.timeline[1..]), now);
        YoungWithout(cfg, st.byPath, now, front);
      } else {
        NothingToClear(cfg, st, now);
      }
    }
  }

  lemma FrontFiled(st: RtoState)
    requires Ordered(st) && st.timeline != []
    ensures st.timeline[0] in st.byPath
  {
    assert st.timeline[0] in st.timeline;
  }

  lemma YoungWithout(cfg: RtoSettings, m: map<Path, Entry>, now: int, p: Path)
    requires p in m && Outdated(cfg, m[p], now)
    ensures Young(cfg, m - {p}, now) == Young(cfg, m, now)
  {
  }

  lemma NothingToClear(cfg: RtoSettings, st: RtoState, now: int)
    requires Ordered(st)
    requires st.timeline != [] ==> st.timeline[0] in st.byPath && !Outdated(cfg, st.byPath[st.timeline[0]], now)
    ensures Young(cfg, st.byPath, now) == st.byPath
  {
    forall p | p in st.byPath ensures !Outdated(cfg, st.byPath[p], now) {
      assert p in st.timeline;
      var k :| 0 <= k < |st.timeline| && st.timeline[k] == p;
    }
  }

  lemma DropFront(st: RtoState)
    requires Ordered(st) && st.timeline != []
    ensures Ordered(RtoState(st.byPath - {st.timeline[0]}, st.timeline[1..]))
  {
    var rest := st.timeline[1..];
    assert forall k :: 0 <= k < |rest| ==> rest[k] == st.timeline[k + 1];
    forall p | p in st.byPath && p != st.timeline[0] ensures p in rest {
      var k :| 0 <= k < |st.timeline| && st.timeline[k] == p;
      assert rest[k - 1] == p;
    }
  }

  ghost predicate SortedBy(timeline: seq<Path>, m: map<Path, Entry>)
    requires forall p :: p in timeline ==> p in m
  {
    && (forall i, j :: 0 <= i < j < |timeline| ==> timeline[i] != timeline[j])
    && (forall i, j :: 0 <= i < j < |timeline| ==> m[timeline[i]].lastUpdate <= m[timeline[j]].lastUpdate)
  }

  lemma {:induction false} WithoutSorted(timeline: seq<Path>, m: map<Path, Entry>, p: Path)
    requires forall q :: q in timeline ==> q in m
    requires SortedBy(timeline, m)
    ensures forall q :: q in Without(timeline, p) ==> q in m
    ensures SortedBy(Without(timeline, p), m)
  {
    WithoutMembers(timeline, p);
    if timeline != [] {
      var rest := timeline[1..];
      assert forall k :: 0 <= k < |rest| ==> rest[k] == timeline[k + 1];
      WithoutSorted(rest, m, p);
      WithoutMembers(rest, p);
      if timeline[0] != p {
        var w := Without(rest, p);
        assert Without(timeline, p) == [timeline[0]] + w;
        forall k | 0 <= k < |w| ensures w[k] != timeline[0] && m[timeline[0]].lastUpdate <= m[w[k]].lastUpdate {
          assert w[k] in rest;
          var l :| 0 <= l < |rest| && rest[l] == w[k];
          assert timeline[l + 1] == w[k];
        }
      }
    }
  }

  lemma TouchOrdered(st: RtoState, now: int, p: Path)
    requires Ordered(st) && NotAfter(st, now)
    ensures Ordered(Touch(st, now, p)) && NotAfter(Touch(st, now, p), now)
    ensures Touch(st, now, p).byPath[p].lastUpdate == now
  {
    var st' := Touch(st, now, p);
    var w := Without(st.timeline, p);
    WithoutMembers(st.timeline, p);
    WithoutSorted(st.timeline, st.byPath, p);
    assert st'.timeline == w + [p];
    assert forall k :: 0 <= k < |w| ==> w[k] in w;
  }

  lemma EvictOnlyOthers(cfg: RtoSettings, st: RtoState, now: int, p: Path)
    requires cfg.historyDuration >= 0
    requires Ordered(st) && p in st.byPath && st.byPath[p].lastUpdate == now
    ensures p in ClearOutdated(cfg, st, now).byPath && ClearOutdated(cfg, st, now).byPath[p] == st.byPath[p]
  {
    FrontOnlyIsFilter(cfg, st, now);
    hide ClearOutdated, Ordered;
  }

  /** The entry just updated survives its own clearing exactly when the history duration is not
      negative: with a negative one every entry is evicted. */
  lemma UpdatedStays(cfg: RtoSettings, st: RtoState, now: int, p: Path)
    requires Ordered(st) && NotAfter(st, now)
    ensures p in ClearOutdated(cfg, Touch(st, now, p), now).byPath <==> cfg.historyDuration >= 0
    ensures cfg.historyDuration < 0 ==> ClearOutdated(cfg, Touch(st, now, p), now).byPath == map[]
  {
    var st' := Touch(st, now, p);
    TouchOrdered(st, now, p);
    FrontOnlyIsFilter(cfg, st', now);
    hide ClearOutdated, Ordered;
    assert cfg.historyDuration < 0 ==> forall q :: q in st'.byPath ==> Outdated(cfg, st'.byPath[q], now);
  }

  // ---- The simple form of the whole calculator: a map that is filtered by age ----

  /** Whether an event makes the calculator look for outdated entries. */
  predicate Clears(m: map<Path, Entry>, e: Event) {
    e.Sample? || e.path in m
  }

  function Updated(m: map<Path, Entry>, e: Event): Entry {
    var smooth := if e.path in m then m[e.path].smooth else None;
    match e
    case Sample(now, _, rtt) => Entry(now, Some(Smoothen(smooth, rtt)), None)
    case BackedOff(now, _, timeout) => Entry(now, smooth, Some(timeout))
  }

  /** Update the entry; then, if the event clears, forget every outdated entry. */
  ghost function SimpleStep(cfg: RtoSettings, m: map<Path, Entry>, e: Event): map<Path, Entry> {
    var m' := m[e.path := Updated(m, e)];
    if Clears(m, e) then Young(cfg, m', e.now) else m'
  }

  ghost function SimpleRun(cfg: RtoSettings, es: seq<Event>): map<Path, Entry> {
    if es == [] then map[] else SimpleStep(cfg, SimpleRun(cfg, es[..|es| - 1]), es[|es| - 1])
  }

  lemma RestampOrdered(st: RtoState, p: Path, e: Entry)
    requires Ordered(st) && p in st.byPath && e.lastUpdate == st.byPath[p].lastUpdate
    ensures Ordered(st.(byPath := st.byPath[p := e]))
  {
  }

  lemma SampleIsSimple(cfg: RtoSettings, st: RtoState, now: int, p: Path, rtt: int)
    requires cfg.historyDuration >= 0 && Ordered(st) && NotAfter(st, now)
    ensures Ordered(NewRtt(cfg, st, now, p, rtt))
    ensures NewRtt(cfg, st, now, p, rtt).byPath == SimpleStep(cfg, st.byPath, Sample(now, p, rtt))
  {
    hide Ordered, ClearOutdated, Smoothen, Young, NotAfter;
    var st1 := Touch(st, now, p);
    TouchOrdered(st, now, p);
    FrontOnlyIsFilter(cfg, st1, now);
    EvictOnlyOthers(cfg, st1, now, p);
    var st2 := ClearOutdated(cfg, st1, now);
    var e := Updated(st.byPath, Sample(now, p, rtt));
    RestampOrdered(st2, p, e);
    assert NewRtt(cfg, st, now, p, rtt) == st2.(byPath := st2.byPath[p := e]);
    YoungUpdate(cfg, st1.byPath, now, p, e);
    assert st1.byPath[p := e] == st.byPath[p := e];
  }

  lemma YoungUpdate(cfg: RtoSettings, m: map<Path, Entry>, now: int, p: Path, e: Entry)
    requires cfg.historyDuration >= 0 && e.lastUpdate == now
    ensures Young(cfg, m, now)[p := e] == Young(cfg, m[p := e], now)
  {
  }

  lemma BackoffIsSimple(cfg: RtoSettings, st: RtoState, now: int, p: Path, timeout: int)
    requires cfg.historyDuration >= 0 && Ordered(st) && NotAfter(st, now)
    ensures Ordered(Backoff(cfg, st, now, p, timeout))
    ensures Backoff(cfg, st, now, p, timeout).byPath == SimpleStep(cfg, st.byPath, BackedOff(now, p, timeout))
  {
    var st1 := Touch(st, now, p);
    TouchOrdered(st, now, p);
    var e := Updated(st.byPath, BackedOff(now, p, timeout));
    RestampOrdered(st1, p, e);
    var st2 := st1.(byPath := st1.byPath[p := e]);
    assert st1.byPath[p := e] == st.byPath[p := e];
    FrontOnlyIsFilter(cfg, st2, now);
  }

  /** For every run with non-decreasing times: the timeline holds every entry exactly once, from
      least to most recently updated, and the entries are those of the simple form. */
  lemma {:induction false} RunIsSimple(cfg: RtoSettings, es: seq<Event>)
    requires cfg.historyDuration >= 0 && InOrder(es)
    ensures Ordered(AbsorbAll(cfg, es))
    ensures AbsorbAll(cfg, es).byPath == SimpleRun(cfg, es)
    ensures forall now :: (forall i :: 0 <= i < |es| ==> es[i].now <= now) ==> NotAfter(AbsorbAll(cfg, es), now)
    decreases |es|
  {
    if es != [] {
      var n := |es| - 1;
      var before, e := es[..n], es[n];
      RunIsSimple(cfg, before);
      var st := AbsorbAll(cfg, before);
      assert NotAfter(st, e.now);
      hide Ordered, Updated;
      match e {
        case Sample(now, p, rtt) => SampleIsSimple(cfg, st, now, p, rtt);
        case BackedOff(now, p, timeout) => BackoffIsSimple(cfg, st, now, p, timeout);
      }
      SimpleNotAfter(cfg, st.byPath, e);
    }
  }

  lemma SimpleNotAfter(cfg: RtoSettings, m: map<Path, Entry>, e: Event)
    requires forall p :: p in m ==> m[p].lastUpdate <= e.now
    ensures forall p :: p in SimpleStep(cfg, m, e) ==> SimpleStep(cfg, m, e)[p].lastUpdate <= e.now
  {
  }

  // ---- What a path's timeout is, from its own events ----

  /** The path's events since it was last evicted. */
  function Since(cfg: RtoSettings, es: seq<Event>, p: Path): (h: seq<Event>)
    ensures forall i :: 0 <= i < |h| ==> h[i] in es && h[i].path == p
    decreases |es|
  {
    if es == [] then []
    else
      var before, e := es[..|es| - 1], es[|es| - 1];
      assert es == before + [e];
      var h := Since(cfg, before, p);
      if e.path == p then h + [e]
      else if h != [] && (e.Sample? || Since(cfg, before, e.path) != [])
              && e.now - h[|h| - 1].now > cfg.historyDuration then []
      else h
  }

  /** RFC 6298 smoothing over the samples of a history. */
  function SmoothOver(h: seq<Event>): Maybe<Smooth>
    decreases |h|
  {
    if h == [] then None
    else
      var before := SmoothOver(h[..|h| - 1]);
      match h[|h| - 1]
      case Sample(_, _, rtt) => Some(Smoothen(before, rtt))
      case BackedOff(_, _, _) => before
  }

  function EntryOver(h: seq<Event>): Entry
    requires h != []
  {
    var e := h[|h| - 1];
    Entry(e.now, SmoothOver(h), if e.BackedOff? then Some(e.timeout) else None)
  }

  /** The latest backoff if no clean sample followed it, else SRTT + 4 RTTVAR over the samples,
      else the initial value. */
  function Estimate(cfg: RtoSettings, h: seq<Event>): int {
    if h == [] then cfg.initialRto
    else if h[|h| - 1].BackedOff? then h[|h| - 1].timeout
    else
      var s := SmoothOver(h);
      if s.Some? then s.value.srtt + 4 * s.value.rttvar else cfg.initialRto
  }

  lemma SimpleStepAt(cfg: RtoSettings, m: map<Path, Entry>, e: Event, p: Path)
    requires cfg.historyDuration >= 0
    ensures
      var m' := SimpleStep(cfg, m, e);
      if e.path == p then p in m' && m'[p] == Updated(m, e)
      else (p in m' <==> p in m && !(Clears(m, e) && Outdated(cfg, m[p], e.now))) && (p in m' ==> m'[p] == m[p])
  {
    hide Smoothen;
  }

  lemma {:induction false} EntriesFromEvents(cfg: RtoSettings, es: seq<Event>, p: Path)
    requires cfg.historyDuration >= 0
    ensures p in SimpleRun(cfg, es) <==> Since(cfg, es, p) != []
    ensures p in SimpleRun(cfg, es) ==> SimpleRun(cfg, es)[p] == EntryOver(Since(cfg, es, p))
    decreases |es|
  {
    if es != [] {
      var before, e := es[..|es| - 1], es[|es| - 1];
      EntriesFromEvents(cfg, before, p);
      EntriesFromEvents(cfg, before, e.path);
      var m, h := SimpleRun(cfg, before), Since(cfg, before, p);
      SimpleStepAt(cfg, m, e, p);
      hide Smoothen, SimpleStep;
      if e.path == p {
        assert Since(cfg, es, p) == h + [e];
        assert (h + [e])[..|h + [e]| - 1] == h;
        assert SmoothOver(h) == if p in m then m[p].smooth else None;
      }
    }
  }

  /** For every run with non-decreasing times and every path, the timeout handed out is the
      estimate over that path's own events since its last eviction. */
  lemma TimeoutIsEstimate(cfg: RtoSettings, es: seq<Event>, p: Path)
    requires cfg.historyDuration >= 0 && InOrder(es)
    ensures Timeout(cfg, AbsorbAll(cfg, es), p) == Estimate(cfg, Since(cfg, es, p))
  {
    hide AbsorbAll, SimpleRun, Since, SmoothOver, Ordered;
    RunIsSimple(cfg, es);
    EntriesFromEvents(cfg, es, p);
  }

  // ---- Smoothing stays within the samples ----

  ghost predicate SamplesWithin(h: seq<Event>, lo: int, hi: int) {
    forall i :: 0 <= i < |h| && h[i].Sample? ==> lo <= h[i].rtt <= hi
  }

  function Spread(lo: int, hi: int): int {
    if hi / 2 < hi - lo then hi - lo else hi / 2
  }

  lemma {:induction false} SmoothWithin(h: seq<Event>, lo: int, hi: int)
    requires 0 <= lo && SamplesWithin(h, lo, hi)
    ensures SmoothOver(h).Some? ==>
      lo <= SmoothOver(h).value.srtt <= hi && 0 <= SmoothOver(h).value.rttvar <= Spread(lo, hi)
    decreases |h|
  {
    if h != [] {
      var before, e := h[..|h| - 1], h[|h| - 1];
      SmoothWithin(before, lo, hi);
      if e.Sample? {
        SmoothenWithin(SmoothOver(before), e.rtt, lo, hi);
      }
    }
  }

  lemma SmoothenWithin(s: Maybe<Smooth>, rtt: int, lo: int, hi: int)
    requires 0 <= lo <= rtt <= hi
    requires s.Some? ==> lo <= s.value.srtt <= hi && 0 <= s.value.rttvar <= Spread(lo, hi)
    ensures lo <= Smoothen(s, rtt).srtt <= hi && 0 <= Smoothen(s, rtt).rttvar <= Spread(lo, hi)
  {
  }

  /** With integer truncation at every step, for every sequence of samples in [lo, hi], a
      sample-based timeout stays in [lo, hi + 4 max(hi / 2, hi - lo)]. */
  lemma TimeoutWithin(cfg: RtoSettings, es: seq<Event>, p: Path, lo: int, hi: int)
    requires cfg.historyDuration >= 0 && InOrder(es)
    requires 0 <= lo && forall i :: 0 <= i < |es| && es[i].Sample? && es[i].path == p ==> lo <= es[i].rtt <= hi
    requires
      var h := Since(cfg, es, p);
      h != [] && h[|h| - 1].Sample?
    ensures lo <= Timeout(cfg, AbsorbAll(cfg, es), p) <= hi + 4 * Spread(lo, hi)
  {
    var h := Since(cfg, es, p);
    TimeoutIsEstimate(cfg, es, p);
    forall i | 0 <= i < |h| && h[i].Sample? ensures lo <= h[i].rtt <= hi {
      var j :| 0 <= j < |es| && es[j] == h[i];
    }
    SmoothWithin(h, lo, hi);
    hide AbsorbAll, Since, Smoothen;
  }
}
