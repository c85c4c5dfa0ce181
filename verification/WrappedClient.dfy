/** The client with time points as they are in memory: 64-bit counters that wrap around, compared
    by half the range. It takes the same steps as the client with unbounded time for as long as
    all its times lie within a quarter of the range from now. */
module WrappedClient {
  import opened Bytes
  import opened Header
  import opened Messages
  import opened Rto
  import opened Retransmit
  import opened Client
  import opened ClientRuns
  import opened Provenance
  import T = Timepoint
  import Sequences

  // ---- Wrapping a state ----

  function WrapMaybe(t: Maybe<int>): Maybe<int> {
    if t.Some? then Some(T.Wrap(t.value)) else None
  }

  function WrapAlgo(a: Algo): Algo {
    a.(next := WrapMaybe(a.next))
  }

  function WrapTransaction(t: Transaction): Transaction {
    t.(algo := WrapAlgo(t.algo), createTime := T.Wrap(t.createTime))
  }

  function WrapDue(d: Due): Due {
    Due(T.Wrap(d.time), d.handle)
  }

  function WrapTimeline(ds: seq<Due>): (r: seq<Due>)
    ensures |r| == |ds| && forall i :: 0 <= i < |ds| ==> r[i] == WrapDue(ds[i])
  {
    seq(|ds|, i requires 0 <= i < |ds| => WrapDue(ds[i]))
  }

  function WrapTmap(m: map<Handle, Transaction>): (r: map<Handle, Transaction>)
    ensures r.Keys == m.Keys && forall h :: h in m ==> r[h] == WrapTransaction(m[h])
  {
    map h | h in m :: WrapTransaction(m[h])
  }

  function WrapEntry(e: Entry): Entry {
    e.(lastUpdate := T.Wrap(e.lastUpdate))
  }

  function WrapEntries(m: map<Path, Entry>): (r: map<Path, Entry>)
    ensures r.Keys == m.Keys && forall p :: p in m ==> r[p] == WrapEntry(m[p])
  {
    map p | p in m :: WrapEntry(m[p])
  }

  function WrapRto(st: RtoState): RtoState {
    st.(byPath := WrapEntries(st.byPath))
  }

  function WrapState(s: State): State {
    s.(tmap := WrapTmap(s.tmap), timeline := WrapTimeline(s.timeline), rto := WrapRto(s.rto))
  }

  // ---- The steps on wrapped time; every time in the state is a counter ----

  /** The order of the queue, from its comparator. */
  predicate Before(a: Due, b: Due) {
    !T.Greater(T.Wrapped(a), T.Wrapped(b))
  }

  function Queue(timeline: seq<Due>, d: Due): seq<Due> {
    if timeline == [] || Before(d, timeline[0]) then [d] + timeline
    else [timeline[0]] + Queue(timeline[1..], d)
  }

  function Tick(cfg: RetransmitSettings, a: Algo, now: T.Timepoint): Algo {
    if a.next.Some? && !T.IsBefore(now, T.Wrap(a.next.value)) then
      if Exhausted(cfg, a) then a.(next := None)
      else
        var wait := NextTimeout(cfg, a);
        a.(next := Some(T.Advance(now, wait)), rtxCount := a.rtxCount + 1, lastTimeout := wait)
    else a
  }

  predicate Ripe(s: State, now: T.Timepoint) {
    s.timeline != [] && !T.IsAfter(T.Wrap(s.timeline[0].time), now)
  }

  function Ring(cfg: Settings, s: State, now: T.Timepoint): State
    requires s.timeline != []
  {
    var h := s.timeline[0].handle;
    var rest := s.timeline[1..];
    if h !in s.tmap then s.(timeline := rest)
    else
      var t := s.tmap[h];
      var algo := Tick(cfg.retransmit, t.algo, now);
      if algo.next.Some? then
        s.(timeline := Queue(rest, Due(algo.next.value, h)),
           tmap := s.tmap[h := t.(algo := algo, rtxCount := t.rtxCount + 1)],
           effects := s.effects + [SendData(h, t.data)],
           stat := s.stat.(retransmits := s.stat.retransmits + 1))
      else
        s.(timeline := rest,
           tmap := s.tmap[h := t.(algo := algo)],
           effects := s.effects + [TransactionFailed(h, TimedOut)])
  }

  /** At most n turns of the timer loop. */
  function RingUpTo(cfg: Settings, s: State, now: T.Timepoint, n: nat): State
    decreases n
  {
    if n > 0 && Ripe(s, now) then RingUpTo(cfg, Ring(cfg, s, now), now, n - 1) else s
  }

  /** The timer loop ends in this state. */
  ghost predicate RingsOut(cfg: Settings, s: State, now: T.Timepoint, s': State) {
    !Ripe(s', now) && exists n :: RingUpTo(cfg, s, now, n) == s'
  }

  function After(s: State, now: T.Timepoint): (State, Effect) {
    if s.effects != [] then (Pop(s), s.effects[0])
    else if s.timeline == [] then (s, Idle)
    else (s, Sleep(T.Minus(T.Wrap(s.timeline[0].time), now)))
  }

  function Begin(cfg: Settings, s: State, now: T.Timepoint, tid: TransactionId, data: Bytes, path: Path,
                 auth: Maybe<Auth>): State {
    var h := AllocateHandle(s.nextHandle, s.tmap);
    var rto := Timeout(cfg.rto, s.rto, path);
    var algo := Algo(rto, Some(T.Advance(now, rto)), rto, 0, 0);
    s.(nextHandle := h + 1,
       tidToHandle := s.tidToHandle[tid := h],
       tmap := s.tmap[h := Transaction(tid, h, data, algo, path, now, auth, 0)],
       effects := s.effects + [SendData(h, data)],
       timeline := Queue(s.timeline, Due(T.Advance(now, rto), h)),
       stat := s.stat.(started := s.stat.started + 1))
  }

  function Clear(cfg: RtoSettings, st: RtoState, now: T.Timepoint): RtoState
    decreases |st.timeline|
  {
    if st.timeline != [] && st.timeline[0] in st.byPath
       && T.Minus(now, T.Wrap(st.byPath[st.timeline[0]].lastUpdate)) > cfg.historyDuration
    then Clear(cfg, RtoState(st.byPath - {st.timeline[0]}, st.timeline[1..]), now)
    else st
  }

  function Sampled(cfg: RtoSettings, st: RtoState, now: T.Timepoint, p: Path, rtt: int): RtoState {
    var st' := Clear(cfg, Touch(st, now, p), now);
    if p in st'.byPath then
      var e := st'.byPath[p];
      st'.(byPath := st'.byPath[p := e.(backoff := None, smooth := Some(Smoothen(e.smooth, rtt)))])
    else st'
  }

  function Backed(cfg: RtoSettings, st: RtoState, now: T.Timepoint, p: Path, timeout: int): RtoState {
    var st' := Touch(st, now, p);
    var st'' := st'.(byPath := st'.byPath[p := st'.byPath[p].(backoff := Some(timeout))]);
    if p in st.byPath then Clear(cfg, st'', now) else st''
  }

  function Taught(cfg: Settings, rto: RtoState, t: Transaction, now: T.Timepoint): RtoState {
    if t.rtxCount == 0 then Sampled(cfg.rto, rto, now, t.path, T.Minus(now, T.Wrap(t.createTime)))
    else Backed(cfg.rto, rto, now, t.path, t.algo.lastTimeout)
  }

  /** The outcome of a response: the round trip is a difference of counters, a granted deadline a
      counter. */
  function Meaning(cfg: Settings, t: Transaction, now: T.Timepoint, m: Message): Outcome {
    if m.header.cls == SuccessResponse then
      SuccessOutcome(t.(createTime := 0), T.Minus(now, T.Wrap(t.createTime)), m)
    else if m.header.cls == ErrorResponse then
      match ErrorOutcome(cfg, t, now, m)
      case Retry(algo) => Retry(WrapAlgo(algo))
      case o => o
    else Discard
  }

  function Settle(cfg: Settings, s: State, now: T.Timepoint, h: Handle, o: Outcome): State
    requires h in s.tmap
  {
    match o
    case Finish(e, learns) =>
      s.(effects := s.effects + [e],
         rto := if learns then Taught(cfg, s.rto, s.tmap[h], now) else s.rto,
         stat := if e.TransactionOk? then s.stat.(success := s.stat.success + 1) else s.stat)
    case Retry(algo) => s.(tmap := s.tmap[h := s.tmap[h].(algo := algo)])
    case Discard => s
  }

  function Hear(cfg: Settings, s: State, now: T.Timepoint, view: Bytes,
                given: Maybe<Message>): (State, Maybe<ClientError>) {
    match Accept(cfg, s, view, given)
    case Err(e) => (s, Some(e))
    case Ok((h, m)) => (Settle(cfg, s, now, h, Meaning(cfg, s.tmap[h], now, m)), None)
  }

  // ---- Near times ----

  const QUARTER := T.HALF / 2

  predicate NearTime(x: int, now: int) {
    -QUARTER < x - now < QUARTER
  }

  predicate NearAlgo(a: Algo, now: int) {
    a.next.Some? ==> NearTime(a.next.value, now)
  }

  ghost predicate NearTimeline(ds: seq<Due>, now: int) {
    forall i :: 0 <= i < |ds| ==> NearTime(ds[i].time, now)
  }

  ghost predicate NearTmap(m: map<Handle, Transaction>, now: int) {
    forall h :: h in m ==> NearAlgo(m[h].algo, now) && NearTime(m[h].createTime, now)
  }

  ghost predicate NearRto(m: map<Path, Entry>, now: int) {
    forall p :: p in m ==> NearTime(m[p].lastUpdate, now)
  }

  /** All times of the state lie within a quarter of the range from now. */
  ghost predicate Near(s: State, now: int) {
    NearTimeline(s.timeline, now) && NearTmap(s.tmap, now) && NearRto(s.rto.byPath, now)
  }

  lemma WrapTwice(x: int)
    ensures T.Wrap(T.Wrap(x)) == T.Wrap(x)
  {
    T.WrapNear(T.Wrap(x));
  }

  lemma AdvanceWraps(now: int, d: int)
    ensures T.Advance(T.Wrap(now), d) == T.Wrap(now + d)
  {
    var p, q := now / T.RANGE, d / T.RANGE;
    assert now + d == T.Wrap(now) + T.Wrap(d) + (p + q) * T.RANGE;
    T.WrapShift(T.Wrap(now) + T.Wrap(d), p + q);
  }

  // ---- Timers ----

  lemma BeforeSame(a: Due, b: Due, now: int)
    requires NearTime(a.time, now) && NearTime(b.time, now)
    ensures Before(WrapDue(a), WrapDue(b)) <==> NotLater(a, b)
  {
    WrapTwice(a.time);
    WrapTwice(b.time);
    T.HalfRange(a.time, b.time);
    T.HalfRange(b.time, a.time);
    hide T.IsAfter, T.Wrap;
  }

  lemma {:induction false} QueueSame(ds: seq<Due>, d: Due, now: int)
    requires NearTimeline(ds, now) && NearTime(d.time, now)
    ensures Queue(WrapTimeline(ds), WrapDue(d)) == WrapTimeline(Insert(ds, d))
  {
    hide Before, NotLater, WrapDue, NearTime;
    if ds != [] {
      BeforeSame(d, ds[0], now);
      QueueSame(ds[1..], d, now);
      assert WrapTimeline(ds)[1..] == WrapTimeline(ds[1..]);
    }
  }

  lemma TickSame(cfg: RetransmitSettings, a: Algo, now: int)
    requires NearAlgo(a, now)
    ensures Tick(cfg, WrapAlgo(a), T.Wrap(now)) == WrapAlgo(Advance(cfg, a, now))
  {
    if a.next.Some? {
      WrapTwice(a.next.value);
      T.HalfRange(now, a.next.value);
      AdvanceWraps(now, NextTimeout(cfg, a));
      hide T.IsBefore, T.Wrap, T.Advance;
      assert NextTimeout(cfg, WrapAlgo(a)) == NextTimeout(cfg, a);
      hide NextTimeout;
    }
  }

  lemma RipeSame(s: State, now: int)
    requires NearTimeline(s.timeline, now)
    ensures Ripe(WrapState(s), T.Wrap(now)) <==> TimerDue(s, now)
  {
    if s.timeline != [] {
      WrapTwice(s.timeline[0].time);
      T.HalfRange(s.timeline[0].time, now);
    }
    hide T.IsAfter, T.Wrap;
  }

  lemma RingSame(cfg: Settings, s: State, now: int)
    requires s.timeline != [] && Near(s, now) && Near(Fire(cfg, s, now), now)
    ensures Ring(cfg, WrapState(s), T.Wrap(now)) == WrapState(Fire(cfg, s, now))
  {
    var h, rest := s.timeline[0].handle, s.timeline[1..];
    assert WrapTimeline(s.timeline)[1..] == WrapTimeline(rest);
    if h in s.tmap {
      RingLive(cfg, s, now);
    }
    hide Ring, Fire;
  }

  lemma RingLive(cfg: Settings, s: State, now: int)
    requires s.timeline != [] && s.timeline[0].handle in s.tmap && Near(s, now) && Near(Fire(cfg, s, now), now)
    ensures Ring(cfg, WrapState(s), T.Wrap(now)) == WrapState(Fire(cfg, s, now))
  {
    hide Advance, Tick, Queue, Insert, WrapTmap, WrapTimeline, WrapRto, WrapTransaction, T.Wrap, T.Advance, NearTime;
    var h, rest := s.timeline[0].handle, s.timeline[1..];
    var t := s.tmap[h];
    var algo := Advance(cfg.retransmit, t.algo, now);
    TailWrapped(s.timeline, now);
    LiveWrapped(s, now, h);
    TickSame(cfg.retransmit, t.algo, now);
    if algo.next.Some? {
      var t' := t.(algo := algo, rtxCount := t.rtxCount + 1);
      assert Fire(cfg, s, now).tmap[h] == t';
      assert NearTime(algo.next.value, now) by { LiveWrapped(Fire(cfg, s, now), now, h); }
      QueueSame(rest, Due(algo.next.value, h), now);
      TmapUpdate(s.tmap, h, t');
      TransactionUpdate(t, algo, t.rtxCount + 1);
    } else {
      TmapUpdate(s.tmap, h, t.(algo := algo));
      TransactionUpdate(t, algo, t.rtxCount);
    }
  }

  lemma TailWrapped(ds: seq<Due>, now: int)
    requires ds != [] && NearTimeline(ds, now)
    ensures WrapTimeline(ds)[1..] == WrapTimeline(ds[1..]) && WrapTimeline(ds)[0].handle == ds[0].handle
    ensures NearTimeline(ds[1..], now)
  {
    hide NearTime;
  }

  lemma LiveWrapped(s: State, now: int, h: Handle)
    requires Near(s, now) && h in s.tmap
    ensures NearAlgo(s.tmap[h].algo, now) && NearTime(s.tmap[h].createTime, now)
    ensures h in WrapState(s).tmap && WrapState(s).tmap[h] == WrapTransaction(s.tmap[h])
    ensures s.tmap[h].algo.next.Some? ==> NearTime(s.tmap[h].algo.next.value, now)
  {
    hide NearTime, WrapTransaction;
  }

  lemma TransactionUpdate(t: Transaction, algo: Algo, n: nat)
    ensures WrapTransaction(t).(algo := WrapAlgo(algo), rtxCount := n)
      == WrapTransaction(t.(algo := algo, rtxCount := n))
    ensures WrapTransaction(t).algo == WrapAlgo(t.algo) && WrapTransaction(t).data == t.data
    ensures WrapTransaction(t).rtxCount == t.rtxCount
  {
  }

  lemma TmapUpdate(m: map<Handle, Transaction>, h: Handle, t: Transaction)
    ensures WrapTmap(m[h := t]) == WrapTmap(m)[h := WrapTransaction(t)]
  {
    hide WrapTransaction;
  }

  /** All states the timer loop passes through are near. */
  ghost predicate NearDrain(cfg: Settings, s: State, now: int)
    decreases Work(cfg, s.tmap, s.timeline, now)
  {
    Near(s, now) && (TimerDue(s, now) ==> (FireSpends(cfg, s, now); NearDrain(cfg, Fire(cfg, s, now), now)))
  }

  lemma {:induction false} RingsSame(cfg: Settings, s: State, now: int, n: nat)
    requires NearDrain(cfg, s, now) && n >= Work(cfg, s.tmap, s.timeline, now)
    ensures RingUpTo(cfg, WrapState(s), T.Wrap(now), n) == WrapState(Drain(cfg, s, now))
    ensures !TimerDue(Drain(cfg, s, now), now) && Near(Drain(cfg, s, now), now)
    decreases Work(cfg, s.tmap, s.timeline, now)
  {
    RipeSame(s, now);
    if TimerDue(s, now) {
      FireSpends(cfg, s, now);
      assert NearDrain(cfg, Fire(cfg, s, now), now);
      RingSame(cfg, s, now);
      hide Ring, Fire, Work, Near, Ripe, TimerDue, WrapState;
      RingsSame(cfg, Fire(cfg, s, now), now, n - 1);
    }
  }

  lemma DrainRingsOut(cfg: Settings, s: State, now: int)
    requires NearDrain(cfg, s, now)
    ensures RingsOut(cfg, WrapState(s), T.Wrap(now), WrapState(Drain(cfg, s, now)))
  {
    RingsSame(cfg, s, now, Work(cfg, s.tmap, s.timeline, now));
    RipeSame(Drain(cfg, s, now), now);
    hide Drain, RingUpTo, WrapState, Ripe, TimerDue;
  }

  /** Where the timer loop ends is determined. */
  lemma RingsOutUnique(cfg: Settings, s: State, now: T.Timepoint, a: State, b: State)
    requires RingsOut(cfg, s, now, a) && RingsOut(cfg, s, now, b)
    ensures a == b
  {
    var m :| RingUpTo(cfg, s, now, m) == a;
    var n :| RingUpTo(cfg, s, now, n) == b;
    if m <= n {
      RingsStop(cfg, s, now, m, n);
    } else {
      RingsStop(cfg, s, now, n, m);
    }
  }

  lemma {:induction false} RingsStop(cfg: Settings, s: State, now: T.Timepoint, m: nat, n: nat)
    requires m <= n && !Ripe(RingUpTo(cfg, s, now, m), now)
    ensures RingUpTo(cfg, s, now, n) == RingUpTo(cfg, s, now, m)
    decreases m
  {
    hide Ring;
    if m > 0 && Ripe(s, now) {
      RingsStop(cfg, Ring(cfg, s, now), now, m - 1, n - 1);
    }
  }

  // ---- next ----

  lemma PopSame(s: State)
    requires s.effects != []
    ensures Pop(WrapState(s)) == WrapState(Pop(s))
  {
    var e := s.effects[0];
    if Terminal(e) && e.handle in s.tmap {
      assert WrapTmap(s.tmap) - {e.handle} == WrapTmap(s.tmap - {e.handle});
    }
  }

  lemma AfterSame(cfg: Settings, s: State, now: int)
    requires Near(s, now) && !TimerDue(s, now) && Drain(cfg, s, now) == s
    ensures
      var (s', e) := Next(cfg, s, now);
      After(WrapState(s), T.Wrap(now)) == (WrapState(s'), e)
  {
    hide Drain;
    if s.effects != [] {
      PopSame(s);
      hide Pop;
    } else if s.timeline != [] {
      WrapTwice(s.timeline[0].time);
      T.HalfRange(s.timeline[0].time, now);
      hide T.Wrap, T.Minus;
    }
  }

  // ---- create ----

  lemma {:induction false} AllocateSame(next: Handle, tmap: map<Handle, Transaction>)
    ensures AllocateHandle(next, WrapTmap(tmap)) == AllocateHandle(next, tmap)
    decreases |tmap|
  {
    hide WrapTransaction;
    if next in tmap {
      var smaller := tmap - {next};
      assert tmap.Keys == smaller.Keys + {next} && |tmap| == |tmap.Keys| && |smaller| == |smaller.Keys|;
      assert WrapTmap(tmap) - {next} == WrapTmap(smaller);
      AllocateSame(next + 1, smaller);
    }
  }

  lemma TimeoutSame(cfg: RtoSettings, st: RtoState, p: Path)
    ensures Timeout(cfg, WrapRto(st), p) == Timeout(cfg, st, p)
  {
  }

  lemma BeginSame(cfg: Settings, s: State, now: int, tid: TransactionId, data: Bytes, path: Path, auth: Maybe<Auth>)
    requires Near(s, now) && Near(StartTransaction(cfg, s, now, tid, data, path, auth), now)
    ensures Begin(cfg, WrapState(s), T.Wrap(now), tid, data, path, auth)
            == WrapState(StartTransaction(cfg, s, now, tid, data, path, auth))
  {
    hide Queue, Insert, WrapTmap, WrapTimeline, WrapRto, T.Wrap, T.Advance, Timeout, AllocateHandle, NearTime;
    var s' := StartTransaction(cfg, s, now, tid, data, path, auth);
    var h, rto := AllocateHandle(s.nextHandle, s.tmap), Timeout(cfg.rto, s.rto, path);
    AllocateSame(s.nextHandle, s.tmap);
    TimeoutSame(cfg.rto, s.rto, path);
    AdvanceWraps(now, rto);
    assert NearTime(now + rto, now) by { LiveWrapped(s', now, h); }
    QueueSame(s.timeline, Due(now + rto, h), now);
    TmapUpdate(s.tmap, h, s'.tmap[h]);
  }

  // ---- response ----

  lemma {:induction false} ClearSame(cfg: RtoSettings, st: RtoState, now: int)
    requires NearRto(st.byPath, now)
    ensures Clear(cfg, WrapRto(st), T.Wrap(now)) == WrapRto(ClearOutdated(cfg, st, now))
    decreases |st.timeline|
  {
    hide T.Minus, T.Wrap, NearTime;
    if st.timeline != [] && st.timeline[0] in st.byPath {
      var p := st.timeline[0];
      var rest := RtoState(st.byPath - {p}, st.timeline[1..]);
      ElapsedSame(now, st.byPath[p].lastUpdate);
      ClearSame(cfg, rest, now);
      assert WrapEntries(st.byPath) - {p} == WrapEntries(rest.byPath);
    }
  }

  lemma ElapsedSame(now: int, x: int)
    requires NearTime(x, now)
    ensures T.Minus(T.Wrap(now), T.Wrap(T.Wrap(x))) == now - x
  {
    WrapTwice(x);
    T.HalfRange(now, x);
    hide T.Minus, T.Wrap;
  }

  lemma EntriesUpdate(m: map<Path, Entry>, p: Path, e: Entry)
    ensures WrapEntries(m[p := e]) == WrapEntries(m)[p := WrapEntry(e)]
  {
    hide WrapEntry;
  }

  lemma TouchSame(st: RtoState, now: int, p: Path)
    requires NearRto(st.byPath, now)
    ensures Touch(WrapRto(st), T.Wrap(now), p) == WrapRto(Touch(st, now, p))
    ensures NearRto(Touch(st, now, p).byPath, now)
  {
    hide Sequences.Without, T.Wrap;
    EntriesUpdate(st.byPath, p, Touch(st, now, p).byPath[p]);
  }

  lemma SampledSame(cfg: RtoSettings, st: RtoState, now: int, p: Path, rtt: int)
    requires NearRto(st.byPath, now)
    ensures Sampled(cfg, WrapRto(st), T.Wrap(now), p, rtt) == WrapRto(NewRtt(cfg, st, now, p, rtt))
  {
    var st1 := Touch(st, now, p);
    TouchSame(st, now, p);
    ClearSame(cfg, st1, now);
    var st2 := ClearOutdated(cfg, st1, now);
    hide Touch, Clear, ClearOutdated, Smoothen, T.Wrap, NearRto;
    if p in st2.byPath {
      var e := st2.byPath[p].(backoff := None, smooth := Some(Smoothen(st2.byPath[p].smooth, rtt)));
      EntriesUpdate(st2.byPath, p, e);
    }
  }

  lemma BackedSame(cfg: RtoSettings, st: RtoState, now: int, p: Path, timeout: int)
    requires NearRto(st.byPath, now)
    ensures Backed(cfg, WrapRto(st), T.Wrap(now), p, timeout) == WrapRto(Backoff(cfg, st, now, p, timeout))
  {
    var st1 := Touch(st, now, p);
    TouchSame(st, now, p);
    var e := st1.byPath[p].(backoff := Some(timeout));
    EntriesUpdate(st1.byPath, p, e);
    var st2 := st1.(byPath := st1.byPath[p := e]);
    ClearSame(cfg, st2, now);
    hide Clear, ClearOutdated, T.Wrap, NearTime;
    assert p in st1.byPath && p in WrapRto(st1).byPath;
    hide Touch;
  }

  lemma TaughtSame(cfg: Settings, rto: RtoState, t: Transaction, now: int)
    requires NearRto(rto.byPath, now) && NearTime(t.createTime, now)
    ensures Taught(cfg, WrapRto(rto), WrapTransaction(t), T.Wrap(now)) == WrapRto(Learn(cfg, rto, t, now))
  {
    hide Sampled, Backed, NewRtt, Backoff, T.Wrap, T.Minus, WrapRto, NearRto, NearTime;
    ElapsedSame(now, t.createTime);
    SampledSame(cfg.rto, rto, now, t.path, now - t.createTime);
    BackedSame(cfg.rto, rto, now, t.path, t.algo.lastTimeout);
  }

  function WrapOutcome(o: Outcome): Outcome {
    match o
    case Retry(algo) => Retry(WrapAlgo(algo))
    case _ => o
  }

  lemma MeaningSame(cfg: Settings, t: Transaction, now: int, m: Message)
    requires NearTime(t.createTime, now)
    ensures Meaning(cfg, WrapTransaction(t), T.Wrap(now), m) == WrapOutcome(OutcomeOf(cfg, t, now, m))
  {
    ElapsedSame(now, t.createTime);
    if cfg.retransmit.serverErrorTimeout.Some? {
      GrantSame(now, cfg.retransmit.serverErrorTimeout.value);
    }
    hide T.Wrap, T.Minus, UnknownRequired;
  }

  lemma GrantSame(now: int, d: int)
    ensures T.Wrap(T.Wrap(now) + d) == T.Wrap(now + d)
  {
    var p := now / T.RANGE;
    assert now + d == T.Wrap(now) + d + p * T.RANGE;
    T.WrapShift(T.Wrap(now) + d, p);
  }

  lemma AcceptSame(cfg: Settings, s: State, view: Bytes, given: Maybe<Message>)
    ensures Accept(cfg, WrapState(s), view, given) == Accept(cfg, s, view, given)
  {
    hide MessageOf, T.Wrap;
  }

  lemma SettleSame(cfg: Settings, s: State, now: int, h: Handle, o: Outcome)
    requires Near(s, now) && h in s.tmap
    ensures Settle(cfg, WrapState(s), T.Wrap(now), h, WrapOutcome(o)) == WrapState(Apply(cfg, s, now, h, o))
  {
    hide Taught, Learn, T.Wrap, NearTime, WrapTmap, WrapTimeline, WrapRto, WrapTransaction;
    LiveWrapped(s, now, h);
    TaughtSame(cfg, s.rto, s.tmap[h], now);
    if o.Retry? {
      TmapUpdate(s.tmap, h, s.tmap[h].(algo := o.algo));
      TransactionUpdate(s.tmap[h], o.algo, s.tmap[h].rtxCount);
    }
  }

  lemma HearSame(cfg: Settings, s: State, now: int, view: Bytes, given: Maybe<Message>)
    requires Near(s, now)
    ensures
      var (s', r) := Respond(cfg, s, now, view, given);
      Hear(cfg, WrapState(s), T.Wrap(now), view, given) == (WrapState(s'), r)
  {
    AcceptSame(cfg, s, view, given);
    hide Accept, Settle, Meaning, OutcomeOf, Apply, WrapState, Near;
    match Accept(cfg, s, view, given) {
      case Err(_) =>
      case Ok((h, m)) =>
        LiveWrapped(s, now, h);
        MeaningSame(cfg, s.tmap[h], now, m);
        SettleSame(cfg, s, now, h, OutcomeOf(cfg, s.tmap[h], now, m));
    }
  }

  // ---- Steps and runs ----

  /** What a call returns: an effect, an error if any, or a handle. */
  datatype Output = Gave(effect: Effect) | Said(error: Maybe<ClientError>) | Made(handle: Handle)

  function Out(cfg: Settings, s: State, op: Op): Output {
    match op
    case Create(_, _, _, _, _) => Made(AllocateHandle(s.nextHandle, s.tmap))
    case Receive(now, view, given) => Said(Respond(cfg, s, now, view, given).1)
    case Poll(now) => Gave(Next(cfg, s, now).1)
  }

  /** A call on wrapped time takes the client from one state to another and returns this. */
  ghost predicate WrappedStep(cfg: Settings, s: State, op: Op, s': State, out: Output) {
    var now := T.Wrap(op.now);
    match op
    case Create(_, tid, data, path, auth) =>
      && s' == (if tid in s.tidToHandle then s else Begin(cfg, s, now, tid, data, path, auth))
      && out == Made(AllocateHandle(s.nextHandle, s.tmap))
    case Receive(_, view, given) =>
      (s', out) == (Hear(cfg, s, now, view, given).0, Said(Hear(cfg, s, now, view, given).1))
    case Poll(_) =>
      exists mid :: RingsOut(cfg, s, now, mid) && s' == After(mid, now).0 && out == Gave(After(mid, now).1)
  }

  /** All times the call looks at are near. */
  ghost predicate NearStep(cfg: Settings, s: State, op: Op) {
    match op
    case Create(now, tid, data, path, auth) =>
      Near(s, now) && (tid !in s.tidToHandle ==> Near(StartTransaction(cfg, s, now, tid, data, path, auth), now))
    case Receive(now, _, _) => Near(s, now)
    case Poll(now) => NearDrain(cfg, s, now)
  }

  lemma PollWrapped(cfg: Settings, s: State, now: int)
    requires NearDrain(cfg, s, now)
    ensures WrappedStep(cfg, WrapState(s), Poll(now), WrapState(Next(cfg, s, now).0), Gave(Next(cfg, s, now).1))
  {
    DrainRingsOut(cfg, s, now);
    RingsSame(cfg, s, now, Work(cfg, s.tmap, s.timeline, now));
    var mid := Drain(cfg, s, now);
    NothingDue(cfg, mid, now);
    AfterSame(cfg, mid, now);
    assert Next(cfg, mid, now) == Next(cfg, s, now);
    hide RingsOut, After, Next, WrapState, NearDrain, Drain;
  }

  /** Every call whose times are near takes the wrapped client where it takes the client with
      unbounded time, and returns the same. */
  lemma StepSame(cfg: Settings, w: World, op: Op)
    requires NearStep(cfg, w.s, op)
    ensures WrappedStep(cfg, WrapState(w.s), op, WrapState(Step(cfg, w, op).s), Out(cfg, w.s, op))
  {
    match op {
      case Create(now, tid, data, path, auth) =>
        AllocateSame(w.s.nextHandle, w.s.tmap);
        if tid !in w.s.tidToHandle {
          BeginSame(cfg, w.s, now, tid, data, path, auth);
        }
        hide Begin, StartTransaction, AllocateHandle, Near, Timeout;
      case Receive(now, view, given) =>
        HearSame(cfg, w.s, now, view, given);
        hide Hear, Respond, WrapState, Verdict, Lesson;
      case Poll(now) =>
        PollWrapped(cfg, w.s, now);
        hide WrappedStep, Next, WrapState;
    }
  }

  lemma WrappedAtFirst()
    ensures WrapState(INITIAL) == INITIAL
  {
  }

  /** For every run whose times stay near at every call: the wrapped states of the run with
      unbounded time are a run of the wrapped client, with the same effects, errors and handles
      returned. So what is proved of every run holds of the client in memory. */
  lemma RunSame(cfg: Settings, ops: seq<Op>)
    requires forall k :: 0 <= k < |ops| ==> NearStep(cfg, Run(cfg, ops[..k]).s, ops[k])
    ensures WrapState(Run(cfg, ops[..0]).s) == INITIAL
    ensures forall k :: 0 <= k < |ops| ==>
      WrappedStep(cfg, WrapState(Run(cfg, ops[..k]).s), ops[k], WrapState(Run(cfg, ops[..k + 1]).s),
                  Out(cfg, Run(cfg, ops[..k]).s, ops[k]))
  {
    WrappedAtFirst();
    assert Run(cfg, ops[..0]).s == INITIAL;
    hide *;
    forall k | 0 <= k < |ops|
      ensures WrappedStep(cfg, WrapState(Run(cfg, ops[..k]).s), ops[k], WrapState(Run(cfg, ops[..k + 1]).s),
                          Out(cfg, Run(cfg, ops[..k]).s, ops[k]))
    {
      RunStep(cfg, ops, k);
      StepSame(cfg, Run(cfg, ops[..k]), ops[k]);
    }
  }
}
