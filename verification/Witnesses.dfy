/** Runs at which properties one might expect of the client fail, or bounds are reached. */
module Witnesses {
  import opened Bytes
  import opened Header
  import opened Attributes
  import opened Messages
  import opened Rto
  import opened Retransmit
  import opened Client
  import opened ClientInvariant
  import opened ClientRuns
  import opened Outcomes
  import opened Effort
  import opened Schedule
  import opened Timetable

  lemma FireThenNothing(cfg: Settings, s: State, now: int)
    requires TimerDue(s, now) && !TimerDue(Fire(cfg, s, now), now)
    ensures Drain(cfg, s, now) == Fire(cfg, s, now)
  {
    hide Fire, Work;
    FireSpends(cfg, s, now);
    NothingDue(cfg, Fire(cfg, s, now), now);
  }

  /** A lone transaction waiting for its timer, all effects handed out. */
  ghost predicate Waiting(s: State, h: Handle, t: Transaction, time: int) {
    s.tmap == map[h := t] && s.timeline == [Due(time, h)] && s.effects == [] && t.algo.next == Some(time)
  }

  /** A lone waiting transaction after its timer fired: one wait later, one request spent. */
  function Again(cfg: Settings, t: Transaction, time: int): Transaction {
    var w := NextTimeout(cfg.retransmit, t.algo);
    var algo := t.algo.(next := Some(time + w), rtxCount := t.algo.rtxCount + 1, lastTimeout := w);
    t.(algo := algo, rtxCount := t.rtxCount + 1)
  }

  /** The timer fires: the request goes out again, and the next timer is one wait away. */
  lemma WaitAgain(cfg: Settings, s: State, h: Handle, t: Transaction, time: int)
    requires Waiting(s, h, t, time) && !Exhausted(cfg.retransmit, t.algo) && NextTimeout(cfg.retransmit, t.algo) > 0
    ensures
      var wait := NextTimeout(cfg.retransmit, t.algo);
      var (s', e) := Next(cfg, s, time);
      && e == SendData(h, t.data) && Next(cfg, s', time).1 == Sleep(wait)
      && Waiting(s', h, Again(cfg, t, time), time + wait)
  {
    hide NextTimeout, Exhausted;
    var s1 := Fire(cfg, s, time);
    var d := Due(time + NextTimeout(cfg.retransmit, t.algo), h);
    assert s.timeline[1..] == [] && s1.timeline == [d] && s1.effects == [SendData(h, t.data)];
    assert s1.tmap == map[h := Again(cfg, t, time)];
    FireThenNothing(cfg, s, time);
    hide Fire, Drain;
    var s2 := Next(cfg, s, time).0;
    assert s2.timeline == [d] && s2.effects == [];
    NothingDue(cfg, s2, time);
  }

  /** A first request at time zero, handed out at once: the client then waits for its timer. */
  lemma FirstWait(cfg: Settings, tid: TransactionId, data: Bytes, path: Path,
                  auth: Maybe<Auth>) returns (t: Transaction)
    requires cfg.rto.initialRto > 0
    ensures
      var ops := [Create(0, tid, data, path, auth), Poll(0)];
      Waiting(Run(cfg, ops).s, 0, t, cfg.rto.initialRto)
    ensures t.data == data && t.algo == Algo(cfg.rto.initialRto, Some(cfg.rto.initialRto), cfg.rto.initialRto, 0, 0)
  {
    var ops := [Create(0, tid, data, path, auth), Poll(0)];
    assert ops[..1] == [ops[0]] && ops[..1][..0] == [];
    var s := StartTransaction(cfg, INITIAL, 0, tid, data, path, auth);
    t := s.tmap[0];
    assert Run(cfg, ops[..1]).s == s;
    assert s.timeline == [Due(cfg.rto.initialRto, 0)] && s.effects == [SendData(0, data)];
    NothingDue(cfg, s, 0);
    assert Run(cfg, ops) == Step(cfg, Run(cfg, ops[..1]), Poll(0));
    hide Run, StartTransaction, Drain;
  }

  // ---- The documented maximum ----

  /** The second and third wait of a first transaction, with four or more requests planned: the
      third is twice the second, which is at least the maximum. */
  lemma ThirdWait(cfg: Settings, tid: TransactionId, data: Bytes, path: Path, auth: Maybe<Auth>)
    requires cfg.rto.initialRto > 0 && cfg.retransmit.requestCount >= 4
    ensures
      var rto := cfg.rto.initialRto;
      var second := Floored(cfg, 2 * rto);
      var w := Run(cfg, [Create(0, tid, data, path, auth), Poll(0)]);
      var s1 := Next(cfg, w.s, rto).0;
      var s2 := Next(cfg, s1, rto + second).0;
      && Next(cfg, s1, rto).1 == Sleep(second)
      && Next(cfg, s2, rto + second).1 == Sleep(Floored(cfg, 2 * second))
  {
    var t := FirstWait(cfg, tid, data, path, auth);
    hide *;
    TwoWaits(cfg, Run(cfg, [Create(0, tid, data, path, auth), Poll(0)]).s, t);
  }

  lemma TwoWaits(cfg: Settings, s: State, t: Transaction)
    requires cfg.rto.initialRto > 0 && cfg.retransmit.requestCount >= 4 && Waiting(s, 0, t, cfg.rto.initialRto)
    requires t.algo == Algo(cfg.rto.initialRto, Some(cfg.rto.initialRto), cfg.rto.initialRto, 0, 0)
    ensures
      var rto := cfg.rto.initialRto;
      var second := Floored(cfg, 2 * rto);
      var s1 := Next(cfg, s, rto).0;
      var s2 := Next(cfg, s1, rto + second).0;
      && Next(cfg, s1, rto).1 == Sleep(second)
      && Next(cfg, s2, rto + second).1 == Sleep(Floored(cfg, 2 * second))
  {
    hide Next;
    var rto := cfg.rto.initialRto;
    assert NextTimeout(cfg.retransmit, t.algo) == Floored(cfg, 2 * rto);
    WaitAgain(cfg, s, 0, t, rto);
    var t1 := Again(cfg, t, rto);
    assert NextTimeout(cfg.retransmit, t1.algo) == Floored(cfg, 2 * Floored(cfg, 2 * rto));
    WaitAgain(cfg, Next(cfg, s, rto).0, 0, t1, rto + Floored(cfg, 2 * rto));
  }

  const HALF_SECOND := 500_000
  const EIGHT_SECONDS := 8_000_000

  /** Half a second of initial timeout, seven requests, and a maximum. */
  function Seven(most: int): Settings {
    Settings(false, RetransmitSettings(Some(most), 7, 16, None, 0), RtoSettings(HALF_SECOND, 600_000_000), false)
  }

  /** With a maximum of half a second the client sleeps a second after its second request. */
  lemma MaximumExceeded(tid: TransactionId, data: Bytes, path: Path)
    ensures
      var cfg := Seven(HALF_SECOND);
      var w := Run(cfg, [Create(0, tid, data, path, None), Poll(0), Poll(HALF_SECOND)]);
      Next(cfg, w.s, HALF_SECOND).1 == Sleep(2 * HALF_SECOND)
  {
    var cfg := Seven(HALF_SECOND);
    ThirdWait(cfg, tid, data, path, None);
    var ops := [Create(0, tid, data, path, None), Poll(0)];
    PollState(cfg, ops, HALF_SECOND);
    assert ops + [Poll(HALF_SECOND)] == [Create(0, tid, data, path, None), Poll(0), Poll(HALF_SECOND)];
    assert Floored(cfg, 2 * HALF_SECOND) == 2 * HALF_SECOND;
    hide *;
  }

  /** A maximum of eight seconds is kept by the second wait, which it raises to eight seconds, and
      broken by the third, which doubles that. */
  lemma EightSecondsDoubled(tid: TransactionId, data: Bytes, path: Path)
    ensures
      var cfg, later := Seven(EIGHT_SECONDS), HALF_SECOND + EIGHT_SECONDS;
      var w := Run(cfg, [Create(0, tid, data, path, None), Poll(0), Poll(HALF_SECOND), Poll(later)]);
      Next(cfg, w.s, later).1 == Sleep(2 * EIGHT_SECONDS)
  {
    var cfg, later := Seven(EIGHT_SECONDS), HALF_SECOND + EIGHT_SECONDS;
    var ops := [Create(0, tid, data, path, None), Poll(0)];
    assert ops + [Poll(HALF_SECOND)] + [Poll(later)]
        == [Create(0, tid, data, path, None), Poll(0), Poll(HALF_SECOND), Poll(later)];
    assert Floored(cfg, 2 * HALF_SECOND) == EIGHT_SECONDS && Floored(cfg, 2 * EIGHT_SECONDS) == 2 * EIGHT_SECONDS;
    assert cfg.rto.initialRto == HALF_SECOND && cfg.retransmit.requestCount == 7;
    hide *;
    ThirdWait(cfg, tid, data, path, None);
    PollState(cfg, ops, HALF_SECOND);
    PollState(cfg, ops + [Poll(HALF_SECOND)], later);
  }

  // ---- A single request ----

  /** With a single planned request the transaction fails one plain timeout after its creation,
      whatever the multiplier. */
  lemma SingleRequestTimesOut(cfg: Settings, tid: TransactionId, data: Bytes, path: Path, auth: Maybe<Auth>)
    requires cfg.rto.initialRto > 0 && cfg.retransmit.requestCount == 1
    ensures
      var w := Run(cfg, [Create(0, tid, data, path, auth), Poll(0)]);
      Next(cfg, w.s, cfg.rto.initialRto).1 == TransactionFailed(0, TimedOut)
    ensures cfg.retransmit.multiplier > 1 ==> cfg.rto.initialRto < RfcTimeout(cfg, Birth(0, cfg.rto.initialRto))
  {
    var t := FirstWait(cfg, tid, data, path, auth);
    hide Run, Next, RfcTimeout;
    LastTimerFires(cfg, Run(cfg, [Create(0, tid, data, path, auth), Poll(0)]).s, t);
    PlainIsShort(cfg);
  }

  lemma LastTimerFires(cfg: Settings, s: State, t: Transaction)
    requires Waiting(s, 0, t, cfg.rto.initialRto) && Exhausted(cfg.retransmit, t.algo)
    ensures Next(cfg, s, cfg.rto.initialRto).1 == TransactionFailed(0, TimedOut)
  {
    var rto := cfg.rto.initialRto;
    var s1 := Fire(cfg, s, rto);
    assert s1.timeline == [] && s1.effects == [TransactionFailed(0, TimedOut)];
    FireThenNothing(cfg, s, rto);
    hide Fire, Drain;
  }

  lemma PlainIsShort(cfg: Settings)
    requires cfg.rto.initialRto > 0 && cfg.retransmit.requestCount == 1
    ensures cfg.retransmit.multiplier > 1 ==> cfg.rto.initialRto < RfcTimeout(cfg, Birth(0, cfg.rto.initialRto))
  {
    var m, rto := cfg.retransmit.multiplier, cfg.rto.initialRto;
    assert Pow2(0) == 1 && RfcTimeout(cfg, Birth(0, rto)) == m * rto;
    if m > 1 {
      assert m * rto == (m - 1) * rto + rto;
    }
  }

  // ---- One 5xx response, two more requests ----

  /** An error response with code 500. */
  function ServerError(tid: TransactionId): Message {
    Message(Header(ErrorResponse, BINDING, tid), AttributeSet(map[ERROR_CODE := ErrorCode(500, None)], []), false, None)
  }

  /** A single request is planned; a 5xx grants another one, later than the timer already set. */
  predicate Patient(cfg: Settings) {
    && cfg.retransmit.requestCount == 1 && cfg.retransmit.serverErrorMax >= 1 && cfg.retransmit.serverErrorTimeout.Some?
    && 0 < cfg.rto.initialRto < cfg.retransmit.serverErrorTimeout.value
  }

  /** The lone transaction after its 5xx response: its timer is stale, its deadline is later. */
  ghost predicate Stalled(cfg: Settings, s: State, t: Transaction)
    requires cfg.retransmit.serverErrorTimeout.Some?
  {
    var rto := cfg.rto.initialRto;
    && s.tmap == map[0 := t] && s.timeline == [Due(rto, 0)] && s.effects == [SendData(0, t.data)]
    && t.algo == Algo(rto, Some(cfg.retransmit.serverErrorTimeout.value), rto, 0, 1)
  }

  lemma GetsServerError(cfg: Settings, tid: TransactionId, data: Bytes, path: Path) returns (t: Transaction)
    requires Patient(cfg)
    ensures
      var w := Run(cfg, [Create(0, tid, data, path, None), Receive(0, [], Some(ServerError(tid)))]);
      Stalled(cfg, w.s, t) && t.data == data && w.log == [] && w.retries == [0]
  {
    var op, answer := Create(0, tid, data, path, None), Receive(0, [], Some(ServerError(tid)));
    var w1 := Step(cfg, BEGIN, op);
    var s := w1.s;
    assert s == StartTransaction(cfg, INITIAL, 0, tid, data, path, None);
    assert w1.log == [] && w1.retries == [];
    assert s.timeline == [Due(cfg.rto.initialRto, 0)] && s.effects == [SendData(0, data)];
    assert s.tmap == map[0 := s.tmap[0]] && s.tidToHandle == map[tid := 0];
    RunTwo(cfg, op, answer);
    hide Run, StartTransaction;
    var algo := ErrorRetries(cfg, s, tid);
    t := s.tmap[0].(algo := algo);
    hide Verdict, Accept, OutcomeOf;
    assert s.tmap[0 := t] == map[0 := t];
  }

  lemma RunTwo(cfg: Settings, a: Op, b: Op)
    ensures Run(cfg, [a, b]) == Step(cfg, Step(cfg, BEGIN, a), b)
  {
    hide Step;
    assert [a, b][..1] == [a] && [a][..0] == [];
    assert Run(cfg, [a]) == Step(cfg, BEGIN, a);
  }

  lemma ErrorRetries(cfg: Settings, s: State, tid: TransactionId) returns (algo: Algo)
    requires Patient(cfg) && s.tidToHandle == map[tid := 0] && 0 in s.tmap && s.tmap[0].auth.None?
    requires s.tmap[0].algo == Algo(cfg.rto.initialRto, Some(cfg.rto.initialRto), cfg.rto.initialRto, 0, 0)
    ensures algo == Algo(cfg.rto.initialRto, Some(cfg.retransmit.serverErrorTimeout.value), cfg.rto.initialRto, 0, 1)
    ensures
      var m := ServerError(tid);
      && Accept(cfg, s, [], Some(m)) == Ok((0, m)) && OutcomeOf(cfg, s.tmap[0], 0, m) == Retry(algo)
      && Verdict(cfg, s, Receive(0, [], Some(m))) == Some((0, Retry(algo)))
  {
    assert UnknownRequired(ServerError(tid).attrs.unknown) == [];
    algo := s.tmap[0].algo.(n5xx := 1, next := Some(cfg.retransmit.serverErrorTimeout.value));
    assert Accept(cfg, s, [], Some(ServerError(tid))) == Ok((0, ServerError(tid)));
  }

  /** The stale timer resends at once, the granted request follows at its deadline. */
  lemma ResendsTwice(cfg: Settings, s: State, t: Transaction)
    requires Patient(cfg) && Stalled(cfg, s, t)
    ensures
      var e, later := SendData(0, t.data), cfg.retransmit.serverErrorTimeout.value;
      var (s1, e1) := Next(cfg, s, cfg.rto.initialRto);
      e1 == e && s1.effects == [e] && Drain(cfg, s1, later).effects == [e, e]
  {
    var rto, later := cfg.rto.initialRto, cfg.retransmit.serverErrorTimeout.value;
    var e := SendData(0, t.data);
    var s1 := Fire(cfg, s, rto);
    assert s.timeline[1..] == [] && s1.timeline == [Due(later, 0)] && s1.effects == [e, e];
    assert s1.tmap == map[0 := t.(rtxCount := t.rtxCount + 1)];
    FireThenNothing(cfg, s, rto);
    var s2 := Pop(s1);
    assert Next(cfg, s, rto) == (s2, e) && s2.effects == [e] && s2.timeline == s1.timeline && s2.tmap == s1.tmap;
    hide Drain, Next;
    var s3 := Fire(cfg, s2, later);
    assert s2.timeline[1..] == [] && s3.effects == [e, e] && |s3.timeline| == 1;
    assert s3.timeline[0].time > later;
    FireThenNothing(cfg, s2, later);
  }

  /** The bound on sends is reached: one planned request, one accepted 5xx, three requests. */
  lemma BoundReached(cfg: Settings, tid: TransactionId, data: Bytes, path: Path)
    requires Patient(cfg)
    ensures
      var w := Run(cfg, [Create(0, tid, data, path, None), Receive(0, [], Some(ServerError(tid))),
                         Poll(cfg.rto.initialRto), Poll(cfg.retransmit.serverErrorTimeout.value)]);
      Count(w.retries, 0) == 1 && Sends(History(w), 0) == Planned(cfg) + 2
  {
    var rto, later, e := cfg.rto.initialRto, cfg.retransmit.serverErrorTimeout.value, SendData(0, data);
    var ops := [Create(0, tid, data, path, None), Receive(0, [], Some(ServerError(tid)))];
    var t := GetsServerError(cfg, tid, data, path);
    assert ops + [Poll(rto)] + [Poll(later)] == [ops[0], ops[1], Poll(rto), Poll(later)];
    assert Planned(cfg) == 1;
    hide *;
    var w := Run(cfg, ops);
    ResendsTwice(cfg, w.s, t);
    PollState(cfg, ops, rto);
    PollLog(cfg, w, rto);
    var w1 := Step(cfg, w, Poll(rto));
    PollState(cfg, ops + [Poll(rto)], later);
    RunInv(cfg, ops + [Poll(rto)]);
    PollHistory(cfg, w1, later);
    PollLog(cfg, w1, later);
    ThreeSends(w1, e, Drain(cfg, w1.s, later).effects);
    OneRetry();
  }

  lemma PollLog(cfg: Settings, w: World, now: int)
    ensures
      var w', (s', e) := Step(cfg, w, Poll(now)), Next(cfg, w.s, now);
      w'.s == s' && w'.retries == w.retries && (Proper(e) ==> w'.log == w.log + [Stamped(now, e)])
  {
    hide Next;
  }

  lemma ThreeSends(w: World, e: Effect, es: seq<Effect>)
    requires e.SendData? && e.handle == 0 && |w.log| == 1 && w.log[0].effect == e && es == [e, e]
    ensures Sends(Delivered(w.log) + es, 0) == 3
  {
    assert Delivered(w.log) + es == [] + [e] + [e] + [e];
    SendsAppend([], e, 0);
    SendsAppend([] + [e], e, 0);
    SendsAppend([] + [e] + [e], e, 0);
  }

  lemma OneRetry()
    ensures Count([0], 0) == 1
  {
    CountAppend([], 0, 0);
    assert [] + [0] == [0];
  }
}
