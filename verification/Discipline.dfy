/** Ways of calling the client that give every transaction exactly one outcome, and one that
    does not. */
module Discipline {
  import opened Bytes
  import opened Header
  import opened Messages
  import opened Address
  import opened Rto
  import opened Retransmit
  import opened Client
  import opened ClientInvariant
  import opened ClientRuns
  import opened Outcomes

  /** Every queued outcome of a live transaction is out of reach of its timer: it is its timeout,
      or the timer lies beyond the instant of the response that queued it. */
  ghost predicate Shielded(s: State, pending: Maybe<int>) {
    forall h :: h in s.tmap && FinishedIn(s.effects, h) ==>
      TimeoutQueued(s.effects, h) || (pending.Some? && TimerBeyond(s.timeline, h, pending.value))
  }

  ghost predicate TimerBeyond(timeline: seq<Due>, h: Handle, t: int) {
    forall i :: 0 <= i < |timeline| && timeline[i].handle == h ==> timeline[i].time > t
  }

  ghost predicate AtInstant(pending: Maybe<int>, now: int) {
    pending.Some? ==> pending.value == now
  }

  lemma ShieldedIsSafe(s: State, pending: Maybe<int>, now: int)
    requires Inv(s) && Shielded(s, pending) && AtInstant(pending, now)
    ensures TimersSafe(s, now)
  {
    forall i | 0 <= i < |s.timeline| && s.timeline[i].time <= now && s.timeline[i].handle in s.tmap
      ensures !FinishedIn(s.effects, s.timeline[i].handle)
    {
      assert HasTimer(s.timeline, s.timeline[i].handle);
    }
  }

  lemma BeyondTail(timeline: seq<Due>, h: Handle, t: int)
    requires timeline != [] && TimerBeyond(timeline, h, t)
    ensures TimerBeyond(timeline[1..], h, t)
  {
  }

  lemma BeyondInsert(timeline: seq<Due>, d: Due, h: Handle, t: int)
    requires TimerBeyond(timeline, h, t) && d.handle != h
    ensures TimerBeyond(Insert(timeline, d), h, t)
  {
    var k := InsertAt(timeline, d);
    hide Insert;
  }

  lemma FireShielded(cfg: Settings, s: State, now: int, pending: Maybe<int>)
    requires Inv(s) && Shielded(s, pending) && AtInstant(pending, now) && TimerDue(s, now)
    ensures Shielded(Fire(cfg, s, now), pending)
  {
    var s' := Fire(cfg, s, now);
    var h0, rest := s.timeline[0].handle, s.timeline[1..];
    ShieldedIsSafe(s, pending, now);
    var algo := if h0 in s.tmap then Advance(cfg.retransmit, s.tmap[h0].algo, now) else NewAlgo(0, 0);
    hide Advance, Inv;
    forall h | h in s'.tmap && FinishedIn(s'.effects, h)
      ensures TimeoutQueued(s'.effects, h) || (pending.Some? && TimerBeyond(s'.timeline, h, pending.value))
    {
      if h0 !in s.tmap {
        if !TimeoutQueued(s.effects, h) { BeyondTail(s.timeline, h, pending.value); }
      } else {
        var e := s'.effects[|s.effects|];
        FinishedAppend(s.effects, [e], h);
        FinishedSingle(e, h);
        QueueTimeouts(s.effects, e);
        if h != h0 && !TimeoutQueued(s.effects, h) {
          BeyondTail(s.timeline, h, pending.value);
          if algo.next.Some? { BeyondInsert(rest, Due(algo.next.value, h0), h, pending.value); }
        }
      }
    }
  }

  lemma {:induction false} DrainShielded(cfg: Settings, s: State, now: int, pending: Maybe<int>)
    requires Inv(s) && Shielded(s, pending) && AtInstant(pending, now)
    ensures Shielded(Drain(cfg, s, now), pending)
    decreases Work(cfg, s.tmap, s.timeline, now)
  {
    hide Inv, Fire, Work, Shielded;
    if TimerDue(s, now) {
      FireSpends(cfg, s, now);
      FireInv(cfg, s, now);
      FireShielded(cfg, s, now, pending);
      DrainShielded(cfg, Fire(cfg, s, now), now, pending);
    }
  }

  lemma PopShielded(s: State, pending: Maybe<int>)
    requires Inv(s) && Shielded(s, pending) && s.effects != []
    ensures Shielded(Pop(s), pending)
  {
    var s', e := Pop(s), s.effects[0];
    PopTimeouts(s.effects);
    PopKnown(s);
    assert s.effects == [e] + s.effects[1..];
    assert s'.timeline == s.timeline && s'.effects == s.effects[1..];
    forall h | h in s'.tmap && FinishedIn(s'.effects, h)
      ensures TimeoutQueued(s'.effects, h) || (pending.Some? && TimerBeyond(s'.timeline, h, pending.value))
    {
      FinishedAppend([e], s.effects[1..], h);
    }
  }

  /** All outcomes handed out and no timer due. */
  predicate Quiet(s: State, now: int) {
    s.effects == [] && !TimerDue(s, now)
  }

  /** Responses are only given to a quiet client, and what they queue is drained at the same
      instant. */
  predicate Disciplined(w: World, op: Op) {
    match op
    case Create(_, _, _, _, _) => true
    case Receive(now, _, _) => Quiet(w.s, now)
    case Poll(now) => w.pending.Some? ==> w.pending.value == now
  }

  ghost predicate AllDisciplined(cfg: Settings, ops: seq<Op>) {
    forall k :: 0 <= k < |ops| ==> Disciplined(Run(cfg, ops[..k]), ops[k])
  }

  lemma QuietTimers(s: State, now: int)
    requires Inv(s) && Quiet(s, now)
    ensures forall h :: TimerBeyond(s.timeline, h, now)
  {
  }

  lemma StepShielded(cfg: Settings, w: World, op: Op)
    requires WorldInv(w) && Shielded(w.s, w.pending) && Disciplined(w, op)
    ensures Safe(cfg, w.s, op)
    ensures Shielded(Step(cfg, w, op).s, Step(cfg, w, op).pending)
  {
    match op {
      case Create(_, _, _, _, _) => CreateShielded(cfg, w, op);
      case Receive(now, _, _) => ReceiveShielded(cfg, w, op);
      case Poll(now) => PollShielded(cfg, w, now);
    }
  }

  lemma CreateShielded(cfg: Settings, w: World, op: Op)
    requires WorldInv(w) && Shielded(w.s, w.pending) && op.Create?
    ensures Shielded(Step(cfg, w, op).s, Step(cfg, w, op).pending)
  {
    if op.tid !in w.s.tidToHandle {
      hide Timeout, Insert;
      KnownHandlesOnly(w.s);
      var s, s', n := w.s, Step(cfg, w, op).s, w.s.nextHandle;
      var e, d := SendData(n, op.data), Due(op.now + Timeout(cfg.rto, s.rto, op.path), n);
      assert s'.effects == s.effects + [e] && s'.timeline == Insert(s.timeline, d);
      QueueTimeouts(s.effects, e);
      forall h | h in s'.tmap && FinishedIn(s'.effects, h)
        ensures TimeoutQueued(s'.effects, h) || (w.pending.Some? && TimerBeyond(s'.timeline, h, w.pending.value))
      {
        FinishedAppend(s.effects, [e], h);
        FinishedSingle(e, h);
        NoFinishAhead(s.effects, n);
        if !TimeoutQueued(s.effects, h) {
          BeyondInsert(s.timeline, d, h, w.pending.value);
        }
      }
    }
  }

  lemma NoFinishAhead(effects: seq<Effect>, n: Handle)
    requires EffectsKnown(effects, n)
    ensures !FinishedIn(effects, n)
  {
  }

  lemma ReceiveShielded(cfg: Settings, w: World, op: Op)
    requires WorldInv(w) && op.Receive? && Quiet(w.s, op.now)
    ensures Safe(cfg, w.s, op)
    ensures Shielded(Step(cfg, w, op).s, Some(op.now))
  {
    hide Accept, OutcomeOf, Learn, TimerBeyond;
    assert forall h :: !FinishedIn(w.s.effects, h);
    QuietTimers(w.s, op.now);
  }

  lemma PollShielded(cfg: Settings, w: World, now: int)
    requires WorldInv(w) && Shielded(w.s, w.pending) && AtInstant(w.pending, now)
    ensures TimersSafe(w.s, now)
    ensures Shielded(Step(cfg, w, Poll(now)).s, Step(cfg, w, Poll(now)).pending)
  {
    ShieldedIsSafe(w.s, w.pending, now);
    DrainInv(cfg, w.s, now);
    DrainShielded(cfg, w.s, now, w.pending);
    var s1 := Drain(cfg, w.s, now);
    hide Drain, Inv;
    if s1.effects != [] {
      PopShielded(s1, w.pending);
    }
  }

  /** The documented way of driving the client: in every disciplined run each started transaction
      has no outcome handed out while it is live and exactly one once it is gone, and nothing is
      said about it afterwards. */
  lemma DisciplinedExactlyOnce(cfg: Settings, ops: seq<Op>)
    requires AllDisciplined(cfg, ops)
    ensures AllProper(History(Run(cfg, ops))) && AtMostOnce(History(Run(cfg, ops)))
    ensures OnceEach(Run(cfg, ops))
    ensures forall h :: FinishedIn(Delivered(Run(cfg, ops).log), h) ==> h !in Run(cfg, ops).s.tmap
  {
    RunInv(cfg, ops);
    DisciplinedSafe(cfg, ops);
    AtMostOnceIffSafe(cfg, ops);
    SafeOnceEach(cfg, ops);
  }

  /** When such a run ends with Idle, every transaction ever started has had exactly one outcome. */
  lemma DisciplinedIdle(cfg: Settings, ops: seq<Op>, now: int)
    requires AllDisciplined(cfg, ops + [Poll(now)]) && Next(cfg, Run(cfg, ops).s, now).1 == Idle
    ensures
      var w := Run(cfg, ops + [Poll(now)]);
      forall h :: h in w.born ==> OutcomesOf(Delivered(w.log), h) == 1
  {
    hide *;
    DisciplinedSafe(cfg, ops + [Poll(now)]);
    IdleOnceEach(cfg, ops, now);
  }

  lemma {:induction false} DisciplinedSafe(cfg: Settings, ops: seq<Op>)
    requires AllDisciplined(cfg, ops)
    ensures AllSafe(cfg, ops)
    ensures Shielded(Run(cfg, ops).s, Run(cfg, ops).pending)
  {
    if ops != [] {
      var n := |ops| - 1;
      var before := ops[..n];
      assert ops[..n] == before;
      assert Disciplined(Run(cfg, before), ops[n]);
      assert forall k :: 0 <= k < n ==> ops[..k] == before[..k] && ops[k] == before[k];
      assert AllDisciplined(cfg, before);
      DisciplinedSafe(cfg, before);
      RunInv(cfg, before);
      StepShielded(cfg, Run(cfg, before), ops[n]);
      hide Step, Safe, AllSafe, WorldInv, Shielded;
      AllSafeSnoc(cfg, ops);
    }
  }

  /** With creates and polls alone no discipline is needed. */
  lemma {:induction false} NoResponsesExactlyOnce(cfg: Settings, ops: seq<Op>)
    requires forall k :: 0 <= k < |ops| ==> !ops[k].Receive?
    ensures AllProper(History(Run(cfg, ops))) && AtMostOnce(History(Run(cfg, ops)))
    ensures OnceEach(Run(cfg, ops))
  {
    forall k | 0 <= k < |ops| ensures Disciplined(Run(cfg, ops[..k]), ops[k]) {
      NeverPending(cfg, ops[..k]);
    }
    hide Disciplined, Run;
    DisciplinedExactlyOnce(cfg, ops);
  }

  lemma {:induction false} NeverPending(cfg: Settings, ops: seq<Op>)
    requires forall k :: 0 <= k < |ops| ==> !ops[k].Receive?
    ensures Run(cfg, ops).pending == None
  {
    hide Next, StartTransaction;
    if ops != [] {
      NeverPending(cfg, ops[..|ops| - 1]);
    }
  }

  // ---- A duplicated response breaks it ----

  /** A success response that carries no address. */
  const EMPTY_SUCCESS := Message(Header(SuccessResponse, BINDING, seq(12, i => 0)), EMPTY, false, None)

  const TWICE: seq<Op> :=
    [Create(0, EMPTY_SUCCESS.header.tid, [], Path(V4([0, 0, 0, 0]), V4([0, 0, 0, 0])), None),
     Receive(1, [], Some(EMPTY_SUCCESS)),
     Receive(1, [], Some(EMPTY_SUCCESS))]

  /** Two copies of one response, given back to back, finish the same transaction twice. */
  lemma DuplicateFinishesTwice(cfg: Settings)
    ensures !AllSafe(cfg, TWICE)
    ensures AllProper(History(Run(cfg, TWICE))) && !AtMostOnce(History(Run(cfg, TWICE)))
  {
    AtMostOnceIffSafe(cfg, TWICE);
    hide AtMostOnce, History, Step, Safe;
    RunTwice(cfg);
    var w1 := Step(cfg, BEGIN, TWICE[0]);
    var h := CreatedLive(cfg);
    AnsweredWithoutAddress(cfg, w1, h, 1);
    var w2 := Step(cfg, w1, TWICE[1]);
    AnsweredWithoutAddress(cfg, w2, h, 1);
    FinishedIsUnsafe(cfg, w1, w2, h);
  }

  lemma RunTwice(cfg: Settings)
    ensures Run(cfg, TWICE[..2]) == Step(cfg, Step(cfg, BEGIN, TWICE[0]), TWICE[1])
  {
    hide Step;
    assert TWICE[..1][..0] == [] && TWICE[..2][..1] == TWICE[..1];
    assert Run(cfg, TWICE[..1]) == Step(cfg, BEGIN, TWICE[0]);
  }

  lemma CreatedLive(cfg: Settings) returns (h: Handle)
    ensures
      var s, tid := Step(cfg, BEGIN, TWICE[0]).s, EMPTY_SUCCESS.header.tid;
      tid in s.tidToHandle && s.tidToHandle[tid] == h && h in s.tmap && s.tmap[h].auth.None? && s.tmap[h].hnd == h
  {
    hide Timeout, Insert;
    h := Step(cfg, BEGIN, TWICE[0]).s.tidToHandle[EMPTY_SUCCESS.header.tid];
  }

  lemma FinishedIsUnsafe(cfg: Settings, w1: World, w2: World, h: Handle)
    requires w2.s.effects == w1.s.effects + [TransactionFailed(h, Failed(NoAddressInResponse))] && h in w2.s.tmap
    requires Verdict(cfg, w2.s, TWICE[2]) == Some((h, Finish(TransactionFailed(h, Failed(NoAddressInResponse)), true)))
    ensures !Safe(cfg, w2.s, TWICE[2])
  {
    hide Verdict;
    assert Terminal(w2.s.effects[|w1.s.effects|]);
    assert FinishedIn(w2.s.effects, h);
  }

  lemma AnsweredWithoutAddress(cfg: Settings, w: World, h: Handle, now: int)
    requires EMPTY_SUCCESS.header.tid in w.s.tidToHandle && w.s.tidToHandle[EMPTY_SUCCESS.header.tid] == h
    requires h in w.s.tmap && w.s.tmap[h].auth.None? && w.s.tmap[h].hnd == h
    ensures
      var op := Receive(now, [], Some(EMPTY_SUCCESS));
      && Verdict(cfg, w.s, op) == Some((h, Finish(TransactionFailed(h, Failed(NoAddressInResponse)), true)))
      && var s' := Step(cfg, w, op).s;
         && s'.effects == w.s.effects + [TransactionFailed(h, Failed(NoAddressInResponse))]
         && s'.tmap == w.s.tmap && s'.tidToHandle == w.s.tidToHandle && s'.timeline == w.s.timeline
  {
    hide Learn;
    assert UnknownRequired(EMPTY_SUCCESS.attrs.unknown) == [];
    assert Accept(cfg, w.s, [], Some(EMPTY_SUCCESS)) == Ok((h, EMPTY_SUCCESS));
  }

  // ---- So does a response that races a due timer ----

  /** A response given at the instant its transaction's timer is due, before the client is asked:
      the timer then fires behind the queued outcome, so the request is sent again or the
      transaction fails a second time. */
  lemma RaceGoesOnAfterOutcome(cfg: Settings, ops: seq<Op>)
    requires ops == [TWICE[0], Receive(cfg.rto.initialRto, [], Some(EMPTY_SUCCESS)), Poll(cfg.rto.initialRto)]
    ensures !AllSafe(cfg, ops)
    ensures AllProper(History(Run(cfg, ops))) && !AtMostOnce(History(Run(cfg, ops)))
  {
    AtMostOnceIffSafe(cfg, ops);
    hide AtMostOnce, History, Step, Safe;
    assert ops[..1][..0] == [] && ops[..2][..1] == ops[..1];
    var w1 := Step(cfg, BEGIN, ops[0]);
    var w2 := Step(cfg, w1, ops[1]);
    assert Run(cfg, ops[..1]) == w1 && Run(cfg, ops[..2]) == w2;
    var h := CreatedLive(cfg);
    CreatedTimer(cfg, h);
    AnsweredWithoutAddress(cfg, w1, h, cfg.rto.initialRto);
    hide Run;
    TimerIsUnsafe(cfg, w1, w2, h);
  }

  lemma CreatedTimer(cfg: Settings, h: Handle)
    requires h in Step(cfg, BEGIN, TWICE[0]).s.tmap
    ensures Step(cfg, BEGIN, TWICE[0]).s.timeline == [Due(cfg.rto.initialRto, h)]
  {
  }

  lemma TimerIsUnsafe(cfg: Settings, w1: World, w2: World, h: Handle)
    requires w2.s.effects == w1.s.effects + [TransactionFailed(h, Failed(NoAddressInResponse))] && h in w2.s.tmap
    requires w2.s.timeline == [Due(cfg.rto.initialRto, h)]
    ensures !Safe(cfg, w2.s, Poll(cfg.rto.initialRto))
  {
    assert Terminal(w2.s.effects[|w1.s.effects|]);
    assert FinishedIn(w2.s.effects, h);
    assert w2.s.timeline[0].handle == h;
  }
}
