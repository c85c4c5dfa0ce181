/** The same guarantees under conditions a caller can check: over the calls it makes and the
    effects and errors they return, without looking into the client. */
module Callers {
  import opened Bytes
  import opened Header
  import opened Messages
  import opened Rto
  import opened Client
  import opened ClientInvariant
  import opened ClientRuns
  import opened Outcomes
  import opened Provenance
  import opened Discipline
  import opened Schedule
  import opened Timetable
  import opened Estimates

  /** What call k of a run returned, where it was a poll. */
  function Returned(cfg: Settings, ops: seq<Op>, k: nat): Effect
    requires k < |ops| && ops[k].Poll?
  {
    Next(cfg, Run(cfg, ops[..k]).s, ops[k].now).1
  }

  /** The client had nothing more to do: Sleep or Idle. */
  predicate Resting(e: Effect) {
    e.Sleep? || e.Idle?
  }

  ghost predicate RestedAt(cfg: Settings, ops: seq<Op>, k: nat) {
    k < |ops| && ops[k].Poll? && Resting(Returned(cfg, ops, k))
  }

  /** The client returns Sleep or Idle exactly when firing its timers leaves nothing queued; it is
      then quiet, and a Sleep ends when its first timer is due. */
  lemma RestingMeansQuiet(cfg: Settings, s: State, now: int)
    requires Inv(s) && Resting(Next(cfg, s, now).1)
    ensures
      var (s', e) := Next(cfg, s, now);
      && Quiet(s', now)
      && (e.Sleep? ==> s'.timeline != [] && s'.timeline[0].time == now + e.duration && e.duration > 0)
      && (e.Idle? ==> s'.timeline == [] && s'.tmap == map[])
  {
    DrainInv(cfg, s, now);
    EffectsProper(Drain(cfg, s, now));
    DrainDone(cfg, s, now);
    if Next(cfg, s, now).1.Idle? {
      IdleMeansDone(cfg, s, now);
    }
    hide Drain, Inv;
  }

  lemma {:induction false} DrainDone(cfg: Settings, s: State, now: int)
    ensures !TimerDue(Drain(cfg, s, now), now)
    decreases Work(cfg, s.tmap, s.timeline, now)
  {
    hide Work, Fire;
    if TimerDue(s, now) {
      FireSpends(cfg, s, now);
      DrainDone(cfg, Fire(cfg, s, now), now);
    }
  }

  lemma RestedState(cfg: Settings, ops: seq<Op>, k: nat)
    requires RestedAt(cfg, ops, k)
    ensures
      var w, e := Run(cfg, ops[..k + 1]), Returned(cfg, ops, k);
      && Quiet(w.s, ops[k].now) && w.clock == ops[k].now && w.pending == None
      && (e.Sleep? ==> w.s.timeline != [] && w.s.timeline[0].time == ops[k].now + e.duration)
      && (e.Idle? ==> w.s.timeline == [])
  {
    RunInv(cfg, ops[..k]);
    RunStep(cfg, ops, k);
    var w := Run(cfg, ops[..k]);
    hide Run, Inv;
    RestingMeansQuiet(cfg, w.s, ops[k].now);
    hide Next;
  }

  // ---- Exactly one outcome ----

  /** Responses are given only right after the client returned Sleep or Idle at that instant, and
      until it does so again it is only asked at the instant of the response. */
  ghost predicate CarefulCaller(cfg: Settings, ops: seq<Op>) {
    && (forall k :: 0 <= k < |ops| && ops[k].Receive? ==>
          k > 0 && RestedAt(cfg, ops, k - 1) && ops[k - 1].now == ops[k].now)
    && (forall j, k :: 0 <= j < k < |ops| && ops[j].Receive? && ops[k].Poll? && NoRest(cfg, ops, j, k) ==>
          ops[k].now == ops[j].now)
  }

  ghost predicate NoRest(cfg: Settings, ops: seq<Op>, j: nat, k: nat) {
    forall i :: j < i < k ==> !RestedAt(cfg, ops, i)
  }

  /** A response is still pending only if the client has not returned Sleep or Idle since. */
  lemma {:induction false} PendingSince(cfg: Settings, ops: seq<Op>, k: nat) returns (j: nat)
    requires k <= |ops| && Run(cfg, ops[..k]).pending.Some?
    ensures j < k && ops[j].Receive? && ops[j].now == Run(cfg, ops[..k]).pending.value && NoRest(cfg, ops, j, k)
    decreases k
  {
    if k == 0 {
      NothingPending(cfg, ops);
    }
    hide *;
    RunStep(cfg, ops, k - 1);
    if ops[k - 1].Receive? {
      j := k - 1;
      NowPending(cfg, Run(cfg, ops[..j]), ops[j]);
      NoRestBetween(cfg, ops, j);
    } else {
      StillPending(cfg, Run(cfg, ops[..k - 1]), ops[k - 1]);
      j := PendingSince(cfg, ops, k - 1);
      if RestedAt(cfg, ops, k - 1) {
        RestedState(cfg, ops, k - 1);
      }
      NoRestLater(cfg, ops, j, k - 1);
    }
  }

  lemma NothingPending(cfg: Settings, ops: seq<Op>)
    ensures Run(cfg, ops[..0]).pending == None
  {
    hide Step;
  }

  lemma NowPending(cfg: Settings, w: World, op: Op)
    requires op.Receive?
    ensures Step(cfg, w, op).pending == Some(op.now)
  {
    hide Respond, Verdict, Lesson;
  }

  lemma NoRestBetween(cfg: Settings, ops: seq<Op>, j: nat)
    ensures NoRest(cfg, ops, j, j + 1)
  {
    hide RestedAt;
  }

  lemma NoRestLater(cfg: Settings, ops: seq<Op>, j: nat, k: nat)
    requires NoRest(cfg, ops, j, k) && !RestedAt(cfg, ops, k)
    ensures NoRest(cfg, ops, j, k + 1)
  {
    hide RestedAt;
  }

  lemma StillPending(cfg: Settings, w: World, op: Op)
    requires !op.Receive? && Step(cfg, w, op).pending.Some?
    ensures Step(cfg, w, op).pending == w.pending
  {
    hide Next, StartTransaction, AllocateHandle, Timeout;
  }

  lemma CarefulIsDisciplined(cfg: Settings, ops: seq<Op>)
    requires CarefulCaller(cfg, ops)
    ensures AllDisciplined(cfg, ops)
  {
    hide Run, Quiet;
    forall k | 0 <= k < |ops| ensures Disciplined(Run(cfg, ops[..k]), ops[k]) {
      if ops[k].Receive? {
        RestedState(cfg, ops, k - 1);
      } else if ops[k].Poll? && Run(cfg, ops[..k]).pending.Some? {
        var j := PendingSince(cfg, ops, k);
        hide NoRest, RestedAt;
      }
    }
  }

  /** For every run of a careful caller: every transaction started has had exactly one outcome
      handed out once it is gone, none while it is live, and nothing follows an outcome. If the
      last call returned Idle, every transaction ever started has had exactly one. */
  lemma CarefulExactlyOnce(cfg: Settings, ops: seq<Op>)
    requires CarefulCaller(cfg, ops)
    ensures AllProper(History(Run(cfg, ops))) && AtMostOnce(History(Run(cfg, ops))) && OnceEach(Run(cfg, ops))
    ensures ops != [] && ops[|ops| - 1].Poll? && Returned(cfg, ops, |ops| - 1).Idle? ==>
      forall h :: h in Run(cfg, ops).born ==> OutcomesOf(Delivered(Run(cfg, ops).log), h) == 1
  {
    hide *;
    CarefulIsDisciplined(cfg, ops);
    DisciplinedExactlyOnce(cfg, ops);
    if ops != [] && ops[|ops| - 1].Poll? && Returned(cfg, ops, |ops| - 1).Idle? {
      LastIdle(cfg, ops);
      OnceEachIdle(Run(cfg, ops));
    }
  }

  lemma LastIdle(cfg: Settings, ops: seq<Op>)
    requires ops != [] && ops[|ops| - 1].Poll? && Returned(cfg, ops, |ops| - 1).Idle?
    ensures Run(cfg, ops).s.tmap == map[]
  {
    var n := |ops| - 1;
    RunInv(cfg, ops[..n]);
    RunStep(cfg, ops, n);
    assert ops[..n + 1] == ops;
    hide Run, Inv;
    RestingMeansQuiet(cfg, Run(cfg, ops[..n]).s, ops[n].now);
    hide Next;
  }

  // ---- The schedule ----

  /** Time starts at zero or later, does not go back, and moves on only after the client returned
      Idle, or Sleep, and then no further than the sleep. */
  ghost predicate PunctualCaller(cfg: Settings, ops: seq<Op>) {
    && (ops != [] ==> ops[0].now >= 0)
    && forall k :: 0 < k < |ops| ==>
         && ops[k - 1].now <= ops[k].now
         && (ops[k - 1].now < ops[k].now ==>
               RestedAt(cfg, ops, k - 1)
               && (Returned(cfg, ops, k - 1).Sleep? ==>
                     ops[k].now <= ops[k - 1].now + Returned(cfg, ops, k - 1).duration))
  }

  /** The client could be called at this time: it has been, or nothing happens until then. */
  ghost predicate Ready(w: World, now: int) {
    w.clock <= now && (w.clock < now ==> w.s.effects == [] && (w.s.timeline != [] ==> w.s.timeline[0].time >= now))
  }

  lemma StepReady(cfg: Settings, w: World, op: Op)
    requires Eager(w, op)
    ensures Ready(Step(cfg, w, op), op.now)
  {
    hide Next, Respond, StartTransaction, Verdict, Lesson, AllocateHandle, Timeout;
  }

  lemma {:induction false} PunctualReady(cfg: Settings, ops: seq<Op>, k: nat)
    requires PunctualCaller(cfg, ops) && k < |ops|
    ensures Eager(Run(cfg, ops[..k]), ops[k])
    decreases k
  {
    if k == 0 {
      assert ops[..0] == [];
      hide Step;
    } else {
      hide *;
      PunctualReady(cfg, ops, k - 1);
      RunStep(cfg, ops, k - 1);
      StepReady(cfg, Run(cfg, ops[..k - 1]), ops[k - 1]);
      PunctualAt(cfg, ops, k);
      if ops[k - 1].now < ops[k].now {
        RestedReady(cfg, ops, k);
      }
      ReadyIsEager(Run(cfg, ops[..k]), ops[k]);
    }
  }

  lemma PunctualAt(cfg: Settings, ops: seq<Op>, k: nat)
    requires PunctualCaller(cfg, ops) && 0 < k < |ops|
    ensures ops[k - 1].now <= ops[k].now
    ensures ops[k - 1].now < ops[k].now ==>
      RestedAt(cfg, ops, k - 1) && ops[k - 1].Poll?
      && (Returned(cfg, ops, k - 1).Sleep? ==> ops[k].now <= ops[k - 1].now + Returned(cfg, ops, k - 1).duration)
  {
    hide Run, Returned;
  }

  lemma ReadyIsEager(w: World, op: Op)
    requires Ready(w, op.now)
    ensures Eager(w, op)
  {
  }

  lemma RestedReady(cfg: Settings, ops: seq<Op>, k: nat)
    requires 0 < k < |ops| && RestedAt(cfg, ops, k - 1) && ops[k - 1].now <= ops[k].now
    requires Returned(cfg, ops, k - 1).Sleep? ==> ops[k].now <= ops[k - 1].now + Returned(cfg, ops, k - 1).duration
    ensures Ready(Run(cfg, ops[..k]), ops[k].now)
  {
    hide Run, Returned;
    RestedState(cfg, ops, k - 1);
  }

  lemma PunctualIsEager(cfg: Settings, ops: seq<Op>)
    requires PunctualCaller(cfg, ops)
    ensures AllEager(cfg, ops)
  {
    hide Run, Eager, PunctualCaller;
    forall k | 0 <= k < |ops| ensures Eager(Run(cfg, ops[..k]), ops[k]) {
      PunctualReady(cfg, ops, k);
    }
  }

  /** For every run of a punctual caller whose last call returned Sleep or Idle, and every
      transaction no response was accepted for: its requests and its timeout have been handed out
      exactly as scheduled up to now. */
  lemma PunctualSchedule(cfg: Settings, ops: seq<Op>, h: Handle)
    requires Standard(cfg) && PunctualCaller(cfg, ops) && Unanswered(cfg, ops, h) && h in Run(cfg, ops).born
    requires ops != [] && RestedAt(cfg, ops, |ops| - 1)
    ensures cfg.retransmit.requestCount >= 1 && Run(cfg, ops).clock == ops[|ops| - 1].now
    ensures OnTimetable(cfg, Run(cfg, ops), h) && RfcTimes(cfg, Run(cfg, ops).born[h])
  {
    assert cfg.retransmit.requestCount >= 1;
    assert ops[..|ops|] == ops;
    hide *;
    PunctualIsEager(cfg, ops);
    RestedState(cfg, ops, |ops| - 1);
    ScheduleExact(cfg, ops, h);
  }

  // ---- Transactions nobody answered ----

  /** What the client returned for response k. */
  function Answered(cfg: Settings, ops: seq<Op>, k: nat): Maybe<ClientError>
    requires k < |ops| && ops[k].Receive?
  {
    Respond(cfg, Run(cfg, ops[..k]).s, ops[k].now, ops[k].view, ops[k].given).1
  }

  /** Every response that carries the id of the request created by call j was refused with an
      error. */
  ghost predicate Refused(cfg: Settings, ops: seq<Op>, j: nat)
    requires j < |ops| && ops[j].Create?
  {
    forall k :: j < k < |ops| && ops[k].Receive? && CarriesId(ops[k], ops[j].tid) ==> Answered(cfg, ops, k).Some?
  }

  predicate CarriesId(op: Op, tid: TransactionId)
    requires op.Receive?
  {
    var r := MessageOf(op.view, op.given);
    r.Ok? && r.value.header.tid == tid
  }

  lemma VerdictMeansTaken(cfg: Settings, s: State, op: Op)
    requires op.Receive? && Verdict(cfg, s, op).Some?
    ensures Respond(cfg, s, op.now, op.view, op.given).1 == None
  {
    hide Accept, OutcomeOf, Apply;
  }

  /** A transaction is unanswered if every response carrying its id was refused. */
  lemma RefusedIsUnanswered(cfg: Settings, ops: seq<Op>, j: nat, h: Handle)
    requires CreatedBy(cfg, ops, j, h) && Refused(cfg, ops, j)
    ensures Unanswered(cfg, ops, h)
  {
    forall k | 0 <= k < |ops| && ops[k].Receive? ensures !AnsweredBy(cfg, ops, k, h) {
      if AnsweredBy(cfg, ops, k, h) {
        AnswerCarriesId(cfg, ops, j, h, k);
      }
    }
    hide *;
  }

  lemma AnswerCarriesId(cfg: Settings, ops: seq<Op>, j: nat, h: Handle, k: nat)
    requires CreatedBy(cfg, ops, j, h) && k < |ops| && ops[k].Receive? && AnsweredBy(cfg, ops, k, h)
    ensures j < k && ops[j].Create? && CarriesId(ops[k], ops[j].tid) && Answered(cfg, ops, k) == None
  {
    RunInv(cfg, ops[..k]);
    var s := Run(cfg, ops[..k]).s;
    assert Inv(s);
    VerdictMeansTaken(cfg, s, ops[k]);
    AcceptedIsSigned(cfg, s, ops[k]);
    hide Run, Verdict, Respond, MessageOf, Inv;
    var i := LiveFromCreate(cfg, ops[..k], h);
    CreatedEarlier(cfg, ops, k, i, h);
    CreatedOnce(cfg, ops, i, j, h);
  }

  /** The exact schedule from what the caller sees alone: calls, returned effects, errors, and the
      handle that its create returned. */
  lemma RefusedSchedule(cfg: Settings, ops: seq<Op>, j: nat, h: Handle)
    requires Standard(cfg) && PunctualCaller(cfg, ops) && ops != [] && RestedAt(cfg, ops, |ops| - 1)
    requires CreatedBy(cfg, ops, j, h) && Refused(cfg, ops, j)
    ensures cfg.retransmit.requestCount >= 1 && h in Run(cfg, ops).born && Run(cfg, ops).born[h].time == ops[j].now
    ensures OnTimetable(cfg, Run(cfg, ops), h) && RfcTimes(cfg, Run(cfg, ops).born[h])
  {
    hide *;
    RefusedIsUnanswered(cfg, ops, j, h);
    BornByCreate(cfg, ops, j, h);
    PunctualSchedule(cfg, ops, h);
  }
}
