/** The client's counters against what it did. */
module Accounting {
  import opened Bytes
  import opened Rto
  import opened Client
  import opened ClientInvariant
  import opened ClientRuns

  function Requests(es: seq<Effect>): nat {
    if es == [] then 0 else Requests(es[..|es| - 1]) + if es[|es| - 1].SendData? then 1 else 0
  }

  function Successes(es: seq<Effect>): nat {
    if es == [] then 0 else Successes(es[..|es| - 1]) + if es[|es| - 1].TransactionOk? then 1 else 0
  }

  /** Every request in the history was counted as a start or a retransmission; every success as a
      success. */
  ghost predicate Accounted(stat: Stat, told: seq<Effect>) {
    Requests(told) == stat.started + stat.retransmits && Successes(told) == stat.success
  }

  lemma TallyAppend(es: seq<Effect>, e: Effect)
    ensures Requests(es + [e]) == Requests(es) + if e.SendData? then 1 else 0
    ensures Successes(es + [e]) == Successes(es) + if e.TransactionOk? then 1 else 0
  {
    assert (es + [e])[..|es|] == es;
  }

  lemma {:induction false} DrainAccounted(cfg: Settings, s: State, now: int, told: seq<Effect>)
    requires Accounted(s.stat, told + s.effects)
    ensures Accounted(Drain(cfg, s, now).stat, told + Drain(cfg, s, now).effects)
    decreases Work(cfg, s.tmap, s.timeline, now)
  {
    if TimerDue(s, now) {
      FireSpends(cfg, s, now);
      FireAccounted(cfg, s, now, told);
      hide Fire, Work, Accounted;
      DrainAccounted(cfg, Fire(cfg, s, now), now, told);
    }
  }

  lemma FireAccounted(cfg: Settings, s: State, now: int, told: seq<Effect>)
    requires s.timeline != [] && Accounted(s.stat, told + s.effects)
    ensures Accounted(Fire(cfg, s, now).stat, told + Fire(cfg, s, now).effects)
  {
    hide Requests, Successes, Insert;
    var s' := Fire(cfg, s, now);
    if s.timeline[0].handle in s.tmap {
      var e := s'.effects[|s.effects|];
      assert told + s'.effects == told + s.effects + [e];
      TallyAppend(told + s.effects, e);
    }
  }

  lemma StepAccounted(cfg: Settings, w: World, op: Op)
    requires WorldInv(w) && Accounted(w.s.stat, History(w))
    ensures Accounted(Step(cfg, w, op).s.stat, History(Step(cfg, w, op)))
  {
    match op {
      case Create(_, _, _, _, _) => CreateAccounted(cfg, w, op);
      case Receive(_, _, _) => ReceiveAccounted(cfg, w, op);
      case Poll(now) =>
        hide Requests, Successes, Inv;
        DrainAccounted(cfg, w.s, now, Delivered(w.log));
        PollHistory(cfg, w, now);
        hide Drain;
    }
  }

  lemma CreateAccounted(cfg: Settings, w: World, op: Op)
    requires op.Create? && Accounted(w.s.stat, History(w))
    ensures Accounted(Step(cfg, w, op).s.stat, History(Step(cfg, w, op)))
  {
    hide Requests, Successes, Timeout, Insert;
    if op.tid !in w.s.tidToHandle {
      var e := SendData(AllocateHandle(w.s.nextHandle, w.s.tmap), op.data);
      assert History(Step(cfg, w, op)) == History(w) + [e];
      TallyAppend(History(w), e);
    }
  }

  lemma ReceiveAccounted(cfg: Settings, w: World, op: Op)
    requires op.Receive? && Accounted(w.s.stat, History(w))
    ensures Accounted(Step(cfg, w, op).s.stat, History(Step(cfg, w, op)))
  {
    hide Requests, Successes, Accept, OutcomeOf, Learn;
    var v := Verdict(cfg, w.s, op);
    if v.Some? && v.value.1.Finish? {
      var e := v.value.1.effect;
      assert History(Step(cfg, w, op)) == History(w) + [e];
      TallyAppend(History(w), e);
    } else {
      assert History(Step(cfg, w, op)) == History(w);
    }
  }

  /** A start is counted with every handle given out. */
  lemma StepStarted(cfg: Settings, w: World, op: Op)
    requires WorldInv(w)
    ensures
      var s := Step(cfg, w, op).s;
      s.stat.started - s.nextHandle == w.s.stat.started - w.s.nextHandle
  {
    match op {
      case Create(_, _, _, _, _) => CreateStarted(cfg, w, op);
      case Receive(_, _, _) => ReceiveStarted(cfg, w, op);
      case Poll(now) =>
        hide Drain, Inv;
        DrainStarted(cfg, w.s, now);
    }
  }

  lemma CreateStarted(cfg: Settings, w: World, op: Op)
    requires WorldInv(w) && op.Create?
    ensures
      var s := Step(cfg, w, op).s;
      s.stat.started - s.nextHandle == w.s.stat.started - w.s.nextHandle
  {
    hide Inv, Timeout, Insert;
    KnownHandlesOnly(w.s);
  }

  lemma ReceiveStarted(cfg: Settings, w: World, op: Op)
    requires op.Receive?
    ensures
      var s := Step(cfg, w, op).s;
      s.stat.started == w.s.stat.started && s.nextHandle == w.s.nextHandle
  {
    hide Accept, OutcomeOf, Learn, Verdict, Lesson;
  }

  lemma {:induction false} DrainStarted(cfg: Settings, s: State, now: int)
    ensures Drain(cfg, s, now).stat.started == s.stat.started && Drain(cfg, s, now).nextHandle == s.nextHandle
    decreases Work(cfg, s.tmap, s.timeline, now)
  {
    hide Work, Insert;
    if TimerDue(s, now) {
      FireSpends(cfg, s, now);
      DrainStarted(cfg, Fire(cfg, s, now), now);
    }
  }

  /** In every run the counters agree with everything handed out or queued: as many starts as handles,
      every other request a retransmission, and every success a success. */
  lemma {:induction false} CountersAgree(cfg: Settings, ops: seq<Op>)
    ensures
      var w := Run(cfg, ops);
      && w.s.stat.started == w.s.nextHandle
      && Requests(History(w)) == w.s.stat.started + w.s.stat.retransmits
      && Successes(History(w)) == w.s.stat.success
  {
    if ops != [] {
      var before := ops[..|ops| - 1];
      CountersAgree(cfg, before);
      RunInv(cfg, before);
      hide Step, WorldInv, Requests, Successes;
      StepAccounted(cfg, Run(cfg, before), ops[|ops| - 1]);
      StepStarted(cfg, Run(cfg, before), ops[|ops| - 1]);
    }
  }
}
