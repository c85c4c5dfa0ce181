/** Every transaction that was started and is gone has had its outcome handed out. */
module Outcomes {
  import opened Rto
  import opened Client
  import opened ClientInvariant
  import opened ClientRuns

  /** Started transactions are those with a handle below the counter; each is live, or its outcome
      has been handed out. */
  ghost predicate Accounted(w: World) {
    && (forall h: Handle :: h in w.born <==> h < w.s.nextHandle)
    && (forall h :: h in w.born ==> h in w.s.tmap || FinishedIn(Delivered(w.log), h))
  }

  lemma CreateAccounted(cfg: Settings, w: World, op: Op)
    requires WorldInv(w) && Accounted(w) && op.Create?
    ensures Accounted(Step(cfg, w, op))
  {
    KnownHandlesOnly(w.s);
    hide FinishedIn, Inv, Timeout, Insert;
  }

  lemma ReceiveAccounted(cfg: Settings, w: World, op: Op)
    requires Accounted(w) && op.Receive?
    ensures Accounted(Step(cfg, w, op))
  {
    RespondKeys(cfg, w.s, op.now, op.view, op.given);
    hide FinishedIn, Respond, Verdict, Lesson;
  }

  lemma PollAccounted(cfg: Settings, w: World, now: int)
    requires WorldInv(w) && Accounted(w)
    ensures Accounted(Step(cfg, w, Poll(now)))
  {
    hide Drain, Inv, FinishedIn, Delivered;
    var s1 := Drain(cfg, w.s, now);
    DrainInv(cfg, w.s, now);
    DrainKeeps(cfg, w.s, now);
    EffectsProper(s1);
    if s1.effects != [] {
      ToldOne(w.log, Stamped(now, s1.effects[0]), s1.nextHandle);
    } else {
      assert w.log + [] == w.log;
    }
  }

  /** In every run no transaction is silently forgotten: a handle was given out exactly if it is
      below the counter, and then its transaction is live exactly until its outcome is handed
      out. */
  lemma {:induction false} NoneForgotten(cfg: Settings, ops: seq<Op>)
    ensures
      var w := Run(cfg, ops);
      && Accounted(w)
      && forall h :: h in w.born ==> (h in w.s.tmap <==> !FinishedIn(Delivered(w.log), h))
  {
    RunInv(cfg, ops);
    if ops != [] {
      var before, op := ops[..|ops| - 1], ops[|ops| - 1];
      NoneForgotten(cfg, before);
      RunInv(cfg, before);
      var w := Run(cfg, before);
      match op {
        case Create(_, _, _, _, _) => CreateAccounted(cfg, w, op);
        case Receive(_, _, _) => ReceiveAccounted(cfg, w, op);
        case Poll(now) => PollAccounted(cfg, w, now);
      }
      hide Step, FinishedIn;
    } else {
      BeginAccounted();
    }
  }

  lemma BeginAccounted()
    ensures Accounted(BEGIN)
  {
    assert forall h: Handle :: h !in BEGIN.born && h >= BEGIN.s.nextHandle;
  }

  // ---- Counting outcomes ----

  /** How many outcomes a transaction has had. */
  function OutcomesOf(es: seq<Effect>, h: Handle): nat {
    if es == [] then 0
    else
      var e := es[|es| - 1];
      OutcomesOf(es[..|es| - 1], h) + if Terminal(e) && e.handle == h then 1 else 0
  }

  lemma {:induction false} OutcomesPositive(es: seq<Effect>, h: Handle)
    ensures OutcomesOf(es, h) > 0 <==> FinishedIn(es, h)
  {
    if es != [] {
      var before, e := es[..|es| - 1], es[|es| - 1];
      OutcomesPositive(before, h);
      assert es == before + [e];
      FinishedAppend(before, [e], h);
      FinishedSingle(e, h);
    }
  }

  lemma {:induction false} OutcomesAtMostOne(es: seq<Effect>, h: Handle)
    requires AllProper(es) && AtMostOnce(es)
    ensures OutcomesOf(es, h) <= 1
  {
    if es != [] {
      var before, e := es[..|es| - 1], es[|es| - 1];
      assert es == before + [e];
      assert AllProper(before);
      OnceAppend(before, e);
      OutcomesAtMostOne(before, h);
      OutcomesPositive(before, h);
    }
  }

  lemma PrefixOnce(a: seq<Effect>, b: seq<Effect>)
    requires AllProper(a + b) && AtMostOnce(a + b)
    ensures AllProper(a) && AtMostOnce(a)
  {
    assert forall i :: 0 <= i < |a| ==> (a + b)[i] == a[i];
  }

  /** Where nothing follows an outcome, every started transaction has had exactly one outcome
      handed out once it is gone, and none while it is live. */
  ghost predicate OnceEach(w: World) {
    forall h :: h in w.born ==> OutcomesOf(Delivered(w.log), h) == if h in w.s.tmap then 0 else 1
  }

  lemma SafeOnceEach(cfg: Settings, ops: seq<Op>)
    requires AllSafe(cfg, ops)
    ensures OnceEach(Run(cfg, ops))
  {
    var w := Run(cfg, ops);
    AtMostOnceIffSafe(cfg, ops);
    NoneForgotten(cfg, ops);
    hide *;
    assert History(w) == Delivered(w.log) + w.s.effects by { HistoryParts(w); }
    PrefixOnce(Delivered(w.log), w.s.effects);
    OnceEachFrom(w);
  }

  lemma HistoryParts(w: World)
    ensures History(w) == Delivered(w.log) + w.s.effects
  {
  }

  lemma OnceEachFrom(w: World)
    requires AllProper(Delivered(w.log)) && AtMostOnce(Delivered(w.log))
    requires forall h :: h in w.born ==> (h in w.s.tmap <==> !FinishedIn(Delivered(w.log), h))
    ensures OnceEach(w)
  {
    hide OutcomesOf, FinishedIn, AtMostOnce, Delivered;
    forall h | h in w.born ensures OutcomesOf(Delivered(w.log), h) == if h in w.s.tmap then 0 else 1 {
      OutcomesAtMostOne(Delivered(w.log), h);
      OutcomesPositive(Delivered(w.log), h);
    }
  }

  /** Once the client reports Idle, every transaction ever started has had exactly one outcome. */
  lemma IdleOnceEach(cfg: Settings, ops: seq<Op>, now: int)
    requires AllSafe(cfg, ops + [Poll(now)]) && Next(cfg, Run(cfg, ops).s, now).1 == Idle
    ensures
      var w := Run(cfg, ops + [Poll(now)]);
      forall h :: h in w.born ==> OutcomesOf(Delivered(w.log), h) == 1
  {
    SafeOnceEach(cfg, ops + [Poll(now)]);
    RunInv(cfg, ops);
    IdleMeansDone(cfg, Run(cfg, ops).s, now);
    PollState(cfg, ops, now);
    hide *;
    OnceEachIdle(Run(cfg, ops + [Poll(now)]));
  }

  lemma OnceEachIdle(w: World)
    requires OnceEach(w) && w.s.tmap == map[]
    ensures forall h :: h in w.born ==> OutcomesOf(Delivered(w.log), h) == 1
  {
  }

  lemma PollState(cfg: Settings, ops: seq<Op>, now: int)
    ensures Run(cfg, ops + [Poll(now)]) == Step(cfg, Run(cfg, ops), Poll(now))
    ensures Run(cfg, ops + [Poll(now)]).s == Next(cfg, Run(cfg, ops).s, now).0
  {
    assert (ops + [Poll(now)])[..|ops|] == ops;
    hide Next;
  }
}
