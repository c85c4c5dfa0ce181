/** How much the client sends, and what it learns from it. */
module Effort {
  import opened Bytes
  import opened Header
  import opened Rto
  import opened Retransmit
  import opened Client
  import opened ClientInvariant
  import opened ClientRuns

  function Sends(es: seq<Effect>, h: Handle): nat {
    if es == [] then 0
    else
      var e := es[|es| - 1];
      Sends(es[..|es| - 1], h) + if e.SendData? && e.handle == h then 1 else 0
  }

  function Count(hs: seq<Handle>, h: Handle): nat {
    if hs == [] then 0 else Count(hs[..|hs| - 1], h) + if hs[|hs| - 1] == h then 1 else 0
  }

  lemma SendsAppend(es: seq<Effect>, e: Effect, h: Handle)
    ensures Sends(es + [e], h) == Sends(es, h) + if e.SendData? && e.handle == h then 1 else 0
  {
    assert (es + [e])[..|es|] == es;
  }

  lemma CountAppend(hs: seq<Handle>, g: Handle, h: Handle)
    ensures Count(hs + [g], h) == Count(hs, h) + if g == h then 1 else 0
  {
    assert (hs + [g])[..|hs|] == hs;
  }

  /** A configuration that asks for no request at all still sends the first one. */
  function Planned(cfg: Settings): nat {
    if cfg.retransmit.requestCount == 0 then 1 else cfg.retransmit.requestCount
  }

  /** The timer lies before the algorithm's deadline: a 5xx response moved the deadline, and the
      timer will cost one extra request. */
  ghost predicate Stale(s: State, h: Handle)
    requires h in s.tmap
  {
    exists i :: 0 <= i < |s.timeline| && s.timeline[i].handle == h
                && s.tmap[h].algo.next.Some? && s.timeline[i].time < s.tmap[h].algo.next.value
  }

  ghost function Extra(s: State, h: Handle): nat
    requires h in s.tmap
  {
    if Stale(s, h) then 1 else 0
  }

  /** Per live transaction: requests sent, requests planned and an extra one stay within the
      plan and two for every accepted 5xx. */
  ghost predicate LiveEffort(cfg: Settings, s: State, told: seq<Effect>, retries: seq<Handle>, h: Handle)
    requires h in s.tmap
  {
    var t := s.tmap[h];
    && Sends(told, h) + Budget(cfg.retransmit, t.algo) + Extra(s, h) <= Planned(cfg) + 2 * t.algo.n5xx
    && t.algo.n5xx == Count(retries, h) <= cfg.retransmit.serverErrorMax
    && Sends(told, h) == t.rtxCount + 1
  }

  ghost predicate EffortInv(cfg: Settings, s: State, told: seq<Effect>, retries: seq<Handle>) {
    && (forall h :: h in s.tmap ==> LiveEffort(cfg, s, told, retries, h))
    && (forall h :: Sends(told, h) <= Planned(cfg) + 2 * Count(retries, h)
          && Count(retries, h) <= cfg.retransmit.serverErrorMax)
    && (forall h :: h >= s.nextHandle ==> Sends(told, h) == 0 && Count(retries, h) == 0)
  }

  ghost predicate SameTimers(s: State, s': State, g: Handle) {
    forall i :: 0 <= i < |s'.timeline| && s'.timeline[i].handle == g ==> s'.timeline[i] in s.timeline
  }

  /** A transaction that a step does not concern keeps its account. */
  lemma OtherEffort(cfg: Settings, s: State, s': State, told: seq<Effect>, told': seq<Effect>,
                    retries: seq<Handle>, retries': seq<Handle>, g: Handle)
    requires g in s.tmap && g in s'.tmap && s'.tmap[g] == s.tmap[g]
    requires SameTimers(s, s', g)
    requires Sends(told', g) == Sends(told, g) && Count(retries', g) == Count(retries, g)
    requires LiveEffort(cfg, s, told, retries, g)
    ensures LiveEffort(cfg, s', told', retries', g)
  {
    hide Sends, Count, Budget, Planned;
    if Stale(s', g) {
      var i :| 0 <= i < |s'.timeline| && s'.timeline[i].handle == g
               && s'.tmap[g].algo.next.Some? && s'.timeline[i].time < s'.tmap[g].algo.next.value;
      var d := s'.timeline[i];
      var j :| 0 <= j < |s.timeline| && s.timeline[j] == d;
    }
  }

  /** The timers a firing leaves to the other transactions. */
  lemma FireTimers(cfg: Settings, s: State, now: int, g: Handle)
    requires s.timeline != []
    requires g != s.timeline[0].handle || g !in s.tmap
    ensures SameTimers(s, Fire(cfg, s, now), g)
  {
    hide Advance, Insert;
    var s', h, rest := Fire(cfg, s, now), s.timeline[0].handle, s.timeline[1..];
    assert s.timeline == [s.timeline[0]] + rest;
    if h in s.tmap {
      var algo := Advance(cfg.retransmit, s.tmap[h].algo, now);
      if algo.next.Some? {
        InsertMembers(rest, Due(algo.next.value, h));
        forall i | 0 <= i < |s'.timeline| && s'.timeline[i].handle == g ensures s'.timeline[i] in s.timeline {
          assert s'.timeline[i] in s'.timeline;
        }
      }
    }
  }

  lemma FireOthers(cfg: Settings, s: State, now: int, g: Handle)
    requires s.timeline != [] && g in s.tmap && g != s.timeline[0].handle
    ensures g in Fire(cfg, s, now).tmap && Fire(cfg, s, now).tmap[g] == s.tmap[g]
    ensures Fire(cfg, s, now).tmap.Keys == s.tmap.Keys && Fire(cfg, s, now).nextHandle == s.nextHandle
  {
    hide Advance, Insert;
  }

  /** The effect a firing adds, if any. */
  lemma FireAdds(cfg: Settings, s: State, now: int)
    requires s.timeline != []
    ensures
      var s', h := Fire(cfg, s, now), s.timeline[0].handle;
      && s'.tmap.Keys == s.tmap.Keys && s'.nextHandle == s.nextHandle
      && s.effects <= s'.effects
      && (h !in s.tmap ==> s'.effects[|s.effects|..] == [] && s'.tmap == s.tmap)
      && (h in s.tmap ==>
            && |s'.effects| == |s.effects| + 1
            && s'.effects[|s.effects|..] == [s'.effects[|s.effects|]]
            && var e := s'.effects[|s.effects|]; Proper(e) && e.handle == h)
  {
    hide Advance, Insert;
  }

  /** A timer fires: a request is sent and something of the budget, or the extra, is gone. */
  lemma FireEffort(cfg: Settings, s: State, now: int, told: seq<Effect>, retries: seq<Handle>)
    requires Inv(s) && TimerDue(s, now) && EffortInv(cfg, s, told, retries)
    ensures
      var s' := Fire(cfg, s, now);
      EffortInv(cfg, s', told + s'.effects[|s.effects|..], retries)
  {
    var s', h := Fire(cfg, s, now), s.timeline[0].handle;
    KnownTimers(s);
    hide Inv, Fire, LiveEffort, Sends, Count, Planned, SameTimers;
    FireAdds(cfg, s, now);
    if h !in s.tmap {
      assert told + s'.effects[|s.effects|..] == told;
      forall g | g in s'.tmap ensures LiveEffort(cfg, s', told, retries, g) {
        FireTimers(cfg, s, now, g);
        OtherEffort(cfg, s, s', told, told, retries, retries, g);
      }
    } else {
      FireLiveEffort(cfg, s, now, told, retries);
    }
  }

  lemma FireLiveEffort(cfg: Settings, s: State, now: int, told: seq<Effect>, retries: seq<Handle>)
    requires Inv(s) && TimerDue(s, now) && EffortInv(cfg, s, told, retries) && s.timeline[0].handle in s.tmap
    ensures
      var s' := Fire(cfg, s, now);
      EffortInv(cfg, s', told + s'.effects[|s.effects|..], retries)
  {
    KnownTimers(s);
    assert LiveEffort(cfg, s, told, retries, s.timeline[0].handle);
    hide *;
    FireAdds(cfg, s, now);
    var s', h := Fire(cfg, s, now), s.timeline[0].handle;
    var e := s'.effects[|s.effects|];
    forall g ensures Sends(told + [e], g) == Sends(told, g) + if e.SendData? && g == h then 1 else 0 {
      SendsAppend(told, e, g);
    }
    FiredEffort(cfg, s, now, told, retries);
    OthersEffort(cfg, s, now, told, told + [e], retries);
    EffortTogether(cfg, s, s', told, told + [e], retries, h);
  }

  lemma EffortTogether(cfg: Settings, s: State, s': State, told: seq<Effect>, told': seq<Effect>,
                       retries: seq<Handle>, h: Handle)
    requires EffortInv(cfg, s, told, retries) && h in s'.tmap && h < s.nextHandle && s'.nextHandle == s.nextHandle
    requires s'.tmap.Keys == s.tmap.Keys && LiveEffort(cfg, s', told', retries, h)
    requires forall g :: g in s'.tmap && g in s.tmap && g != h ==> LiveEffort(cfg, s', told', retries, g)
    requires forall g :: g != h ==> Sends(told', g) == Sends(told, g)
    ensures EffortInv(cfg, s', told', retries)
  {
    hide LiveEffort, Sends, Count, Planned;
    LiveBound(cfg, s', told', retries, h);
  }

  /** Firing one transaction's timer leaves the accounts of the others. */
  lemma OthersEffort(cfg: Settings, s: State, now: int, told: seq<Effect>, told': seq<Effect>, retries: seq<Handle>)
    requires s.timeline != [] && EffortInv(cfg, s, told, retries)
    requires forall g :: g != s.timeline[0].handle ==> Sends(told', g) == Sends(told, g)
    ensures forall g :: g in Fire(cfg, s, now).tmap && g in s.tmap && g != s.timeline[0].handle ==>
      LiveEffort(cfg, Fire(cfg, s, now), told', retries, g)
  {
    hide Fire, LiveEffort, Sends, Count, Planned, SameTimers;
    var s' := Fire(cfg, s, now);
    forall g | g in s'.tmap && g in s.tmap && g != s.timeline[0].handle ensures LiveEffort(cfg, s', told', retries, g) {
      FireTimers(cfg, s, now, g);
      FireOthers(cfg, s, now, g);
      OtherEffort(cfg, s, s', told, told', retries, retries, g);
    }
  }

  lemma KnownTimers(s: State)
    requires Inv(s) && s.timeline != []
    ensures s.timeline[0].handle < s.nextHandle
  {
  }

  lemma LiveBound(cfg: Settings, s: State, told: seq<Effect>, retries: seq<Handle>, h: Handle)
    requires h in s.tmap && LiveEffort(cfg, s, told, retries, h)
    ensures Sends(told, h) <= Planned(cfg) + 2 * Count(retries, h)
  {
  }

  lemma FiredEffort(cfg: Settings, s: State, now: int, told: seq<Effect>, retries: seq<Handle>)
    requires Inv(s) && TimerDue(s, now) && s.timeline[0].handle in s.tmap
    requires LiveEffort(cfg, s, told, retries, s.timeline[0].handle)
    ensures
      var s' := Fire(cfg, s, now);
      LiveEffort(cfg, s', told + [s'.effects[|s.effects|]], retries, s.timeline[0].handle)
  {
    var s' := Fire(cfg, s, now);
    var d0, rest := s.timeline[0], s.timeline[1..];
    var h := d0.handle;
    var a := s.tmap[h].algo;
    var algo := Advance(cfg.retransmit, a, now);
    AdvanceSpends(cfg.retransmit, a, now);
    SendsAppend(told, s'.effects[|s.effects|], h);
    TailTimers(s.timeline);
    if algo.next.Some? {
      var d := Due(algo.next.value, h);
      InsertMembers(rest, d);
      forall i | 0 <= i < |s'.timeline| && s'.timeline[i].handle == h ensures s'.timeline[i] == d {
        assert s'.timeline[i] in s'.timeline;
        assert forall j :: 0 <= j < |rest| ==> rest[j].handle != h;
      }
      assert !Stale(s', h);
      if a.next.value > now {
        assert s.timeline[0] == d0;
        assert Stale(s, h);
      }
    } else {
      assert !Stale(s', h);
    }
  }

  lemma {:induction false} DrainEffort(cfg: Settings, s: State, now: int, told: seq<Effect>, retries: seq<Handle>)
    requires Inv(s) && EffortInv(cfg, s, told, retries)
    ensures s.effects <= Drain(cfg, s, now).effects
    ensures
      var s' := Drain(cfg, s, now);
      EffortInv(cfg, s', told + s'.effects[|s.effects|..], retries)
    decreases Work(cfg, s.tmap, s.timeline, now)
  {
    hide Inv, Fire, Work, EffortInv;
    DrainKeeps(cfg, s, now);
    if TimerDue(s, now) {
      FireSpends(cfg, s, now);
      FireInv(cfg, s, now);
      FireEffort(cfg, s, now, told, retries);
      FireAdds(cfg, s, now);
      var s1 := Fire(cfg, s, now);
      DrainEffort(cfg, s1, now, told + s1.effects[|s.effects|..], retries);
      SplitAdded(told, s.effects, s1.effects, Drain(cfg, s1, now).effects);
    } else {
      assert told + s.effects[|s.effects|..] == told;
    }
  }

  lemma SplitAdded(told: seq<Effect>, a: seq<Effect>, b: seq<Effect>, c: seq<Effect>)
    requires a <= b <= c
    ensures told + b[|a|..] + c[|b|..] == told + c[|a|..]
  {
    assert c[|a|..] == c[|a|..|b|] + c[|b|..];
  }

  lemma PopEffort(cfg: Settings, s: State, told: seq<Effect>, retries: seq<Handle>)
    requires Inv(s) && EffortInv(cfg, s, told, retries) && s.effects != []
    ensures EffortInv(cfg, Pop(s), told, retries)
  {
    hide Inv, LiveEffort, Sends, Count, Planned;
    var s' := Pop(s);
    PopKnown(s);
    forall g | g in s'.tmap ensures LiveEffort(cfg, s', told, retries, g) {
      OtherEffort(cfg, s, s', told, told, retries, retries, g);
    }
  }

  lemma StartEffort(cfg: Settings, s: State, now: int, tid: TransactionId, data: Bytes, path: Path,
                    auth: Maybe<Auth>, told: seq<Effect>, retries: seq<Handle>)
    requires Inv(s) && EffortInv(cfg, s, told, retries)
    ensures
      EffortInv(cfg, StartTransaction(cfg, s, now, tid, data, path, auth), told + [SendData(s.nextHandle, data)],
        retries)
  {
    var s', n := StartTransaction(cfg, s, now, tid, data, path, auth), s.nextHandle;
    var e := SendData(n, data);
    KnownHandlesOnly(s);
    StartTimers(cfg, s, now, tid, data, path, auth);
    hide Inv, Timeout, Insert, Sends, Count;
    forall g ensures Sends(told + [e], g) == Sends(told, g) + if g == n then 1 else 0 {
      SendsAppend(told, e, g);
    }
    assert LiveEffort(cfg, s', told + [e], retries, n);
    hide LiveEffort, Planned, SameTimers;
    forall g | g in s'.tmap && g != n ensures LiveEffort(cfg, s', told + [e], retries, g) {
      OtherEffort(cfg, s, s', told, told + [e], retries, retries, g);
    }
  }

  lemma StartTimers(cfg: Settings, s: State, now: int, tid: TransactionId, data: Bytes, path: Path, auth: Maybe<Auth>)
    requires Inv(s)
    ensures
      var s' := StartTransaction(cfg, s, now, tid, data, path, auth);
      s.nextHandle in s'.tmap && !Stale(s', s.nextHandle)
      && forall g :: g != s.nextHandle ==> SameTimers(s, s', g)
  {
    var s', n := StartTransaction(cfg, s, now, tid, data, path, auth), s.nextHandle;
    var d := Due(now + Timeout(cfg.rto, s.rto, path), n);
    KnownHandlesOnly(s);
    NoTimerAhead(s.timeline, n);
    InsertMembers(s.timeline, d);
    hide Inv, Timeout, Insert;
    assert s'.timeline == Insert(s.timeline, d);
    forall i | 0 <= i < |s'.timeline| ensures s'.timeline[i] == d || s'.timeline[i] in s.timeline {
      assert s'.timeline[i] in s'.timeline;
    }
  }

  lemma FinishEffort(cfg: Settings, s: State, s': State, e: Effect, told: seq<Effect>, retries: seq<Handle>)
    requires EffortInv(cfg, s, told, retries) && Terminal(e)
    requires s'.tmap == s.tmap && s'.timeline == s.timeline && s'.nextHandle == s.nextHandle
    ensures EffortInv(cfg, s', told + [e], retries)
  {
    hide Sends, Count, LiveEffort, Planned;
    forall g ensures Sends(told + [e], g) == Sends(told, g) {
      SendsAppend(told, e, g);
    }
    forall g | g in s'.tmap ensures LiveEffort(cfg, s', told + [e], retries, g) {
      OtherEffort(cfg, s, s', told, told + [e], retries, retries, g);
    }
  }

  lemma RetriedEffort(cfg: Settings, s: State, now: int, h: Handle, algo: Algo, told: seq<Effect>, retries: seq<Handle>)
    requires h in s.tmap && Process5xx(cfg.retransmit, s.tmap[h].algo, now) == Some(algo)
    requires LiveEffort(cfg, s, told, retries, h)
    ensures LiveEffort(cfg, s.(tmap := s.tmap[h := s.tmap[h].(algo := algo)]), told, retries + [h], h)
    ensures Count(retries + [h], h) <= cfg.retransmit.serverErrorMax
  {
    hide Sends, Stale;
    CountAppend(retries, h, h);
  }

  lemma RetryEffort(cfg: Settings, s: State, now: int, h: Handle, algo: Algo, told: seq<Effect>, retries: seq<Handle>)
    requires h in s.tmap && h < s.nextHandle && Process5xx(cfg.retransmit, s.tmap[h].algo, now) == Some(algo)
    requires EffortInv(cfg, s, told, retries)
    ensures EffortInv(cfg, s.(tmap := s.tmap[h := s.tmap[h].(algo := algo)]), told, retries + [h])
  {
    hide Sends, Count, LiveEffort, Planned, Process5xx;
    var s' := s.(tmap := s.tmap[h := s.tmap[h].(algo := algo)]);
    forall g ensures Count(retries + [h], g) == Count(retries, g) + if g == h then 1 else 0 {
      CountAppend(retries, h, g);
    }
    RetriedEffort(cfg, s, now, h, algo, told, retries);
    LiveBound(cfg, s', told, retries + [h], h);
    forall g | g in s'.tmap && g != h ensures LiveEffort(cfg, s', told, retries + [h], g) {
      OtherEffort(cfg, s, s', told, told, retries, retries + [h], g);
    }
  }

  lemma ReceiveEffort(cfg: Settings, s: State, now: int, h: Handle, o: Outcome, told: seq<Effect>, retries: seq<Handle>)
    requires Inv(s) && EffortInv(cfg, s, told, retries) && h in s.tmap
    requires o.Finish? ==> Terminal(o.effect)
    requires o.Retry? ==> Process5xx(cfg.retransmit, s.tmap[h].algo, now) == Some(o.algo)
    ensures
      var s' := Apply(cfg, s, now, h, o);
      s.effects <= s'.effects
      && EffortInv(cfg, s', told + s'.effects[|s.effects|..], retries + if o.Retry? then [h] else [])
  {
    KnownHandlesOnly(s);
    hide Inv, Learn, EffortInv, Process5xx;
    var s' := Apply(cfg, s, now, h, o);
    assert told + [] == told && retries + [] == retries;
    match o {
      case Discard => assert s.effects[|s.effects|..] == [];
      case Finish(e, _) =>
        assert s'.effects[|s.effects|..] == [e];
        FinishEffort(cfg, s, s', e, told, retries);
      case Retry(algo) =>
        assert s.effects[|s.effects|..] == [];
        RetryEffort(cfg, s, now, h, algo, told, retries);
    }
  }

  lemma StepEffort(cfg: Settings, w: World, op: Op)
    requires WorldInv(w) && EffortInv(cfg, w.s, History(w), w.retries)
    ensures EffortInv(cfg, Step(cfg, w, op).s, History(Step(cfg, w, op)), Step(cfg, w, op).retries)
  {
    hide EffortInv, Inv;
    match op {
      case Create(now, tid, data, path, auth) =>
        if tid !in w.s.tidToHandle {
          StartEffort(cfg, w.s, now, tid, data, path, auth, History(w), w.retries);
          KnownHandlesOnly(w.s);
          hide Timeout, Insert;
          assert History(Step(cfg, w, op)) == History(w) + [SendData(w.s.nextHandle, data)];
        }
      case Receive(now, view, given) =>
        hide Accept, OutcomeOf, Apply;
        var v := Verdict(cfg, w.s, op);
        if v.Some? {
          ReceiveEffort(cfg, w.s, now, v.value.0, v.value.1, History(w), w.retries);
          var s' := Apply(cfg, w.s, now, v.value.0, v.value.1);
          assert History(w) + s'.effects[|w.s.effects|..] == Delivered(w.log) + s'.effects;
        } else {
          assert w.retries + [] == w.retries;
        }
      case Poll(now) => PollEffort(cfg, w, now);
    }
  }

  lemma PollEffort(cfg: Settings, w: World, now: int)
    requires WorldInv(w) && EffortInv(cfg, w.s, History(w), w.retries)
    ensures EffortInv(cfg, Step(cfg, w, Poll(now)).s, History(Step(cfg, w, Poll(now))), w.retries)
  {
    DrainEffort(cfg, w.s, now, History(w), w.retries);
    DrainInv(cfg, w.s, now);
    PollHistory(cfg, w, now);
    hide EffortInv, Drain, Inv;
    var s1 := Drain(cfg, w.s, now);
    assert History(w) + s1.effects[|w.s.effects|..] == Delivered(w.log) + s1.effects;
    if s1.effects != [] {
      PopEffort(cfg, s1, Delivered(w.log) + s1.effects, w.retries);
    }
  }

  lemma {:induction false} RunEffort(cfg: Settings, ops: seq<Op>)
    ensures EffortInv(cfg, Run(cfg, ops).s, History(Run(cfg, ops)), Run(cfg, ops).retries)
  {
    if ops != [] {
      var before := ops[..|ops| - 1];
      RunEffort(cfg, before);
      RunInv(cfg, before);
      hide EffortInv, Step, WorldInv;
      StepEffort(cfg, Run(cfg, before), ops[|ops| - 1]);
    }
  }

  /** In every run, with any responses at any times, a transaction is sent at most as often as
      planned, and twice more for each 5xx response it accepted, of which there are at most as
      many as configured. With no 5xx it is sent at most as often as planned. */
  lemma BoundedEffort(cfg: Settings, ops: seq<Op>, h: Handle)
    ensures
      var w := Run(cfg, ops);
      && Sends(History(w), h) <= Planned(cfg) + 2 * Count(w.retries, h)
      && Count(w.retries, h) <= cfg.retransmit.serverErrorMax
      && Sends(History(w), h) <= Planned(cfg) + 2 * cfg.retransmit.serverErrorMax
      && (Count(w.retries, h) == 0 ==> Sends(History(w), h) <= Planned(cfg))
  {
    RunEffort(cfg, ops);
    hide Run, Sends, Count, Planned;
  }

  // ---- What the timeout calculator is told ----

  lemma LessonApplied(cfg: Settings, s: State, op: Op)
    requires op.Receive?
    ensures
      var l := Lesson(cfg, s, op);
      |l| <= 1
      && Respond(cfg, s, op.now, op.view, op.given).0.rto == if l == [] then s.rto else Absorb(cfg.rto, s.rto, l[0])
  {
    hide Accept, OutcomeOf, NewRtt, Backoff;
  }

  /** In every run the calculator's state is what its lessons make of it, so the timeout of every
      new transaction is the estimate over those lessons. */
  lemma {:induction false} CalculatorFollowsLessons(cfg: Settings, ops: seq<Op>)
    ensures Run(cfg, ops).s.rto == AbsorbAll(cfg.rto, Run(cfg, ops).lessons)
  {
    if ops != [] {
      var w, op := Run(cfg, ops[..|ops| - 1]), ops[|ops| - 1];
      CalculatorFollowsLessons(cfg, ops[..|ops| - 1]);
      match op {
        case Create(_, _, _, _, _) => hide Timeout, Insert, AbsorbAll;
        case Poll(now) =>
          DrainKeeps(cfg, w.s, now);
          hide Drain, AbsorbAll;
        case Receive(_, _, _) =>
          LessonApplied(cfg, w.s, op);
          hide Respond, Verdict, Absorb;
          var l := Lesson(cfg, w.s, op);
          hide Lesson;
          assert w.lessons + [] == w.lessons;
          if l != [] {
            assert l == [l[0]];
            assert (w.lessons + [l[0]])[..|w.lessons|] == w.lessons;
          }
      }
    }
  }

  /** Karn's rule over every run: a response yields a sample exactly when its request has been
      sent once, and the sample is the time since then; otherwise it yields the last timeout. */
  lemma KarnsRule(cfg: Settings, ops: seq<Op>, op: Op)
    requires op.Receive?
    ensures
      var w := Run(cfg, ops);
      var v := Verdict(cfg, w.s, op);
      Lesson(cfg, w.s, op) != [] ==>
        && v.Some?
        && var (h, t) := (v.value.0, w.s.tmap[v.value.0]);
           Lesson(cfg, w.s, op)
           == [if Sends(History(w), h) == 1 then Sample(op.now, t.path, op.now - t.createTime)
               else BackedOff(op.now, t.path, t.algo.lastTimeout)]
  {
    RunEffort(cfg, ops);
    hide Run, Sends, Count, Planned, History, Accept, OutcomeOf;
    var w := Run(cfg, ops);
    var v := Verdict(cfg, w.s, op);
    if v.Some? {
      assert LiveEffort(cfg, w.s, History(w), w.retries, v.value.0);
    }
  }
}
