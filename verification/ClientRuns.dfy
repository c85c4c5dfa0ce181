/** Runs of the client, and when nothing follows the outcome of a transaction. */
module ClientRuns {
  import opened Bytes
  import opened Header
  import opened Messages
  import opened Rto
  import opened Retransmit
  import opened Client
  import opened ClientInvariant

  /** A call of the client's interface. A create under an id in use draws another id instead. */
  datatype Op =
    | Create(now: int, tid: TransactionId, data: Bytes, path: Path, auth: Maybe<Auth>)
    | Receive(now: int, view: Bytes, given: Maybe<Message>)
    | Poll(now: int)

  /** An effect and when it was handed out. */
  datatype Stamped = Stamped(time: int, effect: Effect)

  /** When a transaction was created, and with which initial timeout. */
  datatype Birth = Birth(time: int, rto: int)

  /** The client with a record of its run: effects handed out, accepted 5xx responses by handle,
      births, what the timeout calculator was told, the time of the last call, and the time of a
      response whose effects have not all been handed out. */
  datatype World = World(
    s: State,
    log: seq<Stamped>,
    retries: seq<Handle>,
    born: map<Handle, Birth>,
    lessons: seq<Event>,
    clock: int,
    pending: Maybe<int>)

  const BEGIN := World(INITIAL, [], [], map[], [], 0, None)

  /** The outcome of a response for the transaction it was accepted for. */
  function Verdict(cfg: Settings, s: State, op: Op): (v: Maybe<(Handle, Outcome)>)
    requires op.Receive?
    ensures v.Some? ==> v.value.0 in s.tmap
  {
    hide Accept, OutcomeOf;
    match Accept(cfg, s, op.view, op.given)
    case Err(_) => None
    case Ok((h, m)) => Some((h, OutcomeOf(cfg, s.tmap[h], op.now, m)))
  }

  /** What a response teaches the timeout calculator. */
  function Lesson(cfg: Settings, s: State, op: Op): seq<Event>
    requires op.Receive?
  {
    match Verdict(cfg, s, op)
    case Some((h, Finish(_, true))) =>
      var t := s.tmap[h];
      [if t.rtxCount == 0 then Sample(op.now, t.path, op.now - t.createTime)
       else BackedOff(op.now, t.path, t.algo.lastTimeout)]
    case _ => []
  }

  function Step(cfg: Settings, w: World, op: Op): World {
    match op
    case Create(now, tid, data, path, auth) =>
      if tid in w.s.tidToHandle then w
      else
        w.(s := StartTransaction(cfg, w.s, now, tid, data, path, auth),
           born := w.born[AllocateHandle(w.s.nextHandle, w.s.tmap) := Birth(now, Timeout(cfg.rto, w.s.rto, path))],
           clock := now)
    case Receive(now, view, given) =>
      var v := Verdict(cfg, w.s, op);
      w.(s := Respond(cfg, w.s, now, view, given).0,
         retries := w.retries + (if v.Some? && v.value.1.Retry? then [v.value.0] else []),
         lessons := w.lessons + Lesson(cfg, w.s, op),
         clock := now,
         pending := Some(now))
    case Poll(now) =>
      var (s', e) := Next(cfg, w.s, now);
      w.(s := s',
         log := w.log + (if Proper(e) then [Stamped(now, e)] else []),
         clock := now,
         pending := if s'.effects == [] then None else w.pending)
  }

  function Run(cfg: Settings, ops: seq<Op>): World {
    if ops == [] then BEGIN else Step(cfg, Run(cfg, ops[..|ops| - 1]), ops[|ops| - 1])
  }

  /** Everything handed out so far, then everything queued. */
  function Delivered(log: seq<Stamped>): (r: seq<Effect>)
    ensures |r| == |log| && forall i :: 0 <= i < |log| ==> r[i] == log[i].effect
  {
    seq(|log|, i requires 0 <= i < |log| => log[i].effect)
  }

  function History(w: World): seq<Effect> {
    Delivered(w.log) + w.s.effects
  }

  ghost predicate FinishedIn(es: seq<Effect>, h: Handle) {
    exists i :: 0 <= i < |es| && Terminal(es[i]) && es[i].handle == h
  }

  ghost predicate AllProper(es: seq<Effect>) {
    forall i :: 0 <= i < |es| ==> Proper(es[i])
  }

  /** After a transaction's terminal effect nothing more is said about it: no second outcome, no
      further request. */
  ghost predicate AtMostOnce(es: seq<Effect>)
    requires AllProper(es)
  {
    forall i, j :: 0 <= i < j < |es| && Terminal(es[i]) ==> es[j].handle != es[i].handle
  }

  /** What holds in every world: the client invariant; whatever has been handed out is about
      known handles, and finished transactions are gone. */
  ghost predicate WorldInv(w: World) {
    && Inv(w.s)
    && EffectsKnown(Delivered(w.log), w.s.nextHandle)
    && (forall h :: h in w.s.tmap ==> !FinishedIn(Delivered(w.log), h))
  }

  lemma HistoryProper(w: World)
    requires WorldInv(w)
    ensures AllProper(History(w)) && AllProper(Delivered(w.log)) && AllProper(w.s.effects)
  {
  }

  // ---- Every world satisfies the invariant ----

  lemma {:induction false} DrainKeeps(cfg: Settings, s: State, now: int)
    ensures
      var s' := Drain(cfg, s, now);
      && s'.tmap.Keys == s.tmap.Keys && s'.tidToHandle == s.tidToHandle && s'.nextHandle == s.nextHandle
      && s'.rto == s.rto && s.effects <= s'.effects
    decreases Work(cfg, s.tmap, s.timeline, now)
  {
    hide Work, Insert, Advance;
    if TimerDue(s, now) {
      FireSpends(cfg, s, now);
      var s1 := Fire(cfg, s, now);
      assert s1.tmap.Keys == s.tmap.Keys;
      DrainKeeps(cfg, s1, now);
    }
  }

  lemma NothingDue(cfg: Settings, s: State, now: int)
    requires !TimerDue(s, now)
    ensures Drain(cfg, s, now) == s
  {
  }

  lemma PollInv(cfg: Settings, w: World, now: int)
    requires WorldInv(w)
    ensures WorldInv(Step(cfg, w, Poll(now)))
  {
    hide Drain, Inv, Pop, FinishedIn, EffectsKnown;
    var s1 := Drain(cfg, w.s, now);
    DrainInv(cfg, w.s, now);
    DrainKeeps(cfg, w.s, now);
    EffectsProper(s1);
    if s1.effects != [] {
      var e := s1.effects[0];
      PopInv(s1);
      PopKnown(s1);
      ToldOne(w.log, Stamped(now, e), s1.nextHandle);
      hide Delivered;
      assert forall h :: h in Pop(s1).tmap ==> h in w.s.tmap;
    } else {
      assert w.log + [] == w.log;
    }
  }

  lemma ToldOne(log: seq<Stamped>, st: Stamped, n: Handle)
    requires Proper(st.effect)
    ensures Delivered(log + [st]) == Delivered(log) + [st.effect]
    ensures forall h :: FinishedIn(Delivered(log + [st]), h) <==>
      FinishedIn(Delivered(log), h) || (Terminal(st.effect) && st.effect.handle == h)
    ensures EffectsKnown(Delivered(log), n) && st.effect.handle < n ==> EffectsKnown(Delivered(log + [st]), n)
  {
    var a, e := Delivered(log), st.effect;
    assert Delivered(log + [st]) == a + [e];
    forall h ensures FinishedIn(a + [e], h) <==> FinishedIn(a, h) || (Terminal(e) && e.handle == h) {
      FinishedAppend(a, [e], h);
      FinishedSingle(e, h);
    }
  }

  lemma FinishedSingle(e: Effect, h: Handle)
    ensures FinishedIn([e], h) <==> Terminal(e) && e.handle == h
  {
    if Terminal(e) && e.handle == h {
      assert [e][0] == e;
    }
  }

  lemma PopKnown(s: State)
    requires Inv(s) && s.effects != []
    ensures Pop(s).nextHandle == s.nextHandle && Pop(s).tmap.Keys <= s.tmap.Keys
    ensures s.effects[0].handle < s.nextHandle
  {
  }

  lemma CreateInv(cfg: Settings, w: World, op: Op)
    requires WorldInv(w) && op.Create?
    ensures WorldInv(Step(cfg, w, op))
  {
    if op.tid !in w.s.tidToHandle {
      StartInv(cfg, w.s, op.now, op.tid, op.data, op.path, op.auth);
      hide Timeout, Insert, Inv;
      var w' := Step(cfg, w, op);
      KnownHandlesOnly(w.s);
      forall h | h in w'.s.tmap ensures !FinishedIn(Delivered(w'.log), h) {
      }
    }
  }

  lemma KnownHandlesOnly(s: State)
    requires Inv(s)
    ensures forall h :: h in s.tmap ==> h < s.nextHandle
    ensures AllocateHandle(s.nextHandle, s.tmap) == s.nextHandle
  {
  }

  lemma ReceiveInv(cfg: Settings, w: World, op: Op)
    requires WorldInv(w) && op.Receive?
    ensures WorldInv(Step(cfg, w, op))
  {
    RespondInv(cfg, w.s, op.now, op.view, op.given);
    RespondKeys(cfg, w.s, op.now, op.view, op.given);
    hide Respond, Inv, Verdict;
  }

  lemma RespondKeys(cfg: Settings, s: State, now: int, view: Bytes, given: Maybe<Message>)
    ensures Respond(cfg, s, now, view, given).0.tmap.Keys == s.tmap.Keys
    ensures Respond(cfg, s, now, view, given).0.nextHandle == s.nextHandle
  {
    hide Accept, OutcomeOf, Learn;
  }

  lemma StepInv(cfg: Settings, w: World, op: Op)
    requires WorldInv(w)
    ensures WorldInv(Step(cfg, w, op))
  {
    hide WorldInv, Step;
    match op {
      case Create(_, _, _, _, _) => CreateInv(cfg, w, op);
      case Receive(_, _, _) => ReceiveInv(cfg, w, op);
      case Poll(now) => PollInv(cfg, w, now);
    }
  }

  /** The invariant holds after every run: in particular the two maps are mutually inverse, every
      live transaction has exactly one timer or a queued timeout, and a transaction whose outcome
      was handed out is in neither map. */
  lemma {:induction false} RunInv(cfg: Settings, ops: seq<Op>)
    ensures WorldInv(Run(cfg, ops))
  {
    hide Step;
    if ops == [] {
      InitialInv();
    } else {
      RunInv(cfg, ops[..|ops| - 1]);
      hide WorldInv;
      StepInv(cfg, Run(cfg, ops[..|ops| - 1]), ops[|ops| - 1]);
    }
  }

  // ---- At most one outcome ----

  /** Firing what is due meets no live transaction whose outcome is already queued. */
  ghost predicate TimersSafe(s: State, now: int) {
    forall i :: 0 <= i < |s.timeline| && s.timeline[i].time <= now && s.timeline[i].handle in s.tmap ==>
      !FinishedIn(s.effects, s.timeline[i].handle)
  }

  /** A call that does not overtake a queued outcome: no second outcome for a transaction that has
      one queued, and no due timer of such a transaction. */
  ghost predicate Safe(cfg: Settings, s: State, op: Op) {
    match op
    case Create(_, _, _, _, _) => true
    case Receive(_, _, _) =>
      var v := Verdict(cfg, s, op);
      v.Some? && v.value.1.Finish? ==> !FinishedIn(s.effects, v.value.0)
    case Poll(now) => TimersSafe(s, now)
  }

  ghost predicate AllSafe(cfg: Settings, ops: seq<Op>) {
    forall k :: 0 <= k < |ops| ==> Safe(cfg, Run(cfg, ops[..k]).s, ops[k])
  }

  lemma OnceAppend(es: seq<Effect>, e: Effect)
    requires AllProper(es) && Proper(e)
    ensures AllProper(es + [e])
    ensures AtMostOnce(es + [e]) <==> AtMostOnce(es) && !FinishedIn(es, e.handle)
  {
    var all := es + [e];
    if AtMostOnce(all) {
      assert forall i :: 0 <= i < |es| ==> all[i] == es[i];
      assert all[|es|] == e;
      forall i, j | 0 <= i < j < |es| && Terminal(es[i]) ensures es[j].handle != es[i].handle {
        assert all[i] == es[i] && all[j] == es[j];
      }
    }
    if AtMostOnce(es) && !FinishedIn(es, e.handle) {
      forall i, j | 0 <= i < j < |all| && Terminal(all[i]) ensures all[j].handle != all[i].handle {
      }
    }
  }

  lemma FinishedAppend(a: seq<Effect>, b: seq<Effect>, h: Handle)
    ensures FinishedIn(a + b, h) <==> FinishedIn(a, h) || FinishedIn(b, h)
  {
    if FinishedIn(a, h) {
      var i :| 0 <= i < |a| && Terminal(a[i]) && a[i].handle == h;
      assert (a + b)[i] == a[i];
    }
    if FinishedIn(b, h) {
      var i :| 0 <= i < |b| && Terminal(b[i]) && b[i].handle == h;
      assert (a + b)[|a| + i] == b[i];
    }
  }

  /** Appending the effect of one timer: the condition moves from the timers to the effects. */
  lemma FireOnce(cfg: Settings, s: State, now: int, told: seq<Effect>)
    requires Inv(s) && TimerDue(s, now) && AllProper(told)
    requires forall h :: h in s.tmap ==> !FinishedIn(told, h)
    ensures AllProper(told + s.effects) && AllProper(told + Fire(cfg, s, now).effects)
    ensures
      var s' := Fire(cfg, s, now);
      AtMostOnce(told + s'.effects) && TimersSafe(s', now) <==> AtMostOnce(told + s.effects) && TimersSafe(s, now)
  {
    var s' := Fire(cfg, s, now);
    var h, rest := s.timeline[0].handle, s.timeline[1..];
    assert AllProper(told + s.effects);
    if h !in s.tmap {
      SafeTail(s, now);
    } else {
      var algo := Advance(cfg.retransmit, s.tmap[h].algo, now);
      var e := s'.effects[|s.effects|];
      assert told + s'.effects == (told + s.effects) + [e];
      OnceAppend(told + s.effects, e);
      FinishedAppend(told, s.effects, h);
      hide AtMostOnce, FinishedIn;
      SafeAfterFire(cfg, s, now);
    }
  }

  lemma SafeTail(s: State, now: int)
    requires s.timeline != [] && s.timeline[0].handle !in s.tmap
    ensures TimersSafe(s.(timeline := s.timeline[1..]), now) <==> TimersSafe(s, now)
  {
    var rest := s.timeline[1..];
    assert forall i :: 0 <= i < |rest| ==> rest[i] == s.timeline[i + 1];
    if TimersSafe(s.(timeline := rest), now) {
      forall i | 0 <= i < |s.timeline| && s.timeline[i].time <= now && s.timeline[i].handle in s.tmap
        ensures !FinishedIn(s.effects, s.timeline[i].handle)
      {
        assert rest[i - 1] == s.timeline[i];
      }
    }
  }

  ghost predicate DueLive(s: State, now: int, d: Due) {
    d in s.timeline && d.time <= now && d.handle in s.tmap
  }

  lemma TimersSafeByMember(s: State, now: int)
    ensures TimersSafe(s, now) <==> forall d :: DueLive(s, now, d) ==> !FinishedIn(s.effects, d.handle)
  {
    hide FinishedIn;
    if forall d :: DueLive(s, now, d) ==> !FinishedIn(s.effects, d.handle) {
      forall i | 0 <= i < |s.timeline| && s.timeline[i].time <= now && s.timeline[i].handle in s.tmap
        ensures !FinishedIn(s.effects, s.timeline[i].handle)
      {
        assert DueLive(s, now, s.timeline[i]);
      }
    }
  }

  /** What firing a live timer adds to the effects. */
  lemma FiredEffect(cfg: Settings, s: State, now: int) returns (e: Effect)
    requires TimerDue(s, now) && s.timeline[0].handle in s.tmap
    ensures
      var s', h := Fire(cfg, s, now), s.timeline[0].handle;
      && (Terminal(e) <==> Advance(cfg.retransmit, s.tmap[h].algo, now).next.None?)
      && forall g :: FinishedIn(s'.effects, g) <==> FinishedIn(s.effects, g) || (g == h && Terminal(e))
  {
    hide Advance, Insert, FinishedIn;
    var s', h := Fire(cfg, s, now), s.timeline[0].handle;
    e := s'.effects[|s.effects|];
    assert s'.effects == s.effects + [e] && e.handle == h;
    forall g ensures FinishedIn(s'.effects, g) <==> FinishedIn(s.effects, g) || (g == h && Terminal(e)) {
      FinishedAppend(s.effects, [e], g);
      FinishedSingle(e, g);
    }
  }

  /** The due timers after firing one: those of other transactions, and perhaps one more of the
      same. */
  lemma FiredTimers(cfg: Settings, s: State, now: int)
    requires Inv(s) && TimerDue(s, now) && s.timeline[0].handle in s.tmap
    ensures
      var s', d0 := Fire(cfg, s, now), s.timeline[0];
      && DueLive(s, now, d0)
      && (forall d :: DueLive(s', now, d) ==> d.handle == d0.handle || DueLive(s, now, d))
      && (forall d :: DueLive(s, now, d) ==> d == d0 || DueLive(s', now, d))
      && (Advance(cfg.retransmit, s.tmap[d0.handle].algo, now).next.None? ==>
            forall d :: DueLive(s', now, d) ==> d.handle != d0.handle)
  {
    var s', d0, rest := Fire(cfg, s, now), s.timeline[0], s.timeline[1..];
    TailTimers(s.timeline);
    var algo := Advance(cfg.retransmit, s.tmap[d0.handle].algo, now);
    if algo.next.Some? {
      InsertMembers(rest, Due(algo.next.value, d0.handle));
    }
    hide Insert, Advance;
    assert s.timeline == [d0] + rest;
    forall d | d in rest ensures d.handle != d0.handle {
      var i :| 0 <= i < |rest| && rest[i] == d;
    }
    hide Inv;
    assert s'.tmap.Keys == s.tmap.Keys;
  }

  lemma SafeAfterFire(cfg: Settings, s: State, now: int)
    requires Inv(s) && TimerDue(s, now) && s.timeline[0].handle in s.tmap
    ensures
      var s', h := Fire(cfg, s, now), s.timeline[0].handle;
      !FinishedIn(s.effects, h) && TimersSafe(s', now) <==> TimersSafe(s, now)
  {
    hide FinishedIn, TimersSafe, Insert, Advance, DueLive, Inv, Fire;
    var s' := Fire(cfg, s, now);
    TimersSafeByMember(s, now);
    TimersSafeByMember(s', now);
    var e := FiredEffect(cfg, s, now);
    FiredTimers(cfg, s, now);
  }

  lemma {:induction false} DrainOnce(cfg: Settings, s: State, now: int, told: seq<Effect>)
    requires Inv(s) && AllProper(told) && forall h :: h in s.tmap ==> !FinishedIn(told, h)
    ensures AllProper(told + s.effects) && AllProper(told + Drain(cfg, s, now).effects)
    ensures AtMostOnce(told + Drain(cfg, s, now).effects) <==> AtMostOnce(told + s.effects) && TimersSafe(s, now)
    decreases Work(cfg, s.tmap, s.timeline, now)
  {
    assert AllProper(told + s.effects);
    if TimerDue(s, now) {
      FireSpends(cfg, s, now);
      FireOnce(cfg, s, now, told);
      FireInv(cfg, s, now);
      assert Fire(cfg, s, now).tmap.Keys == s.tmap.Keys;
      hide Inv, Fire, Work, AtMostOnce, TimersSafe, FinishedIn;
      DrainOnce(cfg, Fire(cfg, s, now), now, told);
    } else {
      assert TimersSafe(s, now);
    }
  }

  lemma StepOnce(cfg: Settings, w: World, op: Op)
    requires WorldInv(w)
    ensures WorldInv(Step(cfg, w, op)) && AllProper(History(w)) && AllProper(History(Step(cfg, w, op)))
    ensures AtMostOnce(History(Step(cfg, w, op))) <==> AtMostOnce(History(w)) && Safe(cfg, w.s, op)
  {
    StepInv(cfg, w, op);
    HistoryProper(w);
    HistoryProper(Step(cfg, w, op));
    hide AtMostOnce;
    match op {
      case Create(_, _, _, _, _) => CreateOnce(cfg, w, op);
      case Receive(_, _, _) => ReceiveOnce(cfg, w, op);
      case Poll(now) => PollOnce(cfg, w, now);
    }
  }

  lemma CreateOnce(cfg: Settings, w: World, op: Op)
    requires WorldInv(w) && op.Create? && AllProper(History(w)) && AllProper(History(Step(cfg, w, op)))
    ensures AtMostOnce(History(Step(cfg, w, op))) <==> AtMostOnce(History(w))
  {
    if op.tid !in w.s.tidToHandle {
      KnownHandlesOnly(w.s);
      var e := SendData(w.s.nextHandle, op.data);
      hide Timeout, Insert;
      assert History(Step(cfg, w, op)) == History(w) + [e];
      OnceAppend(History(w), e);
      FinishedAppend(Delivered(w.log), w.s.effects, e.handle);
    }
  }

  lemma ReceiveOnce(cfg: Settings, w: World, op: Op)
    requires WorldInv(w) && op.Receive? && AllProper(History(w)) && AllProper(History(Step(cfg, w, op)))
    ensures AtMostOnce(History(Step(cfg, w, op))) <==> AtMostOnce(History(w)) && Safe(cfg, w.s, op)
  {
    hide Accept, OutcomeOf, AtMostOnce, FinishedIn, Learn;
    var v := Verdict(cfg, w.s, op);
    if v.Some? && v.value.1.Finish? {
      var h, e := v.value.0, v.value.1.effect;
      OwnHandle(w.s, h);
      hide Inv;
      assert History(Step(cfg, w, op)) == History(w) + [e];
      OnceAppend(History(w), e);
      FinishedAppend(Delivered(w.log), w.s.effects, h);
    } else {
      assert History(Step(cfg, w, op)) == History(w);
    }
  }

  lemma PollOnce(cfg: Settings, w: World, now: int)
    requires WorldInv(w) && AllProper(History(w)) && AllProper(History(Step(cfg, w, Poll(now))))
    ensures AtMostOnce(History(Step(cfg, w, Poll(now)))) <==> AtMostOnce(History(w)) && TimersSafe(w.s, now)
  {
    HistoryProper(w);
    DrainOnce(cfg, w.s, now, Delivered(w.log));
    PollHistory(cfg, w, now);
    hide AtMostOnce, TimersSafe, Step;
  }

  /** Handing out an effect moves it from the queue to the log: the history is what the timers
      made of it. */
  lemma PollHistory(cfg: Settings, w: World, now: int)
    requires WorldInv(w)
    ensures History(Step(cfg, w, Poll(now))) == Delivered(w.log) + Drain(cfg, w.s, now).effects
  {
    hide Drain, Inv, FinishedIn, EffectsKnown;
    var s1 := Drain(cfg, w.s, now);
    DrainInv(cfg, w.s, now);
    EffectsProper(s1);
    if s1.effects != [] {
      var e := s1.effects[0];
      ToldOne(w.log, Stamped(now, e), s1.nextHandle);
      assert Pop(s1).effects == s1.effects[1..];
      hide Pop, Delivered;
      assert s1.effects == [e] + s1.effects[1..];
    } else {
      assert w.log + [] == w.log;
    }
  }

  /** For every run: each transaction gets at most one outcome and nothing after it, exactly when
      every call was safe. */
  lemma {:induction false} AtMostOnceIffSafe(cfg: Settings, ops: seq<Op>)
    ensures AllProper(History(Run(cfg, ops)))
    ensures AtMostOnce(History(Run(cfg, ops))) <==> AllSafe(cfg, ops)
  {
    RunInv(cfg, ops);
    HistoryProper(Run(cfg, ops));
    if ops == [] {
    } else {
      var n := |ops| - 1;
      var before := ops[..n];
      AtMostOnceIffSafe(cfg, before);
      RunInv(cfg, before);
      StepOnce(cfg, Run(cfg, before), ops[n]);
      hide Step, AtMostOnce, Safe, WorldInv, AllSafe;
      AllSafeSnoc(cfg, ops);
    }
  }

  lemma AllSafeSnoc(cfg: Settings, ops: seq<Op>)
    requires ops != []
    ensures
      var n := |ops| - 1;
      AllSafe(cfg, ops) <==> AllSafe(cfg, ops[..n]) && Safe(cfg, Run(cfg, ops[..n]).s, ops[n])
  {
    hide Safe, Run;
    var n := |ops| - 1;
    var before := ops[..n];
    forall k | 0 <= k < n
      ensures Safe(cfg, Run(cfg, ops[..k]).s, ops[k]) <==> Safe(cfg, Run(cfg, before[..k]).s, before[k]) {
      assert ops[..k] == before[..k] && ops[k] == before[k];
    }
  }
}
