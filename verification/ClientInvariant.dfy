/** What every step of the client keeps. */
module ClientInvariant {
  import opened Bytes
  import opened Header
  import opened Messages
  import opened Rto
  import opened Retransmit
  import opened Client

  /** The id map and the transaction map are mutually inverse. */
  ghost predicate MapsAgree(s: State) {
    && (forall tid :: tid in s.tidToHandle ==> s.tidToHandle[tid] in s.tmap && s.tmap[s.tidToHandle[tid]].tid == tid)
    && (forall h :: h in s.tmap ==>
          s.tmap[h].hnd == h && s.tmap[h].tid in s.tidToHandle && s.tidToHandle[s.tmap[h].tid] == h)
  }

  ghost predicate TimersKnown(timeline: seq<Due>, n: Handle) {
    forall i :: 0 <= i < |timeline| ==> timeline[i].handle < n
  }

  ghost predicate EffectsKnown(effects: seq<Effect>, n: Handle) {
    forall i :: 0 <= i < |effects| ==> Proper(effects[i]) && effects[i].handle < n
  }

  /** Nothing refers to a handle that has not been handed out. */
  ghost predicate HandlesKnown(s: State) {
    && (forall h :: h in s.tmap ==> h < s.nextHandle)
    && TimersKnown(s.timeline, s.nextHandle)
    && EffectsKnown(s.effects, s.nextHandle)
  }

  /** At most one timer per transaction. */
  ghost predicate Distinct(timeline: seq<Due>) {
    forall i, j :: 0 <= i < j < |timeline| ==> timeline[i].handle != timeline[j].handle
  }

  ghost predicate HasTimer(timeline: seq<Due>, h: Handle) {
    exists i :: 0 <= i < |timeline| && timeline[i].handle == h
  }

  ghost predicate TimeoutQueued(effects: seq<Effect>, h: Handle) {
    TransactionFailed(h, TimedOut) in effects
  }

  /** A live transaction has a timer, or its timeout is queued, never both. */
  ghost predicate Armed(s: State) {
    forall h :: h in s.tmap ==> (HasTimer(s.timeline, h) <==> !TimeoutQueued(s.effects, h))
  }

  ghost predicate Inv(s: State) {
    MapsAgree(s) && HandlesKnown(s) && Sorted(s.timeline) && Distinct(s.timeline) && Armed(s)
  }

  lemma InsertTimers(timeline: seq<Due>, d: Due)
    ensures forall h :: HasTimer(Insert(timeline, d), h) <==> h == d.handle || HasTimer(timeline, h)
    ensures Distinct(timeline) && !HasTimer(timeline, d.handle) ==> Distinct(Insert(timeline, d))
  {
    var k := InsertAt(timeline, d);
    hide Insert;
    var r := timeline[..k] + [d] + timeline[k..];
    assert r[k] == d;
    forall h | HasTimer(timeline, h) ensures HasTimer(r, h) {
      var i :| 0 <= i < |timeline| && timeline[i].handle == h;
      assert r[if i < k then i else i + 1] == timeline[i];
    }
    forall h | HasTimer(r, h) && h != d.handle ensures HasTimer(timeline, h) {
      var i :| 0 <= i < |r| && r[i].handle == h;
      assert r[i] == timeline[if i < k then i else i - 1];
    }
    if Distinct(timeline) && !HasTimer(timeline, d.handle) {
      forall i, j | 0 <= i < j < |r| ensures r[i].handle != r[j].handle {
      }
    }
  }

  lemma TailTimers(timeline: seq<Due>)
    requires timeline != []
    ensures Sorted(timeline) ==> Sorted(timeline[1..])
    ensures Distinct(timeline) ==> Distinct(timeline[1..]) && !HasTimer(timeline[1..], timeline[0].handle)
    ensures forall h :: HasTimer(timeline, h) <==> h == timeline[0].handle || HasTimer(timeline[1..], h)
  {
    var rest := timeline[1..];
    forall h | HasTimer(timeline, h) && h != timeline[0].handle ensures HasTimer(rest, h) {
      var i :| 0 <= i < |timeline| && timeline[i].handle == h;
      assert rest[i - 1] == timeline[i];
    }
    forall h | HasTimer(rest, h) ensures HasTimer(timeline, h) {
      var i :| 0 <= i < |rest| && rest[i].handle == h;
      assert timeline[i + 1] == rest[i];
    }
  }

  lemma InsertKnown(timeline: seq<Due>, d: Due, n: Handle)
    requires TimersKnown(timeline, n) && d.handle < n
    ensures TimersKnown(Insert(timeline, d), n)
  {
    var k := InsertAt(timeline, d);
    hide Insert;
  }

  lemma QueueTimeouts(effects: seq<Effect>, e: Effect)
    ensures forall g ::
      TimeoutQueued(effects + [e], g) <==> TimeoutQueued(effects, g) || e == TransactionFailed(g, TimedOut)
  {
  }

  lemma NoTimerAhead(timeline: seq<Due>, h: Handle)
    requires TimersKnown(timeline, h)
    ensures !HasTimer(timeline, h)
  {
  }

  lemma NoTimeoutAhead(effects: seq<Effect>, h: Handle)
    requires EffectsKnown(effects, h)
    ensures !TimeoutQueued(effects, h)
  {
  }

  lemma InitialInv()
    ensures Inv(INITIAL)
  {
  }

  lemma StartInv(cfg: Settings, s: State, now: int, tid: TransactionId, data: Bytes, path: Path, auth: Maybe<Auth>)
    requires Inv(s) && tid !in s.tidToHandle
    ensures Inv(StartTransaction(cfg, s, now, tid, data, path, auth))
  {
    hide Timeout, Insert, Sorted, Distinct, HasTimer, TimeoutQueued, TimersKnown;
    var s' := StartTransaction(cfg, s, now, tid, data, path, auth);
    var h := s.nextHandle;
    var d := Due(now + Timeout(cfg.rto, s.rto, path), h);
    NoTimerAhead(s.timeline, h);
    NoTimeoutAhead(s.effects, h);
    InsertTimers(s.timeline, d);
    InsertSorted(s.timeline, d);
    TimersLater(s.timeline, h, h + 1);
    InsertKnown(s.timeline, d, h + 1);
    QueueTimeouts(s.effects, SendData(h, data));
    StartMaps(cfg, s, now, tid, data, path, auth);
    hide MapsAgree;
    assert s'.timeline == Insert(s.timeline, d);
  }

  lemma TimersLater(timeline: seq<Due>, m: Handle, n: Handle)
    requires TimersKnown(timeline, m) && m <= n
    ensures TimersKnown(timeline, n)
  {
  }

  lemma StartMaps(cfg: Settings, s: State, now: int, tid: TransactionId, data: Bytes, path: Path, auth: Maybe<Auth>)
    requires MapsAgree(s) && s.nextHandle !in s.tmap && tid !in s.tidToHandle
    ensures MapsAgree(StartTransaction(cfg, s, now, tid, data, path, auth))
  {
    hide Timeout, Insert;
  }

  lemma FireInv(cfg: Settings, s: State, now: int)
    requires Inv(s) && TimerDue(s, now)
    ensures Inv(Fire(cfg, s, now))
  {
    hide Insert, Sorted, Distinct, HasTimer, TimeoutQueued, Advance, TimersKnown;
    var h, rest := s.timeline[0].handle, s.timeline[1..];
    TailTimers(s.timeline);
    TailKnown(s.timeline, s.nextHandle);
    if h in s.tmap {
      var algo := Advance(cfg.retransmit, s.tmap[h].algo, now);
      FireMaps(cfg, s, now);
      hide MapsAgree;
      if algo.next.Some? {
        var d := Due(algo.next.value, h);
        InsertTimers(rest, d);
        InsertSorted(rest, d);
        InsertKnown(rest, d, s.nextHandle);
        QueueTimeouts(s.effects, SendData(h, s.tmap[h].data));
      } else {
        QueueTimeouts(s.effects, TransactionFailed(h, TimedOut));
      }
    }
  }

  lemma TailKnown(timeline: seq<Due>, n: Handle)
    requires timeline != [] && TimersKnown(timeline, n)
    ensures TimersKnown(timeline[1..], n) && timeline[0].handle < n
  {
  }

  lemma FireMaps(cfg: Settings, s: State, now: int)
    requires MapsAgree(s) && s.timeline != []
    ensures MapsAgree(Fire(cfg, s, now))
  {
    hide Insert, Advance;
  }

  lemma {:induction false} DrainInv(cfg: Settings, s: State, now: int)
    requires Inv(s)
    ensures Inv(Drain(cfg, s, now)) && !TimerDue(Drain(cfg, s, now), now)
    decreases Work(cfg, s.tmap, s.timeline, now)
  {
    hide Inv, Fire, Work;
    if TimerDue(s, now) {
      FireSpends(cfg, s, now);
      FireInv(cfg, s, now);
      DrainInv(cfg, Fire(cfg, s, now), now);
    }
  }

  lemma PopInv(s: State)
    requires Inv(s) && s.effects != []
    ensures Inv(Pop(s))
    ensures Terminal(s.effects[0]) ==>
      var h := s.effects[0].handle;
      h !in Pop(s).tmap && forall tid :: tid in Pop(s).tidToHandle ==> Pop(s).tidToHandle[tid] != h
  {
    hide HasTimer, TimeoutQueued, Sorted, Distinct, TimersKnown;
    PopMaps(s);
    PopTimeouts(s.effects);
    hide MapsAgree;
    assert Pop(s).timeline == s.timeline;
  }

  lemma PopTimeouts(effects: seq<Effect>)
    requires effects != []
    ensures forall g ::
      TimeoutQueued(effects, g) <==> TimeoutQueued(effects[1..], g) || effects[0] == TransactionFailed(g, TimedOut)
  {
    assert effects == [effects[0]] + effects[1..];
  }

  lemma PopMaps(s: State)
    requires MapsAgree(s) && s.effects != []
    ensures MapsAgree(Pop(s))
    ensures Terminal(s.effects[0]) ==>
      var h := s.effects[0].handle;
      h !in Pop(s).tmap && forall tid :: tid in Pop(s).tidToHandle ==> Pop(s).tidToHandle[tid] != h
  {
  }

  lemma ApplyInv(cfg: Settings, s: State, now: int, h: Handle, o: Outcome)
    requires Inv(s) && h in s.tmap
    requires o.Finish? ==> Terminal(o.effect) && o.effect.handle == h && o.effect != TransactionFailed(h, TimedOut)
    ensures Inv(Apply(cfg, s, now, h, o))
  {
    hide HasTimer, TimeoutQueued, Sorted, Distinct, TimersKnown, Learn;
    if o.Finish? {
      QueueTimeouts(s.effects, o.effect);
    }
  }

  lemma RespondInv(cfg: Settings, s: State, now: int, view: Bytes, given: Maybe<Message>)
    requires Inv(s)
    ensures Inv(Respond(cfg, s, now, view, given).0)
  {
    hide Inv, Accept, OutcomeOf, Apply;
    var r := Accept(cfg, s, view, given);
    if r.Ok? {
      var (h, m) := r.value;
      OwnHandle(s, h);
      ApplyInv(cfg, s, now, h, OutcomeOf(cfg, s.tmap[h], now, m));
    }
  }

  lemma OwnHandle(s: State, h: Handle)
    requires Inv(s) && h in s.tmap
    ensures s.tmap[h].hnd == h
  {
  }

  lemma NextInv(cfg: Settings, s: State, now: int)
    requires Inv(s)
    ensures Inv(Next(cfg, s, now).0)
  {
    hide Inv, Drain, Pop;
    DrainInv(cfg, s, now);
    if Drain(cfg, s, now).effects != [] {
      PopInv(Drain(cfg, s, now));
    }
  }

  /** Idle is only reported when no transaction is live. */
  lemma IdleMeansDone(cfg: Settings, s: State, now: int)
    requires Inv(s) && Next(cfg, s, now).1 == Idle
    ensures Next(cfg, s, now).0.tmap == map[] && Next(cfg, s, now).0.tidToHandle == map[]
  {
    var s' := Drain(cfg, s, now);
    DrainInv(cfg, s, now);
    hide Drain;
    EffectsProper(s');
    assert s'.effects == [] && s'.timeline == [];
    assert forall h :: h in s'.tmap ==> !HasTimer(s'.timeline, h) && !TimeoutQueued(s'.effects, h);
    assert forall h :: h !in s'.tmap;
    assert forall tid :: tid !in s'.tidToHandle;
  }

  lemma EffectsProper(s: State)
    requires Inv(s)
    ensures s.effects != [] ==> Proper(s.effects[0])
  {
  }

  /** A sleep is positive, and reaches no further than the timer of any live transaction, all of
      which have one. */
  lemma SleepReachesNoTimer(cfg: Settings, s: State, now: int)
    requires Inv(s) && Next(cfg, s, now).1.Sleep?
    ensures
      var (s', e) := Next(cfg, s, now);
      && e.duration > 0
      && s'.effects == [] && s'.timeline != [] && s'.timeline[0].time == now + e.duration
      && (forall h :: h in s'.tmap ==> HasTimer(s'.timeline, h))
      && (forall i :: 0 <= i < |s'.timeline| ==> now + e.duration <= s'.timeline[i].time)
  {
    var s' := Drain(cfg, s, now);
    DrainInv(cfg, s, now);
    EffectsProper(s');
    hide Drain;
    assert s'.effects == [];
    assert forall h :: h in s'.tmap ==> !TimeoutQueued(s'.effects, h);
  }
}
