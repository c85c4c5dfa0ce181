/** The waits of every transaction in every run: whatever is answered, late or polled late, 5xx
    responses included. */
module Waits {
  import opened Bytes
  import opened Header
  import opened Rto
  import opened Retransmit
  import opened Client
  import opened ClientInvariant
  import opened ClientRuns
  import opened Effort
  import opened Schedule

  // ---- The waits in closed form ----

  function Larger(a: int, b: int): int {
    if a < b then b else a
  }

  /** A wait that has been doubled together with the configured maximum, which works as a floor: the
      maximum was first applied `doublings` steps ago. */
  function Raised(cfg: Settings, wait: int, doublings: nat): int {
    match cfg.retransmit.maxRto
    case None => wait
    case Some(m) => Larger(wait, if m < 0 then m else m * Pow2(doublings))
  }

  /** The wait after request k. Up to the last planned request it is 2^k RTO; that request takes Rm
      RTO, and requests beyond the plan, which only 5xx responses grant, double from there. */
  function ClosedWait(cfg: Settings, rto: int, k: nat): int {
    var rc := cfg.retransmit.requestCount;
    if k == 0 then rto
    else if rc < 2 || k < rc - 1 then Raised(cfg, rto * Pow2(k), k - 1)
    else Raised(cfg, rto * cfg.retransmit.multiplier * Pow2(k - rc + 1), k - rc + 1)
  }

  lemma RaisedDoubles(cfg: Settings, wait: int, j: nat)
    ensures Floored(cfg, 2 * Raised(cfg, wait, j)) == Raised(cfg, 2 * wait, j + 1)
    ensures Floored(cfg, wait) == Raised(cfg, wait, 0)
  {
    if cfg.retransmit.maxRto.Some? {
      var m := cfg.retransmit.maxRto.value;
      var p := Pow2(j);
      Pow2Positive(j);
      assert Pow2(j + 1) == 2 * p;
      assert m * (2 * p) == 2 * (m * p);
      assert m >= 0 ==> m <= m * p;
    }
  }

  lemma {:induction false} Pow2Positive(j: nat)
    ensures Pow2(j) >= 1
  {
    if j > 0 {
      Pow2Positive(j - 1);
    }
  }

  lemma TwicePower(x: int, j: nat)
    ensures 2 * (x * Pow2(j)) == x * Pow2(j + 1)
  {
  }

  /** For every configuration, timeout and k, also beyond the planned number of requests. */
  lemma {:induction false} WaitClosed(cfg: Settings, rto: int, k: nat)
    ensures Wait(cfg, rto, k) == ClosedWait(cfg, rto, k)
  {
    var rc := cfg.retransmit.requestCount;
    if k > 0 {
      WaitClosed(cfg, rto, k - 1);
      hide Floored, Raised, Pow2;
      Powers();
      if k + 1 == rc {
        RaisedDoubles(cfg, rto * cfg.retransmit.multiplier, 0);
      } else if k == 1 {
        RaisedDoubles(cfg, 2 * rto, 0);
      } else if rc < 2 || k < rc - 1 {
        RaisedDoubles(cfg, rto * Pow2(k - 1), k - 2);
        TwicePower(rto, k - 1);
      } else {
        RaisedDoubles(cfg, rto * cfg.retransmit.multiplier * Pow2(k - rc), k - rc);
        TwicePower(rto * cfg.retransmit.multiplier, k - rc);
      }
    }
  }

  lemma Powers()
    ensures Pow2(0) == 1 && Pow2(1) == 2
  {
  }

  // ---- What every transaction keeps ----

  ghost predicate WaitKept(cfg: Settings, s: State, retries: seq<Handle>, born: map<Handle, Birth>, h: Handle)
    requires h in s.tmap
  {
    var a := s.tmap[h].algo;
    && h in born && a.initialRto == born[h].rto && a.n5xx == Count(retries, h)
    && a.lastTimeout == Wait(cfg, born[h].rto, a.rtxCount)
    && (HasTimer(s.timeline, h) ==> a.next.Some?)
  }

  ghost predicate WaitInv(cfg: Settings, s: State, retries: seq<Handle>, born: map<Handle, Birth>) {
    && (forall h :: h in s.tmap ==> WaitKept(cfg, s, retries, born, h))
    && (forall h :: h >= s.nextHandle ==> Count(retries, h) == 0)
  }

  lemma OtherWait(cfg: Settings, s: State, s': State, retries: seq<Handle>, retries': seq<Handle>,
                  born: map<Handle, Birth>, born': map<Handle, Birth>, g: Handle)
    requires g in s.tmap && g in s'.tmap && s'.tmap[g].algo == s.tmap[g].algo
    requires HasTimer(s'.timeline, g) ==> HasTimer(s.timeline, g)
    requires Count(retries', g) == Count(retries, g)
    requires g in born ==> g in born' && born'[g] == born[g]
    requires WaitKept(cfg, s, retries, born, g)
    ensures WaitKept(cfg, s', retries', born', g)
  {
    hide Count, Wait, HasTimer;
  }

  lemma NextWait(cfg: Settings, a: Algo)
    requires a.lastTimeout == Wait(cfg, a.initialRto, a.rtxCount)
    ensures NextTimeout(cfg.retransmit, a) == Wait(cfg, a.initialRto, a.rtxCount + 1)
  {
  }

  lemma AdvanceWait(cfg: Settings, a: Algo, now: int)
    requires a.lastTimeout == Wait(cfg, a.initialRto, a.rtxCount)
    ensures
      var a' := Advance(cfg.retransmit, a, now);
      a'.lastTimeout == Wait(cfg, a'.initialRto, a'.rtxCount) && a'.initialRto == a.initialRto && a'.n5xx == a.n5xx
  {
    NextWait(cfg, a);
    hide Wait, NextTimeout;
  }

  lemma FireWait(cfg: Settings, s: State, now: int, retries: seq<Handle>, born: map<Handle, Birth>)
    requires Inv(s) && TimerDue(s, now) && WaitInv(cfg, s, retries, born)
    ensures WaitInv(cfg, Fire(cfg, s, now), retries, born)
  {
    var s', h := Fire(cfg, s, now), s.timeline[0].handle;
    TailTimers(s.timeline);
    FireToldTimers(cfg, s, now);
    FireAdds(cfg, s, now);
    hide Inv, HasTimer, Insert, Count, Wait, Advance;
    if h in s.tmap {
      AdvanceWait(cfg, s.tmap[h].algo, now);
      assert WaitKept(cfg, s', retries, born, h);
    }
    hide Fire, WaitKept;
    forall g | g in s'.tmap && (g != h || h !in s.tmap) ensures WaitKept(cfg, s', retries, born, g) {
      if h in s.tmap {
        FireOthers(cfg, s, now, g);
      }
      OtherWait(cfg, s, s', retries, retries, born, born, g);
    }
  }

  lemma {:induction false} DrainWait(cfg: Settings, s: State, now: int, retries: seq<Handle>, born: map<Handle, Birth>)
    requires Inv(s) && WaitInv(cfg, s, retries, born)
    ensures WaitInv(cfg, Drain(cfg, s, now), retries, born)
    decreases Work(cfg, s.tmap, s.timeline, now)
  {
    hide Inv, Fire, Work, WaitInv;
    if TimerDue(s, now) {
      FireSpends(cfg, s, now);
      FireInv(cfg, s, now);
      FireWait(cfg, s, now, retries, born);
      DrainWait(cfg, Fire(cfg, s, now), now, retries, born);
    }
  }

  lemma PopWait(cfg: Settings, s: State, retries: seq<Handle>, born: map<Handle, Birth>)
    requires s.effects != [] && WaitInv(cfg, s, retries, born)
    ensures WaitInv(cfg, Pop(s), retries, born)
  {
    hide HasTimer, Count, Wait, WaitKept;
    var s' := Pop(s);
    forall g | g in s'.tmap ensures WaitKept(cfg, s', retries, born, g) {
      OtherWait(cfg, s, s', retries, retries, born, born, g);
    }
  }

  lemma StartWait(cfg: Settings, s: State, now: int, tid: TransactionId, data: Bytes, path: Path, auth: Maybe<Auth>,
                  retries: seq<Handle>, born: map<Handle, Birth>)
    requires Inv(s) && WaitInv(cfg, s, retries, born)
    ensures
      var born' := born[s.nextHandle := Birth(now, Timeout(cfg.rto, s.rto, path))];
      WaitInv(cfg, StartTransaction(cfg, s, now, tid, data, path, auth), retries, born')
  {
    var s', n, rto := StartTransaction(cfg, s, now, tid, data, path, auth), s.nextHandle, Timeout(cfg.rto, s.rto, path);
    var born' := born[n := Birth(now, rto)];
    KnownHandlesOnly(s);
    InsertTimers(s.timeline, Due(now + rto, n));
    hide Inv, HasTimer, Insert, Count, Timeout;
    assert s'.timeline == Insert(s.timeline, Due(now + rto, n));
    assert WaitKept(cfg, s', retries, born', n);
    hide Wait, WaitKept;
    forall g | g in s'.tmap && g != n ensures WaitKept(cfg, s', retries, born', g) {
      OtherWait(cfg, s, s', retries, retries, born, born', g);
    }
  }

  lemma RetryWait(cfg: Settings, s: State, now: int, h: Handle, algo: Algo, retries: seq<Handle>,
                  born: map<Handle, Birth>)
    requires h in s.tmap && h < s.nextHandle && Process5xx(cfg.retransmit, s.tmap[h].algo, now) == Some(algo)
    requires WaitInv(cfg, s, retries, born)
    ensures WaitInv(cfg, s.(tmap := s.tmap[h := s.tmap[h].(algo := algo)]), retries + [h], born)
  {
    var s' := s.(tmap := s.tmap[h := s.tmap[h].(algo := algo)]);
    forall g ensures Count(retries + [h], g) == Count(retries, g) + if g == h then 1 else 0 {
      CountAppend(retries, h, g);
    }
    hide Count, Wait, HasTimer;
    assert WaitKept(cfg, s', retries + [h], born, h);
    hide WaitKept, Process5xx;
    forall g | g in s'.tmap && g != h ensures WaitKept(cfg, s', retries + [h], born, g) {
      OtherWait(cfg, s, s', retries, retries + [h], born, born, g);
    }
  }

  lemma ApplyWait(cfg: Settings, s: State, now: int, h: Handle, o: Outcome, retries: seq<Handle>,
                  born: map<Handle, Birth>)
    requires Inv(s) && WaitInv(cfg, s, retries, born) && h in s.tmap
    requires o.Retry? ==> Process5xx(cfg.retransmit, s.tmap[h].algo, now) == Some(o.algo)
    ensures WaitInv(cfg, Apply(cfg, s, now, h, o), retries + if o.Retry? then [h] else [], born)
  {
    KnownHandlesOnly(s);
    hide Inv, Learn, Process5xx, WaitKept, Count;
    var s' := Apply(cfg, s, now, h, o);
    assert retries + [] == retries;
    if o.Retry? {
      RetryWait(cfg, s, now, h, o.algo, retries, born);
    } else {
      forall g | g in s'.tmap ensures WaitKept(cfg, s', retries, born, g) {
        OtherWait(cfg, s, s', retries, retries, born, born, g);
      }
    }
  }

  lemma StepWait(cfg: Settings, w: World, op: Op)
    requires WorldInv(w) && WaitInv(cfg, w.s, w.retries, w.born)
    ensures
      var w' := Step(cfg, w, op);
      WaitInv(cfg, w'.s, w'.retries, w'.born)
  {
    hide WaitInv, Inv;
    match op {
      case Create(now, tid, data, path, auth) =>
        if tid !in w.s.tidToHandle {
          StartWait(cfg, w.s, now, tid, data, path, auth, w.retries, w.born);
          KnownHandlesOnly(w.s);
          hide StartTransaction, Timeout;
        }
      case Receive(now, view, given) =>
        hide Accept, OutcomeOf, Apply;
        var v := Verdict(cfg, w.s, op);
        if v.Some? {
          ApplyWait(cfg, w.s, now, v.value.0, v.value.1, w.retries, w.born);
        } else {
          assert w.retries + [] == w.retries;
        }
      case Poll(now) =>
        DrainWait(cfg, w.s, now, w.retries, w.born);
        hide Drain, Pop;
        if Drain(cfg, w.s, now).effects != [] {
          PopWait(cfg, Drain(cfg, w.s, now), w.retries, w.born);
        }
    }
  }

  lemma {:induction false} RunWait(cfg: Settings, ops: seq<Op>)
    ensures WaitInv(cfg, Run(cfg, ops).s, Run(cfg, ops).retries, Run(cfg, ops).born)
  {
    if ops != [] {
      var before := ops[..|ops| - 1];
      RunWait(cfg, before);
      RunInv(cfg, before);
      hide WaitInv, Step, WorldInv;
      StepWait(cfg, Run(cfg, before), ops[|ops| - 1]);
    }
  }

  /** In every run, for every live transaction, however many 5xx responses it has accepted: its
      current wait is the closed form in the number of times its timer has been rearmed. */
  lemma LiveWait(cfg: Settings, ops: seq<Op>, h: Handle)
    requires h in Run(cfg, ops).s.tmap
    ensures
      var w := Run(cfg, ops);
      var a := w.s.tmap[h].algo;
      && h in w.born && a.initialRto == w.born[h].rto && a.n5xx == Count(w.retries, h)
      && a.lastTimeout == ClosedWait(cfg, w.born[h].rto, a.rtxCount)
  {
    RunWait(cfg, ops);
    var w := Run(cfg, ops);
    assert WaitKept(cfg, w.s, w.retries, w.born, h);
    WaitClosed(cfg, w.born[h].rto, w.s.tmap[h].algo.rtxCount);
    hide Run, Wait, ClosedWait, Count;
  }

  // ---- Every firing ----

  /** What the timer of a live transaction does when it fires. Before the deadline, which only a 5xx
      response moves, the request is repeated and the timer set to the deadline. At or after it, a
      transaction with requests left sends one, its timer is set one wait from now, and the rest of
      the account moves on by one; without, its timeout is queued and it has no timer. */
  ghost predicate FiresExactly(cfg: Settings, s: State, now: int, retries: seq<Handle>, born: map<Handle, Birth>,
                               h: Handle, s': State)
    requires h in s.tmap
  {
    var t := s.tmap[h];
    && h in born && h in s'.tmap && t.algo.next.Some?
    && (forall g :: g in s.tmap && g != h ==> g in s'.tmap && s'.tmap[g] == s.tmap[g])
    && var k, deadline := t.algo.rtxCount, t.algo.next.value;
       if now < deadline then
         && s'.effects == s.effects + [SendData(h, t.data)]
         && s'.tmap[h] == t.(rtxCount := t.rtxCount + 1)
         && TimerIs(s'.timeline, h, deadline)
       else if k + 1 < cfg.retransmit.requestCount + Count(retries, h) then
         && s'.effects == s.effects + [SendData(h, t.data)]
         && s'.tmap[h].algo.rtxCount == k + 1 && s'.tmap[h].rtxCount == t.rtxCount + 1
         && s'.tmap[h].algo.next == Some(now + ClosedWait(cfg, born[h].rto, k + 1))
         && TimerIs(s'.timeline, h, now + ClosedWait(cfg, born[h].rto, k + 1))
       else
         && s'.effects == s.effects + [TransactionFailed(h, TimedOut)]
         && !HasTimer(s'.timeline, h)
  }

  /** The transaction has one timer, set to this time. */
  ghost predicate TimerIs(timeline: seq<Due>, h: Handle, time: int) {
    && Due(time, h) in timeline
    && forall i :: 0 <= i < |timeline| && timeline[i].handle == h ==> timeline[i].time == time
  }

  lemma Rearmed(rest: seq<Due>, d: Due)
    requires !HasTimer(rest, d.handle)
    ensures TimerIs(Insert(rest, d), d.handle, d.time)
  {
    RearmedTimers(rest, d);
    InsertMembers(rest, d);
    hide Insert;
  }

  lemma FireExact(cfg: Settings, s: State, now: int, retries: seq<Handle>, born: map<Handle, Birth>)
    requires Inv(s) && TimerDue(s, now) && WaitInv(cfg, s, retries, born) && s.timeline[0].handle in s.tmap
    ensures FiresExactly(cfg, s, now, retries, born, s.timeline[0].handle, Fire(cfg, s, now))
  {
    var s', h, rest := Fire(cfg, s, now), s.timeline[0].handle, s.timeline[1..];
    var a := s.tmap[h].algo;
    assert WaitKept(cfg, s, retries, born, h);
    TailTimers(s.timeline);
    NextWait(cfg, a);
    WaitClosed(cfg, born[h].rto, a.rtxCount + 1);
    hide Inv, WaitInv, HasTimer, Insert, Count, Wait, ClosedWait, TimerIs, NextTimeout;
    var algo := Advance(cfg.retransmit, a, now);
    if algo.next.Some? {
      Rearmed(rest, Due(algo.next.value, h));
    }
  }

  /** The client after i timers of one call have fired. */
  function Fired(cfg: Settings, s: State, now: int, i: nat): State {
    if i == 0 then s
    else
      var s1 := Fired(cfg, s, now, i - 1);
      if TimerDue(s1, now) then Fire(cfg, s1, now) else s1
  }

  lemma {:induction false} FiredKeeps(cfg: Settings, s: State, now: int, i: nat, retries: seq<Handle>,
                                      born: map<Handle, Birth>)
    requires Inv(s) && WaitInv(cfg, s, retries, born)
    ensures Inv(Fired(cfg, s, now, i)) && WaitInv(cfg, Fired(cfg, s, now, i), retries, born)
  {
    hide Inv, WaitInv, Fire;
    if i > 0 {
      FiredKeeps(cfg, s, now, i - 1, retries, born);
      var s1 := Fired(cfg, s, now, i - 1);
      if TimerDue(s1, now) {
        FireInv(cfg, s1, now);
        FireWait(cfg, s1, now, retries, born);
      }
    }
  }

  /** A call fires timers one after another, some number of them, until none is due. */
  lemma {:induction false} DrainIsFired(cfg: Settings, s: State, now: int) returns (n: nat)
    ensures Drain(cfg, s, now) == Fired(cfg, s, now, n) && !TimerDue(Drain(cfg, s, now), now)
    ensures forall i :: 0 <= i < n ==> TimerDue(Fired(cfg, s, now, i), now)
    decreases Work(cfg, s.tmap, s.timeline, now)
  {
    if TimerDue(s, now) {
      FireSpends(cfg, s, now);
      hide Fire, Work;
      var m := DrainIsFired(cfg, Fire(cfg, s, now), now);
      n := m + 1;
      FiredFrom(cfg, s, now, m);
      hide TimerDue;
      forall i | 0 <= i < n ensures TimerDue(Fired(cfg, s, now, i), now) {
        if i > 0 {
          FiredFrom(cfg, s, now, i - 1);
        }
      }
    } else {
      n := 0;
    }
  }

  lemma {:induction false} FiredFrom(cfg: Settings, s: State, now: int, i: nat)
    requires TimerDue(s, now)
    ensures Fired(cfg, Fire(cfg, s, now), now, i) == Fired(cfg, s, now, i + 1)
  {
    hide Fire, TimerDue;
    if i > 0 {
      FiredFrom(cfg, s, now, i - 1);
    } else {
      assert Fired(cfg, s, now, 0) == s;
    }
  }

  ghost predicate FiringExact(cfg: Settings, s0: State, now: int, i: nat, retries: seq<Handle>,
                              born: map<Handle, Birth>)
  {
    var s := Fired(cfg, s0, now, i);
    TimerDue(s, now) && s.timeline[0].handle in s.tmap ==>
      FiresExactly(cfg, s, now, retries, born, s.timeline[0].handle, Fired(cfg, s0, now, i + 1))
  }

  lemma FiringsExact(cfg: Settings, s0: State, now: int, i: nat, retries: seq<Handle>, born: map<Handle, Birth>)
    requires Inv(s0) && WaitInv(cfg, s0, retries, born)
    ensures FiringExact(cfg, s0, now, i, retries, born)
  {
    hide Inv, WaitInv, FiresExactly, Fire;
    FiredKeeps(cfg, s0, now, i, retries, born);
    var s := Fired(cfg, s0, now, i);
    if TimerDue(s, now) && s.timeline[0].handle in s.tmap {
      FireExact(cfg, s, now, retries, born);
    }
  }

  /** In every run, whatever was answered and whenever the client is called, every timer that fires
      does exactly that: each rearming sets the deadline to the time of the call plus the closed
      form, and a transaction times out exactly when it has been rearmed Rc - 1 times and once more
      for every 5xx response accepted. */
  lemma TimerExact(cfg: Settings, ops: seq<Op>, now: int, i: nat)
    ensures
      var w := Run(cfg, ops);
      FiringExact(cfg, w.s, now, i, w.retries, w.born)
  {
    RunInv(cfg, ops);
    RunWait(cfg, ops);
    hide Run, Inv, WaitInv, FiringExact;
    var w := Run(cfg, ops);
    FiringsExact(cfg, w.s, now, i, w.retries, w.born);
  }
}
