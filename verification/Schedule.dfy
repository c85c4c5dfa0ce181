/** When requests go out (section 6.2.1 of RFC 8489): in every run that honours its sleeps
    exactly, however many transactions run side by side and whatever responses the others get. */
module Schedule {
  import opened Bytes
  import Sequences
  import opened Header
  import opened Rto
  import opened Retransmit
  import opened Client
  import opened ClientInvariant
  import opened ClientRuns
  import opened Effort

  function Pow2(k: nat): nat {
    if k == 0 then 1 else 2 * Pow2(k - 1)
  }

  /** At least one request, no negative initial timeout. */
  predicate Standard(cfg: Settings) {
    cfg.retransmit.requestCount >= 1 && cfg.rto.initialRto >= 0
  }

  /** The configured maximum works as a floor. */
  function Floored(cfg: Settings, wait: int): int {
    if cfg.retransmit.maxRto.Some? && cfg.retransmit.maxRto.value > wait then cfg.retransmit.maxRto.value else wait
  }

  /** The time between requests k and k + 1, or between the last request and the timeout. The first
      wait is the plain timeout: neither the multiplier nor the maximum is ever applied to it. */
  function Wait(cfg: Settings, rto: int, k: nat): int {
    if k == 0 then rto
    else Floored(cfg, if k + 1 == cfg.retransmit.requestCount then rto * cfg.retransmit.multiplier
      else 2 * Wait(cfg, rto, k - 1))
  }

  lemma {:induction false} WaitNonNegative(cfg: Settings, rto: int, k: nat)
    requires rto >= 0
    ensures Wait(cfg, rto, k) >= 0
  {
    if k > 0 {
      WaitNonNegative(cfg, rto, k - 1);
      assert rto * cfg.retransmit.multiplier >= 0;
    }
  }

  /** When request k is sent: after all waits before it. */
  function SendTime(cfg: Settings, b: Birth, k: nat): int {
    if k == 0 then b.time else SendTime(cfg, b, k - 1) + Wait(cfg, b.rto, k - 1)
  }

  /** When the timer set with request k fires. */
  function Deadline(cfg: Settings, b: Birth, k: nat): int {
    SendTime(cfg, b, k) + Wait(cfg, b.rto, k)
  }

  function TimeoutTime(cfg: Settings, b: Birth): int
    requires cfg.retransmit.requestCount >= 1
  {
    Deadline(cfg, b, cfg.retransmit.requestCount - 1)
  }

  lemma NextDeadline(cfg: Settings, b: Birth, k: nat)
    ensures Deadline(cfg, b, k) == SendTime(cfg, b, k + 1)
  {
  }

  /** The times at which a transaction's requests appear. */
  function SendTimes(stamps: seq<Stamped>, h: Handle): seq<int> {
    if stamps == [] then []
    else
      var st := stamps[|stamps| - 1];
      SendTimes(stamps[..|stamps| - 1], h) + if st.effect.SendData? && st.effect.handle == h then [st.time] else []
  }

  lemma SendTimesAppend(stamps: seq<Stamped>, st: Stamped, h: Handle)
    ensures
      SendTimes(stamps + [st], h)
      == SendTimes(stamps, h) + if st.effect.SendData? && st.effect.handle == h then [st.time] else []
  {
    assert (stamps + [st])[..|stamps|] == stamps;
  }

  ghost predicate SentOnTime(cfg: Settings, b: Birth, times: seq<int>) {
    forall k :: 0 <= k < |times| ==> times[k] == SendTime(cfg, b, k)
  }

  // ---- What each transaction keeps to ----

  /** A live transaction without accepted 5xx responses is where the schedule says. */
  ghost predicate OnSchedule(cfg: Settings, s: State, stamps: seq<Stamped>, b: Birth, h: Handle)
    requires h in s.tmap
  {
    var a, n := s.tmap[h].algo, |SendTimes(stamps, h)|;
    && a.initialRto == b.rto && a.n5xx == 0
    && a.rtxCount + 1 == n <= cfg.retransmit.requestCount
    && a.lastTimeout == Wait(cfg, b.rto, a.rtxCount)
    && forall i :: 0 <= i < |s.timeline| && s.timeline[i].handle == h ==>
         a.next == Some(s.timeline[i].time) && s.timeline[i].time == Deadline(cfg, b, a.rtxCount)
  }

  ghost predicate TimeoutOnTime(cfg: Settings, stamps: seq<Stamped>, b: Birth, h: Handle)
    requires cfg.retransmit.requestCount >= 1
  {
    forall i :: 0 <= i < |stamps| && stamps[i].effect == TransactionFailed(h, TimedOut) ==>
      stamps[i].time == TimeoutTime(cfg, b) && |SendTimes(stamps, h)| == cfg.retransmit.requestCount
  }

  ghost predicate Punctual(cfg: Settings, s: State, stamps: seq<Stamped>, retries: seq<Handle>,
                           born: map<Handle, Birth>, h: Handle)
    requires cfg.retransmit.requestCount >= 1
  {
    h in born && Count(retries, h) == 0 ==>
      && SentOnTime(cfg, born[h], SendTimes(stamps, h))
      && |SendTimes(stamps, h)| <= cfg.retransmit.requestCount
      && TimeoutOnTime(cfg, stamps, born[h], h)
      && (h in s.tmap ==> OnSchedule(cfg, s, stamps, born[h], h))
  }

  ghost predicate AllPunctual(cfg: Settings, s: State, stamps: seq<Stamped>, retries: seq<Handle>,
                              born: map<Handle, Birth>)
    requires cfg.retransmit.requestCount >= 1
  {
    forall h :: Punctual(cfg, s, stamps, retries, born, h)
  }

  /** No timer lies in the past; no timeout is negative; no transaction was created later. */
  ghost predicate Calm(s: State, clock: int) {
    && (forall i :: 0 <= i < |s.timeline| ==> s.timeline[i].time >= clock)
    && (forall h :: h in s.tmap ==>
          s.tmap[h].createTime <= clock && s.tmap[h].algo.initialRto >= 0 && s.tmap[h].algo.lastTimeout >= 0)
    && (forall p :: p in s.rto.byPath ==> NonNegative(s.rto.byPath[p]))
  }

  predicate NonNegative(e: Entry) {
    && (e.smooth.Some? ==> e.smooth.value.srtt >= 0 && e.smooth.value.rttvar >= 0)
    && (e.backoff.Some? ==> e.backoff.value >= 0)
  }

  lemma OtherPunctual(cfg: Settings, s: State, s': State, stamps: seq<Stamped>, st: Stamped, retries: seq<Handle>,
                      born: map<Handle, Birth>, g: Handle)
    requires cfg.retransmit.requestCount >= 1
    requires Proper(st.effect) && st.effect.handle != g
    requires g in s'.tmap ==> g in s.tmap && s'.tmap[g].algo == s.tmap[g].algo && SameTimers(s, s', g)
    requires Punctual(cfg, s, stamps, retries, born, g)
    ensures Punctual(cfg, s', stamps + [st], retries, born, g)
  {
    SendTimesAppend(stamps, st, g);
    hide SendTimes, Wait, Deadline, SentOnTime, TimeoutTime;
    assert SendTimes(stamps + [st], g) == SendTimes(stamps, g) + [] == SendTimes(stamps, g);
    if g in born && Count(retries, g) == 0 && g in s'.tmap {
      forall i | 0 <= i < |s'.timeline| && s'.timeline[i].handle == g
        ensures s.tmap[g].algo.next == Some(s'.timeline[i].time)
          && s'.timeline[i].time == Deadline(cfg, born[g], s.tmap[g].algo.rtxCount)
      {
        var d := s'.timeline[i];
        var j :| 0 <= j < |s.timeline| && s.timeline[j] == d;
      }
    }
  }

  lemma SamePunctual(cfg: Settings, s: State, s': State, stamps: seq<Stamped>, retries: seq<Handle>,
                     born: map<Handle, Birth>, g: Handle)
    requires cfg.retransmit.requestCount >= 1
    requires g in s'.tmap ==> g in s.tmap && s'.tmap[g].algo == s.tmap[g].algo && SameTimers(s, s', g)
    requires Punctual(cfg, s, stamps, retries, born, g)
    ensures Punctual(cfg, s', stamps, retries, born, g)
  {
    hide SendTimes, Wait, Deadline, SentOnTime, TimeoutTime, TimeoutOnTime;
    if g in born && Count(retries, g) == 0 && g in s'.tmap {
      forall i | 0 <= i < |s'.timeline| && s'.timeline[i].handle == g
        ensures s.tmap[g].algo.next == Some(s'.timeline[i].time)
          && s'.timeline[i].time == Deadline(cfg, born[g], s.tmap[g].algo.rtxCount)
      {
        var d := s'.timeline[i];
        var j :| 0 <= j < |s.timeline| && s.timeline[j] == d;
      }
    }
  }

  // ---- A timer fires ----

  /** The fired transaction moves on by one request, or times out, exactly on time. */
  lemma FiredPunctual(cfg: Settings, s: State, now: int, stamps: seq<Stamped>, retries: seq<Handle>,
                      born: map<Handle, Birth>)
    requires Standard(cfg) && Inv(s) && Calm(s, now) && TimerDue(s, now) && s.timeline[0].handle in s.tmap
    requires Punctual(cfg, s, stamps, retries, born, s.timeline[0].handle)
    requires forall i :: 0 <= i < |stamps| ==> Proper(stamps[i].effect)
    requires forall i :: 0 <= i < |stamps| ==> stamps[i].effect != TransactionFailed(s.timeline[0].handle, TimedOut)
    ensures
      var s' := Fire(cfg, s, now);
      Punctual(cfg, s', stamps + [Stamped(now, s'.effects[|s.effects|])], retries, born, s.timeline[0].handle)
  {
    var s', d0, rest := Fire(cfg, s, now), s.timeline[0], s.timeline[1..];
    var h := d0.handle;
    var st := Stamped(now, s'.effects[|s.effects|]);
    if h in born && Count(retries, h) == 0 {
      var b, a := born[h], s.tmap[h].algo;
      var k := a.rtxCount;
      assert d0.time == now && a.next == Some(now) && now == Deadline(cfg, b, k);
      SendTimesAppend(stamps, st, h);
      TailTimers(s.timeline);
      hide Inv, SendTimes;
      if Exhausted(cfg.retransmit, a) {
        assert k + 1 == cfg.retransmit.requestCount;
        assert forall i :: 0 <= i < |s'.timeline| ==> s'.timeline[i].handle != h;
        assert SendTimes(stamps + [st], h) == SendTimes(stamps, h);
      } else {
        NextDeadline(cfg, b, k);
        var d := Due(now + NextTimeout(cfg.retransmit, a), h);
        assert NextTimeout(cfg.retransmit, a) == Wait(cfg, b.rto, k + 1);
        assert d.time == Deadline(cfg, b, k + 1);
        RearmedTimers(rest, d);
        assert s'.timeline == Insert(rest, d);
        hide Insert, Wait, Deadline, SendTime, NextTimeout;
        assert st.effect.SendData? && SendTimes(stamps + [st], h) == SendTimes(stamps, h) + [now];
      }
    }
  }

  lemma RearmedTimers(rest: seq<Due>, d: Due)
    requires !HasTimer(rest, d.handle)
    ensures forall i :: 0 <= i < |Insert(rest, d)| && Insert(rest, d)[i].handle == d.handle ==> Insert(rest, d)[i] == d
  {
    InsertMembers(rest, d);
    hide Insert;
    var r := Insert(rest, d);
    forall i | 0 <= i < |r| && r[i].handle == d.handle ensures r[i] == d {
      assert r[i] in r;
      assert forall j :: 0 <= j < |rest| ==> rest[j].handle != d.handle;
    }
  }

  lemma FireCalm(cfg: Settings, s: State, now: int)
    requires Standard(cfg) && Calm(s, now) && TimerDue(s, now)
    ensures Calm(Fire(cfg, s, now), now)
  {
    var s', h, rest := Fire(cfg, s, now), s.timeline[0].handle, s.timeline[1..];
    if h in s.tmap {
      var a := s.tmap[h].algo;
      var algo := Advance(cfg.retransmit, a, now);
      assert algo.lastTimeout >= 0 by {
        assert a.initialRto * cfg.retransmit.multiplier >= 0;
      }
      if algo.next.Some? {
        assert algo.next.value >= now;
        var d := Due(algo.next.value, h);
        var k := InsertAt(rest, d);
        hide Insert, Advance;
        assert s'.timeline == rest[..k] + [d] + rest[k..];
      }
    }
  }

  /** Everything handed out or queued, with its time: what is queued now would be handed out now. */
  function Stamps(w: World, now: int): seq<Stamped> {
    w.log + StampAll(w.s.effects, now)
  }

  function StampAll(es: seq<Effect>, now: int): (r: seq<Stamped>)
    ensures |r| == |es| && forall i :: 0 <= i < |es| ==> r[i] == Stamped(now, es[i])
  {
    seq(|es|, i requires 0 <= i < |es| => Stamped(now, es[i]))
  }

  /** A queued or delivered timeout belongs to a transaction without timer, and the other way
      round for the live ones. */
  ghost predicate TimeoutsTold(s: State, stamps: seq<Stamped>) {
    && (forall i :: 0 <= i < |stamps| ==> Proper(stamps[i].effect) && stamps[i].effect.handle < s.nextHandle)
    && forall h :: h in s.tmap && HasTimer(s.timeline, h) ==>
         forall i :: 0 <= i < |stamps| ==> stamps[i].effect != TransactionFailed(h, TimedOut)
  }

  lemma FirePunctual(cfg: Settings, s: State, now: int, stamps: seq<Stamped>, retries: seq<Handle>,
                     born: map<Handle, Birth>)
    requires Standard(cfg) && Inv(s) && Calm(s, now) && TimerDue(s, now)
    requires AllPunctual(cfg, s, stamps, retries, born) && TimeoutsTold(s, stamps)
    ensures
      var s' := Fire(cfg, s, now);
      var stamps' := stamps + StampAll(s'.effects[|s.effects|..], now);
      AllPunctual(cfg, s', stamps', retries, born) && TimeoutsTold(s', stamps')
  {
    var s', h := Fire(cfg, s, now), s.timeline[0].handle;
    FireAdds(cfg, s, now);
    FireToldTimers(cfg, s, now);
    KnownTimers(s);
    if h !in s.tmap {
      assert stamps + StampAll(s'.effects[|s.effects|..], now) == stamps;
      hide Inv, Fire, Punctual, SameTimers, HasTimer;
      forall g ensures Punctual(cfg, s', stamps, retries, born, g) {
        if g in s'.tmap { FireTimers(cfg, s, now, g); }
        SamePunctual(cfg, s, s', stamps, retries, born, g);
      }
    } else {
      var st := Stamped(now, s'.effects[|s.effects|]);
      assert StampAll(s'.effects[|s.effects|..], now) == [st];
      assert HasTimer(s.timeline, h) by { assert s.timeline[0].handle == h; }
      FiredPunctual(cfg, s, now, stamps, retries, born);
      assert st.effect == TransactionFailed(h, TimedOut) ==> !HasTimer(s'.timeline, h) by {
        if st.effect == TransactionFailed(h, TimedOut) { TailTimers(s.timeline); }
      }
      hide Inv, Fire, Punctual, SameTimers, HasTimer;
      forall g | g != h ensures Punctual(cfg, s', stamps + [st], retries, born, g) {
        if g in s'.tmap {
          FireTimers(cfg, s, now, g);
          FireOthers(cfg, s, now, g);
        }
        OtherPunctual(cfg, s, s', stamps, st, retries, born, g);
      }
    }
  }

  lemma FireToldTimers(cfg: Settings, s: State, now: int)
    requires Inv(s) && TimerDue(s, now)
    ensures forall g :: HasTimer(Fire(cfg, s, now).timeline, g) ==> HasTimer(s.timeline, g)
  {
    hide Advance, Insert;
    var h, rest := s.timeline[0].handle, s.timeline[1..];
    TailTimers(s.timeline);
    if h in s.tmap {
      var algo := Advance(cfg.retransmit, s.tmap[h].algo, now);
      if algo.next.Some? {
        InsertTimers(rest, Due(algo.next.value, h));
      }
    }
  }

  lemma {:induction false} DrainPunctual(cfg: Settings, s: State, now: int, stamps: seq<Stamped>,
                                         retries: seq<Handle>, born: map<Handle, Birth>)
    requires Standard(cfg) && Inv(s) && Calm(s, now)
    requires AllPunctual(cfg, s, stamps, retries, born) && TimeoutsTold(s, stamps)
    ensures s.effects <= Drain(cfg, s, now).effects
    ensures
      var s' := Drain(cfg, s, now);
      var stamps' := stamps + StampAll(s'.effects[|s.effects|..], now);
      Calm(s', now) && AllPunctual(cfg, s', stamps', retries, born) && TimeoutsTold(s', stamps')
    decreases Work(cfg, s.tmap, s.timeline, now)
  {
    hide Inv, Fire, Work, AllPunctual, Calm, TimeoutsTold;
    DrainKeeps(cfg, s, now);
    if TimerDue(s, now) {
      FireSpends(cfg, s, now);
      FireInv(cfg, s, now);
      FireCalm(cfg, s, now);
      FirePunctual(cfg, s, now, stamps, retries, born);
      FireAdds(cfg, s, now);
      var s1 := Fire(cfg, s, now);
      DrainPunctual(cfg, s1, now, stamps + StampAll(s1.effects[|s.effects|..], now), retries, born);
      var s' := Drain(cfg, s1, now);
      assert stamps + StampAll(s1.effects[|s.effects|..], now) + StampAll(s'.effects[|s1.effects|..], now)
          == stamps + StampAll(s'.effects[|s.effects|..], now);
    } else {
      assert stamps + StampAll(s.effects[|s.effects|..], now) == stamps;
    }
  }

  // ---- Runs that honour their sleeps ----

  /** Time does not go back, and only moves on when nothing is queued, and never beyond the first
      timer: what a caller does who drains the client and sleeps no longer than told. */
  predicate Eager(w: World, op: Op) {
    && op.now >= w.clock
    && (op.now > w.clock ==> w.s.effects == [] && (w.s.timeline != [] ==> w.s.timeline[0].time >= op.now))
  }

  ghost predicate AllEager(cfg: Settings, ops: seq<Op>) {
    forall k :: 0 <= k < |ops| ==> Eager(Run(cfg, ops[..k]), ops[k])
  }

  ghost predicate BornKnown(w: World) {
    && (forall h :: h in w.s.tmap ==> h in w.born)
    && (forall h :: h in w.born ==> h < w.s.nextHandle)
  }

  ghost predicate ScheduleInv(cfg: Settings, w: World, now: int)
    requires cfg.retransmit.requestCount >= 1
  {
    && BornKnown(w)
    && Calm(w.s, now)
    && AllPunctual(cfg, w.s, Stamps(w, now), w.retries, w.born)
    && TimeoutsTold(w.s, Stamps(w, now))
  }

  lemma TimePasses(cfg: Settings, w: World, op: Op)
    requires Standard(cfg) && WorldInv(w) && ScheduleInv(cfg, w, w.clock) && Eager(w, op)
    ensures ScheduleInv(cfg, w, op.now)
  {
    hide AllPunctual, TimeoutsTold;
    if op.now > w.clock {
      assert Stamps(w, op.now) == Stamps(w, w.clock);
      assert Calm(w.s, op.now);
    }
  }

  // create

  lemma {:induction false} NoSendsAhead(stamps: seq<Stamped>, n: Handle)
    requires forall i :: 0 <= i < |stamps| ==> Proper(stamps[i].effect) && stamps[i].effect.handle < n
    ensures SendTimes(stamps, n) == []
  {
    if stamps != [] {
      NoSendsAhead(stamps[..|stamps| - 1], n);
    }
  }

  lemma TimeoutNonNegative(cfg: RtoSettings, st: RtoState, p: Path)
    requires cfg.initialRto >= 0 && forall q :: q in st.byPath ==> NonNegative(st.byPath[q])
    ensures Timeout(cfg, st, p) >= 0
  {
  }

  lemma NewbornPunctual(cfg: Settings, s: State, now: int, tid: TransactionId, data: Bytes, path: Path,
                        auth: Maybe<Auth>,
                        stamps: seq<Stamped>, retries: seq<Handle>, born: map<Handle, Birth>)
    requires Standard(cfg) && Inv(s) && TimeoutsTold(s, stamps)
    ensures
      var s', n := StartTransaction(cfg, s, now, tid, data, path, auth), s.nextHandle;
      Punctual(cfg, s', stamps + [Stamped(now, SendData(n, data))], retries,
               born[n := Birth(now, Timeout(cfg.rto, s.rto, path))], n)
  {
    var s', n := StartTransaction(cfg, s, now, tid, data, path, auth), s.nextHandle;
    var rto := Timeout(cfg.rto, s.rto, path);
    var b, st, d := Birth(now, rto), Stamped(now, SendData(n, data)), Due(now + rto, n);
    KnownHandlesOnly(s);
    NoTimerAhead(s.timeline, n);
    NoSendsAhead(stamps, n);
    SendTimesAppend(stamps, st, n);
    RearmedTimers(s.timeline, d);
    hide Inv, Timeout, Insert, SendTimes;
    assert SendTimes(stamps + [st], n) == [now];
    assert s'.timeline == Insert(s.timeline, d);
    hide Punctual;
    NewbornOnTime(cfg, s', stamps + [st], retries, born[n := b], n, d);
  }

  lemma NewbornOnTime(cfg: Settings, s: State, stamps: seq<Stamped>, retries: seq<Handle>, born: map<Handle, Birth>,
                      n: Handle, d: Due)
    requires cfg.retransmit.requestCount >= 1 && n in born && n in s.tmap && SendTimes(stamps, n) == [born[n].time]
    requires d.time == born[n].time + born[n].rto
      && s.tmap[n].algo == Algo(born[n].rto, Some(d.time), born[n].rto, 0, 0)
    requires forall i :: 0 <= i < |s.timeline| && s.timeline[i].handle == n ==> s.timeline[i] == d
    requires forall i :: 0 <= i < |stamps| ==> stamps[i].effect != TransactionFailed(n, TimedOut)
    ensures Punctual(cfg, s, stamps, retries, born, n)
  {
    hide SendTimes, Count;
    var b := born[n];
    assert SendTime(cfg, b, 0) == b.time && Wait(cfg, b.rto, 0) == b.rto && Deadline(cfg, b, 0) == d.time;
  }

  lemma StartCalm(cfg: Settings, s: State, now: int, tid: TransactionId, data: Bytes, path: Path, auth: Maybe<Auth>)
    requires Standard(cfg) && Inv(s) && Calm(s, now)
    ensures Calm(StartTransaction(cfg, s, now, tid, data, path, auth), now)
  {
    hide Inv, Insert, Timeout, NonNegative, AllocateHandle;
    var s' := StartTransaction(cfg, s, now, tid, data, path, auth);
    var d := Due(now + Timeout(cfg.rto, s.rto, path), s.nextHandle);
    TimeoutNonNegative(cfg.rto, s.rto, path);
    KnownHandlesOnly(s);
    var k := InsertAt(s.timeline, d);
    assert s'.timeline == s.timeline[..k] + [d] + s.timeline[k..];
  }

  lemma StartTold(cfg: Settings, s: State, now: int, tid: TransactionId, data: Bytes, path: Path, auth: Maybe<Auth>,
                  stamps: seq<Stamped>)
    requires Inv(s) && TimeoutsTold(s, stamps)
    ensures
      TimeoutsTold(StartTransaction(cfg, s, now, tid, data, path, auth),
        stamps + [Stamped(now, SendData(s.nextHandle, data))])
  {
    hide Inv, Insert, Timeout, HasTimer, AllocateHandle;
    var s', n := StartTransaction(cfg, s, now, tid, data, path, auth), s.nextHandle;
    var d := Due(now + Timeout(cfg.rto, s.rto, path), n);
    KnownHandlesOnly(s);
    InsertTimers(s.timeline, d);
    assert s'.timeline == Insert(s.timeline, d);
  }

  lemma CreateSchedule(cfg: Settings, w: World, op: Op)
    requires Standard(cfg) && WorldInv(w) && ScheduleInv(cfg, w, op.now) && op.Create? && op.tid !in w.s.tidToHandle
    ensures ScheduleInv(cfg, Step(cfg, w, op), op.now)
  {
    assert Inv(w.s);
    KnownHandlesOnly(w.s);
    hide Inv, ScheduleInv, WorldInv, StartTransaction, Timeout;
    StartSchedule(cfg, w, op.now, op.tid, op.data, op.path, op.auth);
  }

  lemma StartSchedule(cfg: Settings, w: World, now: int, tid: TransactionId, data: Bytes, path: Path, auth: Maybe<Auth>)
    requires Standard(cfg) && Inv(w.s) && ScheduleInv(cfg, w, now)
    ensures
      var s' := StartTransaction(cfg, w.s, now, tid, data, path, auth);
      var born' := w.born[w.s.nextHandle := Birth(now, Timeout(cfg.rto, w.s.rto, path))];
      ScheduleInv(cfg, w.(s := s', born := born', clock := now), now)
  {
    var s, n, stamps := w.s, w.s.nextHandle, Stamps(w, now);
    var s' := StartTransaction(cfg, s, now, tid, data, path, auth);
    var w' := w.(s := s', born := w.born[n := Birth(now, Timeout(cfg.rto, s.rto, path))], clock := now);
    var st := Stamped(now, SendData(n, data));
    KnownHandlesOnly(s);
    StartCalm(cfg, s, now, tid, data, path, auth);
    StartTold(cfg, s, now, tid, data, path, auth, stamps);
    NewbornPunctual(cfg, s, now, tid, data, path, auth, stamps, w.retries, w.born);
    StartTimers(cfg, s, now, tid, data, path, auth);
    hide Inv, Timeout, Insert, Calm, TimeoutsTold, Punctual, SameTimers;
    assert Stamps(w', now) == stamps + [st];
    OthersBorn(cfg, s, s', stamps, st, w.retries, w.born, w'.born, n);
  }

  lemma OthersBorn(cfg: Settings, s: State, s': State, stamps: seq<Stamped>, st: Stamped, retries: seq<Handle>,
                   born: map<Handle, Birth>, born': map<Handle, Birth>, n: Handle)
    requires cfg.retransmit.requestCount >= 1 && Proper(st.effect) && st.effect.handle == n
    requires forall g ::
      g != n && g in s'.tmap ==> g in s.tmap && s'.tmap[g].algo == s.tmap[g].algo && SameTimers(s, s', g)
    requires forall g :: g != n ==> (g in born <==> g in born') && (g in born ==> born[g] == born'[g])
    requires AllPunctual(cfg, s, stamps, retries, born)
    ensures forall g :: g != n ==> Punctual(cfg, s', stamps + [st], retries, born', g)
  {
    hide Punctual, SameTimers, Stale;
    forall g | g != n ensures Punctual(cfg, s', stamps + [st], retries, born', g) {
      OtherPunctual(cfg, s, s', stamps, st, retries, born, g);
      BornElsewhere(cfg, s', stamps + [st], retries, born, born', g);
    }
  }

  lemma BornElsewhere(cfg: Settings, s: State, stamps: seq<Stamped>, retries: seq<Handle>, born: map<Handle, Birth>,
                      born': map<Handle, Birth>, g: Handle)
    requires cfg.retransmit.requestCount >= 1
    requires (g in born <==> g in born') && (g in born ==> born[g] == born'[g])
    requires Punctual(cfg, s, stamps, retries, born, g)
    ensures Punctual(cfg, s, stamps, retries, born', g)
  {
    hide SentOnTime, SendTimes, TimeoutOnTime, OnSchedule;
  }

  // response

  lemma {:induction false} ClearKeeps(cfg: RtoSettings, st: RtoState, now: int)
    ensures forall p :: p in ClearOutdated(cfg, st, now).byPath ==>
      p in st.byPath && ClearOutdated(cfg, st, now).byPath[p] == st.byPath[p]
    decreases |st.timeline|
  {
    if st.timeline != [] && st.timeline[0] in st.byPath && Outdated(cfg, st.byPath[st.timeline[0]], now) {
      ClearKeeps(cfg, RtoState(st.byPath - {st.timeline[0]}, st.timeline[1..]), now);
    }
  }

  lemma LearnNonNegative(cfg: Settings, st: RtoState, t: Transaction, now: int)
    requires forall p :: p in st.byPath ==> NonNegative(st.byPath[p])
    requires t.createTime <= now && t.algo.lastTimeout >= 0
    ensures forall p :: p in Learn(cfg, st, t, now).byPath ==> NonNegative(Learn(cfg, st, t, now).byPath[p])
  {
    var st1 := Touch(st, now, t.path);
    ClearKeeps(cfg.rto, st1, now);
    ClearKeeps(cfg.rto,
      st1.(byPath := st1.byPath[t.path := st1.byPath[t.path].(backoff := Some(t.algo.lastTimeout))]), now);
    hide ClearOutdated, Sequences.Without;
  }

  lemma FinishPunctual(cfg: Settings, s: State, s': State, now: int, e: Effect, stamps: seq<Stamped>,
                       retries: seq<Handle>,
                       born: map<Handle, Birth>)
    requires cfg.retransmit.requestCount >= 1
    requires Terminal(e) && e.handle < s.nextHandle && e != TransactionFailed(e.handle, TimedOut)
    requires s'.tmap == s.tmap && s'.timeline == s.timeline && s'.nextHandle == s.nextHandle
    requires AllPunctual(cfg, s, stamps, retries, born) && TimeoutsTold(s, stamps)
    ensures AllPunctual(cfg, s', stamps + [Stamped(now, e)], retries, born)
      && TimeoutsTold(s', stamps + [Stamped(now, e)])
  {
    var st := Stamped(now, e);
    forall g ensures Punctual(cfg, s', stamps + [st], retries, born, g) {
      assert Punctual(cfg, s, stamps, retries, born, g);
      SendTimesAppend(stamps, st, g);
      hide SendTimes, SentOnTime, Wait, Deadline, TimeoutTime;
      assert SendTimes(stamps + [st], g) == SendTimes(stamps, g);
    }
  }

  lemma RetryPunctual(cfg: Settings, s: State, h: Handle, algo: Algo, stamps: seq<Stamped>, retries: seq<Handle>,
                      born: map<Handle, Birth>)
    requires cfg.retransmit.requestCount >= 1 && h in s.tmap
    requires AllPunctual(cfg, s, stamps, retries, born) && TimeoutsTold(s, stamps)
    ensures
      var s' := s.(tmap := s.tmap[h := s.tmap[h].(algo := algo)]);
      AllPunctual(cfg, s', stamps, retries + [h], born) && TimeoutsTold(s', stamps)
  {
    var s' := s.(tmap := s.tmap[h := s.tmap[h].(algo := algo)]);
    forall g ensures Punctual(cfg, s', stamps, retries + [h], born, g) {
      CountAppend(retries, h, g);
      if g != h {
        SamePunctual(cfg, s, s', stamps, retries, born, g);
        hide SendTimes, SentOnTime, OnSchedule, TimeoutOnTime, Count;
      }
    }
    hide HasTimer;
  }

  lemma ReceiveSchedule(cfg: Settings, w: World, op: Op)
    requires Standard(cfg) && WorldInv(w) && ScheduleInv(cfg, w, op.now) && op.Receive?
    ensures ScheduleInv(cfg, Step(cfg, w, op), op.now)
  {
    hide Accept, OutcomeOf, Learn, AllPunctual, TimeoutsTold, Process5xx;
    var s, w', stamps := w.s, Step(cfg, w, op), Stamps(w, op.now);
    var v := Verdict(cfg, s, op);
    if v.Some? {
      var h := v.value.0;
      KnownHandlesOnly(s);
      OwnHandle(s, h);
      hide Inv;
      match v.value.1 {
        case Finish(e, learns) =>
          LearnNonNegative(cfg, s.rto, s.tmap[h], op.now);
          FinishPunctual(cfg, s, w'.s, op.now, e, stamps, w.retries, w.born);
          assert Stamps(w', op.now) == stamps + [Stamped(op.now, e)] && w.retries + [] == w.retries;
        case Retry(algo) =>
          RetryPunctual(cfg, s, h, algo, stamps, w.retries, w.born);
          KeepsTimeouts(cfg.retransmit, s.tmap[h].algo, op.now);
        case Discard => assert w.retries + [] == w.retries;
      }
    } else {
      assert w.retries + [] == w.retries;
    }
  }

  lemma KeepsTimeouts(cfg: RetransmitSettings, a: Algo, now: int)
    ensures
      var r := Process5xx(cfg, a, now);
      r.Some? ==> r.value.initialRto == a.initialRto && r.value.lastTimeout == a.lastTimeout
  {
  }

  // next

  lemma PopPunctual(cfg: Settings, s: State, now: int, stamps: seq<Stamped>, retries: seq<Handle>,
                    born: map<Handle, Birth>)
    requires cfg.retransmit.requestCount >= 1 && s.effects != [] && Calm(s, now)
    requires AllPunctual(cfg, s, stamps, retries, born) && TimeoutsTold(s, stamps)
    ensures Calm(Pop(s), now) && AllPunctual(cfg, Pop(s), stamps, retries, born) && TimeoutsTold(Pop(s), stamps)
  {
    var s' := Pop(s);
    assert s'.timeline == s.timeline && s'.rto == s.rto && s'.nextHandle == s.nextHandle;
    assert forall h :: h in s'.tmap ==> h in s.tmap && s'.tmap[h] == s.tmap[h];
    forall g ensures Punctual(cfg, s', stamps, retries, born, g) {
      SamePunctual(cfg, s, s', stamps, retries, born, g);
    }
    hide HasTimer;
  }

  lemma PollSchedule(cfg: Settings, w: World, now: int)
    requires Standard(cfg) && WorldInv(w) && ScheduleInv(cfg, w, now)
    ensures ScheduleInv(cfg, Step(cfg, w, Poll(now)), now)
  {
    assert Inv(w.s);
    hide Inv, WorldInv, ScheduleInv, Next;
    NextSchedule(cfg, w, now, Step(cfg, w, Poll(now)).pending);
  }

  lemma NextSchedule(cfg: Settings, w: World, now: int, pending: Maybe<int>)
    requires Standard(cfg) && Inv(w.s) && ScheduleInv(cfg, w, now)
    ensures
      var (s', e) := Next(cfg, w.s, now);
      var log' := w.log + (if Proper(e) then [Stamped(now, e)] else []);
      ScheduleInv(cfg, w.(s := s', log := log', clock := now, pending := pending), now)
  {
    hide Inv, Drain, AllPunctual, TimeoutsTold, Calm, Pop;
    var s1, stamps := Drain(cfg, w.s, now), Stamps(w, now);
    DrainInv(cfg, w.s, now);
    DrainKeeps(cfg, w.s, now);
    EffectsProper(s1);
    DrainPunctual(cfg, w.s, now, stamps, w.retries, w.born);
    var stamps1 := w.log + StampAll(s1.effects, now);
    assert stamps + StampAll(s1.effects[|w.s.effects|..], now) == stamps1;
    if s1.effects != [] {
      PopPunctual(cfg, s1, now, stamps1, w.retries, w.born);
      PopKnown(s1);
      PopEffects(s1);
      StampPop(w.log, s1.effects, now);
    } else {
      assert w.log + [] == w.log;
    }
  }

  lemma StampPop(log: seq<Stamped>, effects: seq<Effect>, now: int)
    requires effects != []
    ensures log + [Stamped(now, effects[0])] + StampAll(effects[1..], now) == log + StampAll(effects, now)
  {
  }

  lemma PopEffects(s: State)
    requires s.effects != []
    ensures Pop(s).effects == s.effects[1..]
  {
  }

  lemma {:induction false} RunSchedule(cfg: Settings, ops: seq<Op>)
    requires Standard(cfg) && AllEager(cfg, ops)
    ensures ScheduleInv(cfg, Run(cfg, ops), Run(cfg, ops).clock)
  {
    if ops != [] {
      var n := |ops| - 1;
      var before, op := ops[..n], ops[n];
      assert ops[..n] == before && Eager(Run(cfg, before), op);
      assert forall k :: 0 <= k < n ==> ops[..k] == before[..k] && ops[k] == before[k];
      assert AllEager(cfg, before);
      RunSchedule(cfg, before);
      RunInv(cfg, before);
      var w := Run(cfg, before);
      StepSchedule(cfg, w, op);
    }
  }

  lemma StepSchedule(cfg: Settings, w: World, op: Op)
    requires Standard(cfg) && WorldInv(w) && ScheduleInv(cfg, w, w.clock) && Eager(w, op)
    ensures ScheduleInv(cfg, Step(cfg, w, op), Step(cfg, w, op).clock)
  {
    TimePasses(cfg, w, op);
    hide ScheduleInv, WorldInv;
    match op {
      case Create(_, _, _, _, _) => if op.tid !in w.s.tidToHandle { CreateSchedule(cfg, w, op); }
      case Receive(_, _, _) => ReceiveSchedule(cfg, w, op);
      case Poll(now) => PollSchedule(cfg, w, now);
    }
  }

  ghost predicate FollowsPlan(cfg: Settings, w: World, h: Handle)
    requires cfg.retransmit.requestCount >= 1 && h in w.born
  {
    var rc, b, stamps := cfg.retransmit.requestCount, w.born[h], Stamps(w, w.clock);
    var times := SendTimes(stamps, h);
    && |times| <= rc
    && (forall k :: 0 <= k < |times| ==> times[k] == SendTime(cfg, b, k))
    && (forall i :: 0 <= i < |stamps| && stamps[i].effect == TransactionFailed(h, TimedOut) ==>
          |times| == rc && stamps[i].time == TimeoutTime(cfg, b))
    && (h in w.s.tmap && w.s.effects == [] && !TimerDue(w.s, w.clock) ==>
          0 < |times| && w.clock < if |times| < rc then SendTime(cfg, b, |times|) else TimeoutTime(cfg, b))
  }

  lemma ScheduleOf(cfg: Settings, w: World, h: Handle)
    requires Standard(cfg) && WorldInv(w) && ScheduleInv(cfg, w, w.clock) && h in w.born && Count(w.retries, h) == 0
    ensures FollowsPlan(cfg, w, h)
  {
    var b, stamps := w.born[h], Stamps(w, w.clock);
    var times := SendTimes(stamps, h);
    assert Punctual(cfg, w.s, stamps, w.retries, w.born, h);
    QuietHasTimer(w.s, w.clock, h);
    hide Inv, WorldInv, ScheduleInv, Stamps, SendTimes, SendTime, TimerDue, OnSchedule, Count, TimeoutTime;
    if h in w.s.tmap && w.s.effects == [] && !TimerDue(w.s, w.clock) {
      NothingMissing(cfg, w.s, w.clock, stamps, b, h);
    }
  }

  lemma NothingMissing(cfg: Settings, s: State, now: int, stamps: seq<Stamped>, b: Birth, h: Handle)
    requires cfg.retransmit.requestCount >= 1 && h in s.tmap && OnSchedule(cfg, s, stamps, b, h)
    requires exists i :: 0 <= i < |s.timeline| && s.timeline[i].handle == h && s.timeline[i].time > now
    ensures
      var n := |SendTimes(stamps, h)|;
      0 < n && now < if n < cfg.retransmit.requestCount then SendTime(cfg, b, n) else TimeoutTime(cfg, b)
  {
    hide SendTimes, SendTime, Wait, Deadline;
    NextDeadline(cfg, b, |SendTimes(stamps, h)| - 1);
  }

  lemma QuietHasTimer(s: State, now: int, h: Handle)
    requires Inv(s)
    ensures h in s.tmap && s.effects == [] && !TimerDue(s, now) ==>
      exists i :: 0 <= i < |s.timeline| && s.timeline[i].handle == h && s.timeline[i].time > now
  {
    if h in s.tmap && s.effects == [] && !TimerDue(s, now) {
      assert !TimeoutQueued(s.effects, h);
      assert HasTimer(s.timeline, h);
    }
  }

  /** In every run that honours its sleeps, for every transaction without accepted 5xx responses:
      request k goes out after the waits before it, there are at most Rc of them, and a timeout
      comes after all of them and the last wait. Whenever the client is quiet and the transaction
      live, nothing scheduled up to now is missing. */
  lemma ScheduleKept(cfg: Settings, ops: seq<Op>, h: Handle)
    requires Standard(cfg) && AllEager(cfg, ops)
    requires h in Run(cfg, ops).born && Count(Run(cfg, ops).retries, h) == 0
    ensures FollowsPlan(cfg, Run(cfg, ops), h)
  {
    hide *;
    RunSchedule(cfg, ops);
    RunInv(cfg, ops);
    ScheduleOf(cfg, Run(cfg, ops), h);
  }

  // ---- The standard's numbers ----

  /** Request k goes out (2^k - 1) RTO after the transaction's creation. */
  function RfcSend(b: Birth, k: nat): int {
    b.time + (Pow2(k) - 1) * b.rto
  }

  /** The transaction fails (2^(Rc-1) - 1 + Rm) RTO after its creation. */
  function RfcTimeout(cfg: Settings, b: Birth): int
    requires cfg.retransmit.requestCount >= 1
  {
    b.time + (Pow2(cfg.retransmit.requestCount - 1) - 1 + cfg.retransmit.multiplier) * b.rto
  }

  lemma {:induction false} WaitDoubles(cfg: Settings, rto: int, k: nat)
    requires cfg.retransmit.maxRto.None? && k + 1 < cfg.retransmit.requestCount
    ensures Wait(cfg, rto, k) == Pow2(k) * rto
  {
    if k > 0 {
      WaitDoubles(cfg, rto, k - 1);
      assert 2 * (Pow2(k - 1) * rto) == (2 * Pow2(k - 1)) * rto;
    }
  }

  /** Without a configured maximum the requests go out as the standard has it. */
  lemma {:induction false} SendsMatchRfc(cfg: Settings, b: Birth, k: nat)
    requires cfg.retransmit.maxRto.None? && k < cfg.retransmit.requestCount
    ensures SendTime(cfg, b, k) == RfcSend(b, k)
  {
    if k > 0 {
      SendsMatchRfc(cfg, b, k - 1);
      WaitDoubles(cfg, b.rto, k - 1);
      hide Wait;
      assert (Pow2(k - 1) - 1) * b.rto + Pow2(k - 1) * b.rto == (2 * Pow2(k - 1) - 1) * b.rto;
    }
  }

  /** The transaction fails (2^(Rc-1) - 1 + Rm) RTO after its creation, as the standard has it,
      exactly when there is more than one request, or the multiplier is one, or the timeout zero. */
  lemma TimeoutMatchesRfc(cfg: Settings, b: Birth)
    requires cfg.retransmit.requestCount >= 1 && cfg.retransmit.maxRto.None?
    ensures TimeoutTime(cfg, b) == RfcTimeout(cfg, b)
            <==> cfg.retransmit.requestCount >= 2 || cfg.retransmit.multiplier == 1 || b.rto == 0
  {
    var rc, m := cfg.retransmit.requestCount, cfg.retransmit.multiplier;
    var p := Pow2(rc - 1);
    SendsMatchRfc(cfg, b, rc - 1);
    assert (p - 1 + m) * b.rto == (p - 1) * b.rto + m * b.rto;
    assert m * b.rto == b.rto * m;
    if rc == 1 {
      assert p == 1;
      assert m * b.rto == b.rto <==> (m - 1) * b.rto == 0;
      assert (m - 1) * b.rto == 0 <==> m == 1 || b.rto == 0;
    }
  }
}
