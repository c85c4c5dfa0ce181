/** The retransmission schedule of section 6.2.1 of RFC 8489 as equalities: what has gone out for
    an unanswered transaction is exactly what the standard schedules up to now. */
module Timetable {
  import opened Bytes
  import opened Header
  import opened Rto
  import opened Retransmit
  import opened Client
  import opened ClientRuns
  import opened Outcomes
  import opened Provenance
  import opened Discipline
  import opened Effort
  import opened Schedule

  /** No response was accepted for the transaction. */
  ghost predicate Unanswered(cfg: Settings, ops: seq<Op>, h: Handle) {
    forall k :: 0 <= k < |ops| && ops[k].Receive? ==> !AnsweredBy(cfg, ops, k, h)
  }

  ghost predicate AnsweredBy(cfg: Settings, ops: seq<Op>, k: nat, h: Handle)
    requires k < |ops| && ops[k].Receive?
  {
    var v := Verdict(cfg, Run(cfg, ops[..k]).s, ops[k]);
    v.Some? && v.value.0 == h
  }

  lemma {:induction false} CountNone(hs: seq<Handle>, h: Handle)
    requires h !in hs
    ensures Count(hs, h) == 0
  {
    if hs != [] {
      CountNone(hs[..|hs| - 1], h);
    }
  }

  lemma RetriedIsAnswered(cfg: Settings, ops: seq<Op>, k: nat, h: Handle)
    requires RetriedBy(cfg, ops, k, h)
    ensures AnsweredBy(cfg, ops, k, h)
  {
    hide Run, Verdict;
  }

  lemma ToldIsAnswered(cfg: Settings, ops: seq<Op>, k: nat, e: Effect)
    requires ToldBy(cfg, ops, k, e)
    ensures AnsweredBy(cfg, ops, k, e.handle)
  {
    hide Run, Verdict;
  }

  lemma UnansweredNotRetried(cfg: Settings, ops: seq<Op>, h: Handle)
    requires Unanswered(cfg, ops, h)
    ensures Count(Run(cfg, ops).retries, h) == 0
  {
    hide Run, Verdict, Count;
    if h in Run(cfg, ops).retries {
      var k := RetryFromResponse(cfg, ops, h);
      RetriedIsAnswered(cfg, ops, k, h);
    }
    CountNone(Run(cfg, ops).retries, h);
  }

  /** An unanswered transaction's only outcome is its timeout. */
  lemma UnansweredTimesOut(cfg: Settings, ops: seq<Op>, h: Handle, e: Effect)
    requires Unanswered(cfg, ops, h) && e in History(Run(cfg, ops)) && Terminal(e) && e.handle == h
    ensures e == TransactionFailed(h, TimedOut)
  {
    hide Run, Verdict, History;
    if e != TransactionFailed(h, TimedOut) {
      var k := OutcomeFromResponse(cfg, ops, e);
      ToldIsAnswered(cfg, ops, k, e);
    }
  }

  // ---- Time ----

  ghost predicate NoneAhead(w: World) {
    forall i :: 0 <= i < |w.log| ==> w.log[i].time <= w.clock
  }

  lemma StepNotAhead(cfg: Settings, w: World, op: Op)
    requires NoneAhead(w) && Eager(w, op)
    ensures NoneAhead(Step(cfg, w, op))
  {
    hide Next, Respond, StartTransaction, Verdict, Lesson, AllocateHandle, Timeout;
  }

  lemma EagerPrefix(cfg: Settings, ops: seq<Op>)
    requires ops != [] && AllEager(cfg, ops)
    ensures
      var n := |ops| - 1;
      AllEager(cfg, ops[..n]) && Eager(Run(cfg, ops[..n]), ops[n])
  {
    hide Run;
    var n := |ops| - 1;
    var before := ops[..n];
    assert forall k :: 0 <= k < n ==> ops[..k] == before[..k] && ops[k] == before[k];
  }

  lemma {:induction false} LogNotAfter(cfg: Settings, ops: seq<Op>)
    requires AllEager(cfg, ops)
    ensures NoneAhead(Run(cfg, ops))
  {
    if ops != [] {
      var n := |ops| - 1;
      assert Run(cfg, ops) == Step(cfg, Run(cfg, ops[..n]), ops[n]);
      hide *;
      EagerPrefix(cfg, ops);
      LogNotAfter(cfg, ops[..n]);
      StepNotAhead(cfg, Run(cfg, ops[..n]), ops[n]);
    }
  }

  lemma {:induction false} SendsNotAfter(log: seq<Stamped>, h: Handle, clock: int)
    requires forall i :: 0 <= i < |log| ==> log[i].time <= clock
    ensures forall k :: 0 <= k < |SendTimes(log, h)| ==> SendTimes(log, h)[k] <= clock
  {
    if log != [] {
      SendsNotAfter(log[..|log| - 1], h, clock);
    }
  }

  lemma {:induction false} SendMonotone(cfg: Settings, b: Birth, k: nat, n: nat)
    requires b.rto >= 0 && k <= n
    ensures SendTime(cfg, b, k) <= SendTime(cfg, b, n)
  {
    if k < n {
      SendMonotone(cfg, b, k, n - 1);
      WaitNonNegative(cfg, b.rto, n - 1);
    }
  }

  lemma TimeoutAfterSends(cfg: Settings, b: Birth, k: nat)
    requires b.rto >= 0 && k < cfg.retransmit.requestCount
    ensures SendTime(cfg, b, k) <= TimeoutTime(cfg, b)
  {
    var last := cfg.retransmit.requestCount - 1;
    SendMonotone(cfg, b, k, last);
    WaitNonNegative(cfg, b.rto, last);
    hide SendTime, Wait;
  }

  // ---- The timetable ----

  /** The requests handed out are those due by now, at their times; the transaction is live until
      its timeout is due; the timeout, and no other outcome, is handed out at its time. */
  ghost predicate OnTimetable(cfg: Settings, w: World, h: Handle)
    requires cfg.retransmit.requestCount >= 1 && h in w.born
  {
    var rc, b, times := cfg.retransmit.requestCount, w.born[h], SendTimes(w.log, h);
    var timeout := Stamped(TimeoutTime(cfg, b), TransactionFailed(h, TimedOut));
    && |times| <= rc
    && (forall k :: 0 <= k < |times| ==> times[k] == SendTime(cfg, b, k))
    && (forall k :: 0 <= k < rc ==> (k < |times| <==> SendTime(cfg, b, k) <= w.clock))
    && (h in w.s.tmap <==> w.clock < TimeoutTime(cfg, b))
    && (timeout in w.log <==> TimeoutTime(cfg, b) <= w.clock)
    && (timeout in w.log ==> |times| == rc)
    && (forall st :: st in w.log && Terminal(st.effect) && st.effect.handle == h ==> st == timeout)
  }

  lemma LiveOnTimetable(cfg: Settings, w: World, h: Handle)
    requires cfg.retransmit.requestCount >= 1 && h in w.born && h in w.s.tmap && w.born[h].rto >= 0
    requires FollowsPlan(cfg, w, h) && Quiet(w.s, w.clock) && Stamps(w, w.clock) == w.log
    requires NoneAhead(w)
    requires !FinishedIn(Delivered(w.log), h)
    ensures OnTimetable(cfg, w, h)
  {
    var rc, b, times := cfg.retransmit.requestCount, w.born[h], SendTimes(w.log, h);
    SendsNotAfter(w.log, h, w.clock);
    hide SendTimes, SendTime, TimeoutTime, TimerDue;
    var n := |times|;
    forall k | 0 <= k < rc ensures k < n <==> SendTime(cfg, b, k) <= w.clock {
      if k >= n {
        SendMonotone(cfg, b, n, k);
      }
    }
    if n < rc {
      TimeoutAfterSends(cfg, b, n);
    }
    forall st | st in w.log && Terminal(st.effect) ensures st.effect.handle != h {
      var i :| 0 <= i < |w.log| && w.log[i] == st;
      assert Delivered(w.log)[i] == st.effect;
    }
  }

  lemma GoneOnTimetable(cfg: Settings, w: World, h: Handle)
    requires cfg.retransmit.requestCount >= 1 && h in w.born && h !in w.s.tmap
    requires FollowsPlan(cfg, w, h) && Stamps(w, w.clock) == w.log
    requires NoneAhead(w)
    requires FinishedIn(Delivered(w.log), h)
    requires forall e :: e in History(w) && Terminal(e) && e.handle == h ==> e == TransactionFailed(h, TimedOut)
    ensures OnTimetable(cfg, w, h)
  {
    var b := w.born[h];
    SendsNotAfter(w.log, h, w.clock);
    hide SendTimes, SendTime, TimeoutTime, Stamps, FollowsPlan;
    var es := Delivered(w.log);
    forall i | 0 <= i < |w.log| && Terminal(w.log[i].effect) && w.log[i].effect.handle == h
      ensures w.log[i] == Stamped(TimeoutTime(cfg, b), TransactionFailed(h, TimedOut))
              && |SendTimes(w.log, h)| == cfg.retransmit.requestCount
    {
      assert es[i] == w.log[i].effect && History(w)[i] == es[i];
      assert es[i] in History(w);
      TimeoutsAtTime(cfg, w, h, i);
    }
    var i :| 0 <= i < |es| && Terminal(es[i]) && es[i].handle == h;
    assert w.log[i] in w.log;
    SendsAtTimes(cfg, w, h);
  }

  lemma TimeoutsAtTime(cfg: Settings, w: World, h: Handle, i: nat)
    requires cfg.retransmit.requestCount >= 1 && h in w.born && FollowsPlan(cfg, w, h) && Stamps(w, w.clock) == w.log
    requires i < |w.log| && w.log[i].effect == TransactionFailed(h, TimedOut)
    ensures w.log[i].time == TimeoutTime(cfg, w.born[h]) && |SendTimes(w.log, h)| == cfg.retransmit.requestCount
  {
    hide SendTimes, SendTime, TimeoutTime, Stamps;
  }

  lemma SendsAtTimes(cfg: Settings, w: World, h: Handle)
    requires cfg.retransmit.requestCount >= 1 && h in w.born && FollowsPlan(cfg, w, h) && Stamps(w, w.clock) == w.log
    ensures
      var times := SendTimes(w.log, h);
      |times| <= cfg.retransmit.requestCount && forall k :: 0 <= k < |times| ==> times[k] == SendTime(cfg, w.born[h], k)
  {
    hide SendTimes, SendTime, TimeoutTime, Stamps;
  }

  /** Without a configured maximum the times are the standard's: request k after (2^k - 1) RTO,
      and with two or more requests the timeout after (2^(Rc-1) - 1 + Rm) RTO. */
  ghost predicate RfcTimes(cfg: Settings, b: Birth)
    requires cfg.retransmit.requestCount >= 1
  {
    cfg.retransmit.maxRto.None? ==>
      && (forall k :: 0 <= k < cfg.retransmit.requestCount ==> SendTime(cfg, b, k) == RfcSend(b, k))
      && (cfg.retransmit.requestCount >= 2 ==> TimeoutTime(cfg, b) == RfcTimeout(cfg, b))
  }

  lemma AllRfcTimes(cfg: Settings, b: Birth)
    requires cfg.retransmit.requestCount >= 1
    ensures RfcTimes(cfg, b)
  {
    hide SendTime, RfcSend, TimeoutTime, RfcTimeout;
    if cfg.retransmit.maxRto.None? {
      TimeoutMatchesRfc(cfg, b);
      forall k | 0 <= k < cfg.retransmit.requestCount ensures SendTime(cfg, b, k) == RfcSend(b, k) {
        SendsMatchRfc(cfg, b, k);
      }
    }
  }

  /** For every run that honours its sleeps, every setting, every transaction and every moment at
      which the client is quiet: if no response was accepted for the transaction, what has been
      handed out for it is exactly what is scheduled up to now. Without a configured maximum the
      schedule is the standard's. */
  lemma ScheduleExact(cfg: Settings, ops: seq<Op>, h: Handle)
    requires Standard(cfg) && AllEager(cfg, ops) && Unanswered(cfg, ops, h)
    requires h in Run(cfg, ops).born && Quiet(Run(cfg, ops).s, Run(cfg, ops).clock)
    ensures OnTimetable(cfg, Run(cfg, ops), h) && RfcTimes(cfg, Run(cfg, ops).born[h])
  {
    var w := Run(cfg, ops);
    assert Stamps(w, w.clock) == w.log;
    assert Standard(cfg) ==> cfg.retransmit.requestCount >= 1;
    hide *;
    AllRfcTimes(cfg, w.born[h]);
    UnansweredNotRetried(cfg, ops, h);
    ScheduleKept(cfg, ops, h);
    LogNotAfter(cfg, ops);
    NoneForgotten(cfg, ops);
    if h in w.s.tmap {
      BornNonNegative(cfg, ops);
      LiveOnTimetable(cfg, w, h);
    } else {
      forall e | e in History(w) && Terminal(e) && e.handle == h ensures e == TransactionFailed(h, TimedOut) {
        UnansweredTimesOut(cfg, ops, h, e);
      }
      GoneOnTimetable(cfg, w, h);
    }
  }

  /** No transaction starts with a negative timeout. */
  lemma {:induction false} BornNonNegative(cfg: Settings, ops: seq<Op>)
    requires Standard(cfg) && AllEager(cfg, ops)
    ensures forall h :: h in Run(cfg, ops).born ==> Run(cfg, ops).born[h].rto >= 0
  {
    if ops != [] {
      var n := |ops| - 1;
      assert Run(cfg, ops) == Step(cfg, Run(cfg, ops[..n]), ops[n]);
      hide *;
      EagerPrefix(cfg, ops);
      BornNonNegative(cfg, ops[..n]);
      RunSchedule(cfg, ops[..n]);
      StepNonNegative(cfg, Run(cfg, ops[..n]), ops[n]);
    }
  }

  lemma StepNonNegative(cfg: Settings, w: World, op: Op)
    requires Standard(cfg) && ScheduleInv(cfg, w, w.clock) && forall h :: h in w.born ==> w.born[h].rto >= 0
    ensures forall h :: h in Step(cfg, w, op).born ==> Step(cfg, w, op).born[h].rto >= 0
  {
    if op.Create? {
      TimeoutNonNegative(cfg.rto, w.s.rto, op.path);
    }
    hide Next, Respond, StartTransaction, Verdict, Lesson, AllocateHandle, Timeout, AllPunctual, TimeoutsTold;
  }

  /** When the transaction has run out of time, all its requests and its timeout have been handed
      out, each at its time. */
  lemma RanOut(cfg: Settings, ops: seq<Op>, h: Handle)
    requires Standard(cfg) && AllEager(cfg, ops) && Unanswered(cfg, ops, h)
    requires h in Run(cfg, ops).born && Quiet(Run(cfg, ops).s, Run(cfg, ops).clock)
    requires Run(cfg, ops).clock >= TimeoutTime(cfg, Run(cfg, ops).born[h])
    ensures
      var w, rc := Run(cfg, ops), cfg.retransmit.requestCount;
      var b := w.born[h];
      && SendTimes(w.log, h) == seq(rc, k requires 0 <= k < rc => SendTime(cfg, b, k))
      && Stamped(TimeoutTime(cfg, b), TransactionFailed(h, TimedOut)) in w.log
      && h !in w.s.tmap && RfcTimes(cfg, b)
  {
    ScheduleExact(cfg, ops, h);
    hide Run, SendTimes, SendTime, AllEager, Unanswered, Quiet, RfcTimes;
  }

  // ---- The documented maximum ----

  /** When the configured maximum is one: the timeout is within it; with two requests or more so is
      the last wait, with three or more twice the timeout; and there are at most three requests,
      as a wait raised to the maximum is then doubled (unless the maximum is zero). */
  predicate MaximumSuffices(cfg: Settings, rto: int)
    requires cfg.retransmit.maxRto.Some?
  {
    var m, rc := cfg.retransmit.maxRto.value, cfg.retransmit.requestCount;
    && rto <= m
    && (rc >= 2 ==> rto * cfg.retransmit.multiplier <= m)
    && (rc >= 3 ==> 2 * rto <= m)
    && (rc < 4 || m == 0)
  }

  lemma {:induction false} ZeroWaits(cfg: Settings, k: nat)
    requires cfg.retransmit.maxRto == Some(0)
    ensures Wait(cfg, 0, k) == 0
  {
    if k > 0 {
      ZeroWaits(cfg, k - 1);
    }
  }

  /** All waits of a transaction stay within the maximum if and only if it suffices. */
  lemma WaitsWithin(cfg: Settings, rto: int)
    requires cfg.retransmit.maxRto.Some? && cfg.retransmit.requestCount >= 1 && rto >= 0
    ensures (forall k :: 0 <= k < cfg.retransmit.requestCount ==> Wait(cfg, rto, k) <= cfg.retransmit.maxRto.value)
            <==> MaximumSuffices(cfg, rto)
  {
    var m, rc := cfg.retransmit.maxRto.value, cfg.retransmit.requestCount;
    if MaximumSuffices(cfg, rto) {
      forall k | 0 <= k < rc ensures Wait(cfg, rto, k) <= m {
        if rc >= 4 {
          ZeroWaits(cfg, k);
        } else {
          FewWaits(cfg, rto);
        }
      }
    } else {
      FewWaits(cfg, rto);
      hide Wait;
      var bad := if rto > m then 0 else if rto * cfg.retransmit.multiplier > m then rc - 1 else if 2 * rto > m then 1
        else 2;
      assert 0 <= bad < rc && Wait(cfg, rto, bad) > m;
    }
  }

  lemma FewWaits(cfg: Settings, rto: int)
    requires cfg.retransmit.maxRto.Some?
    ensures
      var m, rc := cfg.retransmit.maxRto.value, cfg.retransmit.requestCount;
      && Wait(cfg, rto, 0) == rto
      && (rc >= 2 ==> Wait(cfg, rto, rc - 1) == Floored(cfg, rto * cfg.retransmit.multiplier))
      && (rc >= 3 ==> Wait(cfg, rto, 1) == Floored(cfg, 2 * rto))
      && (rc >= 4 ==> Wait(cfg, rto, 2) == Floored(cfg, 2 * Floored(cfg, 2 * rto)))
  {
  }

  /** For every run that honours its sleeps, every setting with a maximum and every transaction that
      ran out of time unanswered: all the waits that were seen, between its requests and before
      its timeout, stay within the maximum if and only if the maximum suffices. */
  lemma MaximumExact(cfg: Settings, ops: seq<Op>, h: Handle)
    requires Standard(cfg) && AllEager(cfg, ops) && Unanswered(cfg, ops, h) && cfg.retransmit.maxRto.Some?
    requires h in Run(cfg, ops).born && Quiet(Run(cfg, ops).s, Run(cfg, ops).clock)
    requires Run(cfg, ops).clock >= TimeoutTime(cfg, Run(cfg, ops).born[h])
    ensures
      var w, rc := Run(cfg, ops), cfg.retransmit.requestCount;
      var times := SendTimes(w.log, h) + [TimeoutTime(cfg, w.born[h])];
      && Stamped(TimeoutTime(cfg, w.born[h]), TransactionFailed(h, TimedOut)) in w.log && |times| == rc + 1
      && ((forall k :: 0 <= k < rc ==> times[k + 1] - times[k] <= cfg.retransmit.maxRto.value)
          <==> MaximumSuffices(cfg, w.born[h].rto))
  {
    var b := Run(cfg, ops).born[h];
    assert cfg.retransmit.requestCount >= 1;
    hide *;
    RanOut(cfg, ops, h);
    BornNonNegative(cfg, ops);
    GapsWithin(cfg, b, SendTimes(Run(cfg, ops).log, h));
  }

  lemma GapsWithin(cfg: Settings, b: Birth, sends: seq<int>)
    requires cfg.retransmit.maxRto.Some? && cfg.retransmit.requestCount >= 1 && b.rto >= 0
    requires sends == seq(cfg.retransmit.requestCount,
      k requires 0 <= k < cfg.retransmit.requestCount => SendTime(cfg, b, k))
    ensures
      var times := sends + [TimeoutTime(cfg, b)];
      (forall k :: 0 <= k < cfg.retransmit.requestCount ==> times[k + 1] - times[k] <= cfg.retransmit.maxRto.value)
      <==> MaximumSuffices(cfg, b.rto)
  {
    hide SendTime, TimeoutTime, Wait, MaximumSuffices;
    var times := sends + [TimeoutTime(cfg, b)];
    GapsAreWaits(cfg, b, sends);
    WaitsWithin(cfg, b.rto);
    if forall k :: 0 <= k < cfg.retransmit.requestCount ==> times[k + 1] - times[k] <= cfg.retransmit.maxRto.value {
      forall k | 0 <= k < cfg.retransmit.requestCount ensures Wait(cfg, b.rto, k) <= cfg.retransmit.maxRto.value {
        assert times[k + 1] - times[k] == Wait(cfg, b.rto, k);
      }
    }
    if MaximumSuffices(cfg, b.rto) {
      forall k | 0 <= k < cfg.retransmit.requestCount ensures times[k + 1] - times[k] <= cfg.retransmit.maxRto.value {
        assert Wait(cfg, b.rto, k) <= cfg.retransmit.maxRto.value;
      }
    }
  }

  lemma GapsAreWaits(cfg: Settings, b: Birth, sends: seq<int>)
    requires cfg.retransmit.requestCount >= 1 && |sends| == cfg.retransmit.requestCount
    requires forall k :: 0 <= k < |sends| ==> sends[k] == SendTime(cfg, b, k)
    ensures
      var times := sends + [TimeoutTime(cfg, b)];
      forall k :: 0 <= k < |sends| ==> times[k + 1] - times[k] == Wait(cfg, b.rto, k)
  {
    hide Wait;
  }
}
