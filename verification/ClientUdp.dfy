/** The client as an object: its calls change the fields step by step, and every call is a step
    of the state machine. The object remembers the calls made on it, so what is proved of every
    run of the machine holds of the object. */
module ClientUdp {
  import opened Bytes
  import opened Hmac
  import opened Header
  import opened Attributes
  import opened Messages
  import opened Builder
  import opened Rto
  import opened Retransmit
  import opened C = Client
  import opened ClientInvariant
  import opened ClientRuns
  import opened Requests
  import opened Provenance
  import RtoCalculator

  // ---- Handles ----

  lemma {:induction false} BelowIrrelevant(next: Handle, tmap: map<Handle, Transaction>, h: Handle)
    requires h < next
    ensures AllocateHandle(next, tmap - {h}) == AllocateHandle(next, tmap)
    decreases |tmap|
  {
    if next in tmap {
      SmallerMap(tmap, next);
      assert (tmap - {h}) - {next} == (tmap - {next}) - {h};
      BelowIrrelevant(next + 1, tmap - {next}, h);
    }
  }

  lemma SmallerMap(tmap: map<Handle, Transaction>, h: Handle)
    requires h in tmap
    ensures |tmap - {h}| < |tmap|
  {
    assert tmap.Keys == (tmap - {h}).Keys + {h};
    assert |tmap| == |tmap.Keys| && |tmap - {h}| == |(tmap - {h}).Keys|;
  }

  /** The loop that looks for an unused handle value. */
  method FindHandle(next: Handle, tmap: map<Handle, Transaction>) returns (h: Handle)
    ensures h == AllocateHandle(next, tmap)
  {
    h := next;
    while h in tmap
      invariant h <= AllocateHandle(h, tmap) == AllocateHandle(next, tmap)
      decreases AllocateHandle(next, tmap) - h
    {
      BelowIrrelevant(h + 1, tmap, h);
      h := h + 1;
    }
  }

  /** The loop over drawn ids: the first that is not in use, or nothing where the draws run out
      and the loop would go on drawing. */
  method DrawId(draws: seq<TransactionId>, used: map<TransactionId, Handle>) returns (tid: Maybe<TransactionId>)
    ensures tid.None? <==> forall k :: 0 <= k < |draws| ==> draws[k] in used
    ensures tid.Some? ==>
      exists k :: 0 <= k < |draws| && draws[k] == tid.value && draws[k] !in used
                  && forall j :: 0 <= j < k ==> draws[j] in used
  {
    var k := 0;
    while k < |draws|
      invariant k <= |draws| && forall j :: 0 <= j < k ==> draws[j] in used
    {
      if draws[k] !in used {
        return Some(draws[k]);
      }
      k := k + 1;
    }
    tid := None;
  }

  lemma RunMore(cfg: Settings, ops: seq<Op>, op: Op)
    ensures Run(cfg, ops + [op]) == Step(cfg, Run(cfg, ops), op)
  {
    assert (ops + [op])[..|ops|] == ops;
  }

  lemma RunPoll(cfg: Settings, ops: seq<Op>, now: int)
    ensures Run(cfg, ops + [Poll(now)]).s == C.Next(cfg, Run(cfg, ops).s, now).0
  {
    hide Run, C.Next;
    RunMore(cfg, ops, Poll(now));
  }

  lemma RunCreate(cfg: Settings, ops: seq<Op>, now: int, tid: TransactionId, data: Bytes, path: Path, auth: Maybe<Auth>)
    requires tid !in Run(cfg, ops).s.tidToHandle
    ensures Run(cfg, ops + [Op.Create(now, tid, data, path, auth)]).s
            == StartTransaction(cfg, Run(cfg, ops).s, now, tid, data, path, auth)
  {
    hide Run, StartTransaction;
    RunMore(cfg, ops, Op.Create(now, tid, data, path, auth));
  }

  lemma NextIsFree(cfg: Settings, ops: seq<Op>)
    ensures
      var s := Run(cfg, ops).s;
      AllocateHandle(s.nextHandle, s.tmap) == s.nextHandle
  {
    RunInv(cfg, ops);
    KnownHandlesOnly(Run(cfg, ops).s);
  }

  lemma CreatedNow(cfg: Settings, ops: seq<Op>, now: int, tid: TransactionId, data: Bytes, path: Path,
                   auth: Maybe<Auth>)
    requires tid !in Run(cfg, ops).s.tidToHandle
    ensures CreatedBy(cfg, ops + [Op.Create(now, tid, data, path, auth)], |ops|, Run(cfg, ops).s.nextHandle)
  {
    hide Run;
    assert (ops + [Op.Create(now, tid, data, path, auth)])[..|ops|] == ops;
  }

  lemma RunReceive(cfg: Settings, ops: seq<Op>, now: int, view: Bytes, given: Maybe<Message>)
    ensures Run(cfg, ops + [Receive(now, view, given)]).s == Respond(cfg, Run(cfg, ops).s, now, view, given).0
  {
    hide Run, Respond, Verdict, Lesson;
    RunMore(cfg, ops, Receive(now, view, given));
  }

  /** The bytes of a request under an id. */
  ghost function RequestBytes(cfg: Settings, rq: BindingRequest, tid: TransactionId,
                              order: seq<AttrType>): Result<Bytes, HashError>
    requires Enumerates(order, RequestSet(cfg.useFingerprint, rq))
  {
    BuildMessage(RequestHeader(tid), RequestSet(cfg.useFingerprint, rq), order, Signing(rq.auth))
  }

  class UdpClient {
    const cfg: Settings
    var nextHandle: Handle
    var tidToHandle: map<TransactionId, Handle>
    var tmap: map<Handle, Transaction>
    var timeline: seq<Due>
    var effects: seq<Effect>
    var stat: Stat
    const rto: RtoCalculator.Calculator
    ghost var ops: seq<Op>

    ghost predicate Owned()
      reads this, rto, rto.repr
    {
      rto.Valid() && this !in rto.repr && rto.cfg == cfg.rto
    }

    ghost function State(): C.State
      reads this, rto, rto.repr
      requires Owned()
    {
      C.State(nextHandle, tidToHandle, tmap, timeline, effects, rto.State(), stat)
    }

    /** The object is where the calls made on it lead. */
    ghost predicate Valid()
      reads this, rto, rto.repr
    {
      Owned() && State() == Run(cfg, ops).s
    }

    constructor (cfg: Settings)
      ensures Valid() && this.cfg == cfg && ops == [] && fresh(rto.repr)
    {
      this.cfg := cfg;
      nextHandle, tidToHandle, tmap, timeline, effects, stat := 0, map[], map[], [], [], Stat(0, 0, 0);
      rto := new RtoCalculator.Calculator(cfg.rto);
      ops := [];
    }

    // ---- next ----

    /** Take the earliest timer off the timeline and act on it. */
    method FireOne(now: int)
      requires Owned() && timeline != []
      modifies this`timeline, this`tmap, this`effects, this`stat
      ensures Owned() && State() == Fire(cfg, old(State()), now)
    {
      hide RtoCalculator.Calculator.Valid, RtoCalculator.Calculator.State, Insert, Advance;
      var h := timeline[0].handle;
      timeline := timeline[1..];
      if h in tmap {
        var t := tmap[h];
        var algo := Advance(cfg.retransmit, t.algo, now);
        if algo.next.Some? {
          stat := stat.(retransmits := stat.retransmits + 1);
          tmap := tmap[h := t.(algo := algo, rtxCount := t.rtxCount + 1)];
          timeline := Insert(timeline, Due(algo.next.value, h));
          effects := effects + [SendData(h, t.data)];
        } else {
          tmap := tmap[h := t.(algo := algo)];
          effects := effects + [TransactionFailed(h, TimedOut)];
        }
      }
    }

    /** The loop over due timers. */
    method FireDue(now: int)
      requires Owned()
      modifies this`timeline, this`tmap, this`effects, this`stat
      ensures Owned() && State() == Drain(cfg, old(State()), now)
    {
      hide RtoCalculator.Calculator.Valid, RtoCalculator.Calculator.State, Fire, Work;
      while timeline != [] && timeline[0].time <= now
        invariant Owned() && Drain(cfg, State(), now) == Drain(cfg, old(State()), now)
        decreases Work(cfg, tmap, timeline, now)
      {
        FireSpends(cfg, State(), now);
        FireOne(now);
      }
    }

    /** Forget a transaction; its timer, if any, is left on the timeline. */
    method Forget(h: Handle)
      requires Owned()
      modifies this`tidToHandle, this`tmap
      ensures Owned() && State() == Cleanup(old(State()), h)
    {
      hide RtoCalculator.Calculator.Valid, RtoCalculator.Calculator.State;
      if h in tmap {
        tidToHandle := tidToHandle - {tmap[h].tid};
        tmap := tmap - {h};
      }
    }

    method Advanced(now: int) returns (e: Effect)
      requires Owned()
      modifies this`timeline, this`tmap, this`effects, this`stat, this`tidToHandle
      ensures Owned() && (State(), e) == C.Next(cfg, old(State()), now)
    {
      hide RtoCalculator.Calculator.Valid, RtoCalculator.Calculator.State, Drain, Cleanup;
      FireDue(now);
      if effects != [] {
        e := effects[0];
        effects := effects[1..];
        if e.TransactionFailed? {
          Forget(e.handle);
        }
        if e.TransactionOk? {
          Forget(e.handle);
        }
      } else if timeline == [] {
        e := Idle;
      } else {
        e := Sleep(timeline[0].time - now);
      }
    }

    /** The next effect for the caller to carry out. */
    method Next(now: int) returns (e: Effect)
      requires Valid()
      modifies this
      ensures Valid() && ops == old(ops) + [Poll(now)]
      ensures e == C.Next(cfg, old(State()), now).1
    {
      hide RtoCalculator.Calculator.Valid, RtoCalculator.Calculator.State, C.Next, Run;
      ghost var before, s := ops, State();
      e := Advanced(now);
      RunPoll(cfg, before, now);
      ops := before + [Poll(now)];
    }

    /** What every run of the machine keeps, the object keeps. */
    lemma KeepsInvariant()
      requires Valid()
      ensures Inv(State())
    {
      RunInv(cfg, ops);
    }

    // ---- create ----

    method Start(now: int, tid: TransactionId, data: Bytes, path: Path, auth: Maybe<Auth>) returns (h: Handle)
      requires Owned()
      modifies this`nextHandle, this`tidToHandle, this`tmap, this`timeline, this`effects, this`stat
      ensures Owned() && State() == StartTransaction(cfg, old(State()), now, tid, data, path, auth)
      ensures h == AllocateHandle(old(nextHandle), old(tmap))
    {
      hide RtoCalculator.Calculator.Valid, RtoCalculator.Calculator.State, Insert, AllocateHandle, Timeout;
      h := FindHandle(nextHandle, tmap);
      nextHandle := h + 1;
      tidToHandle := tidToHandle[tid := h];
      var timeout := rto.Get(path);
      var algo := NewAlgo(timeout, now);
      effects := effects + [SendData(h, data)];
      algo := Init(algo, now);
      tmap := tmap[h := Transaction(tid, h, data, algo, path, now, auth, 0)];
      if algo.next.Some? {
        timeline := Insert(timeline, Due(algo.next.value, h));
      }
      stat := stat.(started := stat.started + 1);
    }

    /** Start a transaction under the first drawn id that is not in use. It fails exactly when
        the request cannot be signed, and then nothing has changed; nor has it while no unused id
        is drawn. */
    method Create(draws: seq<TransactionId>, now: int, rq: BindingRequest, order: seq<AttrType>)
        returns (r: Maybe<Result<Handle, HashError>>, ghost tid: TransactionId)
      requires Valid() && Enumerates(order, RequestSet(cfg.useFingerprint, rq))
      modifies this
      ensures Valid()
      ensures r.None? <==> forall k :: 0 <= k < |draws| ==> draws[k] in old(tidToHandle)
      ensures r.None? ==> ops == old(ops)
      ensures r.Some? ==> tid in draws && tid !in old(tidToHandle)
      ensures r.Some? ==>
        match RequestBytes(cfg, rq, tid, order)
        case Err(e) => r.value == Err(e) && ops == old(ops)
        case Ok(data) =>
          && r.value == Ok(old(nextHandle))
          && ops == old(ops) + [Op.Create(now, tid, data, rq.path, rq.auth)]
          && CreatedBy(cfg, ops, |old(ops)|, old(nextHandle))
    {
      hide RtoCalculator.Calculator.Valid, RtoCalculator.Calculator.State, Run, AllocateHandle, StartTransaction;
      hide RequestSet, BuildMessage, RequestHeader, CreatedBy;
      var drawn := DrawId(draws, tidToHandle);
      if drawn.None? {
        tid := seq(12, i => 0);
        return None, tid;
      }
      var id := drawn.value;
      tid := id;
      var built := Build(RequestHeader(id), RequestSet(cfg.useFingerprint, rq), order, Signing(rq.auth));
      match built {
        case Err(e) => r := Some(Err(e));
        case Ok(data) =>
          ghost var before := ops;
          RunCreate(cfg, before, now, id, data, rq.path, rq.auth);
          NextIsFree(cfg, before);
          CreatedNow(cfg, before, now, id, data, rq.path, rq.auth);
          var h := Start(now, id, data, rq.path, rq.auth);
          ops := before + [Op.Create(now, id, data, rq.path, rq.auth)];
          r := Some(Ok(h));
      }
    }

    // ---- response ----

    /** Karn's rule, told to the calculator. */
    method Teach(t: Transaction, now: int)
      requires Owned() && cfg.rto.historyDuration >= 0
      modifies rto.repr
      ensures Owned() && fresh(rto.repr - old(rto.repr))
      ensures State() == old(State()).(rto := Learn(cfg, old(State()).rto, t, now))
    {
      hide RtoCalculator.Calculator.Valid, RtoCalculator.Calculator.State, NewRtt, Backoff;
      if t.rtxCount == 0 {
        rto.NewRtt(now, t.path, now - t.createTime);
      } else {
        rto.Backoff(now, t.path, t.algo.lastTimeout);
      }
    }

    /** What an accepted response does to its transaction. */
    method Settle(h: Handle, now: int, o: Outcome)
      requires Owned() && h in tmap && cfg.rto.historyDuration >= 0
      modifies this`tmap, this`effects, this`stat, rto.repr
      ensures Owned() && fresh(rto.repr - old(rto.repr))
      ensures State() == Apply(cfg, old(State()), now, h, o)
    {
      hide RtoCalculator.Calculator.Valid, RtoCalculator.Calculator.State, Learn;
      match o {
        case Finish(e, learns) =>
          if learns {
            Teach(tmap[h], now);
          }
          if e.TransactionOk? {
            stat := stat.(success := stat.success + 1);
          }
          effects := effects + [e];
        case Retry(algo) =>
          tmap := tmap[h := tmap[h].(algo := algo)];
        case Discard =>
      }
    }

    method Dispatch(now: int, view: Bytes, given: Maybe<Message>) returns (r: Maybe<ClientError>)
      requires Owned() && cfg.rto.historyDuration >= 0
      modifies this`tmap, this`effects, this`stat, rto.repr
      ensures Owned() && fresh(rto.repr - old(rto.repr)) && ops == old(ops)
      ensures (State(), r) == Respond(cfg, old(State()), now, view, given)
    {
      hide RtoCalculator.Calculator.Valid, RtoCalculator.Calculator.State, OutcomeOf, CheckAuth, MessageOf, Apply;
      match MessageOf(view, given) {
        case Err(e) => r := Some(e);
        case Ok(m) =>
          var tid := m.header.tid;
          if tid !in tidToHandle || tidToHandle[tid] !in tmap {
            r := Some(TransactionNotFound);
          } else {
            var h := tidToHandle[tid];
            r := CheckAuth(cfg, tmap[h], m, view);
            if r.None? {
              Settle(h, now, OutcomeOf(cfg, tmap[h], now, m));
            }
          }
      }
    }

    /** A datagram that may answer a transaction, with its parsed form if the caller has it. */
    method Response(now: int, view: Bytes, given: Maybe<Message>) returns (r: Maybe<ClientError>)
      requires Valid() && cfg.rto.historyDuration >= 0
      modifies this, rto.repr
      ensures Valid() && fresh(rto.repr - old(rto.repr)) && ops == old(ops) + [Receive(now, view, given)]
      ensures r == Respond(cfg, old(State()), now, view, given).1
    {
      hide RtoCalculator.Calculator.Valid, RtoCalculator.Calculator.State, Run, Respond;
      ghost var before := ops;
      r := Dispatch(now, view, given);
      RunReceive(cfg, before, now, view, given);
      ops := before + [Receive(now, view, given)];
    }
  }
}
