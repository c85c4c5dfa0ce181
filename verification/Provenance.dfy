/** Where everything in a run comes from: live transactions from the call that created them,
    outcomes, lessons and retries from the responses that caused them. */
module Provenance {
  import opened Bytes
  import opened Header
  import opened Messages
  import opened Parser
  import opened Rto
  import opened Retransmit
  import opened Client
  import opened ClientInvariant
  import opened ClientRuns
  import opened Responses

  // ---- Transactions ----

  /** Call j started the transaction of this handle. */
  ghost predicate CreatedBy(cfg: Settings, ops: seq<Op>, j: nat, h: Handle) {
    && j < |ops| && ops[j].Create?
    && ops[j].tid !in Run(cfg, ops[..j]).s.tidToHandle
    && Run(cfg, ops[..j]).s.nextHandle == h
  }

  /** The transaction holds what the call gave. */
  ghost predicate HoldsWhat(t: Transaction, op: Op) {
    op.Create? && t.tid == op.tid && t.data == op.data && t.path == op.path && t.auth == op.auth
      && t.createTime == op.now
  }

  /** What never changes in a transaction. */
  ghost predicate Same(t: Transaction, t': Transaction) {
    t'.tid == t.tid && t'.data == t.data && t'.path == t.path && t'.auth == t.auth && t'.createTime == t.createTime
  }

  lemma {:induction false} DrainSame(cfg: Settings, s: State, now: int)
    ensures
      var s' := Drain(cfg, s, now);
      s'.tmap.Keys == s.tmap.Keys && forall h :: h in s.tmap ==> Same(s.tmap[h], s'.tmap[h])
    decreases Work(cfg, s.tmap, s.timeline, now)
  {
    hide Work, Insert, Advance;
    if TimerDue(s, now) {
      FireSpends(cfg, s, now);
      var s1 := Fire(cfg, s, now);
      assert s1.tmap.Keys == s.tmap.Keys && forall h :: h in s.tmap ==> Same(s.tmap[h], s1.tmap[h]);
      hide Fire;
      DrainSame(cfg, s1, now);
    }
  }

  /** A transaction live after a call was live before it and is the same, or the call made it. */
  ghost predicate Inherited(w: World, w': World, op: Op) {
    forall h :: h in w'.s.tmap ==>
      || (h in w.s.tmap && Same(w.s.tmap[h], w'.s.tmap[h]))
      || (op.Create? && op.tid !in w.s.tidToHandle && h == w.s.nextHandle && HoldsWhat(w'.s.tmap[h], op))
  }

  lemma StepInherits(cfg: Settings, w: World, op: Op)
    requires WorldInv(w)
    ensures Inherited(w, Step(cfg, w, op), op) && Step(cfg, w, op).s.nextHandle >= w.s.nextHandle
    ensures op.Create? && op.tid !in w.s.tidToHandle ==> Step(cfg, w, op).s.nextHandle == w.s.nextHandle + 1
  {
    match op {
      case Create(_, _, _, _, _) => CreateInherits(cfg, w, op);
      case Receive(_, _, _) => ReceiveInherits(cfg, w, op);
      case Poll(now) => PollInherits(cfg, w, now);
    }
    hide *;
  }

  lemma CreateInherits(cfg: Settings, w: World, op: Op)
    requires WorldInv(w) && op.Create?
    ensures
      var w' := Step(cfg, w, op);
      && Inherited(w, w', op) && w'.s.nextHandle >= w.s.nextHandle
      && (op.tid !in w.s.tidToHandle ==> w'.s.nextHandle == w.s.nextHandle + 1)
  {
    KnownHandlesOnly(w.s);
    hide Inv, Timeout, Insert;
  }

  lemma ReceiveInherits(cfg: Settings, w: World, op: Op)
    requires op.Receive?
    ensures Inherited(w, Step(cfg, w, op), op) && Step(cfg, w, op).s.nextHandle == w.s.nextHandle
  {
    hide Accept, OutcomeOf, Learn, Verdict, Lesson;
  }

  lemma PollInherits(cfg: Settings, w: World, now: int)
    ensures Inherited(w, Step(cfg, w, Poll(now)), Poll(now)) && Step(cfg, w, Poll(now)).s.nextHandle == w.s.nextHandle
  {
    DrainSame(cfg, w.s, now);
    DrainKeeps(cfg, w.s, now);
    hide Drain;
  }

  lemma RunStep(cfg: Settings, ops: seq<Op>, k: nat)
    requires k < |ops|
    ensures Run(cfg, ops[..k + 1]) == Step(cfg, Run(cfg, ops[..k]), ops[k])
  {
    hide Step;
    assert ops[..k + 1][..k] == ops[..k];
  }

  lemma CreatedEarlier(cfg: Settings, ops: seq<Op>, k: nat, j: nat, h: Handle)
    requires k <= |ops| && CreatedBy(cfg, ops[..k], j, h)
    ensures CreatedBy(cfg, ops, j, h) && j < k && ops[..k][j] == ops[j]
  {
    hide Run;
    assert ops[..k][..j] == ops[..j];
  }

  /** In every run, every live transaction was started by a call, and holds the id, bytes, path
      and credentials that call gave it: they never change. */
  lemma {:induction false} LiveFromCreate(cfg: Settings, ops: seq<Op>, h: Handle) returns (j: nat)
    requires h in Run(cfg, ops).s.tmap
    ensures CreatedBy(cfg, ops, j, h) && HoldsWhat(Run(cfg, ops).s.tmap[h], ops[j])
  {
    var n := |ops| - 1;
    assert ops != [];
    var before, op := ops[..n], ops[n];
    RunInv(cfg, before);
    var w := Run(cfg, before);
    StepInherits(cfg, w, op);
    hide Step, WorldInv;
    if h in w.s.tmap && Same(w.s.tmap[h], Run(cfg, ops).s.tmap[h]) {
      j := LiveFromCreate(cfg, before, h);
      CreatedEarlier(cfg, ops, n, j, h);
    } else {
      j := n;
    }
  }

  lemma {:induction false} HandlesGrow(cfg: Settings, ops: seq<Op>, j: nat, k: nat)
    requires j <= k <= |ops|
    ensures Run(cfg, ops[..j]).s.nextHandle <= Run(cfg, ops[..k]).s.nextHandle
    decreases k - j
  {
    hide *;
    if j < k {
      HandlesGrow(cfg, ops, j, k - 1);
      RunStep(cfg, ops, k - 1);
      RunInv(cfg, ops[..k - 1]);
      StepInherits(cfg, Run(cfg, ops[..k - 1]), ops[k - 1]);
    }
  }

  /** A handle is given out once. */
  lemma CreatedOnce(cfg: Settings, ops: seq<Op>, i: nat, j: nat, h: Handle)
    requires CreatedBy(cfg, ops, i, h) && CreatedBy(cfg, ops, j, h)
    ensures i == j
  {
    var a, b := if i < j then i else j, if i < j then j else i;
    hide Run;
    if a < b {
      RunInv(cfg, ops[..a]);
      RunStep(cfg, ops, a);
      StepInherits(cfg, Run(cfg, ops[..a]), ops[a]);
      HandlesGrow(cfg, ops, a + 1, b);
      assert false;
    }
  }

  /** A request that firing timers adds is the one its transaction holds. */
  lemma {:induction false} DrainSends(cfg: Settings, s: State, now: int, e: Effect)
    requires e in Drain(cfg, s, now).effects && e.SendData?
    ensures e in s.effects || (e.handle in s.tmap && e.data == s.tmap[e.handle].data)
    decreases Work(cfg, s.tmap, s.timeline, now)
  {
    hide Work, Insert, Advance;
    if TimerDue(s, now) {
      FireSpends(cfg, s, now);
      DrainSends(cfg, Fire(cfg, s, now), now, e);
    }
  }

  lemma StepSends(cfg: Settings, w: World, op: Op, e: Effect)
    requires WorldInv(w) && e.SendData? && e in History(Step(cfg, w, op)) && e !in History(w)
    ensures
      || (e.handle in w.s.tmap && e.data == w.s.tmap[e.handle].data)
      || (op.Create? && op.tid !in w.s.tidToHandle && e == SendData(w.s.nextHandle, op.data))
  {
    match op {
      case Create(_, _, _, _, _) =>
        KnownHandlesOnly(w.s);
        hide Inv, Timeout, Insert;
      case Receive(_, _, _) => ReceiveTells(cfg, w, op, e);
      case Poll(now) =>
        PollHistory(cfg, w, now);
        if e in Drain(cfg, w.s, now).effects {
          DrainSends(cfg, w.s, now, e);
        }
        hide Drain;
    }
  }

  /** In every run, every request handed out or queued, first or repeated, is the one that the call
      which created its transaction gave. */
  lemma {:induction false} SendsTheRequest(cfg: Settings, ops: seq<Op>, e: Effect) returns (j: nat)
    requires e.SendData? && e in History(Run(cfg, ops))
    ensures CreatedBy(cfg, ops, j, e.handle) && e.data == ops[j].data
  {
    assert ops != [];
    var n := |ops| - 1;
    var before, op := ops[..n], ops[n];
    RunInv(cfg, before);
    assert Run(cfg, ops) == Step(cfg, Run(cfg, before), op);
    hide Run, Step, WorldInv, History;
    var w := Run(cfg, before);
    if e in History(w) {
      j := SendsTheRequest(cfg, before, e);
      CreatedEarlier(cfg, ops, n, j, e.handle);
    } else {
      StepSends(cfg, w, op, e);
      if e.handle in w.s.tmap && e.data == w.s.tmap[e.handle].data {
        j := LiveFromCreate(cfg, before, e.handle);
        CreatedEarlier(cfg, ops, n, j, e.handle);
      } else {
        j := n;
      }
    }
  }

  // ---- Outcomes, lessons, retries ----

  lemma {:induction false} DrainTells(cfg: Settings, s: State, now: int, e: Effect)
    requires e in Drain(cfg, s, now).effects
    ensures e in s.effects || e.SendData? || (e.TransactionFailed? && e.reason == TimedOut)
    decreases Work(cfg, s.tmap, s.timeline, now)
  {
    hide Work, Insert, Advance;
    if TimerDue(s, now) {
      FireSpends(cfg, s, now);
      DrainTells(cfg, Fire(cfg, s, now), now, e);
    }
  }

  /** Call k was a response whose outcome is this effect. */
  ghost predicate ToldBy(cfg: Settings, ops: seq<Op>, k: nat, e: Effect) {
    && k < |ops| && ops[k].Receive? && Terminal(e)
    && var v := Verdict(cfg, Run(cfg, ops[..k]).s, ops[k]);
       v.Some? && v.value.1.Finish? && v.value.1.effect == e && v.value.0 == e.handle
  }

  ghost predicate RetriedBy(cfg: Settings, ops: seq<Op>, k: nat, h: Handle) {
    && k < |ops| && ops[k].Receive?
    && var v := Verdict(cfg, Run(cfg, ops[..k]).s, ops[k]);
       v.Some? && v.value.1.Retry? && v.value.0 == h
  }

  ghost predicate TaughtBy(cfg: Settings, ops: seq<Op>, k: nat, l: Event) {
    k < |ops| && ops[k].Receive? && Lesson(cfg, Run(cfg, ops[..k]).s, ops[k]) == [l]
  }

  ghost predicate Reported(e: Effect) {
    Terminal(e) && e != TransactionFailed(e.handle, TimedOut)
  }

  /** What one call adds to the history, the lessons and the retries. */
  lemma StepTells(cfg: Settings, w: World, op: Op, e: Effect)
    requires WorldInv(w) && Reported(e) && e in History(Step(cfg, w, op)) && e !in History(w)
    ensures op.Receive?
    ensures
      var v := Verdict(cfg, w.s, op);
      v.Some? && v.value.1.Finish? && v.value.1.effect == e && v.value.0 == e.handle
  {
    match op {
      case Create(_, _, _, _, _) =>
        hide Inv, Timeout, Insert;
      case Receive(_, _, _) => ReceiveTells(cfg, w, op, e);
      case Poll(now) =>
        PollHistory(cfg, w, now);
        if e in Drain(cfg, w.s, now).effects {
          DrainTells(cfg, w.s, now, e);
        }
        hide Drain;
    }
  }

  lemma ReceiveTells(cfg: Settings, w: World, op: Op, e: Effect)
    requires WorldInv(w) && op.Receive? && e in History(Step(cfg, w, op)) && e !in History(w)
    ensures
      var v := Verdict(cfg, w.s, op);
      v.Some? && v.value.1.Finish? && v.value.1.effect == e && v.value.0 == e.handle
  {
    var v := Verdict(cfg, w.s, op);
    if v.Some? {
      OwnHandle(w.s, v.value.0);
    }
    hide Inv, Accept, OutcomeOf, Learn;
  }

  /** In every run, every outcome but a timeout is what some response said about a transaction
      then live. */
  lemma {:induction false} OutcomeFromResponse(cfg: Settings, ops: seq<Op>, e: Effect) returns (k: nat)
    requires Reported(e) && e in History(Run(cfg, ops))
    ensures ToldBy(cfg, ops, k, e)
  {
    assert ops != [];
    var n := |ops| - 1;
    var before, op := ops[..n], ops[n];
    RunInv(cfg, before);
    assert Run(cfg, ops) == Step(cfg, Run(cfg, before), op);
    hide *;
    if e in History(Run(cfg, before)) {
      k := OutcomeFromResponse(cfg, before, e);
      ToldEarlier(cfg, ops, n, k, e);
    } else {
      StepTells(cfg, Run(cfg, before), op, e);
      k := n;
      ToldLast(cfg, ops, e);
    }
  }

  lemma ToldEarlier(cfg: Settings, ops: seq<Op>, n: nat, k: nat, e: Effect)
    requires n <= |ops| && ToldBy(cfg, ops[..n], k, e)
    ensures ToldBy(cfg, ops, k, e) && k < n
  {
    hide Run, Verdict;
    assert ops[..n][..k] == ops[..k] && ops[..n][k] == ops[k];
  }

  lemma ToldLast(cfg: Settings, ops: seq<Op>, e: Effect)
    requires ops != [] && ops[|ops| - 1].Receive? && Reported(e)
    requires
      var n := |ops| - 1;
      var v := Verdict(cfg, Run(cfg, ops[..n]).s, ops[n]);
      v.Some? && v.value.1.Finish? && v.value.1.effect == e && v.value.0 == e.handle
    ensures ToldBy(cfg, ops, |ops| - 1, e)
  {
    hide Run, Verdict;
  }

  lemma {:induction false} LessonFromResponse(cfg: Settings, ops: seq<Op>, l: Event) returns (k: nat)
    requires l in Run(cfg, ops).lessons
    ensures TaughtBy(cfg, ops, k, l)
  {
    assert ops != [];
    var n := |ops| - 1;
    var before, op := ops[..n], ops[n];
    var w := Run(cfg, before);
    if l in w.lessons {
      k := LessonFromResponse(cfg, before, l);
      hide Run, Lesson;
      assert before[..k] == ops[..k] && before[k] == ops[k];
    } else {
      hide Verdict, Respond, Next, StartTransaction;
      k := n;
    }
  }

  lemma {:induction false} RetryFromResponse(cfg: Settings, ops: seq<Op>, h: Handle) returns (k: nat)
    requires h in Run(cfg, ops).retries
    ensures RetriedBy(cfg, ops, k, h)
  {
    assert ops != [];
    var n := |ops| - 1;
    var before, op := ops[..n], ops[n];
    var w := Run(cfg, before);
    if h in w.retries {
      k := RetryFromResponse(cfg, before, h);
      hide Run, Verdict;
      assert before[..k] == ops[..k] && before[k] == ops[k];
    } else {
      hide Verdict, Respond, Next, StartTransaction, Lesson;
      k := n;
    }
  }

  // ---- Authenticated transactions ----

  /** Call k was a response that answers the request of call j and carries the digest that its
      key produces over the bytes received. */
  ghost predicate SignedFor(cfg: Settings, ops: seq<Op>, k: nat, j: nat) {
    && j < k < |ops| && ops[j].Create? && ops[j].auth.Some? && ops[k].Receive?
    && var r := MessageOf(ops[k].view, ops[k].given);
       r.Ok? && r.value.header.tid == ops[j].tid
       && IsValid(r.value, ops[k].view, ops[j].auth.value.integrity) == Ok(Some(true))
  }

  /** An outcome that may have done good: it reports success, teaches, or grants a retry. */
  predicate Counts(o: Outcome) {
    o.Retry? || (o.Finish? && (o.learns || o.effect.TransactionOk?))
  }

  /** The response is an unsigned redirect, and the client was told to follow those. */
  ghost predicate Redirect(cfg: Settings, op: Op) {
    && cfg.allowUnauthenticatedAlternate && op.Receive?
    && MessageOf(op.view, op.given).Ok? && IsAlternateServer(MessageOf(op.view, op.given).value)
  }

  lemma AcceptedIsSigned(cfg: Settings, s: State, op: Op)
    requires Inv(s) && op.Receive? && Verdict(cfg, s, op).Some?
    ensures
      var (h, o) := Verdict(cfg, s, op).value;
      var t, r := s.tmap[h], MessageOf(op.view, op.given);
      && r.Ok? && r.value.header.tid == t.tid
      && (t.auth.Some? ==>
            IsValid(r.value, op.view, t.auth.value.integrity) == Ok(Some(true)) || (Redirect(cfg, op) && !Counts(o)))
  {
    OnlySigned(cfg, s, op.now, op.view, op.given);
    hide ParseMessage, IsValid, UnknownRequired, OutcomeOf;
  }

  /** In every run, whatever arrives, an authenticated transaction is affected only by responses
      to it that its own key signed, or made to fail by a permitted redirect: every success,
      retry and lesson is signed. */
  lemma OnlySignedCounts(cfg: Settings, ops: seq<Op>, j: nat, h: Handle, k: nat)
    requires CreatedBy(cfg, ops, j, h) && ops[j].auth.Some? && k < |ops| && ops[k].Receive?
    requires
      var v := Verdict(cfg, Run(cfg, ops[..k]).s, ops[k]);
      v.Some? && v.value.0 == h
    ensures
      var o := Verdict(cfg, Run(cfg, ops[..k]).s, ops[k]).value.1;
      SignedFor(cfg, ops, k, j) || (Redirect(cfg, ops[k]) && !Counts(o))
  {
    RunInv(cfg, ops[..k]);
    var s := Run(cfg, ops[..k]).s;
    assert Inv(s);
    hide *;
    AcceptedIsSigned(cfg, s, ops[k]);
    var i := LiveFromCreate(cfg, ops[..k], h);
    CreatedEarlier(cfg, ops, k, i, h);
    CreatedOnce(cfg, ops, i, j, h);
    SignedFrom(cfg, ops, k, j, s.tmap[h], Verdict(cfg, s, ops[k]).value.1);
  }

  lemma SignedFrom(cfg: Settings, ops: seq<Op>, k: nat, j: nat, t: Transaction, o: Outcome)
    requires j < k < |ops| && ops[k].Receive? && HoldsWhat(t, ops[j]) && ops[j].auth.Some?
    requires
      var r := MessageOf(ops[k].view, ops[k].given);
      && r.Ok? && r.value.header.tid == t.tid
      && (t.auth.Some? ==>
            IsValid(r.value, ops[k].view, t.auth.value.integrity) == Ok(Some(true))
              || (Redirect(cfg, ops[k]) && !Counts(o)))
    ensures SignedFor(cfg, ops, k, j) || (Redirect(cfg, ops[k]) && !Counts(o))
  {
    hide MessageOf, IsValid, Redirect, Counts;
  }

  /** The response of one call is a message that answers the request of the other and that its
      transaction trusts. */
  ghost predicate Answers(cfg: Settings, create: Op, receive: Op)
    requires create.Create? && receive.Receive?
  {
    exists m :: Taken(receive.view, receive.given, m) && m.header.tid == create.tid
      && Trusted(cfg, create.auth, m, receive.view)
  }

  /** A transaction live at some call holds what the call that created it gave. */
  lemma LiveHolds(cfg: Settings, ops: seq<Op>, j: nat, h: Handle, k: nat)
    requires CreatedBy(cfg, ops, j, h) && k < |ops| && h in Run(cfg, ops[..k]).s.tmap
    ensures j < k && HoldsWhat(Run(cfg, ops[..k]).s.tmap[h], ops[j])
  {
    assert k < |ops|;
    hide *;
    var i := LiveFromCreate(cfg, ops[..k], h);
    CreatedEarlier(cfg, ops, k, i, h);
    CreatedOnce(cfg, ops, i, j, h);
  }

  lemma VerdictExact(cfg: Settings, s: State, op: Op, h: Handle, create: Op)
    requires Inv(s) && op.Receive? && create.Create? && (h in s.tmap ==> HoldsWhat(s.tmap[h], create))
    ensures
      var v := Verdict(cfg, s, op);
      v.Some? && v.value.0 == h <==> h in s.tmap && Answers(cfg, create, op)
  {
    hide Inv, Accept, OutcomeOf, Taken, Trusted;
    var v := Verdict(cfg, s, op);
    if v.Some? && v.value.0 == h {
      var m := Accept(cfg, s, op.view, op.given).value.1;
      AcceptExact(cfg, s, op.view, op.given, h, m);
    }
    if h in s.tmap && Answers(cfg, create, op) {
      var m :| Taken(op.view, op.given, m) && m.header.tid == create.tid && Trusted(cfg, create.auth, m, op.view);
      AcceptExact(cfg, s, op.view, op.given, h, m);
    }
  }

  /** In every run: a response is accepted for a transaction exactly when the transaction is live and
      the response is a message with the id of its request that its credentials trust. */
  lemma AnsweredExact(cfg: Settings, ops: seq<Op>, j: nat, h: Handle, k: nat)
    requires CreatedBy(cfg, ops, j, h) && k < |ops| && ops[k].Receive?
    ensures
      var s := Run(cfg, ops[..k]).s;
      var v := Verdict(cfg, s, ops[k]);
      v.Some? && v.value.0 == h <==> h in s.tmap && Answers(cfg, ops[j], ops[k])
  {
    RunInv(cfg, ops[..k]);
    var s := Run(cfg, ops[..k]).s;
    assert Inv(s) && ops[j].Create? && ops[k].Receive?;
    hide Run, Verdict, Inv, HoldsWhat, Answers, WorldInv;
    if h in s.tmap {
      LiveHolds(cfg, ops, j, h, k);
    }
    VerdictExact(cfg, s, ops[k], h, ops[j]);
  }

  /** In every run: what the caller is told about a message with the id of a live transaction's
      request, by the credentials the transaction was created with. */
  lemma ToldExact(cfg: Settings, ops: seq<Op>, j: nat, h: Handle, k: nat, m: Message)
    requires CreatedBy(cfg, ops, j, h) && k < |ops| && ops[k].Receive? && h in Run(cfg, ops[..k]).s.tmap
    requires Taken(ops[k].view, ops[k].given, m) && m.header.tid == ops[j].tid
    ensures
      var (s', r) := Client.Respond(cfg, Run(cfg, ops[..k]).s, ops[k].now, ops[k].view, ops[k].given);
      && (r == None <==> Trusted(cfg, ops[j].auth, m, ops[k].view))
      && (forall e :: r == Some(e) <==> Distrusted(cfg, ops[j].auth, m, ops[k].view, e))
      && (r.Some? ==> s' == Run(cfg, ops[..k]).s)
  {
    RunInv(cfg, ops[..k]);
    var s := Run(cfg, ops[..k]).s;
    assert Inv(s);
    hide Run, Inv, WorldInv, Client.Respond, Taken, Trusted, Distrusted;
    LiveHolds(cfg, ops, j, h, k);
    HeardExact(cfg, s, ops[k].now, ops[k].view, ops[k].given, h, m);
  }

  /** The same from what the caller sees: a success handed out or queued. */
  lemma SuccessIsSigned(cfg: Settings, ops: seq<Op>, j: nat, e: Effect) returns (k: nat)
    requires e.TransactionOk? && e in History(Run(cfg, ops)) && CreatedBy(cfg, ops, j, e.handle) && ops[j].auth.Some?
    ensures ToldBy(cfg, ops, k, e) && SignedFor(cfg, ops, k, j)
  {
    k := OutcomeFromResponse(cfg, ops, e);
    hide Run, History, Verdict, SignedFor;
    OnlySignedCounts(cfg, ops, j, e.handle, k);
  }

  lemma RetryIsSigned(cfg: Settings, ops: seq<Op>, j: nat, h: Handle) returns (k: nat)
    requires h in Run(cfg, ops).retries && CreatedBy(cfg, ops, j, h) && ops[j].auth.Some?
    ensures RetriedBy(cfg, ops, k, h) && SignedFor(cfg, ops, k, j)
  {
    k := RetryFromResponse(cfg, ops, h);
    hide Run, Verdict, SignedFor;
    OnlySignedCounts(cfg, ops, j, h, k);
  }

  /** Every lesson was taught by a response to some transaction, signed if that transaction was
      started with credentials. */
  lemma LessonIsSigned(cfg: Settings, ops: seq<Op>, l: Event) returns (k: nat, j: nat)
    requires l in Run(cfg, ops).lessons
    ensures TaughtBy(cfg, ops, k, l) && j < k && ops[j].Create?
    ensures ops[j].auth.Some? ==> SignedFor(cfg, ops, k, j)
  {
    k := LessonFromResponse(cfg, ops, l);
    TaughtVerdict(cfg, Run(cfg, ops[..k]).s, ops[k]);
    hide Run, Verdict, SignedFor, Lesson;
    var v := Verdict(cfg, Run(cfg, ops[..k]).s, ops[k]);
    j := LiveFromCreate(cfg, ops[..k], v.value.0);
    CreatedEarlier(cfg, ops, k, j, v.value.0);
    if ops[j].auth.Some? {
      OnlySignedCounts(cfg, ops, j, v.value.0, k);
    }
  }

  lemma TaughtVerdict(cfg: Settings, s: State, op: Op)
    requires op.Receive? && Lesson(cfg, s, op) != []
    ensures Verdict(cfg, s, op).Some? && Counts(Verdict(cfg, s, op).value.1)
  {
    hide Verdict;
  }

  /** Every retry in a run was granted on a 5xx error response to the transaction, and only while
      the transaction had been granted fewer than configured. */
  lemma RetryIsServerError(cfg: Settings, ops: seq<Op>, h: Handle) returns (k: nat)
    requires h in Run(cfg, ops).retries
    ensures RetriedBy(cfg, ops, k, h) && h in Run(cfg, ops[..k]).s.tmap
    ensures
      var r := MessageOf(ops[k].view, ops[k].given);
      && r.Ok? && r.value.header.cls == ErrorResponse
      && (exists code: nat :: HasCode(r.value, code) && 500 <= code < 600)
      && Run(cfg, ops[..k]).s.tmap[h].algo.n5xx < cfg.retransmit.serverErrorMax
  {
    k := RetryFromResponse(cfg, ops, h);
    hide Run, Verdict;
    RetryVerdict(cfg, Run(cfg, ops[..k]).s, ops[k]);
  }

  lemma RetryVerdict(cfg: Settings, s: State, op: Op)
    requires op.Receive? && Verdict(cfg, s, op).Some? && Verdict(cfg, s, op).value.1.Retry?
    ensures
      var h, r := Verdict(cfg, s, op).value.0, MessageOf(op.view, op.given);
      && r.Ok? && r.value.header.cls == ErrorResponse
      && (exists code: nat :: HasCode(r.value, code) && 500 <= code < 600)
      && s.tmap[h].algo.n5xx < cfg.retransmit.serverErrorMax
  {
    var h, m := Verdict(cfg, s, op).value.0, MessageOf(op.view, op.given).value;
    SuccessNeverRetries(cfg, s.tmap[h], op.now, m);
    if m.header.cls == ErrorResponse {
      ErrorExact(cfg, s.tmap[h], op.now, m);
    }
    hide ParseMessage, IsValid, SuccessOutcome, ErrorOutcome, HasCode;
  }

  lemma SuccessNeverRetries(cfg: Settings, t: Transaction, now: int, m: Message)
    ensures !SuccessOutcome(t, now, m).Retry?
  {
  }
}
