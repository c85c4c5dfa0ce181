/** The STUN client over UDP: its state and what create, response and next do to it. Time is an
    unbounded integer; handles are never reused. */
module Client {
  import opened Bytes
  import opened Hmac
  import opened Address
  import opened Header
  import opened Attributes
  import opened Messages
  import opened Parser
  import opened Rto
  import opened Retransmit

  type Handle = nat

  datatype ClientError =
    | NoIntegrityInResponse
    | DigestIsNotValid
    | TransactionNotFound
    | NoAddressInResponse
    | NoErrorCodeInResponse
    | NoAlternateServerInResponse
    | Unparsable(parse: ParseError)
    | HashError(hash: HashError)

  datatype Reason =
    | UnknownComprehensionRequired(unknown: seq<AttrType>)
    | UnknownAttributeReported(reported: seq<AttrType>)
    | AlternateServerGiven(server: Endpoint)
    | ErrorCodeReceived(code: Attribute)
    | Failed(error: ClientError)
    | TimedOut

  datatype Effect =
    | SendData(handle: Handle, data: Bytes)
    | TransactionOk(handle: Handle, result: Endpoint, response: Message, roundTrip: Maybe<int>)
    | TransactionFailed(handle: Handle, reason: Reason)
    | Sleep(duration: int)
    | Idle

  predicate Terminal(e: Effect) {
    e.TransactionOk? || e.TransactionFailed?
  }

  /** Effects that belong to a transaction. */
  predicate Proper(e: Effect) {
    e.SendData? || Terminal(e)
  }

  datatype Auth = Auth(username: Bytes, integrity: IntegrityData)

  datatype Transaction = Transaction(
    tid: TransactionId,
    hnd: Handle,
    data: Bytes,
    algo: Algo,
    path: Path,
    createTime: int,
    auth: Maybe<Auth>,
    rtxCount: nat)

  datatype Settings = Settings(
    useFingerprint: bool,
    retransmit: RetransmitSettings,
    rto: RtoSettings,
    allowUnauthenticatedAlternate: bool)

  /** A timer: when it fires, for which transaction. */
  datatype Due = Due(time: int, handle: Handle)

  datatype Stat = Stat(started: nat, success: nat, retransmits: nat)

  datatype State = State(
    nextHandle: Handle,
    tidToHandle: map<TransactionId, Handle>,
    tmap: map<Handle, Transaction>,
    timeline: seq<Due>,
    effects: seq<Effect>,
    rto: RtoState,
    stat: Stat)

  const INITIAL := State(0, map[], map[], [], [], NO_HISTORY, Stat(0, 0, 0))

  // ---- The timeline: a priority queue, kept as its elements in order ----

  predicate NotLater(a: Due, b: Due) {
    a.time < b.time || (a.time == b.time && a.handle <= b.handle)
  }

  ghost predicate Sorted(timeline: seq<Due>) {
    forall i, j :: 0 <= i < j < |timeline| ==> NotLater(timeline[i], timeline[j])
  }

  function Insert(timeline: seq<Due>, d: Due): (r: seq<Due>)
    ensures |r| == |timeline| + 1
  {
    if timeline == [] || NotLater(d, timeline[0]) then [d] + timeline
    else [timeline[0]] + Insert(timeline[1..], d)
  }

  /** Insertion puts the timer somewhere and leaves the others as they were. */
  lemma {:induction false} InsertAt(timeline: seq<Due>, d: Due) returns (k: nat)
    ensures k <= |timeline| && Insert(timeline, d) == timeline[..k] + [d] + timeline[k..]
    ensures forall i :: 0 <= i < k ==> !NotLater(d, timeline[i])
    ensures k < |timeline| ==> NotLater(d, timeline[k])
  {
    if timeline == [] || NotLater(d, timeline[0]) {
      k := 0;
      assert timeline[..0] + [d] + timeline[0..] == [d] + timeline;
    } else {
      var l := InsertAt(timeline[1..], d);
      k := l + 1;
      assert timeline[..k] == [timeline[0]] + timeline[1..][..l];
      assert timeline[k..] == timeline[1..][l..];
      assert [timeline[0]] + (timeline[1..][..l] + [d] + timeline[1..][l..]) == timeline[..k] + [d] + timeline[k..];
    }
  }

  lemma InsertSorted(timeline: seq<Due>, d: Due)
    requires Sorted(timeline)
    ensures Sorted(Insert(timeline, d))
  {
    var k := InsertAt(timeline, d);
    hide Insert;
  }

  lemma InsertMembers(timeline: seq<Due>, d: Due)
    ensures forall e :: e in Insert(timeline, d) <==> e == d || e in timeline
  {
    var k := InsertAt(timeline, d);
    hide Insert;
    assert timeline == timeline[..k] + timeline[k..];
  }

  // ---- create ----

  /** Skip values still in use. */
  function AllocateHandle(next: Handle, tmap: map<Handle, Transaction>): (h: Handle)
    ensures h >= next && h !in tmap
    ensures next !in tmap ==> h == next
    decreases |tmap|
  {
    if next in tmap then
      var smaller := tmap - {next};
      assert tmap.Keys == smaller.Keys + {next};
      assert |tmap| == |tmap.Keys| && |smaller| == |smaller.Keys|;
      var h := AllocateHandle(next + 1, smaller);
      h
    else next
  }

  /** Start a transaction whose request bytes have been built, under an unused id. */
  function StartTransaction(cfg: Settings, s: State, now: int, tid: TransactionId, data: Bytes, path: Path,
                            auth: Maybe<Auth>): State
  {
    var h := AllocateHandle(s.nextHandle, s.tmap);
    var algo := Init(NewAlgo(Timeout(cfg.rto, s.rto, path), now), now);
    s.(nextHandle := h + 1,
       tidToHandle := s.tidToHandle[tid := h],
       tmap := s.tmap[h := Transaction(tid, h, data, algo, path, now, auth, 0)],
       effects := s.effects + [SendData(h, data)],
       timeline := if algo.next.Some? then Insert(s.timeline, Due(algo.next.value, h)) else s.timeline,
       stat := s.stat.(started := s.stat.started + 1))
  }

  // ---- next ----

  /** One timer off the timeline: a live transaction sends again or times out; a timer of one
      that is gone is ignored. */
  function Fire(cfg: Settings, s: State, now: int): State
    requires s.timeline != []
  {
    var h := s.timeline[0].handle;
    var rest := s.timeline[1..];
    if h !in s.tmap then s.(timeline := rest)
    else
      var t := s.tmap[h];
      var algo := Advance(cfg.retransmit, t.algo, now);
      if algo.next.Some? then
        s.(timeline := Insert(rest, Due(algo.next.value, h)),
           tmap := s.tmap[h := t.(algo := algo, rtxCount := t.rtxCount + 1)],
           effects := s.effects + [SendData(h, t.data)],
           stat := s.stat.(retransmits := s.stat.retransmits + 1))
      else
        s.(timeline := rest,
           tmap := s.tmap[h := t.(algo := algo)],
           effects := s.effects + [TransactionFailed(h, TimedOut)])
  }

  predicate TimerDue(s: State, now: int) {
    s.timeline != [] && s.timeline[0].time <= now
  }

  /** How often one due timer can still fire in this call. */
  function Weight(cfg: Settings, tmap: map<Handle, Transaction>, d: Due, now: int): nat {
    if d.time > now then 0
    else if d.handle in tmap then 1 + Budget(cfg.retransmit, tmap[d.handle].algo)
    else 1
  }

  function Work(cfg: Settings, tmap: map<Handle, Transaction>, timeline: seq<Due>, now: int): nat {
    if timeline == [] then 0
    else Weight(cfg, tmap, timeline[0], now) + Work(cfg, tmap, timeline[1..], now)
  }

  lemma {:induction false} WorkInsert(cfg: Settings, tmap: map<Handle, Transaction>, timeline: seq<Due>, d: Due,
                                      now: int)
    ensures Work(cfg, tmap, Insert(timeline, d), now) == Work(cfg, tmap, timeline, now) + Weight(cfg, tmap, d, now)
  {
    hide Weight;
    if timeline == [] || NotLater(d, timeline[0]) {
      assert ([d] + timeline)[1..] == timeline;
    } else {
      WorkInsert(cfg, tmap, timeline[1..], d, now);
      assert ([timeline[0]] + Insert(timeline[1..], d))[1..] == Insert(timeline[1..], d);
    }
  }

  /** Budgets that do not grow do not make more work. */
  lemma {:induction false} WorkMonotone(cfg: Settings, tmap: map<Handle, Transaction>, h: Handle, t: Transaction,
                                        timeline: seq<Due>, now: int)
    requires h in tmap && Budget(cfg.retransmit, t.algo) <= Budget(cfg.retransmit, tmap[h].algo)
    ensures Work(cfg, tmap[h := t], timeline, now) <= Work(cfg, tmap, timeline, now)
  {
    if timeline != [] {
      WorkMonotone(cfg, tmap, h, t, timeline[1..], now);
    }
  }

  lemma FireSpends(cfg: Settings, s: State, now: int)
    requires TimerDue(s, now)
    ensures
      var s' := Fire(cfg, s, now);
      Work(cfg, s'.tmap, s'.timeline, now) < Work(cfg, s.tmap, s.timeline, now)
  {
    hide Insert;
    var h, rest := s.timeline[0].handle, s.timeline[1..];
    if h in s.tmap {
      var t := s.tmap[h];
      var algo := Advance(cfg.retransmit, t.algo, now);
      AdvanceSpends(cfg.retransmit, t.algo, now);
      if algo.next.Some? {
        var t' := t.(algo := algo, rtxCount := t.rtxCount + 1);
        WorkMonotone(cfg, s.tmap, h, t', rest, now);
        WorkInsert(cfg, s.tmap[h := t'], rest, Due(algo.next.value, h), now);
      } else {
        WorkMonotone(cfg, s.tmap, h, t.(algo := algo), rest, now);
      }
    }
  }

  /** Fire timers until none is due. */
  function Drain(cfg: Settings, s: State, now: int): State
    decreases Work(cfg, s.tmap, s.timeline, now)
  {
    if TimerDue(s, now) then
      FireSpends(cfg, s, now);
      Drain(cfg, Fire(cfg, s, now), now)
    else s
  }

  function Cleanup(s: State, h: Handle): State {
    if h in s.tmap then s.(tidToHandle := s.tidToHandle - {s.tmap[h].tid}, tmap := s.tmap - {h}) else s
  }

  /** Hand out the oldest effect; a terminal one also ends its transaction. */
  function Pop(s: State): State
    requires s.effects != []
  {
    var e := s.effects[0];
    var s' := s.(effects := s.effects[1..]);
    if Terminal(e) then Cleanup(s', e.handle) else s'
  }

  function Next(cfg: Settings, s: State, now: int): (State, Effect) {
    var s' := Drain(cfg, s, now);
    if s'.effects != [] then (Pop(s'), s'.effects[0])
    else if s'.timeline == [] then (s', Idle)
    else (s', Sleep(s'.timeline[0].time - now))
  }

  // ---- response ----

  /** What an authenticated response does to its transaction. */
  datatype Outcome =
    | Finish(effect: Effect, learns: bool)
    | Retry(algo: Algo)
    | Discard

  function FailWith(t: Transaction, r: Reason, learns: bool): Outcome {
    Finish(TransactionFailed(t.hnd, r), learns)
  }

  /** Karn's rule: a sample only if the request was sent once, else its last timeout. */
  function Learn(cfg: Settings, rto: RtoState, t: Transaction, now: int): RtoState {
    if t.rtxCount == 0 then NewRtt(cfg.rto, rto, now, t.path, now - t.createTime)
    else Backoff(cfg.rto, rto, now, t.path, t.algo.lastTimeout)
  }

  function SuccessOutcome(t: Transaction, now: int, m: Message): Outcome {
    var required := UnknownRequired(m.attrs.unknown);
    var known := m.attrs.known;
    if required != [] then FailWith(t, UnknownComprehensionRequired(required), false)
    else
      var roundTrip := if t.rtxCount == 0 then Some(now - t.createTime) else None;
      if XOR_MAPPED_ADDRESS in known && known[XOR_MAPPED_ADDRESS].XorMapped? then
        var a := known[XOR_MAPPED_ADDRESS];
        Finish(TransactionOk(t.hnd, Endpoint(ToAddress(a.xaddr, m.header.tid), a.xport), m, roundTrip), true)
      else if MAPPED_ADDRESS in known && known[MAPPED_ADDRESS].Mapped? then
        var a := known[MAPPED_ADDRESS];
        Finish(TransactionOk(t.hnd, Endpoint(a.addr, a.port), m, roundTrip), true)
      else FailWith(t, Failed(NoAddressInResponse), true)
  }

  function ErrorOutcome(cfg: Settings, t: Transaction, now: int, m: Message): Outcome {
    var required := UnknownRequired(m.attrs.unknown);
    var known := m.attrs.known;
    if required != [] then FailWith(t, UnknownComprehensionRequired(required), false)
    else if ERROR_CODE !in known || !known[ERROR_CODE].ErrorCode? then
      FailWith(t, Failed(NoErrorCodeInResponse), false)
    else if IsAlternateServer(m) then
      if ALTERNATE_SERVER in known && known[ALTERNATE_SERVER].AlternateServer? then
        var a := known[ALTERNATE_SERVER];
        FailWith(t, AlternateServerGiven(Endpoint(a.server, a.serverPort)), false)
      else FailWith(t, Failed(NoAlternateServerInResponse), false)
    else
      var ec := known[ERROR_CODE];
      if ec.code / 100 == 3 then FailWith(t, ErrorCodeReceived(ec), false)
      else if ec.code / 100 == 4 then
        if ec.code == 420 && UNKNOWN_ATTRIBUTES in known && known[UNKNOWN_ATTRIBUTES].UnknownAttributes?
        then FailWith(t, UnknownAttributeReported(known[UNKNOWN_ATTRIBUTES].types), false)
        else FailWith(t, ErrorCodeReceived(ec), false)
      else if ec.code / 100 == 5 then
        match Process5xx(cfg.retransmit, t.algo, now)
        case Some(algo) => Retry(algo)
        case None => FailWith(t, ErrorCodeReceived(ec), false)
      else Discard
  }

  function OutcomeOf(cfg: Settings, t: Transaction, now: int, m: Message): (o: Outcome)
    ensures o.Finish? ==>
      Terminal(o.effect) && o.effect.handle == t.hnd && o.effect != TransactionFailed(t.hnd, TimedOut)
    ensures o.Finish? && o.learns ==> m.header.cls == SuccessResponse
    ensures o.Retry? ==> Process5xx(cfg.retransmit, t.algo, now) == Some(o.algo)
  {
    if m.header.cls == SuccessResponse then SuccessOutcome(t, now, m)
    else if m.header.cls == ErrorResponse then ErrorOutcome(cfg, t, now, m)
    else Discard
  }

  /** A response to an authenticated transaction must be signed with the same key; an unsigned
      one passes only as a permitted redirect. */
  function CheckAuth(cfg: Settings, t: Transaction, m: Message, view: Bytes): Maybe<ClientError> {
    if t.auth.None? then None
    else match IsValid(m, view, t.auth.value.integrity)
      case Err(e) => Some(HashError(e))
      case Ok(Some(true)) => None
      case Ok(Some(false)) => Some(DigestIsNotValid)
      case Ok(None) =>
        if cfg.allowUnauthenticatedAlternate && IsAlternateServer(m) then None else Some(NoIntegrityInResponse)
  }

  function MessageOf(view: Bytes, given: Maybe<Message>): Result<Message, ClientError> {
    if given.Some? then Ok(given.value)
    else match ParseMessage(view) case Ok(m) => Ok(m) case Err(e) => Err(Unparsable(e))
  }

  function FindTransaction(s: State, tid: TransactionId): Maybe<Handle> {
    if tid in s.tidToHandle && s.tidToHandle[tid] in s.tmap then Some(s.tidToHandle[tid]) else None
  }

  /** The live transaction a response belongs to, once it has passed its checks, and the message. */
  function Accept(cfg: Settings, s: State, view: Bytes,
                  given: Maybe<Message>): (r: Result<(Handle, Message), ClientError>)
    ensures r.Ok? ==> r.value.0 in s.tmap
  {
    hide ParseMessage, IsValid;
    match MessageOf(view, given)
    case Err(e) => Err(e)
    case Ok(m) =>
      match FindTransaction(s, m.header.tid)
      case None => Err(TransactionNotFound)
      case Some(h) =>
        match CheckAuth(cfg, s.tmap[h], m, view)
        case Some(e) => Err(e)
        case None => Ok((h, m))
  }

  function Apply(cfg: Settings, s: State, now: int, h: Handle, o: Outcome): State
    requires h in s.tmap
  {
    match o
    case Finish(e, learns) =>
      s.(effects := s.effects + [e],
         rto := if learns then Learn(cfg, s.rto, s.tmap[h], now) else s.rto,
         stat := if e.TransactionOk? then s.stat.(success := s.stat.success + 1) else s.stat)
    case Retry(algo) => s.(tmap := s.tmap[h := s.tmap[h].(algo := algo)])
    case Discard => s
  }

  function Respond(cfg: Settings, s: State, now: int, view: Bytes, given: Maybe<Message>): (State, Maybe<ClientError>) {
    hide Accept, OutcomeOf;
    match Accept(cfg, s, view, given)
    case Err(e) => (s, Some(e))
    case Ok((h, m)) => (Apply(cfg, s, now, h, OutcomeOf(cfg, s.tmap[h], now, m)), None)
  }
}
