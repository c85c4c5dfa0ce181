/** What a response means for its transaction (sections 6.3.3 and 6.3.4 of RFC 8489), and which
    responses an authenticated transaction listens to. */
module Responses {
  import opened Bytes
  import opened Address
  import opened Header
  import opened Attributes
  import opened Messages
  import opened Parser
  import opened Received
  import opened Hmac
  import opened Client
  import opened ClientInvariant

  ghost predicate Carries(m: Message, t: AttrType) {
    t in m.attrs.known && TypeOf(m.attrs.known[t]) == t
  }

  /** The code of an error response that can be made sense of. */
  ghost predicate HasCode(m: Message, code: nat) {
    m.header.cls == ErrorResponse && Understood(m) && Carries(m, ERROR_CODE) && m.attrs.known[ERROR_CODE].code == code
  }

  /** The address a response reports: the masked form if it is there, else the plain one. */
  ghost predicate Reports(m: Message, ep: Endpoint) {
    if Carries(m, XOR_MAPPED_ADDRESS) then
      var a := m.attrs.known[XOR_MAPPED_ADDRESS];
      FromAddress(ep.address, m.header.tid) == a.xaddr && ep.port == a.xport
    else
      Carries(m, MAPPED_ADDRESS) && m.attrs.known[MAPPED_ADDRESS] == Mapped(ep.address, ep.port)
  }

  ghost predicate FailsWith(o: Outcome, t: Transaction, r: Reason) {
    o.Finish? && o.effect == TransactionFailed(t.hnd, r)
  }

  /** A success response succeeds exactly with the address it reports; it teaches the timeout
      calculator exactly when it is understood. */
  lemma SuccessExact(cfg: Settings, t: Transaction, now: int, m: Message, ep: Endpoint)
    requires m.header.cls == SuccessResponse
    ensures
      var o := OutcomeOf(cfg, t, now, m);
      && o.Finish? && (o.learns <==> Understood(m))
      && (o.effect.TransactionOk? && o.effect.result == ep <==> Understood(m) && Reports(m, ep))
      && (o.effect.TransactionOk? ==>
            && o.effect.handle == t.hnd && o.effect.response == m
            && o.effect.roundTrip == if t.rtxCount == 0 then Some(now - t.createTime) else None)
      && (FailsWith(o, t, Failed(NoAddressInResponse))
          <==> Understood(m) && !Carries(m, XOR_MAPPED_ADDRESS) && !Carries(m, MAPPED_ADDRESS))
      && (FailsWith(o, t, UnknownComprehensionRequired(UnknownRequired(m.attrs.unknown))) <==> !Understood(m))
  {
    hide FromAddress, ToAddress, UnknownRequired;
    if Carries(m, XOR_MAPPED_ADDRESS) {
      var x := m.attrs.known[XOR_MAPPED_ADDRESS].xaddr;
      XoredRoundTrip(ep.address, x, m.header.tid);
      XoredRoundTrip(ToAddress(x, m.header.tid), x, m.header.tid);
    }
  }

  /** An error response ends the transaction unless its code is a 5xx that may still be retried,
      or is none the client knows what to do with; only the former gives it another deadline. */
  lemma ErrorExact(cfg: Settings, t: Transaction, now: int, m: Message)
    requires m.header.cls == ErrorResponse
    ensures
      var o := OutcomeOf(cfg, t, now, m);
      var mayRetry := cfg.retransmit.serverErrorTimeout.Some? && t.algo.n5xx < cfg.retransmit.serverErrorMax;
      && (o.Retry? <==> (exists code: nat :: HasCode(m, code) && 500 <= code < 600) && mayRetry)
      && (o.Retry? ==>
            o.algo == t.algo.(n5xx := t.algo.n5xx + 1, next := Some(now + cfg.retransmit.serverErrorTimeout.value)))
      && (o.Discard? <==> exists code: nat :: HasCode(m, code) && (code < 300 || 600 <= code))
      && (o.Finish? ==> o.effect.TransactionFailed? && !o.learns)
      && (FailsWith(o, t, UnknownComprehensionRequired(UnknownRequired(m.attrs.unknown))) <==> !Understood(m))
      && (FailsWith(o, t, Failed(NoErrorCodeInResponse)) <==> Understood(m) && !Carries(m, ERROR_CODE))
      && (FailsWith(o, t, Failed(NoAlternateServerInResponse)) <==> HasCode(m, 300) && !Carries(m, ALTERNATE_SERVER))
      && (Carries(m, ERROR_CODE) ==>
            (FailsWith(o, t, ErrorCodeReceived(m.attrs.known[ERROR_CODE])) <==>
               exists code: nat :: HasCode(m, code)
                 && (300 < code < 400
                     || (400 <= code < 500 && !(code == 420 && Carries(m, UNKNOWN_ATTRIBUTES)))
                     || (500 <= code < 600 && !mayRetry))))
      && (forall ep: Endpoint :: FailsWith(o, t, AlternateServerGiven(ep)) <==>
            HasCode(m, 300) && Carries(m, ALTERNATE_SERVER)
            && m.attrs.known[ALTERNATE_SERVER] == AlternateServer(ep.address, ep.port))
      && (forall types :: FailsWith(o, t, UnknownAttributeReported(types)) <==>
            HasCode(m, 420) && Carries(m, UNKNOWN_ATTRIBUTES)
            && m.attrs.known[UNKNOWN_ATTRIBUTES] == UnknownAttributes(types))
  {
    hide UnknownRequired;
    if Understood(m) && Carries(m, ERROR_CODE) {
      var code := m.attrs.known[ERROR_CODE].code;
      assert HasCode(m, code);
      Hundreds(code);
    }
  }

  lemma Hundreds(code: nat)
    ensures code / 100 == 3 <==> 300 <= code < 400
    ensures code / 100 == 4 <==> 400 <= code < 500
    ensures code / 100 == 5 <==> 500 <= code < 600
  {
  }

  // ---- Which responses are heard ----

  /** The message is the one given, or else the one the datagram parses to. */
  ghost predicate Taken(view: Bytes, given: Maybe<Message>, m: Message) {
    given == Some(m) || (given == None && ParseMessage(view) == Ok(m))
  }

  /** The transaction is live and the message carries its id. */
  ghost predicate Waits(s: State, h: Handle, m: Message) {
    h in s.tmap && s.tmap[h].tid == m.header.tid
  }

  /** A redirect to another server: an error response with code 300. */
  ghost predicate TryAlternate(m: Message) {
    m.header.cls == ErrorResponse && Carries(m, ERROR_CODE) && m.attrs.known[ERROR_CODE].code == 300
  }

  /** A redirect that the settings say to follow without a digest. */
  ghost predicate FreeRedirect(cfg: Settings, m: Message, view: Bytes) {
    cfg.allowUnauthenticatedAlternate && TryAlternate(m) && !Checkable(m, view)
  }

  /** What a transaction believes: without credentials everything, with credentials what its key
      signed, and unsigned redirects if the settings allow them. */
  ghost predicate Trusted(cfg: Settings, auth: Maybe<Auth>, m: Message, view: Bytes) {
    auth.None? || SignedBy(m, view, auth.value.integrity) || FreeRedirect(cfg, m, view)
  }

  /** Why a message is not trusted. */
  ghost predicate Distrusted(cfg: Settings, auth: Maybe<Auth>, m: Message, view: Bytes, e: ClientError) {
    && auth.Some?
    && match e
       case HashError(x) => Checkable(m, view) && DigestOver(m, view, auth.value.integrity) == Err(x)
       case DigestIsNotValid =>
         Checkable(m, view) && DigestOver(m, view, auth.value.integrity).Ok? && !SignedBy(m, view, auth.value.integrity)
       case NoIntegrityInResponse => !Checkable(m, view) && !FreeRedirect(cfg, m, view)
       case _ => false
  }

  lemma CheckExact(cfg: Settings, t: Transaction, m: Message, view: Bytes)
    ensures CheckAuth(cfg, t, m, view) == None <==> Trusted(cfg, t.auth, m, view)
    ensures forall e :: CheckAuth(cfg, t, m, view) == Some(e) <==> Distrusted(cfg, t.auth, m, view, e)
  {
    hide IsValid, SignedBy, Checkable, DigestOver;
    if t.auth.Some? {
      ValidExact(m, view, t.auth.value.integrity);
      SignedIsCheckable(m, view, t.auth.value.integrity);
    }
  }

  lemma SignedIsCheckable(m: Message, view: Bytes, i: IntegrityData)
    ensures SignedBy(m, view, i) ==> Checkable(m, view) && DigestOver(m, view, i).Ok?
  {
    hide DigestOver;
  }

  lemma FindExact(s: State, m: Message)
    requires Inv(s)
    ensures forall h: Handle :: FindTransaction(s, m.header.tid) == Some(h) <==> Waits(s, h, m)
    ensures FindTransaction(s, m.header.tid) == None <==> forall h: Handle :: !Waits(s, h, m)
  {
    var found := FindTransaction(s, m.header.tid);
    if found.None? {
      forall h ensures !Waits(s, h, m) {
        if h in s.tmap {
          assert s.tmap[h].tid in s.tidToHandle;
        }
      }
    } else {
      assert Waits(s, found.value, m);
    }
  }

  lemma TakenExact(view: Bytes, given: Maybe<Message>)
    ensures forall m :: MessageOf(view, given) == Ok(m) <==> Taken(view, given, m)
    ensures forall e :: MessageOf(view, given) == Err(e) <==>
      given == None && e.Unparsable? && ParseMessage(view) == Err(e.parse)
  {
    hide ParseMessage;
  }

  /** A response is accepted for a transaction exactly when it is a message, the transaction is live
      and has its id, and the transaction trusts it. */
  lemma AcceptExact(cfg: Settings, s: State, view: Bytes, given: Maybe<Message>, h: Handle, m: Message)
    requires Inv(s)
    ensures Accept(cfg, s, view, given) == Ok((h, m))
            <==> Taken(view, given, m) && Waits(s, h, m) && Trusted(cfg, s.tmap[h].auth, m, view)
  {
    hide MessageOf, Taken, FindTransaction, CheckAuth, Waits, Trusted, Distrusted, Inv;
    TakenExact(view, given);
    FindExact(s, m);
    if Waits(s, h, m) {
      WaitsLive(s, h, m);
      CheckExact(cfg, s.tmap[h], m, view);
    }
  }

  lemma WaitsLive(s: State, h: Handle, m: Message)
    requires Waits(s, h, m)
    ensures h in s.tmap
  {
  }

  /** And refused with an error exactly for the reason the error names. */
  ghost predicate Refused(cfg: Settings, s: State, view: Bytes, given: Maybe<Message>, e: ClientError) {
    match e
    case Unparsable(x) => given == None && ParseMessage(view) == Err(x)
    case TransactionNotFound => exists m :: Taken(view, given, m) && forall h :: !Waits(s, h, m)
    case _ => exists m, h :: Taken(view, given, m) && Waits(s, h, m) && Distrusted(cfg, s.tmap[h].auth, m, view, e)
  }

  lemma RefusedExact(cfg: Settings, s: State, view: Bytes, given: Maybe<Message>, e: ClientError)
    requires Inv(s)
    ensures Accept(cfg, s, view, given) == Err(e) <==> Refused(cfg, s, view, given, e)
  {
    hide MessageOf, Taken, FindTransaction, CheckAuth, Waits, Distrusted, Trusted, Inv, ParseMessage;
    TakenExact(view, given);
    if MessageOf(view, given).Ok? {
      var m := MessageOf(view, given).value;
      FindExact(s, m);
      if FindTransaction(s, m.header.tid).Some? {
        var h := FindTransaction(s, m.header.tid).value;
        WaitsLive(s, h, m);
        CheckExact(cfg, s.tmap[h], m, view);
        NotDistrusted(cfg, s.tmap[h].auth, m, view);
      }
    }
  }

  lemma NotDistrusted(cfg: Settings, auth: Maybe<Auth>, m: Message, view: Bytes)
    ensures forall x :: !Distrusted(cfg, auth, m, view, Unparsable(x))
    ensures !Distrusted(cfg, auth, m, view, TransactionNotFound)
  {
  }

  /** What the caller is told about a message with the id of a live transaction: nothing exactly
      when the transaction trusts it, else the reason it does not, and then nothing has changed. */
  lemma HeardExact(cfg: Settings, s: State, now: int, view: Bytes, given: Maybe<Message>, h: Handle, m: Message)
    requires Inv(s) && Taken(view, given, m) && Waits(s, h, m)
    ensures
      var (s', r) := Client.Respond(cfg, s, now, view, given);
      && (r == None <==> Trusted(cfg, s.tmap[h].auth, m, view))
      && (forall e :: r == Some(e) <==> Distrusted(cfg, s.tmap[h].auth, m, view, e))
      && (r.Some? ==> s' == s)
  {
    hide MessageOf, Taken, FindTransaction, CheckAuth, Waits, Trusted, Distrusted, Inv, Apply, OutcomeOf;
    TakenExact(view, given);
    FindExact(s, m);
    WaitsLive(s, h, m);
    CheckExact(cfg, s.tmap[h], m, view);
    AcceptedRespond(cfg, s, now, view, given);
  }

  lemma AcceptedRespond(cfg: Settings, s: State, now: int, view: Bytes, given: Maybe<Message>)
    ensures
      match Accept(cfg, s, view, given)
      case Err(e) => Client.Respond(cfg, s, now, view, given) == (s, Some(e))
      case Ok((h, m)) =>
        Client.Respond(cfg, s, now, view, given) == (Apply(cfg, s, now, h, OutcomeOf(cfg, s.tmap[h], now, m)), None)
  {
    hide Accept, Apply, OutcomeOf;
  }

  /** A trusted redirect that names its server ends the transaction with that server, signed or,
      where the settings allow it, not. */
  lemma RedirectFollowed(cfg: Settings, s: State, now: int, view: Bytes, given: Maybe<Message>, h: Handle, m: Message,
                         ep: Endpoint)
    requires Inv(s) && Taken(view, given, m) && Waits(s, h, m)
    requires TryAlternate(m) && Understood(m) && Trusted(cfg, s.tmap[h].auth, m, view)
    requires Carries(m, ALTERNATE_SERVER) && m.attrs.known[ALTERNATE_SERVER] == AlternateServer(ep.address, ep.port)
    ensures Client.Respond(cfg, s, now, view, given)
            == (s.(effects := s.effects + [TransactionFailed(h, AlternateServerGiven(ep))]), None)
  {
    AcceptExact(cfg, s, view, given, h, m);
    AcceptedRespond(cfg, s, now, view, given);
    ErrorExact(cfg, s.tmap[h], now, m);
    OwnHandle(s, h);
    hide Inv, Accept, OutcomeOf, Taken, Trusted, Understood;
    assert HasCode(m, 300);
    assert FailsWith(OutcomeOf(cfg, s.tmap[h], now, m), s.tmap[h], AlternateServerGiven(ep));
  }

  /** Whatever arrives, an authenticated transaction is affected only by a response whose digest
      its own key produces, or, where that is allowed, made to fail by an unsigned redirect. It
      never succeeds, learns or retries on anything else. */
  lemma OnlySigned(cfg: Settings, s: State, now: int, view: Bytes, given: Maybe<Message>)
    ensures
      match Accept(cfg, s, view, given)
      case Err(e) => Client.Respond(cfg, s, now, view, given) == (s, Some(e))
      case Ok((h, m)) =>
        s.tmap[h].auth.Some? ==>
          || IsValid(m, view, s.tmap[h].auth.value.integrity) == Ok(Some(true))
          || (cfg.allowUnauthenticatedAlternate && IsAlternateServer(m)
              && var o := OutcomeOf(cfg, s.tmap[h], now, m);
                 o.Finish? && o.effect.TransactionFailed? && !o.learns)
  {
    hide ParseMessage, IsValid, UnknownRequired;
  }
}
