/** Client, server and wire format together: a binding request comes back as the address the
    server saw. */
module EndToEnd {
  import opened Bytes
  import opened Hmac
  import opened Address
  import opened Header
  import opened Attributes
  import opened Messages
  import opened Builder
  import opened Parser
  import opened RoundTrip
  import opened Integrity
  import opened Rto
  import opened Client
  import opened ClientInvariant
  import opened Requests
  import opened Server
  import opened ServerAnswers
  import opened ClientRuns
  import opened Provenance
  import opened ClientUdp

  /** The client's credentials, if any, are registered at the server. */
  ghost predicate RegisteredAt(srv: ServerSettings, users: Users, auth: Maybe<Auth>) {
    auth.Some? ==>
      auth.value.username in users && auth.value.integrity == IntegrityData(users[auth.value.username], srv.sha1)
  }

  /** These are the bytes of the message, for this iteration order of its attribute map. */
  ghost predicate Writes(h: Header, s: AttributeSet, order: seq<AttrType>, i: Maybe<IntegrityData>, data: Bytes) {
    Enumerates(order, s) && BuildMessage(h, s, order, i) == Ok(data)
  }

  function PlainRequest(path: Path, auth: Maybe<Auth>): BindingRequest {
    BindingRequest(path, [], [], auth)
  }

  /** A request without caller attributes holds the user name and the wish for a fingerprint. */
  lemma PlainRequestSet(useFingerprint: bool, path: Path, auth: Maybe<Auth>)
    ensures
      var s := RequestSet(useFingerprint, PlainRequest(path, auth));
      && s.unknown == [] && AllRepresentable(s) && (forall t :: t in s.known ==> !LosesFamily(s.known[t]))
      && (USERNAME in s.known <==> auth.Some?)
      && (auth.Some? ==> s.known[USERNAME] == Username(auth.value.username))
      && MESSAGE_INTEGRITY !in s.known
  {
    assert Given(PlainRequest(path, auth)) == [];
  }

  /** A message of known attributes arrives as it was sent, and its digest checks out. */
  lemma Arrives(h: Header, s: AttributeSet, order: seq<AttrType>, i: Maybe<IntegrityData>, data: Bytes)
    requires WellTyped(s) && AllRepresentable(s) && s.unknown == [] && Writes(h, s, order, i, data)
    requires forall t :: t in s.known ==> !LosesFamily(s.known[t])
    requires |data| - HEADER_SIZE < 0x10000 && |h.tid| == 12
    ensures ParseMessage(data).Ok?
    ensures
      var m := ParseMessage(data).value;
      && Faithful(m, h, s) && !m.isRfc3489 && WellTyped(m.attrs)
      && (MESSAGE_INTEGRITY in m.attrs.known <==> i.Some?)
      && (i.Some? ==> IsValid(m, data, i.value) == Ok(Some(true)))
  {
    SurvivesShort(h, s);
    hide ParseMessage, BuildMessage, WellTyped, AllRepresentable, Unregistered, IdSurvives, LosesFamily, Enumerates,
      IsValid, Faithful;
    RoundTripExact(h, s, order, i, data);
    if i.Some? {
      IntegrityAgrees(h, s, order, i.value, i.value, data);
    }
  }

  lemma SurvivesShort(h: Header, s: AttributeSet)
    requires |h.tid| == 12 && s.unknown == []
    ensures IdSurvives(h) && Unregistered(s.unknown)
  {
  }

  /** What the server makes of the request's bytes. */
  ghost predicate Understandable(m: Message, data: Bytes, tid: TransactionId, auth: Maybe<Auth>) {
    && m.header == RequestHeader(tid) && !m.isRfc3489 && m.attrs.unknown == []
    && (auth.None? ==> USERNAME !in m.attrs.known && MESSAGE_INTEGRITY !in m.attrs.known)
    && (auth.Some? ==>
          && USERNAME in m.attrs.known && m.attrs.known[USERNAME] == Username(auth.value.username)
          && MESSAGE_INTEGRITY in m.attrs.known && m.attrs.known[MESSAGE_INTEGRITY].MessageIntegrity?
          && IsValid(m, data, auth.value.integrity) == Ok(Some(true)))
  }

  lemma RequestArrives(useFingerprint: bool, path: Path, auth: Maybe<Auth>, tid: TransactionId,
                       order: seq<AttrType>, data: Bytes)
    requires |tid| == 12 && |data| - HEADER_SIZE < 0x10000
    requires Writes(RequestHeader(tid), RequestSet(useFingerprint, PlainRequest(path, auth)), order,
                    Signing(auth), data)
    ensures ParseMessage(data).Ok? && Understandable(ParseMessage(data).value, data, tid, auth)
  {
    var s := RequestSet(useFingerprint, PlainRequest(path, auth));
    PlainRequestSet(useFingerprint, path, auth);
    assert RequestHeader(tid).tid == tid;
    hide *;
    Arrives(RequestHeader(tid), s, order, Signing(auth), data);
    UnderstandableFrom(ParseMessage(data).value, s, data, tid, auth);
  }

  lemma UnderstandableFrom(m: Message, s: AttributeSet, data: Bytes, tid: TransactionId, auth: Maybe<Auth>)
    requires Faithful(m, RequestHeader(tid), s) && !m.isRfc3489 && WellTyped(m.attrs) && s.unknown == []
    requires USERNAME in s.known <==> auth.Some?
    requires auth.Some? ==> s.known[USERNAME] == Username(auth.value.username)
    requires MESSAGE_INTEGRITY in m.attrs.known <==> Signing(auth).Some?
    requires Signing(auth).Some? ==> IsValid(m, data, Signing(auth).value) == Ok(Some(true))
    ensures Understandable(m, data, tid, auth)
  {
    hide IsValid;
    TypedPair(m.attrs);
    hide WellTyped;
  }

  lemma ServerAnswersSuccess(srv: ServerSettings, users: Users, ep: Endpoint, tid: TransactionId, auth: Maybe<Auth>,
                             data: Bytes)
    requires ParseMessage(data).Ok? && Understandable(ParseMessage(data).value, data, tid, auth)
    requires RegisteredAt(srv, users, auth)
    ensures
      var m := ParseMessage(data).value;
      var header := Header(SuccessResponse, BINDING, tid);
      Process(srv, users, ep, data)
      == Server.Respond(Message(header, SuccessSet(srv, ep, m), false, None), m, Signing(auth))
  {
    hide ParseMessage, IsValid, SuccessSet;
    var m := ParseMessage(data).value;
    assert UnknownRequired(m.attrs.unknown) == [];
  }

  lemma SuccessHolds(srv: ServerSettings, ep: Endpoint, m: Message)
    requires !m.isRfc3489
    ensures
      var s := SuccessSet(srv, ep, m);
      && XOR_MAPPED_ADDRESS in s.known
      && s.known[XOR_MAPPED_ADDRESS] == XorMapped(FromAddress(ep.address, m.header.tid), ep.port)
      && s.unknown == [] && AllRepresentable(s) && forall t :: t in s.known ==> !LosesFamily(s.known[t])
  {
    hide FromAddress;
  }

  lemma SuccessSmall(srv: ServerSettings, ep: Endpoint, rq: Message, h: Header, order: seq<AttrType>,
                     i: Maybe<IntegrityData>, data: Bytes)
    requires Writes(h, SuccessSet(srv, ep, rq), order, i, data)
    ensures |data| - HEADER_SIZE < 0x10000
  {
    hide BuildMessage, SuccessSet, Enumerates, Modest, PlainItems, Fields;
    var s := SuccessSet(srv, ep, rq);
    SuccessModest(srv, ep, rq);
    ModestRoom(s, rq.isRfc3489, order);
    InOrder(order, s);
    BuiltSize(h, s, order, i, data);
  }

  lemma InOrder(order: seq<AttrType>, s: AttributeSet)
    requires Enumerates(order, s)
    ensures forall t :: t in order ==> t in s.known
  {
  }

  /** What the client makes of the response's bytes. */
  ghost predicate Conclusive(m: Message, data: Bytes, tid: TransactionId, auth: Maybe<Auth>, ep: Endpoint) {
    && m.header == Header(SuccessResponse, BINDING, tid) && m.attrs.unknown == []
    && XOR_MAPPED_ADDRESS in m.attrs.known
    && m.attrs.known[XOR_MAPPED_ADDRESS] == XorMapped(FromAddress(ep.address, tid), ep.port)
    && (auth.Some? ==> IsValid(m, data, auth.value.integrity) == Ok(Some(true)))
  }

  lemma ResponseArrives(srv: ServerSettings, ep: Endpoint, rq: Message, auth: Maybe<Auth>, order: seq<AttrType>,
                        data: Bytes)
    requires !rq.isRfc3489 && |rq.header.tid| == 12
    requires Writes(Header(SuccessResponse, BINDING, rq.header.tid), SuccessSet(srv, ep, rq), order,
                    Signing(auth), data)
    ensures ParseMessage(data).Ok? && Conclusive(ParseMessage(data).value, data, rq.header.tid, auth, ep)
  {
    var s, h := SuccessSet(srv, ep, rq), Header(SuccessResponse, BINDING, rq.header.tid);
    SuccessHolds(srv, ep, rq);
    hide *;
    SuccessSmall(srv, ep, rq, h, order, Signing(auth), data);
    Arrives(h, s, order, Signing(auth), data);
    ConclusiveFrom(ParseMessage(data).value, h, s, data, auth, ep);
  }

  lemma ConclusiveFrom(m: Message, h: Header, s: AttributeSet, data: Bytes, auth: Maybe<Auth>, ep: Endpoint)
    requires h.cls == SuccessResponse && h.method_ == BINDING && Faithful(m, h, s) && s.unknown == []
    requires XOR_MAPPED_ADDRESS in s.known
    requires s.known[XOR_MAPPED_ADDRESS] == XorMapped(FromAddress(ep.address, h.tid), ep.port)
    requires Signing(auth).Some? ==> IsValid(m, data, Signing(auth).value) == Ok(Some(true))
    ensures Conclusive(m, data, h.tid, auth, ep)
  {
    hide IsValid, FromAddress;
  }

  /** The client takes a conclusive response as the outcome of its transaction. */
  lemma ClientConcludes(cfg: Settings, s: State, now: int, h: Handle, ep: Endpoint, data: Bytes)
    requires Inv(s) && h in s.tmap
    requires ParseMessage(data).Ok? && Conclusive(ParseMessage(data).value, data, s.tmap[h].tid, s.tmap[h].auth, ep)
    ensures
      var t, m := s.tmap[h], ParseMessage(data).value;
      var roundTrip := if t.rtxCount == 0 then Some(now - t.createTime) else None;
      Client.Respond(cfg, s, now, data, None)
      == (s.(effects := s.effects + [TransactionOk(h, ep, m, roundTrip)],
             rto := Learn(cfg, s.rto, t, now),
             stat := s.stat.(success := s.stat.success + 1)), None)
  {
    hide ParseMessage, IsValid, Learn, FromAddress, ToAddress;
    var t, m := s.tmap[h], ParseMessage(data).value;
    assert UnknownRequired(m.attrs.unknown) == [];
    XoredRoundTrip(ep.address, FromAddress(ep.address, t.tid), t.tid);
    assert t.hnd == h && FindTransaction(s, t.tid) == Some(h);
    assert Client.Accept(cfg, s, data, None) == Ok((h, m));
  }

  /** The server answers the request, and its answer makes the client succeed with the endpoint. */
  ghost predicate ComesBack(cfg: Settings, s: State, now: int, h: Handle, srv: ServerSettings, users: Users,
                            ep: Endpoint,
                        request: Bytes, order: seq<AttrType>, response: Bytes)
  {
    var a := Process(srv, users, ep, request);
    && a.Respond?
    && (Writes(a.response.header, a.response.attrs, order, a.integrity, response) ==>
          var (s', e) := Client.Respond(cfg, s, now, response, None);
          e == None && |s'.effects| == |s.effects| + 1 && s'.effects[..|s.effects|] == s.effects
          && var last := s'.effects[|s.effects|];
             last.TransactionOk? && last.handle == h && last.result == ep)
  }

  lemma AnswerConcludes(cfg: Settings, s: State, now: int, h: Handle, srv: ServerSettings, users: Users, ep: Endpoint,
                  request: Bytes, order: seq<AttrType>, response: Bytes, r: Result<Message, ParseError>,
                  rtt: Maybe<int>, rto: RtoState, stat: Stat)
    requires Process(srv, users, ep, request).Respond?
    requires
      var a := Process(srv, users, ep, request);
      Writes(a.response.header, a.response.attrs, order, a.integrity, response) ==>
        r.Ok? && Client.Respond(cfg, s, now, response, None)
        == (s.(effects := s.effects + [TransactionOk(h, ep, r.value, rtt)], rto := rto, stat := stat), None)
    ensures ComesBack(cfg, s, now, h, srv, users, ep, request, order, response)
  {
    hide Process, Client.Respond, Writes;
  }

  /** For every endpoint, transaction id and credentials registered at the server (or none), both
      fingerprint settings and every iteration order of either side's attribute map: the live
      transaction's request, processed by the server, its response built with the integrity the
      server returned and given to the client, makes the client succeed with exactly the endpoint
      the server saw. */
  lemma AddressComesBack(cfg: Settings, s: State, now: int, h: Handle, srv: ServerSettings, users: Users, ep: Endpoint,
                         path: Path, order: seq<AttrType>, order': seq<AttrType>, response: Bytes)
    requires Inv(s) && h in s.tmap && |s.tmap[h].tid| == 12 && |s.tmap[h].data| - HEADER_SIZE < 0x10000
    requires RegisteredAt(srv, users, s.tmap[h].auth)
    requires
      var t := s.tmap[h];
      var set_ := RequestSet(cfg.useFingerprint, PlainRequest(path, t.auth));
      Writes(RequestHeader(t.tid), set_, order, Signing(t.auth), t.data)
    ensures ComesBack(cfg, s, now, h, srv, users, ep, s.tmap[h].data, order', response)
  {
    hide *;
    var t := s.tmap[h];
    RequestArrives(cfg.useFingerprint, path, t.auth, t.tid, order, t.data);
    ServerAnswersSuccess(srv, users, ep, t.tid, t.auth, t.data);
    var a := Process(srv, users, ep, t.data);
    if Writes(a.response.header, a.response.attrs, order', a.integrity, response) {
      var m := ParseMessage(t.data).value;
      UnderstoodId(m, t.data, t.tid, t.auth);
      ResponseArrives(srv, ep, m, t.auth, order', response);
      ClientConcludes(cfg, s, now, h, ep, response);
    }
    AnswerConcludes(cfg, s, now, h, srv, users, ep, t.data, order', response, ParseMessage(response),
                    if t.rtxCount == 0 then Some(now - t.createTime) else None,
                    Learn(cfg, s.rto, t, now), s.stat.(success := s.stat.success + 1));
  }

  lemma UnderstoodId(m: Message, data: Bytes, tid: TransactionId, auth: Maybe<Auth>)
    requires Understandable(m, data, tid, auth)
    ensures m.header.tid == tid && !m.isRfc3489
  {
    hide IsValid;
  }

  // ---- For the transactions of a run, and of the client object ----

  /** Call j asked for a transaction under a twelve-byte id, without caller attributes, and its
      request was built for this iteration order; its body fits the 16-bit length. */
  ghost predicate PlainCreate(cfg: Settings, op: Op, order: seq<AttrType>) {
    && op.Create? && |op.tid| == 12 && |op.data| - HEADER_SIZE < 0x10000
    && Writes(RequestHeader(op.tid), RequestSet(cfg.useFingerprint, PlainRequest(op.path, op.auth)), order,
          Signing(op.auth), op.data)
  }

  /** In every run, for every transaction still live, however long ago it was created and whatever
      happened since. */
  lemma RunComesBack(cfg: Settings, ops: seq<Op>, j: nat, now: int, h: Handle, srv: ServerSettings, users: Users,
                     ep: Endpoint,
                     order: seq<AttrType>, order': seq<AttrType>, response: Bytes)
    requires CreatedBy(cfg, ops, j, h) && h in Run(cfg, ops).s.tmap
    requires PlainCreate(cfg, ops[j], order) && RegisteredAt(srv, users, ops[j].auth)
    ensures ComesBack(cfg, Run(cfg, ops).s, now, h, srv, users, ep, ops[j].data, order', response)
  {
    RunInv(cfg, ops);
    var s := Run(cfg, ops).s;
    assert Inv(s);
    var i := LiveFromCreate(cfg, ops, h);
    CreatedOnce(cfg, ops, i, j, h);
    assert HoldsWhat(s.tmap[h], ops[j]);
    hide Run, CreatedBy, Writes, RequestSet, RequestHeader, Signing, RegisteredAt, Inv, ComesBack;
    AddressComesBack(cfg, s, now, h, srv, users, ep, ops[j].path, order, order', response);
  }

  /** The same of the client object: it has made the call, and the transaction is still in its map. */
  lemma ObjectComesBack(c: UdpClient, j: nat, now: int, h: Handle, srv: ServerSettings, users: Users, ep: Endpoint,
                        order: seq<AttrType>, order': seq<AttrType>, response: Bytes)
    requires c.Valid() && CreatedBy(c.cfg, c.ops, j, h) && h in c.tmap
    requires PlainCreate(c.cfg, c.ops[j], order) && RegisteredAt(srv, users, c.ops[j].auth)
    ensures ComesBack(c.cfg, c.State(), now, h, srv, users, ep, c.ops[j].data, order', response)
  {
    hide Run, CreatedBy, PlainCreate, RegisteredAt, ComesBack;
    RunComesBack(c.cfg, c.ops, j, now, h, srv, users, ep, order, order', response);
  }
}
