/** What the stateless server answers, for every datagram, and who can read it. */
module ServerAnswers {
  import opened Bytes
  import opened Hmac
  import opened Crc32
  import opened Address
  import opened Header
  import opened Attributes
  import opened Messages
  import opened Builder
  import opened Parser
  import opened RoundTrip
  import opened Received
  import opened Server

  ghost predicate Named(m: Message, users: Users) {
    USERNAME in m.attrs.known && m.attrs.known[USERNAME].Username? && m.attrs.known[USERNAME].name in users
  }

  ghost function Credentials(cfg: ServerSettings, users: Users, m: Message): IntegrityData
    requires Named(m, users)
  {
    IntegrityData(users[m.attrs.known[USERNAME].name], cfg.sha1)
  }

  /** The request is anonymous, or signed by a user the server knows. */
  ghost predicate Welcome(cfg: ServerSettings, users: Users, m: Message, view: Bytes) {
    if USERNAME in m.attrs.known || MESSAGE_INTEGRITY in m.attrs.known
    then USERNAME in m.attrs.known && Named(m, users) && SignedBy(m, view, Credentials(cfg, users, m))
    else true
  }

  /** An unsigned error response that holds this code and, besides it, nothing but the list of
      attribute types if there is one. */
  ghost predicate ErrorIs(a: Answer, code: nat, types: Maybe<seq<AttrType>>) {
    && a.Respond? && a.response.header.cls == ErrorResponse && a.integrity == None
    && a.response.attrs.unknown == []
    && a.response.attrs.known
       == map[ERROR_CODE := ErrorCode(code, None)]
          + if types.Some? then map[UNKNOWN_ATTRIBUTES := UnknownAttributes(types.value)] else map[]
  }

  /** Whether the hash fails while the digest is checked. */
  ghost predicate HashFails(cfg: ServerSettings, users: Users, m: Message, view: Bytes) {
    Named(m, users) && Checkable(m, view) && DigestOver(m, view, Credentials(cfg, users, m)).Err?
  }

  predicate Paired(m: Message) {
    USERNAME in m.attrs.known <==> MESSAGE_INTEGRITY in m.attrs.known
  }

  predicate Succeeds(a: Answer) {
    a.Respond? && a.response.header.cls == SuccessResponse
  }

  /** The attribute set tells the endpoint and nothing else: to an old client in the plain form, to
      any other in the masked form, with a checksum to be filled in if so configured. */
  ghost predicate Tells(cfg: ServerSettings, s: AttributeSet, ep: Endpoint, m: Message) {
    && s.unknown == []
    && if m.isRfc3489 then s.known == map[MAPPED_ADDRESS := Mapped(ep.address, ep.port)]
       else
         && s.known.Keys == {XOR_MAPPED_ADDRESS} + (if cfg.useFingerprint then {FINGERPRINT} else {})
         && s.known[XOR_MAPPED_ADDRESS].XorMapped? && s.known[XOR_MAPPED_ADDRESS].xport == ep.port
         && ToAddress(s.known[XOR_MAPPED_ADDRESS].xaddr, m.header.tid) == ep.address
         && (cfg.useFingerprint ==> s.known[FINGERPRINT].Fingerprint?)
  }

  /** The answer to a request, by what the request is: success exactly for an understood
      binding request that is anonymous or properly signed, and then signed likewise and telling
      the endpoint it came from; 420 exactly for unknown comprehension-required attributes, which it
      lists; 400 exactly for half of a user name and digest pair; 401 exactly for a stranger or a
      wrong digest. */
  ghost predicate Decided(cfg: ServerSettings, users: Users, ep: Endpoint, m: Message, view: Bytes, a: Answer) {
    && (Succeeds(a) <==> Understood(m) && m.header.method_ == BINDING && Welcome(cfg, users, m, view))
    && (Succeeds(a) ==> Tells(cfg, a.response.attrs, ep, m))
    && (Succeeds(a) && USERNAME in m.attrs.known ==>
          Named(m, users) && a.integrity == Some(Credentials(cfg, users, m)))
    && (Succeeds(a) && USERNAME !in m.attrs.known ==> a.integrity == None)
    && (ErrorIs(a, 420, Some(UnknownRequired(m.attrs.unknown))) <==> !Understood(m))
    && (ErrorIs(a, 400, None) <==> Understood(m) && !Paired(m))
    && (ErrorIs(a, 401, None)
        <==> Understood(m) && Paired(m) && !Welcome(cfg, users, m, view) && !HashFails(cfg, users, m, view))
    && (a.Error? <==> Understood(m) && Paired(m) && USERNAME in m.attrs.known && HashFails(cfg, users, m, view))
    && (a.Error? ==> DigestOver(m, view, Credentials(cfg, users, m)) == Err(a.error))
    && (a.Ignore? <==> Understood(m) && Welcome(cfg, users, m, view) && m.header.method_ != BINDING)
    && (a.Ignore? ==> a.message == Some(m))
    && (a.Respond? ==> a.request == m && a.response.header.tid == m.header.tid
                       && a.response.header.method_ == m.header.method_ && a.response.isRfc3489 == m.isRfc3489)
  }

  /** For every datagram whatever: what does not parse is ignored, what parses and is no request is
      ignored and handed back, and every request is decided as above. */
  lemma AnswerExact(cfg: ServerSettings, users: Users, ep: Endpoint, view: Bytes)
    ensures
      var a := Process(cfg, users, ep, view);
      && (a == Ignore(None) <==> ParseMessage(view).Err?)
      && (ParseMessage(view).Ok? && ParseMessage(view).value.header.cls != Request ==>
            a == Ignore(Some(ParseMessage(view).value)))
      && (a.Respond? || a.Error? ==> ParseMessage(view).Ok? && ParseMessage(view).value.header.cls == Request)
      && (ParseMessage(view).Ok? && ParseMessage(view).value.header.cls == Request ==>
            Decided(cfg, users, ep, ParseMessage(view).value, view, a))
  {
    hide ParseMessage, ProcessRequest, Decided, WellTyped;
    if ParseMessage(view).Ok? {
      var m := ParseMessage(view).value;
      AcceptedShape(view);
      TypedPair(m.attrs);
      RequestDecided(cfg, users, ep, m, view);
      DecidedIsNotNone(cfg, users, ep, m, view, ProcessRequest(cfg, users, ep, m, view));
    }
  }

  lemma DecidedIsNotNone(cfg: ServerSettings, users: Users, ep: Endpoint, m: Message, view: Bytes, a: Answer)
    requires Decided(cfg, users, ep, m, view, a)
    ensures a != Ignore(None)
  {
    hide Welcome, Tells, ErrorIs, HashFails;
  }

  lemma RequestDecided(cfg: ServerSettings, users: Users, ep: Endpoint, m: Message, view: Bytes)
    requires USERNAME in m.attrs.known ==> m.attrs.known[USERNAME].Username?
    requires MESSAGE_INTEGRITY in m.attrs.known ==>
      m.attrs.known[MESSAGE_INTEGRITY].MessageIntegrity? && m.covered.Some? && 4 <= m.covered.value <= |view|
    ensures Decided(cfg, users, ep, m, view, ProcessRequest(cfg, users, ep, m, view))
  {
    hide CheckAuth, Credentials, SignedBy, SuccessSet, HashFails, Named, UnknownRequired, ComprehensionRequired, Tells,
      DigestOver, Reject, ErrorIs, Success;
    if Understood(m) && Paired(m) && USERNAME in m.attrs.known {
      AuthDecided(cfg, users, m, view);
    }
    SuccessTells(cfg, ep, m);
    Rejected(m);
    UnknownRejected(m);
    NotNamed(cfg, users, m, view);
    OnlyErrors(ProcessRequest(cfg, users, ep, m, view));
  }

  lemma OnlyErrors(a: Answer)
    ensures forall c, ts :: ErrorIs(a, c, ts) ==> a.Respond? && !Succeeds(a)
  {
  }

  lemma SuccessTells(cfg: ServerSettings, ep: Endpoint, m: Message)
    ensures Tells(cfg, SuccessSet(cfg, ep, m), ep, m)
    ensures forall i ::
      var a := Success(cfg, ep, m, i);
      if m.header.method_ == BINDING
      then Succeeds(a) && a.response.attrs == SuccessSet(cfg, ep, m) && a.request == m && a.integrity == i
           && a.response.header.tid == m.header.tid && a.response.header.method_ == m.header.method_
           && a.response.isRfc3489 == m.isRfc3489
      else a == Ignore(Some(m))
  {
    hide FromAddress, ToAddress;
    XoredRoundTrip(ep.address, FromAddress(ep.address, m.header.tid), m.header.tid);
  }

  ghost predicate RejectedWith(a: Answer, m: Message, code: nat, types: Maybe<seq<AttrType>>) {
    && ErrorIs(a, code, types) && !Succeeds(a)
    && (forall c, ts :: ErrorIs(a, c, ts) ==> c == code && ts == types)
    && a.request == m && a.response.header.tid == m.header.tid
    && a.response.header.method_ == m.header.method_ && a.response.isRfc3489 == m.isRfc3489
  }

  lemma CodesApart(a: Answer, code: nat, types: Maybe<seq<AttrType>>, c: nat, ts: Maybe<seq<AttrType>>)
    requires ErrorIs(a, code, types) && ErrorIs(a, c, ts)
    ensures c == code && ts == types
  {
    assert a.response.attrs.known[ERROR_CODE].code == code;
    assert UNKNOWN_ATTRIBUTES in a.response.attrs.known <==> types.Some?;
  }

  lemma Rejected(m: Message)
    ensures forall code :: RejectedWith(Reject(m, code), m, code, None)
  {
    forall code ensures RejectedWith(Reject(m, code), m, code, None) {
      var a := Reject(m, code);
      assert ErrorIs(a, code, None);
      forall c, ts | ErrorIs(a, c, ts) ensures c == code && ts == None {
        CodesApart(a, code, None, c, ts);
      }
    }
  }

  lemma UnknownRejected(m: Message)
    ensures
      var rsp, types := CreateError(m, UNKNOWN_ATTRIBUTE), UnknownRequired(m.attrs.unknown);
      RejectedWith(Respond(rsp.(attrs := Emplace(rsp.attrs, UnknownAttributes(types))), m, None), m, 420, Some(types))
  {
    hide UnknownRequired;
    var rsp, types := CreateError(m, UNKNOWN_ATTRIBUTE), UnknownRequired(m.attrs.unknown);
    var a := Respond(rsp.(attrs := Emplace(rsp.attrs, UnknownAttributes(types))), m, None);
    assert ErrorIs(a, 420, Some(types));
    forall c, ts | ErrorIs(a, c, ts) ensures c == 420 && ts == Some(types) {
      CodesApart(a, 420, Some(types), c, ts);
    }
  }

  lemma NotNamed(cfg: ServerSettings, users: Users, m: Message, view: Bytes)
    ensures Named(m, users) ==> USERNAME in m.attrs.known
    ensures HashFails(cfg, users, m, view) ==> Named(m, users)
    ensures forall i :: SignedBy(m, view, i) ==> MESSAGE_INTEGRITY in m.attrs.known
  {
    hide DigestOver;
  }

  lemma AuthDecided(cfg: ServerSettings, users: Users, m: Message, view: Bytes)
    requires USERNAME in m.attrs.known && m.attrs.known[USERNAME].Username? && Checkable(m, view)
    ensures
      var c := CheckAuth(cfg, users, m.attrs.known[USERNAME].name, m, view);
      if Named(m, users) && HashFails(cfg, users, m, view)
      then c.Answered? && c.answer.Error? && !SignedBy(m, view, Credentials(cfg, users, m))
           && DigestOver(m, view, Credentials(cfg, users, m)) == Err(c.answer.error)
      else if Named(m, users) && SignedBy(m, view, Credentials(cfg, users, m))
      then c == Proceed(Some(Credentials(cfg, users, m)))
      else c == Answered(Reject(m, UNAUTHORIZED)) && !HashFails(cfg, users, m, view)
  {
    hide DigestOver, Reject, IsValid, Checkable;
    if Named(m, users) {
      ValidExact(m, view, Credentials(cfg, users, m));
    }
  }

  lemma TypedPair(s: AttributeSet)
    requires WellTyped(s)
    ensures USERNAME in s.known ==> s.known[USERNAME].Username?
    ensures MESSAGE_INTEGRITY in s.known ==> s.known[MESSAGE_INTEGRITY].MessageIntegrity?
  {
  }

  // ---- Who can read the answers ----

  /** The size of a built body: the given attributes, 24 bytes of digest, 8 of checksum. */
  lemma BuiltSize(h: Header, s: AttributeSet, order: seq<AttrType>, i: Maybe<IntegrityData>, data: Bytes)
    requires forall t :: t in order ==> t in s.known
    requires BuildMessage(h, s, order, i) == Ok(data)
    ensures |data| == HEADER_SIZE + |Fields(PlainItems(s, order))|
                      + (if i.Some? then 24 else 0) + (if FINGERPRINT in s.known then 8 else 0)
  {
    hide PlainItems, Fields, FieldHeader, CoveredBytes, Mac, Crc, U32, MaskCrc;
  }

  lemma Pigeons(order: seq<AttrType>, a: AttrType, b: AttrType)
    requires |order| > 2 && forall k :: 0 <= k < |order| ==> order[k] == a || order[k] == b
    ensures exists i, j :: 0 <= i < j < |order| && order[i] == order[j]
  {
    assert order[0] == order[1] || order[0] == order[2] || order[1] == order[2];
  }

  lemma OneOrTwo(order: seq<AttrType>, s: AttributeSet, a: AttrType, b: AttrType)
    requires Enumerates(order, s) && s.known.Keys <= {a, b}
    ensures order == [] || order == [a] || order == [b] || order == [a, b] || order == [b, a]
  {
    forall k | 0 <= k < |order| ensures order[k] == a || order[k] == b {
      assert order[k] in s.known.Keys;
    }
    if |order| > 2 {
      Pigeons(order, a, b);
    }
  }

  function Room(s: AttributeSet, t: AttrType): nat {
    if t in s.known && !Computed(t) then |Field(Item(t, ValueBytes(s.known[t])))| else 0
  }

  lemma {:induction false} PlainRoom(s: AttributeSet, order: seq<AttrType>, a: AttrType, b: AttrType)
    requires Enumerates(order, s) && s.known.Keys <= {a, b} && s.unknown == [] && a != b
    ensures |Fields(PlainItems(s, order))| == Room(s, a) + Room(s, b)
  {
    hide Field, ValueBytes;
    OneOrTwo(order, s, a, b);
    assert KnownItems(s, order) + UnknownItems(s.unknown) == KnownItems(s, order);
    forall t | t in order ensures t in s.known {}
    RoomOf(s, order, a, b);
  }

  lemma RoomOf(s: AttributeSet, order: seq<AttrType>, a: AttrType, b: AttrType)
    requires forall t :: t in order <==> t in s.known
    requires a != b && s.known.Keys <= {a, b}
    requires order == [] || order == [a] || order == [b] || order == [a, b] || order == [b, a]
    ensures |Fields(KnownItems(s, order))| == Room(s, a) + Room(s, b)
  {
    hide Field, ValueBytes;
    RoomOfTail(s, order);
    if |order| == 2 {
      assert order[1..] == [order[1]];
      RoomOfTail(s, order[1..]);
    }
    assert a in s.known <==> a in order;
    assert b in s.known <==> b in order;
  }

  lemma RoomOfTail(s: AttributeSet, order: seq<AttrType>)
    requires forall t :: t in order ==> t in s.known
    ensures order == [] ==> Fields(KnownItems(s, order)) == []
    ensures order != [] ==> |Fields(KnownItems(s, order))| == Room(s, order[0]) + |Fields(KnownItems(s, order[1..]))|
    ensures |order| == 1 ==> Fields(KnownItems(s, order[1..])) == []
  {
    hide Field, ValueBytes;
    if order != [] && !Computed(order[0]) {
      var i := Item(order[0], ValueBytes(s.known[order[0]]));
      var items := KnownItems(s, order);
      assert items == [i] + KnownItems(s, order[1..]);
      assert items[1..] == KnownItems(s, order[1..]);
    }
  }

  /** The attribute set of a response: what it may hold, all of it well typed and small. */
  ghost predicate Modest(s: AttributeSet, isRfc3489: bool) {
    && s.unknown == [] && WellTyped(s) && AllRepresentable(s)
    && (s.known.Keys <= {ERROR_CODE, UNKNOWN_ATTRIBUTES}
        || (!isRfc3489 && s.known.Keys <= {FINGERPRINT, XOR_MAPPED_ADDRESS})
        || (isRfc3489 && s.known.Keys <= {MAPPED_ADDRESS}))
    && (UNKNOWN_ATTRIBUTES in s.known ==> |s.known[UNKNOWN_ATTRIBUTES].types| < 0x4000)
    && (ERROR_CODE in s.known ==> s.known[ERROR_CODE].reason == None)
  }

  lemma ResponseModest(cfg: ServerSettings, users: Users, ep: Endpoint, m: Message, view: Bytes)
    requires |m.attrs.unknown| < 0x4000
    ensures
      var a := ProcessRequest(cfg, users, ep, m, view);
      a.Respond? ==> Modest(a.response.attrs, m.isRfc3489) && a.response.header.cls != Request
                     && a.response.header.tid == m.header.tid && a.response.header.method_ == m.header.method_
  {
    hide CheckAuth, UnknownRequired, RequiredTypes, FromAddress, Modest, SuccessSet, ComprehensionRequired;
    SuccessModest(cfg, ep, m);
    AuthModest(cfg, users, m, view);
    ErrorModest(m);
  }

  lemma SuccessModest(cfg: ServerSettings, ep: Endpoint, m: Message)
    ensures Modest(SuccessSet(cfg, ep, m), m.isRfc3489)
  {
    hide FromAddress;
  }

  lemma ErrorModest(m: Message)
    requires |m.attrs.unknown| < 0x4000
    ensures forall code :: code < 1000 ==> Modest(CreateError(m, code).attrs, m.isRfc3489)
    ensures forall types: seq<AttrType> :: |types| < 0x4000 ==>
      Modest(Emplace(CreateError(m, 420).attrs, UnknownAttributes(types)), m.isRfc3489)
  {
  }

  lemma AuthModest(cfg: ServerSettings, users: Users, m: Message, view: Bytes)
    ensures forall name :: CheckAuth(cfg, users, name, m, view).Answered? ==>
      var a := CheckAuth(cfg, users, name, m, view).answer;
      a.Error? || a == Reject(m, UNAUTHORIZED)
  {
    hide IsValid, CreateError;
  }

  lemma {:induction false} TypesSize(types: seq<AttrType>)
    ensures |TypesBytes(types)| == 2 * |types|
  {
    hide Length16;
    if types != [] {
      TypesSize(types[1..]);
    }
  }

  lemma RoomBound(s: AttributeSet, t: AttrType)
    requires WellTyped(s)
    ensures t == ERROR_CODE && (t in s.known ==> s.known[t].reason == None) ==> Room(s, t) <= 8
    ensures t == UNKNOWN_ATTRIBUTES && (t in s.known ==> |s.known[t].types| < 0x4000) ==> Room(s, t) <= 0x8008
    ensures t == XOR_MAPPED_ADDRESS || t == MAPPED_ADDRESS || t == FINGERPRINT ==> Room(s, t) <= 24
  {
    hide FieldHeader, Length16, U16, U32, MaskPort, TypesBytes, LowByte, Xor8;
    if t in s.known && s.known[t].UnknownAttributes? {
      TypesSize(s.known[t].types);
    }
  }

  lemma ModestRoom(s: AttributeSet, isRfc3489: bool, order: seq<AttrType>)
    requires Modest(s, isRfc3489) && Enumerates(order, s)
    ensures |Fields(PlainItems(s, order))| < 0x9000
  {
    hide Room, Fields, PlainItems, WellTyped, AllRepresentable;
    RoomBound(s, ERROR_CODE);
    RoomBound(s, UNKNOWN_ATTRIBUTES);
    RoomBound(s, XOR_MAPPED_ADDRESS);
    RoomBound(s, MAPPED_ADDRESS);
    RoomBound(s, FINGERPRINT);
    if s.known.Keys <= {ERROR_CODE, UNKNOWN_ATTRIBUTES} {
      PlainRoom(s, order, ERROR_CODE, UNKNOWN_ATTRIBUTES);
    } else if s.known.Keys <= {FINGERPRINT, XOR_MAPPED_ADDRESS} {
      PlainRoom(s, order, FINGERPRINT, XOR_MAPPED_ADDRESS);
    } else {
      PlainRoom(s, order, MAPPED_ADDRESS, XOR_MAPPED_ADDRESS);
    }
  }

  lemma ModestSurvives(h: Header, s: AttributeSet, isRfc3489: bool)
    requires Modest(s, isRfc3489) && isRfc3489 == (|h.tid| == 16) && h.cls != Request
    ensures Unregistered(s.unknown) && WellTyped(s) && AllRepresentable(s)
    ensures IdSurvives(h) && (forall t :: t in s.known ==> !LosesFamily(s.known[t])) <==> !isRfc3489
  {
    hide ReadU32;
  }

  /** Whatever the server answers, signed with what it says to sign with, can be read back by
      this library exactly when the request did not come from an RFC 3489 client. */
  lemma AnswerReadable(cfg: ServerSettings, users: Users, ep: Endpoint, view: Bytes, order: seq<AttrType>, data: Bytes)
    requires Process(cfg, users, ep, view).Respond?
    requires
      var a := Process(cfg, users, ep, view);
      Enumerates(order, a.response.attrs)
      && BuildMessage(a.response.header, a.response.attrs, order, a.integrity) == Ok(data)
    ensures
      var a := Process(cfg, users, ep, view);
      var r := ParseMessage(data);
      r.Ok? && Faithful(r.value, a.response.header, a.response.attrs) <==> !ParseMessage(view).value.isRfc3489
  {
    var a := Process(cfg, users, ep, view);
    var m, s := ParseMessage(view).value, a.response.attrs;
    AcceptedShape(view);
    ResponseModest(cfg, users, ep, m, view);
    hide *;
    ModestSurvives(a.response.header, s, m.isRfc3489);
    ModestRoom(s, m.isRfc3489, order);
    BuiltSize(a.response.header, s, order, a.integrity, data);
    RoundTripExact(a.response.header, s, order, a.integrity, data);
  }

  // ---- An old client ----

  /** A binding request of an RFC 3489 client: sixteen bytes of id, no attributes. */
  function OldRequest(tid: TransactionId): Bytes {
    HeaderBytes(Header(Request, BINDING, tid), 0)
  }

  lemma OldRequestRead(tid: TransactionId)
    requires |tid| == 16 && ReadU32(tid[..4]) != MAGIC_COOKIE
    ensures ParseMessage(OldRequest(tid)).Ok?
    ensures
      var m := ParseMessage(OldRequest(tid)).value;
      && m.header == Header(Request, BINDING, tid) && m.isRfc3489 && m.attrs.unknown == []
      && USERNAME !in m.attrs.known && MESSAGE_INTEGRITY !in m.attrs.known
  {
    var h, data := Header(Request, BINDING, tid), OldRequest(tid);
    EmptyBuilt(h);
    RoundTripExact(h, EMPTY, [], None, data);
    assert Deliverable(h, EMPTY, |data| - HEADER_SIZE);
    hide ParseMessage, BuildMessage, HeaderBytes, Deliverable;
  }

  lemma EmptyBuilt(h: Header)
    ensures WellTyped(EMPTY) && Enumerates([], EMPTY)
    ensures BuildMessage(h, EMPTY, [], None) == Ok(HeaderBytes(h, 0))
  {
    hide HeaderBytes;
    assert PlainItems(EMPTY, []) == [];
    assert HeaderBytes(h, 0) + [] == HeaderBytes(h, 0);
  }

  /** Every such request is answered with success, and no matter how the answer is written, this
      library cannot read it back. */
  lemma OldClientUnreadable(cfg: ServerSettings, users: Users, ep: Endpoint, tid: TransactionId, order: seq<AttrType>,
                            data: Bytes)
    requires |tid| == 16 && ReadU32(tid[..4]) != MAGIC_COOKIE
    ensures Succeeds(Process(cfg, users, ep, OldRequest(tid)))
    ensures
      var a := Process(cfg, users, ep, OldRequest(tid));
      Enumerates(order, a.response.attrs)
        && BuildMessage(a.response.header, a.response.attrs, order, a.integrity) == Ok(data) ==>
        !(ParseMessage(data).Ok? && Faithful(ParseMessage(data).value, a.response.header, a.response.attrs))
  {
    OldRequestRead(tid);
    AnswerExact(cfg, users, ep, OldRequest(tid));
    hide ParseMessage, Process, BuildMessage, OldRequest, Faithful;
    var a := Process(cfg, users, ep, OldRequest(tid));
    if Enumerates(order, a.response.attrs)
       && BuildMessage(a.response.header, a.response.attrs, order, a.integrity) == Ok(data) {
      AnswerReadable(cfg, users, ep, OldRequest(tid), order, data);
    }
  }

  /** An id of sixteen zeros is one of them. */
  lemma ZeroIdIsOld()
    ensures
      var tid: TransactionId := [0, 0, 0, 0, 0, 0, 0, 0, 0, 0, 0, 0, 0, 0, 0, 0];
      |tid| == 16 && ReadU32(tid[..4]) != MAGIC_COOKIE
  {
  }
}
