/** The stateless STUN server (section 9.1.3 of RFC 8489). */
module Server {
  import opened Bytes
  import opened Hmac
  import opened Address
  import opened Header
  import opened Attributes
  import opened Messages
  import opened Parser

  const UNKNOWN_ATTRIBUTE := 420
  const BAD_REQUEST := 400
  const UNAUTHORIZED := 401

  datatype Answer =
    | Ignore(message: Maybe<Message>)
    | Respond(response: Message, request: Message, integrity: Maybe<IntegrityData>)
    | Error(error: HashError)

  type Users = map<Bytes, Password>

  datatype ServerSettings = ServerSettings(useFingerprint: bool, sha1: HashFunc)

  function CreateError(m: Message, code: nat): Message {
    Message(
      Header(ErrorResponse, m.header.method_, m.header.tid),
      Emplace(EMPTY, ErrorCode(code, None)),
      m.isRfc3489,
      None)
  }

  function Reject(m: Message, code: nat): Answer {
    Respond(CreateError(m, code), m, None)
  }

  function UserName(s: AttributeSet): Maybe<Bytes> {
    if USERNAME in s.known && s.known[USERNAME].Username? then Some(s.known[USERNAME].name) else None
  }

  /** Either an answer that ends processing, or the credentials to sign the response with. */
  datatype AuthCheck = Answered(answer: Answer) | Proceed(integrity: Maybe<IntegrityData>)

  function CheckAuth(cfg: ServerSettings, users: Users, name: Bytes, m: Message, view: Bytes): AuthCheck {
    if name !in users then Answered(Reject(m, UNAUTHORIZED))
    else
      var idata := IntegrityData(users[name], cfg.sha1);
      match IsValid(m, view, idata)
      case Err(e) => Answered(Error(e))
      case Ok(Some(false)) => Answered(Reject(m, UNAUTHORIZED))
      case Ok(Some(true)) => Proceed(Some(idata))
      case Ok(None) => Proceed(None)
  }

  /** The reflexive address, in the form the client's age calls for. */
  function SuccessSet(cfg: ServerSettings, ep: Endpoint, m: Message): (s: AttributeSet)
    ensures WellTyped(s)
  {
    var s := if !m.isRfc3489 && cfg.useFingerprint then Emplace(EMPTY, Fingerprint(0)) else EMPTY;
    if m.isRfc3489 then Emplace(s, Mapped(ep.address, ep.port))
    else Emplace(s, XorMapped(FromAddress(ep.address, m.header.tid), ep.port))
  }

  function Success(cfg: ServerSettings, ep: Endpoint, m: Message, integrity: Maybe<IntegrityData>): Answer {
    if m.header.method_ != BINDING then Ignore(Some(m))
    else
      Respond(
        Message(Header(SuccessResponse, m.header.method_, m.header.tid), SuccessSet(cfg, ep, m), m.isRfc3489, None),
        m,
        integrity)
  }

  function ProcessRequest(cfg: ServerSettings, users: Users, ep: Endpoint, m: Message, view: Bytes): Answer {
    var required := UnknownRequired(m.attrs.unknown);
    var name := UserName(m.attrs);
    if required != [] then
      var rsp := CreateError(m, UNKNOWN_ATTRIBUTE);
      Respond(rsp.(attrs := Emplace(rsp.attrs, UnknownAttributes(required))), m, None)
    else if name.Some? != Integrity(m.attrs).Some? then Reject(m, BAD_REQUEST)
    else if name.None? then Success(cfg, ep, m, None)
    else match CheckAuth(cfg, users, name.value, m, view)
      case Answered(a) => a
      case Proceed(integrity) => Success(cfg, ep, m, integrity)
  }

  function Process(cfg: ServerSettings, users: Users, ep: Endpoint, view: Bytes): Answer {
    match ParseMessage(view)
    case Err(_) => Ignore(None)
    case Ok(m) => if m.header.cls == Request then ProcessRequest(cfg, users, ep, m, view) else Ignore(Some(m))
  }

  class Stateless {
    const cfg: ServerSettings
    var users: Users

    constructor (cfg: ServerSettings)
      ensures this.cfg == cfg && users == map[]
    {
      this.cfg, users := cfg, map[];
    }

    /** A name is registered once: a later password for it is not taken. */
    method AddUser(name: Bytes, password: Password)
      modifies this
      ensures users == if name in old(users) then old(users) else old(users)[name := password]
    {
      if name !in users {
        users := users[name := password];
      }
    }
  }
}
