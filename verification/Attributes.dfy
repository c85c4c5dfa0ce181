/** STUN attributes (section 14 of RFC 8489, section 16.1 of RFC 8445): values, and how each
    one is written to and read from the bytes of its value field. */
module Attributes {
  import opened Bytes
  import opened Address
  import opened Hmac
  import opened Crc32

  /** Attribute types are 16-bit numbers. */
  type AttrType = n: nat | n < 0x10000

  // Attribute type registry.
  const MAPPED_ADDRESS: AttrType := 0x0001
  const USERNAME: AttrType := 0x0006
  const MESSAGE_INTEGRITY: AttrType := 0x0008
  const ERROR_CODE: AttrType := 0x0009
  const UNKNOWN_ATTRIBUTES: AttrType := 0x000A
  const XOR_MAPPED_ADDRESS: AttrType := 0x0020
  const PRIORITY: AttrType := 0x0024
  const USE_CANDIDATE: AttrType := 0x0025
  const SOFTWARE: AttrType := 0x8022
  const ALTERNATE_SERVER: AttrType := 0x8023
  const FINGERPRINT: AttrType := 0x8028
  const ICE_CONTROLLED: AttrType := 0x8029
  const ICE_CONTROLLING: AttrType := 0x802A

  datatype Attribute =
    | XorMapped(xaddr: XoredAddress, xport: bv16)
    | Mapped(addr: IpAddress, port: bv16)
    | Username(name: Bytes)
    | Software(software: Bytes)
    | MessageIntegrity(digest: Digest)
    | Fingerprint(crc: bv32)
    | Priority(priority: bv32)
    | IceControlling(controlling: bv64)
    | IceControlled(controlled: bv64)
    | UseCandidate
    | UnknownAttributes(types: seq<AttrType>)
    | ErrorCode(code: nat, reason: Maybe<Bytes>)
    | AlternateServer(server: IpAddress, serverPort: bv16)

  datatype UnknownAttribute = UnknownAttribute(type_: AttrType, data: Bytes)

  datatype Parsed = Known(attr: Attribute) | Unknown(unknown: UnknownAttribute)

  datatype AttrError =
    | OutOfRange
    | UnknownAddressFamily
    | InvalidAddressSize
    | IntegrityDigestSize
    | FingerprintCrcSize
    | PrioritySize
    | IceControllingSize
    | IceControlledSize
    | UseCandidateSize
    | ErrorCodeSize
    | UnknownAttributesSize

  function TypeOf(a: Attribute): AttrType {
    match a
    case XorMapped(_, _) => XOR_MAPPED_ADDRESS
    case Mapped(_, _) => MAPPED_ADDRESS
    case Username(_) => USERNAME
    case Software(_) => SOFTWARE
    case MessageIntegrity(_) => MESSAGE_INTEGRITY
    case Fingerprint(_) => FINGERPRINT
    case Priority(_) => PRIORITY
    case IceControlling(_) => ICE_CONTROLLING
    case IceControlled(_) => ICE_CONTROLLED
    case UseCandidate => USE_CANDIDATE
    case UnknownAttributes(_) => UNKNOWN_ATTRIBUTES
    case ErrorCode(_, _) => ERROR_CODE
    case AlternateServer(_, _) => ALTERNATE_SERVER
  }

  predicate Registered(t: AttrType) {
    t in {MAPPED_ADDRESS, USERNAME, MESSAGE_INTEGRITY, ERROR_CODE, UNKNOWN_ATTRIBUTES, XOR_MAPPED_ADDRESS,
          PRIORITY, USE_CANDIDATE, SOFTWARE, ALTERNATE_SERVER, FINGERPRINT, ICE_CONTROLLED, ICE_CONTROLLING}
  }

  predicate ComprehensionRequired(t: AttrType) {
    t <= 0x7FFF
  }

  /** Ports are combined with the upper half of the magic cookie. */
  function MaskPort(port: bv16): bv16 {
    port ^ (MAGIC_COOKIE >> 16) as bv16
  }

  /** Checksums are combined with the FINGERPRINT constant. */
  function MaskCrc(crc: bv32): bv32 {
    crc ^ FINGERPRINT_XOR
  }

  // ---- Building ----

  /** The builder shifts the family byte right instead of left, so it is always lost. */
  function MappedBytes(a: IpAddress, port: bv16): Bytes {
    U16(0) + U16(port) + match a { case V4(b) => b case V6(b) => b }
  }

  function XorMappedBytes(x: XoredAddress, port: bv16): Bytes {
    [0, FamilyByte(FamilyOf(x))] + U16(MaskPort(port)) + View(x)
  }

  /** Hundreds in the upper 24 bits, the remainder in the low byte. */
  function ErrorCodeBytes(code: nat, reason: Maybe<Bytes>): Bytes {
    var c := code / 100;
    [LowByte(c / 0x10000), LowByte(c / 0x100), LowByte(c), LowByte(code % 100)]
    + if reason.Some? then reason.value else []
  }

  function TypesBytes(types: seq<AttrType>): Bytes {
    if types == [] then [] else Length16(types[0]) + TypesBytes(types[1..])
  }

  /** The value field of an attribute. MESSAGE-INTEGRITY and FINGERPRINT are computed by the
      message builder, not taken from here. */
  function ValueBytes(a: Attribute): Bytes {
    match a
    case XorMapped(x, p) => XorMappedBytes(x, p)
    case Mapped(x, p) => MappedBytes(x, p)
    case Username(n) => n
    case Software(n) => n
    case MessageIntegrity(d) => d
    case Fingerprint(c) => U32(MaskCrc(c))
    case Priority(p) => U32(p)
    case IceControlling(t) => U64(t)
    case IceControlled(t) => U64(t)
    case UseCandidate => []
    case UnknownAttributes(ts) => TypesBytes(ts)
    case ErrorCode(c, r) => ErrorCodeBytes(c, r)
    case AlternateServer(x, p) => MappedBytes(x, p)
  }

  // ---- Parsing ----

  function ParseMapped(v: Bytes): Result<Endpoint, AttrError> {
    if |v| < 4 then Err(OutOfRange)
    else match FamilyFromByte(v[1])
      case None => Err(UnknownAddressFamily)
      case Some(IPv4) =>
        if |v| == 8 then Ok(Endpoint(V4(v[4..]), ReadU16(v[2..4]))) else Err(InvalidAddressSize)
      case Some(IPv6) =>
        if |v| == 20 then Ok(Endpoint(V6(v[4..]), ReadU16(v[2..4]))) else Err(InvalidAddressSize)
  }

  function ParseXorMapped(v: Bytes): Result<Attribute, AttrError> {
    if |v| < 4 then Err(OutOfRange)
    else match FamilyFromByte(v[1])
      case None => Err(UnknownAddressFamily)
      case Some(f) =>
        match FromView(f, v[4..])
        case None => Err(InvalidAddressSize)
        case Some(x) => Ok(XorMapped(x, MaskPort(ReadU16(v[2..4]))))
  }

  function ParseErrorCode(v: Bytes): Result<Attribute, AttrError> {
    if |v| < 4 then Err(ErrorCodeSize)
    else
      var hundreds := Value(v[0]) * 0x10000 + Value(v[1]) * 0x100 + Value(v[2]);
      Ok(ErrorCode(hundreds * 100 + Value(v[3]), Some(v[4..])))
  }

  function ReadType(s: Bytes): AttrType
    requires |s| == 2
  {
    ReadLength16(s)
  }

  lemma TypeRoundTrip(t: AttrType)
    ensures ReadType(Length16(t)) == t
  {
    hide Length16, ReadLength16;
    Length16RoundTrip(t);
  }

  function ReadTypes(v: Bytes): (types: seq<AttrType>)
    requires |v| % 2 == 0
    ensures |types| == |v| / 2
    ensures forall i :: 0 <= i < |types| ==> types[i] == ReadType(v[2 * i..2 * i + 2])
  {
    seq(|v| / 2, i requires 0 <= i < |v| / 2 => ReadType(v[2 * i..2 * i + 2]))
  }

  function KnownResult(r: Result<Attribute, AttrError>): Result<Parsed, AttrError> {
    if r.Ok? then Ok(Known(r.value)) else Err(r.error)
  }

  /** Read one attribute by its type; a type outside the registry is kept as raw bytes. */
  function ParseAttribute(v: Bytes, t: AttrType): Result<Parsed, AttrError> {
    if t == MAPPED_ADDRESS then
      match ParseMapped(v)
      case Ok(e) => Ok(Known(Mapped(e.address, e.port)))
      case Err(e) => Err(e)
    else if t == XOR_MAPPED_ADDRESS then KnownResult(ParseXorMapped(v))
    else if t == USERNAME then Ok(Known(Username(v)))
    else if t == SOFTWARE then Ok(Known(Software(v)))
    else if t == MESSAGE_INTEGRITY then
      if |v| == DIGEST_SIZE then Ok(Known(MessageIntegrity(v))) else Err(IntegrityDigestSize)
    else if t == FINGERPRINT then
      if |v| >= 4 then Ok(Known(Fingerprint(MaskCrc(ReadU32(v[..4]))))) else Err(FingerprintCrcSize)
    else if t == PRIORITY then
      if |v| >= 4 then Ok(Known(Priority(ReadU32(v[..4])))) else Err(PrioritySize)
    else if t == ICE_CONTROLLING then
      if |v| >= 8 then Ok(Known(IceControlling(ReadU64(v[..8])))) else Err(IceControllingSize)
    else if t == ICE_CONTROLLED then
      if |v| >= 8 then Ok(Known(IceControlled(ReadU64(v[..8])))) else Err(IceControlledSize)
    else if t == USE_CANDIDATE then
      if |v| == 0 then Ok(Known(UseCandidate)) else Err(UseCandidateSize)
    else if t == ERROR_CODE then KnownResult(ParseErrorCode(v))
    else if t == ALTERNATE_SERVER then
      match ParseMapped(v)
      case Ok(e) => Ok(Known(AlternateServer(e.address, e.port)))
      case Err(e) => Err(e)
    else if t == UNKNOWN_ATTRIBUTES then
      if |v| % 2 == 0 then Ok(Known(UnknownAttributes(ReadTypes(v)))) else Err(UnknownAttributesSize)
    else Ok(Unknown(UnknownAttribute(t, v)))
  }

  // ---- Loops of UNKNOWN-ATTRIBUTES ----

  /** The reading loop. */
  method ReadTypesLoop(v: Bytes) returns (types: seq<AttrType>)
    requires |v| % 2 == 0
    ensures types == ReadTypes(v)
  {
    hide ReadType;
    types := [];
    for i := 0 to |v| / 2
      invariant |types| == i
      invariant forall k :: 0 <= k < i ==> types[k] == ReadType(v[2 * k..2 * k + 2])
    {
      types := types + [ReadType(v[2 * i..2 * i + 2])];
    }
  }

  /** The writing loop, into a buffer of the final size. */
  method WriteTypesLoop(types: seq<AttrType>) returns (out: array<byte>)
    ensures fresh(out)
    ensures out[..] == TypesBytes(types)
  {
    hide Length16;
    out := new byte[2 * |types|];
    var pos := 0;
    for i := 0 to |types|
      invariant pos == 2 * i
      invariant out[..pos] + TypesBytes(types[i..]) == TypesBytes(types)
    {
      ghost var before := out[..pos];
      var tv := Length16(types[i]);
      out[pos], out[pos + 1] := tv[0], tv[1];
      pos := pos + 2;
      assert out[..pos] == before + tv;
      assert types[i..][1..] == types[i + 1..];
      assert types[i..][0] == types[i];
    }
    assert out[..pos] == out[..];
  }

  // ---- What survives the wire ----

  /** MAPPED-ADDRESS and ALTERNATE-SERVER share the builder that loses the family. */
  predicate LosesFamily(a: Attribute) {
    a.Mapped? || a.AlternateServer?
  }

  /** The code's hundreds must fit the 24 bits they are given. */
  predicate Representable(a: Attribute) {
    a.ErrorCode? ==> a.code / 100 < 0x100_0000
  }

  /** An absent reason phrase reads back as an empty one. */
  function Canonical(a: Attribute): Attribute {
    if a.ErrorCode? && a.reason.None? then ErrorCode(a.code, Some([])) else a
  }

  /** What comes back of an attribute that keeps its family: of an error code the hundreds that
      fit, and a reason phrase. */
  function ReadBack(a: Attribute): Attribute {
    if a.ErrorCode?
    then ErrorCode(a.code / 100 % 0x100_0000 * 100 + a.code % 100, Some(if a.reason.Some? then a.reason.value else []))
    else a
  }

  lemma ReadBackExact(a: Attribute)
    ensures ReadBack(a) == Canonical(a) <==> Representable(a)
  {
    if a.ErrorCode? {
      CodeParts(a.code);
    }
  }

  lemma XorMappedRoundTrip(x: XoredAddress, port: bv16)
    ensures ParseXorMapped(XorMappedBytes(x, port)) == Ok(XorMapped(x, port))
  {
    hide U16, ReadU16, MaskPort;
    var v := XorMappedBytes(x, port);
    assert v[2..4] == U16(MaskPort(port));
    assert v[4..] == View(x);
    PortTwice(port);
    assert v[1] == FamilyByte(FamilyOf(x));
  }

  lemma PortTwice(port: bv16)
    ensures MaskPort(MaskPort(port)) == port
  {
  }

  lemma CrcTwice(crc: bv32)
    ensures MaskCrc(MaskCrc(crc)) == crc
  {
  }

  lemma {:induction false} TypesRoundTrip(types: seq<AttrType>)
    ensures |TypesBytes(types)| == 2 * |types|
    ensures ReadTypes(TypesBytes(types)) == types
  {
    hide Length16, ReadType;
    if types != [] {
      var v, rest := TypesBytes(types), TypesBytes(types[1..]);
      TypesRoundTrip(types[1..]);
      assert v[0..2] == Length16(types[0]);
      TypeRoundTrip(types[0]);
      forall i | 0 < i < |types| ensures v[2 * i..2 * i + 2] == rest[2 * (i - 1)..2 * (i - 1) + 2] {
      }
      forall i | 0 <= i < |types| ensures ReadTypes(v)[i] == types[i] {
        if i > 0 {
          assert ReadTypes(rest)[i - 1] == types[1..][i - 1];
        }
      }
    }
  }

  /** A 24-bit number survives three bytes; anything else does not. */
  lemma ThreeBytes(c: nat)
    ensures Value(LowByte(c / 0x10000)) * 0x10000 + Value(LowByte(c / 0x100)) * 0x100 + Value(LowByte(c))
            == c % 0x100_0000
  {
    hide Value, LowByte;
    LowByteValue(c / 0x10000);
    LowByteValue(c / 0x100);
    LowByteValue(c);
    ByteParts(c);
    HighParts(c);
  }

  lemma HighParts(c: nat)
    ensures c % 0x100_0000 == (c / 0x10000 % 0x100) * 0x10000 + c % 0x10000
  {
    var q, r := c / 0x100_0000, c % 0x100_0000;
    assert c == 0x10000 * (0x100 * q + r / 0x10000) + r % 0x10000;
    assert c / 0x10000 == 0x100 * q + r / 0x10000;
  }

  lemma ErrorCodeRoundTrip(code: nat, reason: Maybe<Bytes>)
    ensures
      var a := ErrorCode(code, reason);
      var r := ParseErrorCode(ErrorCodeBytes(code, reason));
      r == Ok(ReadBack(a)) && (r.value == Canonical(a) <==> Representable(a))
  {
    hide Value, LowByte;
    ThreeBytes(code / 100);
    LowByteValue(code % 100);
    var v := ErrorCodeBytes(code, reason);
    assert v[4..] == if reason.Some? then reason.value else [];
    CodeParts(code);
  }

  lemma CodeParts(code: nat)
    ensures code % 100 % 256 == code % 100
    ensures (code / 100 % 0x100_0000) * 100 + code % 100 == code <==> code / 100 < 0x100_0000
  {
    var c := code / 100;
    assert code == c * 100 + code % 100;
    assert c % 0x100_0000 == c <==> c < 0x100_0000;
  }

  /** What the parser makes of what the builder writes, for every attribute. */
  lemma AttributeReads(a: Attribute)
    ensures ParseAttribute(ValueBytes(a), TypeOf(a))
            == if LosesFamily(a) then Err(UnknownAddressFamily) else Ok(Known(ReadBack(a)))
  {
    hide ErrorCodeBytes, ParseErrorCode, XorMappedBytes, ParseXorMapped, MappedBytes, ParseMapped, TypesBytes,
      ReadTypes;
    if a.Fingerprint? || a.Priority? || a.IceControlling? || a.IceControlled? {
      NumberRoundTrip(a);
    } else {
      match a {
        case XorMapped(x, p) => XorMappedRoundTrip(x, p);
        case Mapped(x, p) => NoFamily(x, p);
        case AlternateServer(x, p) => NoFamily(x, p);
        case UnknownAttributes(ts) => TypesRoundTrip(ts);
        case ErrorCode(c, r) => ErrorCodeRoundTrip(c, r);
        case _ =>
      }
    }
  }

  /** An attribute read back from its own value field is itself (with an absent reason read as
      empty) exactly when it is not one of the two that lose the family byte and its error code,
      if any, fits; the two that lose the family byte never parse. */
  lemma AttributeRoundTrip(a: Attribute)
    ensures ParseAttribute(ValueBytes(a), TypeOf(a)) == Ok(Known(Canonical(a)))
            <==> !LosesFamily(a) && Representable(a)
    ensures LosesFamily(a) ==> ParseAttribute(ValueBytes(a), TypeOf(a)) == Err(UnknownAddressFamily)
  {
    AttributeReads(a);
    ReadBackExact(a);
    hide ParseAttribute, ValueBytes, ReadBack;
  }

  lemma NumberRoundTrip(a: Attribute)
    requires a.Fingerprint? || a.Priority? || a.IceControlling? || a.IceControlled?
    ensures ParseAttribute(ValueBytes(a), TypeOf(a)) == Ok(Known(a))
  {
    hide U32, ReadU32, U64, ReadU64, MaskCrc;
    match a {
      case Fingerprint(c) =>
        CrcTwice(c);
        assert U32(MaskCrc(c))[..4] == U32(MaskCrc(c));
      case Priority(p) => assert U32(p)[..4] == U32(p);
      case IceControlling(t) => U64RoundTrip(t); assert U64(t)[..8] == U64(t);
      case IceControlled(t) => U64RoundTrip(t); assert U64(t)[..8] == U64(t);
    }
  }

  lemma NoFamily(a: IpAddress, port: bv16)
    ensures ParseMapped(MappedBytes(a, port)) == Err(UnknownAddressFamily)
  {
    assert MappedBytes(a, port)[1] == U16(0)[1] == 0;
  }
}
