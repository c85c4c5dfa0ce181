/** The value fields of attributes as the standard writes them (section 14 of RFC 8489), whoever
    wrote them: what they look like, byte by byte and with the standard's own constants, and that
    the parser reads exactly that. */
module Encodings {
  import opened Bytes
  import opened Hmac
  import opened Crc32
  import opened Address
  import opened Header
  import opened Attributes

  function AddressBytes(a: IpAddress): Bytes {
    match a
    case V4(b) => b
    case V6(b) => b
  }

  /** An address family: 1 with four bytes of address, 2 with sixteen. */
  predicate FamilyFits(family: byte, address: Bytes) {
    (family == 1 && |address| == 4) || (family == 2 && |address| == 16)
  }

  /** A byte that is ignored, the family, the port and the address. */
  ghost predicate EncodesEndpoint(v: Bytes, a: IpAddress, port: bv16) {
    && |v| >= 4 && FamilyFits(v[1], v[4..]) && v[4..] == AddressBytes(a) && v[2..4] == U16(port)
    && (v[1] == 1 <==> a.V4?)
  }

  /** The same with the port masked by the upper half of the magic cookie 0x2112A442 and the
      address as it stands. */
  ghost predicate EncodesMasked(v: Bytes, x: XoredAddress, port: bv16) {
    && |v| >= 4 && FamilyFits(v[1], v[4..]) && v[4..] == View(x) && v[2..4] == U16(port ^ 0x2112)
    && (v[1] == 1 <==> x.XoredV4?)
  }

  /** Three bytes of hundreds, one of units, and the reason phrase. */
  ghost predicate EncodesCode(v: Bytes, code: nat, reason: Maybe<Bytes>) {
    && |v| >= 4 && reason == Some(v[4..])
    && code == (Value(v[0]) * 0x10000 + Value(v[1]) * 0x100 + Value(v[2])) * 100 + Value(v[3])
  }

  /** The checksum combined with the constant 0x5354554E. */
  ghost predicate EncodesCrc(v: Bytes, crc: bv32) {
    v == U32(crc ^ 0x5354554E)
  }

  /** Two bytes for every type, in order. */
  ghost predicate EncodesTypes(v: Bytes, types: seq<AttrType>) {
    |v| == 2 * |types| && forall i :: 0 <= i < |types| ==> v[2 * i..2 * i + 2] == Length16(types[i])
  }

  /** These bytes are the value of this attribute. Numbers take the bytes they need; what follows
      them is ignored. */
  ghost predicate Encodes(v: Bytes, a: Attribute) {
    match a
    case XorMapped(x, p) => EncodesMasked(v, x, p)
    case Mapped(x, p) => EncodesEndpoint(v, x, p)
    case AlternateServer(x, p) => EncodesEndpoint(v, x, p)
    case Username(n) => v == n
    case Software(n) => v == n
    case MessageIntegrity(d) => v == d
    case Fingerprint(c) => |v| >= 4 && EncodesCrc(v[..4], c)
    case Priority(p) => |v| >= 4 && v[..4] == U32(p)
    case IceControlling(n) => |v| >= 8 && v[..8] == U64(n)
    case IceControlled(n) => |v| >= 8 && v[..8] == U64(n)
    case UseCandidate => v == []
    case UnknownAttributes(types) => EncodesTypes(v, types)
    case ErrorCode(code, reason) => EncodesCode(v, code, reason)
  }

  /** The registered number of an attribute (section 18.3 of RFC 8489, section 20.1 of RFC 8445). */
  function RegisteredAs(a: Attribute): AttrType {
    match a
    case Mapped(_, _) => 0x0001
    case Username(_) => 0x0006
    case MessageIntegrity(_) => 0x0008
    case ErrorCode(_, _) => 0x0009
    case UnknownAttributes(_) => 0x000A
    case XorMapped(_, _) => 0x0020
    case Priority(_) => 0x0024
    case UseCandidate => 0x0025
    case Software(_) => 0x8022
    case AlternateServer(_, _) => 0x8023
    case Fingerprint(_) => 0x8028
    case IceControlled(_) => 0x8029
    case IceControlling(_) => 0x802A
  }

  lemma TypeIsRegistered(a: Attribute)
    ensures TypeOf(a) == RegisteredAs(a)
  {
  }

  // ---- Numbers there and back ----

  lemma Read16(s: Bytes, x: bv16)
    requires |s| == 2
    ensures ReadU16(s) == x <==> s == U16(x)
  {
  }

  lemma Read32(s: Bytes, x: bv32)
    requires |s| == 4
    ensures ReadU32(s) == x <==> s == U32(x)
  {
  }

  lemma Read64(s: Bytes, x: bv64)
    requires |s| == 8
    ensures ReadU64(s) == x <==> s == U64(x)
  {
    hide *;
    Read64Back(s);
    U64RoundTrip(x);
  }

  lemma Read64Back(s: Bytes)
    requires |s| == 8
    ensures U64(ReadU64(s)) == s
  {
    hide ReadU32, U32;
    Halves(ReadU32(s[..4]), ReadU32(s[4..]));
    Read32(s[..4], ReadU32(s[..4]));
    Read32(s[4..], ReadU32(s[4..]));
    assert s == s[..4] + s[4..];
  }

  lemma Halves(a: bv32, b: bv32)
    ensures
      var x := (a as bv64 << 32) | b as bv64;
      (x >> 32) as bv32 == a && (x & 0xFFFFFFFF) as bv32 == b
  {
  }

  lemma PortMask(port: bv16)
    ensures MaskPort(port) == port ^ 0x2112
  {
    assert (MAGIC_COOKIE >> 16) as bv16 == 0x2112;
  }

  lemma MaskPortIs(port: bv16, read: bv16)
    ensures MaskPort(port) == port ^ 0x2112 && (MaskPort(read) == port <==> read == port ^ 0x2112)
  {
    hide MaskPort;
    PortMask(port);
    PortTwice(port);
    PortTwice(read);
  }

  lemma CrcMask(crc: bv32)
    ensures MaskCrc(crc) == crc ^ 0x5354554E
  {
  }

  lemma MaskCrcIs(crc: bv32, read: bv32)
    ensures MaskCrc(crc) == crc ^ 0x5354554E && (MaskCrc(read) == crc <==> read == crc ^ 0x5354554E)
  {
    hide MaskCrc;
    CrcMask(crc);
    CrcTwice(crc);
    CrcTwice(read);
  }

  // ---- Addresses ----

  /** MAPPED-ADDRESS and ALTERNATE-SERVER values are read as an endpoint exactly when they encode
      it, whatever their first byte. */
  lemma MappedExact(v: Bytes, a: IpAddress, port: bv16)
    ensures ParseMapped(v) == Ok(Endpoint(a, port)) <==> EncodesEndpoint(v, a, port)
  {
    hide ReadU16, U16;
    if |v| >= 4 {
      Read16(v[2..4], port);
    }
  }

  /** Which values are refused, and why. */
  lemma MappedRefused(v: Bytes)
    ensures ParseMapped(v) == Err(OutOfRange) <==> |v| < 4
    ensures ParseMapped(v) == Err(UnknownAddressFamily) <==> |v| >= 4 && v[1] != 1 && v[1] != 2
    ensures ParseMapped(v) == Err(InvalidAddressSize)
            <==> |v| >= 4 && (v[1] == 1 || v[1] == 2) && !FamilyFits(v[1], v[4..])
    ensures ParseMapped(v).Ok? <==> |v| >= 4 && FamilyFits(v[1], v[4..])
  {
    hide ReadU16;
  }

  lemma XorMappedExact(v: Bytes, x: XoredAddress, port: bv16)
    ensures ParseXorMapped(v) == Ok(XorMapped(x, port)) <==> EncodesMasked(v, x, port)
  {
    hide ReadU16, U16, MaskPort;
    if |v| >= 4 {
      MaskPortIs(port, ReadU16(v[2..4]));
      Read16(v[2..4], port ^ 0x2112);
    }
  }

  lemma XorMappedRefused(v: Bytes)
    ensures ParseXorMapped(v) == Err(OutOfRange) <==> |v| < 4
    ensures ParseXorMapped(v) == Err(UnknownAddressFamily) <==> |v| >= 4 && v[1] != 1 && v[1] != 2
    ensures ParseXorMapped(v) == Err(InvalidAddressSize)
            <==> |v| >= 4 && (v[1] == 1 || v[1] == 2) && !FamilyFits(v[1], v[4..])
    ensures ParseXorMapped(v).Ok? <==> |v| >= 4 && FamilyFits(v[1], v[4..])
    ensures ParseXorMapped(v).Ok? ==> ParseXorMapped(v).value.XorMapped?
  {
    hide ReadU16, MaskPort;
  }

  // ---- Everything else ----

  lemma CrcExact(v: Bytes, crc: bv32)
    requires |v| == 4
    ensures MaskCrc(ReadU32(v)) == crc <==> EncodesCrc(v, crc)
  {
    hide MaskCrc, ReadU32, U32;
    MaskCrcIs(crc, ReadU32(v));
    Read32(v, crc ^ 0x5354554E);
  }

  lemma TypesExact(v: Bytes, types: seq<AttrType>)
    requires |v| % 2 == 0
    ensures ReadTypes(v) == types <==> EncodesTypes(v, types)
  {
    hide Length16, ReadType;
    if ReadTypes(v) == types {
      forall i | 0 <= i < |types| ensures v[2 * i..2 * i + 2] == Length16(types[i]) {
        TypeWritten(v[2 * i..2 * i + 2]);
      }
    }
    if EncodesTypes(v, types) {
      forall i | 0 <= i < |types| ensures ReadType(v[2 * i..2 * i + 2]) == types[i] {
        TypeRoundTrip(types[i]);
      }
    }
  }

  lemma TypeWritten(s: Bytes)
    requires |s| == 2
    ensures Length16(ReadType(s)) == s
  {
    ReadLengthBack(s);
  }

  lemma CodeExact(v: Bytes, code: nat, reason: Maybe<Bytes>)
    ensures ParseErrorCode(v) == Ok(ErrorCode(code, reason)) <==> EncodesCode(v, code, reason)
    ensures ParseErrorCode(v).Err? <==> |v| < 4
    ensures ParseErrorCode(v).Err? ==> ParseErrorCode(v) == Err(ErrorCodeSize)
    ensures ParseErrorCode(v).Ok? ==> ParseErrorCode(v).value.ErrorCode?
  {
    hide Value;
  }

  /** For every value, type and attribute: the parser reads the attribute exactly when the type is
      the attribute's registered one and the value encodes it. */
  lemma ParseExact(v: Bytes, t: AttrType, a: Attribute)
    ensures ParseAttribute(v, t) == Ok(Known(a)) <==> t == RegisteredAs(a) && Encodes(v, a)
  {
    hide *;
    OwnType(v, t);
    TypeIsRegistered(a);
    if t == TypeOf(a) {
      ReadExact(v, a);
    }
  }

  lemma ReadExact(v: Bytes, a: Attribute)
    ensures ParseAttribute(v, TypeOf(a)) == Ok(Known(a)) <==> Encodes(v, a)
  {
    hide ParseMapped, ParseXorMapped, ParseErrorCode, ReadTypes, MaskCrc, ReadU32, ReadU64, U32, U64;
    hide EncodesEndpoint, EncodesMasked, EncodesCode, EncodesTypes, EncodesCrc;
    match a {
      case XorMapped(x, p) => XorMappedExact(v, x, p);
      case Mapped(x, p) => MappedExact(v, x, p);
      case AlternateServer(x, p) => MappedExact(v, x, p);
      case ErrorCode(c, r) => CodeExact(v, c, r);
      case UnknownAttributes(types) => TypesParsed(v, types);
      case Fingerprint(c) => if |v| >= 4 { CrcExact(v[..4], c); }
      case Priority(p) => if |v| >= 4 { Read32(v[..4], p); }
      case IceControlling(n) => if |v| >= 8 { Read64(v[..8], n); }
      case IceControlled(n) => if |v| >= 8 { Read64(v[..8], n); }
      case _ =>
    }
  }

  lemma TypesParsed(v: Bytes, types: seq<AttrType>)
    ensures ParseAttribute(v, UNKNOWN_ATTRIBUTES) == Ok(Known(UnknownAttributes(types))) <==> EncodesTypes(v, types)
  {
    if |v| % 2 == 0 {
      TypesExact(v, types);
    } else {
      assert |v| != 2 * |types|;
    }
    hide ReadTypes;
  }

  lemma OwnType(v: Bytes, t: AttrType)
    ensures ParseAttribute(v, t).Ok? && ParseAttribute(v, t).value.Known? ==>
      TypeOf(ParseAttribute(v, t).value.attr) == t
  {
    hide ParseMapped, ParseXorMapped, ParseErrorCode, ReadTypes, MaskCrc, ReadU32, ReadU64, FamilyFits;
    XorMappedRefused(v);
    CodeExact(v, 0, None);
  }

  /** A value is kept as unknown exactly when its type is, and then as it is. */
  lemma UnknownExact(v: Bytes, t: AttrType, u: UnknownAttribute)
    ensures ParseAttribute(v, t) == Ok(Unknown(u)) <==> !Registered(t) && u == UnknownAttribute(t, v)
  {
    hide ParseMapped, ParseXorMapped, ParseErrorCode, ReadTypes, MaskCrc, ReadU32, ReadU64;
  }

  /** A value of this type is refused exactly when it is bad, and then with this error. */
  ghost predicate RefusedIff(v: Bytes, t: AttrType, bad: bool, e: AttrError) {
    (bad ==> ParseAttribute(v, t) == Err(e)) && (!bad ==> ParseAttribute(v, t).Ok?)
  }

  /** Which values of a known type are refused, and why; names and values of unknown types never are. */
  lemma ValueRefused(v: Bytes, t: AttrType)
    ensures t == MAPPED_ADDRESS || t == ALTERNATE_SERVER || t == XOR_MAPPED_ADDRESS ==>
      && (ParseAttribute(v, t) == Err(OutOfRange) <==> |v| < 4)
      && (ParseAttribute(v, t) == Err(UnknownAddressFamily) <==> |v| >= 4 && v[1] != 1 && v[1] != 2)
      && (ParseAttribute(v, t) == Err(InvalidAddressSize)
          <==> |v| >= 4 && (v[1] == 1 || v[1] == 2) && !FamilyFits(v[1], v[4..]))
      && (ParseAttribute(v, t).Ok? <==> |v| >= 4 && FamilyFits(v[1], v[4..]))
    ensures RefusedIff(v, MESSAGE_INTEGRITY, |v| != 20, IntegrityDigestSize)
    ensures RefusedIff(v, FINGERPRINT, |v| < 4, FingerprintCrcSize)
    ensures RefusedIff(v, PRIORITY, |v| < 4, PrioritySize)
    ensures RefusedIff(v, ICE_CONTROLLING, |v| < 8, IceControllingSize)
    ensures RefusedIff(v, ICE_CONTROLLED, |v| < 8, IceControlledSize)
    ensures RefusedIff(v, USE_CANDIDATE, v != [], UseCandidateSize)
    ensures RefusedIff(v, ERROR_CODE, |v| < 4, ErrorCodeSize)
    ensures RefusedIff(v, UNKNOWN_ATTRIBUTES, |v| % 2 == 1, UnknownAttributesSize)
    ensures t == USERNAME || t == SOFTWARE || !Registered(t) ==> ParseAttribute(v, t).Ok?
  {
    hide ParseMapped, ParseXorMapped, ParseErrorCode, ReadTypes, MaskCrc, ReadU32, ReadU64, FamilyFits;
    MappedRefused(v);
    XorMappedRefused(v);
    CodeExact(v, 0, None);
  }

  /** On the wire, comprehension is required exactly when the type's first bit is clear. */
  lemma RequiredOnWire(t: AttrType)
    ensures ComprehensionRequired(t) <==> Length16(t)[0] & 0x80 == 0
  {
    hide Value, LowByte;
    LowByteValue(t / 256);
    TopBit(LowByte(t / 256));
  }

  lemma TopBit(b: byte)
    ensures Value(b) < 128 <==> b & 0x80 == 0
  {
    HighTop(High(b));
    HighBit(b);
    hide High, Low;
  }

  lemma HighBit(b: byte)
    ensures b & 0x80 == 0 <==> High(b) & 8 == 0
  {
  }

  lemma HighTop(x: bv4)
    ensures x as nat < 8 <==> x & 8 == 0
  {
  }

  // ---- What this library writes ----

  /** The builder's value encodes the attribute as it will be read back, unless the family is lost. */
  lemma WrittenEncodes(a: Attribute)
    requires !LosesFamily(a)
    ensures Encodes(ValueBytes(a), ReadBack(a))
  {
    AttributeReads(a);
    ParseExact(ValueBytes(a), TypeOf(a), ReadBack(a));
    hide ParseAttribute, ValueBytes, Encodes;
  }

  /** Where it is lost it is the only thing missing: with the family byte put in, the value encodes
      the endpoint. */
  lemma FamilyIsAllThatIsLost(a: IpAddress, port: bv16)
    ensures
      var v := MappedBytes(a, port);
      |v| >= 4 && EncodesEndpoint(v[1 := if a.V4? then 1 else 2], a, port)
  {
    hide U16;
    var v := MappedBytes(a, port);
    var w := v[1 := if a.V4? then 1 else 2];
    assert v[2..4] == U16(port) && v[4..] == AddressBytes(a);
    assert w[2..4] == v[2..4] && w[4..] == v[4..];
  }

  /** The bytes of the magic cookie. */
  const COOKIE: Bytes := [0x21, 0x12, 0xA4, 0x42]

  lemma CookieBytes()
    ensures U32(MAGIC_COOKIE) == COOKIE
  {
  }

  /** Numbers are written with their most significant byte first. */
  lemma NetworkOrder()
    ensures U16(0x0102) == [1, 2] && U32(0x01020304) == [1, 2, 3, 4]
    ensures U64(0x0102030405060708) == [1, 2, 3, 4, 5, 6, 7, 8]
  {
  }

  /** XOR-MAPPED-ADDRESS on the wire, for every address, port and transaction id: the port combined
      with 0x2112, the address with the bytes 21 12 A4 42 and, if it is longer, the id. */
  lemma XorMappedOnWire(a: IpAddress, port: bv16, tid: TransactionId)
    ensures
      var v := ValueBytes(XorMapped(FromAddress(a, tid), port));
      var mask := COOKIE + tid[..12];
      && |v| == 4 + |AddressBytes(a)| && v[0] == 0 && v[1] == (if a.V4? then 1 else 2) && v[2..4] == U16(port ^ 0x2112)
      && forall i :: 0 <= i < |AddressBytes(a)| ==> v[4 + i] == AddressBytes(a)[i] ^ mask[i]
  {
    hide U16, MaskPort, U32;
    CookieBytes();
    MaskPortIs(port, 0);
    var v := ValueBytes(XorMapped(FromAddress(a, tid), port));
    assert v[2..4] == U16(MaskPort(port));
    assert v[4..] == View(FromAddress(a, tid));
    forall i | 0 <= i < |AddressBytes(a)| ensures v[4 + i] == AddressBytes(a)[i] ^ (COOKIE + tid[..12])[i] {
      assert v[4 + i] == v[4..][i];
      if i >= 4 {
        assert Mask(tid)[i] == tid[i - 4];
      } else {
        assert a.V6? ==> Mask(tid)[i] == Mask(tid)[..4][i];
      }
    }
  }
}
