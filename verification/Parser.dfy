/** Message::parse and Message::is_valid. A read outside the buffer fails; a view of zero bytes
    at the very end of the buffer does not. */
module Parser {
  import opened Bytes
  import opened Hmac
  import opened Crc32
  import opened Address
  import opened Header
  import opened Attributes
  import opened Messages

  datatype ParseError =
    | InvalidMessageSize
    | NotPaddedAttributes
    | InvalidMessageLength
    | InvalidMagicCookie
    | InvalidAttrSize
    | FingerprintIsNotLast
    | FingerprintNotValid
    | InvalidAttribute(error: AttrError)

  // ---- Attribute headers ----

  datatype RawAttr = RawAttr(t: AttrType, v: Bytes)

  function ParseRaw(vv: Bytes, off: nat): (r: Maybe<RawAttr>)
    ensures r.Some? ==> off + 4 + |r.value.v| <= |vv| && r.value.v == vv[off + 4..off + 4 + |r.value.v|]
  {
    if off + 4 > |vv| then None
    else
      var length := ReadLength16(vv[off + 2..off + 4]);
      if off + 4 + length > |vv| then None
      else Some(RawAttr(ReadType(vv[off..off + 2]), vv[off + 4..off + 4 + length]))
  }

  /** An attribute is read exactly when the buffer holds, from the offset on, its type, its length
      and its value. */
  lemma RawExact(vv: Bytes, off: nat, raw: RawAttr)
    ensures ParseRaw(vv, off) == Some(raw)
            <==> |raw.v| < 0x10000 && off + 4 + |raw.v| <= |vv|
                 && vv[off..off + 4 + |raw.v|] == Length16(raw.t) + Length16(|raw.v|) + raw.v
  {
    hide Length16, ReadLength16, ReadType;
    if off + 4 <= |vv| {
      var t, n := vv[off..off + 2], vv[off + 2..off + 4];
      ReadLengthBack(n);
      TypeBack(t);
      if ParseRaw(vv, off) == Some(raw) {
        assert vv[off..off + 4 + |raw.v|] == t + n + raw.v;
      }
      if |raw.v| < 0x10000 && off + 4 + |raw.v| <= |vv|
         && vv[off..off + 4 + |raw.v|] == Length16(raw.t) + Length16(|raw.v|) + raw.v {
        var f := Length16(raw.t) + Length16(|raw.v|) + raw.v;
        Part(vv, off, f, 0, 2);
        Part(vv, off, f, 2, 4);
        Part(vv, off, f, 4, |f|);
        assert f[0..2] == Length16(raw.t) && f[2..4] == Length16(|raw.v|) && f[4..|f|] == raw.v;
        TypeRoundTrip(raw.t);
        Length16RoundTrip(|raw.v|);
      }
    }
  }

  lemma TypeBack(s: Bytes)
    requires |s| == 2
    ensures Length16(ReadType(s)) == s
  {
    ReadLengthBack(s);
  }

  /** The distance to the next attribute: the value rounded up to four bytes, and its header. */
  function AlignedLength(n: nat): (r: nat)
    ensures r >= 4
  {
    (n / 4 + if n % 4 == 0 then 0 else 1) * 4 + 4
  }

  lemma AlignedLengthIsPadded(n: nat)
    ensures n + 4 <= AlignedLength(n) < n + 8 && AlignedLength(n) % 4 == 0
  {
  }

  // ---- The attribute loop ----

  /** What the loop has gathered: kept attributes, and where the two special ones were seen. */
  datatype Scan = Scan(raws: seq<RawAttr>, integrity: Maybe<nat>, fingerprint: Maybe<nat>)

  const START := Scan([], None, None)

  function ScanStep(st: Scan, raw: RawAttr, off: nat): Scan {
    if raw.t == FINGERPRINT then st.(raws := st.raws + [raw], fingerprint := Some(off))
    else if raw.t == MESSAGE_INTEGRITY then st.(raws := st.raws + [raw], integrity := Some(off))
    else if st.integrity.None? then st.(raws := st.raws + [raw])
    else st
  }

  function ScanFrom(vv: Bytes, off: nat, st: Scan): Result<Scan, ParseError>
    decreases |vv| - off
  {
    if off >= |vv| then Ok(st)
    else match ParseRaw(vv, off)
      case None => Err(InvalidAttrSize)
      case Some(raw) =>
        if raw.t == FINGERPRINT && off + AlignedLength(|raw.v|) < |vv| then Err(FingerprintIsNotLast)
        else ScanFrom(vv, off + AlignedLength(|raw.v|), ScanStep(st, raw, off))
  }

  /** The loop over a buffer of whole words: its offset stays a multiple of four and inside. */
  method ScanLoop(vv: Bytes, start: nat) returns (r: Result<Scan, ParseError>)
    requires start <= |vv| && start % 4 == 0 && |vv| % 4 == 0
    ensures r == ScanFrom(vv, start, START)
  {
    hide ParseRaw, AlignedLength;
    var off, st := start, START;
    while off < |vv|
      invariant off <= |vv| && off % 4 == 0
      invariant ScanFrom(vv, off, st) == ScanFrom(vv, start, START)
    {
      var raw := ParseRaw(vv, off);
      if raw.None? {
        return Err(InvalidAttrSize);
      }
      AlignedLengthIsPadded(|raw.value.v|);
      if raw.value.t == FINGERPRINT && off + AlignedLength(|raw.value.v|) < |vv| {
        return Err(FingerprintIsNotLast);
      }
      st := ScanStep(st, raw.value, off);
      off := off + AlignedLength(|raw.value.v|);
    }
    r := Ok(st);
  }

  /** Read the kept attributes in order, stopping at the first that is malformed. */
  function ParseAll(raws: seq<RawAttr>): Result<seq<Parsed>, ParseError> {
    if raws == [] then Ok([])
    else match ParseAttribute(raws[0].v, raws[0].t)
      case Err(e) => Err(InvalidAttribute(e))
      case Ok(p) =>
        match ParseAll(raws[1..])
        case Err(e) => Err(e)
        case Ok(ps) => Ok([p] + ps)
  }

  /** The checksum carried by the last FINGERPRINT among the attributes. */
  function CarriedCrc(ps: seq<Parsed>): Maybe<bv32> {
    if ps == [] then None
    else
      var p := ps[|ps| - 1];
      if p.Known? && p.attr.Fingerprint? then Some(p.attr.crc) else CarriedCrc(ps[..|ps| - 1])
  }

  predicate FingerprintHolds(vv: Bytes, carried: Maybe<bv32>, at: Maybe<nat>) {
    carried.Some? ==> at.Some? && at.value <= |vv| && Crc(vv[..at.value]) == carried.value
  }

  // ---- Whole messages ----

  function ParseHeader(vv: Bytes): Result<(Header, bool), ParseError> {
    if |vv| < HEADER_SIZE then Err(InvalidMessageSize)
    else
      var t := ReadU16(vv[..2]);
      var length := ReadLength16(vv[2..4]);
      var cookie := ReadU32(vv[4..8]);
      if length % 4 != 0 then Err(NotPaddedAttributes)
      else if length != |vv| - HEADER_SIZE then Err(InvalidMessageLength)
      else
        var isRfc3489 := ClassOf(t) == Request && cookie != MAGIC_COOKIE;
        if !isRfc3489 && cookie != MAGIC_COOKIE then Err(InvalidMagicCookie)
        else
          var tid := if isRfc3489 then vv[4..20] else vv[8..20];
          Ok((Header(ClassOf(t), MethodOf(t), tid), isRfc3489))
  }

  function ParseBody(vv: Bytes, h: Header, isRfc3489: bool): Result<Message, ParseError> {
    match ScanFrom(vv, HEADER_SIZE, START)
    case Err(e) => Err(e)
    case Ok(scan) =>
      match ParseAll(scan.raws)
      case Err(e) => Err(e)
      case Ok(ps) =>
        if FingerprintHolds(vv, CarriedCrc(ps), scan.fingerprint)
        then Ok(Message(h, EmplaceAll(EMPTY, ps), isRfc3489, scan.integrity))
        else Err(FingerprintNotValid)
  }

  function ParseMessage(vv: Bytes): Result<Message, ParseError> {
    match ParseHeader(vv)
    case Err(e) => Err(e)
    case Ok(pair) => ParseBody(vv, pair.0, pair.1)
  }

  // ---- Integrity check ----

  function Integrity(s: AttributeSet): Maybe<Digest> {
    if MESSAGE_INTEGRITY in s.known && s.known[MESSAGE_INTEGRITY].MessageIntegrity?
    then Some(s.known[MESSAGE_INTEGRITY].digest) else None
  }

  /** The bytes the check hashes: a patched four-byte start, then the rest of what is covered. */
  function CheckedChunks(data: Bytes, covered: nat): seq<Bytes>
    requires 4 <= covered <= |data|
  {
    [[data[0], data[1]] + Length16(covered + 4), data[4..covered]]
  }

  /** None when the message carries no integrity; an error only from the hash. */
  function IsValid(m: Message, data: Bytes, i: IntegrityData): Result<Maybe<bool>, HashError> {
    if m.covered.None? || m.covered.value > |data| || m.covered.value < 4 then Ok(None)
    else match Integrity(m.attrs)
      case None => Ok(None)
      case Some(digest) =>
        match Mac(CheckedChunks(data, m.covered.value), i)
        case Err(e) => Err(e)
        case Ok(d) => Ok(Some(d == digest))
  }
}
