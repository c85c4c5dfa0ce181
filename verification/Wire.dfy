/** Which buffers the parser accepts and as what, in terms of the bytes alone. */
module Wire {
  import opened Bytes
  import opened Crc32
  import opened Address
  import opened Header
  import opened Attributes
  import opened Messages
  import opened Builder
  import opened Parser
  import opened RoundTrip
  import opened Tiling
  import opened Encodings

  // ---- The header ----

  /** Twenty bytes that say what the message is and how many bytes follow, in whole words. */
  ghost predicate HeaderLayout(vv: Bytes, h: Header, isRfc3489: bool) {
    && HEADER_SIZE <= |vv| < HEADER_SIZE + 0x10000 && |vv| % 4 == 0
    && vv[..HEADER_SIZE] == HeaderBytes(h, |vv| - HEADER_SIZE)
    && IdSurvives(h) && isRfc3489 == (|h.tid| == 16)
  }

  lemma HeaderWritten(vv: Bytes, h: Header, isRfc3489: bool)
    requires HeaderLayout(vv, h, isRfc3489)
    ensures ParseHeader(vv) == Ok((h, isRfc3489))
  {
    hide ParseHeader, HeaderBytes, IdSurvives;
    var body := vv[HEADER_SIZE..];
    BodyWhole(vv);
    assert vv == HeaderBytes(h, |body|) + body;
    HeaderRoundTrip(h, body);
    var r := ParseHeader(HeaderBytes(h, |body|) + body);
    assert r.value == (r.value.0, r.value.1);
  }

  lemma BodyWhole(vv: Bytes)
    requires |vv| >= HEADER_SIZE && |vv| % 4 == 0
    ensures |vv[HEADER_SIZE..]| % 4 == 0 && vv == vv[..HEADER_SIZE] + vv[HEADER_SIZE..]
  {
  }

  lemma HeaderRead(vv: Bytes, h: Header, isRfc3489: bool)
    requires ParseHeader(vv) == Ok((h, isRfc3489))
    ensures HeaderLayout(vv, h, isRfc3489)
  {
    hide ReadU16, ReadLength16, ReadU32, U16, U32, Length16, ClassOf, MethodOf, HeaderBytes, MessageType;
    var w := HeaderBytes(h, |vv| - HEADER_SIZE);
    Read16(vv[..2], ReadU16(vv[..2]));
    MessageTypeBijective(Request, 0, ReadU16(vv[..2]));
    ReadLengthBack(vv[2..4]);
    Read32(vv[4..8], MAGIC_COOKIE);
    if |h.tid| == 12 {
      assert w == w[..2] + w[2..4] + w[4..8] + w[8..];
      assert vv[..20] == vv[..2] + vv[2..4] + vv[4..8] + vv[8..20];
    } else {
      assert w == w[..2] + w[2..4] + w[4..];
      assert vv[..20] == vv[..2] + vv[2..4] + vv[4..20];
      assert h.tid[..4] == vv[4..8];
    }
  }

  /** For every buffer: its header is read as this one exactly when its first twenty bytes are those
      of this header with the length of what follows. */
  lemma HeaderExact(vv: Bytes, h: Header, isRfc3489: bool)
    ensures ParseHeader(vv) == Ok((h, isRfc3489)) <==> HeaderLayout(vv, h, isRfc3489)
  {
    if ParseHeader(vv) == Ok((h, isRfc3489)) {
      HeaderRead(vv, h, isRfc3489);
    }
    if HeaderLayout(vv, h, isRfc3489) {
      HeaderWritten(vv, h, isRfc3489);
    }
    hide *;
  }

  /** Why a header is refused: each reason exactly when none before it applies. */
  lemma HeaderRefused(vv: Bytes)
    ensures ParseHeader(vv) == Err(InvalidMessageSize) <==> |vv| < 20
    ensures |vv| >= 20 ==>
      var length := ReadLength16(vv[2..4]);
      && (ParseHeader(vv) == Err(NotPaddedAttributes) <==> length % 4 != 0)
      && (ParseHeader(vv) == Err(InvalidMessageLength) <==> length % 4 == 0 && length != |vv| - 20)
      && (ParseHeader(vv) == Err(InvalidMagicCookie)
          <==> length % 4 == 0 && length == |vv| - 20 && vv[4..8] != COOKIE && ClassOf(ReadU16(vv[..2])) != Request)
  {
    hide ReadU16, ReadLength16, ReadU32, U32, ClassOf, MethodOf;
    CookieBytes();
    if |vv| >= 20 {
      Read32(vv[4..8], MAGIC_COOKIE);
    }
  }

  /** A binding message starts with these two bytes, by class. */
  lemma BindingTypes(tid: TransactionId, len: nat)
    ensures HeaderBytes(Header(Request, BINDING, tid), len)[..2] == [0x00, 0x01]
    ensures HeaderBytes(Header(Indication, BINDING, tid), len)[..2] == [0x00, 0x11]
    ensures HeaderBytes(Header(SuccessResponse, BINDING, tid), len)[..2] == [0x01, 0x01]
    ensures HeaderBytes(Header(ErrorResponse, BINDING, tid), len)[..2] == [0x01, 0x11]
  {
    BindingNumbers();
    hide HeaderBytes, MessageType, Length16;
  }

  lemma BindingNumbers()
    ensures MessageType(Request, BINDING) == 0x0001 && MessageType(Indication, BINDING) == 0x0011
    ensures MessageType(SuccessResponse, BINDING) == 0x0101 && MessageType(ErrorResponse, BINDING) == 0x0111
  {
  }

  // ---- The attributes ----

  /** A value field is read as this: an attribute it encodes, or the unknown attribute it is. */
  ghost predicate Reads(raw: RawAttr, p: Parsed) {
    match p
    case Known(a) => raw.t == RegisteredAs(a) && Encodes(raw.v, a)
    case Unknown(u) => !Registered(raw.t) && u == UnknownAttribute(raw.t, raw.v)
  }

  lemma ReadsExact(raw: RawAttr, p: Parsed)
    ensures ParseAttribute(raw.v, raw.t) == Ok(p) <==> Reads(raw, p)
  {
    hide ParseAttribute, Encodes, RegisteredAs, Registered;
    match p {
      case Known(a) => ParseExact(raw.v, raw.t, a);
      case Unknown(u) => UnknownExact(raw.v, raw.t, u);
    }
  }

  ghost predicate AllRead(raws: seq<RawAttr>, ps: seq<Parsed>) {
    |ps| == |raws| && forall i :: 0 <= i < |raws| ==> Reads(raws[i], ps[i])
  }

  lemma {:induction false} AllReadExact(raws: seq<RawAttr>, ps: seq<Parsed>)
    ensures ParseAll(raws) == Ok(ps) <==> AllRead(raws, ps)
    decreases |raws|
  {
    hide ParseAttribute, Reads;
    if raws != [] && ps != [] {
      ReadsExact(raws[0], ps[0]);
      AllReadExact(raws[1..], ps[1..]);
      assert ps == [ps[0]] + ps[1..] && raws == [raws[0]] + raws[1..];
      AllReadCons(raws, ps);
    }
  }

  lemma AllReadCons(raws: seq<RawAttr>, ps: seq<Parsed>)
    requires raws != [] && ps != []
    ensures AllRead(raws, ps) <==> Reads(raws[0], ps[0]) && AllRead(raws[1..], ps[1..])
  {
    hide Reads;
    if Reads(raws[0], ps[0]) && AllRead(raws[1..], ps[1..]) {
      forall i | 0 <= i < |raws| ensures Reads(raws[i], ps[i]) {
        if i > 0 {
          assert Reads(raws[1..][i - 1], ps[1..][i - 1]);
        }
      }
    }
    if AllRead(raws, ps) {
      forall i | 0 <= i < |raws| - 1 ensures Reads(raws[1..][i], ps[1..][i]) {
        assert Reads(raws[i + 1], ps[i + 1]);
      }
    }
  }

  /** What the builder writes for an attribute whose size fits its field: type, size, value, and
      fewer than four bytes of padding, all zero, to the next whole word. */
  lemma FieldExact(i: Item)
    requires |i.v| < 0x10000
    ensures
      var f, n := Field(i), 4 + |i.v|;
      && n <= |f| < n + 4 && |f| % 4 == 0
      && f[..n] == Length16(i.t) + Length16(|i.v|) + i.v
      && forall k :: n <= k < |f| ==> f[k] == 0
  {
    FieldAligned(i);
    FieldHeaderReads(i.t, |i.v|);
    hide FieldHeader, Length16;
    var w := FieldHeader(i.t, |i.v|);
    assert w == w[..2] + w[2..];
    assert Field(i)[..4 + |i.v|] == w + i.v;
  }

  /** The four bytes before a value announce its type and size exactly when the size fits 16 bits. */
  lemma SizeFits(t: AttrType, n: nat)
    ensures ReadType(FieldHeader(t, n)[..2]) == t && ReadLength16(FieldHeader(t, n)[2..]) == n <==> n < 0x10000
  {
    hide Length16, ReadLength16, LowByte;
    Length16RoundTrip(n);
    assert FieldHeader(t, n)[2..] == Length16(n);
    if n < 0x10000 {
      FieldHeaderReads(t, n);
      TypeRoundTrip(t);
    }
  }

  /** A larger size leaks into the type: a user name of 65536 bytes is announced as an empty
      attribute of type 7. */
  lemma SizeLeaks()
    ensures FieldHeader(USERNAME, 0x10000) == [0, 7, 0, 0]
  {
    assert LowByte(0) == 0 && LowByte(6) == 6 && LowByte(1) == 1 && LowByte(0x100) == 0 && LowByte(0x10000) == 0;
    assert USERNAME / 0x100 == 0 && 0x10000 / 0x100_0000 == 0 && 0x10000 / 0x10000 == 1 && 0x10000 / 256 == 0x100;
  }

  // ---- The fingerprint ----

  predicate EndsWithFingerprint(raws: seq<RawAttr>) {
    raws != [] && raws[|raws| - 1].t == FINGERPRINT
  }

  /** A fingerprint at the end starts with the CRC-32 of all bytes before its header, combined with
      the standard's constant. */
  ghost predicate Sealed(vv: Bytes, raws: seq<RawAttr>) {
    EndsWithFingerprint(raws) ==>
      var last := raws[|raws| - 1];
      && |last.v| >= 4 && AlignedLength(|last.v|) <= |vv|
      && EncodesCrc(last.v[..4], Reference(vv[..|vv| - AlignedLength(|last.v|)]))
  }

  lemma {:induction false} LastTile(vv: Bytes, off: nat, raws: seq<RawAttr>)
    requires WellTiled(vv, off, raws)
    ensures EndsWithFingerprint(raws) ==>
      var n := AlignedLength(|raws[|raws| - 1].v|);
      n <= |vv| && LastAt(raws, off, FINGERPRINT) == Some(|vv| - n)
    ensures !EndsWithFingerprint(raws) ==> LastAt(raws, off, FINGERPRINT) == None
    decreases |raws|
  {
    hide ParseRaw, AlignedLength;
    if raws != [] {
      var off' := off + AlignedLength(|raws[0].v|);
      assert forall k :: 0 <= k < |raws[1..]| ==> raws[1..][k] == raws[k + 1];
      LastTile(vv, off', raws[1..]);
      if |raws| > 1 {
        assert raws[1..][|raws| - 2] == raws[|raws| - 1];
        assert raws[0].t != FINGERPRINT;
      }
    }
  }

  lemma {:induction false} SpecialKeeps(raws: seq<RawAttr>)
    ensures EndsWithFingerprint(raws) ==>
      EndsWithFingerprint(SpecialOnly(raws)) && SpecialOnly(raws)[|SpecialOnly(raws)| - 1] == raws[|raws| - 1]
    ensures forall k :: 0 <= k < |SpecialOnly(raws)| ==> SpecialOnly(raws)[k] in raws
  {
    if raws != [] {
      SpecialKeeps(raws[1..]);
      assert raws == [raws[0]] + raws[1..];
      if |raws| > 1 {
        assert raws[1..][|raws| - 2] == raws[|raws| - 1];
      }
    }
  }

  lemma KeptLast(raws: seq<RawAttr>)
    requires FingerprintLast(raws)
    ensures EndsWithFingerprint(raws) ==>
      EndsWithFingerprint(Kept(raws)) && Kept(raws)[|Kept(raws)| - 1] == raws[|raws| - 1]
    ensures !EndsWithFingerprint(raws) ==> forall k :: 0 <= k < |Kept(raws)| ==> Kept(raws)[k].t != FINGERPRINT
  {
    var k := FirstIntegrity(raws);
    SpecialKeeps(raws[k..]);
    if EndsWithFingerprint(raws) {
      if k < |raws| {
        assert raws[k..][|raws| - k - 1] == raws[|raws| - 1];
      } else {
        assert raws[k..] == [] && SpecialOnly(raws[k..]) == [];
        assert Kept(raws) == raws;
      }
    } else {
      forall i | 0 <= i < |Kept(raws)| ensures Kept(raws)[i].t != FINGERPRINT {
        assert Kept(raws)[i] in raws by {
          if i >= k {
            assert Kept(raws)[i] == SpecialOnly(raws[k..])[i - k];
          }
        }
        var j :| 0 <= j < |raws| && raws[j] == Kept(raws)[i];
      }
    }
  }

  lemma {:induction false} NoCrc(raws: seq<RawAttr>, ps: seq<Parsed>)
    requires AllRead(raws, ps) && forall k :: 0 <= k < |raws| ==> raws[k].t != FINGERPRINT
    ensures CarriedCrc(ps) == None
    decreases |ps|
  {
    hide Encodes;
    if ps != [] {
      var n := |ps| - 1;
      assert Reads(raws[n], ps[n]);
      NoCrc(raws[..n], ps[..n]);
    }
  }

  lemma LastCrc(raws: seq<RawAttr>, ps: seq<Parsed>)
    requires AllRead(raws, ps) && EndsWithFingerprint(raws)
    ensures
      var v, crc := raws[|raws| - 1].v, CarriedCrc(ps);
      crc.Some? && |v| >= 4 && forall c :: EncodesCrc(v[..4], c) <==> c == crc.value
  {
    var n := |raws| - 1;
    var v := raws[n].v;
    assert Reads(raws[n], ps[n]);
    FingerprintReads(raws[n], ps[n]);
    var crc := ps[n].attr.crc;
    hide Encodes, Reads, AllRead, EncodesCrc, MaskCrc, ReadU32;
    forall c ensures EncodesCrc(v[..4], c) <==> c == crc {
      CrcExact(v[..4], c);
      CrcExact(v[..4], crc);
    }
  }

  lemma FingerprintReads(raw: RawAttr, p: Parsed)
    requires Reads(raw, p) && raw.t == FINGERPRINT
    ensures p.Known? && p.attr.Fingerprint? && |raw.v| >= 4 && EncodesCrc(raw.v[..4], p.attr.crc)
  {
    hide EncodesCrc;
  }

  lemma SealExact(vv: Bytes, raws: seq<RawAttr>, ps: seq<Parsed>)
    requires WellTiled(vv, HEADER_SIZE, raws) && AllRead(Kept(raws), ps)
    ensures FingerprintHolds(vv, CarriedCrc(ps), LastAt(raws, HEADER_SIZE, FINGERPRINT)) <==> Sealed(vv, raws)
  {
    hide WellTiled, AllRead, Kept, AlignedLength, LastAt, CarriedCrc, EncodesCrc, Crc, Reference, FingerprintLast;
    LastTile(vv, HEADER_SIZE, raws);
    TiledLast(vv, HEADER_SIZE, raws);
    KeptLast(raws);
    if EndsWithFingerprint(raws) {
      LastCrc(Kept(raws), ps);
      var at := |vv| - AlignedLength(|raws[|raws| - 1].v|);
      TableFormIsCrc32(vv[..at]);
    } else {
      NoCrc(Kept(raws), ps);
    }
  }

  lemma TiledLast(vv: Bytes, off: nat, raws: seq<RawAttr>)
    requires WellTiled(vv, off, raws)
    ensures FingerprintLast(raws)
  {
    hide Tiles;
  }

  // ---- The whole message ----

  /** The buffer is this message: its header; a body tiled by these attributes, any fingerprint last
      and matching; the kept ones read as these, and filed in order. */
  ghost predicate Layout(vv: Bytes, raws: seq<RawAttr>, ps: seq<Parsed>, m: Message) {
    && HeaderLayout(vv, m.header, m.isRfc3489)
    && WellTiled(vv, HEADER_SIZE, raws) && AllRead(Kept(raws), ps) && Sealed(vv, raws)
    && m.attrs == EmplaceAll(EMPTY, ps) && m.covered == LastAt(raws, HEADER_SIZE, MESSAGE_INTEGRITY)
  }

  lemma LayoutAccepted(vv: Bytes, raws: seq<RawAttr>, ps: seq<Parsed>, m: Message)
    requires Layout(vv, raws, ps, m)
    ensures ParseMessage(vv) == Ok(m)
  {
    hide ParseHeader, WellTiled, AllRead, Kept, Sealed, LastAt, EmplaceAll, HeaderLayout, ParseAll, CarriedCrc,
      FingerprintHolds, ParseMessage;
    HeaderExact(vv, m.header, m.isRfc3489);
    AllReadExact(Kept(raws), ps);
    SealExact(vv, raws, ps);
    TiledMessage(vv, raws);
  }

  lemma AcceptedLayout(vv: Bytes, m: Message) returns (raws: seq<RawAttr>, ps: seq<Parsed>)
    requires ParseMessage(vv) == Ok(m)
    ensures Layout(vv, raws, ps, m)
  {
    hide ParseHeader, WellTiled, AllRead, Kept, Sealed, LastAt, EmplaceAll, HeaderLayout, ParseAll, CarriedCrc,
      FingerprintHolds, ParseMessage;
    AcceptedExact(vv);
    raws :| Acceptable(vv, raws);
    TiledMessage(vv, raws);
    var pair := ParseHeader(vv).value;
    assert pair == (pair.0, pair.1);
    HeaderExact(vv, m.header, m.isRfc3489);
    ps := ParseAll(Kept(raws)).value;
    AllReadExact(Kept(raws), ps);
    SealExact(vv, raws, ps);
  }

  /** For every buffer and message: the parser gives this message exactly when the bytes lay it out. */
  lemma MessageExact(vv: Bytes, m: Message)
    ensures ParseMessage(vv) == Ok(m) <==> exists raws, ps :: Layout(vv, raws, ps, m)
  {
    hide *;
    if ParseMessage(vv) == Ok(m) {
      var raws, ps := AcceptedLayout(vv, m);
    }
    forall raws, ps | Layout(vv, raws, ps, m) ensures ParseMessage(vv) == Ok(m) {
      LayoutAccepted(vv, raws, ps, m);
    }
  }

  // ---- What is refused, and why ----

  /** From off the buffer holds these attributes up to end, none of them a fingerprint. */
  ghost predicate Walks(vv: Bytes, off: nat, raws: seq<RawAttr>, end: nat)
    decreases |raws|
  {
    if raws == [] then off == end
    else
      && off < |vv| && ParseRaw(vv, off) == Some(raws[0]) && raws[0].t != FINGERPRINT
      && Walks(vv, off + AlignedLength(|raws[0].v|), raws[1..], end)
  }

  /** At this place there is no attribute that fits the buffer, or a fingerprint with more behind it. */
  ghost predicate Stuck(vv: Bytes, at: nat, e: ParseError) {
    && at < |vv|
    && match ParseRaw(vv, at)
       case None => e == InvalidAttrSize
       case Some(raw) => raw.t == FINGERPRINT && at + AlignedLength(|raw.v|) < |vv| && e == FingerprintIsNotLast
  }

  lemma {:induction false} ScanSticks(vv: Bytes, off: nat, st: Scan) returns (raws: seq<RawAttr>, end: nat)
    requires ScanFrom(vv, off, st).Err?
    ensures Walks(vv, off, raws, end) && Stuck(vv, end, ScanFrom(vv, off, st).error)
    decreases |vv| - off
  {
    hide ParseRaw, AlignedLength, ScanStep;
    raws, end := [], off;
    if !Stuck(vv, off, ScanFrom(vv, off, st).error) {
      var raw := ParseRaw(vv, off).value;
      var off' := off + AlignedLength(|raw.v|);
      var rest;
      rest, end := ScanSticks(vv, off', ScanStep(st, raw, off));
      raws := [raw] + rest;
      assert raws[1..] == rest;
    }
  }

  lemma {:induction false} StuckScans(vv: Bytes, off: nat, st: Scan, raws: seq<RawAttr>, end: nat, e: ParseError)
    requires Walks(vv, off, raws, end) && Stuck(vv, end, e)
    ensures ScanFrom(vv, off, st) == Err(e)
    decreases |raws|
  {
    hide ParseRaw, AlignedLength, ScanStep;
    if raws != [] {
      StuckScans(vv, off + AlignedLength(|raws[0].v|), ScanStep(st, raws[0], off), raws[1..], end, e);
    }
  }

  /** The first attribute that is malformed, and how. */
  ghost predicate BadAt(raws: seq<RawAttr>, k: nat, e: ParseError) {
    && k < |raws| && (forall i :: 0 <= i < k ==> ParseAttribute(raws[i].v, raws[i].t).Ok?)
    && e.InvalidAttribute? && ParseAttribute(raws[k].v, raws[k].t) == Err(e.error)
  }

  lemma {:induction false} BadFound(raws: seq<RawAttr>) returns (k: nat)
    requires ParseAll(raws).Err?
    ensures BadAt(raws, k, ParseAll(raws).error)
    decreases |raws|
  {
    hide ParseAttribute;
    if ParseAttribute(raws[0].v, raws[0].t).Err? {
      k := 0;
    } else {
      var l := BadFound(raws[1..]);
      k := l + 1;
      forall i | 0 <= i < k ensures ParseAttribute(raws[i].v, raws[i].t).Ok? {
        if i > 0 {
          assert raws[1..][i - 1] == raws[i];
        }
      }
    }
  }

  lemma {:induction false} BadRefused(raws: seq<RawAttr>, k: nat, e: ParseError)
    requires BadAt(raws, k, e)
    ensures ParseAll(raws) == Err(e)
    decreases |raws|
  {
    hide ParseAttribute;
    if k > 0 {
      assert forall i :: 0 <= i < |raws[1..]| ==> raws[1..][i] == raws[i + 1];
      BadRefused(raws[1..], k - 1, e);
    }
  }

  /** The header is read but the body is not: the walk over the attributes gets stuck, or a kept
      attribute is malformed, or all are read and the fingerprint is not that of the bytes. */
  ghost predicate BodyRefused(vv: Bytes, e: ParseError) {
    || (exists raws, end :: Walks(vv, HEADER_SIZE, raws, end) && Stuck(vv, end, e))
    || (exists raws, k :: WellTiled(vv, HEADER_SIZE, raws) && BadAt(Kept(raws), k, e))
    || (e == FingerprintNotValid
        && exists raws, ps :: WellTiled(vv, HEADER_SIZE, raws) && AllRead(Kept(raws), ps) && !Sealed(vv, raws))
  }

  lemma BodyRefusedBy(vv: Bytes)
    requires ParseHeader(vv).Ok? && ParseMessage(vv).Err?
    ensures BodyRefused(vv, ParseMessage(vv).error)
  {
    hide ParseHeader, WellTiled, AllRead, Kept, Sealed, LastAt, EmplaceAll, ParseAll, CarriedCrc, FingerprintHolds,
      ScanFrom, Walks, Stuck, BadAt;
    HeaderAccepted(vv);
    if ScanFrom(vv, HEADER_SIZE, START).Err? {
      var raws, end := ScanSticks(vv, HEADER_SIZE, START);
    } else {
      ScanTiles(vv, HEADER_SIZE, START);
      var raws :| WellTiled(vv, HEADER_SIZE, raws);
      StartScanned(raws);
      if ParseAll(Kept(raws)).Err? {
        var k := BadFound(Kept(raws));
      } else {
        var ps := ParseAll(Kept(raws)).value;
        AllReadExact(Kept(raws), ps);
        SealExact(vv, raws, ps);
      }
    }
  }

  lemma StartScanned(raws: seq<RawAttr>)
    ensures Scanned(START, raws, HEADER_SIZE)
      == Scan(Kept(raws), LastAt(raws, HEADER_SIZE, MESSAGE_INTEGRITY), LastAt(raws, HEADER_SIZE, FINGERPRINT))
  {
    hide Kept, LastAt;
    assert START.raws + Kept(raws) == Kept(raws);
  }

  lemma BodyRefusedIs(vv: Bytes, e: ParseError)
    requires ParseHeader(vv).Ok? && BodyRefused(vv, e)
    ensures ParseMessage(vv) == Err(e)
  {
    hide ParseHeader, WellTiled, AllRead, Kept, Sealed, LastAt, EmplaceAll, ParseAll, CarriedCrc, FingerprintHolds,
      ScanFrom, Walks, Stuck, BadAt;
    HeaderAccepted(vv);
    if raws, end :| Walks(vv, HEADER_SIZE, raws, end) && Stuck(vv, end, e) {
      StuckScans(vv, HEADER_SIZE, START, raws, end, e);
    } else if raws, k: nat :| WellTiled(vv, HEADER_SIZE, raws) && BadAt(Kept(raws), k, e) {
      ScanTiles(vv, HEADER_SIZE, START);
      StartScanned(raws);
      BadRefused(Kept(raws), k, e);
    } else {
      var raws, ps :| WellTiled(vv, HEADER_SIZE, raws) && AllRead(Kept(raws), ps) && !Sealed(vv, raws);
      ScanTiles(vv, HEADER_SIZE, START);
      StartScanned(raws);
      AllReadExact(Kept(raws), ps);
      SealExact(vv, raws, ps);
    }
  }

  /** For every buffer and error: the parser gives this error exactly when the header calls for it,
      or the header is fine and the body does. */
  lemma RefusedExact(vv: Bytes, e: ParseError)
    ensures ParseMessage(vv) == Err(e)
            <==> ParseHeader(vv) == Err(e) || (ParseHeader(vv).Ok? && BodyRefused(vv, e))
  {
    hide ParseHeader, ParseBody, BodyRefused;
    if ParseHeader(vv).Ok? {
      if ParseMessage(vv) == Err(e) {
        BodyRefusedBy(vv);
      }
      if BodyRefused(vv, e) {
        BodyRefusedIs(vv, e);
      }
    }
  }
}
