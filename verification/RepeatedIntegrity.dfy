/** Messages with any number of MESSAGE-INTEGRITY attributes, whoever wrote them: the digest kept
    is the first, the extent kept is that of the last. */
module RepeatedIntegrity {
  import opened Bytes
  import opened Hmac
  import opened Crc32
  import opened Header
  import opened Attributes
  import opened Messages
  import opened Builder
  import opened Parser
  import opened RoundTrip
  import opened Received
  import opened Tiling

  /** Where attribute k starts. */
  function StartOf(raws: seq<RawAttr>, off: nat, k: nat): nat
    requires k < |raws|
  {
    if k == 0 then off else StartOf(raws[1..], off + AlignedLength(|raws[0].v|), k - 1)
  }

  function HowMany(raws: seq<RawAttr>, t: AttrType): nat {
    if raws == [] then 0 else HowMany(raws[1..], t) + if raws[0].t == t then 1 else 0
  }

  lemma {:induction false} StartAfter(raws: seq<RawAttr>, off: nat, k: nat)
    requires k < |raws|
    ensures StartOf(raws, off, k) >= off && (k > 0 ==> StartOf(raws, off, k) > off)
  {
    hide AlignedLength;
    if k > 0 {
      StartAfter(raws[1..], off + AlignedLength(|raws[0].v|), k - 1);
    }
  }

  lemma {:induction false} LastAfter(raws: seq<RawAttr>, off: nat, t: AttrType)
    ensures LastAt(raws, off, t).Some? <==> HowMany(raws, t) > 0
    ensures LastAt(raws, off, t).Some? ==> LastAt(raws, off, t).value >= off
  {
    hide AlignedLength;
    if raws != [] {
      LastAfter(raws[1..], off + AlignedLength(|raws[0].v|), t);
    }
  }

  /** The last attribute of the type is the first exactly when there is only one. */
  lemma {:induction false} LastIsFirst(raws: seq<RawAttr>, off: nat)
    requires HowMany(raws, MESSAGE_INTEGRITY) > 0
    ensures FirstIntegrity(raws) < |raws|
    ensures LastAt(raws, off, MESSAGE_INTEGRITY) == Some(StartOf(raws, off, FirstIntegrity(raws)))
            <==> HowMany(raws, MESSAGE_INTEGRITY) == 1
  {
    hide AlignedLength;
    var off' := off + AlignedLength(|raws[0].v|);
    LastAfter(raws[1..], off', MESSAGE_INTEGRITY);
    if raws[0].t != MESSAGE_INTEGRITY {
      LastIsFirst(raws[1..], off');
    }
  }

  // ---- Which digest is kept ----

  lemma {:induction false} ParsedAt(raws: seq<RawAttr>, k: nat)
    requires k < |raws| && ParseAll(raws).Ok?
    ensures |ParseAll(raws).value| == |raws| && ParseAttribute(raws[k].v, raws[k].t) == Ok(ParseAll(raws).value[k])
  {
    hide ParseAttribute;
    if k > 0 {
      ParsedAt(raws[1..], k - 1);
    } else if |raws| > 1 {
      ParsedAt(raws[1..], 0);
    }
  }

  lemma KeptFirst(raws: seq<RawAttr>)
    requires FirstIntegrity(raws) < |raws|
    ensures
      var k, kept := FirstIntegrity(raws), Kept(raws);
      && k < |kept| && kept[k] == raws[k]
      && forall i :: 0 <= i < k ==> kept[i] == raws[i] && kept[i].t != MESSAGE_INTEGRITY
  {
    var k := FirstIntegrity(raws);
    assert raws[k..][0] == raws[k];
    assert SpecialOnly(raws[k..])[0] == raws[k];
  }

  /** For every accepted message with MESSAGE-INTEGRITY, whoever wrote it: the digest it is checked
      against is that of the first one, the bytes it is checked over end where the last one
      starts, and the two belong together exactly when there is only one. */
  lemma CoveredExact(vv: Bytes, raws: seq<RawAttr>)
    requires ParseMessage(vv).Ok? && WellTiled(vv, HEADER_SIZE, raws) && HowMany(raws, MESSAGE_INTEGRITY) > 0
    ensures FirstIntegrity(raws) < |raws|
    ensures
      var m, first := ParseMessage(vv).value, FirstIntegrity(raws);
      && Parser.Integrity(m.attrs) == Some(raws[first].v)
      && m.covered == LastAt(raws, HEADER_SIZE, MESSAGE_INTEGRITY)
      && (m.covered == Some(StartOf(raws, HEADER_SIZE, first)) <==> HowMany(raws, MESSAGE_INTEGRITY) == 1)
  {
    LastIsFirst(raws, HEADER_SIZE);
    HeaderNeeded(vv);
    TiledMessage(vv, raws);
    KeptFirst(raws);
    hide ParseHeader, ParseMessage, WellTiled, LastAt, StartOf, HowMany, FirstIntegrity;
    DigestIsFirst(Kept(raws), FirstIntegrity(raws));
    hide ParseAll, EmplaceAll, Kept;
  }

  lemma HeaderNeeded(vv: Bytes)
    requires ParseMessage(vv).Ok?
    ensures ParseHeader(vv).Ok?
  {
  }

  lemma {:induction false} DigestIsFirst(kept: seq<RawAttr>, k: nat)
    requires k < |kept| && kept[k].t == MESSAGE_INTEGRITY && ParseAll(kept).Ok?
    requires forall i :: 0 <= i < k ==> kept[i].t != MESSAGE_INTEGRITY
    ensures Parser.Integrity(EmplaceAll(EMPTY, ParseAll(kept).value)) == Some(kept[k].v)
  {
    var ps := ParseAll(kept).value;
    ParsedAt(kept, k);
    ParsedTypes(kept);
    DigestRead(kept[k].v);
    hide ParseAll, ParseAttribute, EmplaceAll;
    assert TypeOf(ps[k].attr) == MESSAGE_INTEGRITY;
    forall i | 0 <= i < k && ps[i].Known? ensures TypeOf(ps[i].attr) != MESSAGE_INTEGRITY {
      assert Typed(ps[i], kept[i]);
    }
    FirstStays(EMPTY, ps, k);
  }

  lemma DigestRead(v: Bytes)
    requires ParseAttribute(v, MESSAGE_INTEGRITY).Ok?
    ensures |v| == DIGEST_SIZE && ParseAttribute(v, MESSAGE_INTEGRITY) == Ok(Known(MessageIntegrity(v)))
  {
  }

  // ---- Two digests ----

  /** A message with two MESSAGE-INTEGRITY attributes and nothing else. */
  function TwoDigests(h: Header, a: Digest, b: Digest): Bytes {
    var body := Fields([Item(MESSAGE_INTEGRITY, a), Item(MESSAGE_INTEGRITY, b)]);
    HeaderBytes(h, |body|) + body
  }

  lemma TwoFields(a: Digest, b: Digest)
    ensures
      var i, j := Item(MESSAGE_INTEGRITY, a), Item(MESSAGE_INTEGRITY, b);
      Fields([i, j]) == Field(i) + Field(j) && |Field(i)| == 24 && |Field(j)| == 24
  {
    hide FieldHeader;
    var i, j := Item(MESSAGE_INTEGRITY, a), Item(MESSAGE_INTEGRITY, b);
    assert [i, j][1..] == [j] && [j][1..] == [];
    assert Fields([j]) == Field(j);
  }

  lemma TwoTiles(h: Header, a: Digest, b: Digest)
    ensures
      var vv, raws := TwoDigests(h, a, b), [RawAttr(MESSAGE_INTEGRITY, a), RawAttr(MESSAGE_INTEGRITY, b)];
      && |vv| == HEADER_SIZE + 48 && WellTiled(vv, HEADER_SIZE, raws)
      && FirstIntegrity(raws) == 0 && HowMany(raws, MESSAGE_INTEGRITY) == 2
      && LastAt(raws, HEADER_SIZE, MESSAGE_INTEGRITY) == Some(HEADER_SIZE + 24)
      && StartOf(raws, HEADER_SIZE, 0) == HEADER_SIZE
  {
    var i, j := Item(MESSAGE_INTEGRITY, a), Item(MESSAGE_INTEGRITY, b);
    TwoFields(a, b);
    var vv, raws := TwoDigests(h, a, b), [RawAttr(i.t, i.v), RawAttr(j.t, j.v)];
    hide Field, Fields, HeaderBytes;
    assert vv[HEADER_SIZE..HEADER_SIZE + 24] == Field(i);
    assert vv[HEADER_SIZE + 24..HEADER_SIZE + 48] == Field(j);
    RawOfField(vv, HEADER_SIZE, i);
    RawOfField(vv, HEADER_SIZE + 24, j);
    hide ParseRaw, AlignedLength;
    assert raws[1..] == [raws[1]] && raws[1..][1..] == [];
    assert HowMany([], MESSAGE_INTEGRITY) == 0 && LastAt([], HEADER_SIZE + 48, MESSAGE_INTEGRITY) == None;
    assert Tiles(vv, HEADER_SIZE + 48, []);
    assert Tiles(vv, HEADER_SIZE + 24, [raws[1]]);
  }

  /** Every such message with a twelve-byte id is accepted, and checked with its first digest over
      the bytes that end at its second. */
  lemma TwoDigestsDisagree(h: Header, a: Digest, b: Digest)
    requires |h.tid| == 12
    ensures
      var r := ParseMessage(TwoDigests(h, a, b));
      r.Ok? && Parser.Integrity(r.value.attrs) == Some(a) && r.value.covered == Some(HEADER_SIZE + 24)
  {
    var vv, raws := TwoDigests(h, a, b), [RawAttr(MESSAGE_INTEGRITY, a), RawAttr(MESSAGE_INTEGRITY, b)];
    hide *;
    TwoHeader(h, a, b);
    TwoTiles(h, a, b);
    TwoAcceptable(vv, a, b);
    TiledMessage(vv, raws);
    CoveredExact(vv, raws);
  }

  lemma TwoHeader(h: Header, a: Digest, b: Digest)
    requires |h.tid| == 12
    ensures ParseHeader(TwoDigests(h, a, b)).Ok?
  {
    var body := Fields([Item(MESSAGE_INTEGRITY, a), Item(MESSAGE_INTEGRITY, b)]);
    TwoFields(a, b);
    assert IdSurvives(h);
    hide Field, Fields, IdSurvives, ParseHeader, HeaderBytes;
    HeaderRoundTrip(h, body);
  }

  lemma TwoAcceptable(vv: Bytes, a: Digest, b: Digest)
    requires WellTiled(vv, HEADER_SIZE, [RawAttr(MESSAGE_INTEGRITY, a), RawAttr(MESSAGE_INTEGRITY, b)])
    ensures Acceptable(vv, [RawAttr(MESSAGE_INTEGRITY, a), RawAttr(MESSAGE_INTEGRITY, b)])
  {
    KeptBoth(a, b);
    TwoParsed(a, b);
    hide WellTiled, Kept, ParseAll, CarriedCrc, LastAt, Crc;
  }

  lemma KeptBoth(a: Digest, b: Digest)
    ensures
      var raws := [RawAttr(MESSAGE_INTEGRITY, a), RawAttr(MESSAGE_INTEGRITY, b)];
      Kept(raws) == raws
  {
    var raws := [RawAttr(MESSAGE_INTEGRITY, a), RawAttr(MESSAGE_INTEGRITY, b)];
    assert raws[1..] == [raws[1]] && raws[1..][1..] == [];
    assert SpecialOnly([raws[1]]) == [raws[1]];
    assert raws[..0] == [] && raws[0..] == raws;
  }

  lemma TwoParsed(a: Digest, b: Digest)
    ensures
      var r := ParseAll([RawAttr(MESSAGE_INTEGRITY, a), RawAttr(MESSAGE_INTEGRITY, b)]);
      r == Ok([Known(MessageIntegrity(a)), Known(MessageIntegrity(b))]) && CarriedCrc(r.value) == None
  {
    var raws := [RawAttr(MESSAGE_INTEGRITY, a), RawAttr(MESSAGE_INTEGRITY, b)];
    ParseIntegrity(a);
    ParseIntegrity(b);
    hide ParseAttribute;
    assert raws[1..] == [raws[1]] && raws[1..][1..] == [] && ParseAll([]) == Ok([]);
    var ps := [Known(MessageIntegrity(a)), Known(MessageIntegrity(b))];
    ParseSingle(raws[1]);
    assert ps == [ps[0]] + [ps[1]];
    NoCarriedCrc(ps);
  }

  // ---- One digest, whoever wrote it ----

  /** The bytes covered by a digest that starts at an offset: everything before it, with the length
      field counting up to the end of the digest. */
  function CoveredUpTo(vv: Bytes, off: nat): Bytes
    requires HEADER_SIZE <= off <= |vv|
  {
    vv[..2] + Length16(off - HEADER_SIZE + 24) + vv[4..off]
  }

  /** A computed digest, if there is one, against the bytes received. */
  function Compared(r: Result<Digest, HashError>, v: Bytes): Result<Maybe<bool>, HashError> {
    match r
    case Err(e) => Err(e)
    case Ok(d) => Ok(Some(d == v))
  }

  lemma {:induction false} TileAt(vv: Bytes, off: nat, raws: seq<RawAttr>, k: nat)
    requires Tiles(vv, off, raws) && k < |raws|
    ensures ParseRaw(vv, StartOf(raws, off, k)) == Some(raws[k])
    decreases k
  {
    hide ParseRaw, AlignedLength;
    if k > 0 {
      TileAt(vv, off + AlignedLength(|raws[0].v|), raws[1..], k - 1);
    }
  }

  /** For every accepted message with exactly one MESSAGE-INTEGRITY, whoever wrote it, and every
      key: the check compares the twenty bytes behind that attribute's header with the keyed digest
      of everything before it, its length field counting up to the end of the digest. */
  lemma ReceivedChecked(vv: Bytes, raws: seq<RawAttr>, i: IntegrityData)
    requires ParseMessage(vv).Ok? && WellTiled(vv, HEADER_SIZE, raws) && HowMany(raws, MESSAGE_INTEGRITY) == 1
    ensures FirstIntegrity(raws) < |raws|
    ensures
      var off := StartOf(raws, HEADER_SIZE, FirstIntegrity(raws));
      && HEADER_SIZE <= off && off + 24 <= |vv|
      && IsValid(ParseMessage(vv).value, vv, i) == Compared(Mac([CoveredUpTo(vv, off)], i), vv[off + 4..off + 24])
  {
    hide *;
    HeaderIsTwenty();
    CoveredExact(vv, raws);
    var m, first := ParseMessage(vv).value, FirstIntegrity(raws);
    var off := StartOf(raws, HEADER_SIZE, first);
    StartAfter(raws, HEADER_SIZE, first);
    PlacedAt(vv, raws, first);
    ReceivedFrom(m, vv, i, off, raws[first].v);
  }

  lemma HeaderIsTwenty()
    ensures HEADER_SIZE == 20
  {
  }

  lemma ReceivedFrom(m: Message, vv: Bytes, i: IntegrityData, off: nat, v: Bytes)
    requires m.covered == Some(off) && HEADER_SIZE <= off && Parser.Integrity(m.attrs) == Some(v)
    requires off + 4 + |v| <= |vv| && v == vv[off + 4..off + 4 + |v|]
    ensures off + 24 <= |vv|
    ensures IsValid(m, vv, i) == Compared(Mac([CoveredUpTo(vv, off)], i), vv[off + 4..off + 24])
  {
    DigestSize(m.attrs, v);
    hide IsValid, Mac, CoveredUpTo, CheckedChunks, Compared, Parser.Integrity;
    CheckedUpTo(vv, off, i);
    ValidByDigest(m, vv, i, off, v);
  }

  lemma PlacedAt(vv: Bytes, raws: seq<RawAttr>, k: nat)
    requires WellTiled(vv, HEADER_SIZE, raws) && k < |raws|
    ensures
      var off := StartOf(raws, HEADER_SIZE, k);
      off + 4 + |raws[k].v| <= |vv| && raws[k].v == vv[off + 4..off + 4 + |raws[k].v|]
  {
    TileAt(vv, HEADER_SIZE, raws, k);
    hide Tiles, StartOf, FingerprintLast;
    RawWithin(vv, StartOf(raws, HEADER_SIZE, k), raws[k]);
  }

  lemma RawWithin(vv: Bytes, off: nat, raw: RawAttr)
    requires ParseRaw(vv, off) == Some(raw)
    ensures off + 4 + |raw.v| <= |vv| && raw.v == vv[off + 4..off + 4 + |raw.v|]
  {
  }

  lemma ValidByDigest(m: Message, vv: Bytes, i: IntegrityData, off: nat, v: Bytes)
    requires m.covered == Some(off) && 4 <= off <= |vv| && Parser.Integrity(m.attrs) == Some(v)
    ensures IsValid(m, vv, i) == Compared(Mac(CheckedChunks(vv, off), i), v)
  {
    hide Mac, CheckedChunks;
  }

  lemma DigestSize(s: AttributeSet, v: Bytes)
    requires Parser.Integrity(s) == Some(v)
    ensures |v| == DIGEST_SIZE
  {
  }

  lemma CheckedUpTo(vv: Bytes, off: nat, i: IntegrityData)
    requires HEADER_SIZE <= off <= |vv|
    ensures Mac(CheckedChunks(vv, off), i) == Mac([CoveredUpTo(vv, off)], i)
  {
    hide Mac, Length16, Concat;
    assert [vv[0], vv[1]] == vv[..2];
    ConcatSmall([vv[0], vv[1]] + Length16(off + 4), vv[4..off], []);
    ConcatSmall(CoveredUpTo(vv, off), [], []);
    MacOfConcat(CheckedChunks(vv, off), [CoveredUpTo(vv, off)], i);
  }
}
