/** The builder and the checker hash the same bytes. */
module Integrity {
  import opened Bytes
  import opened Hmac
  import opened Crc32
  import opened Header
  import opened Attributes
  import opened Messages
  import opened Builder
  import opened Parser
  import opened RoundTrip

  /** The patched start and the covered rest are the provisional header and the plain fields. */
  lemma CheckedIsCovered(h: Header, plain: Bytes, tail: Bytes)
    ensures
      var data := HeaderBytes(h, |plain| + |tail|) + (plain + tail);
      Concat(CheckedChunks(data, HEADER_SIZE + |plain|)) == CoveredBytes(h, plain)
  {
    hide U16, U32, Length16, MessageType, Concat;
    var final, provisional := HeaderBytes(h, |plain| + |tail|), HeaderBytes(h, |plain| + 24);
    var data := final + (plain + tail);
    var covered := HEADER_SIZE + |plain|;
    assert final[..2] == provisional[..2] && final[4..] == provisional[4..] by {
      if |h.tid| == 12 {
        assert final[4..] == final[4..8] + final[8..] && provisional[4..] == provisional[4..8] + provisional[8..];
      }
    }
    hide HeaderBytes;
    assert [data[0], data[1]] == final[..2];
    assert data[4..covered] == final[4..] + plain;
    ConcatSmall([data[0], data[1]] + Length16(covered + 4), data[4..covered], []);
    assert provisional[..2] + Length16(|plain| + 24) + (provisional[4..] + plain) == provisional + plain;
  }

  lemma CoveredPart(data: Bytes, h: Header, s: AttributeSet, order: seq<AttrType>, i: Maybe<IntegrityData>,
                    mi: Maybe<Digest>, fp: Maybe<bv32>, idata: IntegrityData)
    requires forall t :: t in order ==> t in s.known
    requires BuiltFrom(data, h, s, order, i, mi, fp)
    ensures
      var plain := Fields(PlainItems(s, order));
      HEADER_SIZE + |plain| <= |data|
      && Mac(CheckedChunks(data, HEADER_SIZE + |plain|), idata) == Mac([CoveredBytes(h, plain)], idata)
  {
    hide *;
    var items, tail := PlainItems(s, order), TailItems(mi, fp);
    BuiltShape(data, h, s, order, i, mi, fp);
    FieldsAppend(items, tail);
    SameDigest(h, Fields(items), Fields(tail), data, idata);
  }

  lemma SameDigest(h: Header, plain: Bytes, tail: Bytes, data: Bytes, idata: IntegrityData)
    requires data == HeaderBytes(h, |plain + tail|) + (plain + tail)
    ensures HEADER_SIZE + |plain| <= |data|
    ensures Mac(CheckedChunks(data, HEADER_SIZE + |plain|), idata) == Mac([CoveredBytes(h, plain)], idata)
  {
    hide HeaderBytes, CoveredBytes, CheckedChunks, Concat, Mac;
    CheckedIsCovered(h, plain, tail);
    ConcatSmall(CoveredBytes(h, plain), [], []);
    MacOfConcat(CheckedChunks(data, HEADER_SIZE + |plain|), [CoveredBytes(h, plain)], idata);
  }

  /** For every message that survives the wire, every signing key and every checking key: the
      check compares the two keyed digests of one and the same byte string, whatever follows
      MESSAGE-INTEGRITY. With the signing key it answers yes. */
  lemma IntegrityAgrees(h: Header, s: AttributeSet, order: seq<AttrType>, signer: IntegrityData,
                        checker: IntegrityData, data: Bytes)
    requires WellTyped(s) && Unregistered(s.unknown) && Enumerates(order, s)
    requires BuildMessage(h, s, order, Some(signer)) == Ok(data)
    requires |data| - HEADER_SIZE < 0x10000 && IdSurvives(h) && forall t :: t in s.known ==> !LosesFamily(s.known[t])
    ensures ParseMessage(data).Ok?
    ensures IsValid(ParseMessage(data).value, data, signer) == Ok(Some(true))
    ensures
      var covered := [CoveredBytes(h, Fields(PlainItems(s, order)))];
      IsValid(ParseMessage(data).value, data, checker)
      == match Mac(covered, checker)
         case Err(e) => Err(e)
         case Ok(d) => Ok(Some(Ok(d) == Mac(covered, signer)))
  {
    hide ParseHeader, ParseBody, HeaderBytes, Fields, AllItems, Mac, Crc, IdSurvives, CoveredBytes, PlainItems;
    hide BuildMessage, LosesFamily, AllRepresentable, Unregistered, WellTyped, DeliveredKnown, CheckedChunks;
    var mi, fp := BuildIsFields(h, s, order, Some(signer), data);
    var body := Fields(AllItems(s, order, mi, fp));
    FieldsAligned(AllItems(s, order, mi, fp));
    HeaderRoundTrip(h, body);
    assert |data| - HEADER_SIZE == |body|;
    FamiliesAgree(s, order);
    ParseOfBuilt(data, h, s, order, Some(signer), mi, fp, |h.tid| == 16);
    CoveredPart(data, h, s, order, Some(signer), mi, fp, signer);
    CoveredPart(data, h, s, order, Some(signer), mi, fp, checker);
  }
}
