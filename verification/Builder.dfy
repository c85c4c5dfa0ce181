/** AttributeSet::build: from a header and a set of attributes to the bytes of a message, with
    MESSAGE-INTEGRITY and FINGERPRINT computed over the bytes before them. */
module Builder {
  import opened Bytes
  import opened Hmac
  import opened Crc32
  import opened Header
  import opened Attributes
  import opened Messages

  /** One attribute as it goes on the wire. */
  datatype Item = Item(t: AttrType, v: Bytes)

  /** The word (type << 16) | size: sizes beyond 16 bits leak into the type. */
  function FieldHeader(t: AttrType, n: nat): (r: Bytes)
    ensures |r| == 4
  {
    [LowByte(t / 0x100) | LowByte(n / 0x100_0000), LowByte(t) | LowByte(n / 0x10000)] + Length16(n)
  }

  function PadSize(n: nat): (p: nat)
    ensures p < 4
  {
    if n % 4 == 0 then 0 else 4 - n % 4
  }

  function Field(i: Item): (r: Bytes)
    ensures |r| == 4 + |i.v| + PadSize(|i.v|)
  {
    FieldHeader(i.t, |i.v|) + i.v + Fill(0, PadSize(|i.v|))
  }

  function Fields(items: seq<Item>): (r: Bytes)
  {
    if items == [] then [] else Field(items[0]) + Fields(items[1..])
  }

  lemma FieldAligned(i: Item)
    ensures |Field(i)| % 4 == 0
  {
    hide Field;
    var n := |i.v|;
    assert n == n / 4 * 4 + n % 4;
  }

  lemma {:induction false} FieldsAligned(items: seq<Item>)
    ensures |Fields(items)| % 4 == 0
  {
    hide Field;
    if items != [] {
      FieldAligned(items[0]);
      FieldsAligned(items[1..]);
    }
  }

  /** The known attributes in iteration order, without the two that are computed. */
  function KnownItems(s: AttributeSet, order: seq<AttrType>): seq<Item>
    requires forall t :: t in order ==> t in s.known
  {
    if order == [] then []
    else
      var rest := KnownItems(s, order[1..]);
      if order[0] == MESSAGE_INTEGRITY || order[0] == FINGERPRINT then rest
      else [Item(order[0], ValueBytes(s.known[order[0]]))] + rest
  }

  function UnknownItems(us: seq<UnknownAttribute>): (items: seq<Item>)
    ensures |items| == |us| && forall i :: 0 <= i < |us| ==> items[i] == Item(us[i].type_, us[i].data)
  {
    seq(|us|, i requires 0 <= i < |us| => Item(us[i].type_, us[i].data))
  }

  /** The attributes given by the caller. */
  function PlainItems(s: AttributeSet, order: seq<AttrType>): seq<Item>
    requires forall t :: t in order ==> t in s.known
  {
    KnownItems(s, order) + UnknownItems(s.unknown)
  }

  /** The bytes MESSAGE-INTEGRITY covers: a header that counts up to its own end, then what
      precedes it. */
  function CoveredBytes(h: Header, plain: Bytes): Bytes {
    HeaderBytes(h, |plain| + 4 + DIGEST_SIZE) + plain
  }

  function WithIntegrity(h: Header, plain: Bytes, i: Maybe<IntegrityData>): Result<Bytes, HashError> {
    match i
    case None => Ok(plain)
    case Some(idata) =>
      match Mac([CoveredBytes(h, plain)], idata)
      case Err(e) => Err(e)
      case Ok(d) => Ok(plain + Field(Item(MESSAGE_INTEGRITY, d)))
  }

  function WithFingerprint(h: Header, body: Bytes, wanted: bool): Bytes {
    if wanted then
      var start := HeaderBytes(h, |body| + 8) + body;
      start + Field(Item(FINGERPRINT, U32(MaskCrc(Crc(start)))))
    else
      HeaderBytes(h, |body|) + body
  }

  /** The whole message. */
  function BuildMessage(h: Header, s: AttributeSet, order: seq<AttrType>, i: Maybe<IntegrityData>)
      : Result<Bytes, HashError>
    requires forall t :: t in order ==> t in s.known
  {
    match WithIntegrity(h, Fields(PlainItems(s, order)), i)
    case Err(e) => Err(e)
    case Ok(body) => Ok(WithFingerprint(h, body, FINGERPRINT in s.known))
  }

  // ---- The building procedure: a list of views with a running size ----

  /** The views of one attribute: its header, its value unless empty, its padding if any. */
  ghost function Views(i: Item): seq<Bytes> {
    if |i.v| == 0 then [FieldHeader(i.t, |i.v|)]
    else if |i.v| % 4 == 0 then [FieldHeader(i.t, |i.v|), i.v]
    else [FieldHeader(i.t, |i.v|), i.v, Fill(0, PadSize(|i.v|))]
  }

  lemma ConcatSmall(a: Bytes, b: Bytes, c: Bytes)
    ensures Concat([a]) == a && Concat([a, b]) == a + b && Concat([a, b, c]) == a + b + c
  {
    assert [a][1..] == [] && [b][1..] == [] && [c][1..] == [];
    assert Concat([b]) == b && Concat([c]) == c;
    assert [a, b][1..] == [b] && [b, c][1..] == [c] && [a, b, c][1..] == [b, c];
    assert Concat([b, c]) == b + c;
    assert a + (b + c) == a + b + c;
  }

  lemma ViewsAreField(i: Item)
    ensures Concat(Views(i)) == Field(i)
  {
    hide FieldHeader, Concat;
    ConcatSmall(FieldHeader(i.t, |i.v|), i.v, Fill(0, PadSize(|i.v|)));
  }

  /** Append the views of one attribute to the list and its size to the running total. */
  method AddAttribute(result: seq<Bytes>, total: nat, i: Item) returns (result': seq<Bytes>, total': nat)
    requires |result| >= 1
    ensures |result'| >= 1 && result'[0] == result[0]
    ensures Concat(result'[1..]) == Concat(result[1..]) + Field(i)
    ensures total' == (total + |Field(i)|) % 0x1_0000_0000
  {
    hide FieldHeader, Concat;
    result' := result + [FieldHeader(i.t, |i.v|)];
    total' := (total + 4) % 0x1_0000_0000;
    if |i.v| != 0 {
      result' := result' + [i.v];
      TruncateTwice(total', total + 4, |i.v|);
      total' := (total' + |i.v|) % 0x1_0000_0000;
      if |i.v| % 4 != 0 {
        var padding := 4 - |i.v| % 4;
        result' := result' + [Fill(0, padding)];
        TruncateTwice(total', total + 4 + |i.v|, padding);
        total' := (total' + padding) % 0x1_0000_0000;
      }
    }
    assert result'[1..] == result[1..] + Views(i);
    ConcatAppend(result[1..], Views(i));
    ViewsAreField(i);
  }

  lemma FieldsAppend(a: seq<Item>, b: seq<Item>)
    ensures Fields(a + b) == Fields(a) + Fields(b)
  {
    hide Field;
    if a == [] {
      assert a + b == b;
    } else {
      assert (a + b)[1..] == a[1..] + b;
      FieldsAppend(a[1..], b);
    }
  }

  lemma KnownItemsSnoc(s: AttributeSet, order: seq<AttrType>, k: nat)
    requires forall t :: t in order ==> t in s.known
    requires k < |order|
    ensures
      KnownItems(s, order[..k + 1])
      == if order[k] == MESSAGE_INTEGRITY || order[k] == FINGERPRINT then KnownItems(s, order[..k])
         else KnownItems(s, order[..k]) + [Item(order[k], ValueBytes(s.known[order[k]]))]
  {
    if k > 0 {
      KnownItemsSnoc(s, order[1..], k - 1);
      assert order[1..][..k] == order[..k + 1][1..];
      assert order[1..][..k - 1] == order[..k][1..];
    } else {
      assert order[..1][1..] == [];
    }
  }

  lemma HeaderCongruent(h: Header, m: nat, n: nat)
    requires m % 0x10000 == n % 0x10000
    ensures HeaderBytes(h, m) == HeaderBytes(h, n)
  {
    hide Length16;
    Length16Congruent(m, n);
  }

  lemma TruncateTwice(a: nat, n: nat, k: nat)
    requires a == n % 0x1_0000_0000
    ensures (a + k) % 0x1_0000_0000 == (n + k) % 0x1_0000_0000
    ensures (a + k) % 0x10000 == (n + k) % 0x10000
  {
    var q := n / 0x1_0000_0000;
    assert n + k == (a + k) + 0x1_0000_0000 * q;
    Drop32(a + k, q);
    Drop16(a + k, 0x10000 * q);
  }

  lemma Drop32(x: nat, q: nat)
    ensures (x + 0x1_0000_0000 * q) % 0x1_0000_0000 == x % 0x1_0000_0000
  {
  }

  lemma Drop16(x: nat, q: nat)
    ensures (x + 0x10000 * q) % 0x10000 == x % 0x10000
  {
  }

  /** The list of views stands for these body bytes, behind one slot for the header. */
  ghost predicate Holds(result: seq<Bytes>, total: nat, body: Bytes) {
    |result| >= 1 && Concat(result[1..]) == body && total == |body| % 0x1_0000_0000
  }

  /** The loop over the map, in any iteration order. */
  method AddKnown(s: AttributeSet, order: seq<AttrType>) returns (result: seq<Bytes>, total: nat)
    requires forall t :: t in order ==> t in s.known
    ensures Holds(result, total, Fields(KnownItems(s, order)))
  {
    result, total := [[]], 0;
    assert Holds(result, total, Fields(KnownItems(s, order[..0])));
    hide Holds, Fields, Field, ValueBytes;
    for k := 0 to |order|
      invariant Holds(result, total, Fields(KnownItems(s, order[..k])))
    {
      var t := order[k];
      KnownItemsSnoc(s, order, k);
      if t != MESSAGE_INTEGRITY && t != FINGERPRINT {
        result, total := AddOne(result, total, Item(t, ValueBytes(s.known[t])), KnownItems(s, order[..k]));
      }
    }
    assert order[..|order|] == order;
  }

  /** The loop over the unknown list after it. */
  method AddPlain(s: AttributeSet, order: seq<AttrType>) returns (result: seq<Bytes>, total: nat)
    requires forall t :: t in order ==> t in s.known
    ensures Holds(result, total, Fields(PlainItems(s, order)))
  {
    hide Holds, Fields, Field, KnownItems;
    result, total := AddKnown(s, order);
    ghost var known, unknown := KnownItems(s, order), UnknownItems(s.unknown);
    assert known + unknown[..0] == known;
    for k := 0 to |s.unknown|
      invariant Holds(result, total, Fields(known + unknown[..k]))
    {
      var u := s.unknown[k];
      result, total := AddOne(result, total, Item(u.type_, u.data), known + unknown[..k]);
      assert known + unknown[..k] + [Item(u.type_, u.data)] == known + unknown[..k + 1];
    }
    assert unknown[..|s.unknown|] == unknown;
  }

  /** MESSAGE-INTEGRITY: a provisional header goes into the first slot for the digest. */
  method AddIntegrity(h: Header, result: seq<Bytes>, total: nat, idata: IntegrityData, ghost plain: Bytes)
      returns (r: Result<(seq<Bytes>, nat), HashError>)
    requires Holds(result, total, plain)
    ensures
      match WithIntegrity(h, plain, Some(idata))
      case Err(e) => r == Err(e)
      case Ok(body) => r.Ok? && Holds(r.value.0, r.value.1, body)
  {
    hide Field, HeaderBytes, Mac;
    var length := total + 4 + DIGEST_SIZE;
    TruncateTwice(total, |plain|, 4 + DIGEST_SIZE);
    HeaderCongruent(h, length, |plain| + 4 + DIGEST_SIZE);
    var signed := [HeaderBytes(h, length)] + result[1..];
    assert signed[1..] == result[1..];
    ConcatSmall(CoveredBytes(h, plain), [], []);
    MacOfConcat(signed, [CoveredBytes(h, plain)], idata);
    match Mac(signed, idata) {
      case Err(e) => r := Err(e);
      case Ok(d) =>
        var result', total' := AddAttribute(signed, total, Item(MESSAGE_INTEGRITY, d));
        TruncateTwice(total, |plain|, |Field(Item(MESSAGE_INTEGRITY, d))|);
        r := Ok((result', total'));
    }
  }

  /** FINGERPRINT, or no FINGERPRINT: the final header goes into the first slot. */
  method AddFingerprint(h: Header, result: seq<Bytes>, total: nat, wanted: bool, ghost body: Bytes)
      returns (data: Bytes)
    requires Holds(result, total, body)
    ensures data == WithFingerprint(h, body, wanted)
  {
    hide Field, HeaderBytes, Crc, CrcChunks, U32, MaskCrc;
    TruncateTwice(total, |body|, 0);
    TruncateTwice(total, |body|, 8);
    if wanted {
      HeaderCongruent(h, total + 8, |body| + 8);
      var start := [HeaderBytes(h, total + 8)] + result[1..];
      assert start[1..] == result[1..];
      ChunkingIrrelevant(start);
      var fp := Item(FINGERPRINT, U32(MaskCrc(CrcChunks(start))));
      var result', _ := AddAttribute(start, total, fp);
      data := Concat(result');
    } else {
      HeaderCongruent(h, total, |body|);
      var start := [HeaderBytes(h, total)] + result[1..];
      assert start[1..] == result[1..];
      data := Concat(start);
    }
  }

  /** The whole procedure yields exactly the message described above, for every iteration order. */
  method Build(h: Header, s: AttributeSet, order: seq<AttrType>, i: Maybe<IntegrityData>)
      returns (r: Result<Bytes, HashError>)
    requires forall t :: t in order ==> t in s.known
    ensures r == BuildMessage(h, s, order, i)
  {
    hide Fields, WithIntegrity, WithFingerprint, Concat;
    var result, total := AddPlain(s, order);
    ghost var plain := Fields(PlainItems(s, order));
    ghost var body := plain;
    match i {
      case None =>
        NoIntegrity(h, plain);
      case Some(idata) =>
        var signed := AddIntegrity(h, result, total, idata, plain);
        match signed {
          case Err(e) => return Err(e);
          case Ok(pair) =>
            result, total := pair.0, pair.1;
            body := WithIntegrity(h, plain, i).value;
        }
    }
    var data := AddFingerprint(h, result, total, FINGERPRINT in s.known, body);
    r := Ok(data);
  }

  lemma NoIntegrity(h: Header, plain: Bytes)
    ensures WithIntegrity(h, plain, None) == Ok(plain)
  {
  }

  method AddOne(result: seq<Bytes>, total: nat, i: Item, ghost done: seq<Item>) returns (result': seq<Bytes>,
                total': nat)
    requires Holds(result, total, Fields(done))
    ensures Holds(result', total', Fields(done + [i]))
  {
    hide Field;
    result', total' := AddAttribute(result, total, i);
    TruncateTwice(total, |Fields(done)|, |Field(i)|);
    FieldsAppend(done, [i]);
    assert [i][1..] == [];
  }
}
