/** What the parser gives back for what the builder wrote, and when the digest it carries
    checks out. */
module RoundTrip {
  import opened Bytes
  import opened Hmac
  import opened Crc32
  import opened Address
  import opened Header
  import opened Attributes
  import opened Messages
  import opened Builder
  import opened Parser
  import opened Received

  // ---- The header ----

  /** A 12-byte id always survives; a 16-byte one only in a request, where it must not begin
      with the magic cookie. */
  predicate IdSurvives(h: Header) {
    |h.tid| == 12 || (h.cls == Request && ReadU32(h.tid[..4]) != MAGIC_COOKIE)
  }

  lemma HeaderReads(h: Header, body: Bytes)
    ensures
      var vv := HeaderBytes(h, |body|) + body;
      ReadU16(vv[..2]) == MessageType(h.cls, h.method_)
      && ReadLength16(vv[2..4]) == |body| % 0x10000
      && (|h.tid| == 12 ==> ReadU32(vv[4..8]) == MAGIC_COOKIE && vv[8..20] == h.tid)
      && (|h.tid| == 16 ==> ReadU32(vv[4..8]) == ReadU32(h.tid[..4]) && vv[4..20] == h.tid)
  {
    hide U16, ReadU16, Length16, ReadLength16, U32, ReadU32, MessageType;
    var start := HeaderBytes(h, |body|);
    var vv := start + body;
    hide HeaderBytes;
    assert vv[..2] == start[..2] && vv[2..4] == start[2..4] && vv[4..8] == start[4..8];
    Length16RoundTrip(|body|);
    if |h.tid| == 12 {
      assert vv[8..20] == start[8..];
    } else {
      assert vv[4..20] == start[4..];
      assert vv[4..8] == h.tid[..4];
    }
  }

  /** The header is read back exactly when the body fits the length field and the id survives. */
  lemma HeaderRoundTrip(h: Header, body: Bytes)
    requires |body| % 4 == 0
    ensures
      var r := ParseHeader(HeaderBytes(h, |body|) + body);
      (r.Ok? && r.value.0 == h <==> |body| < 0x10000 && IdSurvives(h))
      && (r.Ok? && r.value.0 == h ==> r.value.1 == (|h.tid| == 16))
  {
    hide HeaderBytes, ReadU16, ReadLength16, ReadU32, MessageType, ClassOf, MethodOf;
    HeaderReads(h, body);
    MessageTypeBijective(h.cls, h.method_, 0);
    LengthFits(|body|);
    hide IdSurvives;
    var vv := HeaderBytes(h, |body|) + body;
    IdRead(h, ReadU32(vv[4..8]));
  }

  lemma LengthFits(n: nat)
    requires n % 4 == 0
    ensures n % 0x10000 % 4 == 0 && (n % 0x10000 == n <==> n < 0x10000)
  {
    var q, r, k := n / 0x10000, n % 0x10000, n / 4;
    assert r == 4 * (k - 0x4000 * q);
    FourTimes(k - 0x4000 * q);
  }

  lemma FourTimes(k: int)
    ensures 4 * k % 4 == 0
  {
  }

  lemma IdRead(h: Header, cookie: bv32)
    requires |h.tid| == 12 ==> cookie == MAGIC_COOKIE
    requires |h.tid| == 16 ==> cookie == ReadU32(h.tid[..4])
    ensures IdSurvives(h) <==> |h.tid| == 12 || (h.cls == Request && cookie != MAGIC_COOKIE)
  {
    hide ReadU32;
  }

  // ---- One field, then many ----

  lemma FieldHeaderReads(t: AttrType, n: nat)
    requires n < 0x10000
    ensures FieldHeader(t, n)[..2] == Length16(t) && FieldHeader(t, n)[2..] == Length16(n)
  {
    hide Length16;
    assert n / 0x10000 == 0 && n / 0x100_0000 == 0;
    TypeBytes(t);
  }

  lemma TypeBytes(t: AttrType)
    ensures [LowByte(t / 0x100) | LowByte(0), LowByte(t) | LowByte(0)] == Length16(t)
  {
    assert LowByte(0) == 0;
  }

  lemma RawOfField(vv: Bytes, off: nat, i: Item)
    requires |i.v| < 0x10000
    requires off + |Field(i)| <= |vv| && vv[off..off + |Field(i)|] == Field(i)
    ensures ParseRaw(vv, off) == Some(RawAttr(i.t, i.v))
    ensures AlignedLength(|i.v|) == |Field(i)|
  {
    hide FieldHeader, Length16, ReadLength16, ReadType;
    var f := Field(i);
    FieldHeaderReads(i.t, |i.v|);
    Part(vv, off, f, 0, 2);
    Part(vv, off, f, 2, 4);
    Part(vv, off, f, 4, 4 + |i.v|);
    assert f[0..2] == FieldHeader(i.t, |i.v|)[..2] && f[2..4] == FieldHeader(i.t, |i.v|)[2..];
    assert f[4..4 + |i.v|] == i.v;
    TypeRoundTrip(i.t);
    Length16RoundTrip(|i.v|);
  }

  ghost predicate Plain(items: seq<Item>) {
    forall k :: 0 <= k < |items| ==> items[k].t != MESSAGE_INTEGRITY && items[k].t != FINGERPRINT
  }

  ghost predicate Small(items: seq<Item>) {
    forall k :: 0 <= k < |items| ==> |items[k].v| < 0x10000
  }

  function Raws(items: seq<Item>): (r: seq<RawAttr>)
    ensures |r| == |items| && forall k :: 0 <= k < |items| ==> r[k] == RawAttr(items[k].t, items[k].v)
  {
    seq(|items|, k requires 0 <= k < |items| => RawAttr(items[k].t, items[k].v))
  }

  /** One step of the scan, over a written field. */
  lemma ScanOne(vv: Bytes, off: nat, i: Item, st: Scan)
    requires |i.v| < 0x10000
    requires off + |Field(i)| <= |vv| && vv[off..off + |Field(i)|] == Field(i)
    requires i.t == FINGERPRINT ==> off + |Field(i)| == |vv|
    ensures ScanFrom(vv, off, st) == ScanFrom(vv, off + |Field(i)|, ScanStep(st, RawAttr(i.t, i.v), off))
  {
    hide Field, ParseRaw, AlignedLength;
    RawOfField(vv, off, i);
  }

  /** Scanning across written fields keeps them all and arrives behind them. */
  lemma {:induction false} ScanFields(vv: Bytes, off: nat, items: seq<Item>, st: Scan)
    requires off + |Fields(items)| <= |vv| && vv[off..off + |Fields(items)|] == Fields(items)
    requires Plain(items) && Small(items) && st.integrity.None?
    ensures ScanFrom(vv, off, st) == ScanFrom(vv, off + |Fields(items)|, st.(raws := st.raws + Raws(items)))
    decreases |items|
  {
    hide Field, ScanFrom;
    if items == [] {
      assert st.raws + Raws(items) == st.raws;
    } else {
      var f, rest := Field(items[0]), items[1..];
      var all := Fields(items);
      assert all == f + Fields(rest);
      Part(vv, off, all, 0, |f|);
      Part(vv, off, all, |f|, |all|);
      ScanOne(vv, off, items[0], st);
      var st' := ScanStep(st, RawAttr(items[0].t, items[0].v), off);
      ScanFields(vv, off + |f|, rest, st');
      RawsCons(st.raws, items);
      hide Raws;
    }
  }

  lemma RawsCons(before: seq<RawAttr>, items: seq<Item>)
    requires items != []
    ensures before + Raws(items) == before + [RawAttr(items[0].t, items[0].v)] + Raws(items[1..])
  {
  }

  /** No field is longer than all of them together. */
  lemma {:induction false} FieldsBound(items: seq<Item>)
    requires |Fields(items)| < 0x10000
    ensures Small(items)
  {
    hide Field;
    if items != [] {
      FieldsBound(items[1..]);
      assert forall k :: 0 < k < |items| ==> items[k] == items[1..][k - 1];
    }
  }

  // ---- The two computed attributes at the end ----

  function TailItems(mi: Maybe<Digest>, fp: Maybe<bv32>): seq<Item> {
    (if mi.Some? then [Item(MESSAGE_INTEGRITY, mi.value)] else [])
    + if fp.Some? then [Item(FINGERPRINT, U32(MaskCrc(fp.value)))] else []
  }

  lemma ScanEnd(vv: Bytes, st: Scan)
    ensures ScanFrom(vv, |vv|, st) == Ok(st)
  {
  }

  lemma ScanTail(vv: Bytes, off: nat, mi: Maybe<Digest>, fp: Maybe<bv32>, st: Scan)
    requires off + |Fields(TailItems(mi, fp))| == |vv| && vv[off..] == Fields(TailItems(mi, fp))
    requires st.integrity.None? && st.fingerprint.None?
    ensures
      ScanFrom(vv, off, st)
      == Ok(Scan(st.raws + Raws(TailItems(mi, fp)),
                 if mi.Some? then Some(off) else None,
                 if fp.Some? then Some(|vv| - 8) else None))
  {
    hide Field, ScanFrom, U32, MaskCrc, Raws;
    var items := TailItems(mi, fp);
    if items == [] {
      assert st.raws + Raws(items) == st.raws;
      ScanEnd(vv, st);
    } else if |items| == 1 {
      assert items == [items[0]];
      ScanLast(vv, off, items[0], st);
    } else {
      assert items == [items[0], items[1]];
      ScanLastTwo(vv, off, items[0], items[1], st);
    }
  }

  lemma ScanLast(vv: Bytes, off: nat, i: Item, st: Scan)
    requires |i.v| < 0x10000 && off + |Fields([i])| == |vv| && vv[off..] == Fields([i])
    ensures ScanFrom(vv, off, st).Ok? && off + |Field(i)| == |vv|
    ensures
      var st' := ScanStep(st, RawAttr(i.t, i.v), off);
      ScanFrom(vv, off, st) == Ok(st') && st.raws + Raws([i]) == st.raws + [RawAttr(i.t, i.v)]
  {
    hide Field, ScanFrom;
    assert [i][1..] == [] && Fields([i]) == Field(i);
    assert vv[off..off + |Field(i)|] == Field(i);
    ScanOne(vv, off, i, st);
    ScanEnd(vv, ScanStep(st, RawAttr(i.t, i.v), off));
    assert Raws([i]) == [RawAttr(i.t, i.v)];
  }

  lemma ScanLastTwo(vv: Bytes, off: nat, i: Item, j: Item, st: Scan)
    requires |i.v| < 0x10000 && |j.v| < 0x10000 && i.t != FINGERPRINT
    requires off + |Fields([i, j])| == |vv| && vv[off..] == Fields([i, j])
    ensures |Fields([i, j])| == |Field(i)| + |Field(j)|
    ensures
      var st' := ScanStep(st, RawAttr(i.t, i.v), off);
      ScanFrom(vv, off, st) == Ok(ScanStep(st', RawAttr(j.t, j.v), off + |Field(i)|))
    ensures st.raws + Raws([i, j]) == st.raws + [RawAttr(i.t, i.v)] + [RawAttr(j.t, j.v)]
  {
    hide Field, ScanFrom;
    var f, all := Field(i), Fields([i, j]);
    assert [i, j][1..] == [j] && [j][1..] == [];
    assert Fields([j]) == Field(j) && all == f + Field(j);
    assert vv[off..off + |all|] == all;
    Part(vv, off, all, 0, |f|);
    Part(vv, off, all, |f|, |all|);
    ScanOne(vv, off, i, st);
    ScanLast(vv, off + |f|, j, ScanStep(st, RawAttr(i.t, i.v), off));
    RawsCons(st.raws, [i, j]);
  }

  // ---- Reading the kept attributes ----

  lemma {:induction false} ParseAllAppend(a: seq<RawAttr>, b: seq<RawAttr>)
    ensures
      ParseAll(a + b)
      == match ParseAll(a)
         case Err(e) => Err(e)
         case Ok(x) => match ParseAll(b) case Err(e) => Err(e) case Ok(y) => Ok(x + y)
  {
    hide ParseAttribute;
    if a == [] {
      assert a + b == b;
      if ParseAll(b).Ok? {
        assert [] + ParseAll(b).value == ParseAll(b).value;
      }
    } else {
      assert (a + b)[1..] == a[1..] + b;
      ParseAllAppend(a[1..], b);
      if ParseAttribute(a[0].v, a[0].t).Ok? && ParseAll(a[1..]).Ok? && ParseAll(b).Ok? {
        var p, x, y := ParseAttribute(a[0].v, a[0].t).value, ParseAll(a[1..]).value, ParseAll(b).value;
        assert [p] + (x + y) == [p] + x + y;
      }
    }
  }

  predicate Computed(t: AttrType) {
    t == MESSAGE_INTEGRITY || t == FINGERPRINT
  }

  ghost predicate AllRepresentable(s: AttributeSet) {
    forall t :: t in s.known ==> Representable(s.known[t])
  }

  ghost predicate KeepsFamilies(s: AttributeSet, ts: seq<AttrType>)
    requires forall t :: t in ts ==> t in s.known
  {
    forall k :: 0 <= k < |ts| ==> !LosesFamily(s.known[ts[k]])
  }

  ghost function KnownParsed(s: AttributeSet, order: seq<AttrType>): (ps: seq<Parsed>)
    requires forall t :: t in order ==> t in s.known
    ensures WellTyped(s) ==> forall k :: 0 <= k < |ps| ==> ps[k].Known? && !ps[k].attr.Fingerprint?
  {
    if order == [] then []
    else
      var rest := KnownParsed(s, order[1..]);
      if Computed(order[0]) then rest else [Known(ReadBack(s.known[order[0]]))] + rest
  }

  /** The known attributes all parse exactly when none of them loses its family byte. */
  lemma {:induction false} ParseKnown(s: AttributeSet, order: seq<AttrType>)
    requires WellTyped(s)
    requires forall t :: t in order ==> t in s.known
    ensures
      ParseAll(Raws(KnownItems(s, order))).Ok? <==> KeepsFamilies(s, order)
    ensures KeepsFamilies(s, order) ==> ParseAll(Raws(KnownItems(s, order))) == Ok(KnownParsed(s, order))
  {
    hide ParseAttribute, ValueBytes, ReadBack, Representable, Canonical;
    if order == [] {
    } else {
      var t, rest := order[0], order[1..];
      ParseKnown(s, rest);
      assert forall k :: 0 < k < |order| ==> order[k] == rest[k - 1];
      assert KeepsFamilies(s, order) <==> !LosesFamily(s.known[t]) && KeepsFamilies(s, rest) by {
        if !LosesFamily(s.known[t]) && KeepsFamilies(s, rest) {
          forall k | 0 <= k < |order| ensures !LosesFamily(s.known[order[k]]) {
            if k > 0 { assert order[k] == rest[k - 1]; }
          }
        }
        if KeepsFamilies(s, order) {
          forall k | 0 <= k < |rest| ensures !LosesFamily(s.known[rest[k]]) {
            assert rest[k] == order[k + 1];
          }
        }
      }
      if !Computed(t) {
        var a := s.known[t];
        AttributeReads(a);
        var raws := Raws(KnownItems(s, order));
        assert raws[0] == RawAttr(t, ValueBytes(a));
        assert raws[1..] == Raws(KnownItems(s, rest));
      }
    }
  }

  function UnknownParsed(us: seq<UnknownAttribute>): (ps: seq<Parsed>)
    ensures |ps| == |us| && forall k :: 0 <= k < |us| ==> ps[k] == Unknown(us[k])
  {
    seq(|us|, k requires 0 <= k < |us| => Unknown(us[k]))
  }

  lemma {:induction false} ParseUnknown(us: seq<UnknownAttribute>)
    requires Unregistered(us)
    ensures ParseAll(Raws(UnknownItems(us))) == Ok(UnknownParsed(us))
  {
    if us != [] {
      ParseUnknown(us[1..]);
      var raws := Raws(UnknownItems(us));
      assert raws[1..] == Raws(UnknownItems(us[1..]));
      ParseUnregistered(us[0]);
      hide ParseAttribute;
      assert UnknownParsed(us) == [Unknown(us[0])] + UnknownParsed(us[1..]);
    }
  }

  lemma ParseUnregistered(u: UnknownAttribute)
    requires !Registered(u.type_)
    ensures ParseAttribute(u.data, u.type_) == Ok(Unknown(u))
  {
  }

  function TailParsed(mi: Maybe<Digest>, fp: Maybe<bv32>): seq<Parsed> {
    (if mi.Some? then [Known(MessageIntegrity(mi.value))] else [])
    + if fp.Some? then [Known(Fingerprint(fp.value))] else []
  }

  lemma ParseTail(mi: Maybe<Digest>, fp: Maybe<bv32>)
    ensures ParseAll(Raws(TailItems(mi, fp))) == Ok(TailParsed(mi, fp))
  {
    hide ParseAttribute, U32, MaskCrc;
    var raws := Raws(TailItems(mi, fp));
    if mi.Some? {
      ParseIntegrity(mi.value);
    }
    if fp.Some? {
      ParseFingerprint(fp.value);
    }
    if mi.Some? && fp.Some? {
      assert raws == [raws[0]] + [raws[1]];
      ParseAllAppend([raws[0]], [raws[1]]);
      ParseSingle(raws[0]);
      ParseSingle(raws[1]);
      assert TailParsed(mi, fp) == [Known(MessageIntegrity(mi.value))] + [Known(Fingerprint(fp.value))];
    } else if mi.Some? || fp.Some? {
      assert raws == [raws[0]];
      ParseSingle(raws[0]);
      assert TailParsed(mi, fp) == [ParseAttribute(raws[0].v, raws[0].t).value];
    } else {
      assert raws == [] && TailParsed(mi, fp) == [];
    }
  }

  lemma ParseSingle(raw: RawAttr)
    ensures ParseAttribute(raw.v, raw.t).Ok? ==> ParseAll([raw]) == Ok([ParseAttribute(raw.v, raw.t).value])
  {
    hide ParseAttribute;
    assert [raw][1..] == [] && ParseAll([]) == Ok([]);
    if ParseAttribute(raw.v, raw.t).Ok? {
      var p := ParseAttribute(raw.v, raw.t).value;
      assert [p] + [] == [p];
    }
  }

  lemma ParseIntegrity(d: Digest)
    ensures ParseAttribute(d, MESSAGE_INTEGRITY) == Ok(Known(MessageIntegrity(d)))
  {
  }

  lemma ParseFingerprint(crc: bv32)
    ensures ParseAttribute(U32(MaskCrc(crc)), FINGERPRINT) == Ok(Known(Fingerprint(crc)))
  {
    hide ParseAttribute;
    var a := Fingerprint(crc);
    AttributeRoundTrip(a);
  }

  // ---- Filing them ----

  lemma {:induction false} EmplaceAllAppend(s: AttributeSet, a: seq<Parsed>, b: seq<Parsed>)
    ensures EmplaceAll(s, a + b) == EmplaceAll(EmplaceAll(s, a), b)
    decreases |a|
  {
    if a == [] {
      assert a + b == b;
    } else {
      assert (a + b)[1..] == a[1..] + b;
      EmplaceAllAppend(EmplaceParsed(s, a[0]), a[1..], b);
    }
  }

  /** The known attributes of a set as they are delivered. */
  ghost function DeliveredKnown(s: AttributeSet, order: seq<AttrType>): map<AttrType, Attribute>
    requires forall t :: t in order ==> t in s.known
  {
    map t | t in order && !Computed(t) :: ReadBack(s.known[t])
  }

  lemma {:induction false} EmplaceKnown(acc: AttributeSet, s: AttributeSet, order: seq<AttrType>)
    requires WellTyped(s) && forall t :: t in order ==> t in s.known
    requires forall i, j :: 0 <= i < j < |order| ==> order[i] != order[j]
    requires forall t :: t in order ==> t !in acc.known
    ensures EmplaceAll(acc, KnownParsed(s, order)) == acc.(known := acc.known + DeliveredKnown(s, order))
    decreases |order|
  {
    hide ReadBack, EmplaceAll, EmplaceParsed, TypeOf;
    EmplaceNone(acc);
    if order == [] {
      assert DeliveredKnown(s, order) == map[];
    } else {
      var t, rest := order[0], order[1..];
      DeliveredCons(s, order);
      hide DeliveredKnown;
      assert forall k :: 0 <= k < |rest| ==> rest[k] == order[k + 1];
      if Computed(t) {
        EmplaceKnown(acc, s, rest);
      } else {
        var a := ReadBack(s.known[t]);
        var acc' := acc.(known := acc.known[t := a]);
        ReadBackType(s.known[t]);
        EmplaceNew(acc, a, KnownParsed(s, rest));
        EmplaceKnown(acc', s, rest);
        MapPrepend(acc.known, t, a, DeliveredKnown(s, rest));
      }
    }
  }

  lemma MapPrepend(m: map<AttrType, Attribute>, t: AttrType, a: Attribute, d: map<AttrType, Attribute>)
    ensures m[t := a] + d == m + (map[t := a] + d)
  {
  }

  lemma DeliveredCons(s: AttributeSet, order: seq<AttrType>)
    requires forall t :: t in order ==> t in s.known
    requires order != [] && order[0] !in order[1..]
    ensures
      DeliveredKnown(s, order)
      == if Computed(order[0]) then DeliveredKnown(s, order[1..])
         else map[order[0] := ReadBack(s.known[order[0]])] + DeliveredKnown(s, order[1..])
  {
    hide ReadBack;
    assert order == [order[0]] + order[1..];
  }

  lemma ReadBackType(a: Attribute)
    ensures TypeOf(ReadBack(a)) == TypeOf(a)
  {
  }

  lemma EmplaceNone(acc: AttributeSet)
    ensures EmplaceAll(acc, []) == acc
  {
  }

  lemma EmplaceNew(acc: AttributeSet, a: Attribute, rest: seq<Parsed>)
    requires TypeOf(a) !in acc.known
    ensures EmplaceAll(acc, [Known(a)] + rest) == EmplaceAll(acc.(known := acc.known[TypeOf(a) := a]), rest)
  {
    hide TypeOf;
    assert ([Known(a)] + rest)[1..] == rest;
  }

  lemma {:induction false} EmplaceUnknown(acc: AttributeSet, us: seq<UnknownAttribute>)
    ensures EmplaceAll(acc, UnknownParsed(us)) == acc.(unknown := acc.unknown + us)
    decreases |us|
  {
    if us == [] {
      assert acc.unknown + us == acc.unknown;
    } else {
      var acc' := acc.(unknown := acc.unknown + [us[0]]);
      assert UnknownParsed(us)[1..] == UnknownParsed(us[1..]);
      EmplaceUnknown(acc', us[1..]);
      assert acc.unknown + us == acc'.unknown + us[1..];
    }
  }

  lemma {:induction false} NoCarriedCrc(ps: seq<Parsed>)
    requires forall k :: 0 <= k < |ps| ==> !(ps[k].Known? && ps[k].attr.Fingerprint?)
    ensures CarriedCrc(ps) == None
  {
    if ps != [] {
      NoCarriedCrc(ps[..|ps| - 1]);
    }
  }

  // ---- What the builder wrote, as fields ----

  function AllItems(s: AttributeSet, order: seq<AttrType>, mi: Maybe<Digest>, fp: Maybe<bv32>): seq<Item>
    requires forall t :: t in order ==> t in s.known
  {
    PlainItems(s, order) + TailItems(mi, fp)
  }

  /** A built message is one header over plain fields and the computed ones, whose values are
      the digest of the covered bytes and the checksum of everything before it. */
  ghost predicate BuiltFrom(data: Bytes, h: Header, s: AttributeSet, order: seq<AttrType>, i: Maybe<IntegrityData>,
                            mi: Maybe<Digest>, fp: Maybe<bv32>)
    requires forall t :: t in order ==> t in s.known
  {
    var body := Fields(AllItems(s, order, mi, fp));
    && data == HeaderBytes(h, |body|) + body
    && (mi.Some? <==> i.Some?)
    && (mi.Some? ==> Mac([CoveredBytes(h, Fields(PlainItems(s, order)))], i.value) == Ok(mi.value))
    && (fp.Some? <==> FINGERPRINT in s.known)
    && (fp.Some? ==> |data| >= 8 && fp.value == Crc(data[..|data| - 8]))
  }

  // ---- Room for the attribute headers ----

  lemma {:induction false} KnownSlots(s: AttributeSet, order: seq<AttrType>)
    requires forall t :: t in order ==> t in s.known
    requires forall i, j :: 0 <= i < j < |order| ==> order[i] != order[j]
    ensures |KnownItems(s, order)| + (if FINGERPRINT in order then 1 else 0) <= |order|
  {
    hide ValueBytes;
    if order != [] {
      var rest := order[1..];
      assert forall k :: 0 <= k < |rest| ==> rest[k] == order[k + 1];
      assert order == [order[0]] + rest;
      KnownSlots(s, rest);
      assert FINGERPRINT in order <==> order[0] == FINGERPRINT || FINGERPRINT in rest;
    }
  }

  lemma {:induction false} EnumerationSize(order: seq<AttrType>, keys: set<AttrType>)
    requires forall t :: t in order <==> t in keys
    requires forall i, j :: 0 <= i < j < |order| ==> order[i] != order[j]
    ensures |order| == |keys|
  {
    if order == [] {
      assert keys == {};
    } else {
      var rest := order[1..];
      assert forall k :: 0 <= k < |rest| ==> rest[k] == order[k + 1];
      assert order == [order[0]] + rest;
      EnumerationSize(rest, keys - {order[0]});
    }
  }

  /** The headers of a built message fit the slots set aside for them: one for every attribute of
      the set, known or unknown, and one for the integrity if asked for. */
  lemma SlotsSuffice(data: Bytes, h: Header, s: AttributeSet, order: seq<AttrType>, i: Maybe<IntegrityData>,
                     mi: Maybe<Digest>, fp: Maybe<bv32>)
    requires Enumerates(order, s) && BuiltFrom(data, h, s, order, i, mi, fp)
    ensures |AllItems(s, order, mi, fp)| <= |s.known| + |s.unknown| + (if i.Some? then 1 else 0)
  {
    hide Fields, HeaderBytes, Mac, Crc, KnownItems;
    KnownSlots(s, order);
    EnumerationSize(order, s.known.Keys);
  }

  lemma SignedIsFields(h: Header, items: seq<Item>, i: Maybe<IntegrityData>) returns (mi: Maybe<Digest>)
    requires WithIntegrity(h, Fields(items), i).Ok?
    ensures WithIntegrity(h, Fields(items), i).value == Fields(items + TailItems(mi, None))
    ensures mi.Some? <==> i.Some?
    ensures mi.Some? ==> Mac([CoveredBytes(h, Fields(items))], i.value) == Ok(mi.value)
  {
    hide Field, CoveredBytes, Mac;
    if i.Some? {
      mi := Some(Mac([CoveredBytes(h, Fields(items))], i.value).value);
      var last := Item(MESSAGE_INTEGRITY, mi.value);
      assert TailItems(mi, None) == [last] && [last][1..] == [];
      FieldsAppend(items, [last]);
    } else {
      mi := None;
      assert items + TailItems(mi, None) == items;
    }
  }

  lemma PrintedIsFields(h: Header, items: seq<Item>, crc: bv32)
    requires crc == Crc(HeaderBytes(h, |Fields(items)| + 8) + Fields(items))
    ensures
      var body := Fields(items + [Item(FINGERPRINT, U32(MaskCrc(crc)))]);
      var data := WithFingerprint(h, Fields(items), true);
      && |body| == |Fields(items)| + 8
      && data == HeaderBytes(h, |body|) + body
      && |data| >= 8 && crc == Crc(data[..|data| - 8])
  {
    hide Field, HeaderBytes, Crc, U32, MaskCrc;
    var last := Item(FINGERPRINT, U32(MaskCrc(crc)));
    LastField(items, last);
    hide Fields;
    Behind(HeaderBytes(h, |Fields(items)| + 8), Fields(items), Field(last));
  }

  lemma LastField(items: seq<Item>, last: Item)
    ensures Fields(items + [last]) == Fields(items) + Field(last)
  {
    hide Field;
    FieldsAppend(items, [last]);
    assert [last][1..] == [];
  }

  lemma Behind(a: Bytes, b: Bytes, c: Bytes)
    ensures a + b + c == a + (b + c) && (a + b + c)[..|a + b + c| - |c|] == a + b
  {
  }

  lemma BuildIsFields(h: Header, s: AttributeSet, order: seq<AttrType>, i: Maybe<IntegrityData>, data: Bytes)
      returns (mi: Maybe<Digest>, fp: Maybe<bv32>)
    requires forall t :: t in order ==> t in s.known
    requires BuildMessage(h, s, order, i) == Ok(data)
    ensures BuiltFrom(data, h, s, order, i, mi, fp)
  {
    hide Fields, HeaderBytes, CoveredBytes, Mac, Crc, U32, MaskCrc, PlainItems, WithIntegrity;
    var items := PlainItems(s, order);
    mi := SignedIsFields(h, items, i);
    var signed := items + TailItems(mi, None);
    if FINGERPRINT in s.known {
      fp := Some(Crc(HeaderBytes(h, |Fields(signed)| + 8) + Fields(signed)));
      PrintedIsFields(h, signed, fp.value);
      assert AllItems(s, order, mi, fp) == signed + [Item(FINGERPRINT, U32(MaskCrc(fp.value)))];
    } else {
      fp := None;
      assert AllItems(s, order, mi, fp) == signed;
    }
  }

  lemma {:induction false} KnownItemsPlain(s: AttributeSet, order: seq<AttrType>)
    requires forall t :: t in order ==> t in s.known
    ensures Plain(KnownItems(s, order))
  {
    if order != [] {
      KnownItemsPlain(s, order[1..]);
    }
  }

  lemma PlainItemsPlain(s: AttributeSet, order: seq<AttrType>)
    requires forall t :: t in order ==> t in s.known
    requires Unregistered(s.unknown)
    ensures Plain(PlainItems(s, order))
  {
    KnownItemsPlain(s, order);
    var known, items := KnownItems(s, order), PlainItems(s, order);
    forall k | 0 <= k < |items| ensures items[k].t != MESSAGE_INTEGRITY && items[k].t != FINGERPRINT {
      if k >= |known| {
        assert items[k] == UnknownItems(s.unknown)[k - |known|];
      }
    }
  }

  lemma ThreeParts(a: Bytes, b: Bytes, c: Bytes)
    ensures
      var s := a + (b + c);
      s[|a|..|a| + |b|] == b && s[|a| + |b|..] == c
  {
    var s := a + (b + c);
    assert s == a + b + c;
  }

  lemma ScanBuilt(data: Bytes, h: Header, s: AttributeSet, order: seq<AttrType>, i: Maybe<IntegrityData>,
                  mi: Maybe<Digest>, fp: Maybe<bv32>)
    requires forall t :: t in order ==> t in s.known
    requires Unregistered(s.unknown)
    requires BuiltFrom(data, h, s, order, i, mi, fp) && |data| - HEADER_SIZE < 0x10000
    ensures
      ScanFrom(data, HEADER_SIZE, START)
      == Ok(Scan(Raws(AllItems(s, order, mi, fp)),
                 if mi.Some? then Some(HEADER_SIZE + |Fields(PlainItems(s, order))|) else None,
                 if fp.Some? then Some(|data| - 8) else None))
  {
    hide *;
    var items, tail := PlainItems(s, order), TailItems(mi, fp);
    FieldsAppend(items, tail);
    PlainItemsPlain(s, order);
    BuiltShape(data, h, s, order, i, mi, fp);
    FieldsBound(items);
    ScanWhole(HeaderBytes(h, |Fields(items + tail)|), items, mi, fp);
  }

  lemma BuiltShape(data: Bytes, h: Header, s: AttributeSet, order: seq<AttrType>, i: Maybe<IntegrityData>,
                   mi: Maybe<Digest>, fp: Maybe<bv32>)
    requires forall t :: t in order ==> t in s.known
    requires BuiltFrom(data, h, s, order, i, mi, fp)
    ensures AllItems(s, order, mi, fp) == PlainItems(s, order) + TailItems(mi, fp)
    ensures
      var body := Fields(PlainItems(s, order) + TailItems(mi, fp));
      data == HeaderBytes(h, |body|) + body && |HeaderBytes(h, |body|)| == HEADER_SIZE
  {
    hide Fields, PlainItems, TailItems, CoveredBytes, Mac, Crc;
  }

  lemma ScanWhole(start: Bytes, items: seq<Item>, mi: Maybe<Digest>, fp: Maybe<bv32>)
    requires |start| == HEADER_SIZE && Plain(items) && Small(items)
    ensures
      var data := start + Fields(items + TailItems(mi, fp));
      ScanFrom(data, HEADER_SIZE, START)
      == Ok(Scan(Raws(items + TailItems(mi, fp)),
                 if mi.Some? then Some(HEADER_SIZE + |Fields(items)|) else None,
                 if fp.Some? then Some(|data| - 8) else None))
  {
    hide Fields, TailItems, ScanFrom, Plain, Small;
    var tail := TailItems(mi, fp);
    FieldsAppend(items, tail);
    ThreeParts(start, Fields(items), Fields(tail));
    var data := start + Fields(items + tail);
    ScanFields(data, HEADER_SIZE, items, START);
    assert START.raws + Raws(items) == Raws(items);
    ScanTail(data, HEADER_SIZE + |Fields(items)|, mi, fp, Scan(Raws(items), None, None));
    assert Raws(items) + Raws(tail) == Raws(items + tail);
  }

  lemma ParseBuilt(s: AttributeSet, order: seq<AttrType>, mi: Maybe<Digest>, fp: Maybe<bv32>)
    requires WellTyped(s) && Unregistered(s.unknown)
    requires forall t :: t in order ==> t in s.known
    ensures
      var r := ParseAll(Raws(AllItems(s, order, mi, fp)));
      (r.Ok? <==> KeepsFamilies(s, order))
      && (r.Ok? ==> r.value == KnownParsed(s, order) + UnknownParsed(s.unknown) + TailParsed(mi, fp))
  {
    hide TailItems, ParseAll, KnownItems, TailParsed;
    var known, unknown, tail := KnownItems(s, order), UnknownItems(s.unknown), TailItems(mi, fp);
    assert Raws(AllItems(s, order, mi, fp)) == Raws(known) + Raws(unknown) + Raws(tail);
    ParseAllAppend(Raws(known) + Raws(unknown), Raws(tail));
    ParseAllAppend(Raws(known), Raws(unknown));
    ParseKnown(s, order);
    ParseUnknown(s.unknown);
    ParseTail(mi, fp);
  }

  lemma CrcOfBuilt(s: AttributeSet, order: seq<AttrType>, mi: Maybe<Digest>, fp: Maybe<bv32>)
    requires WellTyped(s) && forall t :: t in order ==> t in s.known
    ensures CarriedCrc(KnownParsed(s, order) + UnknownParsed(s.unknown) + TailParsed(mi, fp)) == fp
  {
    hide KnownParsed;
    var ps := KnownParsed(s, order) + UnknownParsed(s.unknown) + TailParsed(mi, fp);
    if fp.Some? {
      assert ps[|ps| - 1] == Known(Fingerprint(fp.value));
    } else {
      NoCarriedCrc(ps);
    }
  }

  /** The set a receiver ends up with. */
  ghost function Delivered(s: AttributeSet, order: seq<AttrType>, mi: Maybe<Digest>, fp: Maybe<bv32>): AttributeSet
    requires forall t :: t in order ==> t in s.known
  {
    AttributeSet(
      DeliveredKnown(s, order)
      + (if mi.Some? then map[MESSAGE_INTEGRITY := MessageIntegrity(mi.value)] else map[])
      + (if fp.Some? then map[FINGERPRINT := Fingerprint(fp.value)] else map[]),
      s.unknown)
  }

  lemma EmplaceTail(acc: AttributeSet, mi: Maybe<Digest>, fp: Maybe<bv32>)
    requires MESSAGE_INTEGRITY !in acc.known && FINGERPRINT !in acc.known
    ensures
      EmplaceAll(acc, TailParsed(mi, fp))
      == acc.(known := acc.known
           + (if mi.Some? then map[MESSAGE_INTEGRITY := MessageIntegrity(mi.value)] else map[])
           + (if fp.Some? then map[FINGERPRINT := Fingerprint(fp.value)] else map[]))
  {
    hide EmplaceAll;
    var m := if mi.Some? then [Known(MessageIntegrity(mi.value))] else [];
    var f := if fp.Some? then [Known(Fingerprint(fp.value))] else [];
    EmplaceAllAppend(acc, m, f);
    EmplaceNone(acc);
    var digest := if mi.Some? then map[MESSAGE_INTEGRITY := MessageIntegrity(mi.value)] else map[];
    var acc' := acc.(known := acc.known + digest);
    EmplaceNone(acc');
    if mi.Some? {
      EmplaceNew(acc, MessageIntegrity(mi.value), []);
      assert m == m + [];
      assert acc.known[MESSAGE_INTEGRITY := MessageIntegrity(mi.value)] == acc'.known;
    } else {
      assert acc.known + map[] == acc.known;
    }
    assert EmplaceAll(acc, m) == acc';
    if fp.Some? {
      EmplaceNew(acc', Fingerprint(fp.value), []);
      assert f == f + [];
      EmplaceNone(acc'.(known := acc'.known[FINGERPRINT := Fingerprint(fp.value)]));
      assert acc'.known[FINGERPRINT := Fingerprint(fp.value)] == acc'.known + map[FINGERPRINT := Fingerprint(fp.value)];
    } else {
      assert acc'.known + map[] == acc'.known;
    }
  }

  lemma EmplaceBuilt(s: AttributeSet, order: seq<AttrType>, mi: Maybe<Digest>, fp: Maybe<bv32>)
    requires WellTyped(s) && Enumerates(order, s)
    ensures
      EmplaceAll(EMPTY, KnownParsed(s, order) + UnknownParsed(s.unknown) + TailParsed(mi, fp))
      == Delivered(s, order, mi, fp)
  {
    hide EmplaceAll, KnownParsed, TailParsed, ReadBack;
    var known, unknown, tail := KnownParsed(s, order), UnknownParsed(s.unknown), TailParsed(mi, fp);
    EmplaceAllAppend(EMPTY, known + unknown, tail);
    EmplaceAllAppend(EMPTY, known, unknown);
    EmplaceKnown(EMPTY, s, order);
    var a := EMPTY.(known := DeliveredKnown(s, order));
    assert EMPTY.known + DeliveredKnown(s, order) == DeliveredKnown(s, order);
    EmplaceUnknown(a, s.unknown);
    assert a.unknown + s.unknown == s.unknown;
    EmplaceTail(a.(unknown := s.unknown), mi, fp);
  }

  // ---- Main results ----

  /** Everything the sender put in comes out: header, unknown list in order, and every known
      attribute other than the two computed ones. */
  ghost predicate Faithful(m: Message, h: Header, s: AttributeSet) {
    && m.header == h
    && m.attrs.unknown == s.unknown
    && (forall t :: t in m.attrs.known && !Computed(t) ==> t in s.known)
    && (forall t :: t in s.known && !Computed(t) ==> t in m.attrs.known && m.attrs.known[t] == Canonical(s.known[t]))
  }

  lemma ParseOfBuilt(data: Bytes, h: Header, s: AttributeSet, order: seq<AttrType>, i: Maybe<IntegrityData>,
                     mi: Maybe<Digest>, fp: Maybe<bv32>, isRfc3489: bool)
    requires WellTyped(s) && Unregistered(s.unknown) && Enumerates(order, s)
    requires BuiltFrom(data, h, s, order, i, mi, fp) && |data| - HEADER_SIZE < 0x10000
    ensures
      var r := ParseBody(data, h, isRfc3489);
      (r.Ok? <==> KeepsFamilies(s, order))
      && (r.Ok? ==> r.value == Message(h, Delivered(s, order, mi, fp), isRfc3489,
                                       if mi.Some? then Some(HEADER_SIZE + |Fields(PlainItems(s, order))|) else None))
  {
    hide ScanFrom, ParseAll, EmplaceAll, CarriedCrc, Crc, Raws, AllItems, Mac, HeaderBytes, Fields, PlainItems;
    hide KnownParsed, UnknownParsed, TailParsed, Delivered;
    ScanBuilt(data, h, s, order, i, mi, fp);
    ParseBuilt(s, order, mi, fp);
    CrcOfBuilt(s, order, mi, fp);
    EmplaceBuilt(s, order, mi, fp);
  }

  /** What a message must be for a receiver to get back what was put in. */
  ghost predicate Deliverable(h: Header, s: AttributeSet, size: int) {
    && size < 0x10000 && IdSurvives(h)
    && Unregistered(s.unknown) && AllRepresentable(s)
    && forall t :: t in s.known ==> !LosesFamily(s.known[t])
  }

  /** For every header, attribute set, iteration order and integrity choice: the built message
      parses back to what was put in exactly when the body fits the 16-bit length, the
      transaction id survives, no unknown attribute poses under a known type, no attribute loses
      its address family and every error code fits its field. It then carries integrity exactly
      when it was built with integrity, and a fingerprint exactly when the set asked for one. */
  lemma RoundTripExact(h: Header, s: AttributeSet, order: seq<AttrType>, i: Maybe<IntegrityData>, data: Bytes)
    requires WellTyped(s) && Enumerates(order, s)
    requires BuildMessage(h, s, order, i) == Ok(data)
    ensures
      var r := ParseMessage(data);
      r.Ok? && Faithful(r.value, h, s) <==> Deliverable(h, s, |data| - HEADER_SIZE)
    ensures
      var r := ParseMessage(data);
      r.Ok? && Faithful(r.value, h, s) ==>
        && (MESSAGE_INTEGRITY in r.value.attrs.known <==> i.Some?)
        && (FINGERPRINT in r.value.attrs.known <==> FINGERPRINT in s.known)
        && r.value.isRfc3489 == (|h.tid| == 16)
        && WellTyped(r.value.attrs)
  {
    if Unregistered(s.unknown) {
      RoundTripUnregistered(h, s, order, i, data);
    } else if ParseMessage(data).Ok? {
      hide *;
      UnknownAreUnregistered(data);
      PosesUnfaithful(ParseMessage(data).value, h, s);
    }
    hide *;
  }

  lemma PosesUnfaithful(m: Message, h: Header, s: AttributeSet)
    requires Unregistered(m.attrs.unknown) && !Unregistered(s.unknown)
    ensures !Faithful(m, h, s)
  {
  }

  lemma RoundTripUnregistered(h: Header, s: AttributeSet, order: seq<AttrType>, i: Maybe<IntegrityData>, data: Bytes)
    requires WellTyped(s) && Unregistered(s.unknown) && Enumerates(order, s)
    requires BuildMessage(h, s, order, i) == Ok(data)
    ensures
      var r := ParseMessage(data);
      r.Ok? && Faithful(r.value, h, s) <==> Deliverable(h, s, |data| - HEADER_SIZE)
    ensures
      var r := ParseMessage(data);
      r.Ok? && Faithful(r.value, h, s) ==>
        && (MESSAGE_INTEGRITY in r.value.attrs.known <==> i.Some?)
        && (FINGERPRINT in r.value.attrs.known <==> FINGERPRINT in s.known)
        && r.value.isRfc3489 == (|h.tid| == 16)
        && WellTyped(r.value.attrs)
  {
    hide ParseHeader, ParseBody, HeaderBytes, Fields, AllItems, Mac, Crc, IdSurvives, CoveredBytes, PlainItems,
      Faithful;
    hide BuildMessage, Delivered, LosesFamily, AllRepresentable, Unregistered, WellTyped;
    var mi, fp := BuildIsFields(h, s, order, i, data);
    var body := Fields(AllItems(s, order, mi, fp));
    FieldsAligned(AllItems(s, order, mi, fp));
    HeaderRoundTrip(h, body);
    assert |data| - HEADER_SIZE == |body|;
    FamiliesAgree(s, order);
    if ParseHeader(data).Ok? && ParseHeader(data).value.0 == h {
      ParseOfBuilt(data, h, s, order, i, mi, fp, |h.tid| == 16);
      DeliveredFaithful(h, s, order, mi, fp, |h.tid| == 16);
    } else if ParseHeader(data).Ok? {
      HeaderKept(data, ParseHeader(data).value.0, ParseHeader(data).value.1);
      HeaderUnfaithful(h, s);
    }
  }

  lemma HeaderUnfaithful(h: Header, s: AttributeSet)
    ensures forall m :: Faithful(m, h, s) ==> m.header == h
  {
  }

  lemma HeaderKept(data: Bytes, h: Header, isRfc3489: bool)
    ensures ParseBody(data, h, isRfc3489).Ok? ==> ParseBody(data, h, isRfc3489).value.header == h
  {
    hide ScanFrom, ParseAll, EmplaceAll, CarriedCrc, Crc;
  }

  lemma FamiliesAgree(s: AttributeSet, order: seq<AttrType>)
    requires Enumerates(order, s)
    ensures KeepsFamilies(s, order) <==> forall t :: t in s.known ==> !LosesFamily(s.known[t])
  {
    if KeepsFamilies(s, order) {
      forall t | t in s.known ensures !LosesFamily(s.known[t]) {
        assert t in order;
      }
    }
  }

  /** What is delivered is faithful exactly when every error code fits. */
  lemma DeliveredFaithful(h: Header, s: AttributeSet, order: seq<AttrType>, mi: Maybe<Digest>, fp: Maybe<bv32>,
                          isRfc3489: bool)
    requires WellTyped(s) && Enumerates(order, s)
    ensures
      var d := Delivered(s, order, mi, fp);
      && (forall covered :: Faithful(Message(h, d, isRfc3489, covered), h, s) <==> AllRepresentable(s))
      && (MESSAGE_INTEGRITY in d.known <==> mi.Some?)
      && (FINGERPRINT in d.known <==> fp.Some?)
      && WellTyped(d)
  {
    DeliveredHolds(s, order, mi, fp);
    hide Delivered, ReadBack, Canonical, Representable, TypeOf;
    forall t | t in s.known ensures ReadBack(s.known[t]) == Canonical(s.known[t]) <==> Representable(s.known[t]) {
      ReadBackExact(s.known[t]);
    }
    forall t | t in s.known && Computed(t) ensures Representable(s.known[t]) {
      ComputedFits(s.known[t]);
    }
  }

  lemma ComputedFits(a: Attribute)
    requires Computed(TypeOf(a))
    ensures Representable(a)
  {
  }

  lemma DeliveredHolds(s: AttributeSet, order: seq<AttrType>, mi: Maybe<Digest>, fp: Maybe<bv32>)
    requires WellTyped(s) && Enumerates(order, s)
    ensures
      var d := Delivered(s, order, mi, fp);
      && d.unknown == s.unknown
      && (forall t :: t in d.known && !Computed(t) ==> t in s.known)
      && (forall t :: t in s.known && !Computed(t) ==> t in d.known && d.known[t] == ReadBack(s.known[t]))
      && (MESSAGE_INTEGRITY in d.known <==> mi.Some?)
      && (FINGERPRINT in d.known <==> fp.Some?)
      && WellTyped(d)
  {
    hide ReadBack, TypeOf;
    var d := Delivered(s, order, mi, fp);
    forall t | t in d.known ensures TypeOf(d.known[t]) == t {
      if Computed(t) {
        ComputedTypes(mi, fp);
      } else {
        assert t in s.known;
        ReadBackType(s.known[t]);
      }
    }
  }

  lemma ComputedTypes(mi: Maybe<Digest>, fp: Maybe<bv32>)
    ensures mi.Some? ==> TypeOf(MessageIntegrity(mi.value)) == MESSAGE_INTEGRITY
    ensures fp.Some? ==> TypeOf(Fingerprint(fp.value)) == FINGERPRINT
  {
  }
}
