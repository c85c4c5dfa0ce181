/** What a successful scan says about the buffer. */
module Tiling {
  import opened Bytes
  import opened Crc32
  import opened Header
  import opened Attributes
  import opened Messages
  import opened Parser

  /** The attributes fill the buffer from off to its end, each with its header, its value and
      its padding, without gap or overlap. */
  ghost predicate Tiles(vv: Bytes, off: nat, raws: seq<RawAttr>)
    decreases |raws|
  {
    if raws == [] then off == |vv|
    else
      && off + AlignedLength(|raws[0].v|) <= |vv|
      && ParseRaw(vv, off) == Some(raws[0])
      && Tiles(vv, off + AlignedLength(|raws[0].v|), raws[1..])
  }

  /** FINGERPRINT occurs at most once, and then last. */
  ghost predicate FingerprintLast(raws: seq<RawAttr>) {
    forall k :: 0 <= k < |raws| - 1 ==> raws[k].t != FINGERPRINT
  }

  /** The tilings a scan accepts. */
  ghost predicate WellTiled(vv: Bytes, off: nat, raws: seq<RawAttr>) {
    Tiles(vv, off, raws) && FingerprintLast(raws)
  }

  predicate Special(raw: RawAttr) {
    raw.t == MESSAGE_INTEGRITY || raw.t == FINGERPRINT
  }

  function SpecialOnly(raws: seq<RawAttr>): seq<RawAttr> {
    if raws == [] then []
    else (if Special(raws[0]) then [raws[0]] else []) + SpecialOnly(raws[1..])
  }

  /** Position of the first MESSAGE-INTEGRITY, or the length. */
  function FirstIntegrity(raws: seq<RawAttr>): (k: nat)
    ensures k <= |raws|
    ensures forall j :: 0 <= j < k ==> raws[j].t != MESSAGE_INTEGRITY
    ensures k < |raws| ==> raws[k].t == MESSAGE_INTEGRITY
  {
    if raws == [] || raws[0].t == MESSAGE_INTEGRITY then 0 else 1 + FirstIntegrity(raws[1..])
  }

  /** All attributes before the first MESSAGE-INTEGRITY; from there on only the special ones. */
  function Kept(raws: seq<RawAttr>): seq<RawAttr> {
    var k := FirstIntegrity(raws);
    raws[..k] + SpecialOnly(raws[k..])
  }

  /** A buffer has at most one tiling. */
  lemma {:induction false} TilingUnique(vv: Bytes, off: nat, a: seq<RawAttr>, b: seq<RawAttr>)
    requires Tiles(vv, off, a) && Tiles(vv, off, b)
    ensures a == b
    decreases |a|
  {
    hide ParseRaw;
    if a != [] && b != [] {
      TilingUnique(vv, off + AlignedLength(|a[0].v|), a[1..], b[1..]);
      assert a == [a[0]] + a[1..] && b == [b[0]] + b[1..];
    }
  }

  /** The raws a scan adds once integrity has, or has not, been seen. */
  function Added(raws: seq<RawAttr>, seen: bool): seq<RawAttr> {
    if seen then SpecialOnly(raws) else Kept(raws)
  }

  lemma AddedCons(raws: seq<RawAttr>, seen: bool)
    requires raws != []
    ensures
      Added(raws, seen)
      == (if Special(raws[0]) || !seen then [raws[0]] else [])
         + Added(raws[1..], seen || raws[0].t == MESSAGE_INTEGRITY)
  {
    if !seen {
      var k := FirstIntegrity(raws);
      if k == 0 {
        assert raws[..0] == [] && raws[0..] == raws;
      } else {
        KeptCons(raws);
      }
    }
  }

  lemma KeptCons(raws: seq<RawAttr>)
    requires raws != [] && FirstIntegrity(raws) > 0
    ensures Kept(raws) == [raws[0]] + Kept(raws[1..])
  {
    var k := FirstIntegrity(raws);
    assert k == 1 + FirstIntegrity(raws[1..]);
    hide FirstIntegrity, SpecialOnly;
    CutTail(raws, k);
    Regroup([raws[0]], raws[1..][..k - 1], SpecialOnly(raws[k..]));
  }

  lemma CutTail<T>(s: seq<T>, k: nat)
    requires 0 < k <= |s|
    ensures s[..k] == [s[0]] + s[1..][..k - 1] && s[k..] == s[1..][k - 1..]
  {
  }

  lemma Regroup<T>(a: seq<T>, b: seq<T>, c: seq<T>)
    ensures a + b + c == a + (b + c)
  {
  }

  /** Where the last attribute of a type starts. */
  function LastAt(raws: seq<RawAttr>, off: nat, t: AttrType): Maybe<nat> {
    if raws == [] then None
    else
      var later := LastAt(raws[1..], off + AlignedLength(|raws[0].v|), t);
      if later.Some? then later else if raws[0].t == t then Some(off) else None
  }

  /** What a scan makes of the attributes ahead. */
  function Scanned(st: Scan, raws: seq<RawAttr>, off: nat): Scan {
    var integrity, fingerprint := LastAt(raws, off, MESSAGE_INTEGRITY), LastAt(raws, off, FINGERPRINT);
    Scan(
      st.raws + Added(raws, st.integrity.Some?),
      if integrity.Some? then integrity else st.integrity,
      if fingerprint.Some? then fingerprint else st.fingerprint)
  }

  /** On whole words a scan succeeds exactly when the rest of the buffer tiles with any
      fingerprint last, and then it has added exactly the kept attributes and noted where the
      last of each special one starts. */
  lemma {:induction false} ScanTiles(vv: Bytes, off: nat, st: Scan)
    requires off <= |vv| && off % 4 == 0 && |vv| % 4 == 0
    ensures ScanFrom(vv, off, st).Ok? <==> exists raws :: WellTiled(vv, off, raws)
    ensures forall raws :: WellTiled(vv, off, raws) ==> ScanFrom(vv, off, st) == Ok(Scanned(st, raws, off))
    decreases |vv| - off
  {
    hide ParseRaw, AlignedLength, Scanned, ScanStep, WellTiled;
    if off == |vv| {
      EndTiled(vv, st);
    } else if ParseRaw(vv, off).None? {
      NoTiling(vv, off);
    } else {
      var raw := ParseRaw(vv, off).value;
      var off' := off + AlignedLength(|raw.v|);
      AlignedLengthIsPadded(|raw.v|);
      assert off' <= |vv|;
      var st' := ScanStep(st, raw, off);
      ScanTiles(vv, off', st');
      var last := raw.t == FINGERPRINT && off' < |vv|;
      assert ScanFrom(vv, off, st) == if last then Err(FingerprintIsNotLast) else ScanFrom(vv, off', st');
      hide ScanFrom;
      forall raws | WellTiled(vv, off, raws)
        ensures raws != [] && raws[0] == raw && !last && WellTiled(vv, off', raws[1..]) {
        TiledApart(vv, off, raws);
      }
      if ScanFrom(vv, off, st).Ok? {
        var rest :| WellTiled(vv, off', rest);
        TiledTogether(vv, off, raw, rest);
      }
      forall raws | WellTiled(vv, off, raws) ensures ScanFrom(vv, off, st) == Ok(Scanned(st, raws, off)) {
        StepScans(st, raw, off, raws);
      }
    }
  }

  lemma EndTiled(vv: Bytes, st: Scan)
    ensures WellTiled(vv, |vv|, [])
    ensures forall raws :: WellTiled(vv, |vv|, raws) ==> Scanned(st, raws, |vv|) == st
  {
    hide ParseRaw, AlignedLength, Added;
    AddedNone(st.integrity.Some?);
    forall raws | WellTiled(vv, |vv|, raws) ensures raws == [] {
      TilingUnique(vv, |vv|, raws, []);
    }
  }

  lemma NoTiling(vv: Bytes, off: nat)
    requires off != |vv| && ParseRaw(vv, off).None?
    ensures forall raws :: !WellTiled(vv, off, raws)
  {
    hide ParseRaw, AlignedLength;
  }

  lemma TiledApart(vv: Bytes, off: nat, raws: seq<RawAttr>)
    requires off < |vv| && WellTiled(vv, off, raws)
    ensures raws != [] && ParseRaw(vv, off) == Some(raws[0])
    ensures
      var off' := off + AlignedLength(|raws[0].v|);
      WellTiled(vv, off', raws[1..]) && (raws[0].t == FINGERPRINT ==> off' == |vv|)
  {
    hide ParseRaw, AlignedLength;
    assert forall k :: 0 <= k < |raws[1..]| ==> raws[1..][k] == raws[k + 1];
  }

  lemma StepAdds(st: Scan, raw: RawAttr, off: nat, raws: seq<RawAttr>)
    requires raws != [] && raws[0] == raw
    ensures
      var st' := ScanStep(st, raw, off);
      st'.raws + Added(raws[1..], st'.integrity.Some?) == st.raws + Added(raws, st.integrity.Some?)
  {
    hide Added;
    AddedCons(raws, st.integrity.Some?);
    var rest := Added(raws[1..], ScanStep(st, raw, off).integrity.Some?);
    assert st.raws + [raw] + rest == st.raws + ([raw] + rest);
    assert [] + rest == rest;
  }

  lemma StepScans(st: Scan, raw: RawAttr, off: nat, raws: seq<RawAttr>)
    requires raws != [] && raws[0] == raw
    ensures Scanned(ScanStep(st, raw, off), raws[1..], off + AlignedLength(|raw.v|)) == Scanned(st, raws, off)
  {
    hide AlignedLength, Added;
    StepAdds(st, raw, off, raws);
  }

  /** One more attribute in front of a tiling. */
  lemma TiledTogether(vv: Bytes, off: nat, raw: RawAttr, rest: seq<RawAttr>)
    requires off < |vv| && ParseRaw(vv, off) == Some(raw)
    requires off + AlignedLength(|raw.v|) <= |vv| && WellTiled(vv, off + AlignedLength(|raw.v|), rest)
    requires raw.t == FINGERPRINT ==> off + AlignedLength(|raw.v|) >= |vv|
    ensures WellTiled(vv, off, [raw] + rest)
  {
    hide ParseRaw, AlignedLength;
    assert ([raw] + rest)[1..] == rest;
    if raw.t == FINGERPRINT {
      TilingUnique(vv, off + AlignedLength(|raw.v|), rest, []);
    }
  }

  lemma AddedNone(seen: bool)
    ensures Added([], seen) == []
  {
  }

  lemma HeaderAccepted(vv: Bytes)
    ensures ParseHeader(vv).Ok? ==> |vv| >= HEADER_SIZE && |vv| % 4 == 0
  {
    hide ReadU16, ReadLength16, ReadU32, ClassOf, MethodOf;
  }

  /** What an accepted body is: tiled by attributes with any fingerprint single and last, the kept
      ones among them well formed, and the fingerprint, if any, the checksum of what precedes it. */
  ghost predicate Acceptable(vv: Bytes, raws: seq<RawAttr>) {
    && WellTiled(vv, HEADER_SIZE, raws)
    && ParseAll(Kept(raws)).Ok?
    && FingerprintHolds(vv, CarriedCrc(ParseAll(Kept(raws)).value), LastAt(raws, HEADER_SIZE, FINGERPRINT))
  }

  /** A buffer that is tiled is accepted exactly if it is acceptable, and the message then is read
      from the kept attributes alone, covered up to its last MESSAGE-INTEGRITY. */
  lemma TiledMessage(vv: Bytes, raws: seq<RawAttr>)
    requires ParseHeader(vv).Ok? && WellTiled(vv, HEADER_SIZE, raws)
    ensures ParseMessage(vv).Ok? <==> Acceptable(vv, raws)
    ensures ParseMessage(vv).Ok? ==>
      var (h, isRfc3489) := ParseHeader(vv).value;
      ParseMessage(vv).value
      == Message(h, EmplaceAll(EMPTY, ParseAll(Kept(raws)).value), isRfc3489,
        LastAt(raws, HEADER_SIZE, MESSAGE_INTEGRITY))
  {
    HeaderAccepted(vv);
    ScanTiles(vv, HEADER_SIZE, START);
    assert START.raws + Added(raws, false) == Kept(raws);
    hide ParseHeader, ScanFrom, ParseAll, EmplaceAll, CarriedCrc, FingerprintHolds, Kept, WellTiled, LastAt;
  }

  /** For every buffer: it is accepted exactly when its header is and its body is acceptable. */
  lemma AcceptedExact(vv: Bytes)
    ensures ParseMessage(vv).Ok? <==> ParseHeader(vv).Ok? && exists raws :: Acceptable(vv, raws)
  {
    if ParseHeader(vv).Ok? {
      HeaderAccepted(vv);
      ScanTiles(vv, HEADER_SIZE, START);
      hide ParseHeader, ScanFrom, ParseAll, EmplaceAll, CarriedCrc, FingerprintHolds, Kept, WellTiled, LastAt;
      if ParseMessage(vv).Ok? {
        var raws :| WellTiled(vv, HEADER_SIZE, raws);
        TiledMessage(vv, raws);
      }
      forall raws | Acceptable(vv, raws) ensures ParseMessage(vv).Ok? {
        TiledMessage(vv, raws);
      }
    }
  }

  /** Attributes after the first MESSAGE-INTEGRITY other than integrity and fingerprint do not
      matter: of two tiled buffers with the same kept attributes, each is accepted exactly when
      these are well formed and its own fingerprint holds, and then both yield the same set. */
  lemma IgnoredAfterIntegrity(vv: Bytes, ww: Bytes, a: seq<RawAttr>, b: seq<RawAttr>)
    requires ParseHeader(vv).Ok? && ParseHeader(ww).Ok? && Kept(a) == Kept(b)
    requires WellTiled(vv, HEADER_SIZE, a) && WellTiled(ww, HEADER_SIZE, b)
    ensures
      var ps := ParseAll(Kept(a));
      && (ParseMessage(vv).Ok? <==>
            ps.Ok? && FingerprintHolds(vv, CarriedCrc(ps.value), LastAt(a, HEADER_SIZE, FINGERPRINT)))
      && (ParseMessage(ww).Ok? <==>
            ps.Ok? && FingerprintHolds(ww, CarriedCrc(ps.value), LastAt(b, HEADER_SIZE, FINGERPRINT)))
      && (ps.Ok? && CarriedCrc(ps.value).None? ==> ParseMessage(vv).Ok? && ParseMessage(ww).Ok?)
      && (ParseMessage(vv).Ok? && ParseMessage(ww).Ok? ==> ParseMessage(vv).value.attrs == ParseMessage(ww).value.attrs)
  {
    TiledMessage(vv, a);
    TiledMessage(ww, b);
    hide ParseMessage, ParseAll, EmplaceAll, CarriedCrc, Kept, WellTiled, LastAt, ParseHeader, Crc;
  }
}
