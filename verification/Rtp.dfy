/** Packet::parse for RTP (section 5.1 of RFC 3550): exactly the packets of the format are
    accepted, and the parts found tile the packet. */
module Rtp {
  import opened Bytes

  const FIXED := 12

  datatype Interval = Interval(offset: nat, count: nat)

  datatype Extension = Extension(profile: bv16, data: Interval)

  datatype Header = Header(
    marker: bool,
    payloadType: byte,
    sequence: bv16,
    timestamp: bv32,
    clockRate: nat,
    ssrc: bv32,
    csrcs: seq<bv32>,
    extension: Maybe<Extension>)

  datatype Packet = Packet(header: Header, payload: Interval)

  /** Clock rates by payload type. */
  type PayloadMap = map<byte, nat>

  datatype Fault =
    | TooShort
    | UnknownVersion
    | CsrcOutside
    | InvalidPayloadType
    | UnknownClock
    | InvalidExtension
    | InvalidPadding

  // ---- The bits of the first two bytes ----

  predicate VersionTwo(b: byte) { b & 0xC0 == 0x80 }
  predicate Padded(b: byte) { b & 0x20 != 0 }
  predicate Extended(b: byte) { b & 0x10 != 0 }
  function CountBits(b: byte): byte { b & 0x0F }
  predicate Marked(b: byte) { b & 0x80 != 0 }
  function TypeBits(b: byte): byte { b & 0x7F }

  function FirstByte(padded: bool, extended: bool, count: byte): byte {
    0x80 | (if padded then 0x20 else 0) | (if extended then 0x10 else 0) | count
  }

  function SecondByte(marker: bool, pt: byte): byte {
    (if marker then 0x80 else 0) | pt
  }

  lemma FirstByteBits(b: byte, padded: bool, extended: bool, count: byte)
    ensures VersionTwo(b) ==> b == FirstByte(Padded(b), Extended(b), CountBits(b))
    ensures count < 16 ==>
      var f := FirstByte(padded, extended, count);
      VersionTwo(f) && (Padded(f) <==> padded) && (Extended(f) <==> extended) && CountBits(f) == count
    ensures CountBits(b) < 16
  {
  }

  lemma SecondByteBits(b: byte, marker: bool, pt: byte)
    ensures b == SecondByte(Marked(b), TypeBits(b)) && TypeBits(b) < 128
    ensures pt < 128 ==>
      var f := SecondByte(marker, pt);
      (Marked(f) <==> marker) && TypeBits(f) == pt
  {
  }

  // ---- The parts of a packet and their layout on the wire ----

  /** An extension: its profile field, the two bytes that count its words, and its data. */
  datatype ExtParts = ExtParts(profile: bv16, length: Bytes, data: Bytes)

  datatype Parts = Parts(
    marker: bool,
    payloadType: byte,
    sequence: bv16,
    timestamp: bv32,
    ssrc: bv32,
    csrcs: seq<bv32>,
    count: byte,
    extension: Maybe<ExtParts>,
    payload: Bytes,
    padded: bool,
    padding: Bytes)

  /** The padding ends with its own length. A padded packet whose last byte is zero has no
      padding bytes at all. */
  predicate PaddingFits(p: Parts) {
    if !p.padded then p.padding == []
    else if p.padding == [] then p.payload != [] && Value(p.payload[|p.payload| - 1]) == 0
    else Value(p.padding[|p.padding| - 1]) == |p.padding|
  }

  predicate ExtensionFits(e: ExtParts) {
    |e.length| == 2 && |e.data| == 4 * ReadLength16(e.length)
  }

  predicate WellFormed(p: Parts) {
    && p.payloadType < 128
    && p.count < 16 && Value(p.count) == |p.csrcs|
    && (p.extension.Some? ==> ExtensionFits(p.extension.value))
    && PaddingFits(p)
  }

  function Words(ws: seq<bv32>): (r: Bytes)
    ensures |r| == 4 * |ws|
  {
    if ws == [] then [] else U32(ws[0]) + Words(ws[1..])
  }

  function FixedPart(p: Parts): (r: Bytes)
    ensures |r| == FIXED
  {
    [FirstByte(p.padded, p.extension.Some?, p.count), SecondByte(p.marker, p.payloadType)]
    + U16(p.sequence) + U32(p.timestamp) + U32(p.ssrc)
  }

  function ExtensionPart(e: Maybe<ExtParts>): Bytes {
    match e
    case None => []
    case Some(x) => U16(x.profile) + x.length + x.data
  }

  function Layout(p: Parts): Bytes {
    FixedPart(p) + Words(p.csrcs) + ExtensionPart(p.extension) + p.payload + p.padding
  }

  /** How a packet made of these parts is described by intervals. */
  function Described(p: Parts, clockRate: nat): Packet {
    var ext := FIXED + 4 * |p.csrcs|;
    Packet(
      Header(p.marker, p.payloadType, p.sequence, p.timestamp, clockRate, p.ssrc, p.csrcs,
             match p.extension
             case None => None
             case Some(x) => Some(Extension(x.profile, Interval(ext + 4, |x.data|)))),
      Interval(ext + |ExtensionPart(p.extension)|, |p.payload|))
  }

  // ---- What is wrong with a packet, if anything ----

  /** Where the extension starts, once the fixed header is there. */
  function ExtOffset(vv: Bytes): nat
    requires |vv| >= FIXED
  {
    FIXED + 4 * Value(CountBits(vv[0]))
  }

  function ExtSize(vv: Bytes): nat
    requires |vv| >= FIXED && (Extended(vv[0]) ==> ExtOffset(vv) + 4 <= |vv|)
  {
    if Extended(vv[0]) then 4 + 4 * ReadLength16(vv[ExtOffset(vv) + 2..ExtOffset(vv) + 4]) else 0
  }

  function PaddingSize(vv: Bytes): nat
    requires |vv| >= FIXED
  {
    if Padded(vv[0]) then Value(vv[|vv| - 1]) else 0
  }

  /** Extension and padding must fit what the contributing sources leave. */
  function TailFault(vv: Bytes): Maybe<Fault>
    requires |vv| >= FIXED && ExtOffset(vv) <= |vv|
  {
    if Extended(vv[0]) && (ExtOffset(vv) + 4 > |vv| || ExtOffset(vv) + ExtSize(vv) > |vv|) then Some(InvalidExtension)
    else
      var room := |vv| - ExtOffset(vv) - ExtSize(vv);
      if Padded(vv[0]) && (room == 0 || PaddingSize(vv) > room) then Some(InvalidPadding)
      else None
  }

  /** The first check that fails. */
  function FaultOf(vv: Bytes, types: PayloadMap): Maybe<Fault> {
    if |vv| < FIXED then Some(TooShort)
    else if !VersionTwo(vv[0]) then Some(UnknownVersion)
    else if ExtOffset(vv) > |vv| then Some(CsrcOutside)
    else if TypeBits(vv[1]) > 127 then Some(InvalidPayloadType)
    else if TypeBits(vv[1]) !in types then Some(UnknownClock)
    else TailFault(vv)
  }

  function Csrcs(vv: Bytes, n: nat): (r: seq<bv32>)
    requires FIXED + 4 * n <= |vv|
    ensures |r| == n && forall i :: 0 <= i < n ==> r[i] == ReadU32(vv[FIXED + 4 * i..FIXED + 4 * i + 4])
  {
    seq(n, i requires 0 <= i < n => ReadU32(vv[FIXED + 4 * i..FIXED + 4 * i + 4]))
  }

  function ExtensionOf(vv: Bytes): Maybe<ExtParts>
    requires |vv| >= FIXED && (Extended(vv[0]) ==> ExtOffset(vv) + 4 <= |vv| && ExtOffset(vv) + ExtSize(vv) <= |vv|)
  {
    var ext := ExtOffset(vv);
    if Extended(vv[0]) then Some(ExtParts(ReadU16(vv[ext..ext + 2]), vv[ext + 2..ext + 4],
      vv[ext + 4..ext + ExtSize(vv)]))
    else None
  }

  /** The parts of an acceptable packet. */
  function PartsOf(vv: Bytes, types: PayloadMap): Parts
    requires FaultOf(vv, types) == None
  {
    var ext, size := ExtOffset(vv), ExtSize(vv);
    var end := |vv| - PaddingSize(vv);
    Parts(
      Marked(vv[1]),
      TypeBits(vv[1]),
      ReadU16(vv[2..4]),
      ReadU32(vv[4..8]),
      ReadU32(vv[8..12]),
      Csrcs(vv, Value(CountBits(vv[0]))),
      CountBits(vv[0]),
      ExtensionOf(vv),
      vv[ext + size..end],
      Padded(vv[0]),
      vv[end..])
  }

  // ---- The parser ----

  datatype ParseStat = ParseStat(
    success: nat,
    error: nat,
    invalidSize: nat,
    invalidVersion: nat,
    invalidCsrc: nat,
    invalidExtension: nat,
    invalidPayloadType: nat,
    unknownRtpClock: nat,
    invalidPadding: nat)

  function Counted(stat: ParseStat, fault: Maybe<Fault>): ParseStat {
    match fault
    case None => stat.(success := stat.success + 1)
    case Some(f) =>
      var stat := stat.(error := stat.error + 1);
      match f
      case TooShort => stat.(invalidSize := stat.invalidSize + 1)
      case UnknownVersion => stat.(invalidVersion := stat.invalidVersion + 1)
      case CsrcOutside => stat.(invalidCsrc := stat.invalidCsrc + 1)
      case InvalidPayloadType => stat.(invalidPayloadType := stat.invalidPayloadType + 1)
      case UnknownClock => stat.(unknownRtpClock := stat.unknownRtpClock + 1)
      case InvalidExtension => stat.(invalidExtension := stat.invalidExtension + 1)
      case InvalidPadding => stat.(invalidPadding := stat.invalidPadding + 1)
  }

  /** The loop that reads the contributing sources. */
  method ReadCsrcs(vv: Bytes, n: nat) returns (r: Maybe<seq<bv32>>)
    requires |vv| >= FIXED
    ensures r == if FIXED + 4 * n <= |vv| then Some(Csrcs(vv, n)) else None
  {
    hide ReadU32;
    var csrcs := [];
    for i := 0 to n
      invariant FIXED + 4 * i <= |vv| && csrcs == Csrcs(vv, i)
    {
      if FIXED + 4 * i + 4 > |vv| {
        return None;
      }
      csrcs := csrcs + [ReadU32(vv[FIXED + 4 * i..FIXED + 4 * i + 4])];
    }
    r := Some(csrcs);
  }

  /** Extension, payload and padding. */
  method ReadTail(vv: Bytes, n: nat) returns (r: Result<(Maybe<Extension>, Interval), Fault>)
    requires |vv| >= FIXED && n == Value(CountBits(vv[0])) && ExtOffset(vv) <= |vv|
    ensures r.Err? ==> TailFault(vv) == Some(r.error)
    ensures r.Ok? ==> TailFault(vv) == None
    ensures r.Ok? ==>
      && r.value.1 == Interval(ExtOffset(vv) + ExtSize(vv), |vv| - PaddingSize(vv) - ExtOffset(vv) - ExtSize(vv))
      && r.value.0 == if Extended(vv[0])
                      then Some(Extension(ReadU16(vv[ExtOffset(vv)..ExtOffset(vv) + 2]),
                        Interval(ExtOffset(vv) + 4, ExtSize(vv) - 4)))
                      else None
  {
    hide ReadU16, ReadLength16, Value, Padded, Extended, CountBits;
    var ext := 4 * n + FIXED;
    var extension: Maybe<Extension>, extSize := None, 0;
    if Extended(vv[0]) {
      if ext + 4 > |vv| {
        return Err(InvalidExtension);
      }
      extSize := (ReadLength16(vv[ext + 2..ext + 4]) + 1) * 4;
      if ext + 4 + (extSize - 4) > |vv| {
        return Err(InvalidExtension);
      }
      extension := Some(Extension(ReadU16(vv[ext..ext + 2]), Interval(ext + 4, extSize - 4)));
    }
    var payloadOffset := ext + extSize;
    assert |vv| >= payloadOffset;
    var room, padding := |vv| - payloadOffset, 0;
    if Padded(vv[0]) {
      if room == 0 {
        return Err(InvalidPadding);
      }
      padding := Value(vv[|vv| - 1]);
      if padding > room {
        return Err(InvalidPadding);
      }
    }
    r := Ok((extension, Interval(payloadOffset, room - padding)));
  }

  /** The checks in order. */
  method ParsePacket(vv: Bytes, types: PayloadMap) returns (r: Result<Packet, Fault>)
    ensures r.Err? ==> FaultOf(vv, types) == Some(r.error)
    ensures r.Ok? ==> FaultOf(vv, types) == None
    ensures r.Ok? ==>
      var p := PartsOf(vv, types);
      p.payloadType in types && r.value == Described(p, types[p.payloadType])
  {
    hide ReadU16, ReadU32, ReadLength16, Value, VersionTwo, Padded, Extended, CountBits, Marked, TypeBits;
    if |vv| < FIXED {
      return Err(TooShort);
    }
    var first, second := vv[0], vv[1];
    var sequence, timestamp, ssrc := ReadU16(vv[2..4]), ReadU32(vv[4..8]), ReadU32(vv[8..12]);
    if !VersionTwo(first) {
      return Err(UnknownVersion);
    }
    var n := Value(CountBits(first));
    var csrcs := ReadCsrcs(vv, n);
    if csrcs.None? {
      return Err(CsrcOutside);
    }
    var payloadType := TypeBits(second);
    if payloadType > 127 {
      return Err(InvalidPayloadType);
    }
    if payloadType !in types {
      return Err(UnknownClock);
    }
    var tail := ReadTail(vv, n);
    if tail.Err? {
      return Err(tail.error);
    }
    var (extension, payload) := tail.value;
    var header := Header(Marked(second), payloadType, sequence, timestamp, types[payloadType], ssrc, csrcs.value,
      extension);
    r := Ok(Packet(header, payload));
  }

  /** The parser with its counters. */
  method Parse(vv: Bytes, types: PayloadMap, before: ParseStat) returns (r: Result<Packet, Fault>, stat: ParseStat)
    ensures r.Err? ==> FaultOf(vv, types) == Some(r.error)
    ensures r.Ok? ==> FaultOf(vv, types) == None
    ensures r.Ok? ==>
      var p := PartsOf(vv, types);
      p.payloadType in types && r.value == Described(p, types[p.payloadType])
    ensures stat == Counted(before, FaultOf(vv, types))
  {
    hide FaultOf, PartsOf, Described;
    r := ParsePacket(vv, types);
    stat := before;
    if r.Ok? {
      stat := stat.(success := stat.success + 1);
    } else {
      match r.error {
        case TooShort => stat := stat.(invalidSize := stat.invalidSize + 1);
        case UnknownVersion => stat := stat.(invalidVersion := stat.invalidVersion + 1);
        case CsrcOutside => stat := stat.(invalidCsrc := stat.invalidCsrc + 1);
        case InvalidPayloadType => stat := stat.(invalidPayloadType := stat.invalidPayloadType + 1);
        case UnknownClock => stat := stat.(unknownRtpClock := stat.unknownRtpClock + 1);
        case InvalidExtension => stat := stat.(invalidExtension := stat.invalidExtension + 1);
        case InvalidPadding => stat := stat.(invalidPadding := stat.invalidPadding + 1);
      }
      stat := stat.(error := stat.error + 1);
    }
  }

  // ---- Counters ----

  function Sum(s: ParseStat): nat {
    s.invalidSize + s.invalidVersion + s.invalidCsrc + s.invalidExtension + s.invalidPayloadType + s.unknownRtpClock
    + s.invalidPadding
  }

  /** The counters after a run of calls, each with its own payload map. */
  function CountedAll(calls: seq<(Bytes, PayloadMap)>): ParseStat {
    if calls == [] then ParseStat(0, 0, 0, 0, 0, 0, 0, 0, 0)
    else
      var (vv, types) := calls[|calls| - 1];
      Counted(CountedAll(calls[..|calls| - 1]), FaultOf(vv, types))
  }

  /** How many of the calls met this fault, or none. */
  function Tally(calls: seq<(Bytes, PayloadMap)>, fault: Maybe<Fault>): nat {
    if calls == [] then 0
    else
      var (vv, types) := calls[|calls| - 1];
      Tally(calls[..|calls| - 1], fault) + if FaultOf(vv, types) == fault then 1 else 0
  }

  /** The counter of a fault, or of none. */
  function CounterOf(s: ParseStat, fault: Maybe<Fault>): nat {
    match fault
    case None => s.success
    case Some(TooShort) => s.invalidSize
    case Some(UnknownVersion) => s.invalidVersion
    case Some(CsrcOutside) => s.invalidCsrc
    case Some(InvalidPayloadType) => s.invalidPayloadType
    case Some(UnknownClock) => s.unknownRtpClock
    case Some(InvalidExtension) => s.invalidExtension
    case Some(InvalidPadding) => s.invalidPadding
  }

  /** Over every run each counter is the number of calls that met its fault, each call raises exactly
      one of success and error, error is always the sum of the specific counters, and the payload
      type counter never moves. */
  lemma {:induction false} CountersBalance(calls: seq<(Bytes, PayloadMap)>)
    ensures
      var s := CountedAll(calls);
      && (forall f :: CounterOf(s, f) == Tally(calls, f))
      && s.success + s.error == |calls| && s.error == Sum(s) && s.invalidPayloadType == 0
  {
    if calls != [] {
      var before := CountedAll(calls[..|calls| - 1]);
      var (vv, types) := calls[|calls| - 1];
      var met := FaultOf(vv, types);
      assert CountedAll(calls) == Counted(before, met);
      assert forall f :: Tally(calls, f) == Tally(calls[..|calls| - 1], f) + if met == f then 1 else 0;
      hide FaultOf, CountedAll, Tally;
      CountersBalance(calls[..|calls| - 1]);
      NeverPayloadType(vv, types);
      OneCount(before, met);
      hide Counted, Sum, CounterOf;
      forall f ensures CounterOf(Counted(before, met), f) == Tally(calls, f) {
        CounterMoves(before, met, f);
      }
    }
  }

  lemma CounterMoves(s: ParseStat, met: Maybe<Fault>, f: Maybe<Fault>)
    ensures CounterOf(Counted(s, met), f) == CounterOf(s, f) + if met == f then 1 else 0
  {
  }

  lemma OneCount(s: ParseStat, fault: Maybe<Fault>)
    ensures
      var s' := Counted(s, fault);
      && s'.success + s'.error == s.success + s.error + 1
      && s'.error - Sum(s') == s.error - Sum(s)
      && (fault != Some(InvalidPayloadType) ==> s'.invalidPayloadType == s.invalidPayloadType)
  {
  }

  lemma NeverPayloadType(vv: Bytes, types: PayloadMap)
    ensures FaultOf(vv, types) != Some(InvalidPayloadType)
  {
    hide VersionTwo, Padded, Extended, CountBits, TypeBits, Value, ReadLength16;
    if |vv| >= FIXED {
      SecondByteBits(vv[1], false, 0);
    }
  }

  // ---- The format ----

  lemma {:induction false} WordsAt(ws: seq<bv32>, i: nat)
    requires i < |ws|
    ensures Words(ws)[4 * i..4 * i + 4] == U32(ws[i])
  {
    hide U32;
    if i > 0 {
      WordsAt(ws[1..], i - 1);
      Part(Words(ws), 4, Words(ws[1..]), 4 * (i - 1), 4 * i);
    }
  }

  lemma {:induction false} WordsRead(vv: Bytes, off: nat, ws: seq<bv32>)
    requires off + 4 * |ws| <= |vv|
    requires forall i :: 0 <= i < |ws| ==> ws[i] == ReadU32(vv[off + 4 * i..off + 4 * i + 4])
    ensures Words(ws) == vv[off..off + 4 * |ws|]
    decreases |ws|
  {
    hide U32, ReadU32;
    if ws != [] {
      forall i | 0 <= i < |ws[1..]| ensures ws[1..][i] == ReadU32(vv[off + 4 + 4 * i..off + 4 + 4 * i + 4]) {
        assert ws[1..][i] == ws[i + 1];
      }
      WordsRead(vv, off + 4, ws[1..]);
      Rewrite32(vv[off..off + 4]);
      assert vv[off..off + 4 * |ws|] == vv[off..off + 4] + vv[off + 4..off + 4 + 4 * |ws[1..]|];
    }
  }

  lemma Rewrite32(s: Bytes)
    requires |s| == 4
    ensures U32(ReadU32(s)) == s
  {
  }

  lemma Rewrite16(s: Bytes)
    requires |s| == 2
    ensures U16(ReadU16(s)) == s
  {
  }

  lemma ExtensionRead(vv: Bytes, off: nat, size: nat)
    requires off + size <= |vv| && size >= 4
    ensures
      var e := ExtParts(ReadU16(vv[off..off + 2]), vv[off + 2..off + 4], vv[off + 4..off + size]);
      ExtensionPart(Some(e)) == vv[off..off + size]
  {
    hide ReadU16, U16;
    Rewrite16(vv[off..off + 2]);
    assert vv[off..off + size] == vv[off..off + 2] + vv[off + 2..off + 4] + vv[off + 4..off + size];
  }

  lemma FixedRead(vv: Bytes)
    requires |vv| >= FIXED && VersionTwo(vv[0])
    ensures
      [FirstByte(Padded(vv[0]), Extended(vv[0]), CountBits(vv[0])), SecondByte(Marked(vv[1]), TypeBits(vv[1]))]
      + U16(ReadU16(vv[2..4])) + U32(ReadU32(vv[4..8])) + U32(ReadU32(vv[8..12]))
      == vv[..FIXED]
  {
    hide U16, U32, ReadU16, ReadU32, FirstByte, SecondByte, Padded, Extended, CountBits, Marked, TypeBits;
    FirstByteBits(vv[0], false, false, 0);
    SecondByteBits(vv[1], false, 0);
    Rewrite16(vv[2..4]);
    Rewrite32(vv[4..8]);
    Rewrite32(vv[8..12]);
    assert vv[..FIXED] == [vv[0], vv[1]] + vv[2..4] + vv[4..8] + vv[8..12];
  }

  /** What the parser finds in an acceptable packet is well formed, and laid out again it is the
      packet: fixed header, sources, extension, payload and padding tile it. */
  lemma PartsTile(vv: Bytes, types: PayloadMap)
    requires FaultOf(vv, types) == None
    ensures WellFormed(PartsOf(vv, types)) && PartsOf(vv, types).payloadType in types
    ensures Layout(PartsOf(vv, types)) == vv
  {
    PartsFit(vv, types);
    LongEnough(vv, types);
    hide *;
    var ext, end := ExtOffset(vv), |vv| - PaddingSize(vv);
    var payload := ext + ExtSize(vv);
    PartsRest(vv, types);
    assert Slice(vv, 0, FIXED) == FixedPart(PartsOf(vv, types)) by { PartsFixed(vv, types); SliceIs(vv, 0, FIXED); }
    assert Slice(vv, FIXED, ext) == Words(PartsOf(vv, types).csrcs)
      by { PartsWords(vv, types); SliceIs(vv, FIXED, ext); }
    assert Slice(vv, ext, payload) == ExtensionPart(PartsOf(vv, types).extension) by {
      PartsExtension(vv, types);
      SliceIs(vv, ext, payload);
    }
    assert Slice(vv, payload, end) == PartsOf(vv, types).payload by { SliceIs(vv, payload, end); }
    assert Slice(vv, end, |vv|) == PartsOf(vv, types).padding by { SliceIs(vv, end, |vv|); }
    LayoutFrom(PartsOf(vv, types), vv, FIXED, ext, payload, end);
  }

  function Slice(vv: Bytes, a: nat, b: nat): Bytes
    requires a <= b <= |vv|
  {
    vv[a..b]
  }

  lemma SliceIs(vv: Bytes, a: nat, b: nat)
    requires a <= b <= |vv|
    ensures Slice(vv, a, b) == vv[a..b]
    ensures a == 0 ==> Slice(vv, a, b) == vv[..b]
    ensures b == |vv| ==> Slice(vv, a, b) == vv[a..]
  {
  }

  lemma LayoutFrom(p: Parts, vv: Bytes, a: nat, b: nat, c: nat, d: nat)
    requires a <= b <= c <= d <= |vv|
    requires FixedPart(p) == Slice(vv, 0, a) && Words(p.csrcs) == Slice(vv, a, b)
      && ExtensionPart(p.extension) == Slice(vv, b, c)
    requires p.payload == Slice(vv, c, d) && p.padding == Slice(vv, d, |vv|)
    ensures Layout(p) == vv
  {
    hide FixedPart, Words, ExtensionPart;
    assert vv[0..a] == vv[..a] && vv[d..|vv|] == vv[d..];
    Tiles(vv, a, b, c, d);
  }

  lemma LongEnough(vv: Bytes, types: PayloadMap)
    requires FaultOf(vv, types) == None
    ensures |vv| >= FIXED && (Extended(vv[0]) ==> ExtOffset(vv) + 4 <= |vv|)
  {
    hide VersionTwo, Padded, Extended, CountBits, TypeBits, Value, ReadLength16;
  }

  lemma PartsFixed(vv: Bytes, types: PayloadMap)
    requires FaultOf(vv, types) == None
    ensures FixedPart(PartsOf(vv, types)) == vv[..FIXED]
  {
    FixedRead(vv);
    hide U16, U32, ReadU16, ReadU32, ReadLength16, FirstByte, SecondByte, Value, TailFault, ExtOffset, ExtSize;
    hide VersionTwo, Padded, Extended, CountBits, Marked, TypeBits;
  }

  lemma PartsWords(vv: Bytes, types: PayloadMap)
    requires FaultOf(vv, types) == None
    ensures Words(PartsOf(vv, types).csrcs) == vv[FIXED..ExtOffset(vv)]
  {
    hide U32, ReadU16, ReadU32, ReadLength16, Value, TailFault, ExtSize, Words;
    hide VersionTwo, Padded, Extended, CountBits, Marked, TypeBits;
    WordsRead(vv, FIXED, PartsOf(vv, types).csrcs);
  }

  lemma PartsExtension(vv: Bytes, types: PayloadMap)
    requires FaultOf(vv, types) == None
    ensures ExtensionPart(PartsOf(vv, types).extension) == vv[ExtOffset(vv)..ExtOffset(vv) + ExtSize(vv)]
  {
    hide U32, U16, ReadU16, ReadU32, ReadLength16, Value, ExtOffset, Csrcs, ExtensionPart;
    hide VersionTwo, Padded, Extended, CountBits, Marked, TypeBits;
    if Extended(vv[0]) {
      ExtensionRead(vv, ExtOffset(vv), ExtSize(vv));
    } else {
      NoExtension();
      assert vv[ExtOffset(vv)..ExtOffset(vv) + ExtSize(vv)] == [];
    }
  }

  lemma PartsRest(vv: Bytes, types: PayloadMap)
    requires FaultOf(vv, types) == None
    ensures
      var p, end := PartsOf(vv, types), |vv| - PaddingSize(vv);
      FIXED <= ExtOffset(vv) && ExtOffset(vv) + ExtSize(vv) <= end
      && p.payload == vv[ExtOffset(vv) + ExtSize(vv)..end] && p.padding == vv[end..]
  {
    hide U32, U16, ReadU16, ReadU32, ReadLength16, Value, Csrcs;
    hide VersionTwo, Padded, Extended, CountBits, Marked, TypeBits;
  }

  lemma Tiles(vv: Bytes, a: nat, b: nat, c: nat, d: nat)
    requires a <= b <= c <= d <= |vv|
    ensures vv[..a] + vv[a..b] + vv[b..c] + vv[c..d] + vv[d..] == vv
  {
    assert vv[..a] + vv[a..b] == vv[..b];
    assert vv[..b] + vv[b..c] == vv[..c];
    assert vv[..c] + vv[c..d] == vv[..d];
  }

  lemma PartsFit(vv: Bytes, types: PayloadMap)
    requires FaultOf(vv, types) == None
    ensures WellFormed(PartsOf(vv, types)) && PartsOf(vv, types).payloadType in types
  {
    hide ReadU16, ReadU32, ReadLength16, Value, VersionTwo, Padded, Extended, CountBits, Marked, TypeBits;
    FirstByteBits(vv[0], false, false, 0);
    SecondByteBits(vv[1], false, 0);
    var p := PartsOf(vv, types);
    assert p.padding != [] ==> p.padding[|p.padding| - 1] == vv[|vv| - 1];
    assert p.padding == [] && p.padded ==> p.payload != [] && p.payload[|p.payload| - 1] == vv[|vv| - 1];
  }

  lemma NoExtension()
    ensures ExtensionPart(None) == []
  {
  }

  /** Where the parts of a layout are. */
  lemma LayoutAt(a: Bytes, b: Bytes, c: Bytes, d: Bytes, e: Bytes)
    ensures
      var vv := a + b + c + d + e;
      var i, j, k, l := |a|, |a| + |b|, |a| + |b| + |c|, |a| + |b| + |c| + |d|;
      vv[..i] == a && vv[i..j] == b && vv[j..k] == c && vv[k..l] == d && vv[l..] == e && |vv| == l + |e|
  {
  }

  lemma FixedBack(p: Parts, vv: Bytes)
    requires p.payloadType < 128 && p.count < 16 && |vv| >= FIXED && vv[..FIXED] == FixedPart(p)
    ensures VersionTwo(vv[0]) && CountBits(vv[0]) == p.count && (Padded(vv[0]) <==> p.padded)
    ensures (Extended(vv[0]) <==> p.extension.Some?) && (Marked(vv[1]) <==> p.marker)
      && TypeBits(vv[1]) == p.payloadType
    ensures ReadU16(vv[2..4]) == p.sequence && ReadU32(vv[4..8]) == p.timestamp && ReadU32(vv[8..12]) == p.ssrc
  {
    hide U16, U32, ReadU16, ReadU32, FirstByte, SecondByte, Padded, Extended, CountBits, Marked, TypeBits, VersionTwo;
    FirstByteBits(0, p.padded, p.extension.Some?, p.count);
    SecondByteBits(0, p.marker, p.payloadType);
    var f := FixedPart(p);
    assert vv[0] == f[0] && vv[1] == f[1];
    assert vv[2..4] == f[2..4] == U16(p.sequence);
    assert vv[4..8] == f[4..8] == U32(p.timestamp);
    assert vv[8..12] == f[8..12] == U32(p.ssrc);
  }

  lemma CsrcsBack(vv: Bytes, ws: seq<bv32>)
    requires FIXED + 4 * |ws| <= |vv| && vv[FIXED..FIXED + 4 * |ws|] == Words(ws)
    ensures Csrcs(vv, |ws|) == ws
  {
    hide U32, ReadU32, Words;
    forall i | 0 <= i < |ws| ensures Csrcs(vv, |ws|)[i] == ws[i] {
      CsrcBack(vv, ws, i);
    }
  }

  lemma CsrcBack(vv: Bytes, ws: seq<bv32>, i: nat)
    requires FIXED + 4 * |ws| <= |vv| && vv[FIXED..FIXED + 4 * |ws|] == Words(ws) && i < |ws|
    ensures ReadU32(vv[FIXED + 4 * i..FIXED + 4 * i + 4]) == ws[i]
  {
    hide U32, ReadU32, Words;
    WordsAt(ws, i);
    Part(vv, FIXED, Words(ws), 4 * i, 4 * i + 4);
  }

  lemma ExtensionBack(vv: Bytes, off: nat, x: ExtParts)
    requires ExtensionFits(x) && off + 4 + |x.data| <= |vv|
    requires vv[off..off + 4 + |x.data|] == ExtensionPart(Some(x))
    ensures vv[off + 2..off + 4] == x.length && vv[off + 4..off + 4 + |x.data|] == x.data
    ensures ReadU16(vv[off..off + 2]) == x.profile
  {
    hide U16, ReadU16, ReadLength16;
    var e := ExtensionPart(Some(x));
    Part(vv, off, e, 0, 2);
    Part(vv, off, e, 2, 4);
    Part(vv, off, e, 4, 4 + |x.data|);
    assert e[0..2] == U16(x.profile) && e[2..4] == x.length && e[4..4 + |x.data|] == x.data;
  }

  /** The parts lie one after the other in the buffer. */
  ghost predicate LaidOut(p: Parts, vv: Bytes) {
    var ext := FIXED + 4 * |p.csrcs|;
    var payload := ext + |ExtensionPart(p.extension)|;
    var padding := payload + |p.payload|;
    && |vv| == padding + |p.padding|
    && vv[..FIXED] == FixedPart(p) && vv[FIXED..ext] == Words(p.csrcs) && vv[ext..payload] == ExtensionPart(p.extension)
    && vv[payload..padding] == p.payload && vv[padding..] == p.padding
  }

  /** The parser measures the parts as they are. */
  ghost predicate Measured(p: Parts, vv: Bytes) {
    && |vv| >= FIXED && ExtOffset(vv) == FIXED + 4 * |p.csrcs|
    && ExtOffset(vv) + |ExtensionPart(p.extension)| + |p.payload| + |p.padding| == |vv|
    && (Extended(vv[0]) ==> |ExtensionPart(p.extension)| >= 4)
    && ExtSize(vv) == |ExtensionPart(p.extension)| && PaddingSize(vv) == |p.padding|
  }

  lemma MeasuredRight(p: Parts, vv: Bytes)
    requires WellFormed(p) && LaidOut(p, vv)
    ensures Measured(p, vv)
  {
    hide U16, U32, ReadU16, ReadU32, ReadLength16, FirstByte, SecondByte, Value;
    hide VersionTwo, Padded, Extended, CountBits, Marked, TypeBits, Words, FixedPart;
    FixedBack(p, vv);
    var ext := FIXED + 4 * |p.csrcs|;
    if p.extension.Some? {
      ExtensionBack(vv, ext, p.extension.value);
    }
    assert ExtOffset(vv) == ext;
    if p.padding != [] {
      assert vv[|vv| - 1] == p.padding[|p.padding| - 1];
    } else if p.payload != [] {
      assert vv[|vv| - 1] == p.payload[|p.payload| - 1];
    }
  }

  lemma MeasuredAccepted(p: Parts, vv: Bytes, types: PayloadMap)
    requires WellFormed(p) && p.payloadType in types && LaidOut(p, vv) && Measured(p, vv)
    ensures FaultOf(vv, types) == None
  {
    FixedBack(p, vv);
    hide U16, U32, ReadU16, ReadU32, ReadLength16, FirstByte, SecondByte, Value, ExtOffset, ExtSize, PaddingSize;
    hide VersionTwo, Padded, Extended, CountBits, Marked, TypeBits, Words, FixedPart, ExtensionPart, LaidOut;
  }

  lemma MeasuredParts(p: Parts, vv: Bytes, types: PayloadMap)
    requires WellFormed(p) && LaidOut(p, vv) && Measured(p, vv) && FaultOf(vv, types) == None
    ensures PartsOf(vv, types) == p
  {
    hide U16, U32, ReadU16, ReadU32, ReadLength16, FirstByte, SecondByte, Value;
    hide VersionTwo, Padded, Extended, CountBits, Marked, TypeBits, Words, FixedPart, FaultOf;
    FixedBack(p, vv);
    MeasuredCsrcs(p, vv);
    MeasuredExtension(p, vv);
    hide Csrcs, ExtOffset, ExtSize, PaddingSize, ExtensionOf, ExtensionPart, WellFormed;
  }

  lemma MeasuredExtension(p: Parts, vv: Bytes)
    requires WellFormed(p) && LaidOut(p, vv) && Measured(p, vv)
    ensures ExtensionOf(vv) == p.extension
  {
    hide U16, U32, ReadU16, ReadU32, ReadLength16, FirstByte, SecondByte, Value;
    hide VersionTwo, Padded, Extended, CountBits, Marked, TypeBits, Words, FixedPart;
    FixedBack(p, vv);
    if p.extension.Some? {
      ExtensionBack(vv, FIXED + 4 * |p.csrcs|, p.extension.value);
    }
    hide ExtOffset, ExtSize, PaddingSize;
  }

  lemma MeasuredCsrcs(p: Parts, vv: Bytes)
    requires WellFormed(p) && LaidOut(p, vv)
    ensures CountBits(vv[0]) == p.count && Csrcs(vv, Value(p.count)) == p.csrcs
  {
    hide U16, U32, ReadU16, ReadU32, ReadLength16, FirstByte, SecondByte, Value;
    hide VersionTwo, Padded, Extended, CountBits, Marked, TypeBits, Words, FixedPart;
    FixedBack(p, vv);
    CsrcsBack(vv, p.csrcs);
  }

  /** Every layout of well-formed parts is accepted and taken apart into those parts. */
  lemma LayoutParsed(p: Parts, types: PayloadMap)
    requires WellFormed(p) && p.payloadType in types
    ensures FaultOf(Layout(p), types) == None
    ensures PartsOf(Layout(p), types) == p
  {
    LayoutAt(FixedPart(p), Words(p.csrcs), ExtensionPart(p.extension), p.payload, p.padding);
    assert LaidOut(p, Layout(p));
    hide *;
    MeasuredRight(p, Layout(p));
    MeasuredAccepted(p, Layout(p), types);
    MeasuredParts(p, Layout(p), types);
  }

  /** The packets accepted are exactly the layouts of well-formed parts with a known clock, and
      the parts are unique. */
  lemma AcceptedExact(vv: Bytes, types: PayloadMap)
    ensures FaultOf(vv, types) == None
            <==> exists p :: WellFormed(p) && p.payloadType in types && Layout(p) == vv
    ensures forall p, q :: WellFormed(p) && WellFormed(q) && Layout(p) == Layout(q) ==> p == q
  {
    hide FaultOf, WellFormed, Layout, PartsOf;
    if FaultOf(vv, types) == None {
      PartsTile(vv, types);
    }
    forall p | WellFormed(p) && p.payloadType in types && Layout(p) == vv ensures FaultOf(vv, types) == None {
      LayoutParsed(p, types);
    }
    forall p, q | WellFormed(p) && WellFormed(q) && Layout(p) == Layout(q) ensures p == q {
      var both := map[p.payloadType := 0][q.payloadType := 0];
      LayoutParsed(p, both);
      LayoutParsed(q, both);
    }
  }

  // ---- Padding ----

  /** Section 5.1 of RFC 3550 has a padded packet carry at least one byte of padding. An accepted
      padded packet does so exactly when its last byte is not zero. */
  lemma PaddingPresent(vv: Bytes, types: PayloadMap)
    requires FaultOf(vv, types) == None && Padded(vv[0])
    ensures PartsOf(vv, types).padding != [] <==> Value(vv[|vv| - 1]) != 0
    ensures |PartsOf(vv, types).padding| == Value(vv[|vv| - 1])
  {
    PartsRest(vv, types);
    hide FaultOf, PartsOf, ExtOffset, ExtSize, Value, Padded;
  }

  /** A padded packet of one payload byte, zero, and no padding. */
  const UNPADDED := Parts(false, 0, 0, 0, 0, [], 0, None, [0], true, [])

  lemma PaddedWithoutPadding()
    ensures
      var vv, types := Layout(UNPADDED), map[0 := 8000];
      && FaultOf(vv, types) == None && PartsOf(vv, types) == UNPADDED
      && UNPADDED.padded && UNPADDED.padding == []
  {
    ZeroValue();
    LayoutParsed(UNPADDED, map[0 := 8000]);
    hide Layout, FaultOf, PartsOf;
  }

  lemma ZeroValue()
    ensures Value(0) == 0
  {
  }
}
