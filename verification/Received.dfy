/** What holds of every message the parser accepts, whoever wrote it. */
module Received {
  import opened Bytes
  import opened Hmac
  import opened Crc32
  import opened Header
  import opened Attributes
  import opened Messages
  import opened Parser

  /** A kept MESSAGE-INTEGRITY left a mark, and the mark is inside the buffer. */
  ghost predicate Marked(vv: Bytes, st: Scan) {
    && ((exists k :: 0 <= k < |st.raws| && st.raws[k].t == MESSAGE_INTEGRITY) ==> st.integrity.Some?)
    && (st.integrity.Some? ==> HEADER_SIZE <= st.integrity.value <= |vv|)
  }

  function Left(vv: Bytes, off: nat): nat {
    if off < |vv| then |vv| - off else 0
  }

  lemma StepMarked(vv: Bytes, st: Scan, raw: RawAttr, off: nat)
    requires Marked(vv, st) && HEADER_SIZE <= off <= |vv|
    ensures Marked(vv, ScanStep(st, raw, off)) && |ScanStep(st, raw, off).raws| <= |st.raws| + 1
  {
    var st' := ScanStep(st, raw, off);
    forall k | 0 <= k < |st'.raws| && st'.raws[k].t == MESSAGE_INTEGRITY ensures st'.integrity.Some? {
      if k < |st.raws| {
        assert st.raws[k] == st'.raws[k];
      }
    }
  }

  lemma {:induction false} ScanMarked(vv: Bytes, off: nat, st: Scan)
    requires Marked(vv, st) && HEADER_SIZE <= off
    ensures
      var r := ScanFrom(vv, off, st);
      r.Ok? ==> Marked(vv, r.value) && 4 * |r.value.raws| <= 4 * |st.raws| + Left(vv, off)
    decreases |vv| - off
  {
    hide Marked, ScanStep, AlignedLength;
    if off < |vv| && ParseRaw(vv, off).Some? {
      var raw := ParseRaw(vv, off).value;
      StepMarked(vv, st, raw, off);
      hide ParseRaw;
      ScanMarked(vv, off + AlignedLength(|raw.v|), ScanStep(st, raw, off));
    }
  }

  lemma ParsedType(raw: RawAttr)
    ensures
      match ParseAttribute(raw.v, raw.t)
      case Err(_) => true
      case Ok(Known(a)) => TypeOf(a) == raw.t
      case Ok(Unknown(u)) => u.type_ == raw.t && !Registered(raw.t)
  {
  }

  ghost predicate Typed(p: Parsed, raw: RawAttr) {
    match p
    case Known(a) => TypeOf(a) == raw.t
    case Unknown(u) => u.type_ == raw.t && !Registered(raw.t)
  }

  lemma {:induction false} ParsedTypes(raws: seq<RawAttr>)
    ensures
      var r := ParseAll(raws);
      r.Ok? ==> |r.value| == |raws| && forall k :: 0 <= k < |raws| ==> Typed(r.value[k], raws[k])
  {
    hide ParseAttribute;
    if raws != [] {
      ParsedType(raws[0]);
      ParsedTypes(raws[1..]);
    }
  }

  ghost predicate Filed(ps: seq<Parsed>, t: AttrType) {
    exists k :: 0 <= k < |ps| && ps[k].Known? && TypeOf(ps[k].attr) == t
  }

  lemma {:induction false} EmplacedFrom(acc: AttributeSet, ps: seq<Parsed>)
    ensures
      var s := EmplaceAll(acc, ps);
      && (forall t :: t in s.known ==> t in acc.known || Filed(ps, t))
      && |s.unknown| <= |acc.unknown| + |ps|
    decreases |ps|
  {
    hide TypeOf;
    if ps != [] {
      EmplacedFrom(EmplaceParsed(acc, ps[0]), ps[1..]);
      forall t | t in EmplaceAll(acc, ps).known && t !in acc.known ensures Filed(ps, t) {
        if Filed(ps[1..], t) {
          var k :| 0 <= k < |ps[1..]| && ps[1..][k].Known? && TypeOf(ps[1..][k].attr) == t;
          assert ps[k + 1] == ps[1..][k];
        } else {
          assert ps[0].Known? && TypeOf(ps[0].attr) == t;
        }
      }
    }
  }

  /** The first attribute of a type stays. */
  lemma {:induction false} FirstStays(acc: AttributeSet, ps: seq<Parsed>, k: nat)
    requires k < |ps| && ps[k].Known? && TypeOf(ps[k].attr) !in acc.known
    requires forall i :: 0 <= i < k && ps[i].Known? ==> TypeOf(ps[i].attr) != TypeOf(ps[k].attr)
    ensures
      var s, t := EmplaceAll(acc, ps), TypeOf(ps[k].attr);
      t in s.known && s.known[t] == ps[k].attr
    decreases |ps|
  {
    hide TypeOf;
    var acc' := EmplaceParsed(acc, ps[0]);
    if k > 0 {
      FirstStays(acc', ps[1..], k - 1);
    } else {
      FiledStays(acc', ps[1..], TypeOf(ps[0].attr));
    }
  }

  lemma {:induction false} FiledStays(acc: AttributeSet, ps: seq<Parsed>, t: AttrType)
    requires t in acc.known
    ensures t in EmplaceAll(acc, ps).known && EmplaceAll(acc, ps).known[t] == acc.known[t]
    decreases |ps|
  {
    hide TypeOf;
    if ps != [] {
      FiledStays(EmplaceParsed(acc, ps[0]), ps[1..], t);
    }
  }

  /** In an accepted message every attribute is filed under its own type, a digest comes with
      the extent it covers, and the unknown attributes are no more than the body has words. */
  lemma AcceptedShape(vv: Bytes)
    requires ParseMessage(vv).Ok?
    ensures
      var m := ParseMessage(vv).value;
      && WellTyped(m.attrs)
      && (MESSAGE_INTEGRITY in m.attrs.known ==> m.covered.Some? && HEADER_SIZE <= m.covered.value <= |vv|)
      && 4 * |m.attrs.unknown| <= |vv| - HEADER_SIZE < 0x10000
      && m.isRfc3489 == (|m.header.tid| == 16)
  {
    hide ScanFrom, EmplaceAll, ParseAll, CarriedCrc, Crc, TypeOf, WellTyped, Marked;
    HeaderFits(vv);
    var scan := ScanFrom(vv, HEADER_SIZE, START).value;
    StartMarked(vv);
    ScanMarked(vv, HEADER_SIZE, START);
    ParsedTypes(scan.raws);
    var ps := ParseAll(scan.raws).value;
    EmplacedFrom(EMPTY, ps);
    MarkOf(vv, scan, ps);
    EmptyTyped();
  }

  lemma {:induction false} UnknownFrom(acc: AttributeSet, ps: seq<Parsed>)
    requires Unregistered(acc.unknown)
    requires forall k :: 0 <= k < |ps| && ps[k].Unknown? ==> !Registered(ps[k].unknown.type_)
    ensures Unregistered(EmplaceAll(acc, ps).unknown)
    decreases |ps|
  {
    hide TypeOf, Registered;
    if ps != [] {
      UnknownFrom(EmplaceParsed(acc, ps[0]), ps[1..]);
    }
  }

  /** What is accepted as unknown is of no known type. */
  lemma UnknownAreUnregistered(vv: Bytes)
    requires ParseMessage(vv).Ok?
    ensures Unregistered(ParseMessage(vv).value.attrs.unknown)
  {
    hide ScanFrom, EmplaceAll, ParseAll, CarriedCrc, Crc, TypeOf, ParseHeader, Registered;
    var scan := ScanFrom(vv, HEADER_SIZE, START).value;
    ParsedTypes(scan.raws);
    var ps := ParseAll(scan.raws).value;
    forall k | 0 <= k < |ps| && ps[k].Unknown? ensures !Registered(ps[k].unknown.type_) {
      assert Typed(ps[k], scan.raws[k]);
    }
    UnknownFrom(EMPTY, ps);
  }

  lemma EmptyTyped()
    ensures WellTyped(EMPTY)
  {
  }

  lemma StartMarked(vv: Bytes)
    ensures Marked(vv, START)
  {
  }

  lemma MarkOf(vv: Bytes, scan: Scan, ps: seq<Parsed>)
    requires Marked(vv, scan) && |ps| == |scan.raws|
    requires forall k :: 0 <= k < |ps| ==> Typed(ps[k], scan.raws[k])
    ensures Filed(ps, MESSAGE_INTEGRITY) ==> scan.integrity.Some?
    ensures scan.integrity.Some? ==> HEADER_SIZE <= scan.integrity.value <= |vv|
  {
  }

  lemma HeaderFits(vv: Bytes)
    requires ParseHeader(vv).Ok?
    ensures HEADER_SIZE <= |vv| < HEADER_SIZE + 0x10000
    ensures ParseHeader(vv).value.1 == (|ParseHeader(vv).value.0.tid| == 16)
  {
    hide ReadU16, ReadU32, ClassOf, MethodOf;
  }

  // ---- Whose message it is ----

  /** The message carries a digest whose extent reaches past the length field and ends inside the
      buffer: there is something to compare. */
  ghost predicate Checkable(m: Message, view: Bytes) {
    && m.covered.Some? && 4 <= m.covered.value <= |view|
    && MESSAGE_INTEGRITY in m.attrs.known && m.attrs.known[MESSAGE_INTEGRITY].MessageIntegrity?
  }

  /** The digest this key produces over the covered bytes, or why there is none. */
  ghost function DigestOver(m: Message, view: Bytes, i: IntegrityData): Result<Digest, HashError>
    requires Checkable(m, view)
  {
    Mac(CheckedChunks(view, m.covered.value), i)
  }

  /** The message carries the digest this key produces over the covered bytes. */
  ghost predicate SignedBy(m: Message, view: Bytes, i: IntegrityData) {
    Checkable(m, view) && DigestOver(m, view, i) == Ok(m.attrs.known[MESSAGE_INTEGRITY].digest)
  }

  /** What the check says, for every message, buffer and key. */
  lemma ValidExact(m: Message, view: Bytes, i: IntegrityData)
    ensures IsValid(m, view, i) == Ok(Some(true)) <==> SignedBy(m, view, i)
    ensures IsValid(m, view, i) == Ok(None) <==> !Checkable(m, view)
    ensures IsValid(m, view, i) == Ok(Some(false))
            <==> Checkable(m, view) && DigestOver(m, view, i).Ok? && !SignedBy(m, view, i)
    ensures forall e :: IsValid(m, view, i) == Err(e) <==> Checkable(m, view) && DigestOver(m, view, i) == Err(e)
  {
    hide Mac, CheckedChunks;
  }

  /** Of an accepted message the digest can be checked exactly when it has one. */
  lemma AcceptedCheckable(vv: Bytes)
    requires ParseMessage(vv).Ok?
    ensures Checkable(ParseMessage(vv).value, vv) <==> MESSAGE_INTEGRITY in ParseMessage(vv).value.attrs.known
  {
    AcceptedShape(vv);
    hide ParseMessage;
  }
}
