/** XOR-MAPPED-ADDRESS encoding (section 14.2 of RFC 8489). */
module Address {
  import opened Bytes

  const MAGIC_COOKIE: bv32 := 0x2112A442

  type Bytes4 = b: Bytes | |b| == 4 witness [0, 0, 0, 0]
  type Bytes16 = b: Bytes | |b| == 16 witness seq(16, i => 0)

  datatype IpAddress = V4(v4: Bytes4) | V6(v6: Bytes16)
  datatype Endpoint = Endpoint(address: IpAddress, port: bv16)

  /** An address as it stands on the wire, each byte combined with the mask. */
  datatype XoredAddress = XoredV4(x4: Bytes4) | XoredV6(x6: Bytes16)

  datatype Family = IPv4 | IPv6

  const FAMILY_IPV4: byte := 0x01
  const FAMILY_IPV6: byte := 0x02

  function FamilyByte(f: Family): byte {
    if f.IPv4? then FAMILY_IPV4 else FAMILY_IPV6
  }

  function FamilyFromByte(v: byte): (r: Maybe<Family>)
    ensures forall f :: r == Some(f) <==> FamilyByte(f) == v
  {
    if v == FAMILY_IPV4 then Some(IPv4)
    else if v == FAMILY_IPV6 then Some(IPv6)
    else None
  }

  /** The mask: the magic cookie, then at most twelve bytes of transaction id, then zeros. */
  function Mask(tid: Bytes): (m: Bytes16)
    ensures m[..4] == U32(MAGIC_COOKIE)
    ensures forall j :: 4 <= j < 16 ==> m[j] == if j - 4 < |tid| then tid[j - 4] else 0
  {
    U32(MAGIC_COOKIE) + seq(12, i requires 0 <= i < 12 => if i < |tid| then tid[i] else 0)
  }

  function FromAddress(a: IpAddress, tid: Bytes): XoredAddress {
    match a
    case V4(b) => XoredV4(XorBytes(b, U32(MAGIC_COOKIE)))
    case V6(b) => XoredV6(XorBytes(b, Mask(tid)))
  }

  function ToAddress(x: XoredAddress, tid: Bytes): IpAddress {
    match x
    case XoredV4(b) => V4(XorBytes(b, U32(MAGIC_COOKIE)))
    case XoredV6(b) => V6(XorBytes(b, Mask(tid)))
  }

  /** Both directions of the encoding undo each other, for every address and transaction id. */
  lemma XoredRoundTrip(a: IpAddress, x: XoredAddress, tid: Bytes)
    ensures ToAddress(FromAddress(a, tid), tid) == a
    ensures FromAddress(ToAddress(x, tid), tid) == x
  {
    match a {
      case V4(b) => XorTwice(b, U32(MAGIC_COOKIE));
      case V6(b) => XorTwice(b, Mask(tid));
    }
    match x {
      case XoredV4(b) => XorTwice(b, U32(MAGIC_COOKIE));
      case XoredV6(b) => XorTwice(b, Mask(tid));
    }
  }

  /** The in-place form: the first word is combined with the cookie, the other bytes with the
      transaction id for as long as both last. */
  method XorHolder(holder: array<byte>, tid: Bytes)
    requires holder.Length == 16
    modifies holder
    ensures holder[..] == XorBytes(old(holder[..]), Mask(tid))
  {
    hide Xor8, U32;
    var cookie := U32(MAGIC_COOKIE);
    ghost var m := Mask(tid);
    holder[0], holder[1], holder[2], holder[3] :=
      Xor8(holder[0], cookie[0]), Xor8(holder[1], cookie[1]), Xor8(holder[2], cookie[2]), Xor8(holder[3], cookie[3]);
    assert forall j :: 0 <= j < 4 ==> m[j] == m[..4][j];
    var i := 0;
    while i < |tid| && i < holder.Length - 4
      invariant 0 <= i <= |tid| && i <= 12
      invariant forall j :: 0 <= j < i + 4 ==> holder[j] == Xor8(old(holder[j]), m[j])
      invariant forall j :: i + 4 <= j < 16 ==> holder[j] == old(holder[j])
    {
      holder[i + 4] := Xor8(holder[i + 4], tid[i]);
      i := i + 1;
    }
    forall j | i + 4 <= j < 16 ensures Xor8(old(holder[j]), m[j]) == old(holder[j]) {
      XorZero(old(holder[j]));
    }
  }

  lemma XorZero(b: byte)
    ensures Xor8(b, 0) == b
  {
  }

  function FamilyOf(x: XoredAddress): Family {
    if x.XoredV4? then IPv4 else IPv6
  }

  function View(x: XoredAddress): (r: Bytes)
    ensures |r| == if x.XoredV4? then 4 else 16
  {
    match x
    case XoredV4(b) => b
    case XoredV6(b) => b
  }

  /** Reading a view back: the size must be that of the family. */
  function FromView(f: Family, v: Bytes): (r: Maybe<XoredAddress>)
    ensures r.Some? <==> |v| == if f.IPv4? then 4 else 16
    ensures r.Some? ==> FamilyOf(r.value) == f && View(r.value) == v
  {
    match f
    case IPv4 => if |v| == 4 then Some(XoredV4(v)) else None
    case IPv6 => if |v| == 16 then Some(XoredV6(v)) else None
  }
}
