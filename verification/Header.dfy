/** STUN message header (section 5 of RFC 8489): type bits, length, cookie, transaction id. */
module Header {
  import opened Bytes
  import opened Address

  const HEADER_SIZE := 20

  datatype Class = Request | Indication | SuccessResponse | ErrorResponse

  /** A method is fourteen bits: nothing larger comes out of a 16-bit message type. */
  type Method = m: bv16 | m < 0x4000 witness 0

  const BINDING: Method := 0x001

  /** Transaction ids are twelve bytes, or sixteen from an RFC 3489 client. */
  type TransactionId = t: Bytes | |t| == 12 || |t| == 16 witness seq(12, i => 0)

  datatype Header = Header(cls: Class, method_: Method, tid: TransactionId)

  function ClassBits(c: Class): bv16 {
    match c
    case Request => 0
    case Indication => 1 << 4
    case SuccessResponse => 1 << 8
    case ErrorResponse => (1 << 4) | (1 << 8)
  }

  function ClassOf(v: bv16): Class {
    match ((v >> 4) & 1, (v >> 8) & 1)
    case (0, 0) => Request
    case (1, 0) => Indication
    case (0, 1) => SuccessResponse
    case _ => ErrorResponse
  }

  function MethodBits(m: Method): bv16 {
    (m & 0xF) | (((m >> 4) & 0x7) << 5) | ((m >> 7) << 9)
  }

  function MethodOf(v: bv16): Method {
    (v & 0xF) | (((v >> 5) & 0x7) << 4) | ((v >> 9) << 7)
  }

  function MessageType(c: Class, m: Method): bv16 {
    ClassBits(c) | MethodBits(m)
  }

  /** The class bits lie between the method bits. */
  lemma BitsApart(m: Method)
    ensures MethodBits(m) & 0x0110 == 0
    ensures MethodOf(MethodBits(m)) == m
  {
  }

  lemma ClassBack(c: Class, x: bv16)
    requires x & 0x0110 == 0
    ensures ClassOf(ClassBits(c) | x) == c && MethodOf(ClassBits(c) | x) == MethodOf(x)
  {
    match c {
      case Request =>
      case Indication =>
      case SuccessResponse =>
      case ErrorResponse =>
    }
  }

  lemma TypeBack(v: bv16)
    ensures ClassBits(ClassOf(v)) == v & 0x0110
    ensures MethodBits(MethodOf(v)) == v & 0xFEEF
  {
  }

  lemma Together(v: bv16)
    ensures (v & 0x0110) | (v & 0xFEEF) == v
  {
  }

  /** Interleaving is a bijection between (class, method) and the 16-bit message types. */
  lemma MessageTypeBijective(c: Class, m: Method, v: bv16)
    ensures ClassOf(MessageType(c, m)) == c && MethodOf(MessageType(c, m)) == m
    ensures MessageType(ClassOf(v), MethodOf(v)) == v
  {
    hide ClassOf, ClassBits, MethodOf, MethodBits;
    BitsApart(m);
    ClassBack(c, MethodBits(m));
    TypeBack(v);
    Together(v);
  }

  /** The class in bits 4 and 8 of a message type (section 5 of RFC 8489). */
  ghost predicate ClassAt(v: bv16, c: Class) {
    && ((v >> 4) & 1 == 1 <==> c == Indication || c == ErrorResponse)
    && ((v >> 8) & 1 == 1 <==> c == SuccessResponse || c == ErrorResponse)
  }

  /** The method in the other bits, in order. */
  ghost predicate MethodAt(v: bv16, m: Method) {
    v & 0xF == m & 0xF && (v >> 5) & 0x7 == (m >> 4) & 0x7 && v >> 9 == m >> 7
  }

  lemma MethodLayout(m: Method)
    ensures MethodBits(m) & 0x0110 == 0 && MethodAt(MethodBits(m), m)
  {
  }

  ghost predicate SameMethod(v: bv16, x: bv16) {
    v & 0xF == x & 0xF && (v >> 5) & 0x7 == (x >> 5) & 0x7 && v >> 9 == x >> 9
  }

  lemma ClassLayout(c: Class, x: bv16)
    requires x & 0x0110 == 0
    ensures ClassAt(ClassBits(c) | x, c) && SameMethod(ClassBits(c) | x, x)
  {
    match c {
      case Request =>
      case Indication =>
      case SuccessResponse =>
      case ErrorResponse =>
    }
  }

  lemma MethodMoves(v: bv16, x: bv16, m: Method)
    requires SameMethod(v, x) && MethodAt(x, m)
    ensures MethodAt(v, m)
  {
  }

  /** The message type is laid out as the standard has it, for every class and method. */
  lemma TypeLayout(c: Class, m: Method)
    ensures ClassAt(MessageType(c, m), c) && MethodAt(MessageType(c, m), m)
  {
    hide ClassBits, MethodBits, ClassAt, MethodAt, SameMethod;
    MethodLayout(m);
    ClassLayout(c, MethodBits(m));
    MethodMoves(MessageType(c, m), MethodBits(m), m);
  }

  /** The 20 header bytes for a body of len bytes; a 16-byte id takes the cookie's place. */
  function HeaderBytes(h: Header, len: nat): (r: Bytes)
    ensures |r| == HEADER_SIZE
    ensures r[..2] == U16(MessageType(h.cls, h.method_)) && r[2..4] == Length16(len)
    ensures |h.tid| == 12 ==> r[4..8] == U32(MAGIC_COOKIE) && r[8..] == h.tid
    ensures |h.tid| == 16 ==> r[4..] == h.tid
  {
    var start := U16(MessageType(h.cls, h.method_)) + Length16(len);
    if |h.tid| == 12 then start + U32(MAGIC_COOKIE) + h.tid else start + h.tid
  }
}
