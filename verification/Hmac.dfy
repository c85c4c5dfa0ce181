/** HMAC (RFC 2104) over an abstract hash. The hash is any function of the concatenated
    chunks; it may fail, as the library's hash providers may. */
module Hmac {
  import opened Bytes

  const BLOCK := 64
  const DIGEST_SIZE := 20

  type Digest = d: Bytes | |d| == DIGEST_SIZE witness seq(DIGEST_SIZE, i => 0)

  datatype HashError = HashFailed

  type HashFunc = Bytes -> Result<Digest, HashError>

  function Fill(v: byte, n: nat): (r: Bytes)
    ensures |r| == n && forall i :: 0 <= i < n ==> r[i] == v
  {
    seq(n, i => v)
  }

  type Pad = p: Bytes | |p| == BLOCK witness Fill(0, BLOCK)

  /** A block that starts with these bytes and holds zeros behind them. */
  ghost predicate Filled(start: Bytes, block: Pad) {
    start <= block && forall i :: |start| <= i < BLOCK ==> block[i] == 0
  }

  /** The key as a block: hashed when longer than a block, zero-filled otherwise. */
  function KeyBlock(key: Bytes, h: HashFunc): (r: Result<Pad, HashError>)
    ensures |key| <= BLOCK ==> r.Ok? && Filled(key, r.value)
    ensures |key| > BLOCK ==> (r.Ok? <==> h(key).Ok?) && (r.Ok? ==> Filled(h(key).value, r.value))
  {
    if |key| > BLOCK then
      match h(key)
      case Err(e) => Err(e)
      case Ok(d) => Ok(d + Fill(0, BLOCK - DIGEST_SIZE))
    else
      Ok(key + Fill(0, BLOCK - |key|))
  }

  /** The in-place loop of the pad key: every byte of the block combined with the pad byte. */
  method PadBlock(block: array<byte>, v: byte)
    requires block.Length == BLOCK
    modifies block
    ensures block[..] == XorBytes(old(block[..]), Fill(v, BLOCK))
  {
    for i := 0 to block.Length
      invariant forall j :: 0 <= j < i ==> block[j] == Xor8(old(block[j]), v)
      invariant forall j :: i <= j < block.Length ==> block[j] == old(block[j])
    {
      block[i] := Xor8(block[i], v);
    }
  }

  /** Short-term credentials: both pads of one key. */
  datatype Password = Password(ipad: Pad, opad: Pad)

  datatype IntegrityData = IntegrityData(password: Password, hash: HashFunc)

  function ShortTerm(key: Bytes, h: HashFunc): Result<Password, HashError> {
    match KeyBlock(key, h)
    case Err(e) => Err(e)
    case Ok(block) => Ok(Password(XorBytes(block, Fill(0x36, BLOCK)), XorBytes(block, Fill(0x5C, BLOCK))))
  }

  /** The keyed digest of a chunk list. */
  function Mac(chunks: seq<Bytes>, i: IntegrityData): Result<Digest, HashError> {
    match i.hash(Concat([i.password.ipad] + chunks))
    case Err(e) => Err(e)
    case Ok(inner) => i.hash(Concat([i.password.opad, inner]))
  }

  /** How the covered bytes are cut into chunks does not change the digest. */
  lemma MacOfConcat(a: seq<Bytes>, b: seq<Bytes>, i: IntegrityData)
    requires Concat(a) == Concat(b)
    ensures Mac(a, i) == Mac(b, i)
  {
    ConcatAppend([i.password.ipad], a);
    ConcatAppend([i.password.ipad], b);
  }

  /** RFC 2104: H(K xor opad, H(K xor ipad, text)) for every key and text, with K the key
      block. */
  lemma MacIsRfc2104(key: Bytes, h: HashFunc, text: Bytes)
    requires ShortTerm(key, h).Ok?
    ensures KeyBlock(key, h).Ok?
    ensures
      var k := KeyBlock(key, h).value;
      var inner := h(XorBytes(k, Fill(0x36, BLOCK)) + text);
      Mac([text], IntegrityData(ShortTerm(key, h).value, h))
      == if inner.Err? then Err(inner.error) else h(XorBytes(k, Fill(0x5C, BLOCK)) + inner.value)
  {
    var p := ShortTerm(key, h).value;
    assert Concat([p.ipad] + [text]) == p.ipad + text by {
      assert ([p.ipad] + [text])[1..] == [text];
      assert Concat([text]) == text + Concat([]);
    }
    forall inner: Digest ensures Concat([p.opad, inner]) == p.opad + inner {
      assert [p.opad, inner][1..] == [inner];
      assert Concat([inner]) == inner + Concat([]);
    }
  }
}
