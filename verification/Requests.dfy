/** The binding request a client sends. */
module Requests {
  import opened Bytes
  import opened Hmac
  import opened Header
  import opened Attributes
  import opened Messages
  import opened Received
  import opened Rto
  import opened Client

  datatype BindingRequest = BindingRequest(
    path: Path,
    attrs: seq<Attribute>,
    unknown: seq<UnknownAttribute>,
    auth: Maybe<Auth>)

  function Given(rq: BindingRequest): (ps: seq<Parsed>)
    ensures |ps| == |rq.attrs| + |rq.unknown|
  {
    seq(|rq.attrs|, i requires 0 <= i < |rq.attrs| => Known(rq.attrs[i]))
    + seq(|rq.unknown|, i requires 0 <= i < |rq.unknown| => Unknown(rq.unknown[i]))
  }

  /** What the caller gave, then the user name of the credentials, then a request for a
      fingerprint; of two attributes of a type the first stays. */
  function RequestSet(useFingerprint: bool, rq: BindingRequest): (s: AttributeSet)
    ensures WellTyped(s)
  {
    var s := EmplaceAll(EMPTY, Given(rq));
    var s' := if rq.auth.Some? then Emplace(s, Username(rq.auth.value.username)) else s;
    if useFingerprint then Emplace(s', Fingerprint(0)) else s'
  }

  lemma {:induction false} GivenStay(acc: AttributeSet, ps: seq<Parsed>)
    ensures
      var s := EmplaceAll(acc, ps);
      && (forall t :: t in acc.known ==> t in s.known && s.known[t] == acc.known[t])
      && (forall i :: 0 <= i < |ps| && ps[i].Known? ==> TypeOf(ps[i].attr) in s.known)
    decreases |ps|
  {
    hide TypeOf;
    if ps != [] {
      GivenStay(EmplaceParsed(acc, ps[0]), ps[1..]);
    }
  }

  lemma {:induction false} UnknownInOrder(acc: AttributeSet, rq: BindingRequest, k: nat)
    requires k <= |rq.attrs| + |rq.unknown|
    requires acc.unknown == if k <= |rq.attrs| then [] else rq.unknown[..k - |rq.attrs|]
    ensures EmplaceAll(acc, Given(rq)[k..]).unknown == rq.unknown
    decreases |rq.attrs| + |rq.unknown| - k
  {
    hide TypeOf;
    var ps := Given(rq);
    if k < |ps| {
      assert ps[k..][0] == ps[k] && ps[k..][1..] == ps[k + 1..];
      UnknownInOrder(EmplaceParsed(acc, ps[k]), rq, k + 1);
    }
  }

  /** Among the caller's attributes of a type this is the first. */
  ghost predicate FirstOfType(rq: BindingRequest, i: nat) {
    i < |rq.attrs| && forall j :: 0 <= j < i ==> TypeOf(rq.attrs[j]) != TypeOf(rq.attrs[i])
  }

  ghost predicate Gives(rq: BindingRequest, t: AttrType) {
    exists i :: 0 <= i < |rq.attrs| && TypeOf(rq.attrs[i]) == t
  }

  /** The request carries exactly: of each type the caller gave the first attribute, the user name
      of the credentials unless the caller gave one, and a wish for a fingerprint if configured;
      and the caller's unknown attributes in order. */
  lemma RequestHolds(useFingerprint: bool, rq: BindingRequest)
    ensures
      var s := RequestSet(useFingerprint, rq);
      && s.unknown == rq.unknown
      && (forall t :: t in s.known <==>
            Gives(rq, t) || (t == USERNAME && rq.auth.Some?) || (t == FINGERPRINT && useFingerprint))
      && (forall i: nat :: FirstOfType(rq, i) ==>
            TypeOf(rq.attrs[i]) in s.known && s.known[TypeOf(rq.attrs[i])] == rq.attrs[i])
      && (rq.auth.Some? && !Gives(rq, USERNAME) ==> s.known[USERNAME] == Username(rq.auth.value.username))
      && (useFingerprint && !Gives(rq, FINGERPRINT) ==> s.known[FINGERPRINT] == Fingerprint(0))
  {
    var ps := Given(rq);
    var s := EmplaceAll(EMPTY, ps);
    UnknownInOrder(EMPTY, rq, 0);
    assert ps[0..] == ps;
    GivenTypes(rq);
    forall i: nat | FirstOfType(rq, i)
      ensures TypeOf(rq.attrs[i]) in s.known && s.known[TypeOf(rq.attrs[i])] == rq.attrs[i] {
      assert ps[i] == Known(rq.attrs[i]);
      FirstStays(EMPTY, ps, i);
      assert Gives(rq, TypeOf(rq.attrs[i]));
    }
    hide EmplaceAll, Given, Gives, FirstOfType;
  }

  /** The caller's attributes alone make up the types given. */
  lemma GivenTypes(rq: BindingRequest)
    ensures forall t :: t in EmplaceAll(EMPTY, Given(rq)).known <==> Gives(rq, t)
  {
    var ps := Given(rq);
    var s := EmplaceAll(EMPTY, ps);
    GivenStay(EMPTY, ps);
    EmplacedFrom(EMPTY, ps);
    hide EmplaceAll, TypeOf;
    forall t | Gives(rq, t) ensures t in s.known {
      var i :| 0 <= i < |rq.attrs| && TypeOf(rq.attrs[i]) == t;
      assert ps[i] == Known(rq.attrs[i]);
    }
    forall t | t in s.known ensures Gives(rq, t) {
      var i :| 0 <= i < |ps| && ps[i].Known? && TypeOf(ps[i].attr) == t;
      assert i < |rq.attrs|;
    }
  }

  function RequestHeader(tid: TransactionId): Header {
    Header(Request, BINDING, tid)
  }

  /** What a request is signed with. */
  function Signing(auth: Maybe<Auth>): Maybe<IntegrityData> {
    if auth.Some? then Some(auth.value.integrity) else None
  }
}
