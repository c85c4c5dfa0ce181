/** Attribute sets and messages as values. */
module Messages {
  import opened Bytes
  import opened Header
  import opened Attributes

  /** Known attributes by type, and unknown ones in order of arrival. */
  datatype AttributeSet = AttributeSet(known: map<AttrType, Attribute>, unknown: seq<UnknownAttribute>)

  const EMPTY := AttributeSet(map[], [])

  /** A message; covered is how many leading bytes MESSAGE-INTEGRITY protects, if present. */
  datatype Message = Message(header: Header, attrs: AttributeSet, isRfc3489: bool, covered: Maybe<nat>)

  /** Attributes are filed under their own type: every way of filling a set keeps this. */
  predicate WellTyped(s: AttributeSet) {
    forall t :: t in s.known ==> TypeOf(s.known[t]) == t
  }

  /** The first attribute of a type wins. */
  function Emplace(s: AttributeSet, a: Attribute): (r: AttributeSet)
    ensures WellTyped(s) ==> WellTyped(r)
    ensures r.known.Keys == s.known.Keys + {TypeOf(a)} && r.unknown == s.unknown
    ensures forall t :: t in s.known ==> r.known[t] == s.known[t]
    ensures TypeOf(a) !in s.known ==> r.known[TypeOf(a)] == a
  {
    if TypeOf(a) in s.known then s else s.(known := s.known[TypeOf(a) := a])
  }

  function EmplaceParsed(s: AttributeSet, p: Parsed): (r: AttributeSet)
    ensures WellTyped(s) ==> WellTyped(r)
  {
    match p
    case Known(a) => Emplace(s, a)
    case Unknown(u) => s.(unknown := s.unknown + [u])
  }

  function EmplaceAll(s: AttributeSet, ps: seq<Parsed>): (r: AttributeSet)
    ensures WellTyped(s) ==> WellTyped(r)
    decreases |ps|
  {
    if ps == [] then s else EmplaceAll(EmplaceParsed(s, ps[0]), ps[1..])
  }

  /** The types among these that require comprehension, in order and as often as they occur. */
  function RequiredTypes(us: seq<UnknownAttribute>): seq<AttrType> {
    if us == [] then []
    else (if ComprehensionRequired(us[0].type_) then [us[0].type_] else []) + RequiredTypes(us[1..])
  }

  /** Order and repetition are kept: each attribute contributes its own type, or nothing. */
  lemma {:induction false} RequiredAppend(a: seq<UnknownAttribute>, b: seq<UnknownAttribute>)
    ensures RequiredTypes(a + b) == RequiredTypes(a) + RequiredTypes(b)
  {
    if a == [] {
      assert a + b == b;
    } else {
      RequiredAppend(a[1..], b);
      assert (a + b)[1..] == a[1..] + b;
    }
  }

  lemma {:induction false} RequiredMembers(us: seq<UnknownAttribute>)
    ensures |RequiredTypes(us)| <= |us|
    ensures forall t :: t in RequiredTypes(us) <==>
      ComprehensionRequired(t) && exists i :: 0 <= i < |us| && us[i].type_ == t
  {
    if us != [] {
      RequiredMembers(us[1..]);
      assert us == [us[0]] + us[1..];
    }
  }

  /** Types of the unknown attributes a receiver must understand, in order. */
  function UnknownRequired(us: seq<UnknownAttribute>): (types: seq<AttrType>)
    ensures |types| <= |us|
    ensures types == [] <==> forall i :: 0 <= i < |us| ==> !ComprehensionRequired(us[i].type_)
    ensures forall t :: t in types <==> ComprehensionRequired(t) && exists i :: 0 <= i < |us| && us[i].type_ == t
  {
    RequiredMembers(us);
    var types := RequiredTypes(us);
    assert types != [] ==> types[0] in types;
    types
  }

  /** The loop over the unknown list. */
  method CollectRequired(us: seq<UnknownAttribute>) returns (types: seq<AttrType>)
    ensures types == UnknownRequired(us)
  {
    types := [];
    for k := 0 to |us|
      invariant types == RequiredTypes(us[..k])
    {
      assert us[..k + 1] == us[..k] + [us[k]] && [us[k]][1..] == [];
      RequiredAppend(us[..k], [us[k]]);
      if ComprehensionRequired(us[k].type_) {
        types := types + [us[k].type_];
      }
    }
    assert us[..|us|] == us;
  }

  /** The message carries no attribute its receiver would have to know and does not. */
  predicate Understood(m: Message) {
    forall i :: 0 <= i < |m.attrs.unknown| ==> !ComprehensionRequired(m.attrs.unknown[i].type_)
  }

  /** TRY-ALTERNATE error responses. */
  predicate IsAlternateServer(m: Message) {
    m.header.cls == ErrorResponse && ERROR_CODE in m.attrs.known
    && m.attrs.known[ERROR_CODE].ErrorCode? && m.attrs.known[ERROR_CODE].code == 300
  }

  /** No unknown attribute is of a known type. */
  ghost predicate Unregistered(us: seq<UnknownAttribute>) {
    forall k :: 0 <= k < |us| ==> !Registered(us[k].type_)
  }

  /** Every order in which a hash map may hand out its keys. */
  ghost predicate Enumerates(order: seq<AttrType>, s: AttributeSet) {
    && (forall t :: t in order <==> t in s.known)
    && forall i, j :: 0 <= i < j < |order| ==> order[i] != order[j]
  }
}
