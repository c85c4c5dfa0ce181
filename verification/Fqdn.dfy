/** Fully qualified domain names (section 2.3.1 of RFC 1035, relaxed: labels may start with a
    digit, underscores count as letters, and a final dot is allowed). */
module Fqdn {
  import opened Bytes
  import StringView

  predicate LetterOrDigit(c: char) {
    'A' <= c <= 'Z' || 'a' <= c <= 'z' || c == '_' || '0' <= c <= '9'
  }

  predicate LabelChar(c: char) {
    LetterOrDigit(c) || c == '-'
  }

  // ---- The grammar ----

  ghost predicate IsLabel(s: string) {
    && s != [] && LetterOrDigit(s[0]) && LetterOrDigit(s[|s| - 1])
    && forall i :: 0 <= i < |s| ==> LabelChar(s[i])
  }

  function Dotted(labels: seq<string>): string {
    StringView.Join(labels, ".")
  }

  ghost predicate AllLabels(labels: seq<string>) {
    forall i :: 0 <= i < |labels| ==> IsLabel(labels[i])
  }

  /** One or more labels joined by dots, with an optional final dot. */
  ghost predicate IsName(s: string) {
    exists labels :: NameOf(s, labels)
  }

  ghost predicate NameOf(s: string, labels: seq<string>) {
    labels != [] && AllLabels(labels) && (s == Dotted(labels) || s == Dotted(labels) + ".")
  }

  // ---- Labels ----

  datatype FqdnError = ExpectLetter | NotFullyParsed

  /** The longest label at the start. */
  ghost predicate LongestLabel(s: string, n: nat) {
    n <= |s| && IsLabel(s[..n]) && forall m :: n < m <= |s| ==> !IsLabel(s[..m])
  }

  /** The scan for a label finds the longest one, and fails exactly when there is none. */
  method ParseLabel(s: string) returns (r: Result<nat, FqdnError>)
    ensures r.Err? <==> forall n :: 0 <= n <= |s| ==> !IsLabel(s[..n])
    ensures r.Ok? ==> LongestLabel(s, r.value)
    ensures r.Err? ==> r == Err(ExpectLetter)
  {
    if s == [] || !LetterOrDigit(s[0]) {
      return Err(ExpectLetter);
    }
    var last, pos := 0, 1;
    while pos < |s|
      invariant last < pos <= |s| && LetterOrDigit(s[last])
      invariant forall i :: 0 <= i < pos ==> LabelChar(s[i])
      invariant forall i :: last < i < pos ==> !LetterOrDigit(s[i])
    {
      if LetterOrDigit(s[pos]) {
        last := pos;
      } else if s[pos] != '-' {
        break;
      }
      pos := pos + 1;
    }
    assert IsLabel(s[..last + 1]);
    forall m | last + 1 < m <= |s| ensures !IsLabel(s[..m]) {
      assert s[..m][m - 1] == s[m - 1];
      if m > pos {
        assert s[..m][pos] == s[pos];
      }
    }
    r := Ok(last + 1);
  }

  // ---- Names ----

  lemma DottedCons(part: string, labels: seq<string>)
    ensures Dotted([part] + labels) == if labels == [] then part else part + "." + Dotted(labels)
  {
    assert ([part] + labels)[1..] == labels;
  }

  /** A name is a label, alone, or with a dot and perhaps a name behind it. */
  ghost predicate NameParts(s: string, n: nat) {
    0 < n <= |s| && IsLabel(s[..n]) && (n < |s| ==> s[n] == '.' && (n + 1 < |s| ==> IsName(s[n + 1..])))
  }

  lemma AfterDot(first: string, tail: string)
    ensures
      var s := first + "." + tail;
      s[|first|] == '.' && s[..|first|] == first && s[|first| + 1..] == tail
  {
  }

  lemma NameApart(s: string) returns (n: nat)
    requires IsName(s)
    ensures NameParts(s, n)
  {
    var labels :| NameOf(s, labels);
    var first, rest := labels[0], labels[1..];
    n := |first|;
    assert labels == [first] + rest;
    DottedCons(first, rest);
    assert IsLabel(first);
    if rest != [] {
      assert AllLabels(rest);
      var tail := if s == Dotted(labels) then Dotted(rest) else Dotted(rest) + ".";
      assert NameOf(tail, rest);
      assert s == first + "." + tail;
      AfterDot(first, tail);
    } else {
      AfterDot(first, []);
      assert s == first || s == first + "." + [];
    }
    hide IsLabel, Dotted, NameOf;
  }

  lemma NameTogether(s: string, n: nat)
    requires NameParts(s, n)
    ensures IsName(s)
  {
    var first := s[..n];
    DottedCons(first, []);
    if n + 1 >= |s| {
      assert [first] + [] == [first];
      assert s == first || s == first + ".";
      assert NameOf(s, [first]);
    } else {
      var tail := s[n + 1..];
      var rest :| NameOf(tail, rest);
      DottedCons(first, rest);
      assert s == first + "." + tail;
      assert s == Dotted([first] + rest) || s == Dotted([first] + rest) + "." by {
        assert first + "." + (Dotted(rest) + ".") == first + "." + Dotted(rest) + ".";
      }
      assert AllLabels([first] + rest);
      assert NameOf(s, [first] + rest);
    }
  }

  lemma NoDots(s: string, n: nat)
    requires n <= |s| && IsLabel(s[..n])
    ensures forall i :: 0 <= i < n ==> s[i] != '.'
  {
    forall i | 0 <= i < n ensures s[i] != '.' {
      assert s[i] == s[..n][i];
    }
  }

  /** Beyond the longest label a name can only go on with a dot. */
  lemma NameBeyond(s: string, n: nat, m: nat)
    requires LongestLabel(s, n) && n < m <= |s|
    ensures IsName(s[..m]) <==> s[n] == '.' && (n + 1 < m ==> IsName(s[n + 1..m]))
  {
    var t := s[..m];
    assert t[..n] == s[..n] && t[n + 1..] == s[n + 1..m];
    if IsName(t) {
      var k := NameApart(t);
      assert t[..k] == s[..k];
      NoDots(s, n);
    } else if s[n] == '.' && (n + 1 < m ==> IsName(s[n + 1..m])) {
      NameTogether(t, n);
    }
  }

  lemma NoLabelNoName(s: string, m: nat)
    requires m <= |s| && IsName(s[..m])
    ensures exists n :: 0 <= n <= |s| && IsLabel(s[..n])
  {
    var n := NameApart(s[..m]);
    assert s[..m][..n] == s[..n];
  }

  /** The longest name at the start. */
  ghost predicate LongestName(s: string, n: nat) {
    n <= |s| && IsName(s[..n]) && forall m :: n < m <= |s| ==> !IsName(s[..m])
  }

  /** What has been read is names so far; what follows decides about longer ones. */
  ghost predicate Sofar(s: string, sz: nat) {
    && sz <= |s| && (sz > 0 ==> IsName(s[..sz]))
    && forall m :: sz < m <= |s| ==> (IsName(s[..m]) <==> IsName(s[sz..m]))
  }

  lemma SofarStart(s: string)
    ensures Sofar(s, 0)
  {
    forall m | 0 < m <= |s| ensures IsName(s[..m]) <==> IsName(s[0..m]) {
      assert s[..m] == s[0..m];
    }
  }

  lemma SofarLabel(s: string, sz: nat, n: nat)
    requires Sofar(s, sz) && LongestLabel(s[sz..], n)
    ensures IsName(s[..sz + n])
    ensures sz + n == |s| || s[sz + n] != '.' ==> LongestName(s, sz + n)
    ensures sz + n < |s| && s[sz + n] == '.' ==> Sofar(s, sz + n + 1)
  {
    hide IsName;
    var rest := s[sz..];
    LabelIsName(rest, n);
    assert s[sz..sz + n] == rest[..n];
    forall m | sz + n < m <= |s|
      ensures IsName(s[..m]) <==> s[sz + n] == '.' && (sz + n + 1 < m ==> IsName(s[sz + n + 1..m]))
    {
      NameBeyond(rest, n, m - sz);
      assert rest[..m - sz] == s[sz..m] && rest[n + 1..m - sz] == s[sz + n + 1..m];
    }
    hide IsLabel;
  }

  lemma LabelIsName(s: string, n: nat)
    requires n <= |s| && IsLabel(s[..n])
    ensures n > 0 && IsName(s[..n])
  {
    assert s[..n][..n] == s[..n];
    NameTogether(s[..n], n);
  }

  lemma SofarStuck(s: string, sz: nat)
    requires Sofar(s, sz) && sz > 0 && forall n :: 0 <= n <= |s[sz..]| ==> !IsLabel(s[sz..][..n])
    ensures LongestName(s, sz)
  {
    hide IsName, IsLabel;
    forall m | sz < m <= |s| ensures !IsName(s[..m]) {
      if IsName(s[sz..m]) {
        assert s[sz..m] == s[sz..][..m - sz];
        NoLabelNoName(s[sz..], m - sz);
      }
    }
  }

  /** The loop over labels finds the longest name at the start, and fails exactly when there is
      no label there. */
  method ParseSubdomain(s: string) returns (r: Result<nat, FqdnError>)
    ensures r.Err? <==> forall n :: 0 <= n <= |s| ==> !IsName(s[..n])
    ensures r.Ok? ==> LongestName(s, r.value)
    ensures r.Err? ==> r == Err(ExpectLetter)
  {
    hide IsName, IsLabel;
    var sz: nat, rest := 0, s;
    SofarStart(s);
    while true
      invariant Sofar(s, sz) && rest == s[sz..]
      decreases |rest|
    {
      var part := ParseLabel(rest);
      if part.Err? {
        if sz == 0 {
          forall n | 0 <= n <= |s| ensures !IsName(s[..n]) {
            if IsName(s[..n]) {
              NoLabelNoName(s, n);
            }
          }
          return Err(part.error);
        }
        SofarStuck(s, sz);
        return Ok(sz);
      }
      SofarLabel(s, sz, part.value);
      sz := sz + part.value;
      rest := rest[part.value..];
      if rest == [] || rest[0] != '.' {
        return Ok(sz);
      }
      sz := sz + 1;
      rest := rest[1..];
    }
  }

  /** The value is the longest name at the start of the input, the rest is what follows it. */
  method Parse(s: string) returns (r: Result<(string, string), FqdnError>)
    ensures r.Ok? ==> r.value.0 + r.value.1 == s && LongestName(s, |r.value.0|)
    ensures r.Err? <==> forall n :: 0 <= n <= |s| ==> !IsName(s[..n])
    ensures r.Err? ==> r == Err(ExpectLetter)
  {
    var n := ParseSubdomain(s);
    r := match n case Err(e) => Err(e) case Ok(k) => Ok((s[..k], s[k..]));
  }

  /** A string is taken exactly when it is a name, and then as it is; a string that only starts with
      one is told apart from a string that does not. */
  method FromString(s: string) returns (r: Result<string, FqdnError>)
    ensures r.Ok? <==> IsName(s)
    ensures r.Ok? ==> r.value == s
    ensures r == Err(ExpectLetter) <==> forall n :: 0 <= n <= |s| ==> !IsName(s[..n])
  {
    var p := Parse(s);
    assert s[..|s|] == s;
    match p {
      case Err(e) => r := Err(e);
      case Ok((value, rest)) =>
        if rest == [] {
          assert value == s;
          r := Ok(value);
        } else {
          r := Err(NotFullyParsed);
        }
    }
  }
}
