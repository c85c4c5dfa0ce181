/** Splitting a string at a separator and joining it again. */
module StringView {
  import opened Bytes

  /** Where the separator first occurs, or the length if it does not. */
  function Find(s: string, sep: char): (k: nat)
    ensures k <= |s| && sep !in s[..k] && (k < |s| ==> s[k] == sep)
  {
    if s == [] || s[0] == sep then 0
    else
      var k := 1 + Find(s[1..], sep);
      assert s[..k] == [s[0]] + s[1..][..k - 1];
      k
  }

  function Split(s: string, sep: char): (r: Maybe<(string, string)>)
    ensures r.None? <==> sep !in s
    ensures r.Some? ==> sep !in r.value.0 && r.value.0 + [sep] + r.value.1 == s
  {
    var k := Find(s, sep);
    if k < |s| then Some((s[..k], s[k + 1..])) else None
  }

  function SplitAll(s: string, sep: char): seq<string>
    decreases |s|
  {
    if s == [] then []
    else match Split(s, sep)
      case Some((first, second)) => [first] + SplitAll(second, sep)
      case None => [s]
  }

  /** The loop collecting tokens. */
  method SplitAllLoop(s: string, sep: char) returns (tokens: seq<string>)
    ensures tokens == SplitAll(s, sep)
  {
    hide Split;
    var rest := s;
    tokens := [];
    while rest != []
      invariant tokens + SplitAll(rest, sep) == SplitAll(s, sep)
      decreases |rest|
    {
      match Split(rest, sep) {
        case Some((first, second)) =>
          tokens := tokens + [first];
          rest := second;
        case None =>
          tokens := tokens + [rest];
          rest := [];
      }
    }
  }

  function Join(tokens: seq<string>, sep: string): string {
    if tokens == [] then []
    else if |tokens| == 1 then tokens[0]
    else tokens[0] + sep + Join(tokens[1..], sep)
  }

  lemma {:induction false} JoinSnoc(tokens: seq<string>, t: string, sep: string)
    requires tokens != []
    ensures Join(tokens + [t], sep) == Join(tokens, sep) + sep + t
  {
    assert (tokens + [t])[1..] == tokens[1..] + [t];
    if |tokens| == 1 {
      assert tokens[1..] + [t] == [t];
    } else {
      JoinSnoc(tokens[1..], t, sep);
      assert tokens[0] + sep + (Join(tokens[1..], sep) + sep + t) == tokens[0] + sep + Join(tokens[1..], sep) + sep + t;
    }
  }

  /** The loop writing to a stream, a separator before every token but the first. */
  method JoinLoop(tokens: seq<string>, sep: string) returns (r: string)
    ensures r == Join(tokens, sep)
  {
    r := "";
    for k := 0 to |tokens|
      invariant r == Join(tokens[..k], sep)
    {
      r := r + (if k == 0 then "" else sep) + tokens[k];
      assert tokens[..k + 1] == tokens[..k] + [tokens[k]];
      if k > 0 {
        JoinSnoc(tokens[..k], tokens[k], sep);
      }
    }
    assert tokens[..|tokens|] == tokens;
  }

  predicate EndsWith(s: string, sep: char) {
    s != [] && s[|s| - 1] == sep
  }

  ghost predicate Free(tokens: seq<string>, sep: char) {
    forall i :: 0 <= i < |tokens| ==> sep !in tokens[i]
  }

  /** For every string and separator: no token contains the separator, and joining the tokens
      gives the string back, less one trailing separator if it ended with one. */
  lemma {:induction false} SplitThenJoin(s: string, sep: char)
    ensures Free(SplitAll(s, sep), sep)
    ensures Join(SplitAll(s, sep), [sep]) == if EndsWith(s, sep) then s[..|s| - 1] else s
    ensures SplitAll(s, sep) == [] <==> s == []
    decreases |s|
  {
    if s != [] {
      match Split(s, sep) {
        case None =>
        case Some((first, second)) =>
          hide Split;
          SplitThenJoin(second, sep);
          var rest := SplitAll(second, sep);
          assert ([first] + rest)[1..] == rest;
          if second == [] {
            assert s == first + [sep];
          } else {
            assert s[|s| - 1] == second[|second| - 1];
            if EndsWith(second, sep) {
              assert s[..|s| - 1] == first + [sep] + second[..|second| - 1];
            }
          }
      }
    }
  }

  lemma SplitAtFirst(first: string, sep: char, second: string)
    requires sep !in first
    ensures Split(first + [sep] + second, sep) == Some((first, second))
  {
    var s := first + [sep] + second;
    assert s[..|first|] == first && s[|first| + 1..] == second;
    FirstAt(s, sep, |first|);
  }

  lemma {:induction false} FirstAt(s: string, sep: char, k: nat)
    requires k < |s| && s[k] == sep && sep !in s[..k]
    ensures Find(s, sep) == k
  {
    if k > 0 {
      assert s[..k] == [s[0]] + s[1..][..k - 1];
      FirstAt(s[1..], sep, k - 1);
    }
  }

  lemma {:induction false} JoinFree(tokens: seq<string>, sep: char)
    requires Free(tokens, sep) && tokens != [] && tokens[|tokens| - 1] != []
    ensures SplitAll(Join(tokens, [sep]), sep) == tokens && Join(tokens, [sep]) != []
  {
    hide Split;
    if |tokens| == 1 {
      assert tokens == [tokens[0]];
    } else {
      var rest := tokens[1..];
      assert rest[|rest| - 1] == tokens[|tokens| - 1];
      JoinFree(rest, sep);
      SplitAtFirst(tokens[0], sep, Join(rest, [sep]));
      assert tokens == [tokens[0]] + rest;
    }
  }

  lemma {:induction false} JoinEnds(tokens: seq<string>, sep: char)
    requires |tokens| > 1 && tokens[|tokens| - 1] == []
    ensures EndsWith(Join(tokens, [sep]), sep)
  {
    var front := tokens[..|tokens| - 1];
    assert tokens == front + [[]];
    JoinSnoc(front, [], [sep]);
  }

  /** Splitting undoes joining exactly when no token contains the separator and the last token
      is not empty. */
  lemma JoinThenSplit(tokens: seq<string>, sep: char)
    ensures SplitAll(Join(tokens, [sep]), sep) == tokens
            <==> Free(tokens, sep) && (tokens == [] || tokens[|tokens| - 1] != [])
  {
    var s := Join(tokens, [sep]);
    SplitThenJoin(s, sep);
    if tokens != [] && tokens[|tokens| - 1] == [] {
      if |tokens| > 1 {
        JoinEnds(tokens, sep);
      }
    } else if Free(tokens, sep) && tokens != [] {
      JoinFree(tokens, sep);
    }
  }
}
