/** `sdssplitlen` and `sdsjoinsds` of sds.c. */
module Splitting {
  import opened Bytes

  predicate MatchAt(s: bytes, k: int, sep: bytes) {
    0 <= k && k + |sep| <= |s| && s[k..k + |sep|] == sep
  }

  ghost predicate Contains(s: bytes, sep: bytes) {
    exists k :: MatchAt(s, k, sep)
  }

  /** k is the first place where sep occurs. */
  ghost predicate FirstMatch(s: bytes, k: int, sep: bytes) {
    MatchAt(s, k, sep) && forall i :: 0 <= i < k ==> !MatchAt(s, i, sep)
  }

  lemma {:induction false} FirstExists(s: bytes, k: int, sep: bytes) returns (f: int)
    requires MatchAt(s, k, sep)
    ensures FirstMatch(s, f, sep) && f <= k
    decreases k
  {
    if i :| 0 <= i < k && MatchAt(s, i, sep) {
      f := FirstExists(s, i, sep);
    } else {
      f := k;
    }
  }

  /** Cut at the leftmost separators that do not overlap. */
  ghost function Tokens(s: bytes, sep: bytes): (r: seq<bytes>)
    requires sep != []
    ensures |r| > 0
    decreases |s|
  {
    if !Contains(s, sep) then [s]
    else
      var k := First(s, sep);
      [s[..k]] + Tokens(s[k + |sep|..], sep)
  }

  ghost function First(s: bytes, sep: bytes): (f: int)
    requires Contains(s, sep)
    ensures FirstMatch(s, f, sep)
  {
    assert exists f :: FirstMatch(s, f, sep) by {
      var k :| MatchAt(s, k, sep);
      var f := FirstExists(s, k, sep);
    }
    var f :| FirstMatch(s, f, sep);
    f
  }

  function Join(tokens: seq<bytes>, sep: bytes): bytes {
    if tokens == [] then []
    else if |tokens| == 1 then tokens[0]
    else tokens[0] + sep + Join(tokens[1..], sep)
  }

  /** Joining the pieces restores the string, and no piece contains the separator. */
  lemma {:induction false} SplitThenJoin(s: bytes, sep: bytes)
    requires sep != []
    ensures Join(Tokens(s, sep), sep) == s
    ensures forall t :: t in Tokens(s, sep) ==> !Contains(t, sep)
    decreases |s|
  {
    if Contains(s, sep) {
      var k := First(s, sep);
      var rest := s[k + |sep|..];
      SplitThenJoin(rest, sep);
      assert s == s[..k] + sep + rest;
      assert Tokens(s, sep)[1..] == Tokens(rest, sep);
      forall i
        ensures !MatchAt(s[..k], i, sep)
      {
        MatchBefore(s, k, i, sep);
      }
    }
  }

  lemma MatchBefore(s: bytes, k: nat, i: int, sep: bytes)
    requires k <= |s|
    ensures MatchAt(s[..k], i, sep) ==> MatchAt(s, i, sep) && i + |sep| <= k
  {
    if 0 <= i && i + |sep| <= k {
      assert s[..k][i..i + |sep|] == s[i..i + |sep|];
    }
  }

  /** Each piece but the last ends at the first separator from its start on, and the last has none. */
  ghost predicate Leftmost(tokens: seq<bytes>, sep: bytes) {
    if |tokens| <= 1 then tokens != [] && !Contains(tokens[0], sep)
    else FirstMatch(tokens[0] + sep, |tokens[0]|, sep) && Leftmost(tokens[1..], sep)
  }

  /** These are the pieces if and only if joined they are the string and each ends at the leftmost separator. */
  lemma {:induction false} TokensIff(s: bytes, sep: bytes, tokens: seq<bytes>)
    requires sep != []
    ensures Tokens(s, sep) == tokens <==> Leftmost(tokens, sep) && Join(tokens, sep) == s
    decreases |s|
  {
    hide FirstMatch, Contains;
    if Tokens(s, sep) == tokens {
      SplitThenJoin(s, sep);
      TokensLeftmost(s, sep);
    }
    if Leftmost(tokens, sep) && Join(tokens, sep) == s {
      JoinedTokens(tokens, sep);
    }
  }

  lemma {:induction false} TokensLeftmost(s: bytes, sep: bytes)
    requires sep != []
    ensures Leftmost(Tokens(s, sep), sep)
    decreases |s|
  {
    hide FirstMatch, MatchAt;
    if Contains(s, sep) {
      var k := First(s, sep);
      MatchInside(s, k, sep);
      TokensCut(s, k, sep);
      var rest := s[k + |sep|..];
      TokensLeftmost(rest, sep);
      assert Tokens(s, sep)[1..] == Tokens(rest, sep);
      HeadMatch(s[..k], sep, rest, s);
    }
  }

  lemma MatchInside(s: bytes, k: int, sep: bytes)
    requires FirstMatch(s, k, sep)
    ensures 0 <= k && k + |sep| <= |s| && s == s[..k] + sep + s[k + |sep|..]
  {
  }

  /** Whether a piece ends at the first separator does not depend on what follows. */
  lemma HeadMatch(token: bytes, sep: bytes, rest: bytes, s: bytes)
    requires s == token + sep + rest
    ensures FirstMatch(s, |token|, sep) <==> FirstMatch(token + sep, |token|, sep)
  {
    assert MatchAt(s, |token|, sep) && MatchAt(token + sep, |token|, sep);
    forall i | 0 <= i < |token|
      ensures MatchAt(s, i, sep) <==> MatchAt(token + sep, i, sep)
    {
      assert s[i..i + |sep|] == (token + sep)[i..i + |sep|];
    }
  }

  lemma {:induction false} JoinedTokens(tokens: seq<bytes>, sep: bytes)
    requires sep != [] && Leftmost(tokens, sep)
    ensures Tokens(Join(tokens, sep), sep) == tokens
    decreases tokens
  {
    hide FirstMatch, Contains;
    if |tokens| > 1 {
      var s, rest := Join(tokens, sep), Join(tokens[1..], sep);
      JoinedTokens(tokens[1..], sep);
      HeadMatch(tokens[0], sep, rest, s);
      TokensCut(s, |tokens[0]|, sep);
      assert s[..|tokens[0]|] == tokens[0] && s[|tokens[0]| + |sep|..] == rest;
    }
  }

  /** Joining puts the separator between any two pieces that follow each other. */
  lemma {:induction false} JoinMore(tokens: seq<bytes>, token: bytes, sep: bytes)
    ensures Join([], sep) == [] && Join([token], sep) == token
    ensures tokens != [] ==> Join(tokens + [token], sep) == Join(tokens, sep) + sep + token
  {
    if |tokens| > 1 {
      JoinMore(tokens[1..], token, sep);
      assert (tokens + [token])[1..] == tokens[1..] + [token];
    }
  }

  /** `sdssplitlen`: None (NULL) for an empty separator, no token for the empty string. */
  method SdsSplitLen(s: bytes, sep: bytes) returns (r: Option<seq<bytes>>)
    ensures r.None? <==> sep == []
    ensures r.Some? ==> r.value == if s == [] then [] else Tokens(s, sep)
    ensures r.Some? ==> Join(r.value, sep) == s && forall t :: t in r.value ==> !Contains(t, sep)
  {
    if |sep| < 1 {
      return None;
    }
    SplitThenJoin(s, sep);
    if |s| == 0 {
      return Some([]);
    }
    var tokens := SplitLoop(s, sep);
    return Some(tokens);
  }

  method SplitLoop(s: bytes, sep: bytes) returns (tokens: seq<bytes>)
    requires s != [] && sep != []
    ensures tokens == Tokens(s, sep)
  {
    hide Tokens, Contains;
    ghost var goal := Tokens(s, sep);
    tokens := [];
    var start, j := 0, 0;
    assert s[0..] == s && tokens + goal == goal;
    while j < |s| - (|sep| - 1)
      invariant 0 <= start <= j && start <= |s|
      invariant tokens + Tokens(s[start..], sep) == goal
      invariant forall i :: start <= i < j ==> !MatchAt(s, i, sep)
      decreases |s| - j
    {
      if (|sep| == 1 && s[j] == sep[0]) || s[j..j + |sep|] == sep {
        assert MatchAt(s, j, sep);
        TokenFound(s, start, j, sep);
        tokens := Extended(tokens, s[start..j], Tokens(s[j + |sep|..], sep));
        start := j + |sep|;
        j := j + |sep| - 1;
      }
      j := j + 1;
    }
    LastToken(s, start, sep);
    tokens := tokens + [s[start..]];
  }

  function Extended(tokens: seq<bytes>, token: bytes, ghost others: seq<bytes>): (r: seq<bytes>)
    ensures r == tokens + [token] && r + others == tokens + ([token] + others)
  {
    tokens + [token]
  }

  lemma MatchShift(s: bytes, start: nat, i: int, sep: bytes)
    requires start <= |s| && 0 <= i
    ensures MatchAt(s[start..], i, sep) <==> MatchAt(s, start + i, sep)
  {
    if start + i + |sep| <= |s| {
      assert s[start..][i..i + |sep|] == s[start + i..start + i + |sep|];
    }
  }

  lemma TokenFound(s: bytes, start: nat, j: nat, sep: bytes)
    requires sep != [] && start <= j && MatchAt(s, j, sep)
    requires forall i :: start <= i < j ==> !MatchAt(s, i, sep)
    ensures Tokens(s[start..], sep) == [s[start..j]] + Tokens(s[j + |sep|..], sep)
  {
    hide Tokens;
    var t, k := s[start..], j - start;
    MatchShift(s, start, k, sep);
    forall i | 0 <= i < k
      ensures !MatchAt(t, i, sep)
    {
      MatchShift(s, start, i, sep);
    }
    TokensCut(t, k, sep);
    assert t[..k] == s[start..j] && t[k + |sep|..] == s[j + |sep|..];
  }

  lemma TokensCut(t: bytes, k: nat, sep: bytes)
    requires sep != [] && FirstMatch(t, k, sep)
    ensures Tokens(t, sep) == [t[..k]] + Tokens(t[k + |sep|..], sep)
  {
    assert Contains(t, sep);
    var f := First(t, sep);
    assert f == k;
  }

  lemma LastToken(s: bytes, start: nat, sep: bytes)
    requires sep != [] && start <= |s|
    requires forall i :: start <= i && i + |sep| <= |s| ==> !MatchAt(s, i, sep)
    ensures Tokens(s[start..], sep) == [s[start..]]
  {
    if Contains(s[start..], sep) {
      var k :| MatchAt(s[start..], k, sep);
      MatchShift(s, start, k, sep);
    }
  }

  /** `sdsjoinsds`. */
  method SdsJoinSds(argv: seq<bytes>, sep: bytes) returns (join: bytes)
    ensures join == Join(argv, sep)
  {
    join := [];
    var j := 0;
    assert argv[0..] == argv;
    while j < |argv|
      invariant 0 <= j <= |argv|
      invariant join + Join(argv[j..], sep) == Join(argv, sep)
    {
      assert argv[j..][1..] == argv[j + 1..];
      join := join + argv[j];
      if j != |argv| - 1 {
        join := join + sep;
      }
      j := j + 1;
    }
  }
}
