/**
 Scope strings as sets of words (apps/server/src/modules/oauth/oauth.helpers.ts:33-61).
 */
module Scopes {
  import opened JsText

  /** The length of the leading run of non-space characters. */
  function WordLength(s: string): (n: nat)
    ensures n <= |s|
    ensures forall i | 0 <= i < n :: !IsSpace(s[i])
    ensures n < |s| ==> IsSpace(s[n])
  {
    if s == "" || IsSpace(s[0]) then 0 else 1 + WordLength(s[1..])
  }

  /** parseScope: the words between runs of white space. */
  function ParseScope(s: string): seq<string>
    decreases |s|
  {
    if s == "" then []
    else if IsSpace(s[0]) then ParseScope(s[1..])
    else [s[..WordLength(s)]] + ParseScope(s[WordLength(s)..])
  }

  function ScopeSet(s: string): set<string> {
    set w | w in ParseScope(s)
  }

  /** s[i..j] is a maximal run of non-space characters. */
  predicate WordAt(s: string, i: int, j: int) {
    && 0 <= i < j <= |s|
    && (forall k | i <= k < j :: !IsSpace(s[k]))
    && (i == 0 || IsSpace(s[i - 1]))
    && (j == |s| || IsSpace(s[j]))
  }

  predicate WordIs(s: string, i: int, j: int, w: string) {
    WordAt(s, i, j) && s[i..j] == w
  }

  ghost predicate HasWord(s: string, w: string) {
    exists i, j :: WordIs(s, i, j, w)
  }

  /** A word that starts behind n is a word of the rest. */
  lemma WordOfRest(s: string, n: nat, i: int, j: int, w: string)
    requires WordIs(s, i, j, w) && n < i
    ensures HasWord(s[n..], w)
  {
    var rest := s[n..];
    forall k | i - n <= k < j - n
      ensures !IsSpace(rest[k])
    {
      assert rest[k] == s[n + k];
    }
    assert rest[i - n - 1] == s[i - 1];
    assert rest[i - n..j - n] == s[i..j];
    assert WordIs(rest, i - n, j - n, w);
  }

  /** A word of the rest that does not start at its beginning, or starts behind a space, is a word of the whole. */
  lemma WordOfWhole(s: string, n: nat, i: int, j: int, w: string)
    requires n <= |s| && WordIs(s[n..], i, j, w)
    requires i > 0 || n == 0 || IsSpace(s[n - 1])
    ensures HasWord(s, w)
  {
    var rest := s[n..];
    forall k | n + i <= k < n + j
      ensures !IsSpace(s[k])
    {
      assert s[k] == rest[k - n];
    }
    assert i > 0 ==> s[n + i - 1] == rest[i - 1];
    assert n + j < |s| ==> s[n + j] == rest[j];
    assert s[n + i..n + j] == rest[i..j];
    assert WordIs(s, n + i, n + j, w);
  }

  lemma WordsBehindSpace(s: string, w: string)
    requires s != "" && IsSpace(s[0])
    ensures HasWord(s, w) <==> HasWord(s[1..], w)
  {
    if HasWord(s, w) {
      var i, j :| WordIs(s, i, j, w);
      assert !IsSpace(s[i]);
      if i > 1 {
        WordOfRest(s, 1, i, j, w);
      } else {
        assert WordIs(s[1..], 0, j - 1, w) by {
          assert forall k | 0 <= k < j - 1 :: s[1..][k] == s[k + 1];
          assert s[1..][0..j - 1] == s[1..j];
        }
      }
    }
    if HasWord(s[1..], w) {
      var i, j :| WordIs(s[1..], i, j, w);
      WordOfWhole(s, 1, i, j, w);
    }
  }

  lemma FirstWordIsWord(s: string)
    requires s != "" && !IsSpace(s[0])
    ensures WordIs(s, 0, WordLength(s), s[..WordLength(s)])
  {
  }

  lemma WordsBehindFirst(s: string, w: string)
    requires s != "" && !IsSpace(s[0])
    ensures HasWord(s, w) <==> w == s[..WordLength(s)] || HasWord(s[WordLength(s)..], w)
  {
    var n := WordLength(s);
    FirstWordIsWord(s);
    if HasWord(s, w) {
      var i, j :| WordIs(s, i, j, w);
      if i == 0 {
        assert j == n;
        assert s[0..j] == s[..n];
      } else {
        assert i > n;
        WordOfRest(s, n, i, j, w);
      }
    }
    if HasWord(s[n..], w) {
      var i, j :| WordIs(s[n..], i, j, w);
      assert !IsSpace(s[n..][i]);
      assert i > 0 by {
        if i == 0 { assert s[n..][0] == s[n]; }
      }
      WordOfWhole(s, n, i, j, w);
    }
  }

  /** parseScope yields exactly the maximal runs of non-space characters. */
  lemma {:induction false} ScopeSetIsWords(s: string, w: string)
    ensures w in ScopeSet(s) <==> HasWord(s, w)
    decreases |s|
  {
    if s == "" {
    } else if IsSpace(s[0]) {
      ScopeSetIsWords(s[1..], w);
      WordsBehindSpace(s, w);
      assert ScopeSet(s) == ScopeSet(s[1..]);
    } else {
      var n := WordLength(s);
      ScopeSetIsWords(s[n..], w);
      WordsBehindFirst(s, w);
      assert w in ScopeSet(s) <==> w == s[..n] || w in ScopeSet(s[n..]);
    }
  }

  function TrimStart(s: string): string {
    if s != "" && IsSpace(s[0]) then TrimStart(s[1..]) else s
  }

  function TrimEnd(s: string): string {
    if s != "" && IsSpace(s[|s| - 1]) then TrimEnd(s[..|s| - 1]) else s
  }

  function Trim(s: string): string {
    TrimEnd(TrimStart(s))
  }

  lemma {:induction false} TrimStartKeepsScopes(s: string)
    ensures ParseScope(TrimStart(s)) == ParseScope(s)
  {
    if s != "" && IsSpace(s[0]) {
      TrimStartKeepsScopes(s[1..]);
    }
  }

  lemma {:induction false} TrailingSpace(s: string, c: char)
    requires IsSpace(c)
    ensures ParseScope(s + [c]) == ParseScope(s)
    decreases |s|
  {
    var t := s + [c];
    if s == "" {
      assert t[1..] == "";
    } else if IsSpace(s[0]) {
      assert t[1..] == s[1..] + [c];
      TrailingSpace(s[1..], c);
    } else {
      var n := WordLength(s);
      WordLengthAppend(s, c);
      assert t[..n] == s[..n];
      assert t[n..] == s[n..] + [c];
      TrailingSpace(s[n..], c);
    }
  }

  lemma {:induction false} WordLengthAppend(s: string, c: char)
    requires IsSpace(c)
    ensures WordLength(s + [c]) == WordLength(s)
  {
    if s != "" && !IsSpace(s[0]) {
      assert (s + [c])[1..] == s[1..] + [c];
      WordLengthAppend(s[1..], c);
    }
  }

  lemma {:induction false} TrimEndKeepsScopes(s: string)
    ensures ParseScope(TrimEnd(s)) == ParseScope(s)
    decreases |s|
  {
    if s != "" && IsSpace(s[|s| - 1]) {
      assert s == s[..|s| - 1] + [s[|s| - 1]];
      TrailingSpace(s[..|s| - 1], s[|s| - 1]);
      TrimEndKeepsScopes(s[..|s| - 1]);
    }
  }

  /** Trimming a scope string never changes its scopes. */
  lemma TrimKeepsScopes(s: string)
    ensures ScopeSet(Trim(s)) == ScopeSet(s)
  {
    TrimStartKeepsScopes(s);
    TrimEndKeepsScopes(TrimStart(s));
  }

  ghost predicate Blank(s: string) {
    forall i | 0 <= i < |s| :: IsSpace(s[i])
  }

  /** Trimming takes off white space at both ends, all of it, and nothing else. */
  lemma TrimExactly(s: string) returns (pre: string, post: string)
    ensures s == pre + Trim(s) + post && Blank(pre) && Blank(post)
    ensures Trim(s) != "" ==> !IsSpace(Trim(s)[0]) && !IsSpace(Trim(s)[|Trim(s)| - 1])
  {
    pre := TrimStartExactly(s);
    post := TrimEndExactly(TrimStart(s));
    assert Trim(s) != "" ==> Trim(s)[0] == TrimStart(s)[0];
  }

  lemma {:induction false} TrimStartExactly(s: string) returns (pre: string)
    ensures s == pre + TrimStart(s) && Blank(pre)
    ensures TrimStart(s) != "" ==> !IsSpace(TrimStart(s)[0])
  {
    pre := "";
    if s != "" && IsSpace(s[0]) {
      pre := TrimStartExactly(s[1..]);
      pre := [s[0]] + pre;
    }
  }

  lemma {:induction false} TrimEndExactly(s: string) returns (post: string)
    ensures s == TrimEnd(s) + post && Blank(post)
    ensures TrimEnd(s) != "" ==> !IsSpace(TrimEnd(s)[|TrimEnd(s)| - 1])
  {
    post := "";
    if s != "" && IsSpace(s[|s| - 1]) {
      post := TrimEndExactly(s[..|s| - 1]);
      post := post + [s[|s| - 1]];
    }
  }

  /** What trims to nothing is blank, and nothing else does. */
  lemma TrimsToNothing(s: string)
    ensures Trim(s) == "" <==> Blank(s)
  {
    var pre, post := TrimExactly(s);
    assert Trim(s) != "" ==> s[|pre|] == Trim(s)[0];
  }

  /** A text has no scopes exactly if it is blank. */
  lemma BlankHasNoScopes(s: string)
    ensures ScopeSet(s) == {} <==> Trim(s) == ""
  {
    TrimKeepsScopes(s);
    var pre, post := TrimExactly(s);
    var t := Trim(s);
    if t != "" {
      assert ParseScope(t)[0] in ParseScope(t);
      assert ParseScope(t)[0] in ScopeSet(t);
    } else {
      assert ParseScope("") == [];
    }
  }

  /** scopeSubset: set inclusion, hence reflexive and transitive. */
  method ScopeSubset(requested: string, allowed: string) returns (r: bool)
    ensures r <==> ScopeSet(requested) <= ScopeSet(allowed)
  {
    r := ConsentCovers(ScopeSet(allowed), requested);
  }

  /** consentCovers. */
  method ConsentCovers(granted: set<string>, requested: string) returns (r: bool)
    ensures r <==> ScopeSet(requested) <= granted
  {
    var words := ParseScope(requested);
    for i := 0 to |words|
      invariant forall k | 0 <= k < i :: words[k] in granted
    {
      if words[i] !in granted {
        assert words[i] in ScopeSet(requested);
        return false;
      }
    }
    r := true;
  }
}
