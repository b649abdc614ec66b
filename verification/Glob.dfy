/** The filter's glob matcher (agent/src/filter.c filter_glob_match). */
module Glob {

  /** What a pattern is made of. "**" swallows one slash that follows it. */
  datatype Token = AnyPath | Segment | OneChar | Literal(c: char)

  function Tokens(p: string): seq<Token> {
    if p == [] then []
    else if |p| >= 2 && p[0] == '*' && p[1] == '*' then
      [AnyPath] + Tokens(if |p| >= 3 && p[2] == '/' then p[3..] else p[2..])
    else [if p[0] == '*' then Segment else if p[0] == '?' then OneChar else Literal(p[0])] + Tokens(p[1..])
  }

  predicate SlashFree(s: string) {
    forall i :: 0 <= i < |s| ==> s[i] != '/'
  }

  /** The strings one token stands for. */
  predicate Stands(t: Token, part: string) {
    match t
    case AnyPath => true
    case Segment => SlashFree(part)
    case OneChar => |part| == 1 && part[0] != '/'
    case Literal(c) => part == [c]
  }

  function Join(parts: seq<string>): string {
    if parts == [] then [] else parts[0] + Join(parts[1..])
  }

  /** s is cut into one piece per token, in order. */
  predicate Splits(tokens: seq<Token>, parts: seq<string>, s: string) {
    && |parts| == |tokens|
    && Join(parts) == s
    && (forall i :: 0 <= i < |tokens| ==> Stands(tokens[i], parts[i]))
  }

  ghost predicate InLanguage(pattern: string, s: string) {
    exists parts :: Splits(Tokens(pattern), parts, s)
  }

  // ---------------------------------------------------------------------
  // Left to right
  // ---------------------------------------------------------------------

  /** The first token takes a prefix, the others the rest. */
  ghost predicate Matches(tokens: seq<Token>, s: string) {
    if tokens == [] then s == []
    else exists k :: 0 <= k <= |s| && Stands(tokens[0], s[..k]) && Matches(tokens[1..], s[k..])
  }

  lemma {:induction false} SplitsMatch(tokens: seq<Token>, parts: seq<string>, s: string)
    requires Splits(tokens, parts, s)
    ensures Matches(tokens, s)
  {
    if tokens != [] {
      var k := |parts[0]|;
      assert s[..k] == parts[0] && s[k..] == Join(parts[1..]);
      SplitsMatch(tokens[1..], parts[1..], s[k..]);
    }
  }

  lemma {:induction false} MatchSplits(tokens: seq<Token>, s: string) returns (parts: seq<string>)
    requires Matches(tokens, s)
    ensures Splits(tokens, parts, s)
    decreases |tokens|
  {
    if tokens == [] {
      parts := [];
    } else {
      var k :| 0 <= k <= |s| && Stands(tokens[0], s[..k]) && Matches(tokens[1..], s[k..]);
      var rest := MatchSplits(tokens[1..], s[k..]);
      parts := [s[..k]] + rest;
      SplitsCons(tokens, s, k, rest);
    }
  }

  lemma SplitsCons(tokens: seq<Token>, s: string, k: nat, rest: seq<string>)
    requires tokens != [] && k <= |s| && Stands(tokens[0], s[..k]) && Splits(tokens[1..], rest, s[k..])
    ensures Splits(tokens, [s[..k]] + rest, s)
  {
    var parts := [s[..k]] + rest;
    assert parts[1..] == rest && s[..k] + s[k..] == s;
    forall i | 0 <= i < |tokens| ensures Stands(tokens[i], parts[i]) {
      if i > 0 { assert tokens[i] == tokens[1..][i - 1] && parts[i] == rest[i - 1]; }
    }
  }

  lemma LanguageIsMatches(pattern: string, s: string)
    ensures InLanguage(pattern, s) <==> Matches(Tokens(pattern), s)
  {
    if InLanguage(pattern, s) {
      var parts :| Splits(Tokens(pattern), parts, s);
      SplitsMatch(Tokens(pattern), parts, s);
    }
    if Matches(Tokens(pattern), s) {
      var parts := MatchSplits(Tokens(pattern), s);
    }
  }

  /** A token of exactly one character. */
  lemma MatchOne(tokens: seq<Token>, s: string)
    requires tokens != [] && (tokens[0].OneChar? || tokens[0].Literal?)
    ensures Matches(tokens, s) <==> s != [] && Stands(tokens[0], s[..1]) && Matches(tokens[1..], s[1..])
  {
    if Matches(tokens, s) {
      var k :| 0 <= k <= |s| && Stands(tokens[0], s[..k]) && Matches(tokens[1..], s[k..]);
      assert |s[..k]| == 1;
    }
  }

  // ---------------------------------------------------------------------
  // The language by the text of the pattern
  // ---------------------------------------------------------------------

  /** A character that is no wildcard stands for itself, "?" for any one but a
      slash, and the empty pattern for the empty string. */
  lemma OneCharLaws(c: char, p: string, s: string)
    ensures InLanguage([], s) <==> s == []
    ensures c != '*' && c != '?' ==>
              (InLanguage([c] + p, s) <==> s != [] && s[0] == c && InLanguage(p, s[1..]))
    ensures InLanguage(['?'] + p, s) <==> s != [] && s[0] != '/' && InLanguage(p, s[1..])
  {
    LanguageIsMatches([], s);
    LanguageIsMatches([c] + p, s);
    LanguageIsMatches(['?'] + p, s);
    if s != [] { LanguageIsMatches(p, s[1..]); }
    if c != '*' && c != '?' {
      assert ([c] + p)[1..] == p;
      MatchOne(Tokens([c] + p), s);
    }
    assert (['?'] + p)[1..] == p;
    MatchOne(Tokens(['?'] + p), s);
  }

  /** "*" stands for any run of characters without a slash. */
  lemma StarLaw(p: string, s: string)
    requires p == [] || p[0] != '*'
    ensures InLanguage(['*'] + p, s) <==>
            exists k :: 0 <= k <= |s| && InLanguage(p, s[k..]) && forall i :: 0 <= i < k ==> s[i] != '/'
  {
    var q := ['*'] + p;
    assert q[1..] == p && Tokens(q) == [Segment] + Tokens(p);
    LanguageIsMatches(q, s);
    forall k | 0 <= k <= |s| ensures InLanguage(p, s[k..]) <==> Matches(Tokens(p), s[k..]) {
      LanguageIsMatches(p, s[k..]);
    }
    assert forall k :: 0 <= k <= |s| ==> (Stands(Segment, s[..k]) <==> forall i :: 0 <= i < k ==> s[i] != '/');
  }

  /** "**" stands for anything, and so does "**" with a slash after it. */
  lemma DoubleStarLaw(p: string, s: string, slash: bool)
    requires slash || p == [] || p[0] != '/'
    ensures InLanguage((if slash then "**/" else "**") + p, s) <==> exists k :: 0 <= k <= |s| && InLanguage(p, s[k..])
  {
    var q := (if slash then "**/" else "**") + p;
    assert (if slash then q[3..] else q[2..]) == p;
    assert Tokens(q) == [AnyPath] + Tokens(p);
    LanguageIsMatches(q, s);
    forall k | 0 <= k <= |s| ensures InLanguage(p, s[k..]) <==> Matches(Tokens(p), s[k..]) {
      LanguageIsMatches(p, s[k..]);
    }
    assert forall k :: 0 <= k <= |s| ==> Stands(AnyPath, s[..k]);
  }

  /** "**" and "*" succeed where their tail does, as far as they reach. */
  lemma MatchMany(tokens: seq<Token>, s: string, reach: nat)
    requires tokens != [] && (tokens[0].AnyPath? || tokens[0].Segment?) && reach <= |s|
    requires forall k :: 0 <= k <= |s| ==> (Stands(tokens[0], s[..k]) <==> k <= reach)
    ensures Matches(tokens, s) <==> exists k :: 0 <= k <= reach && Matches(tokens[1..], s[k..])
  {
    if k :| 0 <= k <= reach && Matches(tokens[1..], s[k..]) {
      assert Stands(tokens[0], s[..k]);
    }
    if Matches(tokens, s) {
      var k :| 0 <= k <= |s| && Stands(tokens[0], s[..k]) && Matches(tokens[1..], s[k..]);
      assert k <= reach;
    }
  }

  // ---------------------------------------------------------------------
  // The matcher
  // ---------------------------------------------------------------------

  /** The loops over the text behind a star: the tail is tried at every position
      up to the end, or up to the next slash. */
  method TryFrom(p: string, s: string, stopAtSlash: bool) returns (r: bool)
    ensures r <==> Matches([if stopAtSlash then Segment else AnyPath] + Tokens(p), s)
    decreases |p|, 1
  {
    ghost var tokens := [if stopAtSlash then Segment else AnyPath] + Tokens(p);
    assert tokens[1..] == Tokens(p);
    var t := 0;
    while true
      invariant 0 <= t <= |s|
      invariant stopAtSlash ==> SlashFree(s[..t])
      invariant forall k :: 0 <= k < t ==> !Matches(Tokens(p), s[k..])
      decreases |s| - t
    {
      var here := GlobMatch(p, s[t..]);
      if here {
        assert Stands(tokens[0], s[..t]);
        return true;
      }
      if t == |s| || (stopAtSlash && s[t] == '/') {
        forall k | 0 <= k <= |s| ensures Stands(tokens[0], s[..k]) <==> k <= t || !stopAtSlash {
          if stopAtSlash && k > t { assert s[..k][t] == '/'; }
          if stopAtSlash && k <= t { assert forall i :: 0 <= i < k ==> s[..k][i] == s[..t][i]; }
        }
        MatchMany(tokens, s, t);
        return false;
      }
      t := t + 1;
    }
  }

  method GlobMatch(pattern: string, text: string) returns (r: bool)
    ensures r <==> Matches(Tokens(pattern), text)
    decreases |pattern|, 0
  {
    var p, s := pattern, text;
    while p != []
      invariant |p| <= |pattern|
      invariant Matches(Tokens(p), s) <==> Matches(Tokens(pattern), text)
      decreases |p|
    {
      if |p| >= 2 && p[0] == '*' && p[1] == '*' {
        var q := p[2..];
        if q != [] && q[0] == '/' { q := q[1..]; }
        if q == [] {
          AnyRest(s);
          return true;
        }
        r := TryFrom(q, s, false);
        return;
      } else if p[0] == '*' {
        r := TryFrom(p[1..], s, true);
        return;
      } else if p[0] == '?' {
        MatchOne(Tokens(p), s);
        if s == [] || s[0] == '/' { return false; }
        p, s := p[1..], s[1..];
      } else {
        MatchOne(Tokens(p), s);
        if s == [] || p[0] != s[0] { return false; }
        p, s := p[1..], s[1..];
      }
    }
    return s == [];
  }

  lemma AnyRest(s: string)
    ensures Matches([AnyPath], s)
  {
    assert Stands(AnyPath, s[..|s|]) && Matches([AnyPath][1..], s[|s|..]);
  }

  /** filter_glob_match accepts exactly the pattern's language. */
  method FilterGlobMatch(pattern: string, text: string) returns (r: bool)
    ensures r <==> InLanguage(pattern, text)
  {
    LanguageIsMatches(pattern, text);
    r := GlobMatch(pattern, text);
  }

  // ---------------------------------------------------------------------
  // The rule list
  // ---------------------------------------------------------------------

  datatype Rule = Rule(pattern: string, exclude: bool)

  /** Rule i is the first that matches. */
  ghost predicate Decides(rules: seq<Rule>, path: string, i: int) {
    && 0 <= i < |rules| && InLanguage(rules[i].pattern, path)
    && forall j :: 0 <= j < i ==> !InLanguage(rules[j].pattern, path)
  }

  /** filter_excluded: the first rule that matches decides, and without one the
      entry is included. */
  method FilterExcluded(rules: seq<Rule>, path: string) returns (excluded: bool)
    ensures excluded <==> exists i :: Decides(rules, path, i) && rules[i].exclude
    ensures forall i :: Decides(rules, path, i) ==> excluded == rules[i].exclude
  {
    for i := 0 to |rules|
      invariant forall j :: 0 <= j < i ==> !InLanguage(rules[j].pattern, path)
    {
      var hit := FilterGlobMatch(rules[i].pattern, path);
      if hit {
        assert Decides(rules, path, i);
        assert forall k :: Decides(rules, path, k) ==> k == i;
        return rules[i].exclude;
      }
    }
    return false;
  }
}
