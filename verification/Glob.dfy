/** The filename matcher of httpd.c, sound and complete against cutting the string into pieces. */
module Glob {

  datatype Token = Lit(c: char) | Any | Star | DoubleStar

  // A pattern without '|', read from the left: two stars in a row are one token.
  function Tokens(p: string): seq<Token> {
    if p == "" then []
    else if p[0] == '*' then
      if |p| > 1 && p[1] == '*' then [DoubleStar] + Tokens(p[2..]) else [Star] + Tokens(p[1..])
    else [if p[0] == '?' then Any else Lit(p[0])] + Tokens(p[1..])
  }

  predicate Fits(t: Token, piece: string) {
    match t
    case Lit(c) => piece == [c]
    case Any => |piece| == 1
    case Star => '/' !in piece
    case DoubleStar => true
  }

  function Concat(pieces: seq<string>): string {
    if pieces == [] then "" else pieces[0] + Concat(pieces[1..])
  }

  ghost predicate Decomposes(tokens: seq<Token>, pieces: seq<string>, s: string) {
    |pieces| == |tokens| && Concat(pieces) == s && forall i :: 0 <= i < |tokens| ==> Fits(tokens[i], pieces[i])
  }

  // The string is one piece for each token, in order.
  ghost predicate Admits(tokens: seq<Token>, s: string) { exists pieces :: Decomposes(tokens, pieces, s) }

  lemma AdmitsNothing(s: string)
    ensures Admits([], s) <==> s == ""
  {
    if s == "" { assert Decomposes([], [], s); }
  }

  lemma AdmitsFirst(t: Token, rest: seq<Token>, s: string, k: nat)
    requires k <= |s| && Fits(t, s[..k]) && Admits(rest, s[k..])
    ensures Admits([t] + rest, s)
  {
    hide Fits;
    var pieces :| Decomposes(rest, pieces, s[k..]);
    var all := [s[..k]] + pieces;
    assert all[1..] == pieces && s == s[..k] + s[k..];
    assert Decomposes([t] + rest, all, s);
  }

  lemma FirstPiece(t: Token, rest: seq<Token>, s: string) returns (k: nat)
    requires Admits([t] + rest, s)
    ensures k <= |s| && Fits(t, s[..k]) && Admits(rest, s[k..])
  {
    hide Fits;
    var all := [t] + rest;
    var pieces :| Decomposes(all, pieces, s);
    k := |pieces[0]|;
    assert s[..k] == pieces[0] && s[k..] == Concat(pieces[1..]);
    assert all[0] == t && forall i :: 0 <= i < |rest| ==> all[i + 1] == rest[i];
    assert Decomposes(rest, pieces[1..], s[k..]);
  }

  // A token that takes exactly one character.
  lemma AdmitsOne(t: Token, rest: seq<Token>, s: string)
    requires t.Any? || t.Lit?
    ensures Admits([t] + rest, s) <==> s != "" && Fits(t, s[..1]) && Admits(rest, s[1..])
  {
    hide Admits;
    if Admits([t] + rest, s) { var k := FirstPiece(t, rest, s); assert k == 1; }
    if s != "" && Fits(t, s[..1]) && Admits(rest, s[1..]) { AdmitsFirst(t, rest, s, 1); }
  }

  // A wildcard that may take up to n characters.
  lemma AdmitsRun(t: Token, rest: seq<Token>, s: string, n: nat)
    requires n <= |s| && forall k :: 0 <= k <= |s| ==> (Fits(t, s[..k]) <==> k <= n)
    ensures Admits([t] + rest, s) <==> exists k :: 0 <= k <= n && Admits(rest, s[k..])
  {
    hide Admits, Fits;
    if Admits([t] + rest, s) { var k := FirstPiece(t, rest, s); }
    if k: nat :| k <= n && Admits(rest, s[k..]) { AdmitsFirst(t, rest, s, k); }
  }

  // How many leading characters are not slashes.
  method SlashFree(s: string) returns (n: nat)
    ensures n <= |s| && forall k :: 0 <= k <= |s| ==> (Fits(Star, s[..k]) <==> k <= n)
  {
    n := 0;
    while n < |s| && s[n] != '/'
      invariant n <= |s| && '/' !in s[..n]
    {
      assert s[..n + 1] == s[..n] + [s[n]];
      n := n + 1;
    }
    forall k | 0 <= k <= |s|
      ensures '/' !in s[..k] <==> k <= n
    {
      if k <= n {
        assert s[..k] == s[..n][..k];
      } else {
        assert s[..k][n] == '/';
      }
    }
  }

  // match_one
  method MatchOne(pattern: string, str: string) returns (r: bool)
    ensures r <==> Admits(Tokens(pattern), str)
    decreases |pattern|
  {
    hide Admits, Fits;
    var p, s := 0, 0;
    assert pattern[0..] == pattern && str[0..] == str;
    while p < |pattern|
      invariant p <= |pattern| && s <= |str|
      invariant Admits(Tokens(pattern), str) <==> Admits(Tokens(pattern[p..]), str[s..])
      decreases |pattern| - p
    {
      ghost var here, left := pattern[p..], str[s..];
      if pattern[p] == '*' {
        var i;
        p := p + 1;
        ghost var t := Star;
        if p < |pattern| && pattern[p] == '*' {
          p := p + 1;
          i := |str[s..]|;
          t := DoubleStar;
          AnyRun(left);
          assert here[2..] == pattern[p..];
        } else {
          i := SlashFree(str[s..]);
          assert here[1..] == pattern[p..];
        }
        ghost var n := i;
        AdmitsRun(t, Tokens(pattern[p..]), left, n);
        while i >= 0
          invariant -1 <= i <= n
          invariant forall k :: i < k <= n ==> !Admits(Tokens(pattern[p..]), left[k..])
        {
          assert str[s + i..] == left[i..];
          var found := MatchOne(pattern[p..], str[s + i..]);
          if found { return true; }
          i := i - 1;
        }
        return false;
      }
      OneCharacter(here, left);
      if !(pattern[p] == '?' && s < |str|) && !(s < |str| && pattern[p] == str[s]) {
        return false;
      }
      assert here[1..] == pattern[p + 1..] && left[1..] == str[s + 1..];
      p, s := p + 1, s + 1;
    }
    AdmitsNothing(str[s..]);
    return s == |str|;
  }

  lemma AnyRun(s: string)
    ensures forall k :: 0 <= k <= |s| ==> (Fits(DoubleStar, s[..k]) <==> k <= |s|)
  {
  }

  lemma OneCharacter(p: string, s: string)
    requires p != "" && p[0] != '*'
    ensures Admits(Tokens(p), s) <==> s != "" && (p[0] == '?' || p[0] == s[0]) && Admits(Tokens(p[1..]), s[1..])
  {
    hide Admits;
    AdmitsOne(if p[0] == '?' then Any else Lit(p[0]), Tokens(p[1..]), s);
  }

  predicate BarFree(pattern: string, i: nat, j: nat)
    requires i <= j <= |pattern|
  {
    forall k :: i <= k < j ==> pattern[k] != '|'
  }

  // pattern[i..j] is one of the alternatives between bars.
  predicate Alternative(pattern: string, i: nat, j: nat) {
    && i <= j <= |pattern| && BarFree(pattern, i, j)
    && (i == 0 || pattern[i - 1] == '|') && (j == |pattern| || pattern[j] == '|')
  }

  // The next bar, or the end when there is none.
  method FindBar(pattern: string, from: nat) returns (j: nat)
    requires from <= |pattern|
    ensures from <= j <= |pattern| && BarFree(pattern, from, j) && (j < |pattern| ==> pattern[j] == '|')
  {
    j := from;
    while j < |pattern| && pattern[j] != '|'
      invariant from <= j <= |pattern| && BarFree(pattern, from, j)
    {
      j := j + 1;
    }
  }

  // match
  method Match(pattern: string, str: string) returns (r: bool)
    ensures r <==> exists i: nat, j: nat :: Alternative(pattern, i, j) && Admits(Tokens(pattern[i..j]), str)
  {
    hide Admits, Tokens;
    var from: nat := 0;
    while true
      invariant from <= |pattern| && (from == 0 || pattern[from - 1] == '|')
      invariant forall i: nat, j: nat :: Alternative(pattern, i, j) && i < from ==> !Admits(Tokens(pattern[i..j]), str)
      decreases |pattern| - from
    {
      var bar := FindBar(pattern, from);
      assert Alternative(pattern, from, bar);
      var found := MatchOne(pattern[from..bar], str);
      if found { return true; }
      // No other alternative starts within this one.
      assert forall i: nat, j: nat :: Alternative(pattern, i, j) && from <= i <= bar ==> i == from && j == bar;
      if bar == |pattern| { return false; }
      from := bar + 1;
    }
  }
}
