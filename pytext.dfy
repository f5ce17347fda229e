/**
 * The few Python string operations the rename rules rely on: `str.strip()`,
 * `str.startswith()` and `str.split()` with no argument.  A text line is a
 * `string`, that is a `seq<char>`.
 */
module PyText {

  /**
   * The characters Python counts as whitespace (`str.isspace`).  The same set
   * is used by `str.strip()`, by `str.split()` and by `\s` in a `re` pattern
   * over `str`.
   */
  predicate IsSpace(c: char) {
    || ('\t' <= c <= '\r')
    || ('\U{1C}' <= c <= '\U{1F}')
    || c == ' '
    || c == '\U{85}'
    || c == '\U{A0}'
    || c == '\U{1680}'
    || ('\U{2000}' <= c <= '\U{200A}')
    || c == '\U{2028}'
    || c == '\U{2029}'
    || c == '\U{202F}'
    || c == '\U{205F}'
    || c == '\U{3000}'
  }

  /** `\w` of a `re` pattern, restricted to ASCII letters, digits and `_`. */
  predicate IsWordChar(c: char) {
    ('a' <= c <= 'z') || ('A' <= c <= 'Z') || ('0' <= c <= '9') || c == '_'
  }

  predicate AllSpace(s: string) {
    forall i :: 0 <= i < |s| ==> IsSpace(s[i])
  }

  predicate AllWord(s: string) {
    forall i :: 0 <= i < |s| ==> IsWordChar(s[i])
  }

  predicate NoSpace(s: string) {
    forall i :: 0 <= i < |s| ==> !IsSpace(s[i])
  }

  /** Number of whitespace characters at the start of `s`. */
  function LeadingSpaces(s: string): (n: nat)
    ensures n <= |s|
  {
    if s != [] && IsSpace(s[0]) then 1 + LeadingSpaces(s[1..]) else 0
  }

  /** Everything `LeadingSpaces` counts is whitespace. */
  lemma {:induction false} LeadingSpacesAreSpaces(s: string)
    ensures AllSpace(s[..LeadingSpaces(s)])
  {
    if s != [] && IsSpace(s[0]) {
      LeadingSpacesAreSpaces(s[1..]);
      assert s[..LeadingSpaces(s)] == [s[0]] + s[1..][..LeadingSpaces(s[1..])];
    }
  }

  /** `s.lstrip()`. */
  function TrimLeft(s: string): (t: string)
    ensures |t| <= |s|
  {
    if s != [] && IsSpace(s[0]) then TrimLeft(s[1..]) else s
  }

  /** `s.rstrip()`. */
  function TrimRight(s: string): (t: string)
    ensures |t| <= |s|
  {
    if s != [] && IsSpace(s[|s| - 1]) then TrimRight(s[..|s| - 1]) else s
  }

  /**
   * Python's `str.strip` with no argument: whitespace removed at both ends, so
   * that what remains neither starts nor ends with whitespace.
   */
  function Strip(s: string): (t: string)
    ensures t == [] || (!IsSpace(t[0]) && !IsSpace(t[|t| - 1]))
  {
    TrimLeftStops(s);
    TrimRightIsPrefix(TrimLeft(s));
    TrimRight(TrimLeft(s))
  }

  /** Python's `str.startswith`. */
  predicate StartsWith(s: string, p: string) {
    |p| <= |s| && s[..|p|] == p
  }

  /** Length of the leading run of non-whitespace characters of `s`. */
  function TokenLen(s: string): (n: nat)
    ensures n <= |s|
  {
    if s == [] || IsSpace(s[0]) then 0 else 1 + TokenLen(s[1..])
  }

  /** A token holds no whitespace. */
  lemma {:induction false} TokenHasNoSpace(s: string)
    ensures NoSpace(s[..TokenLen(s)])
  {
    if s != [] && !IsSpace(s[0]) {
      TokenHasNoSpace(s[1..]);
      assert s[..TokenLen(s)] == [s[0]] + s[1..][..TokenLen(s[1..])];
    }
  }

  /** Python's `str.split` with no argument: the maximal runs of non-whitespace characters, in order. */
  function Split(s: string): (tokens: seq<string>)
    decreases |s|
  {
    var t := TrimLeft(s);
    if t == [] then []
    else
      TrimLeftStops(s);
      var n := TokenLen(t);
      [t[..n]] + Split(t[n..])
  }

  /** `s.lstrip()` is what remains of `s` after its leading whitespace. */
  lemma {:induction false} TrimLeftIsDrop(s: string)
    ensures TrimLeft(s) == s[LeadingSpaces(s)..]
  {
    if s != [] && IsSpace(s[0]) {
      TrimLeftIsDrop(s[1..]);
    }
  }

  /** `s.lstrip()` is empty or starts with a character that is not whitespace. */
  lemma {:induction false} TrimLeftStops(s: string)
    ensures TrimLeft(s) == [] || !IsSpace(TrimLeft(s)[0])
  {
    if s != [] && IsSpace(s[0]) {
      TrimLeftStops(s[1..]);
    }
  }

  /** `s.lstrip()` keeps every character from the first non-whitespace one on. */
  lemma {:induction false} TrimLeftKeeps(s: string, i: nat)
    requires i < |s| && !IsSpace(s[i])
    ensures |TrimLeft(s)| >= |s| - i
  {
    if IsSpace(s[0]) {
      TrimLeftKeeps(s[1..], i - 1);
    }
  }

  /** Leading whitespace is dropped and the rest kept, up to its first non-whitespace character. */
  lemma {:induction false} TrimLeftSkipsSpaces(ws: string, u: string)
    requires AllSpace(ws) && (u == [] || !IsSpace(u[0]))
    ensures TrimLeft(ws + u) == u
  {
    if ws != [] {
      assert (ws + u)[1..] == ws[1..] + u;
      TrimLeftSkipsSpaces(ws[1..], u);
    } else {
      assert ws + u == u;
    }
  }

  /** Whitespace in front of `t` does not change `t.lstrip()`. */
  lemma {:induction false} TrimLeftAppend(ws: string, t: string)
    requires AllSpace(ws)
    ensures TrimLeft(ws + t) == TrimLeft(t)
  {
    if ws != [] {
      assert (ws + t)[1..] == ws[1..] + t;
      TrimLeftAppend(ws[1..], t);
    } else {
      assert ws + t == t;
    }
  }

  /** `s.rstrip()` is a prefix of `s`, empty or ending in a character that is not whitespace. */
  lemma {:induction false} TrimRightIsPrefix(s: string)
    ensures TrimRight(s) == s[..|TrimRight(s)|]
    ensures TrimRight(s) == [] || !IsSpace(TrimRight(s)[|TrimRight(s)| - 1])
  {
    if s != [] && IsSpace(s[|s| - 1]) {
      TrimRightIsPrefix(s[..|s| - 1]);
    }
  }

  /** `s.rstrip()` keeps every character up to the last non-whitespace one. */
  lemma {:induction false} TrimRightKeeps(s: string, i: nat)
    requires i < |s| && !IsSpace(s[i])
    ensures |TrimRight(s)| > i
  {
    if IsSpace(s[|s| - 1]) {
      assert s[..|s| - 1][i] == s[i];
      TrimRightKeeps(s[..|s| - 1], i);
    }
  }

  /** Every token of `Split(s)` is non-empty and holds no whitespace. */
  lemma {:induction false} SplitTokens(s: string)
    ensures forall k :: 0 <= k < |Split(s)| ==> Split(s)[k] != [] && NoSpace(Split(s)[k])
    decreases |s|
  {
    var t := TrimLeft(s);
    if t != [] {
      TrimLeftStops(s);
      var n := TokenLen(t);
      TokenHasNoSpace(t);
      SplitTokens(t[n..]);
    }
  }

  /** The leading token of `kw + u` is `kw` when `u` is empty or starts with whitespace. */
  lemma {:induction false} TokenLenOfToken(kw: string, u: string)
    requires NoSpace(kw) && (u == [] || IsSpace(u[0]))
    ensures TokenLen(kw + u) == |kw|
  {
    if kw != [] {
      assert (kw + u)[1..] == kw[1..] + u;
      TokenLenOfToken(kw[1..], u);
    }
  }

  /** Whitespace in front of `t` adds to its count of leading whitespace. */
  lemma {:induction false} LeadingSpacesAppend(ws: string, t: string)
    requires AllSpace(ws)
    ensures LeadingSpaces(ws + t) == |ws| + LeadingSpaces(t)
  {
    if ws != [] {
      assert (ws + t)[1..] == ws[1..] + t;
      assert IsSpace((ws + t)[0]);
      LeadingSpacesAppend(ws[1..], t);
    } else {
      assert ws + t == t;
    }
  }

  /** Leading whitespace stops at the first character that is not whitespace. */
  lemma {:induction false} LeadingSpacesStop(s: string, i: nat)
    requires i < |s| && !IsSpace(s[i])
    ensures LeadingSpaces(s) <= i
  {
    if i > 0 && IsSpace(s[0]) {
      LeadingSpacesStop(s[1..], i - 1);
    }
  }

  /** A string of whitespace in front of `t` does not change how `t` splits. */
  lemma SplitSkipsSpaces(ws: string, t: string)
    requires AllSpace(ws)
    ensures Split(ws + t) == Split(t)
  {
    TrimLeftAppend(ws, t);
  }

  /** Splitting `s` and splitting `s.lstrip()` give the same tokens. */
  lemma SplitOfTrimLeft(s: string)
    ensures Split(TrimLeft(s)) == Split(s)
  {
    TrimLeftStops(s);
    if TrimLeft(s) != [] {
      assert TrimLeft(TrimLeft(s)) == TrimLeft(s);
    }
  }

  /** A string with a non-whitespace character splits into at least one token. */
  lemma SplitNonEmpty(s: string, i: nat)
    requires i < |s| && !IsSpace(s[i])
    ensures Split(s) != []
  {
    TrimLeftKeeps(s, i);
  }

  /**
   * Splitting a token `kw` followed by `u`, where `u` is empty or starts with
   * whitespace, gives `kw` followed by the tokens of `u`.
   */
  lemma SplitLeadingToken(kw: string, u: string)
    requires kw != [] && NoSpace(kw)
    requires u == [] || IsSpace(u[0])
    ensures Split(kw + u) == [kw] + Split(u)
  {
    assert !IsSpace((kw + u)[0]);
    assert TrimLeft(kw + u) == kw + u;
    TokenLenOfToken(kw, u);
    assert (kw + u)[..|kw|] == kw && (kw + u)[|kw|..] == u;
  }

  /**
   * A line whose stripped text starts with a keyword token followed by a space
   * splits into at least two tokens, the first of which is the keyword: this
   * is why looking up the second token cannot fail on such a line.
   */
  lemma KeywordLineTokens(line: string, kw: string)
    requires kw != [] && NoSpace(kw)
    requires StartsWith(Strip(line), kw + " ")
    ensures |Split(line)| >= 2 && Split(line)[0] == kw
  {
    var t := TrimLeft(line);
    var r := TrimRight(t);
    TrimRightIsPrefix(t);
    var m := |r|;
    assert r[..|kw| + 1] == kw + " ";
    assert r[|kw|] == ' ';
    var rest := t[|kw|..];
    assert t == kw + rest;
    assert rest[m - 1 - |kw|] == r[m - 1];
    SplitLeadingToken(kw, rest);
    SplitNonEmpty(rest, m - 1 - |kw|);
    SplitOfTrimLeft(line);
  }

  /**
   * A line made of whitespace, a keyword, a space (then possibly more
   * whitespace) and a non-whitespace character passes the test that
   * the stripped line starts with `kw` and a space.
   */
  lemma KeywordHeaderLine(kw: string, ws: string, sp: string, t: string)
    requires kw != [] && !IsSpace(kw[0])
    requires AllSpace(ws) && sp != [] && sp[0] == ' ' && AllSpace(sp)
    requires t != [] && !IsSpace(t[0])
    ensures StartsWith(Strip(ws + kw + sp + t), kw + " ")
  {
    var u := kw + sp + t;
    assert ws + kw + sp + t == ws + u;
    TrimLeftSkipsSpaces(ws, u);
    assert u[|kw| + |sp|] == t[0];
    TrimRightKeeps(u, |kw| + |sp|);
    TrimRightIsPrefix(u);
    assert Strip(ws + u)[..|kw| + 1] == u[..|kw| + 1] == kw + " ";
  }

  /**
   * A line made of whitespace, a keyword that starts and ends with a
   * non-whitespace character, and anything after it passes the test that
   * the stripped line starts with `kw`.
   */
  lemma KeywordPrefixLine(kw: string, ws: string, t: string)
    requires kw != [] && !IsSpace(kw[0]) && !IsSpace(kw[|kw| - 1])
    requires AllSpace(ws)
    ensures StartsWith(Strip(ws + kw + t), kw)
  {
    var u := kw + t;
    assert ws + kw + t == ws + u;
    TrimLeftSkipsSpaces(ws, u);
    assert u[|kw| - 1] == kw[|kw| - 1];
    TrimRightKeeps(u, |kw| - 1);
    TrimRightIsPrefix(u);
    assert Strip(ws + u)[..|kw|] == u[..|kw|] == kw;
  }

  /** A string of whitespace splits into no tokens. */
  lemma SplitOfSpaces(ws: string)
    requires AllSpace(ws)
    ensures Split(ws) == []
  {
    TrimLeftAppend(ws, []);
    assert ws + [] == ws;
  }

  /** A token alone on its line, between whitespace, strips to itself and splits into one token. */
  lemma LoneTokenLine(kw: string, ws: string, trail: string)
    requires kw != [] && NoSpace(kw)
    requires AllSpace(ws) && AllSpace(trail)
    ensures StartsWith(Strip(ws + kw + trail), kw)
    ensures Split(ws + kw + trail) == [kw]
  {
    KeywordPrefixLine(kw, ws, trail);
    assert ws + kw + trail == ws + (kw + trail);
    SplitSkipsSpaces(ws, kw + trail);
    SplitLeadingToken(kw, trail);
    SplitOfSpaces(trail);
  }

  /** Leading whitespace does not change what a line strips to. */
  lemma StripSkipsSpaces(ws: string, c: char, t: string)
    requires AllSpace(ws) && !IsSpace(c)
    ensures StartsWith(Strip(ws + [c] + t), [c])
  {
    TrimLeftSkipsSpaces(ws, [c] + t);
    assert ws + [c] + t == ws + ([c] + t);
    TrimRightKeeps([c] + t, 0);
    TrimRightIsPrefix([c] + t);
  }
}
