/**
 * The substitution `re.sub(KW + r"\s+\w+", KW + " " + name, line)` that each
 * rename rule applies to a line: every non-overlapping match of the keyword,
 * one or more whitespace characters and one or more word characters, found
 * left to right, is replaced by the keyword, one space and the new name.
 */
module KeywordSub {
  import opened Wrappers
  import opened PyText

  /** Length of the leading run of word characters of `s`. */
  function WordRun(s: string): (n: nat)
    ensures n <= |s|
  {
    if s != [] && IsWordChar(s[0]) then 1 + WordRun(s[1..]) else 0
  }

  /** Everything `WordRun` counts is a word character. */
  lemma {:induction false} WordRunIsWord(s: string)
    ensures AllWord(s[..WordRun(s)])
  {
    if s != [] && IsWordChar(s[0]) {
      WordRunIsWord(s[1..]);
      assert s[..WordRun(s)] == [s[0]] + s[1..][..WordRun(s[1..])];
    }
  }

  /**
   * The length of the match of `KW\s+\w+` anchored at the start of `s`, as
   * Python's backtracking matcher finds it: both repetitions are greedy.
   */
  function MatchLen(kw: string, s: string): (m: Option<nat>)
    ensures m.Some? ==> StartsWith(s, kw) && |kw| + 2 <= m.value <= |s|
  {
    if !StartsWith(s, kw) then None
    else
      var a := LeadingSpaces(s[|kw|..]);
      var b := WordRun(s[|kw| + a..]);
      if a == 0 || b == 0 then None else Some(|kw| + a + b)
  }

  /**
   * `s` begins with a match of `KW\s+\w+` that is `n` characters long: the
   * keyword, then whitespace up to some position `a`, then word characters
   * up to `n`.
   */
  ghost predicate MatchesWithLength(kw: string, s: string, n: nat) {
    && StartsWith(s, kw)
    && n <= |s|
    && exists a :: |kw| < a < n && AllSpace(s[|kw|..a]) && AllWord(s[a..n])
  }

  /** Word characters are never whitespace, so `\s+\w+` cannot backtrack into a shorter match. */
  lemma WordIsNotSpace(c: char)
    requires IsWordChar(c)
    ensures !IsSpace(c)
  {
  }

  lemma {:induction false} WordRunAtLeast(s: string, n: nat)
    requires n <= |s| && AllWord(s[..n])
    ensures WordRun(s) >= n
  {
    if n > 0 {
      assert IsWordChar(s[..n][0]);
      assert s[1..][..n - 1] == s[..n][1..];
      WordRunAtLeast(s[1..], n - 1);
    }
  }

  lemma {:induction false} WordRunStop(s: string, i: nat)
    requires i < |s| && !IsWordChar(s[i])
    ensures WordRun(s) <= i
  {
    if i > 0 && IsWordChar(s[0]) {
      WordRunStop(s[1..], i - 1);
    }
  }

  lemma {:induction false} LeadingSpacesAtLeast(s: string, n: nat)
    requires n <= |s| && AllSpace(s[..n])
    ensures LeadingSpaces(s) >= n
  {
    if n > 0 {
      assert IsSpace(s[..n][0]);
      assert s[1..][..n - 1] == s[..n][1..];
      LeadingSpacesAtLeast(s[1..], n - 1);
    }
  }

  /**
   * `MatchLen` finds a match exactly when one exists, and the one it finds
   * is the longest: this is the match `re.sub` replaces at that position.
   */
  lemma MatchLenIsLongestMatch(kw: string, s: string)
    ensures MatchLen(kw, s).Some? <==> exists n: nat :: MatchesWithLength(kw, s, n)
    ensures MatchLen(kw, s).Some? ==> MatchesWithLength(kw, s, MatchLen(kw, s).value)
    ensures forall n: nat :: MatchesWithLength(kw, s, n) ==> n <= MatchLen(kw, s).value
  {
    if MatchLen(kw, s).Some? {
      MatchLenMatches(kw, s);
    }
    forall n: nat | MatchesWithLength(kw, s, n)
      ensures MatchLen(kw, s).Some? && n <= MatchLen(kw, s).value
    {
      MatchNoLongerThanMatchLen(kw, s, n);
    }
  }

  lemma MatchLenMatches(kw: string, s: string)
    requires MatchLen(kw, s).Some?
    ensures MatchesWithLength(kw, s, MatchLen(kw, s).value)
  {
    var tail := s[|kw|..];
    var la := LeadingSpaces(tail);
    var a := |kw| + la;
    var lb := WordRun(s[a..]);
    LeadingSpacesAreSpaces(tail);
    WordRunIsWord(s[a..]);
    assert s[|kw|..a] == tail[..la];
    assert s[a..a + lb] == s[a..][..lb];
  }

  lemma MatchNoLongerThanMatchLen(kw: string, s: string, n: nat)
    requires MatchesWithLength(kw, s, n)
    ensures MatchLen(kw, s).Some? && n <= MatchLen(kw, s).value
  {
    var tail := s[|kw|..];
    var a :| |kw| < a < n && AllSpace(s[|kw|..a]) && AllWord(s[a..n]);
    assert s[|kw|..a] == tail[..a - |kw|];
    LeadingSpacesAtLeast(tail, a - |kw|);
    assert IsWordChar(s[a..n][0]);
    WordIsNotSpace(s[a]);
    assert tail[a - |kw|] == s[a];
    LeadingSpacesStop(tail, a - |kw|);
    assert LeadingSpaces(tail) == a - |kw|;
    assert s[a..][..n - a] == s[a..n];
    WordRunAtLeast(s[a..], n - a);
  }

  /**
   * Substitution of every `kw`, whitespace, word-character run in `s` by `kw`,
   * one space and `name`: matches are taken left to right, each as long as
   * possible, and never overlap.
   */
  function ReplaceAll(kw: string, s: string, name: string): string
    decreases |s|
  {
    if s == [] then []
    else
      match MatchLen(kw, s)
      case Some(n) => kw + " " + name + ReplaceAll(kw, s[n..], name)
      case None => [s[0]] + ReplaceAll(kw, s[1..], name)
  }

  /** The keyword occurs in `s` at position `i`. */
  predicate OccursAt(kw: string, s: string, i: nat) {
    i + |kw| <= |s| && s[i..i + |kw|] == kw
  }

  /** The keyword occurs somewhere in `s`. */
  predicate Occurs(kw: string, s: string) {
    exists i: nat | i <= |s| :: OccursAt(kw, s, i)
  }

  /** A keyword whose first character is absent from `s` does not occur in `s`. */
  lemma AbsentFirstChar(kw: string, s: string)
    requires kw != [] && kw[0] !in s
    ensures !Occurs(kw, s)
  {
    forall i: nat | OccursAt(kw, s, i)
      ensures s[i] in s
    {
    }
  }

  /** A line in which the keyword does not occur is copied unchanged. */
  lemma {:induction false} ReplaceAllWithoutKeyword(kw: string, s: string, name: string)
    requires !Occurs(kw, s)
    ensures ReplaceAll(kw, s, name) == s
  {
    if s != [] {
      assert !OccursAt(kw, s, 0);
      assert !Occurs(kw, s[1..]) by {
        forall i: nat | OccursAt(kw, s[1..], i)
          ensures OccursAt(kw, s, i + 1)
        {
          assert s[1..][i..i + |kw|] == s[i + 1..i + 1 + |kw|];
        }
      }
      ReplaceAllWithoutKeyword(kw, s[1..], name);
    }
  }

  /** No match can start inside leading whitespace when the keyword does not start with whitespace. */
  lemma {:induction false} ReplaceAllSkipsSpaces(kw: string, ws: string, t: string, name: string)
    requires kw != [] && !IsSpace(kw[0])
    requires AllSpace(ws)
    ensures ReplaceAll(kw, ws + t, name) == ws + ReplaceAll(kw, t, name)
  {
    if ws == [] {
      assert ws + t == t;
    } else {
      var s := ws + t;
      assert s[0] == ws[0];
      assert !StartsWith(s, kw) by {
        if |kw| <= |s| {
          assert s[..|kw|][0] == ws[0];
        }
      }
      assert MatchLen(kw, s) == None;
      assert s[1..] == ws[1..] + t;
      var r := ReplaceAll(kw, t, name);
      assert ws + r == [ws[0]] + (ws[1..] + r);
      ReplaceAllSkipsSpaces(kw, ws[1..], t, name);
    }
  }

  /**
   * A line `ws KW sp ident rest`, with `sp` whitespace and `ident` a maximal
   * run of word characters, becomes `ws KW name rest'`, where `rest'` is the
   * rest of the line with the same substitution applied.
   */
  lemma ReplaceAllAtDeclaration(kw: string, ws: string, sp: string, ident: string, rest: string, name: string)
    requires kw != [] && !IsSpace(kw[0])
    requires AllSpace(ws) && sp != [] && AllSpace(sp) && ident != [] && AllWord(ident)
    requires rest == [] || !IsWordChar(rest[0])
    ensures ReplaceAll(kw, ws + kw + sp + ident + rest, name) == ws + kw + " " + name + ReplaceAll(kw, rest, name)
  {
    var s := kw + sp + ident + rest;
    var r := ReplaceAll(kw, rest, name);
    assert ws + (kw + " " + name + r) == ws + kw + " " + name + r;
    assert ws + kw + sp + ident + rest == ws + s;
    ReplaceAllSkipsSpaces(kw, ws, s, name);
    ReplaceAllAtMatch(kw, sp, ident, rest, name);
  }

  lemma ReplaceAllAtMatch(kw: string, sp: string, ident: string, rest: string, name: string)
    requires sp != [] && AllSpace(sp) && ident != [] && AllWord(ident)
    requires rest == [] || !IsWordChar(rest[0])
    ensures ReplaceAll(kw, kw + sp + ident + rest, name) == kw + " " + name + ReplaceAll(kw, rest, name)
  {
    var s := kw + sp + ident + rest;
    MatchAtDeclaration(kw, sp, ident, rest);
    assert s[|kw| + |sp| + |ident|..] == rest;
  }

  lemma MatchAtDeclaration(kw: string, sp: string, ident: string, rest: string)
    requires sp != [] && AllSpace(sp) && ident != [] && AllWord(ident)
    requires rest == [] || !IsWordChar(rest[0])
    ensures MatchLen(kw, kw + sp + ident + rest) == Some(|kw| + |sp| + |ident|)
  {
    var s := kw + sp + ident + rest;
    assert s[..|kw|] == kw;
    assert s[|kw|..] == sp + (ident + rest);
    SpacesBeforeWord(sp, ident + rest);
    assert s[|kw| + |sp|..] == ident + rest;
    WordRunExact(ident, rest);
    MatchLenOfParts(kw, s, |sp|, |ident|);
  }

  /** Leading whitespace that stops at a word character. */
  lemma SpacesBeforeWord(sp: string, t: string)
    requires AllSpace(sp) && t != [] && IsWordChar(t[0])
    ensures LeadingSpaces(sp + t) == |sp|
  {
    WordIsNotSpace(t[0]);
    LeadingSpacesAppend(sp, t);
  }

  /** `MatchLen` from the lengths of its whitespace and word runs. */
  lemma MatchLenOfParts(kw: string, s: string, a: nat, b: nat)
    requires StartsWith(s, kw)
    requires LeadingSpaces(s[|kw|..]) == a > 0
    requires |kw| + a <= |s| && WordRun(s[|kw| + a..]) == b > 0
    ensures MatchLen(kw, s) == Some(|kw| + a + b)
  {
  }

  lemma WordRunExact(ident: string, rest: string)
    requires AllWord(ident)
    requires rest == [] || !IsWordChar(rest[0])
    ensures WordRun(ident + rest) == |ident|
  {
    WordRunAtLeast(ident + rest, |ident|);
    assert (ident + rest)[..|ident|] == ident;
    if rest != [] {
      assert (ident + rest)[|ident|] == rest[0];
      WordRunStop(ident + rest, |ident|);
    }
  }

  /**
   * The substitution keeps a line's leading whitespace and its first
   * non-whitespace character.
   */
  lemma ReplaceAllKeepsLead(kw: string, ws: string, c: char, t: string, name: string)
    requires kw != [] && !IsSpace(kw[0])
    requires AllSpace(ws)
    ensures StartsWith(ReplaceAll(kw, ws + [c] + t, name), ws + [c])
  {
    assert ws + [c] + t == ws + ([c] + t);
    ReplaceAllSkipsSpaces(kw, ws, [c] + t, name);
    var s := [c] + t;
    var r := ReplaceAll(kw, s, name);
    assert r[0] == c by {
      ReplaceAllKeepsFirst(kw, s, name);
    }
    assert (ws + r)[..|ws| + 1] == ws + [c];
  }

  /**
   * The substitution keeps the first character of a non-empty text: a match
   * there starts with the keyword and is replaced by text that starts with it.
   */
  lemma ReplaceAllKeepsFirst(kw: string, s: string, name: string)
    requires kw != [] && s != []
    ensures ReplaceAll(kw, s, name) == [s[0]] + ReplaceAll(kw, s, name)[1..]
  {
    match MatchLen(kw, s)
    case Some(n) =>
      assert s[..|kw|] == kw;
    case None =>
  }

  /**
   * The substitution keeps the first character of a line's stripped text, so
   * it never turns a line into one that starts with another keyword.
   */
  lemma ReplaceAllKeepsStrippedLead(kw: string, line: string, name: string)
    requires kw != [] && !IsSpace(kw[0])
    requires Strip(line) != []
    ensures Strip(ReplaceAll(kw, line, name)) != []
    ensures Strip(ReplaceAll(kw, line, name))[0] == Strip(line)[0]
  {
    var n := LeadingSpaces(line);
    var ws := line[..n];
    assert AllSpace(ws) && n < |line| && !IsSpace(line[n]) by {
      LeadingSpacesAreSpaces(line);
      TrimLeftIsDrop(line);
      TrimLeftStops(line);
    }
    var c := line[n];
    var t := line[n + 1..];
    assert line == ws + [c] + t;
    assert Strip(line)[0] == c by {
      StripSkipsSpaces(ws, c, t);
    }
    var r := ReplaceAll(kw, line, name);
    assert r == ws + [c] + r[n + 1..] by {
      ReplaceAllKeepsLead(kw, ws, c, t, name);
      assert |ws + [c]| == n + 1 <= |r|;
      assert r[..n + 1] == ws + [c];
      assert r == r[..n + 1] + r[n + 1..];
    }
    StripSkipsSpaces(ws, c, r[n + 1..]);
  }

  /**
   * A line whose stripped text starts with `p` does not, once substituted,
   * start with a `q` that begins with another character.
   */
  lemma ReplaceAllKeepsKeywordApart(kw: string, p: string, q: string, line: string, name: string)
    requires kw != [] && !IsSpace(kw[0])
    requires p != [] && q != [] && p[0] != q[0]
    requires StartsWith(Strip(line), p)
    ensures !StartsWith(Strip(ReplaceAll(kw, line, name)), q)
  {
    assert Strip(line)[0] == p[0];
    ReplaceAllKeepsStrippedLead(kw, line, name);
  }
}
