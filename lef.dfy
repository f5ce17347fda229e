/**
 * `update_lef_file`: the abstraction (LEF) file is read as a list of lines
 * and rewritten in one pass that carries the macro name captured from the
 * most recent `MACRO` line.  A `MACRO` line is renamed and sets the captured
 * name; an `END` or `FOREIGN` line whose second token is the captured name is
 * renamed; every other line is copied.
 */
module LefMacro {
  import opened Wrappers
  import opened PyText
  import opened KeywordSub

  const MACRO_KEYWORD := "MACRO"
  const END_KEYWORD := "END"
  const FOREIGN_KEYWORD := "FOREIGN"

  /** The stripped line starts with `MACRO` and a space. */
  predicate IsMacroLine(line: string) {
    StartsWith(Strip(line), MACRO_KEYWORD + " ")
  }

  /** The stripped line starts with `END` and a space. */
  predicate IsEndLine(line: string) {
    StartsWith(Strip(line), END_KEYWORD + " ")
  }

  /** The stripped line starts with `FOREIGN`; no space is asked for after the keyword. */
  predicate IsForeignLine(line: string) {
    StartsWith(Strip(line), FOREIGN_KEYWORD)
  }

  /** A `FOREIGN` line with a single token, whose second token does not exist, so looking it up raises `IndexError`. */
  predicate BareForeign(line: string) {
    IsForeignLine(line) && |Split(line)| < 2
  }

  /** The second whitespace-separated token of a `MACRO` line: the macro name it declares. */
  function MacroName(line: string): string
    requires IsMacroLine(line)
  {
    KeywordLineTokens(line, MACRO_KEYWORD);
    Split(line)[1]
  }

  /** The second whitespace-separated token of an `END` line. */
  function EndName(line: string): string
    requires IsEndLine(line)
  {
    KeywordLineTokens(line, END_KEYWORD);
    Split(line)[1]
  }

  /**
   * The name captured from the last `MACRO` line among the first `n` lines,
   * or `""` when there is none: the value of `old_name` before line `n`.
   */
  function LastMacroName(lines: seq<string>, n: nat): string
    requires n <= |lines|
  {
    if n == 0 then ""
    else if IsMacroLine(lines[n - 1]) then MacroName(lines[n - 1])
    else LastMacroName(lines, n - 1)
  }

  /**
   * The line written for `line` when `captured` is the name from the most
   * recent `MACRO` line before it.
   */
  function ExpectedLine(line: string, captured: string, newName: string): string {
    if IsMacroLine(line) then ReplaceAll(MACRO_KEYWORD, line, newName)
    else if IsEndLine(line) && EndName(line) == captured then ReplaceAll(END_KEYWORD, line, newName)
    else if IsForeignLine(line) && |Split(line)| >= 2 && Split(line)[1] == captured then ReplaceAll(FOREIGN_KEYWORD, line, newName)
    else line
  }

  /** The first `n` lines written for `lines`. */
  function ExpectedLines(lines: seq<string>, n: nat, newName: string): (out: seq<string>)
    requires n <= |lines|
    ensures |out| == n
  {
    if n == 0 then []
    else ExpectedLines(lines, n - 1, newName) + [ExpectedLine(lines[n - 1], LastMacroName(lines, n - 1), newName)]
  }

  /** Line `j` of the output is written from line `j` of the input and the name captured before it. */
  lemma {:induction false} ExpectedLinesAt(lines: seq<string>, n: nat, newName: string, j: nat)
    requires j < n <= |lines|
    ensures ExpectedLines(lines, n, newName)[j] == ExpectedLine(lines[j], LastMacroName(lines, j), newName)
  {
    if j < n - 1 {
      ExpectedLinesAt(lines, n - 1, newName, j);
    } else {
      assert j == n - 1;
    }
  }

  /** For each line, whether it is a bare `FOREIGN` line. */
  function BareFlags(lines: seq<string>): (flags: seq<bool>)
    ensures |flags| == |lines|
  {
    seq(|lines|, i requires 0 <= i < |lines| => BareForeign(lines[i]))
  }

  /** Some flag is set exactly when some line is a bare `FOREIGN` line. */
  lemma BareFlagsMeaning(lines: seq<string>)
    ensures true in BareFlags(lines) <==> exists i :: 0 <= i < |lines| && BareForeign(lines[i])
  {
    var flags := BareFlags(lines);
    if true in flags {
      var i :| 0 <= i < |flags| && flags[i];
      assert BareForeign(lines[i]);
    }
    if exists i :: 0 <= i < |lines| && BareForeign(lines[i]) {
      var i :| 0 <= i < |lines| && BareForeign(lines[i]);
      assert flags[i];
    }
  }

  /** Index of the first set flag at or after `from`, or `|flags|` when there is none. */
  function FirstSet(flags: seq<bool>, from: nat): (k: nat)
    requires from <= |flags|
    ensures from <= k <= |flags|
    ensures k < |flags| ==> flags[k]
    ensures forall i :: from <= i < k ==> !flags[i]
    decreases |flags| - from
  {
    if from == |flags| then from
    else if flags[from] then from
    else FirstSet(flags, from + 1)
  }

  /** `FirstSet` is characterised by its three postconditions. */
  lemma {:induction false} FirstSetIs(flags: seq<bool>, from: nat, k: nat)
    requires from <= k <= |flags|
    requires k < |flags| ==> flags[k]
    requires forall i :: from <= i < k ==> !flags[i]
    ensures FirstSet(flags, from) == k
    decreases k - from
  {
    if from < k {
      FirstSetIs(flags, from + 1, k);
    }
  }

  /**
   * `update_lef_file` stops with `IndexError` at a bare `FOREIGN` line; the
   * lines before it have already been written to the output file.
   */
  datatype LefError = ForeignWithoutName(lineIndex: nat, written: seq<string>)

  /** What `update_lef_file` writes for `lines`, or the error it stops with. */
  function LefRewrite(lines: seq<string>, newName: string): (r: Result<seq<string>, LefError>)
    ensures r.Failure? <==> true in BareFlags(lines)
    ensures r.Success? ==> |r.value| == |lines|
    ensures r.Failure? ==> r.error.lineIndex < |lines| && BareForeign(lines[r.error.lineIndex])
                           && |r.error.written| == r.error.lineIndex
  {
    var flags := BareFlags(lines);
    var k := FirstSet(flags, 0);
    if k < |lines| then Failure(ForeignWithoutName(k, ExpectedLines(lines, k, newName)))
    else Success(ExpectedLines(lines, |lines|, newName))
  }

  /** Keyword lines are told apart by the first character of their stripped text. */
  lemma KeywordLinesDiffer(line: string)
    ensures IsMacroLine(line) ==> !IsEndLine(line) && !IsForeignLine(line)
    ensures IsEndLine(line) ==> !IsForeignLine(line)
  {
    if IsMacroLine(line) {
      assert Strip(line)[0] == 'M';
    }
    if IsEndLine(line) {
      assert Strip(line)[0] == 'E';
    }
  }

  /** Renaming a `MACRO` line leaves a line that is neither an `END` nor a `FOREIGN` line. */
  lemma RenamedMacroLine(line: string, newName: string)
    requires IsMacroLine(line)
    ensures var r := ReplaceAll(MACRO_KEYWORD, line, newName); !IsEndLine(r) && !IsForeignLine(r)
  {
    ReplaceAllKeepsKeywordApart(MACRO_KEYWORD, MACRO_KEYWORD + " ", END_KEYWORD + " ", line, newName);
    ReplaceAllKeepsKeywordApart(MACRO_KEYWORD, MACRO_KEYWORD + " ", FOREIGN_KEYWORD, line, newName);
  }

  /** Renaming an `END` line leaves a line that is not a `FOREIGN` line. */
  lemma RenamedEndLine(line: string, newName: string)
    requires IsEndLine(line)
    ensures !IsForeignLine(ReplaceAll(END_KEYWORD, line, newName))
  {
    ReplaceAllKeepsKeywordApart(END_KEYWORD, END_KEYWORD + " ", FOREIGN_KEYWORD, line, newName);
  }

  /**
   * One pass of the loop body of `update_lef_file` over `line`, with
   * `oldName` the name captured so far: the `MACRO`, `END` and `FOREIGN`
   * tests run in turn, each seeing the line as the earlier ones left it.
   * `ok` is false where looking up the second token raises `IndexError`.
   */
  method RewriteLine(line: string, oldName: string, newName: string) returns (ok: bool, written: string, captured: string)
    ensures ok <==> !BareForeign(line)
    ensures ok ==> written == ExpectedLine(line, oldName, newName)
    ensures captured == if IsMacroLine(line) then MacroName(line) else oldName
  {
    KeywordLinesDiffer(line);
    written, captured := line, oldName;
    if IsMacroLine(written) {
      captured := MacroName(written);
      RenamedMacroLine(written, newName);
      written := ReplaceAll(MACRO_KEYWORD, written, newName);
    }
    if IsEndLine(written) {
      if EndName(written) == captured {
        RenamedEndLine(written, newName);
        written := ReplaceAll(END_KEYWORD, written, newName);
      }
    }
    if IsForeignLine(written) {
      var tokens := Split(written);
      if |tokens| < 2 {
        return false, written, captured;
      }
      if tokens[1] == captured {
        written := ReplaceAll(FOREIGN_KEYWORD, written, newName);
      }
    }
    ok := true;
  }

  /** One line of the loop: the invariants of `UpdateLefFile` carry over to the next line. */
  lemma LoopStep(lines: seq<string>, i: nat, newName: string, oldName: string, line: string, captured: string)
    requires i < |lines|
    requires oldName == LastMacroName(lines, i)
    requires line == ExpectedLine(lines[i], oldName, newName)
    requires captured == if IsMacroLine(lines[i]) then MacroName(lines[i]) else oldName
    ensures captured == LastMacroName(lines, i + 1)
    ensures ExpectedLines(lines, i + 1, newName) == ExpectedLines(lines, i, newName) + [line]
  {
  }

  /** The flags of one more line. */
  lemma BareFlagsStep(lines: seq<string>, i: nat)
    requires i < |lines|
    ensures BareFlags(lines[..i + 1]) == BareFlags(lines[..i]) + [BareForeign(lines[i])]
  {
  }

  /** `LefRewrite` when the first bare `FOREIGN` line is at `i`. */
  lemma LefRewriteStopsAt(lines: seq<string>, i: nat, newName: string)
    requires i < |lines| && BareForeign(lines[i])
    requires true !in BareFlags(lines[..i])
    ensures LefRewrite(lines, newName) == Failure(ForeignWithoutName(i, ExpectedLines(lines, i, newName)))
  {
    assert BareFlags(lines[..i]) == BareFlags(lines)[..i];
    FirstSetIs(BareFlags(lines), 0, i);
  }

  /** `LefRewrite` when no line is a bare `FOREIGN` line. */
  lemma LefRewriteCompletes(lines: seq<string>, newName: string)
    requires true !in BareFlags(lines)
    ensures LefRewrite(lines, newName) == Success(ExpectedLines(lines, |lines|, newName))
  {
    FirstSetIs(BareFlags(lines), 0, |lines|);
  }

  /**
   * The loop of `update_lef_file`: `oldName` starts empty and is carried
   * from line to line; each line is written as it is rewritten, so a failure
   * leaves the lines before it in the output.
   */
  method UpdateLefFile(lines: seq<string>, newName: string) returns (r: Result<seq<string>, LefError>)
    ensures r == LefRewrite(lines, newName)
  {
    var oldName := "";
    var written := [];
    var i := 0;
    assert lines[..0] == [];
    while i < |lines|
      invariant i <= |lines|
      invariant oldName == LastMacroName(lines, i)
      invariant true !in BareFlags(lines[..i])
      invariant written == ExpectedLines(lines, i, newName)
    {
      var ok, line, captured := RewriteLine(lines[i], oldName, newName);
      if !ok {
        LefRewriteStopsAt(lines, i, newName);
        return Failure(ForeignWithoutName(i, written));
      }
      LoopStep(lines, i, newName, oldName, line, captured);
      BareFlagsStep(lines, i);
      written := written + [line];
      oldName := captured;
      i := i + 1;
    }
    assert lines[..i] == lines;
    LefRewriteCompletes(lines, newName);
    return Success(written);
  }

  /**
   * Line `i` of what is written, whether the pass completes or stops at a
   * later line, is line `i` rewritten with the name captured before it.
   */
  lemma LefOutputLine(lines: seq<string>, newName: string, i: nat)
    requires i < |lines|
    ensures var r := LefRewrite(lines, newName);
            var expected := ExpectedLine(lines[i], LastMacroName(lines, i), newName);
            && (r.Success? ==> r.value[i] == expected)
            && (r.Failure? && i < r.error.lineIndex ==> r.error.written[i] == expected)
  {
    var r := LefRewrite(lines, newName);
    if r.Success? {
      ExpectedLinesAt(lines, |lines|, newName, i);
    } else if i < r.error.lineIndex {
      ExpectedLinesAt(lines, r.error.lineIndex, newName, i);
    }
  }

  /** With no `MACRO` line among the first `i` lines, the captured name is still `""`. */
  lemma {:induction false} LastMacroNameBeforeAnyMacro(lines: seq<string>, i: nat)
    requires i <= |lines|
    requires forall k :: 0 <= k < i ==> !IsMacroLine(lines[k])
    ensures LastMacroName(lines, i) == ""
  {
    if i > 0 {
      LastMacroNameBeforeAnyMacro(lines, i - 1);
    }
  }

  /**
   * The captured name is that of the most recent `MACRO` line: a later
   * `MACRO` line replaces the name captured by an earlier one.
   */
  lemma {:induction false} LastMacroNameIsMostRecent(lines: seq<string>, m: nat, i: nat)
    requires m < i <= |lines|
    requires IsMacroLine(lines[m])
    requires forall k :: m < k < i ==> !IsMacroLine(lines[k])
    ensures LastMacroName(lines, i) == MacroName(lines[m])
  {
    if i > m + 1 {
      LastMacroNameIsMostRecent(lines, m, i - 1);
    }
  }

  /**
   * While nothing has been captured, no line other than a `MACRO` line is
   * changed: every whitespace-split token is non-empty, so none equals `""`.
   */
  lemma UncapturedLineKept(line: string, newName: string)
    requires !IsMacroLine(line)
    ensures ExpectedLine(line, "", newName) == line
  {
    SplitTokens(line);
    if IsEndLine(line) {
      KeywordLineTokens(line, END_KEYWORD);
      assert Split(line)[1] != [];
    }
    if |Split(line)| >= 2 {
      assert Split(line)[1] != "";
    }
  }

  /** Lines before the first `MACRO` line are written unchanged. */
  lemma LefKeepsLinesBeforeFirstMacro(lines: seq<string>, newName: string, i: nat)
    requires i < |lines|
    requires forall k :: 0 <= k <= i ==> !IsMacroLine(lines[k])
    ensures var r := LefRewrite(lines, newName);
            && (r.Success? ==> r.value[i] == lines[i])
            && (r.Failure? && i < r.error.lineIndex ==> r.error.written[i] == lines[i])
  {
    LefOutputLine(lines, newName, i);
    LastMacroNameBeforeAnyMacro(lines, i);
    UncapturedLineKept(lines[i], newName);
  }

  /** A file without `MACRO` lines and without bare `FOREIGN` lines is copied unchanged. */
  lemma LefWithoutMacroIsCopy(lines: seq<string>, newName: string)
    requires forall k :: 0 <= k < |lines| ==> !IsMacroLine(lines[k])
    requires forall k :: 0 <= k < |lines| ==> !BareForeign(lines[k])
    ensures LefRewrite(lines, newName) == Success(lines)
  {
    BareFlagsMeaning(lines);
    LefRewriteCompletes(lines, newName);
    var out := ExpectedLines(lines, |lines|, newName);
    forall i | 0 <= i < |lines|
      ensures out[i] == lines[i]
    {
      LefKeepsLinesBeforeFirstMacro(lines, newName, i);
    }
    assert out == lines;
  }

  /**
   * An `END` line after the `MACRO` line at `m` (with no `MACRO` line in
   * between) is renamed exactly when its second token is the macro's name,
   * and copied otherwise.
   */
  lemma LefRenamesMatchingEnd(lines: seq<string>, newName: string, m: nat, i: nat)
    requires m < i < |lines|
    requires IsMacroLine(lines[m])
    requires forall k :: m < k < i ==> !IsMacroLine(lines[k])
    requires IsEndLine(lines[i])
    ensures var r := LefRewrite(lines, newName);
            r.Success? ==> r.value[i] == if EndName(lines[i]) == MacroName(lines[m])
                                         then ReplaceAll(END_KEYWORD, lines[i], newName)
                                         else lines[i]
  {
    LefOutputLine(lines, newName, i);
    LastMacroNameIsMostRecent(lines, m, i);
    KeywordLinesDiffer(lines[i]);
  }

  /**
   * A `FOREIGN` line after the `MACRO` line at `m` (with no `MACRO` line in
   * between) is renamed exactly when its second token is the macro's name,
   * and copied otherwise.
   */
  lemma LefRenamesMatchingForeign(lines: seq<string>, newName: string, m: nat, i: nat)
    requires m < i < |lines|
    requires IsMacroLine(lines[m])
    requires forall k :: m < k < i ==> !IsMacroLine(lines[k])
    requires IsForeignLine(lines[i]) && |Split(lines[i])| >= 2
    ensures var r := LefRewrite(lines, newName);
            r.Success? ==> r.value[i] == if Split(lines[i])[1] == MacroName(lines[m])
                                         then ReplaceAll(FOREIGN_KEYWORD, lines[i], newName)
                                         else lines[i]
  {
    LefOutputLine(lines, newName, i);
    LastMacroNameIsMostRecent(lines, m, i);
    KeywordLinesDiffer(lines[i]);
  }

  /** Lines that are not `MACRO`, `END` or `FOREIGN` lines are copied, wherever they are. */
  lemma LefCopiesOtherLines(lines: seq<string>, newName: string, i: nat)
    requires i < |lines|
    requires !IsMacroLine(lines[i]) && !IsEndLine(lines[i]) && !IsForeignLine(lines[i])
    ensures var r := LefRewrite(lines, newName);
            && (r.Success? ==> r.value[i] == lines[i])
            && (r.Failure? && i < r.error.lineIndex ==> r.error.written[i] == lines[i])
  {
    LefOutputLine(lines, newName, i);
  }

  /** A `MACRO` line is always renamed. */
  lemma LefRenamesMacroLines(lines: seq<string>, newName: string, i: nat)
    requires i < |lines| && IsMacroLine(lines[i])
    ensures var r := LefRewrite(lines, newName);
            && (r.Success? ==> r.value[i] == ReplaceAll(MACRO_KEYWORD, lines[i], newName))
            && (r.Failure? && i < r.error.lineIndex ==> r.error.written[i] == ReplaceAll(MACRO_KEYWORD, lines[i], newName))
  {
    LefOutputLine(lines, newName, i);
  }

  /** A `FOREIGN` keyword alone on its line, between whitespace, is a bare `FOREIGN` line. */
  lemma BareForeignLine(ws: string, trail: string)
    requires AllSpace(ws) && AllSpace(trail)
    ensures BareForeign(ws + FOREIGN_KEYWORD + trail)
  {
    LoneTokenLine(FOREIGN_KEYWORD, ws, trail);
  }

  /**
   * A file that opens with a bare `FOREIGN` line stops there, before any
   * line has been written.
   */
  lemma LefStopsOnLeadingBareForeign(rest: seq<string>, newName: string)
    ensures LefRewrite(["FOREIGN\n"] + rest, newName) == Failure(ForeignWithoutName(0, []))
  {
    var lines := ["FOREIGN\n"] + rest;
    BareForeignLine("", "\n");
    assert "" + FOREIGN_KEYWORD + "\n" == lines[0];
    assert lines[..0] == [];
    LefRewriteStopsAt(lines, 0, newName);
  }
}
