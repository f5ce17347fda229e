/**
 * `rename_verilog_module`: the hardware-description file is read as a list
 * of lines; every line whose stripped text starts with `"module "` has each
 * `module <identifier>` in it replaced by `module <new name>`, and every other
 * line is written out unchanged.  The header test asks for a literal space
 * after the keyword, so a header written `module<TAB>name` is not renamed.
 * The module declaration syntax this targets is the one of section 12.1 of
 * IEEE 1364-2005.
 */
module VerilogModule {
  import opened PyText
  import opened KeywordSub

  const MODULE_KEYWORD := "module"

  /** The stripped line starts with `module` and a space. */
  predicate IsModuleLine(line: string) {
    StartsWith(Strip(line), MODULE_KEYWORD + " ")
  }

  /** One iteration of the rewrite loop: the line that is written for `line`. */
  function RenameLine(line: string, newName: string): string {
    if IsModuleLine(line) then ReplaceAll(MODULE_KEYWORD, line, newName) else line
  }

  /**
   * The lines written to the output file for the lines read from the input
   * file: as many lines as were read, and every line that is not a module
   * header byte-for-byte as it was.
   */
  function RenameVerilogModule(lines: seq<string>, newName: string): (out: seq<string>)
    ensures |out| == |lines|
    ensures forall i :: 0 <= i < |lines| && !IsModuleLine(lines[i]) ==> out[i] == lines[i]
  {
    seq(|lines|, i requires 0 <= i < |lines| => RenameLine(lines[i], newName))
  }

  /**
   * A header line `ws module sp ident rest` is a module line, and it is
   * written as `ws module newName rest'`: the declared name is replaced and
   * the rest of the line keeps its text, with only further
   * `module <identifier>` occurrences in it renamed too.
   */
  lemma RenamesDeclaration(lines: seq<string>, i: nat, ws: string, sp: string, ident: string, rest: string, newName: string)
    requires i < |lines| && lines[i] == ws + MODULE_KEYWORD + sp + ident + rest
    requires AllSpace(ws) && sp != [] && sp[0] == ' ' && AllSpace(sp) && ident != [] && AllWord(ident)
    requires rest == [] || !IsWordChar(rest[0])
    ensures IsModuleLine(lines[i])
    ensures RenameVerilogModule(lines, newName)[i]
            == ws + MODULE_KEYWORD + " " + newName + ReplaceAll(MODULE_KEYWORD, rest, newName)
  {
    assert lines[i] == ws + MODULE_KEYWORD + sp + (ident + rest);
    KeywordHeaderLine(MODULE_KEYWORD, ws, sp, ident + rest);
    ReplaceAllAtDeclaration(MODULE_KEYWORD, ws, sp, ident, rest, newName);
  }

  /** A line whose first non-whitespace character is not `m` is not a module header. */
  lemma NotModuleLine(ws: string, c: char, t: string)
    requires AllSpace(ws) && !IsSpace(c) && c != 'm'
    ensures !IsModuleLine(ws + [c] + t)
  {
    StripSkipsSpaces(ws, c, t);
    assert Strip(ws + [c] + t)[0] == c;
  }

  /**
   * The declaration `module <old> (a, b);` becomes `module <new> (a, b);` with
   * its port list kept verbatim, and the body and `endmodule` lines are
   * copied.
   */
  lemma RenamesPortListExample(oldName: string, newName: string)
    requires oldName != [] && AllWord(oldName)
    ensures RenameVerilogModule(["module " + oldName + " (a, b);\n", "  assign a = b;\n", "endmodule\n"], newName)
            == ["module " + newName + " (a, b);\n", "  assign a = b;\n", "endmodule\n"]
  {
    var lines := ["module " + oldName + " (a, b);\n", "  assign a = b;\n", "endmodule\n"];
    RenamesThreeLines(lines[0], lines[1], lines[2], newName);
    HeaderWithPortList(oldName, newName);
    KeepsBodyLines();
  }

  /**
   * A header whose text after the name holds no further `module` keyword
   * keeps that text verbatim: a port list such as `(mem, sum)` is untouched.
   */
  lemma HeaderRenamedVerbatim(oldName: string, rest: string, newName: string)
    requires oldName != [] && AllWord(oldName)
    requires rest == [] || !IsWordChar(rest[0])
    requires !Occurs(MODULE_KEYWORD, rest)
    ensures RenameLine("module " + oldName + rest, newName) == "module " + newName + rest
  {
    assert "module " + oldName + rest == "" + MODULE_KEYWORD + " " + oldName + rest;
    assert "module " + newName + rest == "" + MODULE_KEYWORD + " " + newName + rest;
    HeaderLineRenamed(oldName, rest, newName);
    ReplaceAllWithoutKeyword(MODULE_KEYWORD, rest, newName);
  }

  lemma HeaderWithPortList(oldName: string, newName: string)
    requires oldName != [] && AllWord(oldName)
    ensures RenameLine("module " + oldName + " (a, b);\n", newName) == "module " + newName + " (a, b);\n"
  {
    assert 'm' !in " (a, b);\n";
    AbsentFirstChar(MODULE_KEYWORD, " (a, b);\n");
    HeaderRenamedVerbatim(oldName, " (a, b);\n", newName);
  }

  /** Renaming a header `module <ident><rest>` written with a single space. */
  lemma HeaderLineRenamed(ident: string, rest: string, newName: string)
    requires ident != [] && AllWord(ident)
    requires rest == [] || !IsWordChar(rest[0])
    ensures RenameLine("" + MODULE_KEYWORD + " " + ident + rest, newName)
            == "" + MODULE_KEYWORD + " " + newName + ReplaceAll(MODULE_KEYWORD, rest, newName)
  {
    RenamesDeclaration(["" + MODULE_KEYWORD + " " + ident + rest], 0, "", " ", ident, rest, newName);
  }

  /**
   * Every module header of a file is renamed, not only the first: a file
   * that declares two modules comes out declaring the new name twice.
   */
  lemma RenamesEveryHeader(first: string, second: string, newName: string)
    requires first != [] && AllWord(first) && second != [] && AllWord(second)
    ensures RenameVerilogModule(["module " + first + ";\n", "endmodule\n", "module " + second + ";\n"], newName)
            == ["module " + newName + ";\n", "endmodule\n", "module " + newName + ";\n"]
  {
    var lines := ["module " + first + ";\n", "endmodule\n", "module " + second + ";\n"];
    RenamesThreeLines(lines[0], lines[1], lines[2], newName);
    assert 'm' !in ";\n";
    AbsentFirstChar(MODULE_KEYWORD, ";\n");
    HeaderRenamedVerbatim(first, ";\n", newName);
    HeaderRenamedVerbatim(second, ";\n", newName);
    KeepsBodyLines();
  }

  /**
   * Each line of a file is rewritten on its own: no state carries from one
   * line to the next, so rewriting two parts of a file and joining them is
   * rewriting the whole file.
   */
  lemma RenamesLineByLine(xs: seq<string>, ys: seq<string>, newName: string)
    ensures RenameVerilogModule(xs + ys, newName) == RenameVerilogModule(xs, newName) + RenameVerilogModule(ys, newName)
  {
  }

  /** A three-line file is rewritten line by line. */
  lemma RenamesThreeLines(a: string, b: string, c: string, newName: string)
    ensures RenameVerilogModule([a, b, c], newName) == [RenameLine(a, newName), RenameLine(b, newName), RenameLine(c, newName)]
  {
  }

  lemma KeepsBodyLines()
    ensures !IsModuleLine("  assign a = b;\n") && !IsModuleLine("endmodule\n")
  {
    var body := "  assign a = b;\n";
    var end := "endmodule\n";
    assert body == "  " + ['a'] + body[3..];
    NotModuleLine("  ", 'a', body[3..]);
    assert end == "" + ['e'] + end[1..];
    NotModuleLine("", 'e', end[1..]);
  }
}
