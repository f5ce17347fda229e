# Renaming a micro-tile's layout, abstract and netlist

`macros/grab_micro_gds.py` collects the submissions of four small "micro
tile" designs and renames each one to a fixed slot name
(`tt_um_micro1` … `tt_um_micro4`) so that the designs can sit side by side in
one container. Three rewriting steps make up its core, and this project models
each of them in Dafny:

- `rename_top_cell` works on the GDSII layout. The library is a list of
  cells. Each cell has a name and references other cells. The top cell is
  the first entry of a name-to-cell dictionary whose name no cell
  references. Its name is overwritten in place, and every cell is added, in
  order, to a fresh library that takes the old library's name (the cells
  gdstk also adds as dependencies are not modelled, see below). This is module
  `GdsTopCell` in `gds.dfy`. Finding the top cell is modelled on values. The
  in-place rename and the copy loop are modelled on classes.
- `rename_verilog_module` works on the Verilog netlist. Every line whose
  stripped text starts with `module ` has each `module <identifier>` in it
  replaced by `module <new name>`. Every other line is copied. This is module
  `VerilogModule` in `verilog.dfy`, a pure per-line map.
- `update_lef_file` works on the LEF abstract. One pass over the lines
  carries the name captured from the most recent `MACRO` line. A `MACRO`
  line is renamed. An `END` or `FOREIGN` line is renamed when its second
  token is the captured name. This is module `LefMacro` in `lef.dfy`. The
  loop is a method proved equal to a specification function, and the
  properties are lemmas about that function.

Three supporting modules model the Python semantics these steps rely on:

- `PyText` (`pytext.dfy`) models `str.strip`, `str.split` with no argument,
  `str.startswith`, and Python's whitespace set.
- `KeywordSub` (`keywordsub.dfy`) models `re.sub` with the pattern
  `<keyword>\s+\w+`. Matching is greedy, and the matches are found left to
  right and do not overlap.
- `Wrappers` (`wrappers.dfy`) holds `Option` and `Result`.

Every line whose stripped text starts with `module ` is rewritten, not only
the first declaration: `VerilogModule.RenamesEveryHeader` shows this on a file
that declares two modules.

## Model

| member | source | states |
|---|---|---|
| GdsTopCell.ReferencedNames | macros/grab_micro_gds.py:154 | the set of names that some cell's references point to; its meaning for the search is stated by NoTopCellIffAllReferenced and RenameKeepsReferences |
| GdsTopCell.CellNames | macros/grab_micro_gds.py:153 | the cell names in library order, one per cell |
| GdsTopCell.Insert | macros/grab_micro_gds.py:153 | one dictionary assignment: the key then maps to the new value, and every key listed stays mapped; the key order it builds is stated by FirstKeyIsFirstName |
| GdsTopCell.AllCells | macros/grab_micro_gds.py:153 | the dictionary comprehension, as one assignment per cell in library order; its meaning is stated by the four lemmas below |
| GdsTopCell.AllCellsKeysMapped | macros/grab_micro_gds.py:153 | the dictionary built from the cells maps every key it lists, and lists every key it maps |
| GdsTopCell.AllCellsPositions | macros/grab_micro_gds.py:153 | each key of the dictionary maps to a cell of that name, namely the last cell carrying it, and every cell's name is a key |
| GdsTopCell.StoredPosition | macros/grab_micro_gds.py:153 | the value stored under a key is a cell among those read that carries that key as its name |
| GdsTopCell.AllCellsKeysDistinct | macros/grab_micro_gds.py:153 | the dictionary's keys are pairwise distinct |
| GdsTopCell.FirstKeyIsFirstName | macros/grab_micro_gds.py:153-156 | the first dictionary key outside the referenced set is the first cell name outside it, so key order is first-occurrence order |
| GdsTopCell.TopCells | macros/grab_micro_gds.py:156 | the list of unreferenced cells is no longer than the dictionary |
| GdsTopCell.TopCellsFirst | macros/grab_micro_gds.py:156-164 | the unreferenced list is empty exactly when no key lies outside the referenced set; otherwise its head is the cell stored under the first such key |
| GdsTopCell.FirstOutside | macros/grab_micro_gds.py:156 | the index found is at most the bound, and an index below the bound names an unreferenced entry |
| GdsTopCell.FirstOutsideBefore | macros/grab_micro_gds.py:156 | every entry before the index found is referenced |
| GdsTopCell.FirstOutsideIs | macros/grab_micro_gds.py:156 | any index meeting both conditions above is the one found |
| GdsTopCell.FirstOutsideOfPrefix | macros/grab_micro_gds.py:156 | the search over a concatenation ends in the first part when it can, and continues into the second part otherwise |
| GdsTopCell.FindTopCell | macros/grab_micro_gds.py:153-164 | a top cell found is a valid index into the library |
| GdsTopCell.LastIndexOf | macros/grab_micro_gds.py:153 | the position returned carries the name and nothing after it does; the bound is returned when no entry does |
| GdsTopCell.TopCellReference | macros/grab_micro_gds.py:153-164 | an independent definition of the top cell: the last cell named like the first unreferenced cell |
| GdsTopCell.TopIsLast | macros/grab_micro_gds.py:153 | the cell the dictionary keeps for a name is the last cell with that name |
| GdsTopCell.FindTopCellIsReference | macros/grab_micro_gds.py:153-164 | the dictionary-based search and the reference definition agree on every library |
| GdsTopCell.NoTopCellIffAllReferenced | macros/grab_micro_gds.py:154-159 | the rename fails exactly when every cell's name is referenced by some cell |
| GdsTopCell.TopCellIsFirstUnreferenced | macros/grab_micro_gds.py:153-164 | the chosen cell is unreferenced; some cell at or before it has its name and every earlier cell is referenced; no later cell has its name |
| GdsTopCell.RenamedCells | macros/grab_micro_gds.py:164-168 | renaming keeps the cell count, gives the chosen cell the new name, keeps every cell's references, and leaves the other cells equal |
| GdsTopCell.RenameKeepsReferences | macros/grab_micro_gds.py:154-168 | renaming one cell leaves the set of referenced names unchanged |
| GdsTopCell.TopCellAfterRename | macros/grab_micro_gds.py:153-168 | with an unreferenced new name and a unique old name, the renamed cell is still the top cell |
| GdsTopCell.RenameTwiceIsIdentity | macros/grab_micro_gds.py:153-168 | under the same two conditions, renaming a second time changes nothing |
| GdsTopCell.RenameToReferencedNameFailsNextTime | macros/grab_micro_gds.py:153-168 | a library where the new name is already referenced succeeds once, then has no top cell |
| GdsTopCell.RenameWithDuplicateTopNameChangesAgain | macros/grab_micro_gds.py:153-168 | a library with two cells of the top name gets a different cell renamed the second time |
| GdsTopCell.Snapshot | macros/grab_micro_gds.py:153-154 | the value view of the cell objects: same length, and each entry holds that object's name and references |
| GdsTopCell.LayoutCell.constructor | macros/grab_micro_gds.py:150 | a cell object holds the name and references it was read with |
| GdsTopCell.Library.constructor | macros/grab_micro_gds.py:171 | a new library has the given name, the default unit and precision, and no cells |
| GdsTopCell.Library.Add | macros/grab_micro_gds.py:172-173 | adding appends the cell object itself and keeps the name, unit and precision; the dependency cells gdstk also appends are left out |
| GdsTopCell.RenameTopCell | macros/grab_micro_gds.py:153-173 | with no top cell it fails with nothing changed; otherwise only the top cell object gets the new name, and the fresh library has the old name, the default unit and precision, and the cell objects added one by one in library order (dependency cells left out); with distinct objects the new snapshot is RenamedCells of the old one |
| VerilogModule.IsModuleLine | macros/grab_micro_gds.py:197 | the header test: the stripped line starts with `module` and a space; RenamesDeclaration and NotModuleLine state which lines pass it |
| VerilogModule.RenameLine | macros/grab_micro_gds.py:197-199 | the line written for one line read: a header goes through the substitution, any other line is kept |
| VerilogModule.RenameVerilogModule | macros/grab_micro_gds.py:196-199 | as many lines come out as go in, and every line that is not a module header is copied byte for byte |
| VerilogModule.RenamesDeclaration | macros/grab_micro_gds.py:197-198 | a header of the form whitespace, `module`, spaces, identifier, rest passes the header test, and becomes the same whitespace, `module`, one space, the new name and the rest with only its own `module <identifier>` runs renamed |
| VerilogModule.NotModuleLine | macros/grab_micro_gds.py:197 | a line whose first non-whitespace character is not `m` is not a header |
| VerilogModule.HeaderLineRenamed | macros/grab_micro_gds.py:197-198 | a header written with one space before the name is renamed and the rest is rewritten only at further matches |
| VerilogModule.HeaderRenamedVerbatim | macros/grab_micro_gds.py:197-198 | a header whose rest holds no further `module` keyword, such as a port list, keeps that rest verbatim |
| VerilogModule.HeaderWithPortList | macros/grab_micro_gds.py:197-198 | a header with a port list is renamed and keeps the port list |
| VerilogModule.RenamesPortListExample | macros/grab_micro_gds.py:196-199 | a three-line module is rewritten to the expected three lines, with body and `endmodule` kept |
| VerilogModule.RenamesEveryHeader | macros/grab_micro_gds.py:196-199 | a file declaring two modules comes out declaring the new name twice |
| VerilogModule.RenamesLineByLine | macros/grab_micro_gds.py:196-199 | for every split of a file into two parts, rewriting the whole file is rewriting each part and joining the results: no state is carried from one line to the next |
| VerilogModule.RenamesThreeLines | macros/grab_micro_gds.py:196-199 | a three-line file is rewritten line by line |
| VerilogModule.KeepsBodyLines | macros/grab_micro_gds.py:197 | an assignment line and an `endmodule` line are not headers |
| LefMacro.IsMacroLine | macros/grab_micro_gds.py:213 | the `MACRO` test: the stripped line starts with `MACRO` and a space |
| LefMacro.IsEndLine | macros/grab_micro_gds.py:217 | the `END` test: the stripped line starts with `END` and a space |
| LefMacro.IsForeignLine | macros/grab_micro_gds.py:220 | the `FOREIGN` test, which asks for no space after the keyword |
| LefMacro.BareForeign | macros/grab_micro_gds.py:220-221 | a line passing the `FOREIGN` test that has no second token, where the lookup raises `IndexError` |
| LefMacro.EndName | macros/grab_micro_gds.py:217-218 | on an `END` line the second token always exists |
| LefMacro.LastMacroName | macros/grab_micro_gds.py:210-214 | the value of the carried name before a line: empty before any `MACRO` line, else the name from the most recent one (LastMacroNameBeforeAnyMacro, LastMacroNameIsMostRecent) |
| LefMacro.ExpectedLine | macros/grab_micro_gds.py:213-222 | the line written for one line read given the carried name; RewriteLine proves the three sequential tests compute it |
| LefMacro.MacroName | macros/grab_micro_gds.py:213-214 | on a `MACRO` line the second token always exists |
| LefMacro.ExpectedLines | macros/grab_micro_gds.py:210-223 | the output of the first n lines has n lines |
| LefMacro.ExpectedLinesAt | macros/grab_micro_gds.py:210-223 | output line j is input line j rewritten with the name captured from the lines before it |
| LefMacro.BareFlags | macros/grab_micro_gds.py:220-221 | one flag per line |
| LefMacro.BareFlagsMeaning | macros/grab_micro_gds.py:220-221 | some flag is set exactly when some line is a `FOREIGN` line with no second token |
| LefMacro.FirstSet | macros/grab_micro_gds.py:212-221 | the first set flag from a position: it is set and none before it is |
| LefMacro.FirstSetIs | macros/grab_micro_gds.py:212-221 | any position meeting those conditions is the first set flag |
| LefMacro.LefRewrite | macros/grab_micro_gds.py:210-223 | the pass fails exactly when some line is a bare `FOREIGN` line, and then at such a line; otherwise it writes as many lines as it reads |
| LefMacro.KeywordLinesDiffer | macros/grab_micro_gds.py:213-220 | a `MACRO` line is neither an `END` nor a `FOREIGN` line, and an `END` line is not a `FOREIGN` line |
| LefMacro.RenamedMacroLine | macros/grab_micro_gds.py:213-220 | a renamed `MACRO` line passes neither of the later tests |
| LefMacro.RenamedEndLine | macros/grab_micro_gds.py:217-220 | a renamed `END` line does not pass the `FOREIGN` test |
| LefMacro.RewriteLine | macros/grab_micro_gds.py:213-222 | the three tests in turn fail exactly on a bare `FOREIGN` line; otherwise they write the specified line and capture the `MACRO` line's name, or keep the old one |
| LefMacro.LoopStep | macros/grab_micro_gds.py:212-223 | one iteration extends the specified output by the line written and updates the captured name as specified |
| LefMacro.BareFlagsStep | macros/grab_micro_gds.py:220-221 | the flags of one more line are the old flags plus that line's flag |
| LefMacro.LefRewriteStopsAt | macros/grab_micro_gds.py:212-223 | at the first bare `FOREIGN` line the pass fails there, having written the specified lines before it |
| LefMacro.LefRewriteCompletes | macros/grab_micro_gds.py:212-223 | with no bare `FOREIGN` line the pass writes the specified lines |
| LefMacro.UpdateLefFile | macros/grab_micro_gds.py:210-223 | the imperative loop, carrying the captured name, produces exactly the specified result, whether success or failure |
| LefMacro.LefOutputLine | macros/grab_micro_gds.py:212-223 | every line written, whether the pass completes or not, is its input line rewritten with the most recently captured name |
| LefMacro.LastMacroNameBeforeAnyMacro | macros/grab_micro_gds.py:210 | before any `MACRO` line the captured name is empty |
| LefMacro.LastMacroNameIsMostRecent | macros/grab_micro_gds.py:213-214 | the captured name is the one from the most recent `MACRO` line |
| LefMacro.UncapturedLineKept | macros/grab_micro_gds.py:210-222 | with an empty captured name a non-`MACRO` line is copied |
| LefMacro.LefKeepsLinesBeforeFirstMacro | macros/grab_micro_gds.py:210-223 | lines before the first `MACRO` line are written unchanged |
| LefMacro.LefWithoutMacroIsCopy | macros/grab_micro_gds.py:210-223 | a file with no `MACRO` line and no bare `FOREIGN` line is copied whole |
| LefMacro.LefRenamesMatchingEnd | macros/grab_micro_gds.py:217-219 | an `END` line is renamed exactly when its second token is the name from the most recent `MACRO` line, and is otherwise copied |
| LefMacro.LefRenamesMatchingForeign | macros/grab_micro_gds.py:220-222 | a `FOREIGN` line with a second token is renamed exactly when that token is the most recent `MACRO` name, and is otherwise copied |
| LefMacro.LefCopiesOtherLines | macros/grab_micro_gds.py:212-223 | a line that is none of `MACRO`, `END` and `FOREIGN` is copied |
| LefMacro.LefRenamesMacroLines | macros/grab_micro_gds.py:213-215 | every `MACRO` line is renamed |
| LefMacro.BareForeignLine | macros/grab_micro_gds.py:220-221 | the keyword `FOREIGN` alone between whitespace is a bare `FOREIGN` line |
| LefMacro.LefStopsOnLeadingBareForeign | macros/grab_micro_gds.py:220-221 | a file starting with a bare `FOREIGN` line fails at line 0 with nothing written |
| KeywordSub.WordRun | macros/grab_micro_gds.py:198 | the length of the leading run of word characters, at most the text's length; WordRunIsWord, WordRunStop and WordRunAtLeast state that it is the maximal run |
| KeywordSub.ReplaceAll | macros/grab_micro_gds.py:198 | the substitution used at lines 198, 215, 219 and 222: every keyword, whitespace, word-run match, taken left to right and greedily, becomes the keyword, one space and the new name; its meaning is stated by the ReplaceAll lemmas below |
| KeywordSub.MatchLen | macros/grab_micro_gds.py:198 | a match starts with the keyword and ends within the text, at least two characters after the keyword; its shape and maximality are stated by MatchLenMatches and MatchLenIsLongestMatch |
| KeywordSub.MatchLenIsLongestMatch | macros/grab_micro_gds.py:198 | a match exists exactly when some keyword, whitespace, word run prefix exists, and the length found is the longest such prefix |
| KeywordSub.MatchLenMatches | macros/grab_micro_gds.py:198 | the match found has the pattern's shape |
| KeywordSub.MatchNoLongerThanMatchLen | macros/grab_micro_gds.py:198 | every prefix of the pattern's shape is no longer than the match found |
| KeywordSub.MatchAtDeclaration | macros/grab_micro_gds.py:198 | keyword, spaces and a whole identifier match exactly up to the identifier's end |
| KeywordSub.ReplaceAllWithoutKeyword | macros/grab_micro_gds.py:198 | text in which the keyword never occurs is left unchanged |
| KeywordSub.ReplaceAllSkipsSpaces | macros/grab_micro_gds.py:198 | leading whitespace is kept and the rest is rewritten |
| KeywordSub.ReplaceAllAtDeclaration | macros/grab_micro_gds.py:215-222 | a declaration after whitespace becomes the keyword, one space and the new name, followed by the rest with its own matches rewritten |
| KeywordSub.ReplaceAllAtMatch | macros/grab_micro_gds.py:198 | the same without leading whitespace |
| KeywordSub.ReplaceAllKeepsLead | macros/grab_micro_gds.py:198 | the leading whitespace and first character are kept |
| KeywordSub.ReplaceAllKeepsFirst | macros/grab_micro_gds.py:198 | the first character of any non-empty text survives the substitution |
| KeywordSub.ReplaceAllKeepsStrippedLead | macros/grab_micro_gds.py:215-220 | the first character of the stripped line survives the substitution |
| KeywordSub.ReplaceAllKeepsKeywordApart | macros/grab_micro_gds.py:215-220 | a line that starts with one keyword does not start with another after substitution |
| PyText.IsSpace | macros/grab_micro_gds.py:197 | Python's whitespace set, shared by `str.strip`, `str.split` and `\s` |
| PyText.IsWordChar | macros/grab_micro_gds.py:198 | `\w` restricted to ASCII letters, digits and `_` |
| PyText.StartsWith | macros/grab_micro_gds.py:197 | the text begins with the prefix |
| PyText.TrimLeft | macros/grab_micro_gds.py:197 | left stripping never lengthens the text; TrimLeftIsDrop and TrimLeftStops state what it removes |
| PyText.TrimRight | macros/grab_micro_gds.py:197 | right stripping never lengthens the text; TrimRightIsPrefix states what it keeps |
| PyText.Strip | macros/grab_micro_gds.py:197 | the stripped text neither starts nor ends with whitespace |
| PyText.TokenLen | macros/grab_micro_gds.py:214 | the length of the leading token is at most the text's length; TokenHasNoSpace states the token holds no whitespace |
| PyText.Split | macros/grab_micro_gds.py:214 | the tokens of a line; SplitTokens, SplitSkipsSpaces, SplitLeadingToken and SplitOfSpaces together fix every split |
| PyText.LeadingSpacesAreSpaces | macros/grab_micro_gds.py:197 | the leading run counted is all whitespace |
| PyText.TrimLeftIsDrop | macros/grab_micro_gds.py:197 | left stripping drops exactly the leading whitespace run |
| PyText.TrimRightIsPrefix | macros/grab_micro_gds.py:197 | right stripping keeps a prefix, which ends in a non-whitespace character when it is not empty |
| PyText.SplitTokens | macros/grab_micro_gds.py:214 | every token of a split is non-empty and holds no whitespace |
| PyText.SplitSkipsSpaces | macros/grab_micro_gds.py:214 | leading whitespace does not change a split |
| PyText.SplitLeadingToken | macros/grab_micro_gds.py:214 | a keyword followed by whitespace splits into the keyword and the split of the rest |
| PyText.KeywordLineTokens | macros/grab_micro_gds.py:213-214 | a line passing a keyword-and-space test splits into at least two tokens, the first being the keyword |
| PyText.KeywordHeaderLine | macros/grab_micro_gds.py:213-217 | whitespace, a keyword, a space and a non-whitespace character pass the keyword-and-space test |
| PyText.KeywordPrefixLine | macros/grab_micro_gds.py:220 | whitespace and a keyword pass the bare keyword test |
| PyText.LoneTokenLine | macros/grab_micro_gds.py:220-221 | a keyword alone between whitespace passes the keyword test and splits into that keyword only |
| PyText.StripSkipsSpaces | macros/grab_micro_gds.py:197 | the stripped text starts with the first non-whitespace character |

## Left out

- Downloading, unzipping, copying and cleaning up submissions, reading the
  YAML file, and the driver loop at the end of the file are not modelled.
  They are network and file-system I/O.
- Reading and writing files is not modelled. This covers `gdstk.read_gds`,
  `write_gds`, and the `open`/`readlines`/`write` calls. The models take
  the cells or lines that were read and return what would be written.
  Universal-newline translation is not modelled.
- The progress and warning `print` calls are not modelled. This includes the
  warning printed when several top cells exist.
- Only references that name a cell are modelled, as name strings. gdstk lets
  a reference hold a bare cell name instead of a cell object. That case is
  not modelled.
- The geometry, layers and other contents of a cell are not modelled. Only
  the name and the references matter here.
- `PyText.IsWordChar`: `\w` is taken as the ASCII letters, digits and `_`.
  Python also counts other Unicode letters and digits, so an identifier
  holding them would end a match earlier in the model than in Python.
- `KeywordSub.ReplaceAll`: it inherits the ASCII `\w` above. Backslash escapes in
  the replacement template are not processed, so a new name holding `\` is
  out of scope.
- `KeywordSub.MatchLen`: its own contract gives only the keyword prefix and
  the bounds of a match. The shape of the match (whitespace, then a word
  run) is stated by `KeywordSub.MatchLenMatches`, and the fact that the
  match is the longest one by `KeywordSub.MatchLenIsLongestMatch`.
- `GdsTopCell.RenameTwiceIsIdentity`: `rename_top_cell` promises no idempotence.
  The lemma holds only when the new name is unreferenced and no other cell
  carries the top cell's name. Two lemmas show that each condition is needed.
- `GdsTopCell.RenameTopCell`: the value-level equation holds when the cell
  objects are distinct. When the same object appears twice, the per-object
  clause states what happens.
- `GdsTopCell.Library.Add`: gdstk's `add` by default also appends every cell
  the added cell references, directly or not, in an order of gdstk's own.
  This is not modelled. In gdstk's library the cells can therefore come in
  another order than in the old library, and a cell can be listed more than
  once.
- `GdsTopCell.RenameTopCell`: its `r.value.cells == lib.cells` holds for the
  plain appends of `GdsTopCell.Library.Add`. It does not give the order or the
  repeats that gdstk's dependency-adding default produces.
- `GdsTopCell.FindTopCell`: a `ValueError` is modelled as `Failure(NoTopCell)`.
  An `IndexError` in `update_lef_file` is modelled as a `Failure` carrying
  the lines written before it.
- `LefMacro.LefRenamesMatchingEnd` and `LefMacro.LefRenamesMatchingForeign`
  state only the completed pass. A failed pass is covered by
  `LefMacro.LefOutputLine`.
