/**
 * `rename_top_cell`: a layout library is an ordered list of cells, each with
 * a name and the names of the cells it references.  The top cell is found
 * through a name-to-cell dictionary and a set of referenced names, its name is
 * overwritten in place, and every cell is added, in order, to a fresh
 * library that takes the old library's name.
 */
module GdsTopCell {
  import opened Wrappers

  /** A cell as a value: its name and the names of the cells it references. */
  datatype Cell = Cell(name: string, refs: seq<string>)

  datatype GdsError = NoTopCell

  /** The user unit and database precision a library gets when none are given. */
  const DEFAULT_UNIT: real := 0.000001
  const DEFAULT_PRECISION: real := 0.000000001

  /** The set of every name that some cell references. */
  function ReferencedNames(cells: seq<Cell>): set<string> {
    set i, j | 0 <= i < |cells| && 0 <= j < |cells[i].refs| :: cells[i].refs[j]
  }

  /** The cell names in library order. */
  function CellNames(cells: seq<Cell>): (names: seq<string>)
    ensures |names| == |cells|
  {
    seq(|cells|, i requires 0 <= i < |cells| => cells[i].name)
  }

  /**
   * A dictionary from names to positions in the cell list: the keys in the
   * order they were first inserted, and the position stored for each.
   */
  datatype CellDict = CellDict(keys: seq<string>, positions: map<string, nat>)

  /** Every key has a position and every position a key. */
  predicate KeysMapped(d: CellDict) {
    && (forall k :: k in d.positions ==> k in d.keys)
    && (forall k :: k in d.keys ==> k in d.positions)
  }

  /** `d[key] = v`: a new key goes to the end, an existing one keeps its place. */
  function Insert(d: CellDict, key: string, v: nat): (e: CellDict)
    ensures KeysMapped(d) ==> KeysMapped(e)
    ensures key in e.positions && e.positions[key] == v
  {
    if key in d.positions then CellDict(d.keys, d.positions[key := v])
    else CellDict(d.keys + [key], d.positions[key := v])
  }

  /** The name-to-cell dictionary built from the first `n` cells, with cells given by position. */
  function AllCells(cells: seq<Cell>, n: nat): (d: CellDict)
    requires n <= |cells|
  {
    if n == 0 then CellDict([], map[])
    else Insert(AllCells(cells, n - 1), cells[n - 1].name, n - 1)
  }

  /** Every key of the dictionary has a position and every position a key. */
  lemma {:induction false} AllCellsKeysMapped(cells: seq<Cell>, n: nat)
    requires n <= |cells|
    ensures KeysMapped(AllCells(cells, n))
  {
    if n > 0 {
      AllCellsKeysMapped(cells, n - 1);
    }
  }

  /** `[d[k] for k in d.keys[:m] if k not in refs]`. */
  function TopCells(d: CellDict, refs: set<string>, m: nat): (tops: seq<nat>)
    requires KeysMapped(d) && m <= |d.keys|
    ensures |tops| <= m
  {
    if m == 0 then []
    else
      var k := d.keys[m - 1];
      TopCells(d, refs, m - 1) + (if k in refs then [] else [d.positions[k]])
  }

  /**
   * The position of the first of `xs[..m]` that is not in `refs`, or `m`
   * when every one of them is.
   */
  function FirstOutside(xs: seq<string>, refs: set<string>, m: nat): (f: nat)
    requires m <= |xs|
    ensures f <= m
    ensures f < m ==> xs[f] !in refs
  {
    if m == 0 then 0
    else
      var f := FirstOutside(xs, refs, m - 1);
      if f < m - 1 then f
      else if xs[m - 1] in refs then m
      else m - 1
  }

  /** Everything before the first element outside `refs` is in `refs`. */
  lemma {:induction false} FirstOutsideBefore(xs: seq<string>, refs: set<string>, m: nat)
    requires m <= |xs|
    ensures forall i :: 0 <= i < FirstOutside(xs, refs, m) ==> xs[i] in refs
  {
    if m > 0 {
      FirstOutsideBefore(xs, refs, m - 1);
    }
  }

  /**
   * The position of the top cell: the cell the dictionary holds for the first
   * key, in insertion order, that no cell references.  `NoTopCell` when every
   * name is referenced (the `ValueError` that `rename_top_cell` raises).
   */
  function FindTopCell(cells: seq<Cell>): (r: Result<nat, GdsError>)
    ensures r.Success? ==> r.value < |cells|
  {
    var d := AllCells(cells, |cells|);
    AllCellsKeysMapped(cells, |cells|);
    var tops := TopCells(d, ReferencedNames(cells), |d.keys|);
    if tops == [] then Failure(NoTopCell)
    else
      TopCellsFirst(d, ReferencedNames(cells), |d.keys|);
      AllCellsPositions(cells, |cells|);
      Success(tops[0])
  }

  /** Every name among the first `n` cells is a key of `d`. */
  ghost predicate HoldsNames(cells: seq<Cell>, d: CellDict, n: nat)
    requires n <= |cells|
  {
    forall i :: 0 <= i < n ==> cells[i].name in d.positions
  }

  /**
   * Each key of `d` is stored with the position, among the first `n` cells,
   * of the last cell of that name.
   */
  ghost predicate PositionsLast(cells: seq<Cell>, d: CellDict, n: nat)
    requires n <= |cells|
  {
    forall k :: k in d.positions ==>
      && d.positions[k] < n
      && cells[d.positions[k]].name == k
      && forall j :: d.positions[k] < j < n ==> cells[j].name != k
  }

  /** Inserting cell `n - 1` keeps both properties. */
  lemma InsertStep(cells: seq<Cell>, d: CellDict, n: nat)
    requires 0 < n <= |cells|
    requires HoldsNames(cells, d, n - 1) && PositionsLast(cells, d, n - 1)
    ensures HoldsNames(cells, Insert(d, cells[n - 1].name, n - 1), n)
    ensures PositionsLast(cells, Insert(d, cells[n - 1].name, n - 1), n)
  {
    var name := cells[n - 1].name;
    var e := Insert(d, name, n - 1);
    forall k | k in e.positions && k != name
      ensures k in d.positions && e.positions[k] == d.positions[k]
    {
    }
  }

  /**
   * The dictionary after `n` insertions holds every name of the first `n`
   * cells, and for each the position of the last cell of that name.
   */
  lemma {:induction false} AllCellsPositions(cells: seq<Cell>, n: nat)
    requires n <= |cells|
    ensures HoldsNames(cells, AllCells(cells, n), n)
    ensures PositionsLast(cells, AllCells(cells, n), n)
  {
    if n > 0 {
      AllCellsPositions(cells, n - 1);
      InsertStep(cells, AllCells(cells, n - 1), n);
    }
  }

  /** The position stored for a key is that of a cell carrying the key. */
  lemma StoredPosition(cells: seq<Cell>, n: nat, key: string)
    requires n <= |cells| && key in AllCells(cells, n).positions
    ensures AllCells(cells, n).positions[key] < n
    ensures cells[AllCells(cells, n).positions[key]].name == key
  {
    AllCellsPositions(cells, n);
  }

  /** The keys of the dictionary are distinct. */
  lemma {:induction false} AllCellsKeysDistinct(cells: seq<Cell>, n: nat)
    requires n <= |cells|
    ensures forall p, q :: 0 <= p < q < |AllCells(cells, n).keys| ==> AllCells(cells, n).keys[p] != AllCells(cells, n).keys[q]
  {
    if n > 0 {
      AllCellsKeysDistinct(cells, n - 1);
      AllCellsKeysMapped(cells, n - 1);
    }
  }

  /**
   * The filtered list is empty exactly when every key is referenced, and
   * otherwise starts with the position stored for the first key that is not.
   */
  lemma {:induction false} TopCellsFirst(d: CellDict, refs: set<string>, m: nat)
    requires KeysMapped(d) && m <= |d.keys|
    ensures TopCells(d, refs, m) == [] <==> FirstOutside(d.keys, refs, m) == m
    ensures TopCells(d, refs, m) != [] ==> TopCells(d, refs, m)[0] == d.positions[d.keys[FirstOutside(d.keys, refs, m)]]
  {
    if m > 0 {
      var prev := TopCells(d, refs, m - 1);
      var k := d.keys[m - 1];
      var last: seq<nat> := if k in refs then [] else [d.positions[k]];
      assert TopCells(d, refs, m) == prev + last;
      TopCellsFirst(d, refs, m - 1);
      if prev != [] {
        assert (prev + last)[0] == prev[0];
      }
    }
  }

  /**
   * The first of `keys` outside `refs` is the first of `names[..n]` outside
   * `refs`, and there is one in `keys` exactly when there is one in
   * `names[..n]`.
   */
  ghost predicate SameFirstOutside(keys: seq<string>, names: seq<string>, refs: set<string>, n: nat)
    requires n <= |names|
  {
    var g := FirstOutside(keys, refs, |keys|);
    var f := FirstOutside(names, refs, n);
    (g == |keys| <==> f == n) && (f < n ==> keys[g] == names[f])
  }

  /** A name seen before adds no key and does not change the first name outside `refs`. */
  lemma SameFirstOutsideSeen(keys: seq<string>, names: seq<string>, refs: set<string>, n: nat, i: nat)
    requires 0 < n <= |names| && i < n - 1 && names[i] == names[n - 1]
    requires SameFirstOutside(keys, names, refs, n - 1)
    ensures SameFirstOutside(keys, names, refs, n)
  {
    FirstOutsideBefore(names, refs, n - 1);
  }

  /** A new name is appended to the keys. */
  lemma SameFirstOutsideNew(keys: seq<string>, names: seq<string>, refs: set<string>, n: nat)
    requires 0 < n <= |names|
    requires SameFirstOutside(keys, names, refs, n - 1)
    ensures SameFirstOutside(keys + [names[n - 1]], names, refs, n)
  {
    FirstOutsideOfPrefix(keys, [names[n - 1]], refs);
    assert FirstOutside([names[n - 1]], refs, 1) == if names[n - 1] in refs then 1 else 0;
  }

  /**
   * The first key of the dictionary that is not referenced is the name of
   * the first cell, in library order, whose name is not referenced.
   */
  lemma {:induction false} FirstKeyIsFirstName(cells: seq<Cell>, refs: set<string>, n: nat)
    requires n <= |cells|
    ensures SameFirstOutside(AllCells(cells, n).keys, CellNames(cells), refs, n)
  {
    var names := CellNames(cells);
    if n > 0 {
      var d := AllCells(cells, n - 1);
      var name := cells[n - 1].name;
      assert names[n - 1] == name;
      FirstKeyIsFirstName(cells, refs, n - 1);
      if name in d.positions {
        StoredPosition(cells, n - 1, name);
        var i := d.positions[name];
        assert names[i] == name;
        SameFirstOutsideSeen(d.keys, names, refs, n, i);
      } else {
        SameFirstOutsideNew(d.keys, names, refs, n);
      }
    }
  }

  /** Appending to a list does not move its first element outside `refs`. */
  lemma FirstOutsideOfPrefix(xs: seq<string>, ys: seq<string>, refs: set<string>)
    ensures FirstOutside(xs, refs, |xs|) < |xs| ==> FirstOutside(xs + ys, refs, |xs + ys|) == FirstOutside(xs, refs, |xs|)
    ensures FirstOutside(xs, refs, |xs|) == |xs| ==> FirstOutside(xs + ys, refs, |xs + ys|) == |xs| + FirstOutside(ys, refs, |ys|)
  {
    var f := FirstOutside(xs + ys, refs, |xs + ys|);
    var g := FirstOutside(xs, refs, |xs|);
    FirstOutsideBefore(xs, refs, |xs|);
    if g < |xs| {
      FirstOutsideIs(xs + ys, refs, |xs + ys|, g);
    } else {
      var h := FirstOutside(ys, refs, |ys|);
      FirstOutsideBefore(ys, refs, |ys|);
      forall i | 0 <= i < |xs| + h
        ensures (xs + ys)[i] in refs
      {
        if i >= |xs| {
          assert (xs + ys)[i] == ys[i - |xs|];
        }
      }
      if h < |ys| {
        assert (xs + ys)[|xs| + h] == ys[h];
      }
      FirstOutsideIs(xs + ys, refs, |xs + ys|, |xs| + h);
    }
  }

  /** `FirstOutside` is determined by its three postconditions. */
  lemma {:induction false} FirstOutsideIs(xs: seq<string>, refs: set<string>, m: nat, f: nat)
    requires f <= m <= |xs|
    requires f < m ==> xs[f] !in refs
    requires forall i :: 0 <= i < f ==> xs[i] in refs
    ensures FirstOutside(xs, refs, m) == f
  {
    if m > 0 && f < m {
      if f < m - 1 {
        FirstOutsideIs(xs, refs, m - 1, f);
      } else {
        FirstOutsideIs(xs, refs, m - 1, m - 1);
      }
    } else if m > 0 {
      FirstOutsideIs(xs, refs, m - 1, m - 1);
    }
  }

  /**
   * The position of the last of `xs[..n]` equal to `x`, or `n` when none
   * is.
   */
  function LastIndexOf(xs: seq<string>, x: string, n: nat): (p: nat)
    requires n <= |xs|
    ensures p <= n
    ensures p < n ==> xs[p] == x && forall j :: p < j < n ==> xs[j] != x
    ensures p == n ==> forall j :: 0 <= j < n ==> xs[j] != x
  {
    if n == 0 then 0
    else if xs[n - 1] == x then n - 1
    else
      var p := LastIndexOf(xs, x, n - 1);
      if p < n - 1 then p else n
  }

  /**
   * The top cell stated without the dictionary: take the first cell, in
   * library order, whose name no cell references; the top cell is the last
   * cell carrying that name.
   */
  function TopCellReference(cells: seq<Cell>): (r: Result<nat, GdsError>)
    ensures r.Success? ==> r.value < |cells|
  {
    var names := CellNames(cells);
    var f := FirstOutside(names, ReferencedNames(cells), |cells|);
    if f == |cells| then Failure(NoTopCell)
    else Success(LastIndexOf(names, names[f], |cells|))
  }

  /** The dictionary-based search and the reference definition choose the same cell. */
  lemma FindTopCellIsReference(cells: seq<Cell>)
    ensures FindTopCell(cells) == TopCellReference(cells)
  {
    var refs := ReferencedNames(cells);
    var names := CellNames(cells);
    var d := AllCells(cells, |cells|);
    AllCellsKeysMapped(cells, |cells|);
    var tops := TopCells(d, refs, |d.keys|);
    var g := FirstOutside(d.keys, refs, |d.keys|);
    var f := FirstOutside(names, refs, |cells|);
    TopCellsFirst(d, refs, |d.keys|);
    FirstKeyIsFirstName(cells, refs, |cells|);
    if f < |cells| {
      assert g < |d.keys| && d.keys[g] == names[f];
      AllCellsPositions(cells, |cells|);
      TopIsLast(cells, d, names[f]);
    }
  }

  /** The position the dictionary stores for a name is the last position of that name. */
  lemma TopIsLast(cells: seq<Cell>, d: CellDict, key: string)
    requires PositionsLast(cells, d, |cells|) && key in d.positions
    ensures d.positions[key] == LastIndexOf(CellNames(cells), key, |cells|)
  {
    var names := CellNames(cells);
    var p := d.positions[key];
    assert names[p] == key;
    var q := LastIndexOf(names, key, |cells|);
    assert q < |cells|;
    assert cells[q].name == names[q];
  }

  /** There is no top cell exactly when every cell's name is referenced by some cell. */
  lemma NoTopCellIffAllReferenced(cells: seq<Cell>)
    ensures FindTopCell(cells).Failure? <==> forall i :: 0 <= i < |cells| ==> cells[i].name in ReferencedNames(cells)
  {
    FindTopCellIsReference(cells);
    var names := CellNames(cells);
    var f := FirstOutside(names, ReferencedNames(cells), |cells|);
    FirstOutsideBefore(names, ReferencedNames(cells), |cells|);
    if f < |cells| {
      assert names[f] == cells[f].name;
    } else {
      forall i | 0 <= i < |cells|
        ensures cells[i].name in ReferencedNames(cells)
      {
        assert names[i] == cells[i].name;
      }
    }
  }

  /**
   * The top cell's name is referenced by no cell and is the name of the
   * first such cell in library order, every cell before which is
   * referenced; the chosen cell is the last one carrying that name, because
   * a later cell of the same name replaces an earlier one in the dictionary.
   */
  lemma TopCellIsFirstUnreferenced(cells: seq<Cell>)
    requires FindTopCell(cells).Success?
    ensures cells[FindTopCell(cells).value].name !in ReferencedNames(cells)
    ensures exists f :: 0 <= f <= FindTopCell(cells).value && cells[f].name == cells[FindTopCell(cells).value].name
              && forall i :: 0 <= i < f ==> cells[i].name in ReferencedNames(cells)
    ensures forall j :: FindTopCell(cells).value < j < |cells| ==> cells[j].name != cells[FindTopCell(cells).value].name
  {
    FindTopCellIsReference(cells);
    var refs := ReferencedNames(cells);
    var names := CellNames(cells);
    var k := FindTopCell(cells).value;
    var f := FirstOutside(names, refs, |cells|);
    FirstOutsideBefore(names, refs, |cells|);
    assert names[f] == cells[f].name && names[k] == cells[k].name;
    forall i | 0 <= i < f
      ensures cells[i].name in refs
    {
      assert names[i] == cells[i].name;
    }
    forall j | k < j < |cells|
      ensures cells[j].name != cells[k].name
    {
      assert names[j] == cells[j].name;
    }
  }

  /** The cell list after the cell at `k` is renamed to `newName`. */
  function RenamedCells(cells: seq<Cell>, k: nat, newName: string): (out: seq<Cell>)
    requires k < |cells|
    ensures |out| == |cells|
    ensures out[k].name == newName
    ensures forall j :: 0 <= j < |cells| ==> out[j].refs == cells[j].refs
    ensures forall j :: 0 <= j < |cells| && j != k ==> out[j] == cells[j]
  {
    cells[k := cells[k].(name := newName)]
  }

  /** Renaming a cell leaves the set of referenced names as it was. */
  lemma RenameKeepsReferences(cells: seq<Cell>, k: nat, newName: string)
    requires k < |cells|
    ensures ReferencedNames(RenamedCells(cells, k, newName)) == ReferencedNames(cells)
  {
    var out := RenamedCells(cells, k, newName);
    forall x | x in ReferencedNames(cells)
      ensures x in ReferencedNames(out)
    {
      var i, j :| 0 <= i < |cells| && 0 <= j < |cells[i].refs| && cells[i].refs[j] == x;
      assert out[i].refs[j] == x;
    }
  }

  /**
   * After the top cell, whose name no other cell carries, is renamed to a
   * name nobody references, the top cell of the result carries the new name.
   */
  lemma TopCellAfterRename(cells: seq<Cell>, k: nat, newName: string)
    requires TopCellReference(cells) == Success(k)
    requires newName !in ReferencedNames(cells)
    requires forall j :: 0 <= j < |cells| && j != k ==> cells[j].name != cells[k].name
    ensures TopCellReference(RenamedCells(cells, k, newName)).Success?
    ensures RenamedCells(cells, k, newName)[TopCellReference(RenamedCells(cells, k, newName)).value].name == newName
  {
    var once := RenamedCells(cells, k, newName);
    RenameKeepsReferences(cells, k, newName);
    var refs := ReferencedNames(cells);
    var names := CellNames(cells);
    var names2 := CellNames(once);
    var f := FirstOutside(names, refs, |cells|);
    FirstOutsideBefore(names, refs, |cells|);
    assert f == k;
    forall i | 0 <= i < k
      ensures names2[i] in refs
    {
      assert names2[i] == names[i];
    }
    FirstOutsideIs(names2, refs, |cells|, k);
    var k2 := LastIndexOf(names2, newName, |cells|);
    assert names2[k2] == once[k2].name;
  }

  /**
   * Renaming the top cell to a name nobody references, when the old top name
   * is carried by that cell alone, leaves a library whose top cell carries
   * the new name, so that a second rename to the same name changes nothing.
   */
  lemma RenameTwiceIsIdentity(cells: seq<Cell>, newName: string)
    requires FindTopCell(cells).Success?
    requires newName !in ReferencedNames(cells)
    requires forall j :: 0 <= j < |cells| && j != FindTopCell(cells).value ==> cells[j].name != cells[FindTopCell(cells).value].name
    ensures var once := RenamedCells(cells, FindTopCell(cells).value, newName);
            FindTopCell(once).Success? && RenamedCells(once, FindTopCell(once).value, newName) == once
  {
    var k := FindTopCell(cells).value;
    FindTopCellIsReference(cells);
    var once := RenamedCells(cells, k, newName);
    TopCellAfterRename(cells, k, newName);
    FindTopCellIsReference(once);
    var k2 := FindTopCell(once).value;
    assert once[k2 := once[k2].(name := newName)] == once;
  }

  /**
   * Without the condition on the new name, a second rename can fail: here the
   * new name is already referenced, so after the first rename every name is.
   */
  lemma RenameToReferencedNameFailsNextTime()
    ensures var cells := [Cell("TOP", ["B"]), Cell("B", [])];
            FindTopCell(cells) == Success(0)
            && FindTopCell(RenamedCells(cells, 0, "B")).Failure?
  {
    var cells := [Cell("TOP", ["B"]), Cell("B", [])];
    assert ReferencedNames(cells) == {"B"} by {
      assert cells[0].refs[0] == "B";
    }
    assert CellNames(cells) == ["TOP", "B"];
    FirstOutsideIs(CellNames(cells), {"B"}, 2, 0);
    FindTopCellIsReference(cells);
    var once := RenamedCells(cells, 0, "B");
    assert ReferencedNames(once) == {"B"} by {
      assert once[0].refs[0] == "B";
    }
    assert CellNames(once) == ["B", "B"];
    FirstOutsideIs(CellNames(once), {"B"}, 2, 2);
    FindTopCellIsReference(once);
  }

  /**
   * Without the condition on the old name, a second rename changes the
   * library again: the first rename takes the last of two cells named `T`,
   * the second rename the other one.
   */
  lemma RenameWithDuplicateTopNameChangesAgain()
    ensures var cells := [Cell("T", []), Cell("T", [])];
            FindTopCell(cells) == Success(1)
            && var once := RenamedCells(cells, 1, "N");
               FindTopCell(once) == Success(0) && RenamedCells(once, 0, "N") != once
  {
    var cells := [Cell("T", []), Cell("T", [])];
    assert ReferencedNames(cells) == {};
    assert CellNames(cells) == ["T", "T"];
    FirstOutsideIs(CellNames(cells), {}, 2, 0);
    FindTopCellIsReference(cells);
    var once := RenamedCells(cells, 1, "N");
    assert ReferencedNames(once) == {};
    assert CellNames(once) == ["T", "N"];
    FirstOutsideIs(CellNames(once), {}, 2, 0);
    FindTopCellIsReference(once);
    assert RenamedCells(once, 0, "N")[0].name != once[0].name;
  }

  /** A cell object of the layout library; its name can be overwritten in place. */
  class LayoutCell {
    var name: string
    const refs: seq<string>

    constructor(name: string, refs: seq<string>)
      ensures this.name == name && this.refs == refs
    {
      this.name := name;
      this.refs := refs;
    }
  }

  /** A layout library: a name, a user unit, a database precision and a list of cells. */
  class Library {
    var name: string
    var unit: real
    var precision: real
    var cells: seq<LayoutCell>

    /** `gdstk.Library(name=name)`: no cells, the default unit and precision. */
    constructor(name: string)
      ensures this.name == name && unit == DEFAULT_UNIT && precision == DEFAULT_PRECISION
      ensures cells == []
    {
      this.name := name;
      unit := DEFAULT_UNIT;
      precision := DEFAULT_PRECISION;
      cells := [];
    }

    /**
     * `add(cell)`: the cell object itself is appended, not a copy of it.
     * gdstk's default of also appending the cells it references is not part
     * of this model.
     */
    method Add(cell: LayoutCell)
      modifies this
      ensures cells == old(cells) + [cell]
      ensures name == old(name) && unit == old(unit) && precision == old(precision)
    {
      cells := cells + [cell];
    }
  }

  /** The values the cell objects hold. */
  function Snapshot(cells: seq<LayoutCell>): (s: seq<Cell>)
    reads cells
    ensures |s| == |cells|
    ensures forall i :: 0 <= i < |cells| ==> s[i] == Cell(cells[i].name, cells[i].refs)
  {
    seq(|cells|, i reads cells requires 0 <= i < |cells| => Cell(cells[i].name, cells[i].refs))
  }

  /** No cell object is listed twice. */
  predicate Distinct(cells: seq<LayoutCell>) {
    forall i, j :: 0 <= i < j < |cells| ==> cells[i] != cells[j]
  }

  /**
   * `rename_top_cell` after the library is read and before it is written:
   * with no top cell nothing changes; otherwise the top cell object is
   * renamed in place and a fresh library with the old library's name, the
   * default unit and precision and the same cell objects, in order, is
   * returned.
   */
  method RenameTopCell(lib: Library, newTopName: string) returns (r: Result<Library, GdsError>)
    modifies lib.cells
    ensures FindTopCell(old(Snapshot(lib.cells))).Failure? ==> r == Failure(NoTopCell)
    ensures FindTopCell(old(Snapshot(lib.cells))).Failure? ==> Snapshot(lib.cells) == old(Snapshot(lib.cells))
    ensures FindTopCell(old(Snapshot(lib.cells))).Success? ==>
              var k := FindTopCell(old(Snapshot(lib.cells))).value;
              && r.Success? && fresh(r.value)
              && r.value.name == lib.name && r.value.unit == DEFAULT_UNIT && r.value.precision == DEFAULT_PRECISION
              && r.value.cells == lib.cells
              && (forall j :: 0 <= j < |lib.cells| ==>
                    lib.cells[j].name == if lib.cells[j] == lib.cells[k] then newTopName else old(lib.cells[j].name))
              && (Distinct(lib.cells) ==> Snapshot(lib.cells) == RenamedCells(old(Snapshot(lib.cells)), k, newTopName))
  {
    var found := FindTopCell(Snapshot(lib.cells));
    if found.Failure? {
      return Failure(NoTopCell);
    }
    var top := lib.cells[found.value];
    top.name := newTopName;
    var newLib := new Library(lib.name);
    for i := 0 to |lib.cells|
      modifies newLib
      invariant newLib.cells == lib.cells[..i]
      invariant newLib.name == lib.name && newLib.unit == DEFAULT_UNIT && newLib.precision == DEFAULT_PRECISION
    {
      newLib.Add(lib.cells[i]);
    }
    r := Success(newLib);
  }
}
