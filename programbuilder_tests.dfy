/** The scenarios of the program builder's test suite, each stated for any
    cells of the shape the test uses (the test's `print(1)`, `print(2)`, ...
    cells are one-line cells of that shape). */
module ProgramBuilderTests {
  import opened Util
  import opened Locations
  import opened Syntax
  import opened Cells
  import opened ProgramBuilders

  // ---------------------------------------------------------------- programs of one-line cells

  lemma TextAppend(cps: seq<CellProgram>, cp: CellProgram)
    ensures Text(cps + [cp]) == Text(cps) + cp.cell.text + "\n"
  {
    assert (cps + [cp])[..|cps|] == cps;
  }

  /** The program of one cell of one line. */
  lemma OneCell(cp: CellProgram)
    requires '\n' !in cp.cell.text
    ensures Text([cp]) == cp.cell.text + "\n" && TotalLines([cp]) == 1
    ensures Tree([cp]) == Tag(ShiftStmts(cp.statements, 0), Eid(cp))
    ensures LineMap([cp]) == map[1 := cp.cell]
    ensures CellLines([cp]) == map[Eid(cp) := [1]]
  {
    SplitSingle(cp.cell.text, '\n');
    assert [cp][..0] == [];
    var lm := LinesTo(1, 1, cp.cell);
    assert lm == map[1 := cp.cell];
    assert LineMap([cp]) == map[] + lm;
    assert AddLines([], 1, 1) == [1];
  }

  /** The text and the tree of two cells of one line each. */
  lemma TwoCells(cp1: CellProgram, cp2: CellProgram)
    requires '\n' !in cp1.cell.text && '\n' !in cp2.cell.text
    ensures Text([cp1, cp2]) == cp1.cell.text + "\n" + cp2.cell.text + "\n"
    ensures Tree([cp1, cp2]) == Tag(ShiftStmts(cp1.statements, 0), Eid(cp1)) + Tag(ShiftStmts(cp2.statements, 1), Eid(cp2))
  {
    OneCell(cp1);
    assert [cp1, cp2][..1] == [cp1];
  }

  /** The line maps of two cells of one line each. */
  lemma TwoCellsLines(cp1: CellProgram, cp2: CellProgram)
    requires '\n' !in cp1.cell.text && '\n' !in cp2.cell.text
    ensures 1 in LineMap([cp1, cp2]) && LineMap([cp1, cp2])[1] == cp1.cell
    ensures 2 in LineMap([cp1, cp2]) && LineMap([cp1, cp2])[2] == cp2.cell
  {
    var cps := [cp1, cp2];
    OneCell(cp1);
    SplitSingle(cp2.cell.text, '\n');
    assert cps[..1] == [cp1] && cps[..0] == [];
    assert LineOf(cps, 0, 0) == 1;
    assert LineOf(cps, 1, 0) == 2;
    LineMapAt(cps, 0, 0);
    LineMapAt(cps, 1, 0);
  }

  lemma TwoCellsCellLines(cp1: CellProgram, cp2: CellProgram)
    requires '\n' !in cp1.cell.text && '\n' !in cp2.cell.text && Eid(cp1) != Eid(cp2)
    ensures CellLines([cp1, cp2]) == map[Eid(cp1) := [1], Eid(cp2) := [2]]
  {
    var cps, m1 := [cp1, cp2], map[Eid(cp1) := [1]];
    OneCell(cp1);
    SplitSingle(cp2.cell.text, '\n');
    assert cps[..1] == [cp1];
    assert CellLines(cps) == AddCell(m1, cp2, 1);
    assert Get(m1, Eid(cp2)) == [];
    assert AddLines([], 2, 1) == [2];
  }

  // ---------------------------------------------------------------- the scenarios, for any cells

  /** Two one-line cells with undefined counts, distinct ids and no error:
      building to the second takes both, in order, line 1 from the first
      and line 2 from the second. */
  lemma {:induction false} BothCells(cps: seq<CellProgram>, c1: Cell, c2: Cell)
    requires cps == ProgramsOf([c1, c2])
    requires c1.executionCount.None? && c2.executionCount.None?
    requires c1.executionEventId != c2.executionEventId && c1.persistentId != c2.persistentId
    requires !c1.hasError && c1.parsed.Some?
    requires '\n' !in c1.text && '\n' !in c2.text
    ensures var p := Assemble(Selection(cps, c2.executionEventId));
            p.text == c1.text + "\n" + c2.text + "\n" &&
            1 in p.lineToCellMap && p.lineToCellMap[1] == c1 &&
            2 in p.lineToCellMap && p.lineToCellMap[2] == c2 &&
            p.cellToLineMap == map[c1.executionEventId := [1], c2.executionEventId := [2]] &&
            p.tree == Tag(ShiftStmts(c1.parsed.value, 0), c1.executionEventId) +
                      Tag(ShiftStmts(ProgramOf(c2).statements, 1), c2.executionEventId)
  {
    assert LastIndex(cps, c2.executionEventId) == Some(1);
    assert cps[..1][..0] == [];
    assert Collect(cps[..1], None, {c2.persistentId}) == [cps[0]];
    assert Selection(cps, c2.executionEventId) == cps == [cps[0], cps[1]];
    TwoCells(cps[0], cps[1]);
    TwoCellsLines(cps[0], cps[1]);
    TwoCellsCellLines(cps[0], cps[1]);
  }

  /** Building to the first of two cells leaves the second out. */
  lemma {:induction false} FirstCellOnly(cps: seq<CellProgram>, c1: Cell, c2: Cell)
    requires cps == ProgramsOf([c1, c2])
    requires c1.executionEventId != c2.executionEventId && '\n' !in c1.text
    ensures var p := Assemble(Selection(cps, c1.executionEventId));
            p.text == c1.text + "\n" && p.cellToLineMap == map[c1.executionEventId := [1]]
  {
    assert cps[..1] == [cps[0]] && cps[..1][..0] == [];
    assert LastIndex(cps, c1.executionEventId) == Some(0);
    OneCell(cps[0]);
  }

  /** Three one-line cells with undefined counts: the middle one, which
      failed or does not parse, is left out; the first is kept. */
  lemma {:induction false} SkipMiddle(cps: seq<CellProgram>, c1: Cell, bad: Cell, c3: Cell)
    requires cps == ProgramsOf([c1, bad, c3])
    requires c1.executionCount.None? && bad.executionCount.None? && c3.executionCount.None?
    requires c3.executionEventId !in {c1.executionEventId, bad.executionEventId}
    requires c1.persistentId !in {bad.persistentId, c3.persistentId}
    requires !c1.hasError && c1.parsed.Some?
    requires bad.hasError || bad.parsed.None?
    requires '\n' !in c1.text && '\n' !in c3.text
    ensures Assemble(Selection(cps, c3.executionEventId)).text == c1.text + "\n" + c3.text + "\n"
  {
    assert LastIndex(cps, c3.executionEventId) == Some(2);
    assert cps[..2][..1] == [cps[0]] && cps[..2] == [cps[0], cps[1]] && [cps[0]][..0] == [];
    assert Collect([cps[0]], None, {c3.persistentId, bad.persistentId}) == [cps[0]];
    assert cps[1].hasError;
    CollectStep(cps[..2], 1, None, {c3.persistentId});
    assert Collect(cps[..2], None, {c3.persistentId}) == [cps[0]];
    assert Selection(cps, c3.executionEventId) == [cps[0], cps[2]];
    TwoCells(cps[0], cps[2]);
  }

  /** The target is kept even when it failed. */
  lemma {:induction false} FailedTarget(cps: seq<CellProgram>, c1: Cell, c2: Cell, bad: Cell)
    requires cps == ProgramsOf([c1, c2, bad])
    requires c1.executionCount.None? && c2.executionCount.None? && bad.executionCount.None?
    requires bad.executionEventId !in {c1.executionEventId, c2.executionEventId}
    requires c1.persistentId !in {c2.persistentId, bad.persistentId} && c2.persistentId != bad.persistentId
    requires !c1.hasError && c1.parsed.Some? && !c2.hasError && c2.parsed.Some?
    requires '\n' !in c1.text && '\n' !in c2.text
    ensures Assemble(Selection(cps, bad.executionEventId)).text ==
              c1.text + "\n" + c2.text + "\n" + bad.text + "\n"
  {
    assert LastIndex(cps, bad.executionEventId) == Some(2);
    assert cps[..2][..1] == [cps[0]] && cps[..2] == [cps[0], cps[1]] && [cps[0]][..0] == [];
    assert Collect([cps[0]], None, {bad.persistentId, c2.persistentId}) == [cps[0]];
    CollectStep(cps[..2], 1, None, {bad.persistentId});
    assert Collect(cps[..2], None, {bad.persistentId}) == [cps[0], cps[1]];
    assert Selection(cps, bad.executionEventId) == [cps[0], cps[1]] + [cps[2]];
    TwoCells(cps[0], cps[1]);
    TextAppend([cps[0], cps[1]], cps[2]);
  }

  /** Counts 1, 1, 2, 1 with the target last: the count 2 just before the
      target is not below the target's, so only the target is left. */
  lemma {:induction false} PriorKernel(cps: seq<CellProgram>, c1: Cell, c2: Cell, c3: Cell, c4: Cell)
    requires cps == ProgramsOf([c1, c2, c3, c4])
    requires c1.executionCount == Some(1) && c2.executionCount == Some(1)
    requires c3.executionCount == Some(2) && c4.executionCount == Some(1)
    requires '\n' !in c4.text
    ensures var p := Assemble(Selection(cps, c4.executionEventId));
            p.text == c4.text + "\n" && p.cellToLineMap == map[c4.executionEventId := [1]]
  {
    assert LastIndex(cps, c4.executionEventId) == Some(3);
    assert cps[..3][..2] == [cps[0], cps[1]];
    assert Collect(cps[..3], Some(1), {c4.persistentId}) == [];
    OneCell(cps[3]);
  }

  // ---------------------------------------------------------------- the builder

  /** Each test's steps: a fresh builder, `add` of the cells, `buildTo` of
      the target; the program is the one the scenarios above describe. */
  method BuildFresh(cells: seq<Cell>, id: string) returns (p: Program)
    ensures p == Assemble(Selection(ProgramsOf(cells), id))
  {
    var b := new ProgramBuilder();
    b.Add(cells);
    assert [] + ProgramsOf(cells) == ProgramsOf(cells);
    p := b.BuildTo(id);
  }
}
