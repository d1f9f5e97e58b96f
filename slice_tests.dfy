/** The backward-slice scenario of the log slicer's test suite ("does the
    basics"): cells `x=5`, `y=6` and `print(x+y)`, logged in that order with
    execution counts 1, 2 and 3. The slice of the last run holds the three
    cells, in log order, each restricted to its whole single line. It is
    stated for any cells of that shape: each holds one statement spanning its
    one line — a write of a name, a write of another name, and an expression
    statement calling a function on an operation over the two names. */
module SliceTests {
  import opened Util
  import opened Locations
  import opened Syntax
  import opened Specs
  import opened DataFlow
  import opened ControlFlow
  import opened Analysis
  import opened Cells
  import opened CellSlices
  import opened ProgramBuilders
  import opened Merge
  import opened LogSlicers
  import AnalysisTests
  import LogSlicerTests

  /** `x = <literal>` spanning columns 0 to `n` of line `line`. */
  function Constant(x: string, line: int, n: int): Stmt {
    Assign([Name(x)], Literal, Location(line, 0, line, n))
  }

  /** `f(x + y)` spanning columns 0 to `n` of line `line`. */
  function CallOn(f: string, x: string, y: string, line: int, n: int): Stmt {
    ExprStmt(Call(Name(f), [Operation([Name(x), Name(y)])]), Location(line, 0, line, n))
  }

  /** The cells of the test, in log order. */
  predicate BasicsCells(c1: Cell, c2: Cell, c3: Cell, x: string, y: string, f: string) {
    && c1.parsed == Some([Constant(x, 1, |c1.text|)])
    && c2.parsed == Some([Constant(y, 1, |c2.text|)])
    && c3.parsed == Some([CallOn(f, x, y, 1, |c3.text|)])
    && x != y
    && c1.executionCount == Some(1) && c2.executionCount == Some(2) && c3.executionCount == Some(3)
    && !c1.hasError && !c2.hasError && !c3.hasError
    && c1.persistentId != c2.persistentId && c1.persistentId != c3.persistentId && c2.persistentId != c3.persistentId
    && c1.executionEventId != c2.executionEventId && c1.executionEventId != c3.executionEventId
    && c2.executionEventId != c3.executionEventId
    && c1.text != [] && c2.text != [] && c3.text != []
    && '\n' !in c1.text && '\n' !in c2.text && '\n' !in c3.text
  }

  // ---------------------------------------------------------------- the program

  /** Appending a cell of one line to a program, for each part of it. */
  lemma {:induction false} AppendTotal(cps: seq<CellProgram>, cp: CellProgram)
    requires '\n' !in cp.cell.text
    ensures TotalLines(cps + [cp]) == TotalLines(cps) + 1
  {
    assert (cps + [cp])[..|cps|] == cps;
    SplitSingle(cp.cell.text, '\n');
  }

  lemma {:induction false} AppendTree(cps: seq<CellProgram>, cp: CellProgram)
    requires |cp.statements| == 1
    ensures Tree(cps + [cp]) == Tree(cps) + [TreeNode(ShiftStmt(cp.statements[0], TotalLines(cps)), Eid(cp))]
  {
    assert (cps + [cp])[..|cps|] == cps;
    assert cp.statements == [cp.statements[0]];
    assert ShiftStmts(cp.statements, TotalLines(cps))[1..] == [];
  }

  lemma {:induction false} AppendLineMap(cps: seq<CellProgram>, cp: CellProgram)
    requires '\n' !in cp.cell.text
    ensures LineMap(cps + [cp]) == LineMap(cps)[TotalLines(cps) + 1 := cp.cell]
  {
    assert (cps + [cp])[..|cps|] == cps;
    SplitSingle(cp.cell.text, '\n');
    var k := TotalLines(cps) + 1;
    assert LinesTo(k, 1, cp.cell) == map[k := cp.cell];
  }

  lemma {:induction false} AppendCellLines(cps: seq<CellProgram>, cp: CellProgram)
    requires '\n' !in cp.cell.text && Eid(cp) !in CellLines(cps)
    ensures CellLines(cps + [cp]) == CellLines(cps)[Eid(cp) := [TotalLines(cps) + 1]]
  {
    assert (cps + [cp])[..|cps|] == cps;
    SplitSingle(cp.cell.text, '\n');
    assert AddLines([], TotalLines(cps) + 1, 1) == [TotalLines(cps) + 1];
  }

  /** The backward scan from the third cell keeps the two before it. */
  lemma {:induction false} BasicsSelection(cps: seq<CellProgram>, c1: Cell, c2: Cell, c3: Cell, x: string, y: string, f: string)
    requires cps == ProgramsOf([c1, c2, c3]) && BasicsCells(c1, c2, c3, x, y, f)
    ensures Selection(cps, c3.executionEventId) == cps
  {
    ThreeSelection(cps);
  }

  /** Three runs counted 1, 2 and 3, of distinct cells without errors: the
      scan back from the third keeps them all. */
  lemma {:induction false} ThreeSelection(cps: seq<CellProgram>)
    requires |cps| == 3
    requires cps[0].cell.executionCount == Some(1) && cps[1].cell.executionCount == Some(2)
    requires cps[2].cell.executionCount == Some(3)
    requires !cps[0].hasError && !cps[1].hasError
    requires Pid(cps[0]) != Pid(cps[1]) && Pid(cps[0]) != Pid(cps[2]) && Pid(cps[1]) != Pid(cps[2])
    ensures Selection(cps, Eid(cps[2])) == cps
  {
    var pre2, pre1 := cps[..2], cps[..1];
    var p2, p3 := Pid(cps[1]), Pid(cps[2]);
    assert pre2[..1] == pre1 && pre1[..0] == [] && pre1 == [cps[0]];
    assert LastIndex(cps, Eid(cps[2])) == Some(2);
    CollectStep(pre2, 1, Some(3), {p3});
    CollectStep(pre2, 0, Some(2), {p3, p2});
    assert Collect(pre1, Some(2), {p3, p2}) == pre1;
    assert Collect(pre2, Some(3), {p3}) == pre1 + [cps[1]] == pre2;
    assert cps == pre2 + [cps[2]];
  }

  /** The program of three one-line cells, one cell at a time. */
  lemma {:induction false} ThreeTotals(a: seq<CellProgram>, b: seq<CellProgram>, c: seq<CellProgram>)
    requires |c| == 3 && a == [c[0]] && b == a + [c[1]] && c == b + [c[2]]
    requires '\n' !in c[0].cell.text && '\n' !in c[1].cell.text && '\n' !in c[2].cell.text
    ensures TotalLines(a) == 1 && TotalLines(b) == 2 && TotalLines(c) == 3
  {
    AppendTotal([], c[0]);
    assert [] + [c[0]] == a;
    AppendTotal(a, c[1]);
    AppendTotal(b, c[2]);
  }

  lemma {:induction false} ThreeLineMap(a: seq<CellProgram>, b: seq<CellProgram>, c: seq<CellProgram>)
    requires |c| == 3 && a == [c[0]] && b == a + [c[1]] && c == b + [c[2]]
    requires '\n' !in c[0].cell.text && '\n' !in c[1].cell.text && '\n' !in c[2].cell.text
    ensures LineMap(c) == map[1 := c[0].cell, 2 := c[1].cell, 3 := c[2].cell]
  {
    ThreeTotals(a, b, c);
    AppendLineMap([], c[0]);
    assert [] + [c[0]] == a;
    AppendLineMap(a, c[1]);
    AppendLineMap(b, c[2]);
  }

  lemma {:induction false} ThreeCellLines(a: seq<CellProgram>, b: seq<CellProgram>, c: seq<CellProgram>)
    requires |c| == 3 && a == [c[0]] && b == a + [c[1]] && c == b + [c[2]]
    requires '\n' !in c[0].cell.text && '\n' !in c[1].cell.text && '\n' !in c[2].cell.text
    requires Eid(c[0]) != Eid(c[1]) && Eid(c[0]) != Eid(c[2]) && Eid(c[1]) != Eid(c[2])
    ensures CellLines(c) == map[Eid(c[0]) := [1], Eid(c[1]) := [2], Eid(c[2]) := [3]]
  {
    ThreeTotals(a, b, c);
    AppendCellLines([], c[0]);
    assert [] + [c[0]] == a;
    AppendCellLines(a, c[1]);
    AppendCellLines(b, c[2]);
  }

  lemma {:induction false} ThreeTree(a: seq<CellProgram>, b: seq<CellProgram>, c: seq<CellProgram>)
    requires |c| == 3 && a == [c[0]] && b == a + [c[1]] && c == b + [c[2]]
    requires '\n' !in c[0].cell.text && '\n' !in c[1].cell.text && '\n' !in c[2].cell.text
    requires |c[0].statements| == |c[1].statements| == |c[2].statements| == 1
    ensures Tree(c) == [TreeNode(ShiftStmt(c[0].statements[0], 0), Eid(c[0])),
                        TreeNode(ShiftStmt(c[1].statements[0], 1), Eid(c[1])),
                        TreeNode(ShiftStmt(c[2].statements[0], 2), Eid(c[2]))]
  {
    ThreeTotals(a, b, c);
    AppendTree([], c[0]);
    assert [] + [c[0]] == a;
    AppendTree(a, c[1]);
    AppendTree(b, c[2]);
  }

  /** Building to the third cell takes all three, each on its own line. */
  lemma {:induction false} BasicsProgram(cps: seq<CellProgram>, c1: Cell, c2: Cell, c3: Cell, x: string, y: string, f: string)
    requires cps == ProgramsOf([c1, c2, c3]) && BasicsCells(c1, c2, c3, x, y, f)
    ensures var p := Assemble(Selection(cps, c3.executionEventId));
            && p.tree == [TreeNode(Constant(x, 1, |c1.text|), c1.executionEventId),
                          TreeNode(Constant(y, 2, |c2.text|), c2.executionEventId),
                          TreeNode(CallOn(f, x, y, 3, |c3.text|), c3.executionEventId)]
            && p.lineToCellMap == map[1 := c1, 2 := c2, 3 := c3]
            && p.cellToLineMap == map[c1.executionEventId := [1], c2.executionEventId := [2], c3.executionEventId := [3]]
  {
    BasicsSelection(cps, c1, c2, c3, x, y, f);
    var a := [cps[0]];
    var b := a + [cps[1]];
    assert cps == b + [cps[2]];
    ThreeLineMap(a, b, cps);
    ThreeCellLines(a, b, cps);
    ThreeTree(a, b, cps);
    BasicsShifted(x, y, f, |c1.text|, |c2.text|, |c3.text|);
  }

  /** Each cell's statement, moved down by the lines before it. */
  lemma BasicsShifted(x: string, y: string, f: string, n1: int, n2: int, n3: int)
    ensures ShiftStmt(Constant(x, 1, n1), 0) == Constant(x, 1, n1)
    ensures ShiftStmt(Constant(y, 1, n2), 1) == Constant(y, 2, n2)
    ensures ShiftStmt(CallOn(f, x, y, 1, n3), 2) == CallOn(f, x, y, 3, n3)
  {
  }

  // ---------------------------------------------------------------- the dataflows

  /** The program's statements, each on its own line. */
  function BasicsCode(x: string, y: string, f: string, n1: int, n2: int, n3: int): seq<Stmt> {
    [Constant(x, 1, n1), Constant(y, 2, n2), CallOn(f, x, y, 3, n3)]
  }

  /** The call reads both names. */
  lemma CallReads(f: string, x: string, y: string, line: int, n: int)
    ensures x in NodeUses(Plain(CallOn(f, x, y, line, n))) && y in NodeUses(Plain(CallOn(f, x, y, line, n)))
  {
    var op := Operation([Name(x), Name(y)]);
    assert ExprUses(Name(x)) <= ExprsUses([Name(x), Name(y)]);
    assert ExprUses(Name(y)) <= ExprsUses([Name(x), Name(y)]);
    assert ExprUses(op) <= ExprsUses([op]);
  }

  /** Both writes reach the call: the write of `y` does not touch `x`. */
  lemma {:induction false} BasicsReach(x: string, y: string, f: string, n1: int, n2: int, n3: int, specs: SpecTable)
    requires x != y
    ensures var ns, defs := Plains(BasicsCode(x, y, f, n1, n2, n3)), DefsOf([], specs);
            var flows := RunFlows(ns, {}, defs, NodeUses);
            Dataflow(ns[0], ns[2]) in flows && Dataflow(ns[1], ns[2]) in flows
  {
    var ns, defs := Plains(BasicsCode(x, y, f, n1, n2, n3)), DefsOf([], specs);
    var rx := Ref(VariableSymbol, x, Definition, Location(1, 0, 1, n1), TypeOf(Literal, [], specs));
    var ry := Ref(VariableSymbol, y, Definition, Location(2, 0, 2, n2), TypeOf(Literal, [], specs));
    AnalysisTests.AssignWrites(x, Literal, Location(1, 0, 1, n1), [], specs);
    AnalysisTests.AssignWrites(y, Literal, Location(2, 0, 2, n2), [], specs);
    CallReads(f, x, y, 3, n3);
    assert ns[..2][1] == ns[1] && ns[..2][0] == ns[0];
    assert x !in Killed(ns[1], defs);
    assert Reaches(ns, 0, 2, rx, defs, NodeUses);
    assert Reaches(ns, 1, 2, ry, defs, NodeUses);
    FlowsLinear(ns, Dataflow(ns[0], ns[2]), defs, NodeUses);
    FlowsLinear(ns, Dataflow(ns[1], ns[2]), defs, NodeUses);
  }

  /** Every dataflow comes from one of the three statements. */
  lemma {:induction false} BasicsFroms(x: string, y: string, f: string, n1: int, n2: int, n3: int, specs: SpecTable)
    ensures var ns := Plains(BasicsCode(x, y, f, n1, n2, n3));
            Froms(RunFlows(ns, {}, DefsOf([], specs), NodeUses)) <= {NodeLoc(ns[0]), NodeLoc(ns[1]), NodeLoc(ns[2])}
  {
    ThreeFroms(Plains(BasicsCode(x, y, f, n1, n2, n3)), DefsOf([], specs), NodeUses);
  }

  /** In straight-line code of three statements, every dataflow comes from one of them. */
  lemma {:induction false} ThreeFroms(ns: seq<Node>, defs: Node -> seq<Ref>, uses: Node -> set<string>)
    requires |ns| == 3
    ensures Froms(RunFlows(ns, {}, defs, uses)) <= {NodeLoc(ns[0]), NodeLoc(ns[1]), NodeLoc(ns[2])}
  {
    forall d | d in RunFlows(ns, {}, defs, uses)
      ensures NodeLoc(d.fromNode) in {NodeLoc(ns[0]), NodeLoc(ns[1]), NodeLoc(ns[2])}
    {
      FlowsLinear(ns, d, defs, uses);
      var i, j, r :| Reaches(ns, i, j, r, defs, uses) && d == Dataflow(ns[i], ns[j]);
    }
  }

  /** A closure that starts from the call and has both writes flowing into
      it holds the three statements and nothing else. */
  lemma BasicsClosure(flows: set<Dataflow>, n0: Node, n1: Node, n2: Node, R: set<Location>)
    requires Dataflow(n0, n2) in flows && Dataflow(n1, n2) in flows
    requires Froms(flows) <= {NodeLoc(n0), NodeLoc(n1), NodeLoc(n2)}
    requires LeastSlice(flows, {NodeLoc(n2)}, R)
    ensures R == {NodeLoc(n0), NodeLoc(n1), NodeLoc(n2)}
  {
    var all := {NodeLoc(n0), NodeLoc(n1), NodeLoc(n2)};
    forall g | g in flows && Covered(all, NodeLoc(g.toNode)) ensures NodeLoc(g.fromNode) in all {
      assert NodeLoc(g.fromNode) in Froms(flows);
    }
    assert SliceClosed(flows, all);
    assert R <= all;
    assert Within(NodeLoc(n2), NodeLoc(n2));
    assert Covered(R, NodeLoc(Dataflow(n0, n2).toNode));
    assert NodeLoc(n0) in R && NodeLoc(n1) in R;
  }

  /** The statement that starts on the call's line is the call. */
  lemma {:induction false} BasicsSeeds(code: seq<Stmt>)
    requires |code| == 3 && code[0].loc.firstLine == 1 && code[1].loc.firstLine == 2 && code[2].loc.firstLine == 3
    requires forall k :: 0 <= k < |code| ==> !Compound(code[k])
    ensures Seeds(Build(code), [3]) == {code[2].loc}
  {
    StraightLineBuild(code);
    var ns := Plains(code);
    var g := Build(code);
    assert g.blocks[0].statements == ns;
    forall n | n in NodesOf(g) ensures n in ns {
      var b, k :| 0 <= b < |g.blocks| && 0 <= k < |g.blocks[b].statements| && n == g.blocks[b].statements[k];
    }
    assert ns[2] in NodesOf(g);
    assert NodeLoc(ns[2]) == code[2].loc;
  }

  // ---------------------------------------------------------------- packaging

  /** A duplicate-free list of exactly one value is that value alone. */
  lemma OnlyElement<T>(s: seq<T>, v: T)
    requires NoDup(s) && forall l :: l in s <==> l == v
    ensures s == [v]
  {
    NoDupCard(s);
    assert (set l | l in s) == {v};
    assert s[0] in s;
  }

  /** The part of the slice in a cell that only location `l` of the slice
      starts in: `l` moved to the cell's own lines. */
  lemma RelativeOne(p: Program, e: string, R: set<Location>, l: Location)
    requires l in R && InCell(p, l, e)
    requires forall m :: m in R && m != l ==> !InCell(p, m, e)
    ensures Relative(p, e, R) == {Shift(l, 1 - StartLine(p, e))}
  {
  }

  /** The program's cells, in their order. */
  lemma {:induction false} BasicsOrder(p: Program, c1: Cell, c2: Cell, c3: Cell)
    requires p.lineToCellMap == map[1 := c1, 2 := c2, 3 := c3]
    requires c1.executionEventId != c2.executionEventId && c1.executionEventId != c3.executionEventId
    requires c2.executionEventId != c3.executionEventId
    ensures ProgramCells(p) == [c1, c2, c3]
  {
    var m := p.lineToCellMap;
    assert m.Keys == {1, 2, 3};
    assert |m| == 3;
    assert CellOrder(m, 0) == [];
    assert CellOrder(m, 1) == [c1];
    assert !HasRun([c1], c2.executionEventId);
    assert CellOrder(m, 2) == [c1, c2];
    assert !HasRun([c1, c2], c3.executionEventId);
  }

  /** Each cell's part of the slice is its statement, moved to its first line. */
  lemma {:induction false} BasicsRelative(p: Program, c1: Cell, c2: Cell, c3: Cell, R: set<Location>, n1: int, n2: int, n3: int)
    requires p.lineToCellMap == map[1 := c1, 2 := c2, 3 := c3]
    requires p.cellToLineMap == map[c1.executionEventId := [1], c2.executionEventId := [2], c3.executionEventId := [3]]
    requires c1.executionEventId != c2.executionEventId && c1.executionEventId != c3.executionEventId
    requires c2.executionEventId != c3.executionEventId
    requires R == {Location(1, 0, 1, n1), Location(2, 0, 2, n2), Location(3, 0, 3, n3)}
    ensures Relative(p, c1.executionEventId, R) == {Location(1, 0, 1, n1)}
    ensures Relative(p, c2.executionEventId, R) == {Location(1, 0, 1, n2)}
    ensures Relative(p, c3.executionEventId, R) == {Location(1, 0, 1, n3)}
  {
    var e1, e2, e3 := c1.executionEventId, c2.executionEventId, c3.executionEventId;
    assert StartLine(p, e1) == 1 && StartLine(p, e2) == 2 && StartLine(p, e3) == 3;
    RelativeOne(p, e1, R, Location(1, 0, 1, n1));
    RelativeOne(p, e2, R, Location(2, 0, 2, n2));
    RelativeOne(p, e3, R, Location(3, 0, 3, n3));
  }

  /** All three cells contribute, in order. */
  lemma {:induction false} BasicsContributing(p: Program, c1: Cell, c2: Cell, c3: Cell, R: set<Location>)
    requires Relative(p, c1.executionEventId, R) != {} && Relative(p, c2.executionEventId, R) != {}
    requires Relative(p, c3.executionEventId, R) != {}
    ensures Contributing(p, R, [c1, c2, c3]) == [c1, c2, c3]
  {
    var order := [c1, c2, c3];
    assert order[..2][..1] == [c1] && order[..2] == [c1, c2] && [c1][..0] == [];
    assert Contributing(p, R, [c1]) == [c1];
    assert Contributing(p, R, [c1, c2]) == [c1, c2];
  }

  /** Every cell contributes its one statement, moved to its first line. */
  lemma {:induction false} BasicsPackaged(p: Program, c1: Cell, c2: Cell, c3: Cell, n1: int, n2: int, n3: int, r: SlicedExecution)
    requires p.lineToCellMap == map[1 := c1, 2 := c2, 3 := c3]
    requires p.cellToLineMap == map[c1.executionEventId := [1], c2.executionEventId := [2], c3.executionEventId := [3]]
    requires c1.executionEventId != c2.executionEventId && c1.executionEventId != c3.executionEventId
    requires c2.executionEventId != c3.executionEventId
    requires Packaged(r, p, {Location(1, 0, 1, n1), Location(2, 0, 2, n2), Location(3, 0, 3, n3)})
    ensures |r.cellSlices| == 3
    ensures r.cellSlices[0] == CellSlice(c1, [Location(1, 0, 1, n1)])
    ensures r.cellSlices[1] == CellSlice(c2, [Location(1, 0, 1, n2)])
    ensures r.cellSlices[2] == CellSlice(c3, [Location(1, 0, 1, n3)])
  {
    var R := {Location(1, 0, 1, n1), Location(2, 0, 2, n2), Location(3, 0, 3, n3)};
    BasicsOrder(p, c1, c2, c3);
    BasicsRelative(p, c1, c2, c3, R, n1, n2, n3);
    BasicsContributing(p, c1, c2, c3, R);
    assert SliceFor(r.cellSlices[0], c1, p, R);
    assert SliceFor(r.cellSlices[1], c2, p, R);
    assert SliceFor(r.cellSlices[2], c3, p, R);
    OnlyElement(r.cellSlices[0].slice, Location(1, 0, 1, n1));
    OnlyElement(r.cellSlices[1].slice, Location(1, 0, 1, n2));
    OnlyElement(r.cellSlices[2].slice, Location(1, 0, 1, n3));
  }

  // ---------------------------------------------------------------- the scenario

  /** The closure of the call's line covers the three statements. */
  lemma {:induction false} BasicsRange(code: seq<Stmt>, x: string, y: string, f: string, n1: int, n2: int, n3: int,
                                       specs: SpecTable, out: seq<set<Reaching>>, R: set<Location>)
    requires x != y && code == BasicsCode(x, y, f, n1, n2, n3)
    requires LeastSlice(Flows(Build(code), out, DefsOf([], specs), NodeUses), Seeds(Build(code), [3]), R)
    ensures R == {Location(1, 0, 1, n1), Location(2, 0, 2, n2), Location(3, 0, 3, n3)}
  {
    var defs := DefsOf([], specs);
    var ns := Plains(code);
    StraightLineFlows(code, out, defs, NodeUses);
    BasicsSeeds(code);
    BasicsReach(x, y, f, n1, n2, n3, specs);
    BasicsFroms(x, y, f, n1, n2, n3, specs);
    BasicsClosure(RunFlows(ns, {}, defs, NodeUses), ns[0], ns[1], ns[2], R);
  }

  /** A slice of a run whose program is the three statements, seeded on
      the call's line, packages the three statements. */
  lemma {:induction false} SliceRange(cps: seq<CellProgram>, eid: string, specs: SpecTable, r: SlicedExecution, p: Program,
                                      x: string, y: string, f: string, n1: int, n2: int, n3: int)
    requires SliceOf(cps, eid, specs, r) && p == Assemble(Selection(cps, eid))
    requires x != y && TreeStmts(p.tree) == BasicsCode(x, y, f, n1, n2, n3) && Get(p.cellToLineMap, eid) == [3]
    ensures Packaged(r, p, {Location(1, 0, 1, n1), Location(2, 0, 2, n2), Location(3, 0, 3, n3)})
  {
    var code := BasicsCode(x, y, f, n1, n2, n3);
    var g, defs := Build(code), DefsOf([], specs);
    var out, R :| && Closed(g, out, defs) && Least(g, out, defs)
                  && LeastSlice(Flows(g, out, defs, NodeUses), Seeds(g, [3]), R)
                  && Packaged(r, p, R);
    BasicsRange(code, x, y, f, n1, n2, n3, specs, out, R);
  }

  /** The program's statements, as the analysis sees them. */
  lemma {:induction false} BasicsStatements(cps: seq<CellProgram>, c1: Cell, c2: Cell, c3: Cell, x: string, y: string, f: string)
    requires cps == ProgramsOf([c1, c2, c3]) && BasicsCells(c1, c2, c3, x, y, f)
    ensures var p := Assemble(Selection(cps, c3.executionEventId));
            && TreeStmts(p.tree) == BasicsCode(x, y, f, |c1.text|, |c2.text|, |c3.text|)
            && Get(p.cellToLineMap, c3.executionEventId) == [3]
  {
    BasicsProgram(cps, c1, c2, c3, x, y, f);
  }

  /** The slice of `c` renders as the whole cell, in both modes. */
  predicate Whole(cs: CellSlice, c: Cell) {
    cs.cell == c && TextSlice(cs) == c.text && TextSliceLines(cs) == c.text
  }

  /** "Does the basics": the slice of the call's run holds the three cells,
      in log order, each whole in both renderings. */
  lemma {:induction false} BasicsSlice(cps: seq<CellProgram>, c1: Cell, c2: Cell, c3: Cell, x: string, y: string, f: string,
                                       specs: SpecTable, r: SlicedExecution)
    requires cps == ProgramsOf([c1, c2, c3]) && BasicsCells(c1, c2, c3, x, y, f)
    requires SliceOf(cps, c3.executionEventId, specs, r)
    ensures |r.cellSlices| == 3
    ensures Whole(r.cellSlices[0], c1) && Whole(r.cellSlices[1], c2) && Whole(r.cellSlices[2], c3)
  {
    var p := Assemble(Selection(cps, c3.executionEventId));
    BasicsProgram(cps, c1, c2, c3, x, y, f);
    BasicsStatements(cps, c1, c2, c3, x, y, f);
    SliceRange(cps, c3.executionEventId, specs, r, p, x, y, f, |c1.text|, |c2.text|, |c3.text|);
    BasicsPackaged(p, c1, c2, c3, |c1.text|, |c2.text|, |c3.text|, r);
    WholeLine(c1);
    WholeLine(c2);
    WholeLine(c3);
  }

  /** The call's cell ran once. */
  lemma {:induction false} BasicsRuns(log: seq<CellExecution>, c1: Cell, c2: Cell, c3: Cell)
    requires LoggedCells(log) == [c1, c2, c3]
    requires c1.persistentId != c3.persistentId && c2.persistentId != c3.persistentId
    ensures RunsOf(log, c3.persistentId) == [CellExecution(c3)]
  {
    assert log[0].cell == c1 && log[1].cell == c2 && log[2].cell == c3;
    assert log[..2][..1] == log[..1] && log[..1][..0] == [];
    assert RunsOf(log[..1], c3.persistentId) == [];
    assert RunsOf(log[..2], c3.persistentId) == [];
    assert log[2] == CellExecution(c3);
  }

  /** The test: log the three cells, then slice every run of the call's
      cell. There is one run, and its slice is the three cells, whole. */
  method Basics(specs: SpecTable, c1: Cell, c2: Cell, c3: Cell, x: string, y: string, f: string)
    returns (slices: seq<SlicedExecution>)
    requires BasicsCells(c1, c2, c3, x, y, f)
    ensures |slices| == 1 && |slices[0].cellSlices| == 3
    ensures Whole(slices[0].cellSlices[0], c1) && Whole(slices[0].cellSlices[1], c2) && Whole(slices[0].cellSlices[2], c3)
  {
    var s := LogSlicerTests.MakeLog(specs, [c1, c2, c3]);
    slices := s.SliceAllExecutions(c3.persistentId);
    BasicsRuns(s.cellExecutions, c1, c2, c3);
    BasicsSlice(ProgramsOf([c1, c2, c3]), c1, c2, c3, x, y, f, specs, slices[0]);
  }

  // ---------------------------------------------------------------- which cells a slice keeps

  /** "Does Jim's demo", abstracted: a cell none of whose statements the
      target transitively reads gets no cell slice. `S` is any set of
      locations that holds the seeds and every source of a dataflow into it
      (the statements the target reads, directly or not), and no location of
      `S` lies in run `e`. */
  lemma ExcludedCell(flows: set<Dataflow>, seeds: set<Location>, R: set<Location>, S: set<Location>,
                     p: Program, e: string, r: SlicedExecution)
    requires LeastSlice(flows, seeds, R) && Packaged(r, p, R)
    requires seeds <= S && SliceClosed(flows, S)
    requires forall l :: l in S ==> !InCell(p, l, e)
    ensures forall k :: 0 <= k < |r.cellSlices| ==> r.cellSlices[k].cell.executionEventId != e
  {
    assert R <= S;
    assert Relative(p, e, R) == {};
    var cs := Contributing(p, R, ProgramCells(p));
    forall k | 0 <= k < |r.cellSlices| ensures r.cellSlices[k].cell.executionEventId != e {
      assert SliceFor(r.cellSlices[k], cs[k], p, R);
    }
  }

  /** A cell whose run holds a location of the slice is among the cells
      `Contributing` keeps. */
  lemma {:induction false} ContributingHas(p: Program, R: set<Location>, order: seq<Cell>, i: nat)
    requires i < |order| && Relative(p, order[i].executionEventId, R) != {}
    ensures order[i] in Contributing(p, R, order)
    decreases |order|
  {
    var init := order[..|order| - 1];
    if i < |init| {
      assert init[i] == order[i];
      ContributingHas(p, R, init, i);
    }
  }

  /** The converse, for the cells the target does read: every cell of the
      program that holds a location of the slice gets a cell slice, holding
      exactly that cell's part of the slice. */
  lemma IncludedCell(p: Program, R: set<Location>, r: SlicedExecution, i: nat)
    requires Packaged(r, p, R)
    requires i < |ProgramCells(p)| && Relative(p, ProgramCells(p)[i].executionEventId, R) != {}
    ensures exists k :: 0 <= k < |r.cellSlices| && r.cellSlices[k].cell == ProgramCells(p)[i] &&
                        forall l :: l in r.cellSlices[k].slice <==> l in Relative(p, ProgramCells(p)[i].executionEventId, R)
  {
    var k := SliceIndex(p, R, r, i);
  }

  /** Where the cell slice of a contributing cell sits. */
  lemma SliceIndex(p: Program, R: set<Location>, r: SlicedExecution, i: nat) returns (k: nat)
    requires Packaged(r, p, R)
    requires i < |ProgramCells(p)| && Relative(p, ProgramCells(p)[i].executionEventId, R) != {}
    ensures k < |r.cellSlices| && SliceFor(r.cellSlices[k], ProgramCells(p)[i], p, R)
  {
    var cs := Contributing(p, R, ProgramCells(p));
    ContributingHas(p, R, ProgramCells(p), i);
    k :| 0 <= k < |cs| && cs[k] == ProgramCells(p)[i];
  }
}
