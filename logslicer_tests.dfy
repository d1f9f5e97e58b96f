/** The dependents scenarios of the log slicer's test suite. Each is stated
    for any cells of the test's shape: what a cell defines and reads is given
    as the sets of names its text defines and reads (`x = 3` defines `x`,
    `y = x+1` defines `y` and reads `x`). */
module LogSlicerTests {
  import opened Util
  import opened Specs
  import opened Cells
  import opened Dependencies
  import opened LogSlicers

  // ---------------------------------------------------------------- the notebook and the walk, unfolded

  /** With every persistent id run once, the notebook is the log itself. */
  lemma {:induction false} NotebookDistinct(cells: seq<Cell>)
    requires DistinctPids(cells)
    ensures Notebook(cells) == cells
    decreases |cells|
  {
    if cells != [] {
      var init := cells[..|cells| - 1];
      NotebookDistinct(init);
      assert PidIndex(init, cells[|cells| - 1].persistentId) == |init|;
      assert cells == init + [cells[|cells| - 1]];
    }
  }

  /** The notebook after one more run. */
  lemma NotebookAppend(cells: seq<Cell>, c: Cell)
    ensures var nb := Notebook(cells);
            var k := PidIndex(nb, c.persistentId);
            Notebook(cells + [c]) == if k < |nb| then nb[k := c] else nb + [c]
  {
    assert (cells + [c])[..|cells|] == cells;
  }

  /** The cells after run `k` of a log of distinct persistent ids. */
  lemma DistinctLater(cells: seq<Cell>, k: nat)
    requires DistinctPids(cells) && k < |cells|
    ensures Later(cells, cells[k]) == cells[k + 1..]
  {
    NotebookDistinct(cells);
    assert PidIndex(cells, cells[k].persistentId) == k;
  }

  lemma WalkOne(w: Walk, b: Cell, defs: Cell -> set<string>, uses: Cell -> set<string>)
    ensures WalkAll(w, [b], defs, uses) == Dependencies.Step(w, b, defs, uses)
  {
    assert [b][..0] == [];
  }

  lemma WalkTwo(w: Walk, b: Cell, c: Cell, defs: Cell -> set<string>, uses: Cell -> set<string>)
    ensures WalkAll(w, [b, c], defs, uses) == Dependencies.Step(Dependencies.Step(w, b, defs, uses), c, defs, uses)
  {
    assert [b, c][..1] == [b];
    WalkOne(w, b, defs, uses);
  }

  lemma WalkThree(w: Walk, b: Cell, c: Cell, d: Cell, defs: Cell -> set<string>, uses: Cell -> set<string>)
    ensures WalkAll(w, [b, c, d], defs, uses) ==
              Dependencies.Step(Dependencies.Step(Dependencies.Step(w, b, defs, uses), c, defs, uses), d, defs, uses)
  {
    assert [b, c, d][..2] == [b, c];
    WalkTwo(w, b, c, defs, uses);
  }

  /** A target that defines `x`, a cell that reads `x` and defines `v`, and a
      cell that reads both: two dependents, the second reading the first. */
  lemma {:induction false} ChainWalk(t: Cell, y: Cell, z: Cell, x: string, v: string, defs: Cell -> set<string>, uses: Cell -> set<string>)
    requires defs(t) == {x} && uses(y) == {x} && defs(y) == {v} && uses(z) == {x, v}
    ensures WalkAll(Begin(t, defs), [y, z], defs, uses).deps == [y, z]
    ensures (1, 2) in WalkAll(Begin(t, defs), [y, z], defs, uses).edges
  {
    WalkTwo(Begin(t, defs), y, z, defs, uses);
    var w1 := Dependencies.Step(Begin(t, defs), y, defs, uses);
    assert x in Read(Begin(t, defs), y, uses);
    assert w1.live[v] == 1;
    assert v in Read(w1, z, uses);
  }

  // ---------------------------------------------------------------- the scenarios

  /** `x = 3`, `y = x+1`: the second cell depends on the first. */
  lemma {:induction false} InOrder(a: Cell, b: Cell, x: string, y: string, defs: Cell -> set<string>, uses: Cell -> set<string>)
    requires a.persistentId != b.persistentId && a.executionEventId != b.executionEventId
    requires defs(a) == {x} && uses(b) == {x} && defs(b) == {y}
    ensures Dependents([a, b], a.executionEventId, defs, uses) == [b]
  {
    DistinctLater([a, b], 0);
    assert [a, b][1..] == [b];
    WalkOne(Begin(a, defs), b, defs, uses);
    assert x in Read(Begin(a, defs), b, uses);
  }

  /** `x = 3`, `y = x+1`, `x = 4`, `y = x*2`: the redefinition of `x` cuts
      the last cell off from the first, and makes it depend on the third. */
  lemma {:induction false} Redefinition(a: Cell, b: Cell, c: Cell, d: Cell, x: string, y: string,
                                        defs: Cell -> set<string>, uses: Cell -> set<string>)
    requires DistinctPids([a, b, c, d])
    requires forall i, j :: 0 <= i < j < 4 ==> [a, b, c, d][i].executionEventId != [a, b, c, d][j].executionEventId
    requires x != y
    requires defs(a) == {x} && uses(b) == {x} && defs(b) == {y}
    requires defs(c) == {x} && uses(c) == {} && uses(d) == {x}
    ensures Dependents([a, b, c, d], a.executionEventId, defs, uses) == [b]
    ensures Dependents([a, b, c, d], c.executionEventId, defs, uses) == [d]
  {
    var cells := [a, b, c, d];
    assert EventIndex(cells, a.executionEventId) == 0;
    assert EventIndex(cells, c.executionEventId) == 2 by {
      assert cells[2] == c;
    }
    DistinctLater(cells, 0);
    DistinctLater(cells, 2);
    assert cells[1..] == [b, c, d] && cells[3..] == [d];
    WalkThree(Begin(a, defs), b, c, d, defs, uses);
    var w1 := Dependencies.Step(Begin(a, defs), b, defs, uses);
    assert x in Read(Begin(a, defs), b, uses);
    var w2 := Dependencies.Step(w1, c, defs, uses);
    assert Read(w1, c, uses) == {};
    assert x !in w2.live;
    assert Read(w2, d, uses) == {};
    WalkOne(Begin(c, defs), d, defs, uses);
    assert x in Read(Begin(c, defs), d, uses);
  }

  /** Two cells, the second reading nothing the first defines: no dependents. */
  lemma {:induction false} NoDeps(a: Cell, b: Cell, defs: Cell -> set<string>, uses: Cell -> set<string>)
    requires a.persistentId != b.persistentId
    requires uses(b) * defs(a) == {}
    ensures Dependents([a, b], a.executionEventId, defs, uses) == []
  {
    DistinctLater([a, b], 0);
    assert [a, b][1..] == [b];
    NoReaderNoDependents(a, [b], defs, uses);
  }

  /** `x = 3`, `y = x+1`, `z = y-1`: the third cell depends on the first
      through the second. */
  lemma {:induction false} Transitive(a: Cell, b: Cell, c: Cell, x: string, y: string,
                                      defs: Cell -> set<string>, uses: Cell -> set<string>)
    requires DistinctPids([a, b, c])
    requires defs(a) == {x} && uses(b) == {x} && defs(b) == {y} && uses(c) == {y}
    ensures Dependents([a, b, c], a.executionEventId, defs, uses) == [b, c]
  {
    DistinctLater([a, b, c], 0);
    assert [a, b, c][1..] == [b, c];
    WalkTwo(Begin(a, defs), b, c, defs, uses);
    var w1 := Dependencies.Step(Begin(a, defs), b, defs, uses);
    assert x in Read(Begin(a, defs), b, uses);
    assert y in Read(w1, c, uses);
  }

  /** `x = 3` and `q = 2` in one cell, `y = x+1`, `z = q-1`: each of the
      cell's names has a reader. */
  lemma {:induction false} AllDefs(a: Cell, b: Cell, c: Cell, x: string, q: string, y: string,
                                   defs: Cell -> set<string>, uses: Cell -> set<string>)
    requires DistinctPids([a, b, c])
    requires defs(a) == {x, q} && uses(b) == {x} && defs(b) == {y} && uses(c) == {q}
    ensures Dependents([a, b, c], a.executionEventId, defs, uses) == [b, c]
  {
    DistinctLater([a, b, c], 0);
    assert [a, b, c][1..] == [b, c];
    WalkTwo(Begin(a, defs), b, c, defs, uses);
    var w1 := Dependencies.Step(Begin(a, defs), b, defs, uses);
    assert x in Read(Begin(a, defs), b, uses);
    assert q in w1.live;
    assert q in Read(w1, c, uses);
  }

  /** The notebook after cells 0, 1, 2 and a re-run of 0. */
  lemma {:induction false} RerunNotebook(a0: Cell, b: Cell, q: Cell, a1: Cell)
    requires DistinctPids([a0, b, q]) && a1.persistentId == a0.persistentId
    ensures Notebook([a0, b, q, a1]) == [a1, b, q]
    ensures Later([a0, b, q, a1], a1) == [b, q]
  {
    NotebookDistinct([a0, b, q]);
    NotebookAppend([a0, b, q], a1);
    assert [a0, b, q] + [a1] == [a0, b, q, a1];
    assert PidIndex([a0, b, q], a1.persistentId) == 0;
    assert PidIndex([a1, b, q], a1.persistentId) == 0;
    assert [a1, b, q][1..] == [b, q];
  }

  /** Cells 0, 1, 2, then 0 again: the re-run's dependent is cell 1, which
      reads its `x`, although cell 1 ran before it. */
  lemma {:induction false} Rerun(a0: Cell, b: Cell, q: Cell, a1: Cell, x: string,
                                 defs: Cell -> set<string>, uses: Cell -> set<string>)
    requires DistinctPids([a0, b, q]) && a1.persistentId == a0.persistentId
    requires a1.executionEventId !in {a0.executionEventId, b.executionEventId, q.executionEventId}
    requires defs(a1) == {x} && x in uses(b) && uses(q) == {}
    ensures Dependents([a0, b, q, a1], a1.executionEventId, defs, uses) == [b]
  {
    var cells := [a0, b, q, a1];
    assert cells[0] == a0 && cells[1] == b && cells[2] == q && cells[3] == a1;
    assert EventIndex(cells, a1.executionEventId) == 3;
    RerunNotebook(a0, b, q, a1);
    WalkTwo(Begin(a1, defs), b, q, defs, uses);
    assert x in Read(Begin(a1, defs), b, uses);
  }

  /** The same log when cell 1 no longer reads `x`: no dependents. */
  lemma {:induction false} RerunNoOp(a0: Cell, b: Cell, q: Cell, a1: Cell,
                                     defs: Cell -> set<string>, uses: Cell -> set<string>)
    requires DistinctPids([a0, b, q]) && a1.persistentId == a0.persistentId
    requires a1.executionEventId !in {a0.executionEventId, b.executionEventId, q.executionEventId}
    requires uses(b) * defs(a1) == {} && uses(q) * defs(a1) == {}
    ensures Dependents([a0, b, q, a1], a1.executionEventId, defs, uses) == []
  {
    var cells := [a0, b, q, a1];
    assert cells[0] == a0 && cells[1] == b && cells[2] == q && cells[3] == a1;
    assert EventIndex(cells, a1.executionEventId) == 3;
    RerunNotebook(a0, b, q, a1);
    NoReaderNoDependents(a1, [b, q], defs, uses);
  }

  /** The notebook after run `j` of the log. */
  lemma NotebookStep(cells: seq<Cell>, j: nat)
    requires j < |cells|
    ensures var nb := Notebook(cells[..j]);
            var k := PidIndex(nb, cells[j].persistentId);
            Notebook(cells[..j + 1]) == if k < |nb| then nb[k := cells[j]] else nb + [cells[j]]
  {
    assert cells[..j + 1] == cells[..j] + [cells[j]];
    NotebookAppend(cells[..j], cells[j]);
  }

  /** A run whose persistent id is at position `k` of the notebook replaces that cell. */
  lemma NotebookReplace(cells: seq<Cell>, j: nat, nb: seq<Cell>, k: nat)
    requires j < |cells| && Notebook(cells[..j]) == nb && k < |nb|
    requires nb[k].persistentId == cells[j].persistentId
    requires forall i :: 0 <= i < k ==> nb[i].persistentId != cells[j].persistentId
    ensures Notebook(cells[..j + 1]) == nb[k := cells[j]]
  {
    NotebookStep(cells, j);
    assert PidIndex(nb, cells[j].persistentId) == k;
  }

  /** A run of a new persistent id is appended to the notebook. */
  lemma NotebookNew(cells: seq<Cell>, j: nat, nb: seq<Cell>)
    requires j < |cells| && Notebook(cells[..j]) == nb
    requires forall i :: 0 <= i < |nb| ==> nb[i].persistentId != cells[j].persistentId
    ensures Notebook(cells[..j + 1]) == nb + [cells[j]]
  {
    NotebookStep(cells, j);
    assert PidIndex(nb, cells[j].persistentId) == |nb|;
  }

  /** Runs of one persistent id only: the notebook holds the last. */
  lemma {:induction false} SamePidRuns(cells: seq<Cell>, n: nat)
    requires 0 < n <= |cells|
    requires forall k :: 0 <= k < n ==> cells[k].persistentId == cells[0].persistentId
    ensures Notebook(cells[..n]) == [cells[n - 1]]
  {
    if n == 1 {
      assert cells[..0] == [];
      NotebookNew(cells, 0, []);
    } else {
      SamePidRuns(cells, n - 1);
      NotebookReplace(cells, n - 1, [cells[n - 2]], 0);
    }
  }

  /** The cells after the target, read off a known notebook. */
  lemma LaterOf(cells: seq<Cell>, nb: seq<Cell>, t: Cell, k: nat)
    requires Notebook(cells) == nb && k < |nb| && PidIndex(nb, t.persistentId) == k
    ensures Later(cells, t) == nb[k + 1..]
  {
  }

  /** Cell 0 run four times, then cells 1 and 2, then 0 again. The notebook
      holds the last run of 0 and cells 1 and 2. */
  lemma {:induction false} TopoNotebook(cells: seq<Cell>)
    requires |cells| == 7
    requires forall k :: 0 <= k < 7 && k != 4 && k != 5 ==> cells[k].persistentId == cells[0].persistentId
    requires DistinctPids([cells[0], cells[4], cells[5]])
    ensures Later(cells, cells[6]) == [cells[4], cells[5]]
  {
    var c3, c4, c5, c6 := cells[3], cells[4], cells[5], cells[6];
    TopoPrefix(cells);
    NotebookReplace(cells, 6, [c3, c4, c5], 0);
    assert [c3, c4, c5][0 := c6] == [c6, c4, c5];
    assert cells[..7] == cells;
    LaterOf(cells, [c6, c4, c5], c6, 0);
    assert [c6, c4, c5][1..] == [c4, c5];
  }

  /** The first six runs of the topological-order test. */
  lemma {:induction false} TopoPrefix(cells: seq<Cell>)
    requires |cells| == 7
    requires forall k :: 0 <= k < 7 && k != 4 && k != 5 ==> cells[k].persistentId == cells[0].persistentId
    requires DistinctPids([cells[0], cells[4], cells[5]])
    ensures Notebook(cells[..6]) == [cells[3], cells[4], cells[5]]
    ensures cells[4].persistentId != cells[6].persistentId && cells[5].persistentId != cells[6].persistentId
  {
    var c3, c4, c5 := cells[3], cells[4], cells[5];
    var p := cells[0].persistentId;
    assert [cells[0], c4, c5][0] == cells[0] && [cells[0], c4, c5][1] == c4 && [cells[0], c4, c5][2] == c5;
    assert c4.persistentId != p && c5.persistentId != p && c4.persistentId != c5.persistentId;
    SamePidRuns(cells, 4);
    NotebookNew(cells, 4, [c3]);
    assert [c3] + [c4] == [c3, c4];
    NotebookNew(cells, 5, [c3, c4]);
    assert [c3, c4] + [c5] == [c3, c4, c5];
  }

  /** Cells 0, 1, 2, then 0 and 1 again. */
  lemma {:induction false} AgainHead(cells: seq<Cell>)
    requires |cells| == 7 && DistinctPids(cells[..3])
    requires cells[3].persistentId == cells[0].persistentId && cells[4].persistentId == cells[1].persistentId
    ensures Notebook(cells[..5]) == [cells[3], cells[4], cells[2]]
  {
    var c0, c1, c2, c3, c4 := cells[0], cells[1], cells[2], cells[3], cells[4];
    assert cells[..3] == [c0, c1, c2];
    assert c0.persistentId != c1.persistentId;
    NotebookDistinct(cells[..3]);
    NotebookReplace(cells, 3, [c0, c1, c2], 0);
    assert [c0, c1, c2][0 := c3] == [c3, c1, c2];
    NotebookReplace(cells, 4, [c3, c1, c2], 1);
    assert [c3, c1, c2][1 := c4] == [c3, c4, c2];
  }

  /** Cells 0, 1, 2, then each of them again, then 0 once more. */
  lemma {:induction false} AgainNotebook(cells: seq<Cell>)
    requires |cells| == 7 && DistinctPids(cells[..3])
    requires cells[3].persistentId == cells[0].persistentId && cells[4].persistentId == cells[1].persistentId
    requires cells[5].persistentId == cells[2].persistentId && cells[6].persistentId == cells[0].persistentId
    ensures Later(cells, cells[6]) == [cells[4], cells[5]]
  {
    var c2, c3, c4, c5, c6 := cells[2], cells[3], cells[4], cells[5], cells[6];
    assert cells[..3][0] == cells[0] && cells[..3][1] == cells[1] && cells[..3][2] == c2;
    AgainHead(cells);
    NotebookReplace(cells, 5, [c3, c4, c2], 2);
    assert [c3, c4, c2][2 := c5] == [c3, c4, c5];
    NotebookReplace(cells, 6, [c3, c4, c5], 0);
    assert [c3, c4, c5][0 := c6] == [c6, c4, c5];
    assert cells[..7] == cells;
    LaterOf(cells, [c6, c4, c5], c6, 0);
    assert [c6, c4, c5][1..] == [c4, c5];
  }

  /** The log of the topological-order test: the re-run of cell 0 has the
      new runs of cells 1 and 2 as dependents, and cell 2 reads cell 1. */
  lemma {:induction false} TopoOrder(cells: seq<Cell>, x: string, y: string, defs: Cell -> set<string>, uses: Cell -> set<string>)
    requires |cells| == 7
    requires forall k :: 0 <= k < 7 && k != 4 && k != 5 ==> cells[k].persistentId == cells[0].persistentId
    requires DistinctPids([cells[0], cells[4], cells[5]])
    requires forall k :: 0 <= k < 6 ==> cells[k].executionEventId != cells[6].executionEventId
    requires defs(cells[6]) == {x} && uses(cells[4]) == {x} && defs(cells[4]) == {y} && uses(cells[5]) == {x, y}
    ensures DependencyWalk(cells, cells[6].executionEventId, defs, uses).deps == [cells[4], cells[5]]
    ensures (1, 2) in DependencyWalk(cells, cells[6].executionEventId, defs, uses).edges
  {
    assert EventIndex(cells, cells[6].executionEventId) == 6;
    TopoNotebook(cells);
    ChainWalk(cells[6], cells[4], cells[5], x, y, defs, uses);
  }

  /** The second query of the repeated-calls test, after each cell ran again. */
  lemma {:induction false} AgainOrder(cells: seq<Cell>, x: string, y: string, defs: Cell -> set<string>, uses: Cell -> set<string>)
    requires |cells| == 7 && DistinctPids(cells[..3])
    requires cells[3].persistentId == cells[0].persistentId && cells[4].persistentId == cells[1].persistentId
    requires cells[5].persistentId == cells[2].persistentId && cells[6].persistentId == cells[0].persistentId
    requires forall k :: 0 <= k < 6 ==> cells[k].executionEventId != cells[6].executionEventId
    requires defs(cells[6]) == {x} && uses(cells[4]) == {x} && defs(cells[4]) == {y} && uses(cells[5]) == {x, y}
    ensures DependencyWalk(cells, cells[6].executionEventId, defs, uses).deps == [cells[4], cells[5]]
    ensures (1, 2) in DependencyWalk(cells, cells[6].executionEventId, defs, uses).edges
  {
    assert EventIndex(cells, cells[6].executionEventId) == 6;
    AgainNotebook(cells);
    ChainWalk(cells[6], cells[4], cells[5], x, y, defs, uses);
  }

  /** The first query of the repeated-calls test. */
  lemma {:induction false} FirstOrder(cells: seq<Cell>, x: string, y: string, defs: Cell -> set<string>, uses: Cell -> set<string>)
    requires |cells| == 3 && DistinctPids(cells)
    requires defs(cells[0]) == {x} && uses(cells[1]) == {x} && defs(cells[1]) == {y} && uses(cells[2]) == {x, y}
    ensures DependencyWalk(cells, cells[0].executionEventId, defs, uses).deps == [cells[1], cells[2]]
    ensures (1, 2) in DependencyWalk(cells, cells[0].executionEventId, defs, uses).edges
  {
    assert EventIndex(cells, cells[0].executionEventId) == 0;
    DistinctLater(cells, 0);
    assert cells[1..] == [cells[1], cells[2]];
    ChainWalk(cells[0], cells[1], cells[2], x, y, defs, uses);
  }

  // ---------------------------------------------------------------- the slicer's answers

  /** With two dependents, the second reading the first, the answer lists
      them in that order. */
  lemma TwoInOrder(r: seq<Cell>, w: Walk)
    requires ListsDependents(r, w) && |w.deps| == 2 && (1, 2) in w.edges
    ensures r == w.deps
  {
    var a, b := w.deps[0], w.deps[1];
    assert a in r && b in r;
    assert r[..0] == [];
    assert w.deps[0] !in r[..0];
    assert r[0] != w.deps[1];
    assert r[0] in w.deps && r[1] in w.deps;
    assert r[0].persistentId != r[1].persistentId;
    assert r == [a, b];
  }

  /** Logs `cells`, in order. */
  method LogAll(s: ExecutionLogSlicer, cells: seq<Cell>)
    requires s.Valid()
    modifies s, s.programBuilder
    ensures s.Valid() && LoggedCells(s.cellExecutions) == LoggedCells(old(s.cellExecutions)) + cells
  {
    ghost var before := LoggedCells(s.cellExecutions);
    for i := 0 to |cells|
      invariant s.Valid() && LoggedCells(s.cellExecutions) == before + cells[..i]
    {
      assert cells[..i + 1] == cells[..i] + [cells[i]];
      LoggedCellsAppend(s.cellExecutions, CellExecution(cells[i]));
      s.LogExecution(cells[i]);
    }
    assert cells[..|cells|] == cells;
  }

  /** A fresh slicer that has logged `cells`, in order. */
  method MakeLog(specs: SpecTable, cells: seq<Cell>) returns (s: ExecutionLogSlicer)
    ensures s.Valid() && LoggedCells(s.cellExecutions) == cells && s.specs == specs
    ensures fresh(s) && fresh(s.programBuilder)
  {
    s := new ExecutionLogSlicer(specs);
    LogAll(s, cells);
    assert [] + cells == cells;
  }

  /** The topological-order test: the answer is cell 1's run, then cell 2's. */
  method TopoOrderQuery(specs: SpecTable, cells: seq<Cell>, x: string, y: string) returns (r: seq<Cell>)
    requires |cells| == 7
    requires forall k :: 0 <= k < 7 && k != 4 && k != 5 ==> cells[k].persistentId == cells[0].persistentId
    requires DistinctPids([cells[0], cells[4], cells[5]])
    requires forall k :: 0 <= k < 6 ==> cells[k].executionEventId != cells[6].executionEventId
    requires CellDefs(specs)(cells[6]) == {x} && CellUses(cells[4]) == {x}
    requires CellDefs(specs)(cells[4]) == {y} && CellUses(cells[5]) == {x, y}
    ensures r == [cells[4], cells[5]]
  {
    var s := MakeLog(specs, cells);
    r := s.GetDependentCells(cells[6].executionEventId);
    TopoOrder(cells, x, y, CellDefs(specs), CellUses);
    TwoInOrder(r, DependencyWalk(cells, cells[6].executionEventId, CellDefs(specs), CellUses));
  }

  /** The repeated-calls test: a query, more runs, and a second query, each
      answer in topological order. */
  method RepeatedQueries(specs: SpecTable, cells: seq<Cell>, edits: seq<Cell>, x: string, y: string)
      returns (r1: seq<Cell>, r2: seq<Cell>)
    requires |cells| == 3 && |edits| == 4 && DistinctPids(cells)
    requires edits[0].persistentId == cells[0].persistentId && edits[1].persistentId == cells[1].persistentId
    requires edits[2].persistentId == cells[2].persistentId && edits[3].persistentId == cells[0].persistentId
    requires forall k :: 0 <= k < 3 ==> cells[k].executionEventId != edits[3].executionEventId
    requires forall k :: 0 <= k < 3 ==> edits[k].executionEventId != edits[3].executionEventId
    requires CellDefs(specs)(cells[0]) == {x} && CellUses(cells[1]) == {x}
    requires CellDefs(specs)(cells[1]) == {y} && CellUses(cells[2]) == {x, y}
    requires CellDefs(specs)(edits[3]) == {x} && CellUses(edits[1]) == {x}
    requires CellDefs(specs)(edits[1]) == {y} && CellUses(edits[2]) == {x, y}
    ensures r1 == [cells[1], cells[2]]
    ensures r2 == [edits[1], edits[2]]
  {
    var s;
    s, r1 := FirstQuery(specs, cells, x, y);
    r2 := SecondQuery(s, cells, edits, x, y);
  }

  /** The first query of the repeated-calls test, on a fresh log of three cells. */
  method FirstQuery(specs: SpecTable, cells: seq<Cell>, x: string, y: string) returns (s: ExecutionLogSlicer, r1: seq<Cell>)
    requires |cells| == 3 && DistinctPids(cells)
    requires CellDefs(specs)(cells[0]) == {x} && CellUses(cells[1]) == {x}
    requires CellDefs(specs)(cells[1]) == {y} && CellUses(cells[2]) == {x, y}
    ensures s.Valid() && LoggedCells(s.cellExecutions) == cells && s.specs == specs
    ensures fresh(s) && fresh(s.programBuilder)
    ensures r1 == [cells[1], cells[2]]
  {
    s := MakeLog(specs, cells);
    r1 := s.GetDependentCells(cells[0].executionEventId);
    FirstOrder(cells, x, y, CellDefs(specs), CellUses);
    TwoInOrder(r1, DependencyWalk(cells, cells[0].executionEventId, CellDefs(specs), CellUses));
  }

  /** The second query of the repeated-calls test, after four more runs. */
  method SecondQuery(s: ExecutionLogSlicer, cells: seq<Cell>, edits: seq<Cell>, x: string, y: string) returns (r2: seq<Cell>)
    requires s.Valid() && LoggedCells(s.cellExecutions) == cells
    requires |cells| == 3 && |edits| == 4 && DistinctPids(cells)
    requires edits[0].persistentId == cells[0].persistentId && edits[1].persistentId == cells[1].persistentId
    requires edits[2].persistentId == cells[2].persistentId && edits[3].persistentId == cells[0].persistentId
    requires forall k :: 0 <= k < 3 ==> cells[k].executionEventId != edits[3].executionEventId
    requires forall k :: 0 <= k < 3 ==> edits[k].executionEventId != edits[3].executionEventId
    requires CellDefs(s.specs)(edits[3]) == {x} && CellUses(edits[1]) == {x}
    requires CellDefs(s.specs)(edits[1]) == {y} && CellUses(edits[2]) == {x, y}
    modifies s, s.programBuilder
    ensures r2 == [edits[1], edits[2]]
  {
    LogAll(s, edits);
    var all := cells + edits;
    r2 := s.GetDependentCells(edits[3].executionEventId);
    AgainShape(cells, edits);
    AgainOrder(all, x, y, CellDefs(s.specs), CellUses);
    TwoInOrder(r2, DependencyWalk(all, all[6].executionEventId, CellDefs(s.specs), CellUses));
  }

  /** The log of the repeated-calls test has the shape `AgainOrder` needs. */
  lemma AgainShape(cells: seq<Cell>, edits: seq<Cell>)
    requires |cells| == 3 && |edits| == 4 && DistinctPids(cells)
    requires edits[0].persistentId == cells[0].persistentId && edits[1].persistentId == cells[1].persistentId
    requires edits[2].persistentId == cells[2].persistentId && edits[3].persistentId == cells[0].persistentId
    requires forall k :: 0 <= k < 3 ==> cells[k].executionEventId != edits[3].executionEventId
    requires forall k :: 0 <= k < 3 ==> edits[k].executionEventId != edits[3].executionEventId
    ensures var all := cells + edits;
            && |all| == 7 && DistinctPids(all[..3])
            && all[6] == edits[3] && all[4] == edits[1] && all[5] == edits[2]
            && all[3].persistentId == all[0].persistentId && all[4].persistentId == all[1].persistentId
            && all[5].persistentId == all[2].persistentId && all[6].persistentId == all[0].persistentId
            && (forall k :: 0 <= k < 6 ==> all[k].executionEventId != all[6].executionEventId)
  {
    var all := cells + edits;
    assert all[..3] == cells;
    assert all[0] == cells[0] && all[1] == cells[1] && all[2] == cells[2];
    assert all[3] == edits[0] && all[4] == edits[1] && all[5] == edits[2] && all[6] == edits[3];
    forall k | 0 <= k < 6 ensures all[k].executionEventId != all[6].executionEventId {
      if k >= 3 {
        assert all[k] == edits[k - 3];
      }
    }
  }
}
