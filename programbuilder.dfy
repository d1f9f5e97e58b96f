/** The program builder (program-builder.ts): it records every executed cell
    with its statements and, for a target execution, concatenates the cells
    that lead up to it into one virtual program, with its text, its
    statements moved onto the program's lines and tagged with their cell's
    execution event id, and the maps between program lines and cells. */
module ProgramBuilders {
  import opened Util
  import opened Locations
  import opened Syntax
  import opened Cells

  /** A recorded cell: its statements, and whether it must be left out of a
      program unless it is the target (it failed at run time, or its text
      does not parse). */
  datatype CellProgram = CellProgram(cell: Cell, statements: seq<Stmt>, hasError: bool)

  /** A statement of the virtual program; `path` is the execution event id
      of the cell it comes from (the `location.path` of the node). */
  datatype TreeNode = TreeNode(stmt: Stmt, path: string)

  /** The result of `buildTo`. Lines are 1-based; `cellToLineMap` holds,
      per execution event id, the program lines of that cell in order. */
  datatype Program = Program(
    text: string,
    tree: seq<TreeNode>,
    lineToCellMap: map<int, Cell>,
    cellToLineMap: map<string, seq<int>>)

  function Pid(cp: CellProgram): string { cp.cell.persistentId }
  function Eid(cp: CellProgram): string { cp.cell.executionEventId }

  /** What `add` records for a cell: a cell whose text does not parse is
      recorded with no statements and as an error. */
  function ProgramOf(c: Cell): (r: CellProgram)
    ensures r.cell == c
    ensures r.hasError <==> c.hasError || c.parsed.None?
    ensures r.statements == if c.parsed.Some? then c.parsed.value else []
  {
    match c.parsed
    case Some(ss) => CellProgram(c, ss, c.hasError)
    case None => CellProgram(c, [], true)
  }

  function ProgramsOf(cells: seq<Cell>): (r: seq<CellProgram>)
    ensures |r| == |cells| && forall k :: 0 <= k < |cells| ==> r[k] == ProgramOf(cells[k])
  {
    seq(|cells|, k requires 0 <= k < |cells| => ProgramOf(cells[k]))
  }

  // ---------------------------------------------------------------- selection

  /** The position of the latest recorded run of execution `id`. */
  function LastIndex(cps: seq<CellProgram>, id: string): (r: Option<nat>)
    ensures r.Some? ==> r.value < |cps| && Eid(cps[r.value]) == id &&
                        forall k :: r.value < k < |cps| ==> Eid(cps[k]) != id
    ensures r.None? ==> forall k :: 0 <= k < |cps| ==> Eid(cps[k]) != id
  {
    if cps == [] then None
    else if Eid(cps[|cps| - 1]) == id then Some(|cps| - 1)
    else LastIndex(cps[..|cps| - 1], id)
  }

  /** The backward scan over the cells before the target. `last` is the
      execution count of the cell just after `cps`, `seen` the persistent ids
      met so far. The scan ends at a cell whose count is at least `last` (a
      run in an earlier kernel session); every other cell is kept unless it
      has an error or a later run of the same persistent id was met. */
  function Collect(cps: seq<CellProgram>, last: Option<int>, seen: set<string>): seq<CellProgram>
    decreases |cps|
  {
    if cps == [] then []
    else
      var cp := cps[|cps| - 1];
      if CountAtLeast(cp.cell.executionCount, last) then []
      else Collect(cps[..|cps| - 1], cp.cell.executionCount, seen + {Pid(cp)})
           + (if cp.hasError || Pid(cp) in seen then [] else [cp])
  }

  /** The cells `buildTo(id)` concatenates: those the backward scan keeps,
      then the latest run of the target itself, even when it has an error. */
  function Selection(cps: seq<CellProgram>, id: string): seq<CellProgram> {
    match LastIndex(cps, id)
    case None => []
    case Some(t) => Collect(cps[..t], cps[t].cell.executionCount, {Pid(cps[t])}) + [cps[t]]
  }

  /** The execution count that follows position `k`. */
  function NextCount(cps: seq<CellProgram>, last: Option<int>, k: int): Option<int>
    requires 0 <= k < |cps|
  {
    if k + 1 < |cps| then cps[k + 1].cell.executionCount else last
  }

  /** Where the backward scan stops: the start of the longest run, ending
      `cps`, in which every count is below the one after it. */
  function Stop(cps: seq<CellProgram>, last: Option<int>): (r: nat)
    ensures r <= |cps|
    ensures forall k :: r <= k < |cps| ==> !CountAtLeast(cps[k].cell.executionCount, NextCount(cps, last, k))
    ensures r > 0 ==> CountAtLeast(cps[r - 1].cell.executionCount, NextCount(cps, last, r - 1))
    decreases |cps|
  {
    if cps == [] then 0
    else
      var cp := cps[|cps| - 1];
      if CountAtLeast(cp.cell.executionCount, last) then |cps|
      else
        var init := cps[..|cps| - 1];
        var r := Stop(init, cp.cell.executionCount);
        assert forall k :: 0 <= k < |init| ==> NextCount(init, cp.cell.executionCount, k) == NextCount(cps, last, k);
        r
  }

  /** The cells of `cps` without an error whose persistent id is neither in
      `seen` nor that of a later cell of `cps`, in their order. */
  function Keep(cps: seq<CellProgram>, seen: set<string>): seq<CellProgram>
    decreases |cps|
  {
    if cps == [] then []
    else
      var cp := cps[|cps| - 1];
      Keep(cps[..|cps| - 1], seen + {Pid(cp)}) + (if cp.hasError || Pid(cp) in seen then [] else [cp])
  }

  /** The persistent ids of a list of cells. */
  function Pids(cps: seq<CellProgram>): set<string> {
    set k | 0 <= k < |cps| :: Pid(cps[k])
  }

  /** Cell `k` of `cps` is one that `Keep(cps, seen)` keeps. */
  predicate Kept(cps: seq<CellProgram>, seen: set<string>, k: int)
    requires 0 <= k < |cps|
  {
    !cps[k].hasError && Pid(cps[k]) !in seen && Pid(cps[k]) !in Pids(cps[k + 1..])
  }

  /** The scan is a stop followed by a filter: it keeps exactly what `Keep`
      keeps of the run after the stop. */
  lemma {:induction false} CollectIsKeep(cps: seq<CellProgram>, last: Option<int>, seen: set<string>)
    ensures Collect(cps, last, seen) == Keep(cps[Stop(cps, last)..], seen)
    decreases |cps|
  {
    if cps != [] {
      var cp := cps[|cps| - 1];
      var init := cps[..|cps| - 1];
      if !CountAtLeast(cp.cell.executionCount, last) {
        var s := Stop(init, cp.cell.executionCount);
        CollectIsKeep(init, cp.cell.executionCount, seen + {Pid(cp)});
        var run := cps[s..];
        assert run[..|run| - 1] == init[s..];
        assert run[|run| - 1] == cp;
      }
    }
  }

  function KeepSeen(ys: seq<CellProgram>, seen: set<string>): set<string> {
    seen + Pids(ys)
  }

  /** Keeping is a filter: on a concatenation it keeps from the first part
      what the second part's persistent ids leave, then what it keeps of the
      second part. In particular it preserves order. */
  lemma {:induction false} KeepAppend(xs: seq<CellProgram>, ys: seq<CellProgram>, seen: set<string>)
    ensures Keep(xs + ys, seen) == Keep(xs, KeepSeen(ys, seen)) + Keep(ys, seen)
    decreases |ys|
  {
    if ys == [] {
      assert xs + ys == xs;
      assert Pids(ys) == {};
      assert KeepSeen(ys, seen) == seen;
      assert Keep(ys, seen) == [];
    } else {
      var cp := ys[|ys| - 1];
      var init := ys[..|ys| - 1];
      assert (xs + ys)[..|xs + ys| - 1] == xs + init;
      assert (xs + ys)[|xs + ys| - 1] == cp;
      KeepAppend(xs, init, seen + {Pid(cp)});
      assert KeepSeen(init, seen + {Pid(cp)}) == KeepSeen(ys, seen) by {
        assert ys == init + [cp];
        PidsAppend(init, cp);
      }
    }
  }

  lemma PidsAppend(init: seq<CellProgram>, cp: CellProgram)
    ensures Pids(init + [cp]) == Pids(init) + {Pid(cp)}
  {
    var ys := init + [cp];
    forall p | p in Pids(ys) ensures p in Pids(init) + {Pid(cp)} {
      var k :| 0 <= k < |ys| && Pid(ys[k]) == p;
      if k < |init| { assert ys[k] == init[k]; }
    }
    forall p | p in Pids(init) ensures p in Pids(ys) {
      var k :| 0 <= k < |init| && Pid(init[k]) == p;
      assert ys[k] == init[k];
    }
    assert Pid(ys[|init|]) == Pid(cp);
  }

  /** What `Keep` keeps: exactly the cells `Kept` describes, no two of them
      sharing a persistent id, none with an id in `seen`. */
  lemma {:induction false} KeepMembers(cps: seq<CellProgram>, seen: set<string>)
    ensures forall x :: x in Keep(cps, seen) <==> exists k :: 0 <= k < |cps| && cps[k] == x && Kept(cps, seen, k)
    ensures forall i, j :: 0 <= i < j < |Keep(cps, seen)| ==> Pid(Keep(cps, seen)[i]) != Pid(Keep(cps, seen)[j])
    ensures forall x :: x in Keep(cps, seen) ==> !x.hasError && Pid(x) !in seen
    decreases |cps|
  {
    if cps != [] {
      var cp := cps[|cps| - 1];
      var init := cps[..|cps| - 1];
      var seen' := seen + {Pid(cp)};
      KeepMembers(init, seen');
      var r := Keep(cps, seen);
      var rest := Keep(init, seen');
      var tail := if cp.hasError || Pid(cp) in seen then [] else [cp];
      assert r == rest + tail;
      assert Pids(cps[|cps| - 1 + 1..]) == {} by { assert cps[|cps|..] == []; }
      forall k | 0 <= k < |init| ensures Kept(cps, seen, k) <==> Kept(init, seen', k) {
        assert cps[k + 1..] == init[k + 1..] + [cp];
        PidsAppend(init[k + 1..], cp);
        assert cps[k] == init[k];
      }
      forall x ensures x in r <==> exists k :: 0 <= k < |cps| && cps[k] == x && Kept(cps, seen, k) {
        if x in rest {
          var k :| 0 <= k < |init| && init[k] == x && Kept(init, seen', k);
          assert cps[k] == x && Kept(cps, seen, k);
        }
        if x in tail {
          assert Kept(cps, seen, |cps| - 1);
        }
        if exists k :: 0 <= k < |cps| && cps[k] == x && Kept(cps, seen, k) {
          var k :| 0 <= k < |cps| && cps[k] == x && Kept(cps, seen, k);
          if k < |init| {
            assert init[k] == x && Kept(init, seen', k);
          } else {
            assert x == cp && x in tail;
          }
        }
      }
      forall i, j | 0 <= i < j < |r| ensures Pid(r[i]) != Pid(r[j]) {
        if j >= |rest| {
          assert r[i] in rest;
        }
      }
    }
  }

  /** What `buildTo(id)` selects, when execution `id` was recorded at
      position `t` (its latest run): the cells without an error, from the
      start `s` of the current kernel session up to the target, keeping the
      latest run of every persistent id, then the target itself. Nothing
      recorded after the target takes part. */
  lemma SelectionSpec(cps: seq<CellProgram>, id: string)
    ensures LastIndex(cps, id).None? ==> Selection(cps, id) == []
    ensures LastIndex(cps, id).Some? ==>
              var t := LastIndex(cps, id).value;
              var s := Stop(cps[..t], cps[t].cell.executionCount);
              Selection(cps, id) == Keep(cps[s..t], {Pid(cps[t])}) + [cps[t]] &&
              (forall k :: s <= k < t ==> !CountAtLeast(cps[k].cell.executionCount, cps[k + 1].cell.executionCount)) &&
              (s > 0 ==> CountAtLeast(cps[s - 1].cell.executionCount, cps[s].cell.executionCount))
  {
    if LastIndex(cps, id).Some? {
      var t := LastIndex(cps, id).value;
      SelectionAt(cps, id, t);
    }
  }

  lemma SelectionAt(cps: seq<CellProgram>, id: string, t: nat)
    requires LastIndex(cps, id) == Some(t)
    ensures var s := Stop(cps[..t], cps[t].cell.executionCount);
            Selection(cps, id) == Keep(cps[s..t], {Pid(cps[t])}) + [cps[t]] &&
            (forall k :: s <= k < t ==> !CountAtLeast(cps[k].cell.executionCount, cps[k + 1].cell.executionCount)) &&
            (s > 0 ==> CountAtLeast(cps[s - 1].cell.executionCount, cps[s].cell.executionCount))
  {
    var pre := cps[..t];
    var last := cps[t].cell.executionCount;
    var s := Stop(pre, last);
    assert Selection(cps, id) == Collect(pre, last, {Pid(cps[t])}) + [cps[t]];
    CollectIsKeep(pre, last, {Pid(cps[t])});
    assert pre[s..] == cps[s..t];
    StopRun(cps, t);
  }

  /** `Stop` read on the cells before position `t`. */
  lemma StopRun(cps: seq<CellProgram>, t: nat)
    requires t < |cps|
    ensures var s := Stop(cps[..t], cps[t].cell.executionCount);
            (forall k :: s <= k < t ==> !CountAtLeast(cps[k].cell.executionCount, cps[k + 1].cell.executionCount)) &&
            (s > 0 ==> CountAtLeast(cps[s - 1].cell.executionCount, cps[s].cell.executionCount))
  {
    var pre := cps[..t];
    var last := cps[t].cell.executionCount;
    var s := Stop(pre, last);
    forall k | 0 <= k < t ensures NextCount(pre, last, k) == cps[k + 1].cell.executionCount {
      if k + 1 < t { assert pre[k + 1] == cps[k + 1]; }
    }
    assert forall k :: 0 <= k < t ==> pre[k] == cps[k];
  }

  // ---------------------------------------------------------------- assembly

  /** The number of lines of a cell's text (the pieces between line breaks). */
  function NLines(cp: CellProgram): (r: nat)
    ensures r >= 1
  {
    |Split(cp.cell.text, '\n')|
  }

  /** The number of program lines the cells take. */
  function TotalLines(cps: seq<CellProgram>): nat
    decreases |cps|
  {
    if cps == [] then 0 else TotalLines(cps[..|cps| - 1]) + NLines(cps[|cps| - 1])
  }

  /** The program text: every cell's text followed by a line break. */
  function Text(cps: seq<CellProgram>): string
    decreases |cps|
  {
    if cps == [] then "" else Text(cps[..|cps| - 1]) + cps[|cps| - 1].cell.text + "\n"
  }

  /** The lines of the cells' texts, one after another. */
  function Lines(cps: seq<CellProgram>): (r: seq<string>)
    ensures |r| == TotalLines(cps)
    decreases |cps|
  {
    if cps == [] then [] else Lines(cps[..|cps| - 1]) + Split(cps[|cps| - 1].cell.text, '\n')
  }

  function Tag(ss: seq<Stmt>, path: string): (r: seq<TreeNode>)
    ensures |r| == |ss| && forall k :: 0 <= k < |ss| ==> r[k] == TreeNode(ss[k], path)
  {
    seq(|ss|, k requires 0 <= k < |ss| => TreeNode(ss[k], path))
  }

  /** The program's statements: each cell's statements moved down by the
      lines before the cell, tagged with the cell's execution event id. */
  function Tree(cps: seq<CellProgram>): (r: seq<TreeNode>)
    ensures |r| == StmtCount(cps)
    decreases |cps|
  {
    if cps == [] then []
    else
      var init, cp := cps[..|cps| - 1], cps[|cps| - 1];
      Tree(init) + Tag(ShiftStmts(cp.statements, TotalLines(init)), Eid(cp))
  }

  /** The number of statements of the cells. */
  function StmtCount(cps: seq<CellProgram>): nat
    decreases |cps|
  {
    if cps == [] then 0 else StmtCount(cps[..|cps| - 1]) + |cps[|cps| - 1].statements|
  }

  /** The program lines `lo .. lo + n - 1` mapped to `c`. */
  function LinesTo(lo: int, n: nat, c: Cell): (r: map<int, Cell>)
    ensures forall l :: l in r <==> lo <= l < lo + n
    ensures forall l :: l in r ==> r[l] == c
  {
    map l | l in Span(lo, n) :: c
  }

  /** The integers `lo .. lo + n - 1`. */
  function Span(lo: int, n: nat): (r: set<int>)
    ensures forall l :: l in r <==> lo <= l < lo + n
  {
    if n == 0 then {} else Span(lo, n - 1) + {lo + n - 1}
  }

  /** Every program line mapped to the cell it comes from. */
  function LineMap(cps: seq<CellProgram>): map<int, Cell>
    decreases |cps|
  {
    if cps == [] then map[]
    else
      var init, cp := cps[..|cps| - 1], cps[|cps| - 1];
      LineMap(init) + CellMap(cp, TotalLines(init))
  }

  /** The lines of `cp`, placed after `base` program lines, mapped to its cell. */
  function CellMap(cp: CellProgram, base: int): map<int, Cell> {
    LinesTo(base + 1, NLines(cp), cp.cell)
  }

  /** The lines `lo .. lo + n - 1` added one by one to a line set. */
  function AddLines(s: seq<int>, lo: int, n: nat): (r: seq<int>)
    ensures forall l :: l in r <==> l in s || lo <= l < lo + n
    ensures NoDup(s) ==> NoDup(r)
  {
    if n == 0 then s else SetAdd(AddLines(s, lo, n - 1), lo + n - 1)
  }

  function Get(m: map<string, seq<int>>, e: string): seq<int> {
    if e in m then m[e] else []
  }

  /** For each execution event id, the program lines of its cells. */
  function CellLines(cps: seq<CellProgram>): map<string, seq<int>>
    decreases |cps|
  {
    if cps == [] then map[]
    else
      var init, cp := cps[..|cps| - 1], cps[|cps| - 1];
      AddCell(CellLines(init), cp, TotalLines(init))
  }

  /** The entry of `cp`'s execution with the cell's lines, placed after
      `base` program lines, added. */
  function AddCell(m: map<string, seq<int>>, cp: CellProgram, base: int): map<string, seq<int>> {
    m[Eid(cp) := AddLines(Get(m, Eid(cp)), base + 1, NLines(cp))]
  }

  /** The program made of the cells, in order. */
  function Assemble(cps: seq<CellProgram>): Program {
    Program(Text(cps), Tree(cps), LineMap(cps), CellLines(cps))
  }

  // ---------------------------------------------------------------- assembly properties

  lemma InitPrefix<T>(xs: seq<T>, i: nat)
    requires xs != [] && i <= |xs| - 1
    ensures xs[..|xs| - 1][..i] == xs[..i]
  {
  }

  /** The program text splits into the lines of the cells, one after
      another, and an empty piece after the final line break. */
  lemma {:induction false} TextLines(cps: seq<CellProgram>)
    ensures Split(Text(cps), '\n') == Lines(cps) + [""]
    decreases |cps|
  {
    if cps == [] {
      assert Text(cps) == "";
    } else {
      var init, cp := cps[..|cps| - 1], cps[|cps| - 1];
      TextLines(init);
      var a, b := Text(init), cp.cell.text + "\n";
      assert Text(cps) == a + b;
      SplitNewline(cp.cell.text, '\n');
      SplitConcat(a, b, '\n');
      ConcatPieces(Lines(init), Split(cp.cell.text, '\n'));
      assert Lines(cps) == Lines(init) + Split(cp.cell.text, '\n');
    }
  }

  lemma ConcatPieces(x: seq<string>, y: seq<string>)
    requires |y| >= 1
    ensures var sa, sb := x + [""], y + [""];
            sa[..|sa| - 1] + [sa[|sa| - 1] + sb[0]] + sb[1..] == x + y + [""]
  {
    var sa, sb := x + [""], y + [""];
    assert sa[..|sa| - 1] == x;
    assert sa[|sa| - 1] + sb[0] == y[0];
    assert [y[0]] + sb[1..] == y + [""];
  }

  /** The program line (1-based) of line `l` (0-based) of cell `i`. */
  function LineOf(cps: seq<CellProgram>, i: int, l: int): (r: int)
    requires 0 <= i < |cps| && 0 <= l < NLines(cps[i])
    ensures 1 <= r <= TotalLines(cps)
  {
    TotalLinesPrefix(cps, i + 1);
    TotalLines(cps[..i]) + 1 + l
  }

  /** The position in the tree of statement `k` of cell `i`. */
  function NodeIndex(cps: seq<CellProgram>, i: int, k: int): (r: int)
    requires 0 <= i < |cps| && 0 <= k < |cps[i].statements|
    ensures 0 <= r < StmtCount(cps)
  {
    StmtCountPrefix(cps, i + 1);
    StmtCount(cps[..i]) + k
  }

  /** Program line `LineOf(cps, i, l)` is line `l` of the text of cell `i`. */
  lemma {:induction false} LinesAt(cps: seq<CellProgram>, i: int, l: int)
    requires 0 <= i < |cps| && 0 <= l < NLines(cps[i])
    ensures Lines(cps)[LineOf(cps, i, l) - 1] == Split(cps[i].cell.text, '\n')[l]
    decreases |cps|
  {
    var init, cp := cps[..|cps| - 1], cps[|cps| - 1];
    LineOfInit(cps, i, l);
    assert Lines(cps) == Lines(init) + Split(cp.cell.text, '\n');
    if i < |init| {
      assert init[i] == cps[i];
      LinesAt(init, i, l);
    }
  }

  /** Line numbers of the cells before the last one are unchanged by it. */
  lemma LineOfInit(cps: seq<CellProgram>, i: int, l: int)
    requires 0 <= i < |cps| && 0 <= l < NLines(cps[i])
    ensures i < |cps| - 1 ==> LineOf(cps, i, l) == LineOf(cps[..|cps| - 1], i, l)
    ensures i == |cps| - 1 ==> LineOf(cps, i, l) == TotalLines(cps[..|cps| - 1]) + 1 + l
  {
    var init := cps[..|cps| - 1];
    if i < |init| {
      InitPrefix(cps, i);
      assert cps[i] == init[i];
    } else {
      assert cps[..i] == init;
    }
  }

  lemma NodeIndexInit(cps: seq<CellProgram>, i: int, k: int)
    requires 0 <= i < |cps| && 0 <= k < |cps[i].statements|
    ensures i < |cps| - 1 ==> NodeIndex(cps, i, k) == NodeIndex(cps[..|cps| - 1], i, k)
    ensures i == |cps| - 1 ==> NodeIndex(cps, i, k) == StmtCount(cps[..|cps| - 1]) + k
    ensures TotalLines(cps[..i]) == (if i < |cps| - 1 then TotalLines(cps[..|cps| - 1][..i]) else TotalLines(cps[..|cps| - 1]))
  {
    var init := cps[..|cps| - 1];
    if i < |init| {
      InitPrefix(cps, i);
      assert cps[i] == init[i];
    } else {
      assert cps[..i] == init;
    }
  }

  /** The cells before position `k` take the lines of those before `k - 1`
      and those of cell `k - 1`, and no more lines than all the cells. */
  lemma TotalLinesPrefix(cps: seq<CellProgram>, k: nat)
    requires 1 <= k <= |cps|
    ensures TotalLines(cps[..k]) == TotalLines(cps[..k - 1]) + NLines(cps[k - 1])
    ensures TotalLines(cps[..k]) <= TotalLines(cps)
    decreases |cps|
  {
    assert cps[..k][..k - 1] == cps[..k - 1];
    if k < |cps| {
      InitPrefix(cps, k);
      TotalLinesPrefix(cps[..|cps| - 1], k);
    } else {
      assert cps[..k] == cps;
    }
  }

  lemma StmtCountPrefix(cps: seq<CellProgram>, k: nat)
    requires 1 <= k <= |cps|
    ensures StmtCount(cps[..k]) == StmtCount(cps[..k - 1]) + |cps[k - 1].statements|
    ensures StmtCount(cps[..k]) <= StmtCount(cps)
    decreases |cps|
  {
    assert cps[..k][..k - 1] == cps[..k - 1];
    if k < |cps| {
      InitPrefix(cps, k);
      StmtCountPrefix(cps[..|cps| - 1], k);
    } else {
      assert cps[..k] == cps;
    }
  }

  /** `lineToCellMap` covers exactly the program lines 1 .. TotalLines(cps). */
  lemma {:induction false} LineMapDomain(cps: seq<CellProgram>)
    ensures forall line :: line in LineMap(cps) <==> 1 <= line <= TotalLines(cps)
    decreases |cps|
  {
    if cps != [] {
      LineMapDomain(cps[..|cps| - 1]);
    }
  }

  /** A program line that comes from cell `i` maps to that cell. */
  lemma {:induction false} LineMapAt(cps: seq<CellProgram>, i: int, l: int)
    requires 0 <= i < |cps| && 0 <= l < NLines(cps[i])
    ensures LineOf(cps, i, l) in LineMap(cps) && LineMap(cps)[LineOf(cps, i, l)] == cps[i].cell
    decreases |cps|
  {
    var init, cp := cps[..|cps| - 1], cps[|cps| - 1];
    LineOfInit(cps, i, l);
    LineMapDomain(init);
    assert LineMap(cps) == LineMap(init) + CellMap(cp, TotalLines(init));
    if i < |init| {
      assert init[i] == cps[i];
      LineMapAt(init, i, l);
    }
  }

  /** `cellToLineMap` has an entry for exactly the execution event ids of
      the cells. */
  lemma {:induction false} CellLinesKeys(cps: seq<CellProgram>, e: string)
    ensures e in CellLines(cps) <==> exists i :: 0 <= i < |cps| && Eid(cps[i]) == e
    decreases |cps|
  {
    if cps != [] {
      var init, cp := cps[..|cps| - 1], cps[|cps| - 1];
      CellLinesKeys(init, e);
      AddCellKeys(CellLines(init), cp, TotalLines(init), e);
      if exists i :: 0 <= i < |init| && Eid(init[i]) == e {
        var i :| 0 <= i < |init| && Eid(init[i]) == e;
        assert cps[i] == init[i];
      }
      if exists i :: 0 <= i < |cps| && Eid(cps[i]) == e {
        var i :| 0 <= i < |cps| && Eid(cps[i]) == e;
        if i < |init| { assert init[i] == cps[i]; }
      }
    }
  }

  lemma AddCellKeys(m: map<string, seq<int>>, cp: CellProgram, base: int, e: string)
    ensures e in AddCell(m, cp, base) <==> e in m || e == Eid(cp)
  {
  }

  /** The entry of an execution (empty when it has none) holds, each
      once, exactly the program lines that `lineToCellMap` maps to a cell
      of that execution. */
  lemma {:induction false} CellLinesAt(cps: seq<CellProgram>, e: string, line: int)
    ensures line in Get(CellLines(cps), e) <==> line in LineMap(cps) && LineMap(cps)[line].executionEventId == e
    ensures NoDup(Get(CellLines(cps), e))
    decreases |cps|
  {
    if cps != [] {
      var init, cp := cps[..|cps| - 1], cps[|cps| - 1];
      CellLinesAt(init, e, line);
      LineMapDomain(init);
      MapsStep(CellLines(init), LineMap(init), TotalLines(init) + 1, NLines(cp), cp.cell, e, line);
    }
  }

  /** One cell's lines added to both maps keep them in agreement. */
  lemma MapsStep(m: map<string, seq<int>>, lm: map<int, Cell>, lo: int, n: nat, c: Cell, e: string, line: int)
    requires forall l :: l in lm ==> l < lo
    requires line in Get(m, e) <==> line in lm && lm[line].executionEventId == e
    requires NoDup(Get(m, e))
    ensures var m', lm' := m[c.executionEventId := AddLines(Get(m, c.executionEventId), lo, n)], lm + LinesTo(lo, n, c);
            (line in Get(m', e) <==> line in lm' && lm'[line].executionEventId == e) && NoDup(Get(m', e))
  {
    var m', lm' := m[c.executionEventId := AddLines(Get(m, c.executionEventId), lo, n)], lm + LinesTo(lo, n, c);
    if e == c.executionEventId {
      assert Get(m', e) == AddLines(Get(m, e), lo, n);
    } else {
      assert Get(m', e) == Get(m, e);
    }
    if lo <= line < lo + n {
      assert line !in lm;
      assert lm'[line] == c;
    } else if line in lm {
      assert line in lm' && lm'[line] == lm[line];
    } else {
      assert line !in lm';
    }
  }

  /** The tree holds every cell's statements in order: statement `k` of cell
      `i` is moved down by the lines of the cells before it and tagged with
      the cell's execution event id. */
  lemma {:induction false} TreeAt(cps: seq<CellProgram>, i: int, k: int)
    requires 0 <= i < |cps| && 0 <= k < |cps[i].statements|
    ensures Tree(cps)[NodeIndex(cps, i, k)] ==
            TreeNode(ShiftStmt(cps[i].statements[k], TotalLines(cps[..i])), Eid(cps[i]))
    decreases |cps|
  {
    var init, cp := cps[..|cps| - 1], cps[|cps| - 1];
    NodeIndexInit(cps, i, k);
    assert Tree(cps) == Tree(init) + Tag(ShiftStmts(cp.statements, TotalLines(init)), Eid(cp));
    if i < |init| {
      assert cps[i] == init[i];
      TreeAt(init, i, k);
    }
  }

  /** A statement that starts on line `l + 1` of its own cell starts, in the
      program, on a line that `lineToCellMap` maps back to that cell, and
      the program's line there (see `TextLines`) is the cell's line. */
  lemma TreeMapsBack(cps: seq<CellProgram>, i: nat, k: nat, l: nat)
    requires i < |cps| && k < |cps[i].statements| && l < NLines(cps[i])
    requires cps[i].statements[k].loc.firstLine == l + 1
    ensures Tree(cps)[NodeIndex(cps, i, k)].path == Eid(cps[i])
    ensures Tree(cps)[NodeIndex(cps, i, k)].stmt.loc.firstLine == LineOf(cps, i, l)
    ensures LineOf(cps, i, l) in LineMap(cps) && LineMap(cps)[LineOf(cps, i, l)] == cps[i].cell
    ensures Lines(cps)[LineOf(cps, i, l) - 1] == Split(cps[i].cell.text, '\n')[l]
  {
    NodeAt(cps, i, k, l);
    LineMapAt(cps, i, l);
    LinesAt(cps, i, l);
  }

  lemma NodeAt(cps: seq<CellProgram>, i: nat, k: nat, l: nat)
    requires i < |cps| && k < |cps[i].statements| && l < NLines(cps[i])
    requires cps[i].statements[k].loc.firstLine == l + 1
    ensures Tree(cps)[NodeIndex(cps, i, k)].path == Eid(cps[i])
    ensures Tree(cps)[NodeIndex(cps, i, k)].stmt.loc.firstLine == LineOf(cps, i, l)
  {
    var st := cps[i].statements[k];
    var node := Tree(cps)[NodeIndex(cps, i, k)];
    assert node == TreeNode(ShiftStmt(st, TotalLines(cps[..i])), Eid(cps[i])) by {
      TreeAt(cps, i, k);
    }
    assert node.stmt.loc == Shift(st.loc, TotalLines(cps[..i]));
  }

  // ---------------------------------------------------------------- the builder

  /** The builder: the cells recorded so far, in the order they ran. */
  class ProgramBuilder {
    var cellPrograms: seq<CellProgram>

    constructor()
      ensures cellPrograms == []
    {
      cellPrograms := [];
    }

    /** `add`: records each cell, in order, with its statements. */
    method Add(cells: seq<Cell>)
      modifies this
      ensures cellPrograms == old(cellPrograms) + ProgramsOf(cells)
    {
      for i := 0 to |cells|
        invariant cellPrograms == old(cellPrograms) + ProgramsOf(cells[..i])
      {
        assert ProgramsOf(cells[..i + 1]) == ProgramsOf(cells[..i]) + [ProgramOf(cells[i])];
        cellPrograms := cellPrograms + [ProgramOf(cells[i])];
      }
      assert cells[..|cells|] == cells;
    }

    /** `buildTo`: the program that leads up to the latest run of
        execution `id`; the empty program when `id` never ran. */
    method BuildTo(id: string) returns (p: Program)
      ensures p == Assemble(Selection(cellPrograms, id))
    {
      var chosen := SelectBack(cellPrograms, id);
      p := Concatenate(chosen);
    }
  }

  /** The backward scan of `buildTo`: from the latest run of `id` back to
      the first cell of an earlier kernel session. */
  method SelectBack(cps: seq<CellProgram>, id: string) returns (chosen: seq<CellProgram>)
    ensures chosen == Selection(cps, id)
  {
    chosen := [];
    var adding, stopped := false, false;
    var last: Option<int> := None;
    var seen: set<string> := {};
    var i := |cps|;
    ghost var sel := Selection(cps, id);
    assert cps[..i] == cps;
    while i > 0 && !stopped
      invariant 0 <= i <= |cps|
      invariant !adding ==> !stopped && chosen == [] && LastIndex(cps, id) == LastIndex(cps[..i], id)
      invariant adding && !stopped ==> sel == Collect(cps[..i], last, seen) + chosen
      invariant stopped ==> adding && sel == chosen
    {
      i := i - 1;
      var cp := cps[i];
      if !adding {
        LastIndexStep(cps, i, id);
        if Eid(cp) == id {
          SelectionFound(cps, id, i);
          adding, last, seen := true, cp.cell.executionCount, {Pid(cp)};
          chosen := [cp];
        }
      } else if CountAtLeast(cp.cell.executionCount, last) {
        CollectStep(cps, i, last, seen);
        stopped := true;
      } else {
        ScanStep(cps, i, last, seen, chosen, sel);
        if !cp.hasError && Pid(cp) !in seen {
          chosen := [cp] + chosen;
        }
        seen, last := seen + {Pid(cp)}, cp.cell.executionCount;
      }
    }
    if !stopped {
      assert cps[..i] == [];
    }
  }

  lemma SelectionFound(cps: seq<CellProgram>, id: string, i: nat)
    requires LastIndex(cps, id) == Some(i)
    ensures Selection(cps, id) == Collect(cps[..i], cps[i].cell.executionCount, {Pid(cps[i])}) + [cps[i]]
  {
  }

  lemma LastIndexStep(cps: seq<CellProgram>, i: nat, id: string)
    requires i < |cps|
    ensures LastIndex(cps[..i + 1], id) == if Eid(cps[i]) == id then Some(i) else LastIndex(cps[..i], id)
  {
    assert cps[..i + 1][..i] == cps[..i];
  }

  /** One kept or skipped cell of the backward scan. */
  lemma ScanStep(cps: seq<CellProgram>, i: nat, last: Option<int>, seen: set<string>,
                 chosen: seq<CellProgram>, sel: seq<CellProgram>)
    requires i < |cps| && !CountAtLeast(cps[i].cell.executionCount, last)
    requires sel == Collect(cps[..i + 1], last, seen) + chosen
    ensures cps[i].hasError || Pid(cps[i]) in seen ==>
              sel == Collect(cps[..i], cps[i].cell.executionCount, seen + {Pid(cps[i])}) + chosen
    ensures !(cps[i].hasError || Pid(cps[i]) in seen) ==>
              sel == Collect(cps[..i], cps[i].cell.executionCount, seen + {Pid(cps[i])}) + ([cps[i]] + chosen)
  {
    var cp := cps[i];
    var rest := Collect(cps[..i], cp.cell.executionCount, seen + {Pid(cp)});
    CollectStep(cps, i, last, seen);
    if cp.hasError || Pid(cp) in seen {
      assert Collect(cps[..i + 1], last, seen) == rest + [] == rest;
    } else {
      assert Collect(cps[..i + 1], last, seen) == rest + [cp];
      assert rest + [cp] + chosen == rest + ([cp] + chosen);
    }
  }

  lemma CollectStep(cps: seq<CellProgram>, i: nat, last: Option<int>, seen: set<string>)
    requires i < |cps|
    ensures CountAtLeast(cps[i].cell.executionCount, last) ==> Collect(cps[..i + 1], last, seen) == []
    ensures !CountAtLeast(cps[i].cell.executionCount, last) ==>
              Collect(cps[..i + 1], last, seen)
              == Collect(cps[..i], cps[i].cell.executionCount, seen + {Pid(cps[i])})
                 + (if cps[i].hasError || Pid(cps[i]) in seen then [] else [cps[i]])
  {
    assert cps[..i + 1][..i] == cps[..i];
  }

  /** The concatenation loop of `buildTo`: every chosen cell's statements,
      moved onto the current line and tagged with the cell's execution
      event id, its text, and one entry per text line in each map. */
  method Concatenate(cps: seq<CellProgram>) returns (p: Program)
    ensures p == Assemble(cps)
  {
    var text, tree: seq<TreeNode>, lineToCell: map<int, Cell>, cellToLine: map<string, seq<int>> := "", [], map[], map[];
    var currentLine := 1;
    for j := 0 to |cps|
      invariant text == Text(cps[..j]) && tree == Tree(cps[..j])
      invariant lineToCell == LineMap(cps[..j]) && cellToLine == CellLines(cps[..j])
      invariant currentLine == TotalLines(cps[..j]) + 1
    {
      var cp := cps[j];
      PrefixStep(cps, j);
      PrefixTreeStep(cps, j);
      PrefixMapsStep(cps, j);
      tree := tree + Tag(ShiftStmts(cp.statements, currentLine - 1), Eid(cp));
      text := text + cp.cell.text + "\n";
      lineToCell, cellToLine := AddCellLines(lineToCell, cellToLine, cp, currentLine);
      currentLine := currentLine + NLines(cp);
    }
    assert cps[..|cps|] == cps;
    p := Program(text, tree, lineToCell, cellToLine);
  }

  /** Each assembly function on one more cell. */
  lemma PrefixStep(cps: seq<CellProgram>, j: nat)
    requires j < |cps|
    ensures Text(cps[..j + 1]) == Text(cps[..j]) + cps[j].cell.text + "\n"
    ensures TotalLines(cps[..j + 1]) == TotalLines(cps[..j]) + NLines(cps[j])
  {
    assert cps[..j + 1][..j] == cps[..j];
  }

  lemma PrefixTreeStep(cps: seq<CellProgram>, j: nat)
    requires j < |cps|
    ensures Tree(cps[..j + 1]) == Tree(cps[..j]) + Tag(ShiftStmts(cps[j].statements, TotalLines(cps[..j])), Eid(cps[j]))
  {
    assert cps[..j + 1][..j] == cps[..j];
  }

  lemma PrefixMapsStep(cps: seq<CellProgram>, j: nat)
    requires j < |cps|
    ensures LineMap(cps[..j + 1]) == LineMap(cps[..j]) + CellMap(cps[j], TotalLines(cps[..j]))
    ensures CellLines(cps[..j + 1]) == AddCell(CellLines(cps[..j]), cps[j], TotalLines(cps[..j]))
  {
    var pre, next := cps[..j], cps[..j + 1];
    assert next[..|next| - 1] == pre && next[|next| - 1] == cps[j];
    LineMapSnoc(next, pre, cps[j]);
    CellLinesSnoc(next, pre, cps[j]);
  }

  lemma LineMapSnoc(next: seq<CellProgram>, pre: seq<CellProgram>, cp: CellProgram)
    requires next != [] && next[..|next| - 1] == pre && next[|next| - 1] == cp
    ensures LineMap(next) == LineMap(pre) + CellMap(cp, TotalLines(pre))
  {
  }

  lemma CellLinesSnoc(next: seq<CellProgram>, pre: seq<CellProgram>, cp: CellProgram)
    requires next != [] && next[..|next| - 1] == pre && next[|next| - 1] == cp
    ensures CellLines(next) == AddCell(CellLines(pre), cp, TotalLines(pre))
  {
  }

  /** The per-line loop of `buildTo`: each line of the cell's text, from
      program line `lo` on, maps to the cell and joins the cell's lines. */
  method AddCellLines(lineToCell: map<int, Cell>, cellToLine: map<string, seq<int>>, cp: CellProgram, lo: int)
    returns (lineToCell': map<int, Cell>, cellToLine': map<string, seq<int>>)
    ensures lineToCell' == lineToCell + CellMap(cp, lo - 1)
    ensures cellToLine' == AddCell(cellToLine, cp, lo - 1)
  {
    var lines := Split(cp.cell.text, '\n');
    var e := Eid(cp);
    lineToCell' := lineToCell;
    cellToLine' := cellToLine[e := Get(cellToLine, e)];
    for l := 0 to |lines|
      invariant lineToCell' == lineToCell + LinesTo(lo, l, cp.cell)
      invariant cellToLine' == cellToLine[e := AddLines(Get(cellToLine, e), lo, l)]
    {
      LinesToStep(lineToCell, lo, l, cp.cell);
      AddLinesStep(cellToLine, e, lo, l);
      lineToCell' := lineToCell'[lo + l := cp.cell];
      cellToLine' := cellToLine'[e := SetAdd(Get(cellToLine', e), lo + l)];
    }
  }

  lemma AddLinesStep(m: map<string, seq<int>>, e: string, lo: int, l: nat)
    ensures var m' := m[e := AddLines(Get(m, e), lo, l)];
            m'[e := SetAdd(Get(m', e), lo + l)] == m[e := AddLines(Get(m, e), lo, l + 1)]
  {
  }

  lemma LinesToStep(m: map<int, Cell>, lo: int, l: nat, c: Cell)
    ensures (m + LinesTo(lo, l, c))[lo + l := c] == m + LinesTo(lo, l + 1, c)
  {
  }
}
