/** The execution log and its slices (log-slicer.ts).

    `LogExecution` appends a run to the log and hands its cell to the
    program builder. The backward slice of a run builds the program up to
    it, analyses that program's control-flow graph, seeds a location set
    with the statements on the run's own lines and pulls in the source of
    every dataflow that ends inside the set, until nothing changes. The
    locations are then split by the cell they fall in, moved back to the
    cell's own line numbers, and packaged as one `CellSlice` per cell, in
    program order. `GetDependentCells` is the forward query of the
    `Dependencies` module, ordered by the topological sort of the graph of
    its edges. */
module LogSlicers {
  import opened Util
  import opened Locations
  import opened Syntax
  import opened Specs
  import opened DataFlow
  import opened ControlFlow
  import opened Analysis
  import opened Cells
  import opened CellSlices
  import opened ProgramBuilders
  import opened Merge
  import opened Graphs
  import opened Dependencies

  /** One run of a cell, as logged. */
  datatype CellExecution = CellExecution(cell: Cell)

  function LoggedCells(log: seq<CellExecution>): (r: seq<Cell>)
    ensures |r| == |log| && forall k :: 0 <= k < |log| ==> r[k] == log[k].cell
  {
    seq(|log|, k requires 0 <= k < |log| => log[k].cell)
  }

  /** The backward search of `sliceLatestExecution` stops at the last run of `pid`. */
  lemma LastRunAt(cs: seq<Cell>, pid: string, i: nat)
    requires i <= |cs|
    requires forall j :: i <= j < |cs| ==> cs[j].persistentId != pid
    requires i > 0 ==> cs[i - 1].persistentId == pid
    ensures LastRun(cs, pid) == if i == 0 then |cs| else i - 1
  {
    var k := LastRun(cs, pid);
    if k < |cs| {
      assert k >= i - 1;
    }
  }

  lemma LoggedCellsAppend(log: seq<CellExecution>, e: CellExecution)
    ensures LoggedCells(log + [e]) == LoggedCells(log) + [e.cell]
  {
    var a, b := LoggedCells(log + [e]), LoggedCells(log) + [e.cell];
    forall k | 0 <= k < |a| ensures a[k] == b[k] {
      if k < |log| {
        assert (log + [e])[k] == log[k];
      }
    }
  }

  lemma LoggedAppend(log: seq<CellExecution>, e: CellExecution)
    ensures ProgramsOf(LoggedCells(log + [e])) == ProgramsOf(LoggedCells(log)) + ProgramsOf([e.cell])
  {
    var a, b := ProgramsOf(LoggedCells(log + [e])), ProgramsOf(LoggedCells(log)) + ProgramsOf([e.cell]);
    assert |a| == |b|;
    forall k | 0 <= k < |a| ensures a[k] == b[k] {
      if k < |log| {
        assert a[k] == ProgramOf(log[k].cell);
      }
    }
  }

  /** The runs of persistent id `pid`, in log order. */
  function RunsOf(log: seq<CellExecution>, pid: string): (r: seq<CellExecution>)
    ensures forall k :: 0 <= k < |r| ==> r[k] in log && r[k].cell.persistentId == pid
    decreases |log|
  {
    if log == [] then []
    else
      var init := RunsOf(log[..|log| - 1], pid);
      if log[|log| - 1].cell.persistentId == pid then init + [log[|log| - 1]] else init
  }

  /** The runs of `pid` among the first `i + 1` entries extend those among the first `i`. */
  lemma RunsOfStep(log: seq<CellExecution>, i: nat, pid: string)
    requires i < |log|
    ensures RunsOf(log[..i + 1], pid)
      == RunsOf(log[..i], pid) + (if log[i].cell.persistentId == pid then [log[i]] else [])
  {
    assert log[..i + 1][..i] == log[..i];
  }

  /** Appending one run and its slice keeps every earlier pair. */
  lemma Appended(runs: seq<CellExecution>, slices: seq<SlicedExecution>, e: CellExecution, s: SlicedExecution,
                 progs: seq<CellProgram>, specs: SpecTable, pid: string)
    requires |slices| == |runs|
    requires forall k :: 0 <= k < |slices| ==> SliceOf(progs, runs[k].cell.executionEventId, specs, slices[k])
    requires SliceOf(progs, e.cell.executionEventId, specs, s)
    ensures forall k :: 0 <= k < |slices| + 1 ==>
      SliceOf(progs, (runs + [e])[k].cell.executionEventId, specs, (slices + [s])[k])
  {
    forall k | 0 <= k < |slices| + 1
      ensures SliceOf(progs, (runs + [e])[k].cell.executionEventId, specs, (slices + [s])[k])
    {
      if k < |slices| {
        assert (runs + [e])[k] == runs[k] && (slices + [s])[k] == slices[k];
      }
    }
  }

  // ---------------------------------------------------------------- what a cell defines and reads

  function CellStatements(c: Cell): seq<Stmt> {
    if c.parsed.Some? then c.parsed.value else []
  }

  /** The names of the references a cell's statements define or update. */
  function CellDefs(specs: SpecTable): Cell -> set<string> {
    c => set r | r in DefsOfStatements(CellStatements(c), [], specs) :: r.name
  }

  /** The names a cell's statements read. */
  function CellUses(c: Cell): set<string> {
    BodyUses(CellStatements(c))
  }

  // ---------------------------------------------------------------- the backward closure

  /** The statements of the program, in order. */
  function TreeStmts(t: seq<TreeNode>): (r: seq<Stmt>)
    ensures |r| == |t| && forall k :: 0 <= k < |t| ==> r[k] == t[k].stmt
  {
    seq(|t|, k requires 0 <= k < |t| => t[k].stmt)
  }

  /** Every node of every block. */
  function NodesOf(g: Cfg): set<Node> {
    set b, k | 0 <= b < |g.blocks| && 0 <= k < |g.blocks[b].statements| :: g.blocks[b].statements[k]
  }

  /** The locations of the nodes that start on one of `lines`. */
  function Seeds(g: Cfg, lines: seq<int>): set<Location> {
    set n | n in NodesOf(g) && NodeLoc(n).firstLine in lines :: NodeLoc(n)
  }

  /** `l` lies inside a location of `S`. */
  predicate Covered(S: set<Location>, l: Location) {
    exists m :: m in S && Within(l, m)
  }

  /** The source of every dataflow that ends inside `S` is in `S`. */
  predicate SliceClosed(flows: set<Dataflow>, S: set<Location>) {
    forall f :: f in flows && Covered(S, NodeLoc(f.toNode)) ==> NodeLoc(f.fromNode) in S
  }

  function Froms(flows: set<Dataflow>): set<Location> {
    set f | f in flows :: NodeLoc(f.fromNode)
  }

  /** `R` is the least closed set that holds the seeds. */
  ghost predicate LeastSlice(flows: set<Dataflow>, seeds: set<Location>, R: set<Location>) {
    && seeds <= R
    && SliceClosed(flows, R)
    && forall S :: seeds <= S && SliceClosed(flows, S) ==> R <= S
  }

  /** Below every closed set that holds `base`. */
  ghost predicate BelowClosed(flows: set<Dataflow>, base: set<Location>, R: set<Location>) {
    forall S :: base <= S && SliceClosed(flows, S) ==> R <= S
  }

  /** One pass over the dataflows: each one that ends inside the set adds
      its source. When the pass adds nothing, the set is closed. */
  method Pass(flows: set<Dataflow>, slice0: set<Location>) returns (slice: set<Location>)
    ensures slice0 <= slice <= slice0 + Froms(flows)
    ensures BelowClosed(flows, slice0, slice)
    ensures slice == slice0 ==> SliceClosed(flows, slice)
  {
    slice := slice0;
    var rest := flows;
    while rest != {}
      invariant rest <= flows
      invariant slice0 <= slice <= slice0 + Froms(flows)
      invariant BelowClosed(flows, slice0, slice)
      invariant forall f :: f in flows && f !in rest && Covered(slice0, NodeLoc(f.toNode)) ==> NodeLoc(f.fromNode) in slice
      decreases |rest|
    {
      var f :| f in rest;
      if Covered(slice, NodeLoc(f.toNode)) {
        forall S | slice0 <= S && SliceClosed(flows, S) ensures slice + {NodeLoc(f.fromNode)} <= S {
          var m :| m in slice && Within(NodeLoc(f.toNode), m);
          assert m in S;
        }
        slice := slice + {NodeLoc(f.fromNode)};
      } else {
        CoveredMono(slice0, slice, NodeLoc(f.toNode));
      }
      rest := rest - {f};
    }
    if slice == slice0 {
      forall f | f in flows && Covered(slice, NodeLoc(f.toNode)) ensures NodeLoc(f.fromNode) in slice {
      }
    }
  }

  lemma CoveredMono(a: set<Location>, b: set<Location>, l: Location)
    requires a <= b
    ensures Covered(a, l) ==> Covered(b, l)
  {
    if Covered(a, l) {
      var m :| m in a && Within(l, m);
      assert m in b;
    }
  }

  /** The transitive closure of the seeds under the dataflows. */
  method Closure(flows: set<Dataflow>, seeds: set<Location>) returns (slice: set<Location>)
    ensures LeastSlice(flows, seeds, slice)
  {
    var u := seeds + Froms(flows);
    slice := seeds;
    var grown := true;
    while grown
      invariant seeds <= slice <= u
      invariant BelowClosed(flows, seeds, slice)
      invariant !grown ==> SliceClosed(flows, slice)
      decreases |u| - |slice|, grown
    {
      var before := slice;
      slice := Pass(flows, slice);
      forall S | seeds <= S && SliceClosed(flows, S) ensures slice <= S {
        assert before <= S;
      }
      grown := slice != before;
      SubsetCard(slice, u);
      if grown {
        assert exists y :: y in slice && y !in before;
        var x :| x in slice && x !in before;
        SubsetCard(before, slice - {x});
      }
    }
  }

  // ---------------------------------------------------------------- packaging

  function MinOf(s: seq<int>): (r: int)
    requires s != []
    ensures r in s && forall x :: x in s ==> r <= x
  {
    if |s| == 1 then s[0]
    else
      var m := MinOf(s[1..]);
      assert forall x :: x in s[1..] ==> m <= x;
      assert forall x :: x in s ==> x == s[0] || x in s[1..];
      if s[0] <= m then s[0] else m
  }

  /** The first program line of run `e`. */
  function StartLine(p: Program, e: string): int {
    var ls := Get(p.cellToLineMap, e);
    if ls == [] then 1 else MinOf(ls)
  }

  /** `l` starts on a line of run `e`. */
  predicate InCell(p: Program, l: Location, e: string) {
    l.firstLine in p.lineToCellMap && p.lineToCellMap[l.firstLine].executionEventId == e
  }

  /** The locations of the slice that start in run `e`, in that cell's own lines. */
  function Relative(p: Program, e: string, R: set<Location>): set<Location> {
    set l | l in R && InCell(p, l, e) :: Shift(l, 1 - StartLine(p, e))
  }

  predicate HasRun(cs: seq<Cell>, e: string) {
    exists k :: 0 <= k < |cs| && cs[k].executionEventId == e
  }

  /** The cells of program lines 1 to `n`, each run once, in line order. */
  function CellOrder(m: map<int, Cell>, n: nat): (r: seq<Cell>)
    decreases n
  {
    if n == 0 then []
    else
      var prev := CellOrder(m, n - 1);
      if n in m && !HasRun(prev, m[n].executionEventId) then prev + [m[n]] else prev
  }

  /** The cells of the program, in program order. */
  function ProgramCells(p: Program): seq<Cell> {
    CellOrder(p.lineToCellMap, |p.lineToCellMap|)
  }

  /** The cells of `order` that the slice touches. */
  function Contributing(p: Program, R: set<Location>, order: seq<Cell>): (r: seq<Cell>)
    ensures forall k :: 0 <= k < |r| ==> r[k] in order && Relative(p, r[k].executionEventId, R) != {}
    decreases |order|
  {
    if order == [] then []
    else
      var init, c := order[..|order| - 1], order[|order| - 1];
      Contributing(p, R, init) + (if Relative(p, c.executionEventId, R) != {} then [c] else [])
  }

  /** `cs` is cell `c` restricted to exactly its part of the slice. */
  ghost predicate SliceFor(cs: CellSlice, c: Cell, p: Program, R: set<Location>) {
    cs.cell == c && NoDup(cs.slice) &&
    forall l :: l in cs.slice <==> l in Relative(p, c.executionEventId, R)
  }

  /** One cell slice per touched cell, in program order. */
  ghost predicate Packaged(r: SlicedExecution, p: Program, R: set<Location>) {
    var cs := Contributing(p, R, ProgramCells(p));
    |r.cellSlices| == |cs| && forall k :: 0 <= k < |cs| ==> SliceFor(r.cellSlices[k], cs[k], p, R)
  }

  /** The elements of a set, each once. */
  method ListOf(s: set<Location>) returns (r: seq<Location>)
    ensures NoDup(r) && forall l :: l in r <==> l in s
  {
    r := [];
    var rest := s;
    while rest != {}
      invariant rest <= s
      invariant NoDup(r) && forall l :: l in r <==> l in s && l !in rest
      decreases |rest|
    {
      var l :| l in rest;
      NoDupAppend(r, l);
      r := r + [l];
      rest := rest - {l};
    }
  }

  method Package(p: Program, R: set<Location>) returns (r: SlicedExecution)
    ensures Packaged(r, p, R)
  {
    var order := ProgramCells(p);
    var slices: seq<CellSlice> := [];
    for i := 0 to |order|
      invariant |slices| == |Contributing(p, R, order[..i])|
      invariant forall k :: 0 <= k < |slices| ==> SliceFor(slices[k], Contributing(p, R, order[..i])[k], p, R)
    {
      assert order[..i + 1][..i] == order[..i];
      var rel := Relative(p, order[i].executionEventId, R);
      if rel != {} {
        var locs := ListOf(rel);
        slices := slices + [CellSlice(order[i], locs)];
      }
    }
    assert order[..|order|] == order;
    r := SlicedExecution(slices);
  }

  /** `r` is the backward slice of run `eid` over the recorded cells: the
      packaged least closure, under the dataflows of the program built up to
      the run, of the statements on the run's lines. */
  ghost predicate SliceOf(cps: seq<CellProgram>, eid: string, specs: SpecTable, r: SlicedExecution) {
    var p := Assemble(Selection(cps, eid));
    var g := Build(TreeStmts(p.tree));
    var defs := DefsOf([], specs);
    exists out: seq<set<Reaching>>, R: set<Location> ::
      && Closed(g, out, defs) && Least(g, out, defs)
      && LeastSlice(Flows(g, out, defs, NodeUses), Seeds(g, Get(p.cellToLineMap, eid)), R)
      && Packaged(r, p, R)
  }

  // ---------------------------------------------------------------- ordering the dependents

  function PidKey(c: Cell): string { c.persistentId }

  /** `s` without its cells of persistent id `pid`. */
  function Without(s: seq<Cell>, pid: string): (r: seq<Cell>)
    ensures forall x :: x in r <==> x in s && x.persistentId != pid
    ensures |r| <= |s|
    decreases |s|
  {
    if s == [] then []
    else
      var init, c := s[..|s| - 1], s[|s| - 1];
      assert forall x :: x in s <==> x in init || x == c;
      Without(init, pid) + (if c.persistentId == pid then [] else [c])
  }

  lemma {:induction false} WithoutDistinct(s: seq<Cell>, pid: string)
    requires DistinctPids(s)
    ensures DistinctPids(Without(s, pid))
    decreases |s|
  {
    if s != [] {
      var init := s[..|s| - 1];
      WithoutDistinct(init, pid);
      assert forall x :: x in Without(init, pid) ==> x in init;
    }
  }

  /** With distinct ids and `pid` among them, exactly one cell goes. */
  lemma {:induction false} WithoutOne(s: seq<Cell>, pid: string, q: nat)
    requires DistinctPids(s) && q < |s| && s[q].persistentId == pid
    ensures |Without(s, pid)| == |s| - 1
    decreases |s|
  {
    var init := s[..|s| - 1];
    if q < |s| - 1 {
      WithoutOne(init, pid, q);
    } else {
      WithoutNone(init, pid);
    }
  }

  lemma {:induction false} WithoutNone(s: seq<Cell>, pid: string)
    requires forall k :: 0 <= k < |s| ==> s[k].persistentId != pid
    ensures Without(s, pid) == s
    decreases |s|
  {
    if s != [] {
      var init := s[..|s| - 1];
      WithoutNone(init, pid);
      assert s == init + [s[|s| - 1]];
    }
  }

  /** Position `q` of the filtered sequence comes from some position `q'` of
      the original, and what precedes it is the filtered prefix before `q'`. */
  lemma {:induction false} WithoutPrefix(s: seq<Cell>, pid: string, q: nat) returns (q': nat)
    requires q < |Without(s, pid)|
    ensures q' < |s| && s[q'] == Without(s, pid)[q]
    ensures Without(s, pid)[..q] == Without(s[..q'], pid)
    decreases |s|
  {
    var init := s[..|s| - 1];
    if q < |Without(init, pid)| {
      var k := WithoutPrefix(init, pid, q);
      WithoutInit(s, init, pid, q, k);
      q' := k;
    } else {
      WithoutLast(s, init, pid, q);
      q' := |s| - 1;
    }
  }

  lemma WithoutInit(s: seq<Cell>, init: seq<Cell>, pid: string, q: nat, k: nat)
    requires s != [] && init == s[..|s| - 1] && q < |Without(init, pid)|
    requires k < |init| && init[k] == Without(init, pid)[q] && Without(init, pid)[..q] == Without(init[..k], pid)
    ensures q < |Without(s, pid)| && k < |s| && s[k] == Without(s, pid)[q]
    ensures Without(s, pid)[..q] == Without(s[..k], pid)
  {
    FrontAgrees(s, init, k);
    WithoutSnoc(s, init, pid);
    PrefixOfSnoc(Without(init, pid), Without(s, pid), s[|s| - 1], q);
  }

  lemma FrontAgrees<T>(s: seq<T>, init: seq<T>, k: nat)
    requires s != [] && init == s[..|s| - 1] && k < |init|
    ensures s[k] == init[k] && s[..k] == init[..k]
  {
  }

  /** A sequence that is `w` or `w` with one more element agrees with `w`
      up to any position of `w`. */
  lemma PrefixOfSnoc<T>(w: seq<T>, ws: seq<T>, c: T, q: nat)
    requires q < |w| && (ws == w || ws == w + [c])
    ensures q < |ws| && ws[q] == w[q] && ws[..q] == w[..q]
  {
  }

  /** `Without` on a sequence and on its front. */
  lemma WithoutSnoc(s: seq<Cell>, init: seq<Cell>, pid: string)
    requires s != [] && init == s[..|s| - 1]
    ensures s[|s| - 1].persistentId == pid ==> Without(s, pid) == Without(init, pid)
    ensures s[|s| - 1].persistentId != pid ==> Without(s, pid) == Without(init, pid) + [s[|s| - 1]]
  {
  }

  lemma WithoutLast(s: seq<Cell>, init: seq<Cell>, pid: string, q: nat)
    requires s != [] && init == s[..|s| - 1] && |Without(init, pid)| <= q < |Without(s, pid)|
    ensures s[|s| - 1] == Without(s, pid)[q] && Without(s, pid)[..q] == Without(s[..|s| - 1], pid)
  {
    WithoutSnoc(s, init, pid);
  }

  /** `r` lists the dependents of walk `w`, each once, every one after the
      dependents it reads from. */
  ghost predicate ListsDependents(r: seq<Cell>, w: Walk) {
    && |r| == |w.deps| && DistinctPids(r)
    && (forall c :: c in r <==> c in w.deps)
    && forall e, q :: (e in w.edges && 0 < e.0 <= |w.deps| && 0 < e.1 <= |w.deps| &&
                       0 <= q < |r| && r[q] == w.deps[e.1 - 1]) ==> w.deps[e.0 - 1] in r[..q]
  }

  /** Graph nodes: the target, then the dependents; none when there are no dependents. */
  function NodeCells(t: Cell, deps: seq<Cell>): seq<Cell> {
    if deps == [] then [] else [t] + deps
  }

  /** The edges into node `to` from the providers of `names`. */
  function Edges(names: set<string>, live: map<string, nat>, to: nat): set<(nat, nat)> {
    set n | n in names && n in live :: (live[n], to)
  }

  /** The first edge into the new node `c` registers both ends. */
  method AddFirst(g: Graph<Cell>, nodes: seq<Cell>, c: Cell, src: nat)
    requires g.Valid() && g.key == PidKey && src < |nodes|
    requires g.nodes == (if |nodes| == 1 then [] else nodes)
    requires DistinctPids(nodes + [c])
    modifies g
    ensures g.Valid() && g.nodes == nodes + [c]
    ensures g.edges == old(g.edges) + {(src, |nodes|)}
  {
    FirstEdgeNodes(g, nodes, c, src, g.nodes);
    g.AddEdge(nodes[src], c);
  }

  /** Registering a provider among `nodes` and then the new cell `c` gives
      `nodes + [c]`, where both are found at their own positions. */
  lemma FirstEdgeNodes(g: Graph<Cell>, nodes: seq<Cell>, c: Cell, src: nat, before: seq<Cell>)
    requires g.key == PidKey && src < |nodes| && DistinctPids(nodes + [c])
    requires before == (if |nodes| == 1 then [] else nodes)
    ensures g.Registered(g.Registered(before, nodes[src]), c) == nodes + [c]
    ensures g.Find(nodes + [c], PidKey(nodes[src])) == src
    ensures g.Find(nodes + [c], PidKey(c)) == |nodes|
  {
    var all := nodes + [c];
    assert all[src] == nodes[src] && all[|nodes|] == c;
    FindAt(g, all, src);
    FindAt(g, all, |nodes|);
    assert DistinctPids(nodes) by {
      forall i, j | 0 <= i < j < |nodes| ensures nodes[i].persistentId != nodes[j].persistentId {
        assert all[i] == nodes[i] && all[j] == nodes[j];
      }
    }
    FindAt(g, nodes, src);
    assert g.Registered(before, nodes[src]) == nodes by {
      if |nodes| == 1 {
        assert g.Find([], PidKey(nodes[0])) == 0;
      }
    }
    assert g.Find(nodes, PidKey(c)) == |nodes| by {
      forall i | 0 <= i < |nodes| ensures nodes[i].persistentId != c.persistentId {
        assert all[i] == nodes[i];
      }
    }
  }

  /** Among cells of distinct persistent ids, a cell's id is found at its position. */
  lemma FindAt(g: Graph<Cell>, ns: seq<Cell>, i: nat)
    requires g.key == PidKey && DistinctPids(ns) && i < |ns|
    ensures g.Find(ns, PidKey(ns[i])) == i
  {
  }

  /** A later edge into `c`, whose ends are both registered. */
  method AddNext(g: Graph<Cell>, nodes: seq<Cell>, c: Cell, src: nat)
    requires g.Valid() && g.key == PidKey && src < |nodes|
    requires g.nodes == nodes + [c]
    modifies g
    ensures g.Valid() && g.nodes == nodes + [c]
    ensures g.edges == old(g.edges) + {(src, |nodes|)}
  {
    assert g.nodes[src] == nodes[src] && g.nodes[|nodes|] == c;
    g.FindUnique(src, PidKey(nodes[src]));
    g.FindUnique(|nodes|, PidKey(c));
    g.AddEdge(nodes[src], c);
  }

  lemma EdgesAdd(names: set<string>, n: string, live: map<string, nat>, to: nat)
    requires n in live
    ensures Edges(names + {n}, live, to) == Edges(names, live, to) + {(live[n], to)}
  {
  }

  /** Marking one more element done shrinks what is left. */
  lemma Remaining<T>(all: set<T>, done: set<T>, x: T)
    requires x in all - done
    ensures |all - (done + {x})| < |all - done|
  {
    assert all - (done + {x}) == (all - done) - {x};
  }

  /** Adds an edge to `c` from the provider of each name `c` reads. */
  method Link(g: Graph<Cell>, nodes: seq<Cell>, c: Cell, read: set<string>, live: map<string, nat>)
    requires g.Valid() && g.key == PidKey && read != {} && nodes != []
    requires g.nodes == (if |nodes| == 1 then [] else nodes)
    requires DistinctPids(nodes + [c])
    requires forall n :: n in read ==> n in live && live[n] < |nodes|
    modifies g
    ensures g.Valid() && g.nodes == nodes + [c]
    ensures g.edges == old(g.edges) + Edges(read, live, |nodes|)
  {
    var first :| first in read;
    AddFirst(g, nodes, c, live[first]);
    EdgesAdd({}, first, live, |nodes|);
    var done := {first};
    while read - done != {}
      invariant done <= read
      invariant g.Valid() && g.key == PidKey && g.nodes == nodes + [c]
      invariant g.edges == old(g.edges) + Edges(done, live, |nodes|)
      decreases |read - done|
    {
      var n :| n in read - done;
      AddNext(g, nodes, c, live[n]);
      EdgesAdd(done, n, live, |nodes|);
      Remaining(read, done, n);
      done := done + {n};
    }
    assert done == read;
  }

  /** Visits one cell of the walk on the graph: a reader becomes a node
      with an edge from each provider it reads; a non-reader kills its names. */
  method Examine(g: Graph<Cell>, t: Cell, deps: seq<Cell>, live: map<string, nat>, c: Cell, defs: Cell -> set<string>)
      returns (deps': seq<Cell>, live': map<string, nat>)
    requires g.Valid() && g.key == PidKey && g.nodes == NodeCells(t, deps)
    requires Shaped(Walk(deps, g.edges, live))
    requires DistinctPids([t] + deps + [c])
    modifies g
    ensures g.Valid() && g.nodes == NodeCells(t, deps')
    ensures Walk(deps', g.edges, live') == Dependencies.Step(Walk(deps, old(g.edges), live), c, defs, CellUses)
  {
    var read := set n | n in CellUses(c) && n in live;
    if read == {} {
      deps', live' := deps, live - defs(c);
    } else {
      Link(g, [t] + deps, c, read, live);
      assert [t] + deps + [c] == [t] + (deps + [c]);
      assert Edges(read, live, |deps| + 1) == set n | n in read :: (live[n], |deps| + 1);
      deps', live' := deps + [c], live + (map n | n in defs(c) :: |deps| + 1);
    }
  }

  /** A later cell not yet visited has an id of its own. */
  lemma DistinctExtend(t: Cell, deps: seq<Cell>, later: seq<Cell>, i: nat)
    requires i < |later| && DistinctPids(later) && DistinctPids([t] + deps)
    requires forall k :: 0 <= k < |later| ==> later[k].persistentId != t.persistentId
    requires forall d :: d in deps ==> d in later[..i]
    ensures DistinctPids([t] + deps + [later[i]])
  {
    var s := [t] + deps + [later[i]];
    forall x, y | 0 <= x < y < |s| ensures s[x].persistentId != s[y].persistentId {
      if y < |s| - 1 {
        assert s[x] == ([t] + deps)[x] && s[y] == ([t] + deps)[y];
      } else if 0 < x {
        assert s[x] == deps[x - 1] && s[y] == later[i];
        assert s[x] in later[..i];
        var j :| 0 <= j < i && later[..i][j] == s[x];
        assert later[j] == s[x];
      }
    }
  }

  /** The walk over the later cells, with its nodes and edges kept in a graph. */
  method DependencyGraph(t: Cell, later: seq<Cell>, defs: Cell -> set<string>)
      returns (g: Graph<Cell>, deps: seq<Cell>, live: map<string, nat>)
    requires DistinctPids(later)
    requires forall k :: 0 <= k < |later| ==> later[k].persistentId != t.persistentId
    ensures g.Valid() && g.key == PidKey && g.nodes == NodeCells(t, deps)
    ensures Walk(deps, g.edges, live) == WalkAll(Begin(t, defs), later, defs, CellUses)
    ensures Shaped(Walk(deps, g.edges, live))
  {
    g := new Graph<Cell>(PidKey);
    deps, live := [], map n | n in defs(t) :: 0;
    for i := 0 to |later|
      invariant Walk(deps, g.edges, live) == WalkAll(Begin(t, defs), later[..i], defs, CellUses)
      invariant Shaped(Walk(deps, g.edges, live))
      invariant g.Valid() && g.key == PidKey
      invariant g.nodes == NodeCells(t, deps)
      invariant DistinctPids([t] + deps)
      invariant forall d :: d in deps ==> d in later[..i]
    {
      assert later[..i + 1][..i] == later[..i];
      DistinctExtend(t, deps, later, i);
      ghost var w := Walk(deps, g.edges, live);
      deps, live := Examine(g, t, deps, live, later[i], defs);
      StepShaped(w, later[i], defs, CellUses);
      assert forall d :: d in deps ==> d in later[..i + 1];
    }
    assert later[..|later|] == later;
  }

  // ---------------------------------------------------------------- the slicer

  class ExecutionLogSlicer {
    /** The log, first run first. */
    var cellExecutions: seq<CellExecution>
    const programBuilder: ProgramBuilder
    /** The module specs the dataflow analyzer resolves calls with. */
    const specs: SpecTable

    /** The builder holds exactly the logged cells. */
    ghost predicate Valid()
      reads this, programBuilder
    {
      programBuilder.cellPrograms == ProgramsOf(LoggedCells(cellExecutions))
    }

    constructor(specs: SpecTable)
      ensures Valid() && cellExecutions == [] && this.specs == specs
      ensures fresh(programBuilder)
    {
      cellExecutions := [];
      programBuilder := new ProgramBuilder();
      this.specs := specs;
    }

    /** `logExecution`: appends the run and records its cell. */
    method LogExecution(c: Cell)
      requires Valid()
      modifies this, programBuilder
      ensures Valid()
      ensures cellExecutions == old(cellExecutions) + [CellExecution(c)]
    {
      LoggedAppend(cellExecutions, CellExecution(c));
      cellExecutions := cellExecutions + [CellExecution(c)];
      programBuilder.Add([c]);
    }

    /** The backward slice of one run. */
    method SliceExecution(e: CellExecution) returns (r: SlicedExecution)
      requires Valid()
      ensures SliceOf(ProgramsOf(LoggedCells(cellExecutions)), e.cell.executionEventId, specs, r)
    {
      var eid := e.cell.executionEventId;
      var p := programBuilder.BuildTo(eid);
      var cfg := new ControlFlowGraph.OfModule(TreeStmts(p.tree));
      var flows, out := Analyze(cfg, [], specs);
      var slice := Closure(flows, Seeds(cfg.State(), Get(p.cellToLineMap, eid)));
      r := Package(p, slice);
    }

    /** `sliceAllExecutions`: the backward slice of every run of `pid`, in log order. */
    method SliceAllExecutions(pid: string) returns (slices: seq<SlicedExecution>)
      requires Valid()
      ensures |slices| == |RunsOf(cellExecutions, pid)|
      ensures forall k :: 0 <= k < |slices| ==>
                SliceOf(ProgramsOf(LoggedCells(cellExecutions)), RunsOf(cellExecutions, pid)[k].cell.executionEventId, specs, slices[k])
    {
      slices := [];
      var log := cellExecutions;
      ghost var progs := ProgramsOf(LoggedCells(log));
      ghost var runs: seq<CellExecution> := [];
      for i := 0 to |log|
        invariant runs == RunsOf(log[..i], pid) && |slices| == |runs|
        invariant forall k :: 0 <= k < |slices| ==> SliceOf(progs, runs[k].cell.executionEventId, specs, slices[k])
      {
        RunsOfStep(log, i, pid);
        if log[i].cell.persistentId == pid {
          var s := SliceExecution(log[i]);
          Appended(runs, slices, log[i], s, progs, specs, pid);
          runs := runs + [log[i]];
          slices := slices + [s];
        }
      }
      assert log[..|log|] == log;
    }

    /** `sliceLatestExecution`: the backward slice of the latest run of `pid`;
        nothing when `pid` never ran. */
    method SliceLatestExecution(pid: string) returns (r: Option<SlicedExecution>)
      requires Valid()
      ensures var k := LastRun(LoggedCells(cellExecutions), pid);
              (r.None? <==> k == |cellExecutions|) &&
              (r.Some? ==> (k < |cellExecutions| &&
                            SliceOf(ProgramsOf(LoggedCells(cellExecutions)), cellExecutions[k].cell.executionEventId, specs, r.value)))
    {
      var i := |cellExecutions|;
      while i > 0 && cellExecutions[i - 1].cell.persistentId != pid
        invariant 0 <= i <= |cellExecutions|
        invariant forall j :: i <= j < |cellExecutions| ==> cellExecutions[j].cell.persistentId != pid
        decreases i
      {
        i := i - 1;
      }
      var cells := LoggedCells(cellExecutions);
      LastRunAt(cells, pid, i);
      if i == 0 {
        r := None;
      } else {
        var s := SliceExecution(cellExecutions[i - 1]);
        r := Some(s);
      }
    }

    /** `getDependentCells`: the cells that depend on run `eid`, each once,
        every one after the dependents it reads from. */
    method GetDependentCells(eid: string) returns (r: seq<Cell>)
      ensures ListsDependents(r, DependencyWalk(LoggedCells(cellExecutions), eid, CellDefs(specs), CellUses))
    {
      var cells := LoggedCells(cellExecutions);
      var ti := EventIndex(cells, eid);
      if ti == |cells| {
        return [];
      }
      var t := cells[ti];
      var later := Later(cells, t);
      var defs := CellDefs(specs);
      LaterDistinct(cells, t);
      var g, deps, live := DependencyGraph(t, later, defs);
      g.ForwardEdgesAcyclic();
      var sorted := g.TopoSort();
      r := Without(sorted, t.persistentId);
      assert SortedNodes(g, t, deps, sorted);
      TopoCount(g, t, deps, sorted);
      TopoMembers(g, t, deps, sorted);
      TopoOrder(g, t, deps, sorted);
    }
  }

  /** The target and the cells after it have distinct persistent ids. */
  lemma LaterDistinct(cells: seq<Cell>, t: Cell)
    ensures forall k :: 0 <= k < |Later(cells, t)| ==> Later(cells, t)[k].persistentId != t.persistentId
    ensures DistinctPids(Later(cells, t))
  {
    NotebookLatest(cells);
    var nb := Notebook(cells);
    var k := PidIndex(nb, t.persistentId);
    if k < |nb| {
      forall j | 0 <= j < |Later(cells, t)| ensures Later(cells, t)[j].persistentId != t.persistentId {
        assert Later(cells, t)[j] == nb[k + 1 + j];
      }
    }
  }

  /** The sorted cells, read back on the dependents. */
  ghost predicate SortedNodes(g: Graph<Cell>, t: Cell, deps: seq<Cell>, sorted: seq<Cell>)
    reads g
  {
    && g.key == PidKey && g.nodes == NodeCells(t, deps)
    && (forall i, j :: 0 <= i < j < |g.nodes| ==> g.nodes[i].persistentId != g.nodes[j].persistentId)
    && |sorted| == |g.nodes| && g.KeySet(sorted) == g.KeySet(g.nodes)
    && (forall p :: 0 <= p < |sorted| ==> sorted[p] in g.nodes)
    && DistinctPids(sorted)
  }

  /** A sorted cell and a node of the same id are the same cell. */
  lemma SortedNode(g: Graph<Cell>, t: Cell, deps: seq<Cell>, sorted: seq<Cell>, p: nat, i: nat)
    requires SortedNodes(g, t, deps, sorted)
    requires p < |sorted| && i < |g.nodes| && sorted[p].persistentId == g.nodes[i].persistentId
    ensures sorted[p] == g.nodes[i]
  {
    var j :| 0 <= j < |g.nodes| && g.nodes[j] == sorted[p];
    assert j == i;
  }

  /** The node of each dependent is in the sort. */
  lemma SortedHas(g: Graph<Cell>, t: Cell, deps: seq<Cell>, sorted: seq<Cell>, i: nat) returns (p: nat)
    requires SortedNodes(g, t, deps, sorted) && i < |g.nodes|
    ensures p < |sorted| && sorted[p] == g.nodes[i]
  {
    assert PidKey(g.nodes[i]) in g.KeySet(g.nodes);
    p :| 0 <= p < |sorted| && PidKey(sorted[p]) == PidKey(g.nodes[i]);
    SortedNode(g, t, deps, sorted, p, i);
  }

  lemma TopoCount(g: Graph<Cell>, t: Cell, deps: seq<Cell>, sorted: seq<Cell>)
    requires SortedNodes(g, t, deps, sorted)
    ensures |Without(sorted, t.persistentId)| == |deps| && DistinctPids(Without(sorted, t.persistentId))
  {
    WithoutDistinct(sorted, t.persistentId);
    if deps != [] {
      assert g.nodes[0] == t;
      var q0 := SortedHas(g, t, deps, sorted, 0);
      WithoutOne(sorted, t.persistentId, q0);
    }
  }

  lemma TopoMembers(g: Graph<Cell>, t: Cell, deps: seq<Cell>, sorted: seq<Cell>)
    requires SortedNodes(g, t, deps, sorted)
    ensures forall c :: c in Without(sorted, t.persistentId) <==> c in deps
  {
    var r := Without(sorted, t.persistentId);
    forall c | c in deps ensures c in r {
      var i :| 0 <= i < |deps| && deps[i] == c;
      assert g.nodes[i + 1] == c && g.nodes[0] == t;
      var p := SortedHas(g, t, deps, sorted, i + 1);
    }
    forall c | c in r ensures c in deps {
      assert c in sorted && c != t;
      assert c in g.nodes;
    }
  }

  lemma TopoOrder(g: Graph<Cell>, t: Cell, deps: seq<Cell>, sorted: seq<Cell>)
    requires g.Valid() && SortedNodes(g, t, deps, sorted)
    requires forall e, q :: e in g.edges && 0 <= q < |sorted| && g.key(sorted[q]) == g.key(g.nodes[e.1]) ==>
               g.key(g.nodes[e.0]) in g.KeySet(sorted[..q])
    ensures var r := Without(sorted, t.persistentId);
            forall e, q :: (e in g.edges && 0 < e.0 <= |deps| && 0 < e.1 <= |deps| &&
                            0 <= q < |r| && r[q] == deps[e.1 - 1]) ==> deps[e.0 - 1] in r[..q]
  {
    var r := Without(sorted, t.persistentId);
    forall e, q | e in g.edges && 0 < e.0 <= |deps| && 0 < e.1 <= |deps| && 0 <= q < |r| && r[q] == deps[e.1 - 1]
      ensures deps[e.0 - 1] in r[..q]
    {
      TopoEdge(g, t, deps, sorted, e, q);
    }
  }

  /** One edge between dependents: its source comes before its target. */
  lemma TopoEdge(g: Graph<Cell>, t: Cell, deps: seq<Cell>, sorted: seq<Cell>, e: (nat, nat), q: nat)
    requires g.Valid() && SortedNodes(g, t, deps, sorted)
    requires e in g.edges && 0 < e.0 <= |deps| && 0 < e.1 <= |deps|
    requires q < |Without(sorted, t.persistentId)| && Without(sorted, t.persistentId)[q] == deps[e.1 - 1]
    requires forall q' :: 0 <= q' < |sorted| && g.key(sorted[q']) == g.key(g.nodes[e.1]) ==>
               g.key(g.nodes[e.0]) in g.KeySet(sorted[..q'])
    ensures deps[e.0 - 1] in Without(sorted, t.persistentId)[..q]
  {
    var nodes := g.nodes;
    var q' := WithoutPrefix(sorted, t.persistentId, q);
    assert nodes[e.1] == deps[e.1 - 1] && nodes[e.0] == deps[e.0 - 1] && nodes[0] == t;
    assert PidKey(nodes[e.0]) in g.KeySet(sorted[..q']);
    var p :| 0 <= p < q' && PidKey(sorted[..q'][p]) == PidKey(nodes[e.0]);
    SortedNode(g, t, deps, sorted, p, e.0);
    assert sorted[p] in sorted[..q'];
    assert nodes[e.0].persistentId != t.persistentId;
  }
}
