# python-program-analysis, modelled in Dafny

This project models the slicing core of python-program-analysis. The
library analyses a log of executed notebook cells and answers two
questions:

- which earlier code a run needs (the backward slice);
- which later cells depend on a run (the forward query).

The model follows the library's modules, one Dafny file each, leaves first:

- `util.dfy` (`Util`): insertion-ordered sets kept as sequences, JavaScript's
  `split` and `slice` on strings, and a stable sort by key.
- `locations.dfy` (`Locations`): source locations (1-based lines, 0-based
  columns), compared by all four coordinates.
- `graph.dfy` (`Graphs`): the generic graph of `graph.ts`. It is a class
  whose `AddEdge` registers nodes once per key. `TopoSort` is Kahn's
  worklist algorithm.
- `syntax.dfy`, `specs.dfy` (`Syntax`, `Specs`): the statement tree the
  parser produces, reduced to the shapes the analyses distinguish, and the
  spec table of functions and types.
- `dataflow.dfy` (`DataFlow`): `getDefs` and `getUses`, covering:
  - definitions against updates;
  - call effects resolved through the spec table, with the conservative
    default when no spec is found;
  - inferred types for method receivers;
  - magic annotations;
  - function scoping of uses.
- `controlflow.dfy` (`ControlFlow`): the `ControlFlowGraph` class, with its
  blocks, hints, edges, `getPredecessors` and `visitControlDependencies`,
  built from a module or a function body.
- `analysis.dfy` (`Analysis`): `analyze`, a reaching-definitions worklist
  over the graph. It is proved to compute the least closed assignment and
  its dataflows.
- `cell.dfy`, `cellslice.dfy` (`Cells`, `CellSlices`): cells, plus
  `textSlice` and `textSliceLines`.
- `merge.dfy` (`Merge`): `SlicedExecution.merge`.
- `programbuilder.dfy` (`ProgramBuilders`): the `ProgramBuilder` class,
  with `add` and `buildTo`.
- `dependencies.dfy`, `logslicer.dfy` (`Dependencies`, `LogSlicers`): the
  `ExecutionLogSlicer` class, with:
  - `logExecution`;
  - the backward slices (`sliceAllExecutions`, `sliceLatestExecution`);
  - `getDependentCells`.
- `*_tests.dfy`: each scenario of the library's test suites, stated over
  inputs of the test's shape and proved.

Design choices where the library's behaviour is only pinned down by its
tests:

- **The merge.** `merge` gathers the receiver's slices first, then the
  others' slices, in argument order. Slices of the same execution event id
  have their locations united. The result is then sorted stably by
  execution count.
- **Building a program.** `buildTo(id)` scans backwards from the latest run
  of `id`. It stops at the start of the current kernel session: the longest
  run of cells, ending at the target, whose counts rise strictly. It then
  skips two kinds of cell:
  - cells with an error or that do not parse, except the target;
  - cells whose persistent id comes again later, so the later run wins.
- **Seeding a slice.** The seeds of a backward slice are the statements
  that start on the program lines of the target run. The slice is the least
  location set that holds the seeds and is closed under the dataflows.
- **The notebook behind `getDependentCells`.** The notebook holds one cell
  per persistent id: its latest run, at the position where the id first
  appeared. The dependents are found among the notebook cells after the
  target's persistent id.
  - The walk has latest-write-wins liveness: a cell that reads no live name
    kills the names it defines.
  - The dependency graph is keyed by persistent id. Node 0 is the target,
    and every edge runs from a provider to a reader.
- **Dependents of a re-run.** `getDependentCells` could be read as
  returning every execution later in the log. The re-run test (`src/test/log-slicer.test.ts:133-151`) counts a reader
  that ran before the re-run. The model follows the test: dependents are
  looked for after the target's place in the notebook, not after its run in
  the log.
- **Rendering a slice.** A rendering that pads the pieces with whitespace
  is conceivable. The test (`src/test/cellslice.test.ts:6-15`)
  expects the covered pieces without padding, joined by line breaks. The
  model follows the test.
- **Joins in the analysis.** Where several definitions of a name reach a
  use along different paths, the analysis keeps one dataflow per reaching
  definition.

## Model

| member | source | states |
|---|---|---|
| Graphs.Graph.constructor | src/test/graph.test.ts:4-8 | a fresh graph has no nodes and no edges |
| Graphs.Graph.AddEdge | src/test/graph.test.ts:10-20 | both ends become nodes, once per key and in first-seen order; exactly one edge between their positions is added |
| Graphs.Graph.IndexOf | src/test/graph.test.ts:10-20 | the search finds the node with the key of `x`, or reports that there is none |
| Graphs.Graph.Register | src/test/graph.test.ts:10-20 | `x` is a node afterwards, added only when no node has its key, and the edges are unchanged |
| Graphs.Graph.TopoSort | src/test/graph.test.ts:22-36 | every emitted node is a node, no key is emitted twice, every edge's source is emitted before its target, and in an acyclic graph every node is emitted |
| Graphs.Graph.ForwardEdgesAcyclic | src/test/graph.test.ts:22-36 | a graph whose edges all point forward is acyclic |
| Graphs.Graph.CycleIsNotAcyclic | src/test/graph.test.ts:22-36 | a graph with a cycle is not acyclic, so the completeness promise of `TopoSort` excludes exactly the cyclic graphs |
| Graphs.TracksNodes | src/test/graph.test.ts:10-20 | the edges a -> b and b -> c register exactly the nodes a, b, c |
| Graphs.SortsForest | src/test/graph.test.ts:22-36 | the forest sorts to four nodes a, b, c, d, with a before b and c before d |
| Graphs.SortsDag | src/test/graph.test.ts:38-50 | the DAG a -> b, b -> c, a -> c sorts to exactly a, b, c |
| Util.UnionIdempotent | src/test/merge.test.ts:53-63 | a location set united with itself is unchanged |
| Util.UnionSize | src/test/merge.test.ts:86-102 | the size of a union is the number of distinct locations in the two sets |
| Util.SplitJoin | src/test/program-builder.test.ts:19-26 | splitting a text joined with line breaks gives the lines back, when no line holds a break |
| Merge.Gather | src/test/merge.test.ts:41-131 | there is one entry per execution event id; an entry holds exactly the locations that any slice of that execution covers, each once, and keeps the cell of that execution's first slice |
| Merge.MergeAll | src/test/merge.test.ts:41-131 | `merge` keeps exactly the executions of its inputs, each once, with the union of their ranges and the cell of each execution's first slice, ordered by ascending execution count |
| Merge.MergeSize | src/test/merge.test.ts:116-131 | the merge has one cell slice per distinct execution among its inputs |
| Merge.MergeDistinctSize | src/test/merge.test.ts:116-131 | with no execution shared between the inputs, the merge's length is the sum of the input lengths |
| Merge.MergeSymmetric | src/test/merge.test.ts:41-131 | `a.merge(b)` and `b.merge(a)` hold the same executions with the same ranges |
| Merge.DifferentCells | src/test/merge.test.ts:41-51 | slices of two different cells give two entries, the one counted 1 first |
| Merge.SameLocationsOnce | src/test/merge.test.ts:53-63 | the same range from the same execution twice gives one entry holding one range |
| Merge.EventIdentity | src/test/merge.test.ts:65-84 | an equal persistent id and count with different event ids stay two entries |
| Merge.ComplementaryRanges | src/test/merge.test.ts:86-102 | two different ranges of one execution give one entry holding both, although one lies inside the other |
| Merge.ExecutionOrder | src/test/merge.test.ts:104-114 | the result follows the execution counts, not the argument order |
| Merge.NWay | src/test/merge.test.ts:116-131 | three merges of two distinct executions each give six entries |
| Locations.OverlapKept | src/test/merge.test.ts:86-102 | different overlapping ranges are kept as two entries, not coalesced |
| CellSlices.SingleLinePiece | src/test/cellslice.test.ts:6-15 | a one-line range selects columns from its first column up to, not including, its last; in full-line mode the whole line |
| CellSlices.MultiLinePiece | src/test/cellslice.test.ts:6-28 | a multi-line range takes its first line from the first column on, its middle lines whole and its last line up to the last column; in full-line mode all its lines whole |
| CellSlices.TextSlice | src/test/cellslice.test.ts:6-15 | `textSlice` renders no range as empty text; one range on one line as the columns it covers; one range over several lines as its first line from the first column, the middle lines whole and the last line up to the last column |
| CellSlices.TextSliceLines | src/test/cellslice.test.ts:17-28 | `textSliceLines` renders no range as empty text and one range as every line it reaches, whole, joined by line breaks |
| CellSlices.TextSliceLinesCovered | src/test/cellslice.test.ts:17-28 | over any ranges, `textSliceLines` splits into the lines each range reaches, whole, range after range in order of first lines; no line that no range reaches is in it, and a range that reaches only an empty line adds nothing |
| CellSlices.TextSliceCovered | src/test/cellslice.test.ts:6-15 | over ranges that lie within the cell, `textSlice` splits into the columns each range covers, line by line (first line from the first column, middle lines whole, last line up to the last column), range after range in order of first lines, and nothing of an untouched line |
| CellSlices.SortedRanges | src/test/cellslice.test.ts:6-28 | ranges already in order of their first lines are rendered in the order given |
| CellSlices.FourLineExample | src/test/cellslice.test.ts:6-28 | on "a = 1".."d = 4" with ranges (1,0)-(1,5) and (2,4)-(3,4), `textSlice` is "a = 1\n2\nc = " and `textSliceLines` is "a = 1\nb = 2\nc = 3" |
| CellSlices.WholeLine | src/test/log-slicer.test.ts:27-44 | a range covering the whole of a one-line cell renders the cell's text in both modes |
| ProgramBuilders.ProgramBuilder.Add | src/test/program-builder.test.ts:15-26 | each cell is recorded after the earlier ones, with its statements, or as an error when it does not parse |
| ProgramBuilders.ProgramBuilder.BuildTo | src/test/program-builder.test.ts:19-148 | the program assembles exactly the cells the backward scan selects for the latest run of `id`, and is empty when `id` never ran |
| ProgramBuilders.SelectionSpec | src/test/program-builder.test.ts:46-123 | the selection is the cells without error from the start of the current kernel session up to the target, plus the target, keeping the latest run per persistent id, in order |
| ProgramBuilders.CollectIsKeep | src/test/program-builder.test.ts:114-123 | the backward scan is a stop at the kernel-session start followed by a filter |
| ProgramBuilders.KeepMembers | src/test/program-builder.test.ts:57-103 | the filter keeps exactly the cells without error whose persistent id does not come again, none twice |
| ProgramBuilders.TextLines | src/test/program-builder.test.ts:19-26 | the program text splits into the cells' lines one after another, then an empty piece |
| ProgramBuilders.LineMapDomain | src/test/program-builder.test.ts:28-35 | `lineToCellMap` covers exactly lines 1 to the program's line count |
| ProgramBuilders.LineMapAt | src/test/program-builder.test.ts:28-35 | every program line that comes from cell `i` maps to that cell |
| ProgramBuilders.CellLinesKeys | src/test/program-builder.test.ts:37-44 | `cellToLineMap` has an entry for exactly the execution event ids of the program's cells |
| ProgramBuilders.CellLinesAt | src/test/program-builder.test.ts:37-44 | the entry of an execution holds, each once, exactly the lines `lineToCellMap` maps to it |
| ProgramBuilders.TreeAt | src/test/program-builder.test.ts:125-148 | statement `k` of cell `i` is in the tree, moved down by the lines of the cells before it and tagged with the cell's event id |
| ProgramBuilders.TreeMapsBack | src/test/program-builder.test.ts:134-148 | a moved statement starts on a program line that maps back to its cell and holds its cell's line |
| ProgramBuilders.SelectBack | src/test/program-builder.test.ts:46-123 | the scan loop returns the selection that `SelectionSpec` characterises |
| ProgramBuilders.Concatenate | src/test/program-builder.test.ts:19-148 | the concatenation loop produces the text, tree and both maps of the selected cells |
| ProgramBuilders.AddCellLines | src/test/program-builder.test.ts:28-44 | the per-line loop maps each of a cell's lines to the cell and appends them to its line list |
| ProgramBuilders.ProgramBuilder.constructor | src/test/program-builder.test.ts:14-17 | a fresh builder holds no cells |
| ProgramBuilderTests.BothCells | src/test/program-builder.test.ts:19-44 | building to the second of two cells gives both texts in order, line 1 from the first and line 2 from the second |
| ProgramBuilderTests.FirstCellOnly | src/test/program-builder.test.ts:46-53 | building to the first of two cells leaves the second out |
| ProgramBuilderTests.SkipMiddle | src/test/program-builder.test.ts:57-67 | a failing or unparseable middle cell is left out and the first is kept |
| ProgramBuilderTests.FailedTarget | src/test/program-builder.test.ts:69-81 | the target is kept even when it failed |
| ProgramBuilderTests.PriorKernel | src/test/program-builder.test.ts:114-123 | with counts 1, 1, 2, 1 and the target last, only the target remains |
| ProgramBuilderTests.TwoCells | src/test/program-builder.test.ts:125-142 | two one-line cells give the tree of their statements on lines 1 and 2, each tagged with its cell |
| ProgramBuilderTests.BuildFresh | src/test/program-builder.test.ts:15-26 | a fresh builder that adds the cells and builds to the target gives the program the scenarios describe |
| DataFlow.SimpleGetDefs | src/test/analysis.test.ts:197-229 | a simple statement defines, each once, exactly the references its own definition rule gives: the statement is its single control-flow node |
| DataFlow.UnspecifiedCallUpdatesArgs | src/test/analysis.test.ts:335-345 | without a spec, a call updates every variable passed to it |
| DataFlow.SpecifiedCallUpdates | src/test/analysis.test.ts:328-333 | with a spec, a call updates exactly the variables at the positions the spec lists |
| DataFlow.MethodCallUpdatesReceiver | src/test/analysis.test.ts:347-363 | a method call updates its receiver exactly when no spec of the receiver's type covers the method, or the spec lists the receiver |
| DataFlow.WeakAssignIsUpdate | src/test/analysis.test.ts:266-278 | assigning to an item or attribute updates the base object and defines nothing |
| DataFlow.AugAssignIsUpdate | src/test/analysis.test.ts:206-213 | an augmented assignment updates its target and defines nothing |
| DataFlow.AssignDefinesName | src/test/analysis.test.ts:197-204 | assigning to a name defines it first, with the value's type, and nothing else |
| DataFlow.DeclarationDefs | src/test/analysis.test.ts:231-263 | a `def` or `class` defines its name once, located at the whole declaration |
| DataFlow.AnnotationDefs | src/test/analysis.test.ts:282-312 | a magic annotation's definitions are placed relative to the line of the annotation |
| DataFlow.ConstructorType | src/test/analysis.test.ts:365-378 | a call of a type name gives that type unless the function spec of the name declares a result type |
| DataFlow.NoCallsNoEffects | src/test/analysis.test.ts:383-386 | an expression without calls updates nothing |
| DataFlow.StmtNodesUses | src/test/analysis.test.ts:404-466 | a statement reads exactly what its control-flow nodes read |
| DataFlow.GetUses | src/test/analysis.test.ts:395-466 | a `def` reads exactly the names its body reads other than its parameters and the names its body binds; a class reads what its bases and members read; `x -= 1` reads `x` |
| DataFlow.UpdatesAreUses | src/test/analysis.test.ts:414-417 | every name a statement updates in place is also a name it reads |
| DataFlow.DefinitionsAreBound | src/test/analysis.test.ts:197-278 | every name a statement defines, magic annotations aside, is one it binds in its own scope: an assignment target, an imported name, a declared function or class, a loop variable, or one bound inside a compound statement's bodies |
| DataFlowTests.AssignmentDefines | src/test/analysis.test.ts:197-204 | `a = 1` defines `a` |
| DataFlowTests.AugAssignUpdates | src/test/analysis.test.ts:206-213 | `a += 1` updates `a` |
| DataFlowTests.ImportsDefine | src/test/analysis.test.ts:215-229 | `import` and `from ... import` define the imported names |
| DataFlowTests.FunctionDeclaration | src/test/analysis.test.ts:231-245 | a `def` defines the function over its whole extent |
| DataFlowTests.ClassDeclaration | src/test/analysis.test.ts:247-263 | a `class` defines the class over its whole extent |
| DataFlowTests.ItemAssignment | src/test/analysis.test.ts:266-271 | `d['a'] = 1` gives one update of `d` |
| DataFlowTests.AttributeAssignment | src/test/analysis.test.ts:273-278 | `obj.a = 1` gives one update of `obj` |
| DataFlowTests.AnnotationPositions | src/test/analysis.test.ts:282-312 | the annotation's position lands on its own line: line 1, or line 2 after a comment |
| DataFlowTests.FunctionCallWithoutSpec | src/test/analysis.test.ts:316-319 | `func(a)` updates `a` |
| DataFlowTests.MethodCallWithoutSpec | src/test/analysis.test.ts:321-324 | `obj.func()` updates `obj` |
| DataFlowTests.SpecIgnoresArguments | src/test/analysis.test.ts:328-333 | with `func` specified, `func(a, b, c)` defines nothing |
| DataFlowTests.NoSpecUpdatesArguments | src/test/analysis.test.ts:335-345 | with no function specs, `func(a, b, c)` updates `a`, `b` and `c` |
| DataFlowTests.TypedReceiverIgnored | src/test/analysis.test.ts:347-354 | after `x=C()`, with `C.m` specified to update nothing, `x.m()` adds no reference |
| DataFlowTests.UntypedReceiverUpdated | src/test/analysis.test.ts:356-363 | with an empty spec table, `x.m()` updates `x` |
| DataFlowTests.ClassNameAsTypeAndFunction | src/test/analysis.test.ts:365-378 | a name that is both a type and a function returning it gives the assigned variable that type |
| DataFlowTests.OperandCall | src/test/analysis.test.ts:383-386 | `a + func()` defines nothing |
| DataFlowTests.CallChain | src/test/analysis.test.ts:388-391 | `func().func()` defines nothing |
| DataFlowTests.SimpleUses | src/test/analysis.test.ts:404-417 | `func()` uses `func`; `x -= 1` uses `x` |
| DataFlowTests.FreeNameInFunction | src/test/analysis.test.ts:409-412 | a function uses the free names of its body |
| DataFlowTests.UsesInsideClasses | src/test/analysis.test.ts:433-444 | with three nested classes around a method, the method's `func()` and `self.data = a` make `func` and `a` uses of the outermost class |
| DataFlowTests.NestedClassUses | src/test/analysis.test.ts:419-444 | however deeply a statement is nested in classes, the outermost class reads everything the statement reads |
| DataFlowTests.FunctionInsideClass | src/test/analysis.test.ts:419-422 | `class Baz():` / `def quux(self):` / `func()` reads `func` |
| DataFlowTests.VariableInsideClass | src/test/analysis.test.ts:424-431 | `class Baz():` / `def quux(self):` / `self.data = a` reads `a` |
| DataFlowTests.ParamsAndLocalsIgnored | src/test/analysis.test.ts:448-466 | parameters and names bound in a function body are not uses of the function |
| ControlFlow.BuildHolds | src/test/cfg.test.ts:16-31 | the graph is well formed and holds exactly the code's nodes, in source order, each with its header |
| ControlFlow.Build | src/test/cfg.test.ts:16-31 | a statement list takes one block plus the blocks of its statements; a simple statement takes none; an `if`, `for` or `try` takes two (head and join) plus its body's, and each `elif`, non-empty `else` and handler one more plus its own body's |
| ControlFlow.GovernedNodes | src/test/analysis.test.ts:100-152 | pairing statements with headers keeps every node in source order |
| ControlFlow.ControlsAreHeaders | src/test/analysis.test.ts:100-152 | only headers govern statements |
| ControlFlow.StraightLineIndependent | src/test/analysis.test.ts:149-152 | straight-line top-level code has no control dependences |
| ControlFlow.IfBodyDependences | src/test/analysis.test.ts:111-119 | every statement of an `if` body depends on the condition, in order |
| ControlFlow.ElifElseDependences | src/test/analysis.test.ts:121-132 | an `elif` depends on the `if`, the `else` on the `elif`, and each body on its own header |
| ControlFlow.ExceptChain | src/test/cfg.test.ts:10-14 | the first `except` header depends on the header that governs the `try`, and every later `except` header on the one before it, as `elif` does on the branch before it |
| ControlFlow.ExceptDependences | src/test/cfg.test.ts:10-14 | among the control dependences of a `try`, each `except` header after the first depends on the `except` header before it |
| ControlFlow.ForBodyDependences | src/test/analysis.test.ts:144-147 | every statement of a loop body depends on the loop header |
| ControlFlow.JoinIndependent | src/test/analysis.test.ts:134-142 | statements after a compound statement depend on nothing |
| ControlFlow.ControlFlowGraph.OfModule | src/test/cfg.test.ts:5-7 | the graph of a module's code is the well-formed graph `Build` describes |
| ControlFlow.ControlFlowGraph.OfDef | src/test/cfg.test.ts:16-31 | a function's graph is rooted at its body, not at the enclosing code |
| ControlFlow.ControlFlowGraph.MakeCfg | src/test/cfg.test.ts:10-31 | building the blocks of a statement list yields the blocks and edges the functional builder describes |
| ControlFlow.ControlFlowGraph.GetPredecessors | src/test/cfg.test.ts:10-14 | the blocks with an edge into `block`: one entry per such edge, the source of that edge, listed in the order the edges were added |
| ControlFlow.ControlFlowGraph.VisitControlDependencies | src/test/analysis.test.ts:100-152 | the callback receives every (header, statement) dependence, block by block; an `elif`, an `else:` or a later `except` header is reported against the header before it in its chain |
| ControlFlowTests.IfStatementDependence | src/test/analysis.test.ts:111-114 | the body line depends on the `if` line |
| ControlFlowTests.BlockDependences | src/test/analysis.test.ts:116-119 | both body lines depend on the `if` line |
| ControlFlowTests.ElseDependence | src/test/analysis.test.ts:121-132 | the `elif` depends on the `if` and the `else` on the `elif` |
| ControlFlowTests.JoinAfterIf | src/test/analysis.test.ts:134-137 | the statement after an `if` depends on nothing |
| ControlFlowTests.JoinAfterFor | src/test/analysis.test.ts:139-142 | the statement after a `for` depends on nothing |
| ControlFlowTests.ForLoopDependence | src/test/analysis.test.ts:144-147 | the body line depends on the `for` line |
| ControlFlowTests.NoDependences | src/test/analysis.test.ts:149-152 | `a = 1` / `b = 2` have no dependences |
| ControlFlowTests.FunctionBodyBlocks | src/test/cfg.test.ts:16-31 | the if/else body of `foo` gives exactly six blocks |
| ControlFlowTests.HandlersPredecessor | src/test/cfg.test.ts:10-14 | the `handlers` block has predecessors, and its last is the try body |
| Analysis.Analyze | src/test/analysis.test.ts:16-97 | the live-definition sets are the least closed assignment, and the dataflows are the ones it induces |
| Analysis.Visit | src/test/analysis.test.ts:16-97 | one worklist step keeps the sets below every closed assignment and the dataflows gathered so far sound, and either lowers the distance to the fixpoint or shortens the queue |
| Analysis.FlowsLinear | src/test/analysis.test.ts:42-51 | in straight-line code a dataflow links a statement to a later reader of a name it wrote, with no write of that name in between |
| Analysis.StraightLineFlows | src/test/analysis.test.ts:31-77 | a module of simple statements has exactly the dataflows of its run of statements from nothing live |
| Analysis.DataflowOrigins | src/test/analysis.test.ts:16-153 | every dataflow of the least solution runs from a statement of the graph that defines or updates a name to a statement of the graph that reads that name |
| Analysis.LeastWithin | src/test/analysis.test.ts:16-153 | the least solution holds no definition outside any set that takes in everything the statements make |
| Analysis.FlowAcrossEdge | src/test/analysis.test.ts:79-87 | in closed sets, a definition made at the end of a block flows into a successor's first reader |
| AnalysisTests.FromUseToName | src/test/analysis.test.ts:31-34 | `a = 1` / `b = a` has exactly the flow from line 1 to line 2 |
| AnalysisTests.MultipleStatementsPerLine | src/test/analysis.test.ts:36-40 | with several statements on one line, each read links to its writer |
| AnalysisTests.MostRecentDef | src/test/analysis.test.ts:42-46 | the read of `a` links to its nearest write, not to the earlier shadowed one |
| AnalysisTests.AugmentingAssignment | src/test/analysis.test.ts:48-51 | `a += 3` reads `a = 2` |
| AnalysisTests.StatementLocations | src/test/analysis.test.ts:53-67 | a dataflow joins the two whole statements, not the name tokens |
| AnalysisTests.MultiLineDependency | src/test/analysis.test.ts:69-77 | a dataflow starts at the whole two-line statement |
| AnalysisTests.ForLoopDeclaration | src/test/analysis.test.ts:79-87 | with `range` and `print` updating nothing, the loop has exactly one dataflow, from the whole loop header (line 1, columns 0 to 21) into the body |
| AnalysisTests.ClassUse | src/test/analysis.test.ts:89-92 | a class use links to the whole class declaration |
| AnalysisTests.FunctionUse | src/test/analysis.test.ts:94-97 | a function use links to the whole function declaration |
| LogSlicers.ExecutionLogSlicer.constructor | src/test/log-slicer.test.ts:19-24 | a fresh slicer has an empty log |
| LogSlicers.ExecutionLogSlicer.LogExecution | src/test/log-slicer.test.ts:19-24 | the run is appended to `cellExecutions`, and the builder keeps holding exactly the logged cells |
| LogSlicers.ExecutionLogSlicer.SliceAllExecutions | src/test/log-slicer.test.ts:27-44 | one backward slice per run of the persistent id, in log order |
| LogSlicers.ExecutionLogSlicer.SliceLatestExecution | src/test/log-slicer.test.ts:46-66 | the backward slice of the latest run of the id, and nothing exactly when the id never ran |
| LogSlicers.ExecutionLogSlicer.GetDependentCells | src/test/log-slicer.test.ts:68-231 | the cells that depend on run `eid`, each once, every one after the dependents it reads from |
| LogSlicers.Closure | src/test/log-slicer.test.ts:27-66 | the result is the least location set that holds the seeds and is closed under the dataflows |
| LogSlicers.Pass | src/test/log-slicer.test.ts:27-66 | one pass only adds sources of dataflows, stays below every closed superset, and is closed when it adds nothing |
| LogSlicers.ListOf | src/test/log-slicer.test.ts:27-44 | the list holds each element of the set exactly once |
| Dependencies.NotebookLatest | src/test/log-slicer.test.ts:133-231 | the notebook holds each persistent id of the log once, as the id's latest run |
| Dependencies.WalkShaped | src/test/log-slicer.test.ts:173-196 | the walk's edges all point forward, so the dependency graph is acyclic |
| Dependencies.WalkFindsDependents | src/test/log-slicer.test.ts:68-171 | the walk finds exactly the cells whose reads trace back to the target through latest writes |
| Dependencies.NoReaderNoDependents | src/test/log-slicer.test.ts:97-105 | when no later cell reads a name the target defines, there are no dependents |
| LogSlicers.TopoOrder | src/test/log-slicer.test.ts:173-196 | in the sorted answer, each dependent comes after every dependent it reads from |
| LogSlicerTests.InOrder | src/test/log-slicer.test.ts:69-78 | the second cell depends on the first |
| LogSlicerTests.Redefinition | src/test/log-slicer.test.ts:80-95 | a redefinition of `x` cuts the last cell off from the first and makes it depend on the third |
| LogSlicerTests.NoDeps | src/test/log-slicer.test.ts:97-105 | a second cell reading nothing the first defines gives no dependents |
| LogSlicerTests.Transitive | src/test/log-slicer.test.ts:107-118 | the third cell depends on the first through the second |
| LogSlicerTests.AllDefs | src/test/log-slicer.test.ts:120-131 | each name a cell defines has its reader as a dependent |
| LogSlicerTests.Rerun | src/test/log-slicer.test.ts:133-151 | a re-run's dependent is a cell that reads its name, although that cell ran before the re-run |
| LogSlicerTests.RerunNoOp | src/test/log-slicer.test.ts:153-171 | when no cell reads the re-run's name, there are no dependents |
| LogSlicerTests.TopoOrderQuery | src/test/log-slicer.test.ts:173-196 | the answer is cell 1's run, then cell 2's |
| LogSlicerTests.RepeatedQueries | src/test/log-slicer.test.ts:198-231 | a query, more runs, then a second query: each answer is the right one, in topological order |
| SliceTests.BasicsSlice | src/test/log-slicer.test.ts:27-44 | the backward slice of `print(x+y)` holds the three cells in log order, each whole in both renderings |
| SliceTests.Basics | src/test/log-slicer.test.ts:27-44 | logging the three cells and slicing every run of the last gives one slice of those three cells, whole |
| SliceTests.BasicsProgram | src/test/log-slicer.test.ts:27-44 | building to the third cell takes all three, on lines 1, 2 and 3 |
| SliceTests.ExcludedCell | src/test/log-slicer.test.ts:46-66 | a cell none of whose statements the target transitively reads gets no cell slice |
| SliceTests.IncludedCell | src/test/log-slicer.test.ts:46-66 | every program cell that holds a location of the slice gets a cell slice with exactly its part of the slice |

## Left out

- The Python parser: cells carry their parsed statements, or none when the text does not parse. The statement tree is reduced to the shapes the analyses distinguish: no `while`, `with`, `finally`, lambdas or comprehensions.
- The default spec table and the loading of specs from JSON: the spec table is an input.
- The JSON inside `"""defs: [...]"""%magic` annotations: annotations arrive parsed, and only their line arithmetic is modelled.
- Timestamps of executions and of sliced executions: they play no part in slicing or merging.
- Console output and the logging of parse errors: they are I/O.
- The magics rewriter and the array-slice test (`src/test/program-builder.test.ts:105-112`): the test concerns parsing, which is outside this model.
- The test with library calls (`src/test/log-slicer.test.ts:233-263`): it depends on the real pandas, matplotlib and scikit-learn specs, which are not part of this model.
- SliceTests.ExcludedCell: summarises the demo with real pandas calls (`src/test/log-slicer.test.ts:46-66`) over abstract def/use sets, as does its partner `IncludedCell`. The concrete cells of the demo are not reproduced.
- Merge.MergeAll: reads an undefined execution count as 0 when sorting. In JavaScript the comparator then gives NaN, and the order of such slices is unspecified.
- Analysis.Analyze: resolves method receivers' types against one fixed reference set for the whole run, not the set live at each statement. This keeps the transfer function monotone.
- ControlFlow.ControlFlowGraph.MakeCfg: `return`, `break` and `continue` do not transfer control; they are ordinary statements of their block.
- LogSlicers.ListOf: the order of the locations inside a cell slice is not determined, because they come from a set. The contract states only which locations are there.
- Concurrency: every operation is synchronous, and the slicer is used from one thread.
