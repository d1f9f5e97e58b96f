/** The reaching-definitions walk of the data-flow analysis (`analyze` in
    data-flow.ts). Every block of a control-flow graph gets the set of
    definitions live at its end. A definition is live after a statement
    when the statement made it, or when it was live before the statement
    and the statement neither defines nor updates its name (the latest
    write wins). The definitions live at a block's start are those live at
    the end of any of its predecessors. A dataflow runs from the statement
    of a live definition to a statement that reads its name.

    `Analyze` runs the worklist of the source. Blocks are taken from the
    end of a queue that starts as every block, first block last. When a
    block's set grows, its successors not yet queued are queued. The method
    is proved to return the least sets closed under this rule, and exactly
    the dataflows those sets give. */
module Analysis {
  import opened Util
  import opened Locations
  import opened Syntax
  import opened Specs
  import opened DataFlow
  import opened ControlFlow

  /** A definition and the statement it was made at. */
  datatype Reaching = Reaching(ref: Ref, node: Node)

  /** A read at `toNode` of a name a definition at `fromNode` wrote. */
  datatype Dataflow = Dataflow(fromNode: Node, toNode: Node)

  // ---------------------------------------------------------------------
  // One statement, one block

  /** What each statement defines and updates, by `getDefs`. */
  function DefsOf(refs: seq<Ref>, specs: SpecTable): Node -> seq<Ref> {
    n => NodeDefs(n, refs, specs)
  }

  /** The definitions a statement makes, tagged with the statement. */
  function Gen(n: Node, defs: Node -> seq<Ref>): set<Reaching> {
    set r | r in defs(n) :: Reaching(r, n)
  }

  /** The names a statement defines or updates. */
  function Killed(n: Node, defs: Node -> seq<Ref>): set<string> {
    set r | r in defs(n) :: r.name
  }

  /** The definitions live after `n`, given those live before it. */
  function After(n: Node, live: set<Reaching>, defs: Node -> seq<Ref>): set<Reaching> {
    (set d | d in live && d.ref.name !in Killed(n, defs)) + Gen(n, defs)
  }

  /** The dataflows into `n` from the definitions live before it. */
  function FlowsAt(n: Node, live: set<Reaching>, uses: Node -> set<string>): set<Dataflow> {
    set d | d in live && d.ref.name in uses(n) :: Dataflow(d.node, n)
  }

  /** The definitions live after a run of statements. */
  function Through(ns: seq<Node>, live: set<Reaching>, defs: Node -> seq<Ref>): set<Reaching>
    decreases |ns|
  {
    if ns == [] then live
    else After(ns[|ns| - 1], Through(ns[..|ns| - 1], live, defs), defs)
  }

  /** The dataflows into the statements of a run. */
  function RunFlows(ns: seq<Node>, live: set<Reaching>, defs: Node -> seq<Ref>, uses: Node -> set<string>): set<Dataflow>
    decreases |ns|
  {
    if ns == [] then {}
    else
      var init := ns[..|ns| - 1];
      RunFlows(init, live, defs, uses) + FlowsAt(ns[|ns| - 1], Through(init, live, defs), uses)
  }

  /** Every definition the statements of a run make. */
  function GenAll(ns: seq<Node>, defs: Node -> seq<Ref>): set<Reaching>
    decreases |ns|
  {
    if ns == [] then {} else GenAll(ns[..|ns| - 1], defs) + Gen(ns[|ns| - 1], defs)
  }

  // ---------------------------------------------------------------------
  // A whole graph

  /** The definitions live at the start of block `b`: those live at the end
      of any block with an edge to it. */
  function In(g: Cfg, out: seq<set<Reaching>>, b: nat): set<Reaching> {
    InFrom(g.edges, out, b)
  }

  function InFrom(es: seq<(nat, nat)>, out: seq<set<Reaching>>, b: nat): set<Reaching>
    decreases |es|
  {
    if es == [] then {}
    else
      var e := es[|es| - 1];
      InFrom(es[..|es| - 1], out, b) + (if e.1 == b && e.0 < |out| then out[e.0] else {})
  }

  /** What the statements of block `b` let through from its start. */
  function Transfer(g: Cfg, out: seq<set<Reaching>>, b: nat, defs: Node -> seq<Ref>): set<Reaching>
    requires b < |g.blocks|
  {
    Through(g.blocks[b].statements, In(g, out, b), defs)
  }

  /** Block by block, `a` holds no more than `b`. */
  predicate Le(a: seq<set<Reaching>>, b: seq<set<Reaching>>) {
    |a| == |b| && forall i :: 0 <= i < |a| ==> a[i] <= b[i]
  }

  /** `out` holds at every block's end at least what reaches it. */
  predicate Closed(g: Cfg, out: seq<set<Reaching>>, defs: Node -> seq<Ref>) {
    |out| == |g.blocks| && forall b :: 0 <= b < |out| ==> Transfer(g, out, b, defs) <= out[b]
  }

  /** The dataflows into every statement of the graph. */
  function Flows(g: Cfg, out: seq<set<Reaching>>, defs: Node -> seq<Ref>, uses: Node -> set<string>): set<Dataflow> {
    FlowsUpTo(g, out, |g.blocks|, defs, uses)
  }

  function FlowsUpTo(g: Cfg, out: seq<set<Reaching>>, n: nat, defs: Node -> seq<Ref>, uses: Node -> set<string>): set<Dataflow>
    requires n <= |g.blocks|
  {
    if n == 0 then {}
    else FlowsUpTo(g, out, n - 1, defs, uses) + RunFlows(g.blocks[n - 1].statements, In(g, out, n - 1), defs, uses)
  }

  /** Every definition any statement of the graph makes. */
  function Universe(g: Cfg, n: nat, defs: Node -> seq<Ref>): set<Reaching>
    requires n <= |g.blocks|
  {
    if n == 0 then {} else Universe(g, n - 1, defs) + GenAll(g.blocks[n - 1].statements, defs)
  }

  /** How many (block, definition) pairs the sets have still to take. */
  function Deficit(out: seq<set<Reaching>>, u: set<Reaching>): nat
    decreases |out|
  {
    if out == [] then 0 else Deficit(out[..|out| - 1], u) + |u - out[|out| - 1]|
  }

  // ---------------------------------------------------------------------
  // Lemmas

  /** More definitions live before a run give more after it. */
  lemma {:induction false} ThroughMono(ns: seq<Node>, s: set<Reaching>, t: set<Reaching>, defs: Node -> seq<Ref>)
    requires s <= t
    ensures Through(ns, s, defs) <= Through(ns, t, defs)
    decreases |ns|
  {
    if ns != [] {
      ThroughMono(ns[..|ns| - 1], s, t, defs);
    }
  }

  /** More definitions live before a run give more dataflows into it. */
  lemma {:induction false} RunFlowsMono(ns: seq<Node>, s: set<Reaching>, t: set<Reaching>, defs: Node -> seq<Ref>, uses: Node -> set<string>)
    requires s <= t
    ensures RunFlows(ns, s, defs, uses) <= RunFlows(ns, t, defs, uses)
    decreases |ns|
  {
    if ns != [] {
      RunFlowsMono(ns[..|ns| - 1], s, t, defs, uses);
      ThroughMono(ns[..|ns| - 1], s, t, defs);
    }
  }

  /** A run lets through only what was live before it or what it made. */
  lemma {:induction false} ThroughBounded(ns: seq<Node>, s: set<Reaching>, defs: Node -> seq<Ref>)
    ensures Through(ns, s, defs) <= s + GenAll(ns, defs)
    decreases |ns|
  {
    if ns != [] {
      ThroughBounded(ns[..|ns| - 1], s, defs);
    }
  }

  lemma {:induction false} InMono(es: seq<(nat, nat)>, out: seq<set<Reaching>>, out': seq<set<Reaching>>, b: nat)
    requires Le(out, out')
    ensures InFrom(es, out, b) <= InFrom(es, out', b)
    decreases |es|
  {
    if es != [] {
      InMono(es[..|es| - 1], out, out', b);
    }
  }

  /** Changing the set of a block that has no edge to `b` leaves `b`'s start alone. */
  lemma {:induction false} InFrame(es: seq<(nat, nat)>, out: seq<set<Reaching>>, p: nat, x: set<Reaching>, b: nat)
    requires p < |out| && (p, b) !in es
    ensures InFrom(es, out[p := x], b) == InFrom(es, out, b)
    decreases |es|
  {
    if es != [] {
      InFrame(es[..|es| - 1], out, p, x, b);
    }
  }

  lemma {:induction false} InBounded(es: seq<(nat, nat)>, out: seq<set<Reaching>>, b: nat, u: set<Reaching>)
    requires forall i :: 0 <= i < |out| ==> out[i] <= u
    ensures InFrom(es, out, b) <= u
    decreases |es|
  {
    if es != [] {
      InBounded(es[..|es| - 1], out, b, u);
    }
  }

  lemma {:induction false} FlowsMono(g: Cfg, out: seq<set<Reaching>>, out': seq<set<Reaching>>, n: nat, defs: Node -> seq<Ref>, uses: Node -> set<string>)
    requires n <= |g.blocks| && Le(out, out')
    ensures FlowsUpTo(g, out, n, defs, uses) <= FlowsUpTo(g, out', n, defs, uses)
  {
    if n > 0 {
      FlowsMono(g, out, out', n - 1, defs, uses);
      InMono(g.edges, out, out', n - 1);
      RunFlowsMono(g.blocks[n - 1].statements, In(g, out, n - 1), In(g, out', n - 1), defs, uses);
    }
  }

  /** The dataflows of one block are dataflows of the graph. */
  lemma {:induction false} BlockFlowsIn(g: Cfg, out: seq<set<Reaching>>, b: nat, n: nat, defs: Node -> seq<Ref>, uses: Node -> set<string>)
    requires b < n <= |g.blocks|
    ensures RunFlows(g.blocks[b].statements, In(g, out, b), defs, uses) <= FlowsUpTo(g, out, n, defs, uses)
  {
    var here := RunFlows(g.blocks[b].statements, In(g, out, b), defs, uses);
    var last := RunFlows(g.blocks[n - 1].statements, In(g, out, n - 1), defs, uses);
    assert FlowsUpTo(g, out, n, defs, uses) == FlowsUpTo(g, out, n - 1, defs, uses) + last;
    if b < n - 1 {
      BlockFlowsIn(g, out, b, n - 1, defs, uses);
      SubsetUnion(here, FlowsUpTo(g, out, n - 1, defs, uses), last);
    } else {
      SubsetUnion(here, last, FlowsUpTo(g, out, n - 1, defs, uses));
    }
  }

  lemma SubsetUnion<T>(a: set<T>, b: set<T>, c: set<T>)
    requires a <= b
    ensures a <= b + c && a <= c + b
  {
  }

  /** Some block whose every dataflow is already there: all are. */
  lemma {:induction false} FlowsCovered(g: Cfg, out: seq<set<Reaching>>, flows: set<Dataflow>, n: nat, defs: Node -> seq<Ref>, uses: Node -> set<string>)
    requires n <= |g.blocks|
    requires forall b :: 0 <= b < n ==> RunFlows(g.blocks[b].statements, In(g, out, b), defs, uses) <= flows
    ensures FlowsUpTo(g, out, n, defs, uses) <= flows
  {
    if n > 0 {
      FlowsCovered(g, out, flows, n - 1, defs, uses);
    }
  }

  lemma {:induction false} UniverseHolds(g: Cfg, b: nat, n: nat, defs: Node -> seq<Ref>)
    requires b < n <= |g.blocks|
    ensures GenAll(g.blocks[b].statements, defs) <= Universe(g, n, defs)
  {
    if b < n - 1 {
      UniverseHolds(g, b, n - 1, defs);
    }
  }

  /** Growing one block's set within `u` lowers the deficit. */
  lemma {:induction false} DeficitDecreases(out: seq<set<Reaching>>, b: nat, x: set<Reaching>, u: set<Reaching>)
    requires b < |out| && out[b] < x <= u
    ensures Deficit(out[b := x], u) < Deficit(out, u)
    decreases |out|
  {
    var last := |out| - 1;
    if b == last {
      assert out[b := x][..last] == out[..last];
      var d :| d in x && d !in out[b];
      assert u - x < u - out[b] by {
        assert d in u - out[b] && d !in u - x;
      }
      ProperSubsetCard(u - x, u - out[b]);
    } else {
      assert out[b := x][..last] == out[..last][b := x];
      DeficitDecreases(out[..last], b, x, u);
    }
  }

  lemma ProperSubsetCard<T>(a: set<T>, b: set<T>)
    requires a < b
    ensures |a| < |b|
  {
    var d :| d in b && d !in a;
    SubsetCard(a, b - {d});
  }

  // ---------------------------------------------------------------------
  // Straight-line code: the nearest write wins

  /** No statement after position `i` of the run writes `name`. */
  predicate Survives(ns: seq<Node>, i: int, name: string, defs: Node -> seq<Ref>) {
    forall k :: 0 <= k < |ns| && i < k ==> name !in Killed(ns[k], defs)
  }

  /** The statement at `i` made `r`, and nothing after it in the run wrote its name. */
  predicate MadeAt(ns: seq<Node>, i: int, r: Ref, defs: Node -> seq<Ref>) {
    0 <= i < |ns| && r in defs(ns[i]) && Survives(ns, i, r.name, defs)
  }

  /** The statement at `j` reads the name of `r`, which the statement at `i`
      made, and no statement between them wrote that name. */
  predicate Reaches(ns: seq<Node>, i: int, j: int, r: Ref, defs: Node -> seq<Ref>, uses: Node -> set<string>) {
    0 <= i < j < |ns| && r.name in uses(ns[j]) && MadeAt(ns[..j], i, r, defs)
  }

  /** Starting with nothing live, a definition is live after a run exactly
      when some statement of the run made it and no later one wrote its name. */
  lemma {:induction false} ThroughLinear(ns: seq<Node>, d: Reaching, defs: Node -> seq<Ref>)
    ensures d in Through(ns, {}, defs) <==> exists i :: MadeAt(ns, i, d.ref, defs) && ns[i] == d.node
    decreases |ns|
  {
    if ns != [] {
      var last := |ns| - 1;
      var init := ns[..last];
      var n := ns[last];
      ThroughLinear(init, d, defs);
      if d in Through(ns, {}, defs) {
        if d in Gen(n, defs) {
          assert MadeAt(ns, last, d.ref, defs) && ns[last] == d.node;
        } else {
          assert d in Through(init, {}, defs) && d.ref.name !in Killed(n, defs);
          var i :| MadeAt(init, i, d.ref, defs) && init[i] == d.node;
          assert MadeAt(ns, i, d.ref, defs) && ns[i] == d.node by {
            forall k | i < k < |ns| ensures d.ref.name !in Killed(ns[k], defs) {
              if k < last { assert ns[k] == init[k]; }
            }
          }
        }
      }
      if exists i :: MadeAt(ns, i, d.ref, defs) && ns[i] == d.node {
        var i :| MadeAt(ns, i, d.ref, defs) && ns[i] == d.node;
        if i == last {
          assert d in Gen(n, defs);
        } else {
          assert d.ref.name !in Killed(n, defs);
          assert MadeAt(init, i, d.ref, defs) && init[i] == d.node by {
            forall k | i < k < |init| ensures d.ref.name !in Killed(init[k], defs) {
              assert ns[k] == init[k];
            }
          }
        }
      }
    }
  }

  /** Starting with nothing live, the dataflows of a run are exactly those from
      a statement to a later one that reads a name the first wrote, with no
      write of that name between them. */
  lemma FlowsLinear(ns: seq<Node>, d: Dataflow, defs: Node -> seq<Ref>, uses: Node -> set<string>)
    ensures d in RunFlows(ns, {}, defs, uses) <==>
      exists i, j, r :: Reaches(ns, i, j, r, defs, uses) && d == Dataflow(ns[i], ns[j])
  {
    if d in RunFlows(ns, {}, defs, uses) {
      FlowsLinearSound(ns, d, defs, uses);
    }
    if exists i, j, r :: Reaches(ns, i, j, r, defs, uses) && d == Dataflow(ns[i], ns[j]) {
      var i, j, r :| Reaches(ns, i, j, r, defs, uses) && d == Dataflow(ns[i], ns[j]);
      FlowsLinearComplete(ns, i, j, r, defs, uses);
    }
  }

  lemma {:induction false} FlowsLinearSound(ns: seq<Node>, d: Dataflow, defs: Node -> seq<Ref>, uses: Node -> set<string>)
    requires d in RunFlows(ns, {}, defs, uses)
    ensures exists i, j, r :: Reaches(ns, i, j, r, defs, uses) && d == Dataflow(ns[i], ns[j])
    decreases |ns|
  {
    var last := |ns| - 1;
    var init := ns[..last];
    var n := ns[last];
    if d in RunFlows(init, {}, defs, uses) {
      FlowsLinearSound(init, d, defs, uses);
      var i, j, r :| Reaches(init, i, j, r, defs, uses) && d == Dataflow(init[i], init[j]);
      ReachesExtend(ns, i, j, r, defs, uses);
      assert d == Dataflow(ns[i], ns[j]);
    } else {
      var x :| x in Through(init, {}, defs) && x.ref.name in uses(n) && d == Dataflow(x.node, n);
      ThroughLinear(init, x, defs);
      var i :| MadeAt(init, i, x.ref, defs) && init[i] == x.node;
      assert ns[..last] == init;
      assert Reaches(ns, i, last, x.ref, defs, uses) && d == Dataflow(ns[i], ns[last]);
    }
  }

  lemma {:induction false} FlowsLinearComplete(ns: seq<Node>, i: int, j: int, r: Ref, defs: Node -> seq<Ref>, uses: Node -> set<string>)
    requires Reaches(ns, i, j, r, defs, uses)
    ensures Dataflow(ns[i], ns[j]) in RunFlows(ns, {}, defs, uses)
    decreases |ns|
  {
    var last := |ns| - 1;
    var init := ns[..last];
    var n := ns[last];
    assert RunFlows(ns, {}, defs, uses) == RunFlows(init, {}, defs, uses) + FlowsAt(n, Through(init, {}, defs), uses);
    if j < last {
      ReachesRestrict(ns, i, j, r, defs, uses);
      FlowsLinearComplete(init, i, j, r, defs, uses);
      assert init[i] == ns[i] && init[j] == ns[j];
    } else {
      var x := Reaching(r, ns[i]);
      assert ns[..j] == init;
      ThroughLinear(init, x, defs);
      assert x in Through(init, {}, defs);
    }
  }

  lemma ReachesExtend(ns: seq<Node>, i: int, j: int, r: Ref, defs: Node -> seq<Ref>, uses: Node -> set<string>)
    requires ns != [] && Reaches(ns[..|ns| - 1], i, j, r, defs, uses)
    ensures Reaches(ns, i, j, r, defs, uses)
  {
    assert ns[..|ns| - 1][..j] == ns[..j];
  }

  lemma ReachesRestrict(ns: seq<Node>, i: int, j: int, r: Ref, defs: Node -> seq<Ref>, uses: Node -> set<string>)
    requires Reaches(ns, i, j, r, defs, uses) && j < |ns| - 1
    ensures Reaches(ns[..|ns| - 1], i, j, r, defs, uses)
  {
    assert ns[..|ns| - 1][..j] == ns[..j];
  }

  /** A module of simple statements is one block with no edges, so its
      dataflows are those of the run of its statements from nothing live. */
  lemma StraightLineFlows(code: seq<Stmt>, out: seq<set<Reaching>>, defs: Node -> seq<Ref>, uses: Node -> set<string>)
    requires forall k :: 0 <= k < |code| ==> !Compound(code[k])
    ensures Flows(Build(code), out, defs, uses) == RunFlows(Plains(code), {}, defs, uses)
  {
    StraightLineBuild(code);
    var g := Build(code);
    assert In(g, out, 0) == {};
    assert g.blocks[0].statements == Plains(code);
    assert FlowsUpTo(g, out, 1, defs, uses) == FlowsUpTo(g, out, 0, defs, uses) + RunFlows(Plains(code), {}, defs, uses);
  }

  /** The end of a block with an edge to `b` reaches the start of `b`. */
  lemma {:induction false} InHas(es: seq<(nat, nat)>, out: seq<set<Reaching>>, p: nat, b: nat)
    requires p < |out| && (p, b) in es
    ensures out[p] <= InFrom(es, out, b)
    decreases |es|
  {
    var last := es[|es| - 1];
    if last != (p, b) {
      assert (p, b) in es[..|es| - 1] by {
        var k :| 0 <= k < |es| && es[k] == (p, b);
        assert k < |es| - 1 && es[..|es| - 1][k] == (p, b);
      }
      InHas(es[..|es| - 1], out, p, b);
    }
  }

  /** The dataflows into a prefix of a run are dataflows of the run. */
  lemma {:induction false} RunFlowsPrefix(ns: seq<Node>, k: nat, live: set<Reaching>, defs: Node -> seq<Ref>, uses: Node -> set<string>)
    requires k <= |ns|
    ensures RunFlows(ns[..k], live, defs, uses) <= RunFlows(ns, live, defs, uses)
    decreases |ns|
  {
    if k < |ns| {
      RunFlowsPrefix(ns[..|ns| - 1], k, live, defs, uses);
      assert ns[..|ns| - 1][..k] == ns[..k];
    } else {
      assert ns[..k] == ns;
    }
  }

  /** In closed sets, a definition made by the last statement of a block
      flows into the first statement of a successor that reads its name. */
  lemma FlowAcrossEdge(g: Cfg, out: seq<set<Reaching>>, p: nat, b: nat, r: Ref, defs: Node -> seq<Ref>, uses: Node -> set<string>)
    requires Closed(g, out, defs) && p < |g.blocks| && b < |g.blocks| && (p, b) in g.edges
    requires g.blocks[p].statements != [] && g.blocks[b].statements != []
    requires r in defs(g.blocks[p].statements[|g.blocks[p].statements| - 1])
    requires r.name in uses(g.blocks[b].statements[0])
    ensures Dataflow(g.blocks[p].statements[|g.blocks[p].statements| - 1], g.blocks[b].statements[0])
      in Flows(g, out, defs, uses)
  {
    var ps := g.blocks[p].statements;
    var bs := g.blocks[b].statements;
    var h := ps[|ps| - 1];
    assert Reaching(r, h) in Gen(h, defs);
    assert Reaching(r, h) in Transfer(g, out, p, defs);
    InHas(g.edges, out, p, b);
    var live := In(g, out, b);
    assert Reaching(r, h) in live;
    assert bs[..1][..0] == [];
    assert Dataflow(h, bs[0]) in FlowsAt(bs[0], Through(bs[..1][..0], live, defs), uses);
    assert Dataflow(h, bs[0]) in RunFlows(bs[..1], live, defs, uses);
    RunFlowsPrefix(bs, 1, live, defs, uses);
    BlockFlowsIn(g, out, b, |g.blocks|, defs, uses);
  }

  // ---------------------------------------------------------------------
  // Where dataflows come from

  /** Some definition in `u`, made at `d`'s source, writes a name `d`'s target reads. */
  predicate Sourced(d: Dataflow, u: set<Reaching>, defs: Node -> seq<Ref>, uses: Node -> set<string>) {
    exists x :: x in u && x.node == d.fromNode && x.ref in defs(x.node) && x.ref.name in uses(d.toNode)
  }

  lemma {:induction false} GenAllMade(ns: seq<Node>, defs: Node -> seq<Ref>)
    ensures forall x :: x in GenAll(ns, defs) ==> x.ref in defs(x.node) && x.node in ns
    decreases |ns|
  {
    if ns != [] {
      GenAllMade(ns[..|ns| - 1], defs);
      assert forall m :: m in ns[..|ns| - 1] ==> m in ns;
    }
  }

  lemma {:induction false} UniverseMade(g: Cfg, n: nat, defs: Node -> seq<Ref>)
    requires n <= |g.blocks|
    ensures forall x :: x in Universe(g, n, defs) ==>
      x.ref in defs(x.node) && exists b :: 0 <= b < n && x.node in g.blocks[b].statements
  {
    if n > 0 {
      UniverseMade(g, n - 1, defs);
      GenAllMade(g.blocks[n - 1].statements, defs);
    }
  }

  /** The dataflows into a run whose live definitions all lie in `u`. */
  lemma {:induction false} RunFlowsWithin(ns: seq<Node>, live: set<Reaching>, defs: Node -> seq<Ref>,
                                          uses: Node -> set<string>, u: set<Reaching>)
    requires live <= u && GenAll(ns, defs) <= u
    requires forall x :: x in u ==> x.ref in defs(x.node)
    ensures forall d :: d in RunFlows(ns, live, defs, uses) ==> d.toNode in ns && Sourced(d, u, defs, uses)
    decreases |ns|
  {
    if ns != [] {
      var init, n := ns[..|ns| - 1], ns[|ns| - 1];
      assert GenAll(ns, defs) == GenAll(init, defs) + Gen(n, defs);
      RunFlowsWithin(init, live, defs, uses, u);
      ThroughBounded(init, live, defs);
      var t := Through(init, live, defs);
      assert RunFlows(ns, live, defs, uses) == RunFlows(init, live, defs, uses) + FlowsAt(n, t, uses);
      forall d | d in FlowsAt(n, t, uses) ensures d.toNode in ns && Sourced(d, u, defs, uses) {
        var x :| x in t && x.ref.name in uses(n) && d == Dataflow(x.node, n);
        assert x in u;
      }
      assert forall m :: m in init ==> m in ns;
    }
  }

  lemma {:induction false} FlowsUpToWithin(g: Cfg, out: seq<set<Reaching>>, n: nat, defs: Node -> seq<Ref>,
                                           uses: Node -> set<string>, u: set<Reaching>)
    requires n <= |g.blocks| && forall b :: 0 <= b < |out| ==> out[b] <= u
    requires forall b :: 0 <= b < |g.blocks| ==> GenAll(g.blocks[b].statements, defs) <= u
    requires forall x :: x in u ==> x.ref in defs(x.node)
    ensures forall d :: d in FlowsUpTo(g, out, n, defs, uses) ==>
      Sourced(d, u, defs, uses) && exists b :: 0 <= b < n && d.toNode in g.blocks[b].statements
  {
    if n > 0 {
      FlowsUpToWithin(g, out, n - 1, defs, uses, u);
      InBounded(g.edges, out, n - 1, u);
      RunFlowsWithin(g.blocks[n - 1].statements, In(g, out, n - 1), defs, uses, u);
    }
  }

  /** The least closed assignment holds no definition outside a set that
      takes in everything the statements make. */
  lemma LeastWithin(g: Cfg, out: seq<set<Reaching>>, defs: Node -> seq<Ref>, u: set<Reaching>)
    requires |out| == |g.blocks| && Least(g, out, defs)
    requires forall b :: 0 <= b < |g.blocks| ==> GenAll(g.blocks[b].statements, defs) <= u
    ensures forall b :: 0 <= b < |out| ==> out[b] <= u
  {
    var other := seq(|g.blocks|, _ => u);
    forall b | 0 <= b < |other| ensures Transfer(g, other, b, defs) <= other[b] {
      InBounded(g.edges, other, b, u);
      ThroughBounded(g.blocks[b].statements, In(g, other, b), defs);
    }
    assert Closed(g, other, defs);
    assert Le(out, other);
  }

  /** Every dataflow of the least solution runs from a statement of the graph
      that defines or updates a name to a statement of the graph that reads it. */
  lemma DataflowOrigins(g: Cfg, out: seq<set<Reaching>>, defs: Node -> seq<Ref>, uses: Node -> set<string>)
    requires |out| == |g.blocks| && Least(g, out, defs)
    ensures forall d :: d in Flows(g, out, defs, uses) ==>
      Sourced(d, Universe(g, |g.blocks|, defs), defs, uses) &&
      exists b :: 0 <= b < |g.blocks| && d.toNode in g.blocks[b].statements
  {
    var u := Universe(g, |g.blocks|, defs);
    forall b | 0 <= b < |g.blocks| ensures GenAll(g.blocks[b].statements, defs) <= u {
      UniverseHolds(g, b, |g.blocks|, defs);
    }
    UniverseMade(g, |g.blocks|, defs);
    LeastWithin(g, out, defs, u);
    FlowsUpToWithin(g, out, |g.blocks|, defs, uses, u);
  }

  // ---------------------------------------------------------------------
  // The analysis

  /** The blocks all queued, the first one at the end. */
  function AllBlocks(n: nat): (r: seq<nat>)
    ensures |r| == n && NoDup(r)
    ensures forall k: int :: k in r <==> 0 <= k < n
  {
    var r := seq(n, i requires 0 <= i < n => n - 1 - i);
    DownFrom(r, n);
    r
  }

  lemma DownFrom(r: seq<nat>, n: nat)
    requires |r| == n && forall i :: 0 <= i < n ==> r[i] == n - 1 - i
    ensures forall k: int :: k in r <==> 0 <= k < n
  {
    forall k: int | 0 <= k < n ensures k in r {
      assert r[n - 1 - k] == k;
    }
  }

  /** Every block not queued is closed, and its dataflows are gathered. */
  predicate Settled(g: Cfg, out: seq<set<Reaching>>, flows: set<Dataflow>, queue: seq<nat>,
                    defs: Node -> seq<Ref>, uses: Node -> set<string>)
  {
    |out| == |g.blocks| &&
    forall b :: 0 <= b < |out| && b !in queue ==>
      Transfer(g, out, b, defs) <= out[b] &&
      RunFlows(g.blocks[b].statements, In(g, out, b), defs, uses) <= flows
  }

  /** `out` lies below every closed assignment. */
  ghost predicate Least(g: Cfg, out: seq<set<Reaching>>, defs: Node -> seq<Ref>) {
    forall other :: Closed(g, other, defs) ==> Le(out, other)
  }

  /** What the worklist keeps true from one step to the next. */
  ghost predicate Working(g: Cfg, u: set<Reaching>, out: seq<set<Reaching>>, flows: set<Dataflow>, queue: seq<nat>,
                    defs: Node -> seq<Ref>, uses: Node -> set<string>)
  {
    WellFormed(g) && u == Universe(g, |g.blocks|, defs) &&
    |out| == |g.blocks| && NoDup(queue) && (forall k :: k in queue ==> k < |g.blocks|) &&
    (forall b :: 0 <= b < |out| ==> out[b] <= u) &&
    Settled(g, out, flows, queue, defs, uses) &&
    flows <= Flows(g, out, defs, uses) &&
    Least(g, out, defs)
  }

  /** Growing a block's set by what reaches its end keeps it below every
      closed assignment. */
  lemma StepLeast(g: Cfg, out: seq<set<Reaching>>, b: nat, defs: Node -> seq<Ref>)
    requires b < |g.blocks| == |out| && Least(g, out, defs)
    ensures Least(g, out[b := out[b] + Transfer(g, out, b, defs)], defs)
  {
    var updated := out[b] + Transfer(g, out, b, defs);
    forall other | Closed(g, other, defs) ensures Le(out[b := updated], other) {
      InMono(g.edges, out, other, b);
      ThroughMono(g.blocks[b].statements, In(g, out, b), In(g, other, b), defs);
      assert Transfer(g, other, b, defs) <= other[b];
    }
  }

  /** A block taken off the queue whose set did not grow is settled. */
  lemma SettledSame(g: Cfg, out: seq<set<Reaching>>, flows: set<Dataflow>, queue: seq<nat>, rest: seq<nat>, b: nat,
                    flows': set<Dataflow>, defs: Node -> seq<Ref>, uses: Node -> set<string>)
    requires b < |out| && queue == rest + [b]
    requires Settled(g, out, flows, queue, defs, uses)
    requires Transfer(g, out, b, defs) <= out[b]
    requires flows' == flows + RunFlows(g.blocks[b].statements, In(g, out, b), defs, uses)
    ensures Settled(g, out, flows', rest, defs, uses)
  {
    forall c | 0 <= c < |out| && c !in rest
      ensures Transfer(g, out, c, defs) <= out[c]
      ensures RunFlows(g.blocks[c].statements, In(g, out, c), defs, uses) <= flows'
    {
      if c != b {
        assert c !in queue;
      }
    }
  }

  /** A block taken off the queue whose set grew is settled, and so is every
      block not queued that it has no edge to. */
  lemma SettledGrown(g: Cfg, out: seq<set<Reaching>>, flows: set<Dataflow>, queue: seq<nat>, rest: seq<nat>, b: nat,
                     updated: set<Reaching>, flows': set<Dataflow>, queue': seq<nat>,
                     defs: Node -> seq<Ref>, uses: Node -> set<string>)
    requires b < |out| && queue == rest + [b]
    requires Settled(g, out, flows, queue, defs, uses)
    requires updated == out[b] + Transfer(g, out, b, defs)
    requires flows' == flows + RunFlows(g.blocks[b].statements, In(g, out, b), defs, uses)
    requires forall k :: k in queue' <==> k in rest || (b, k) in g.edges
    ensures Settled(g, out[b := updated], flows', queue', defs, uses)
  {
    var out' := out[b := updated];
    forall c | 0 <= c < |out'| && c !in queue'
      ensures Transfer(g, out', c, defs) <= out'[c]
      ensures RunFlows(g.blocks[c].statements, In(g, out', c), defs, uses) <= flows'
    {
      assert (b, c) !in g.edges && c !in rest;
      InFrame(g.edges, out, b, updated, c);
      if c != b {
        assert c !in queue;
      }
    }
  }

  /** `analyze(cfg)`: the dataflows of the graph, and the definitions live
      at each block's end, as the least sets closed under the rule. */
  method Analyze(cfg: ControlFlowGraph, refs: seq<Ref>, specs: SpecTable)
    returns (flows: set<Dataflow>, out: seq<set<Reaching>>)
    requires cfg.Valid()
    ensures Closed(cfg.State(), out, DefsOf(refs, specs))
    ensures Least(cfg.State(), out, DefsOf(refs, specs))
    ensures flows == Flows(cfg.State(), out, DefsOf(refs, specs), NodeUses)
  {
    var defs, uses := DefsOf(refs, specs), NodeUses;
    var g := cfg.State();
    var n := |g.blocks|;
    ghost var u := Universe(g, n, defs);
    out := seq(n, _ => {});
    flows := {};
    var queue := AllBlocks(n);
    while queue != []
      invariant Working(g, u, out, flows, queue, defs, uses)
      decreases Deficit(out, u), |queue|
    {
      out, flows, queue := Visit(g, u, out, flows, queue, defs, uses);
    }
    FlowsCovered(g, out, flows, n, defs, uses);
  }

  /** One step of the worklist: the last queued block is taken off, its
      dataflows gathered and its set grown; when it grew, its successors are
      queued again. */
  method Visit(g: Cfg, ghost u: set<Reaching>, out: seq<set<Reaching>>, flows: set<Dataflow>, queue: seq<nat>,
               defs: Node -> seq<Ref>, uses: Node -> set<string>)
    returns (out': seq<set<Reaching>>, flows': set<Dataflow>, queue': seq<nat>)
    requires queue != [] && Working(g, u, out, flows, queue, defs, uses)
    ensures Working(g, u, out', flows', queue', defs, uses)
    ensures Deficit(out', u) < Deficit(out, u) || (out' == out && |queue'| < |queue|)
  {
    var b := queue[|queue| - 1];
    var rest := queue[..|queue| - 1];
    assert queue == rest + [b];
    assert b in queue && b < |g.blocks|;
    var live := LiveIn(g, out, b);
    var after, more := RunBlock(g.blocks[b].statements, live, defs, uses);
    flows' := flows + more;
    var updated := out[b] + after;
    if updated == out[b] {
      out', queue' := out, rest;
      WorkingSame(g, u, out, flows, queue, rest, b, flows', defs, uses);
    } else {
      out' := out[b := updated];
      assert NoDup(rest) by {
        forall i, j | 0 <= i < j < |rest| ensures rest[i] != rest[j] {
          assert rest[i] == queue[i] && rest[j] == queue[j];
        }
      }
      queue' := QueueSuccessors(g, b, rest);
      WorkingGrown(g, u, out, flows, queue, rest, b, updated, flows', queue', defs, uses);
    }
  }

  /** A block that did not grow leaves the queue with nothing new to do. */
  lemma WorkingSame(g: Cfg, u: set<Reaching>, out: seq<set<Reaching>>, flows: set<Dataflow>, queue: seq<nat>,
                    rest: seq<nat>, b: nat, flows': set<Dataflow>, defs: Node -> seq<Ref>, uses: Node -> set<string>)
    requires queue == rest + [b] && b < |g.blocks|
    requires Working(g, u, out, flows, queue, defs, uses)
    requires out[b] + Transfer(g, out, b, defs) == out[b]
    requires flows' == flows + RunFlows(g.blocks[b].statements, In(g, out, b), defs, uses)
    ensures Working(g, u, out, flows', rest, defs, uses)
  {
    assert forall k :: k in rest ==> k in queue;
    assert NoDup(rest) by {
      forall i, j | 0 <= i < j < |rest| ensures rest[i] != rest[j] {
        assert rest[i] == queue[i] && rest[j] == queue[j];
      }
    }
    BlockFlowsIn(g, out, b, |g.blocks|, defs, uses);
    SettledSame(g, out, flows, queue, rest, b, flows', defs, uses);
  }

  /** A block that grew stays within the universe, lowers the deficit, and
      queues its successors again. */
  lemma WorkingGrown(g: Cfg, u: set<Reaching>, out: seq<set<Reaching>>, flows: set<Dataflow>, queue: seq<nat>,
                     rest: seq<nat>, b: nat, updated: set<Reaching>, flows': set<Dataflow>, queue': seq<nat>,
                     defs: Node -> seq<Ref>, uses: Node -> set<string>)
    requires queue == rest + [b] && b < |g.blocks|
    requires Working(g, u, out, flows, queue, defs, uses)
    requires updated == out[b] + Transfer(g, out, b, defs) && updated != out[b]
    requires flows' == flows + RunFlows(g.blocks[b].statements, In(g, out, b), defs, uses)
    requires NoDup(queue') && forall k :: k in queue' <==> k in rest || (b, k) in g.edges
    ensures Working(g, u, out[b := updated], flows', queue', defs, uses)
    ensures Deficit(out[b := updated], u) < Deficit(out, u)
  {
    var out' := out[b := updated];
    assert updated <= u by {
      InBounded(g.edges, out, b, u);
      ThroughBounded(g.blocks[b].statements, In(g, out, b), defs);
      UniverseHolds(g, b, |g.blocks|, defs);
    }
    DeficitDecreases(out, b, updated, u);
    assert forall c :: 0 <= c < |out'| ==> out'[c] <= u;
    assert flows' <= Flows(g, out', defs, uses) by {
      BlockFlowsIn(g, out, b, |g.blocks|, defs, uses);
      FlowsMono(g, out, out', |g.blocks|, defs, uses);
    }
    StepLeast(g, out, b, defs);
    assert forall k :: k in queue' ==> k < |g.blocks| by {
      forall k | k in queue' ensures k < |g.blocks| {
        assert forall k :: k in rest ==> k in queue;
        if (b, k) in g.edges {}
      }
    }
    SettledGrown(g, out, flows, queue, rest, b, updated, flows', queue', defs, uses);
  }

  /** The definitions live at the start of `b`, gathered edge by edge. */
  method LiveIn(g: Cfg, out: seq<set<Reaching>>, b: nat) returns (live: set<Reaching>)
    ensures live == In(g, out, b)
  {
    live := {};
    for j := 0 to |g.edges|
      invariant live == InFrom(g.edges[..j], out, b)
    {
      assert g.edges[..j + 1][..j] == g.edges[..j];
      var e := g.edges[j];
      if e.1 == b && e.0 < |out| {
        live := live + out[e.0];
      }
    }
    assert g.edges[..|g.edges|] == g.edges;
  }

  /** Walks the statements of one block: the dataflows into each, and the
      definitions live after the last. */
  method RunBlock(ns: seq<Node>, live: set<Reaching>, defs: Node -> seq<Ref>, uses: Node -> set<string>)
    returns (after: set<Reaching>, flows: set<Dataflow>)
    ensures after == Through(ns, live, defs)
    ensures flows == RunFlows(ns, live, defs, uses)
  {
    after, flows := live, {};
    for i := 0 to |ns|
      invariant after == Through(ns[..i], live, defs)
      invariant flows == RunFlows(ns[..i], live, defs, uses)
    {
      assert ns[..i + 1][..i] == ns[..i];
      flows := flows + FlowsAt(ns[i], after, uses);
      after := After(ns[i], after, defs);
    }
    assert ns[..|ns|] == ns;
  }

  /** Queues every successor of `b` that is not queued yet, in edge order. */
  method QueueSuccessors(g: Cfg, b: nat, queue0: seq<nat>) returns (queue: seq<nat>)
    requires WellFormed(g) && NoDup(queue0)
    ensures NoDup(queue)
    ensures forall k :: k in queue <==> k in queue0 || (b, k) in g.edges
  {
    queue := queue0;
    for j := 0 to |g.edges|
      invariant NoDup(queue)
      invariant forall k :: k in queue <==> k in queue0 || (b, k) in g.edges[..j]
    {
      assert g.edges[..j + 1] == g.edges[..j] + [g.edges[j]];
      var e := g.edges[j];
      if e.0 == b && e.1 !in queue {
        NoDupAppend(queue, e.1);
        queue := queue + [e.1];
      }
    }
    assert g.edges[..|g.edges|] == g.edges;
  }
}
