/** The control-flow graph of a module or a function body (control-flow.ts).

    The graph is built by walking the statements once. A simple statement is
    appended to the current block; a compound statement opens blocks for its
    headers and bodies and closes with a join block that becomes the current
    block. Blocks are numbered in the order they are made, and since every
    join block is made after the blocks of the statement it closes, reading
    the blocks in order reads the statements in source order.

    Every block also records the header that governs it: the condition of
    the `if` or `elif` whose body it is, the `for` header of a loop body, the
    `except` clause of a handler body, or the `else:` header of an `else`
    body. The `else:` header is itself governed by the last condition before
    it, an `elif` condition by the condition before it, and an `except`
    header after the first by the `except` header before it. Control
    dependences are these pairs.

    The builder is given twice: as functions from a graph to a larger graph
    (`Body`, `Step`, ...), and as the methods of `ControlFlowGraph` that
    grow the graph's fields in place and are proved to compute the same as
    the functions. */
module ControlFlow {
  import opened Util
  import opened Locations
  import opened Syntax

  /** A basic block: its number, a hint naming what it was made for, its
      statements in order, and the header its statements depend on. */
  datatype Block = Block(id: nat, hint: string, statements: seq<Node>, control: Option<Node>)

  /** Blocks in the order they were made; edges (from, to) between block
      numbers in the order they were added. */
  datatype Cfg = Cfg(blocks: seq<Block>, edges: seq<(nat, nat)>)

  const Empty := Cfg([], [])

  /** Every block knows its own number and every edge joins two blocks. */
  predicate WellFormed(g: Cfg) {
    (forall i :: 0 <= i < |g.blocks| ==> g.blocks[i].id == i) &&
    (forall e :: e in g.edges ==> e.0 < |g.blocks| && e.1 < |g.blocks|)
  }

  function LastId(g: Cfg): nat
    requires g.blocks != []
  {
    |g.blocks| - 1
  }

  // ---------------------------------------------------------------------
  // The builder, as functions

  function WithBlock(g: Cfg, hint: string, statements: seq<Node>, control: Option<Node>): (r: Cfg)
    ensures |r.blocks| == |g.blocks| + 1 && r.edges == g.edges
  {
    Cfg(g.blocks + [Block(|g.blocks|, hint, statements, control)], g.edges)
  }

  function WithEdge(g: Cfg, from: nat, to: nat): (r: Cfg)
    ensures r.blocks == g.blocks && r.edges == g.edges + [(from, to)]
  {
    g.(edges := g.edges + [(from, to)])
  }

  /** Edges from each of `froms`, in order, to `to`. */
  function WithEdges(g: Cfg, froms: seq<nat>, to: nat): (r: Cfg)
    ensures r.blocks == g.blocks
    ensures forall e :: e in r.edges <==> e in g.edges || (e.1 == to && e.0 in froms)
    decreases |froms|
  {
    if froms == [] then g else WithEdges(WithEdge(g, froms[0], to), froms[1..], to)
  }

  /** Appends a statement to the current (last) block. */
  function WithStatement(g: Cfg, n: Node): (r: Cfg)
    requires g.blocks != []
    ensures |r.blocks| == |g.blocks| && r.edges == g.edges
  {
    var k := |g.blocks| - 1;
    g.(blocks := g.blocks[k := g.blocks[k].(statements := g.blocks[k].statements + [n])])
  }

  lemma SingleEdge(g: Cfg, from: nat, to: nat)
    ensures WithEdges(g, [from], to) == WithEdge(g, from, to)
  {
    assert [from][1..] == [];
  }

  /** The numbers lo, lo + 1, ..., hi - 1. */
  function Range(lo: nat, hi: nat): (r: seq<nat>)
    ensures forall k :: k in r <==> lo <= k < hi
    decreases hi - lo
  {
    if hi <= lo then [] else [lo] + Range(lo + 1, hi)
  }

  /** The alternatives of an `if` built so far: the graph, the block of the
      last condition and that condition, and the exits of the bodies. */
  datatype Chain = Chain(g: Cfg, lastCond: nat, lastNode: Node, exits: seq<nat>)

  /** The handlers of a `try` built so far, and the exits of their bodies. */
  datatype Arm = Arm(g: Cfg, exits: seq<nat>)

  /** The graph of a whole module or function body. */
  function Build(code: seq<Stmt>): (r: Cfg)
    ensures |r.blocks| == BodyBlocks(code)
  {
    Body(Empty, "entry", code, None)
  }

  /** A statement list in a fresh entry block; its exit is the last block. */
  function Body(g: Cfg, hint: string, ss: seq<Stmt>, control: Option<Node>): (r: Cfg)
    ensures |r.blocks| == |g.blocks| + BodyBlocks(ss)
    decreases ss, 3
  {
    Stmts(WithBlock(g, hint, [], control), ss, control)
  }

  function Stmts(g: Cfg, ss: seq<Stmt>, control: Option<Node>): (r: Cfg)
    requires g.blocks != []
    ensures |r.blocks| == |g.blocks| + StmtsBlocks(ss)
    decreases ss, 2
  {
    if ss == [] then g else Stmts(Step(g, ss[0], control), ss[1..], control)
  }

  function Step(g: Cfg, s: Stmt, control: Option<Node>): (r: Cfg)
    requires g.blocks != []
    ensures |r.blocks| == |g.blocks| + StmtBlocks(s)
    decreases s, 3
  {
    match s
    case If(_, _, _, _, _, _) => IfCfg(g, s, control)
    case For(_, _, _, _) => ForCfg(g, s, control)
    case Try(_, _, _) => TryCfg(g, s, control)
    case _ => WithStatement(g, Plain(s))
  }

  /** `if`: a condition block and the body, then the `elif` and `else`
      branches chained off the last condition, then a join that every body
      exits to; without an `else`, the last condition falls through to the
      join. */
  function IfCfg(g: Cfg, s: Stmt, control: Option<Node>): (r: Cfg)
    requires g.blocks != [] && s.If?
    ensures |r.blocks| == |g.blocks| + StmtBlocks(s)
    decreases s, 2
  {
    var ch := Alternatives(g, s, control);
    var g' := JoinBlock(ch.g, ch.exits, "conditional join", control);
    if s.orelse == [] then WithEdge(g', ch.lastCond, LastId(g')) else g'
  }

  /** The condition block and the body of an `if`. */
  function IfStart(g: Cfg, s: Stmt, control: Option<Node>): (r: Chain)
    requires g.blocks != [] && s.If?
    ensures |r.g.blocks| == |g.blocks| + 1 + BodyBlocks(s.body)
    decreases s, 0
  {
    var cond := Cond(s.test, s.loc);
    var condId := |g.blocks|;
    var g1 := WithEdge(WithBlock(g, "if cond", [cond], control), LastId(g), condId);
    var g2 := Body(g1, "if body", s.body, Some(cond));
    Chain(WithEdge(g2, condId, |g1.blocks|), condId, cond, [LastId(g2)])
  }

  /** All branches of an `if`, before the join. */
  function Alternatives(g: Cfg, s: Stmt, control: Option<Node>): (r: Chain)
    requires g.blocks != [] && s.If?
    ensures |r.g.blocks| + 1 == |g.blocks| + StmtBlocks(s)
    decreases s, 1
  {
    var ch := Elifs(IfStart(g, s, control), s.elifs);
    if s.orelse == [] then ch else ElseCfg(ch, s.orelse, s.elseLoc)
  }

  /** A new, empty block that each of `exits` links to. */
  function JoinBlock(g: Cfg, exits: seq<nat>, hint: string, control: Option<Node>): (r: Cfg)
    ensures |r.blocks| == |g.blocks| + 1
  {
    WithEdges(WithBlock(g, hint, [], control), exits, |g.blocks|)
  }

  function Elifs(ch: Chain, bs: seq<Branch>): (r: Chain)
    ensures |r.g.blocks| == |ch.g.blocks| + BranchBlocks(bs)
    decreases bs, 4
  {
    if bs == [] then ch else Elifs(Elif(ch, bs[0]), bs[1..])
  }

  /** One `elif`: its condition, governed by the previous one, and its body. */
  function Elif(ch: Chain, b: Branch): (r: Chain)
    ensures |r.g.blocks| == |ch.g.blocks| + 1 + BodyBlocks(b.body)
    decreases b, 0
  {
    var cond := Cond(b.test, b.loc);
    var condId := |ch.g.blocks|;
    var g1 := WithEdge(WithBlock(ch.g, "elif cond", [cond], Some(ch.lastNode)), ch.lastCond, condId);
    var g2 := Body(g1, "elif body", b.body, Some(cond));
    Chain(WithEdge(g2, condId, |g1.blocks|), condId, cond, ch.exits + [LastId(g2)])
  }

  /** `else:` gets a block of its own, treated like a condition so that the
      `else` body depends on its header. */
  function ElseCfg(ch: Chain, orelse: seq<Stmt>, elseLoc: Location): (r: Chain)
    ensures |r.g.blocks| == |ch.g.blocks| + 1 + BodyBlocks(orelse)
    decreases orelse, 4
  {
    var head := ElseHead(elseLoc);
    var elseId := |ch.g.blocks|;
    var g1 := WithEdge(WithBlock(ch.g, "else cond", [head], Some(ch.lastNode)), ch.lastCond, elseId);
    var g2 := Body(g1, "else body", orelse, Some(head));
    Chain(WithEdge(g2, elseId, |g1.blocks|), elseId, head, ch.exits + [LastId(g2)])
  }

  /** `for`: a head block, the body looping back to it, and a join the head
      exits to. */
  function ForCfg(g: Cfg, s: Stmt, control: Option<Node>): (r: Cfg)
    requires g.blocks != [] && s.For?
    ensures |r.blocks| == |g.blocks| + StmtBlocks(s)
    decreases s, 2
  {
    var head := ForHead(s.target, s.iter, s.loc);
    var headId := |g.blocks|;
    var g1 := WithEdge(WithBlock(g, "for loop head", [head], control), LastId(g), headId);
    var g2 := Body(g1, "for body", s.body, Some(head));
    var g3 := WithEdge(WithEdge(g2, headId, |g1.blocks|), LastId(g2), headId);
    JoinBlock(g3, [headId], "for loop join", control)
  }

  /** `try`: the body, a `handlers` block that every block of the body may
      jump to, one condition block and body per `except` clause, and a join
      that the try body and every handler body exit to. */
  function TryCfg(g: Cfg, s: Stmt, control: Option<Node>): (r: Cfg)
    requires g.blocks != [] && s.Try?
    ensures |r.blocks| == |g.blocks| + StmtBlocks(s)
    decreases s, 2
  {
    var a := TryStart(g, s, control);
    var a' := Handlers(a, s.handlers, LastId(a.g), control);
    JoinBlock(a'.g, a'.exits, "try join", control)
  }

  /** The try body and the `handlers` block; the body's exit is the first
      exit to the join. */
  function TryStart(g: Cfg, s: Stmt, control: Option<Node>): (r: Arm)
    requires g.blocks != [] && s.Try?
    ensures |r.g.blocks| == |g.blocks| + 1 + BodyBlocks(s.body)
    decreases s, 1
  {
    var tryId := |g.blocks|;
    var g1 := WithEdge(Body(g, "try body", s.body, control), LastId(g), tryId);
    var handlersId := |g1.blocks|;
    Arm(WithEdges(WithBlock(g1, "handlers", [], control), Range(tryId, handlersId), handlersId), [LastId(g1)])
  }

  /** The `except` clauses in order; the first clause's header is governed
      by `gov`, the try statement's own control, and each later one by the
      clause before it. */
  function Handlers(a: Arm, hs: seq<Handler>, handlersId: nat, gov: Option<Node>): (r: Arm)
    ensures |r.g.blocks| == |a.g.blocks| + HandlerBlocks(hs)
    decreases hs, 4
  {
    if hs == [] then a
    else Handlers(HandlerCfg(a, hs[0], handlersId, gov), hs[1..], handlersId, Some(ExceptHead(hs[0].loc)))
  }

  /** One `except` clause: a condition block the `handlers` block links to,
      governed by `gov`, and the handler body. */
  function HandlerCfg(a: Arm, h: Handler, handlersId: nat, gov: Option<Node>): (r: Arm)
    ensures |r.g.blocks| == |a.g.blocks| + 1 + BodyBlocks(h.body)
    decreases h, 0
  {
    var head := ExceptHead(h.loc);
    var exceptId := |a.g.blocks|;
    var g1 := WithEdge(WithBlock(a.g, "except cond", [head], gov), handlersId, exceptId);
    var g2 := Body(g1, "handler body", h.body, Some(head));
    Arm(WithEdge(g2, exceptId, |g1.blocks|), a.exits + [LastId(g2)])
  }

  // ---------------------------------------------------------------------
  // How many blocks a statement list needs

  function BodyBlocks(ss: seq<Stmt>): nat
    decreases ss, 1
  {
    1 + StmtsBlocks(ss)
  }

  function StmtsBlocks(ss: seq<Stmt>): nat
    decreases ss, 0
  {
    if ss == [] then 0 else StmtBlocks(ss[0]) + StmtsBlocks(ss[1..])
  }

  function StmtBlocks(s: Stmt): nat
    decreases s
  {
    match s
    case If(_, body, elifs, orelse, _, _) =>
      2 + BodyBlocks(body) + BranchBlocks(elifs) + (if orelse == [] then 0 else 1 + BodyBlocks(orelse))
    case For(_, _, body, _) => 2 + BodyBlocks(body)
    case Try(body, handlers, _) => 2 + BodyBlocks(body) + HandlerBlocks(handlers)
    case _ => 0
  }

  function BranchBlocks(bs: seq<Branch>): nat
    decreases bs
  {
    if bs == [] then 0 else 1 + BodyBlocks(bs[0].body) + BranchBlocks(bs[1..])
  }

  function HandlerBlocks(hs: seq<Handler>): nat
    decreases hs
  {
    if hs == [] then 0 else 1 + BodyBlocks(hs[0].body) + HandlerBlocks(hs[1..])
  }

  // ---------------------------------------------------------------------
  // What the graph holds: each statement with the header it depends on

  /** The statements of the blocks, in block order, each paired with the
      control of its block. */
  function Pairs(bs: seq<Block>): seq<(Option<Node>, Node)>
    decreases |bs|
  {
    if bs == [] then []
    else
      Pairs(bs[..|bs| - 1]) + BlockPairs(bs[|bs| - 1])
  }

  function BlockPairs(b: Block): (r: seq<(Option<Node>, Node)>)
    ensures |r| == |b.statements|
    ensures forall k :: 0 <= k < |r| ==> r[k] == (b.control, b.statements[k])
  {
    seq(|b.statements|, k requires 0 <= k < |b.statements| => (b.control, b.statements[k]))
  }

  /** The independent account, read off the syntax tree: each node of `ss`
      (in the order of `Syntax.Nodes`) with the header it depends on. */
  function Governed(ss: seq<Stmt>, control: Option<Node>): seq<(Option<Node>, Node)>
    decreases ss
  {
    if ss == [] then [] else GovernedStmt(ss[0], control) + Governed(ss[1..], control)
  }

  function GovernedStmt(s: Stmt, control: Option<Node>): seq<(Option<Node>, Node)>
    decreases s
  {
    match s
    case If(test, body, elifs, orelse, elseLoc, loc) =>
      var cond := Cond(test, loc);
      [(control, cond)] + Governed(body, Some(cond)) + GovernedBranches(elifs, cond)
        + (if orelse == [] then []
           else [(Some(LastCond(cond, elifs)), ElseHead(elseLoc))] + Governed(orelse, Some(ElseHead(elseLoc))))
    case For(target, iter, body, loc) =>
      var head := ForHead(target, iter, loc);
      [(control, head)] + Governed(body, Some(head))
    case Try(body, handlers, _) => Governed(body, control) + GovernedHandlers(handlers, control)
    case _ => [(control, Plain(s))]
  }

  function GovernedBranches(bs: seq<Branch>, prev: Node): seq<(Option<Node>, Node)>
    decreases bs
  {
    if bs == [] then []
    else
      var cond := Cond(bs[0].test, bs[0].loc);
      [(Some(prev), cond)] + Governed(bs[0].body, Some(cond)) + GovernedBranches(bs[1..], cond)
  }

  /** The first `except` header depends on `gov`, each later one on the
      `except` header before it. */
  function GovernedHandlers(hs: seq<Handler>, gov: Option<Node>): seq<(Option<Node>, Node)>
    decreases hs
  {
    if hs == [] then []
    else
      var head := ExceptHead(hs[0].loc);
      [(gov, head)] + Governed(hs[0].body, Some(head)) + GovernedHandlers(hs[1..], Some(head))
  }

  /** The condition an `else` hangs off: the last `elif`'s, else the `if`'s. */
  function LastCond(prev: Node, bs: seq<Branch>): Node
    decreases bs
  {
    if bs == [] then prev else LastCond(Cond(bs[0].test, bs[0].loc), bs[1..])
  }

  /** The nodes of a list of pairs. */
  function Statements(ps: seq<(Option<Node>, Node)>): (r: seq<Node>)
    ensures |r| == |ps| && forall k :: 0 <= k < |ps| ==> r[k] == ps[k].1
  {
    seq(|ps|, k requires 0 <= k < |ps| => ps[k].1)
  }

  /** The (control, statement) pairs of the governed statements. */
  function Dependences(ps: seq<(Option<Node>, Node)>): (r: seq<(Node, Node)>)
    ensures forall d :: d in r <==> (Some(d.0), d.1) in ps
    decreases |ps|
  {
    if ps == [] then []
    else
      var rest := Dependences(ps[1..]);
      assert forall p :: p in ps <==> p == ps[0] || p in ps[1..];
      if ps[0].0.Some? then [(ps[0].0.value, ps[0].1)] + rest else rest
  }

  // ---------------------------------------------------------------------
  // The builder keeps the graph well formed

  /** A chain whose last condition and exits are blocks of its graph. */
  predicate ChainFormed(ch: Chain) {
    WellFormed(ch.g) && ch.lastCond < |ch.g.blocks| && forall x :: x in ch.exits ==> x < |ch.g.blocks|
  }

  /** Handlers built so far whose exits are blocks of their graph. */
  predicate ArmFormed(a: Arm) {
    WellFormed(a.g) && forall x :: x in a.exits ==> x < |a.g.blocks|
  }

  lemma {:induction false} BodyFormed(g: Cfg, hint: string, ss: seq<Stmt>, control: Option<Node>)
    requires WellFormed(g)
    ensures WellFormed(Body(g, hint, ss, control))
    decreases ss, 3
  {
    StmtsFormed(WithBlock(g, hint, [], control), ss, control);
  }

  lemma {:induction false} StmtsFormed(g: Cfg, ss: seq<Stmt>, control: Option<Node>)
    requires WellFormed(g) && g.blocks != []
    ensures WellFormed(Stmts(g, ss, control))
    decreases ss, 2
  {
    if ss != [] {
      StepFormed(g, ss[0], control);
      StmtsFormed(Step(g, ss[0], control), ss[1..], control);
    }
  }

  lemma {:induction false} StepFormed(g: Cfg, s: Stmt, control: Option<Node>)
    requires WellFormed(g) && g.blocks != []
    ensures WellFormed(Step(g, s, control))
    decreases s, 3
  {
    if s.If? {
      assert Step(g, s, control) == IfCfg(g, s, control);
      IfFormed(g, s, control);
    } else if s.For? {
      assert Step(g, s, control) == ForCfg(g, s, control);
      ForFormed(g, s, control);
    } else if s.Try? {
      assert Step(g, s, control) == TryCfg(g, s, control);
      TryFormed(g, s, control);
    } else {
      assert Step(g, s, control) == WithStatement(g, Plain(s));
    }
  }

  lemma {:induction false} IfFormed(g: Cfg, s: Stmt, control: Option<Node>)
    requires WellFormed(g) && g.blocks != [] && s.If?
    ensures WellFormed(IfCfg(g, s, control))
    decreases s, 2
  {
    AlternativesFormed(g, s, control);
    var ch := Alternatives(g, s, control);
    JoinFormed(ch.g, ch.exits, "conditional join", control);
  }

  lemma {:induction false} TryFormed(g: Cfg, s: Stmt, control: Option<Node>)
    requires WellFormed(g) && g.blocks != [] && s.Try?
    ensures WellFormed(TryCfg(g, s, control))
    decreases s, 2
  {
    TryStartFormed(g, s, control);
    var a := TryStart(g, s, control);
    HandlersFormed(a, s.handlers, LastId(a.g), control);
    var a' := Handlers(a, s.handlers, LastId(a.g), control);
    JoinFormed(a'.g, a'.exits, "try join", control);
  }

  lemma JoinFormed(g: Cfg, exits: seq<nat>, hint: string, control: Option<Node>)
    requires WellFormed(g) && forall x :: x in exits ==> x < |g.blocks|
    ensures WellFormed(JoinBlock(g, exits, hint, control))
  {
  }

  lemma {:induction false} IfStartFormed(g: Cfg, s: Stmt, control: Option<Node>)
    requires WellFormed(g) && g.blocks != [] && s.If?
    ensures ChainFormed(IfStart(g, s, control))
    decreases s, 0
  {
    var cond := Cond(s.test, s.loc);
    var g1 := WithEdge(WithBlock(g, "if cond", [cond], control), LastId(g), |g.blocks|);
    BodyFormed(g1, "if body", s.body, Some(cond));
  }

  lemma {:induction false} AlternativesFormed(g: Cfg, s: Stmt, control: Option<Node>)
    requires WellFormed(g) && g.blocks != [] && s.If?
    ensures ChainFormed(Alternatives(g, s, control))
    decreases s, 1
  {
    IfStartFormed(g, s, control);
    ElifsFormed(IfStart(g, s, control), s.elifs);
    if s.orelse != [] {
      ElseFormed(Elifs(IfStart(g, s, control), s.elifs), s.orelse, s.elseLoc);
    }
  }

  lemma {:induction false} ElifsFormed(ch: Chain, bs: seq<Branch>)
    requires ChainFormed(ch)
    ensures ChainFormed(Elifs(ch, bs))
    decreases bs, 4
  {
    if bs != [] {
      ElifFormed(ch, bs[0]);
      ElifsFormed(Elif(ch, bs[0]), bs[1..]);
    }
  }

  lemma {:induction false} ElifFormed(ch: Chain, b: Branch)
    requires ChainFormed(ch)
    ensures ChainFormed(Elif(ch, b))
    decreases b, 0
  {
    var cond := Cond(b.test, b.loc);
    var g1 := WithEdge(WithBlock(ch.g, "elif cond", [cond], Some(ch.lastNode)), ch.lastCond, |ch.g.blocks|);
    BodyFormed(g1, "elif body", b.body, Some(cond));
  }

  lemma {:induction false} ElseFormed(ch: Chain, orelse: seq<Stmt>, elseLoc: Location)
    requires ChainFormed(ch)
    ensures ChainFormed(ElseCfg(ch, orelse, elseLoc))
    decreases orelse, 4
  {
    var head := ElseHead(elseLoc);
    var g1 := WithEdge(WithBlock(ch.g, "else cond", [head], Some(ch.lastNode)), ch.lastCond, |ch.g.blocks|);
    BodyFormed(g1, "else body", orelse, Some(head));
  }

  lemma {:induction false} ForFormed(g: Cfg, s: Stmt, control: Option<Node>)
    requires WellFormed(g) && g.blocks != [] && s.For?
    ensures WellFormed(ForCfg(g, s, control))
    decreases s, 2
  {
    var head := ForHead(s.target, s.iter, s.loc);
    var g1 := WithEdge(WithBlock(g, "for loop head", [head], control), LastId(g), |g.blocks|);
    BodyFormed(g1, "for body", s.body, Some(head));
    var g2 := Body(g1, "for body", s.body, Some(head));
    var g3 := WithEdge(WithEdge(g2, |g.blocks|, |g1.blocks|), LastId(g2), |g.blocks|);
    JoinFormed(g3, [|g.blocks|], "for loop join", control);
  }

  lemma {:induction false} TryStartFormed(g: Cfg, s: Stmt, control: Option<Node>)
    requires WellFormed(g) && g.blocks != [] && s.Try?
    ensures ArmFormed(TryStart(g, s, control))
    decreases s, 1
  {
    BodyFormed(g, "try body", s.body, control);
  }

  lemma {:induction false} HandlersFormed(a: Arm, hs: seq<Handler>, handlersId: nat, control: Option<Node>)
    requires ArmFormed(a) && handlersId < |a.g.blocks|
    ensures ArmFormed(Handlers(a, hs, handlersId, control))
    decreases hs, 4
  {
    if hs != [] {
      HandlerFormed(a, hs[0], handlersId, control);
      HandlersFormed(HandlerCfg(a, hs[0], handlersId, control), hs[1..], handlersId, Some(ExceptHead(hs[0].loc)));
    }
  }

  lemma {:induction false} HandlerFormed(a: Arm, h: Handler, handlersId: nat, control: Option<Node>)
    requires ArmFormed(a) && handlersId < |a.g.blocks|
    ensures ArmFormed(HandlerCfg(a, h, handlersId, control))
    decreases h, 0
  {
    var head := ExceptHead(h.loc);
    var g1 := WithEdge(WithBlock(a.g, "except cond", [head], control), handlersId, |a.g.blocks|);
    BodyFormed(g1, "handler body", h.body, Some(head));
  }

  // ---------------------------------------------------------------------
  // The graph holds every statement once, in source order, with the header
  // it depends on

  lemma WithBlockPairs(g: Cfg, hint: string, statements: seq<Node>, control: Option<Node>)
    ensures var r := WithBlock(g, hint, statements, control);
      Pairs(r.blocks) == Pairs(g.blocks) + BlockPairs(Block(|g.blocks|, hint, statements, control))
      && r.blocks[LastId(r)].control == control
  {
    var b := Block(|g.blocks|, hint, statements, control);
    assert (g.blocks + [b])[..|g.blocks|] == g.blocks;
  }

  lemma HeaderPairs(g: Cfg, hint: string, n: Node, control: Option<Node>)
    ensures var r := WithBlock(g, hint, [n], control);
      Pairs(r.blocks) == Pairs(g.blocks) + [(control, n)] && r.blocks[LastId(r)].control == control
  {
    WithBlockPairs(g, hint, [n], control);
    assert BlockPairs(Block(|g.blocks|, hint, [n], control)) == [(control, n)];
  }

  lemma JoinPairs(g: Cfg, exits: seq<nat>, hint: string, control: Option<Node>)
    ensures var r := JoinBlock(g, exits, hint, control);
      Pairs(r.blocks) == Pairs(g.blocks) && r.blocks[LastId(r)].control == control
  {
    WithBlockPairs(g, hint, [], control);
    assert BlockPairs(Block(|g.blocks|, hint, [], control)) == [];
    assert Pairs(g.blocks) + [] == Pairs(g.blocks);
  }

  lemma WithStatementPairs(g: Cfg, n: Node)
    requires g.blocks != []
    ensures var r := WithStatement(g, n);
      Pairs(r.blocks) == Pairs(g.blocks) + [(g.blocks[LastId(g)].control, n)]
      && r.blocks[LastId(r)].control == g.blocks[LastId(g)].control
  {
    var k := |g.blocks| - 1;
    var b := g.blocks[k];
    var b' := b.(statements := b.statements + [n]);
    var r := WithStatement(g, n);
    assert r.blocks[..k] == g.blocks[..k];
    assert BlockPairs(b') == BlockPairs(b) + [(b.control, n)];
  }

  lemma {:induction false} BodyPairs(g: Cfg, hint: string, ss: seq<Stmt>, control: Option<Node>)
    ensures var r := Body(g, hint, ss, control);
      Pairs(r.blocks) == Pairs(g.blocks) + Governed(ss, control) && r.blocks[LastId(r)].control == control
    decreases ss, 3
  {
    WithBlockPairs(g, hint, [], control);
    assert BlockPairs(Block(|g.blocks|, hint, [], control)) == [];
    assert Pairs(g.blocks) + [] == Pairs(g.blocks);
    StmtsPairs(WithBlock(g, hint, [], control), ss, control);
  }

  lemma {:induction false} StmtsPairs(g: Cfg, ss: seq<Stmt>, control: Option<Node>)
    requires g.blocks != [] && g.blocks[LastId(g)].control == control
    ensures var r := Stmts(g, ss, control);
      Pairs(r.blocks) == Pairs(g.blocks) + Governed(ss, control) && r.blocks[LastId(r)].control == control
    decreases ss, 2
  {
    if ss == [] {
      assert Pairs(g.blocks) + [] == Pairs(g.blocks);
    } else {
      StepPairs(g, ss[0], control);
      var g1 := Step(g, ss[0], control);
      StmtsPairs(g1, ss[1..], control);
      assert Pairs(g1.blocks) + Governed(ss[1..], control)
        == Pairs(g.blocks) + (GovernedStmt(ss[0], control) + Governed(ss[1..], control));
    }
  }

  lemma {:induction false} StepPairs(g: Cfg, s: Stmt, control: Option<Node>)
    requires g.blocks != [] && g.blocks[LastId(g)].control == control
    ensures Pairs(Step(g, s, control).blocks) == Pairs(g.blocks) + GovernedStmt(s, control)
    ensures Step(g, s, control).blocks[LastId(Step(g, s, control))].control == control
    decreases s, 3
  {
    match s
    case If(_, _, _, _, _, _) =>
      assert Step(g, s, control) == IfCfg(g, s, control);
      IfPairs(g, s, control);
    case For(_, _, _, _) =>
      assert Step(g, s, control) == ForCfg(g, s, control);
      ForPairs(g, s, control);
    case Try(_, _, _) =>
      assert Step(g, s, control) == TryCfg(g, s, control);
      TryPairs(g, s, control);
    case _ =>
      assert Step(g, s, control) == WithStatement(g, Plain(s));
      WithStatementPairs(g, Plain(s));
  }

  /** What the branches of an `if` add after its condition. */
  function ElsePart(s: Stmt): seq<(Option<Node>, Node)>
    requires s.If?
  {
    if s.orelse == [] then []
    else [(Some(LastCond(Cond(s.test, s.loc), s.elifs)), ElseHead(s.elseLoc))] + Governed(s.orelse, Some(ElseHead(s.elseLoc)))
  }

  lemma {:induction false} IfPairs(g: Cfg, s: Stmt, control: Option<Node>)
    requires g.blocks != [] && s.If?
    ensures Pairs(IfCfg(g, s, control).blocks) == Pairs(g.blocks) + GovernedStmt(s, control)
    ensures IfCfg(g, s, control).blocks[LastId(IfCfg(g, s, control))].control == control
    decreases s, 2
  {
    var cond := Cond(s.test, s.loc);
    AlternativesPairs(g, s, control);
    var ch := Alternatives(g, s, control);
    JoinPairs(ch.g, ch.exits, "conditional join", control);
    assert GovernedStmt(s, control) == [(control, cond)] + Governed(s.body, Some(cond))
      + GovernedBranches(s.elifs, cond) + ElsePart(s);
    Assoc(Pairs(g.blocks), [(control, cond)], Governed(s.body, Some(cond)), GovernedBranches(s.elifs, cond), ElsePart(s));
  }

  lemma Assoc<T>(p: seq<T>, a: seq<T>, b: seq<T>, c: seq<T>, d: seq<T>)
    ensures p + a + b + c + d == p + (a + b + c + d)
  {
  }

  lemma {:induction false} IfStartPairs(g: Cfg, s: Stmt, control: Option<Node>)
    requires g.blocks != [] && s.If?
    ensures var r := IfStart(g, s, control);
      Pairs(r.g.blocks) == Pairs(g.blocks) + [(control, Cond(s.test, s.loc))] + Governed(s.body, Some(Cond(s.test, s.loc)))
      && r.lastNode == Cond(s.test, s.loc)
    decreases s, 0
  {
    var cond := Cond(s.test, s.loc);
    HeaderPairs(g, "if cond", cond, control);
    var g1 := WithEdge(WithBlock(g, "if cond", [cond], control), LastId(g), |g.blocks|);
    BodyPairs(g1, "if body", s.body, Some(cond));
  }

  lemma {:induction false} AlternativesPairs(g: Cfg, s: Stmt, control: Option<Node>)
    requires g.blocks != [] && s.If?
    ensures var r := Alternatives(g, s, control);
      var cond := Cond(s.test, s.loc);
      Pairs(r.g.blocks) == Pairs(g.blocks) + [(control, cond)] + Governed(s.body, Some(cond))
        + GovernedBranches(s.elifs, cond) + ElsePart(s)
    decreases s, 1
  {
    var cond := Cond(s.test, s.loc);
    IfStartPairs(g, s, control);
    var ch0 := IfStart(g, s, control);
    ElifsPairs(ch0, s.elifs);
    var ch := Elifs(ch0, s.elifs);
    if s.orelse != [] {
      ElsePairs(ch, s.orelse, s.elseLoc);
    } else {
      assert Pairs(ch.g.blocks) + [] == Pairs(ch.g.blocks);
    }
  }

  lemma {:induction false} ElifsPairs(ch: Chain, bs: seq<Branch>)
    ensures var r := Elifs(ch, bs);
      Pairs(r.g.blocks) == Pairs(ch.g.blocks) + GovernedBranches(bs, ch.lastNode)
      && r.lastNode == LastCond(ch.lastNode, bs)
    decreases bs, 4
  {
    if bs == [] {
      assert Pairs(ch.g.blocks) + [] == Pairs(ch.g.blocks);
    } else {
      var cond := Cond(bs[0].test, bs[0].loc);
      var ch1 := Elif(ch, bs[0]);
      var own := [(Some(ch.lastNode), cond)] + Governed(bs[0].body, Some(cond));
      var p0, rest := Pairs(ch.g.blocks), GovernedBranches(bs[1..], cond);
      ElifsUnfold(ch, bs, cond, ch1, own);
      ElifPairs(ch, bs[0]);
      ElifsPairs(ch1, bs[1..]);
      Chain2(p0, own, rest, Pairs(ch1.g.blocks), Pairs(Elifs(ch1, bs[1..]).g.blocks));
    }
  }

  lemma ElifsUnfold(ch: Chain, bs: seq<Branch>, cond: Node, ch1: Chain, own: seq<(Option<Node>, Node)>)
    requires bs != [] && cond == Cond(bs[0].test, bs[0].loc) && ch1 == Elif(ch, bs[0])
    requires own == [(Some(ch.lastNode), cond)] + Governed(bs[0].body, Some(cond))
    ensures Elifs(ch, bs) == Elifs(ch1, bs[1..])
    ensures LastCond(ch.lastNode, bs) == LastCond(cond, bs[1..])
    ensures GovernedBranches(bs, ch.lastNode) == own + GovernedBranches(bs[1..], cond)
  {
  }

  lemma {:induction false} ElifPairs(ch: Chain, b: Branch)
    ensures var r := Elif(ch, b);
      var cond := Cond(b.test, b.loc);
      Pairs(r.g.blocks) == Pairs(ch.g.blocks) + ([(Some(ch.lastNode), cond)] + Governed(b.body, Some(cond)))
      && r.lastNode == cond
    decreases b, 0
  {
    var cond := Cond(b.test, b.loc);
    HeaderPairs(ch.g, "elif cond", cond, Some(ch.lastNode));
    var g1 := WithEdge(WithBlock(ch.g, "elif cond", [cond], Some(ch.lastNode)), ch.lastCond, |ch.g.blocks|);
    BodyPairs(g1, "elif body", b.body, Some(cond));
  }

  lemma {:induction false} ElsePairs(ch: Chain, orelse: seq<Stmt>, elseLoc: Location)
    ensures var r := ElseCfg(ch, orelse, elseLoc);
      Pairs(r.g.blocks) == Pairs(ch.g.blocks) + ([(Some(ch.lastNode), ElseHead(elseLoc))]
         + Governed(orelse, Some(ElseHead(elseLoc))))
    decreases orelse, 4
  {
    var head := ElseHead(elseLoc);
    HeaderPairs(ch.g, "else cond", head, Some(ch.lastNode));
    var g1 := WithEdge(WithBlock(ch.g, "else cond", [head], Some(ch.lastNode)), ch.lastCond, |ch.g.blocks|);
    BodyPairs(g1, "else body", orelse, Some(head));
  }

  lemma {:induction false} ForPairs(g: Cfg, s: Stmt, control: Option<Node>)
    requires g.blocks != [] && s.For?
    ensures Pairs(ForCfg(g, s, control).blocks) == Pairs(g.blocks) + GovernedStmt(s, control)
    ensures ForCfg(g, s, control).blocks[LastId(ForCfg(g, s, control))].control == control
    decreases s, 2
  {
    var head := ForHead(s.target, s.iter, s.loc);
    HeaderPairs(g, "for loop head", head, control);
    var g1 := WithEdge(WithBlock(g, "for loop head", [head], control), LastId(g), |g.blocks|);
    BodyPairs(g1, "for body", s.body, Some(head));
    var g2 := Body(g1, "for body", s.body, Some(head));
    var g3 := WithEdge(WithEdge(g2, |g.blocks|, |g1.blocks|), LastId(g2), |g.blocks|);
    JoinPairs(g3, [|g.blocks|], "for loop join", control);
    assert ForCfg(g, s, control) == JoinBlock(g3, [|g.blocks|], "for loop join", control);
    assert GovernedStmt(s, control) == [(control, head)] + Governed(s.body, Some(head));
    Chain2(Pairs(g.blocks), [(control, head)], Governed(s.body, Some(head)), Pairs(g1.blocks), Pairs(g2.blocks));
  }

  lemma {:induction false} TryPairs(g: Cfg, s: Stmt, control: Option<Node>)
    requires g.blocks != [] && s.Try?
    ensures Pairs(TryCfg(g, s, control).blocks) == Pairs(g.blocks) + GovernedStmt(s, control)
    ensures TryCfg(g, s, control).blocks[LastId(TryCfg(g, s, control))].control == control
    decreases s, 2
  {
    var a := TryStart(g, s, control);
    var a' := Handlers(a, s.handlers, LastId(a.g), control);
    TryArmPairs(g, s, control, a, a');
    JoinPairs(a'.g, a'.exits, "try join", control);
    assert TryCfg(g, s, control) == JoinBlock(a'.g, a'.exits, "try join", control);
  }

  /** The `try` body and the handlers, before the join. */
  lemma {:induction false} TryArmPairs(g: Cfg, s: Stmt, control: Option<Node>, a: Arm, a': Arm)
    requires g.blocks != [] && s.Try?
    requires a == TryStart(g, s, control) && a' == Handlers(a, s.handlers, LastId(a.g), control)
    ensures Pairs(a'.g.blocks) == Pairs(g.blocks) + GovernedStmt(s, control)
    decreases s, 1
  {
    TryStartPairs(g, s, control);
    HandlersPairs(a, s.handlers, LastId(a.g), control);
    GovernedTry(s, control);
    Chain2(Pairs(g.blocks), Governed(s.body, control), GovernedHandlers(s.handlers, control),
           Pairs(a.g.blocks), Pairs(a'.g.blocks));
  }

  lemma Chain2<T>(p: seq<T>, x: seq<T>, y: seq<T>, px: seq<T>, pxy: seq<T>)
    requires px == p + x && pxy == px + y
    ensures pxy == p + (x + y)
  {
  }

  lemma GovernedTry(s: Stmt, control: Option<Node>)
    requires s.Try?
    ensures GovernedStmt(s, control) == Governed(s.body, control) + GovernedHandlers(s.handlers, control)
  {
    assert s == Try(s.body, s.handlers, s.loc);
  }

  lemma {:induction false} TryStartPairs(g: Cfg, s: Stmt, control: Option<Node>)
    requires g.blocks != [] && s.Try?
    ensures Pairs(TryStart(g, s, control).g.blocks) == Pairs(g.blocks) + Governed(s.body, control)
    decreases s, 0
  {
    BodyPairs(g, "try body", s.body, control);
    var g1 := WithEdge(Body(g, "try body", s.body, control), LastId(g), |g.blocks|);
    JoinPairs(g1, Range(|g.blocks|, |g1.blocks|), "handlers", control);
  }

  lemma {:induction false} HandlersPairs(a: Arm, hs: seq<Handler>, handlersId: nat, control: Option<Node>)
    ensures Pairs(Handlers(a, hs, handlersId, control).g.blocks) == Pairs(a.g.blocks) + GovernedHandlers(hs, control)
    decreases hs, 4
  {
    if hs == [] {
      assert Pairs(a.g.blocks) + [] == Pairs(a.g.blocks);
    } else {
      var head := ExceptHead(hs[0].loc);
      var a1 := HandlerCfg(a, hs[0], handlersId, control);
      var own := [(control, head)] + Governed(hs[0].body, Some(head));
      var rest := GovernedHandlers(hs[1..], Some(head));
      assert Handlers(a, hs, handlersId, control) == Handlers(a1, hs[1..], handlersId, Some(head));
      assert GovernedHandlers(hs, control) == own + rest;
      assert Pairs(a1.g.blocks) == Pairs(a.g.blocks) + own by {
        HandlerPairs(a, hs[0], handlersId, control);
      }
      HandlersPairs(a1, hs[1..], handlersId, Some(head));
      assert Pairs(a.g.blocks) + own + rest == Pairs(a.g.blocks) + (own + rest);
    }
  }

  lemma {:induction false} HandlerPairs(a: Arm, h: Handler, handlersId: nat, control: Option<Node>)
    ensures Pairs(HandlerCfg(a, h, handlersId, control).g.blocks)
      == Pairs(a.g.blocks) + [(control, ExceptHead(h.loc))] + Governed(h.body, Some(ExceptHead(h.loc)))
    decreases h, 0
  {
    var head := ExceptHead(h.loc);
    HeaderPairs(a.g, "except cond", head, control);
    var g1 := WithEdge(WithBlock(a.g, "except cond", [head], control), handlersId, |a.g.blocks|);
    BodyPairs(g1, "handler body", h.body, Some(head));
  }

  /** The whole graph of a module or function body is well formed and holds
      exactly the nodes of the code, in source order, each with its header. */
  lemma BuildHolds(code: seq<Stmt>)
    ensures WellFormed(Build(code))
    ensures Pairs(Build(code).blocks) == Governed(code, None)
    ensures Statements(Pairs(Build(code).blocks)) == Nodes(code)
  {
    BodyFormed(Empty, "entry", code, None);
    BodyPairs(Empty, "entry", code, None);
    GovernedNodes(code, None);
  }

  lemma StatementsAppend(a: seq<(Option<Node>, Node)>, b: seq<(Option<Node>, Node)>)
    ensures Statements(a + b) == Statements(a) + Statements(b)
  {
    assert forall k :: 0 <= k < |a| + |b| ==> Statements(a + b)[k] == (Statements(a) + Statements(b))[k];
  }

  lemma StatementsAppend3(a: seq<(Option<Node>, Node)>, b: seq<(Option<Node>, Node)>, c: seq<(Option<Node>, Node)>)
    ensures Statements(a + b + c) == Statements(a) + Statements(b) + Statements(c)
  {
    StatementsAppend(a, b);
    StatementsAppend(a + b, c);
  }

  /** Pairing statements with headers keeps every node, in the order of
      `Syntax.Nodes`. */
  lemma {:induction false} GovernedNodes(ss: seq<Stmt>, control: Option<Node>)
    ensures Statements(Governed(ss, control)) == Nodes(ss)
    decreases ss
  {
    if ss != [] {
      GovernedStmtNodes(ss[0], control);
      GovernedNodes(ss[1..], control);
      StatementsAppend(GovernedStmt(ss[0], control), Governed(ss[1..], control));
    }
  }

  lemma {:induction false} GovernedStmtNodes(s: Stmt, control: Option<Node>)
    ensures Statements(GovernedStmt(s, control)) == StmtNodes(s)
    decreases s, 1
  {
    match s
    case If(_, _, _, _, _, _) => GovernedIfNodes(s, control);
    case For(target, iter, body, loc) =>
      var head := ForHead(target, iter, loc);
      GovernedNodes(body, Some(head));
      StatementsAppend([(control, head)], Governed(body, Some(head)));
    case Try(body, handlers, _) =>
      GovernedNodes(body, control);
      GovernedHandlersNodes(handlers, control);
      StatementsAppend(Governed(body, control), GovernedHandlers(handlers, control));
    case _ =>
  }

  lemma {:induction false} GovernedIfNodes(s: Stmt, control: Option<Node>)
    requires s.If?
    ensures Statements(GovernedStmt(s, control)) == StmtNodes(s)
    decreases s, 0
  {
    var cond := Cond(s.test, s.loc);
    var head := [(control, cond)] + Governed(s.body, Some(cond)) + GovernedBranches(s.elifs, cond);
    assert Statements(head) == [cond] + Nodes(s.body) + BranchNodes(s.elifs) by {
      GovernedNodes(s.body, Some(cond));
      GovernedBranchesNodes(s.elifs, cond);
      StatementsAppend3([(control, cond)], Governed(s.body, Some(cond)), GovernedBranches(s.elifs, cond));
    }
    var elseNodes := if s.orelse == [] then [] else [ElseHead(s.elseLoc)] + Nodes(s.orelse);
    assert Statements(ElsePart(s)) == elseNodes by {
      if s.orelse != [] {
        GovernedNodes(s.orelse, Some(ElseHead(s.elseLoc)));
        StatementsAppend([(Some(LastCond(cond, s.elifs)), ElseHead(s.elseLoc))], Governed(s.orelse, Some(ElseHead(s.elseLoc))));
      }
    }
    assert GovernedStmt(s, control) == head + ElsePart(s);
    StatementsAppend(head, ElsePart(s));
  }

  lemma {:induction false} GovernedBranchesNodes(bs: seq<Branch>, prev: Node)
    ensures Statements(GovernedBranches(bs, prev)) == BranchNodes(bs)
    decreases bs
  {
    if bs != [] {
      var cond := Cond(bs[0].test, bs[0].loc);
      GovernedNodes(bs[0].body, Some(cond));
      GovernedBranchesNodes(bs[1..], cond);
      StatementsAppend3([(Some(prev), cond)], Governed(bs[0].body, Some(cond)), GovernedBranches(bs[1..], cond));
    }
  }

  lemma {:induction false} GovernedHandlersNodes(hs: seq<Handler>, control: Option<Node>)
    ensures Statements(GovernedHandlers(hs, control)) == HandlerNodes(hs)
    decreases hs
  {
    if hs != [] {
      var head := ExceptHead(hs[0].loc);
      var a, b, c := [(control, head)], Governed(hs[0].body, Some(head)), GovernedHandlers(hs[1..], Some(head));
      assert GovernedHandlers(hs, control) == a + b + c;
      assert HandlerNodes(hs) == [head] + Nodes(hs[0].body) + HandlerNodes(hs[1..]);
      GovernedNodes(hs[0].body, Some(head));
      GovernedHandlersNodes(hs[1..], Some(head));
      StatementsAppend3(a, b, c);
      assert Statements(a) == [head];
    }
  }

  // ---------------------------------------------------------------------
  // Control dependences of common shapes

  /** A header: the only kind of node a statement can depend on. */
  predicate Header(n: Node) {
    !n.Plain?
  }

  /** Only headers govern statements. */
  lemma {:induction false} ControlsAreHeaders(ss: seq<Stmt>, control: Option<Node>)
    requires control.None? || Header(control.value)
    ensures forall p :: p in Governed(ss, control) && p.0.Some? ==> Header(p.0.value)
    decreases ss
  {
    if ss != [] {
      ControlsAreHeadersStmt(ss[0], control);
      ControlsAreHeaders(ss[1..], control);
    }
  }

  lemma {:induction false} ControlsAreHeadersStmt(s: Stmt, control: Option<Node>)
    requires control.None? || Header(control.value)
    ensures forall p :: p in GovernedStmt(s, control) && p.0.Some? ==> Header(p.0.value)
    decreases s
  {
    match s
    case If(test, body, elifs, orelse, elseLoc, loc) =>
      ControlsAreHeaders(body, Some(Cond(test, loc)));
      ControlsAreHeadersBranches(elifs, Cond(test, loc));
      ControlsAreHeaders(orelse, Some(ElseHead(elseLoc)));
      LastCondIsCond(Cond(test, loc), elifs);
    case For(target, iter, body, loc) => ControlsAreHeaders(body, Some(ForHead(target, iter, loc)));
    case Try(body, handlers, _) =>
      ControlsAreHeaders(body, control);
      ControlsAreHeadersHandlers(handlers, control);
    case _ =>
  }

  lemma {:induction false} ControlsAreHeadersBranches(bs: seq<Branch>, prev: Node)
    requires Header(prev)
    ensures forall p :: p in GovernedBranches(bs, prev) && p.0.Some? ==> Header(p.0.value)
    decreases bs
  {
    if bs != [] {
      ControlsAreHeaders(bs[0].body, Some(Cond(bs[0].test, bs[0].loc)));
      ControlsAreHeadersBranches(bs[1..], Cond(bs[0].test, bs[0].loc));
    }
  }

  lemma {:induction false} ControlsAreHeadersHandlers(hs: seq<Handler>, control: Option<Node>)
    requires control.None? || Header(control.value)
    ensures forall p :: p in GovernedHandlers(hs, control) && p.0.Some? ==> Header(p.0.value)
    decreases hs
  {
    if hs != [] {
      ControlsAreHeaders(hs[0].body, Some(ExceptHead(hs[0].loc)));
      ControlsAreHeadersHandlers(hs[1..], Some(ExceptHead(hs[0].loc)));
    }
  }

  lemma {:induction false} LastCondIsCond(prev: Node, bs: seq<Branch>)
    ensures LastCond(prev, bs) == prev || LastCond(prev, bs).Cond?
    decreases bs
  {
    if bs != [] {
      LastCondIsCond(Cond(bs[0].test, bs[0].loc), bs[1..]);
    }
  }

  /** The nodes of a run of simple statements. */
  function Plains(ss: seq<Stmt>): (r: seq<Node>)
    ensures |r| == |ss| && forall k :: 0 <= k < |ss| ==> r[k] == Plain(ss[k])
  {
    seq(|ss|, k requires 0 <= k < |ss| => Plain(ss[k]))
  }

  /** The graph with nodes appended to its last block. */
  function AppendLast(g: Cfg, ns: seq<Node>): (r: Cfg)
    requires g.blocks != []
    ensures |r.blocks| == |g.blocks| && r.blocks != []
  {
    var k := |g.blocks| - 1;
    g.(blocks := g.blocks[k := g.blocks[k].(statements := g.blocks[k].statements + ns)])
  }

  lemma AppendLastTwice(g: Cfg, a: seq<Node>, b: seq<Node>)
    requires g.blocks != []
    ensures AppendLast(AppendLast(g, a), b) == AppendLast(g, a + b)
  {
    var k := |g.blocks| - 1;
    assert g.blocks[k].statements + a + b == g.blocks[k].statements + (a + b);
  }

  /** Simple statements are appended to the current block, in order. */
  lemma {:induction false} SimpleStmts(g: Cfg, ss: seq<Stmt>, control: Option<Node>)
    requires g.blocks != []
    requires forall k :: 0 <= k < |ss| ==> !Compound(ss[k])
    ensures Stmts(g, ss, control) == AppendLast(g, Plains(ss))
    decreases ss
  {
    var k := |g.blocks| - 1;
    if ss == [] {
      assert g.blocks[k].statements + Plains(ss) == g.blocks[k].statements;
      assert g.blocks[k := g.blocks[k]] == g.blocks;
    } else {
      var g' := AppendLast(g, [Plain(ss[0])]);
      assert Stmts(g, ss, control) == Stmts(Step(g, ss[0], control), ss[1..], control);
      SimpleStep(g, ss[0], control);
      SimpleStmts(g', ss[1..], control);
      AppendLastTwice(g, [Plain(ss[0])], Plains(ss[1..]));
      assert [Plain(ss[0])] + Plains(ss[1..]) == Plains(ss);
    }
  }

  lemma SimpleStep(g: Cfg, s: Stmt, control: Option<Node>)
    requires g.blocks != [] && !Compound(s)
    ensures Step(g, s, control) == AppendLast(g, [Plain(s)])
  {
  }

  /** A module of simple statements is one entry block holding them all. */
  lemma StraightLineBuild(code: seq<Stmt>)
    requires forall k :: 0 <= k < |code| ==> !Compound(code[k])
    ensures Build(code) == Cfg([Block(0, "entry", Plains(code), None)], [])
  {
    var g0 := WithBlock(Empty, "entry", [], None);
    assert Build(code) == Stmts(g0, code, None);
    SimpleStmts(g0, code, None);
    assert [] + Plains(code) == Plains(code);
    assert AppendLast(g0, Plains(code)).blocks == [Block(0, "entry", Plains(code), None)];
  }

  /** Simple statements are governed by the header of the list they are in. */
  lemma {:induction false} SimpleGoverned(ss: seq<Stmt>, control: Option<Node>)
    requires forall k :: 0 <= k < |ss| ==> !Compound(ss[k])
    ensures Governed(ss, control) == seq(|ss|, k requires 0 <= k < |ss| => (control, Plain(ss[k])))
    decreases ss
  {
    if ss != [] {
      SimpleGoverned(ss[1..], control);
      assert GovernedStmt(ss[0], control) == [(control, Plain(ss[0]))] by {
        assert !Compound(ss[0]);
      }
    }
  }

  /** Straight-line code at the top level depends on nothing. */
  lemma StraightLineIndependent(ss: seq<Stmt>)
    requires forall k :: 0 <= k < |ss| ==> !Compound(ss[k])
    ensures Dependences(Governed(ss, None)) == []
  {
    SimpleGoverned(ss, None);
    Ungoverned(Governed(ss, None));
  }

  /** Every statement of `ss` depending on `h`, in order. */
  function Under(h: Node, ss: seq<Stmt>): (r: seq<(Node, Node)>)
    ensures |r| == |ss|
  {
    seq(|ss|, k requires 0 <= k < |ss| => (h, Plain(ss[k])))
  }

  /** Every statement of a simple `if` body depends on the condition, in order. */
  lemma IfBodyDependences(test: Expr, body: seq<Stmt>, elseLoc: Location, loc: Location)
    requires forall k :: 0 <= k < |body| ==> !Compound(body[k])
    ensures Dependences(Governed([If(test, body, [], [], elseLoc, loc)], None)) == Under(Cond(test, loc), body)
  {
    var cond := Cond(test, loc);
    GovernedAll(body, cond);
    assert Governed([If(test, body, [], [], elseLoc, loc)], None) == [(None, cond)] + Governed(body, Some(cond)) by {
      assert GovernedStmt(If(test, body, [], [], elseLoc, loc), None) == [(None, cond)] + Governed(body, Some(cond)) + [] + [];
    }
    DependencesAppend([(None, cond)], Governed(body, Some(cond)));
  }

  /** An `elif` depends on the `if` condition, an `else:` on the `elif`
      condition, and each body on its own header. */
  lemma ElifElseDependences(test: Expr, body: seq<Stmt>, b: Branch, orelse: seq<Stmt>, elseLoc: Location, loc: Location)
    requires forall k :: 0 <= k < |body| ==> !Compound(body[k])
    requires forall k :: 0 <= k < |b.body| ==> !Compound(b.body[k])
    requires forall k :: 0 <= k < |orelse| ==> !Compound(orelse[k])
    ensures Dependences(Governed([If(test, body, [b], orelse, elseLoc, loc)], None))
      == Under(Cond(test, loc), body) + [(Cond(test, loc), Cond(b.test, b.loc))] + Under(Cond(b.test, b.loc), b.body)
         + (if orelse == [] then []
            else [(Cond(b.test, b.loc), ElseHead(elseLoc))] + Under(ElseHead(elseLoc), orelse))
  {
    var s := If(test, body, [b], orelse, elseLoc, loc);
    var c1, c2, e := Cond(test, loc), Cond(b.test, b.loc), ElseHead(elseLoc);
    var gb := Governed(b.body, Some(c2));
    var rest := if orelse == [] then [] else [(Some(c2), e)] + Governed(orelse, Some(e));
    assert [b][1..] == [];
    assert GovernedBranches([b], c1) == [(Some(c1), c2)] + gb + [];
    assert LastCond(c1, [b]) == c2 by {
      assert LastCond(c1, [b]) == LastCond(c2, []);
    }
    assert Governed([s], None) == [(None, c1)] + (Governed(body, Some(c1)) + ([(Some(c1), c2)] + (gb + rest))) by {
      assert Governed([s], None) == GovernedStmt(s, None) + [];
    }
    var d1, d2 := Under(c1, body), Under(c2, b.body);
    var d3 := if orelse == [] then [] else [(c2, e)] + Under(e, orelse);
    GovernedAll(body, c1);
    GovernedAll(b.body, c2);
    assert Dependences(rest) == d3 by {
      if orelse != [] {
        GovernedAll(orelse, e);
        DependencesAppend([(Some(c2), e)], Governed(orelse, Some(e)));
      }
    }
    assert Dependences(gb + rest) == d2 + d3 by {
      DependencesAppend(gb, rest);
    }
    assert Dependences([(Some(c1), c2)] + (gb + rest)) == [(c1, c2)] + (d2 + d3) by {
      DependencesAppend([(Some(c1), c2)], gb + rest);
    }
    assert Dependences(Governed(body, Some(c1)) + ([(Some(c1), c2)] + (gb + rest))) == d1 + ([(c1, c2)] + (d2 + d3)) by {
      DependencesAppend(Governed(body, Some(c1)), [(Some(c1), c2)] + (gb + rest));
    }
    assert Dependences(Governed([s], None)) == d1 + ([(c1, c2)] + (d2 + d3)) by {
      DependencesAppend([(None, c1)], Governed(body, Some(c1)) + ([(Some(c1), c2)] + (gb + rest)));
    }
    Assoc4(d1, [(c1, c2)], d2, d3);
  }

  lemma Assoc4<T>(a: seq<T>, b: seq<T>, c: seq<T>, d: seq<T>)
    ensures a + (b + (c + d)) == a + b + c + d
  {
  }

  /** The `except` headers of a `try` form a chain: the first depends on the
      header that governs the `try`, and every later one on the `except`
      header before it. */
  lemma {:induction false} ExceptChain(hs: seq<Handler>, gov: Option<Node>)
    ensures hs != [] ==> (gov, ExceptHead(hs[0].loc)) in GovernedHandlers(hs, gov)
    ensures forall k :: 1 <= k < |hs| ==>
      (Some(ExceptHead(hs[k - 1].loc)), ExceptHead(hs[k].loc)) in GovernedHandlers(hs, gov)
    decreases hs
  {
    if hs != [] {
      var head := ExceptHead(hs[0].loc);
      var rest := GovernedHandlers(hs[1..], Some(head));
      assert GovernedHandlers(hs, gov) == [(gov, head)] + Governed(hs[0].body, Some(head)) + rest;
      ExceptChain(hs[1..], Some(head));
      forall k | 1 <= k < |hs|
        ensures (Some(ExceptHead(hs[k - 1].loc)), ExceptHead(hs[k].loc)) in GovernedHandlers(hs, gov)
      {
        if k > 1 {
          assert hs[1..][k - 2] == hs[k - 1] && hs[1..][k - 1] == hs[k];
        }
      }
    }
  }

  /** Control dependences of a `try`: each `except` header after the first
      depends on the `except` header before it. */
  lemma ExceptDependences(body: seq<Stmt>, hs: seq<Handler>, loc: Location, control: Option<Node>)
    ensures forall k :: 1 <= k < |hs| ==>
      (ExceptHead(hs[k - 1].loc), ExceptHead(hs[k].loc)) in Dependences(Governed([Try(body, hs, loc)], control))
  {
    var t := Try(body, hs, loc);
    assert [t][1..] == [];
    assert Governed([t], control) == Governed(body, control) + GovernedHandlers(hs, control) + [];
    ExceptChain(hs, control);
  }

  /** Every statement of a simple loop body depends on the loop header. */
  lemma ForBodyDependences(target: Expr, iter: Expr, body: seq<Stmt>, loc: Location)
    requires forall k :: 0 <= k < |body| ==> !Compound(body[k])
    ensures Dependences(Governed([For(target, iter, body, loc)], None)) == Under(ForHead(target, iter, loc), body)
  {
    var head := ForHead(target, iter, loc);
    GovernedAll(body, head);
    assert Governed([For(target, iter, body, loc)], None) == [(None, head)] + Governed(body, Some(head)) by {
      assert Governed([For(target, iter, body, loc)], None) == GovernedStmt(For(target, iter, body, loc), None) + [];
    }
    DependencesAppend([(None, head)], Governed(body, Some(head)));
  }

  lemma {:induction false} GovernedAll(body: seq<Stmt>, h: Node)
    requires forall k :: 0 <= k < |body| ==> !Compound(body[k])
    ensures Dependences(Governed(body, Some(h))) == Under(h, body)
    decreases |body|
  {
    SimpleGoverned(body, Some(h));
    if body != [] {
      GovernedAll(body[1..], h);
      SimpleGoverned(body[1..], Some(h));
      assert Governed(body, Some(h))[1..] == Governed(body[1..], Some(h));
    }
  }

  /** Statements after a compound statement, at the join, depend on nothing:
      only the compound statement contributes dependences. */
  lemma JoinIndependent(s: Stmt, rest: seq<Stmt>)
    requires forall k :: 0 <= k < |rest| ==> !Compound(rest[k])
    ensures Dependences(Governed([s] + rest, None)) == Dependences(GovernedStmt(s, None))
  {
    assert ([s] + rest)[1..] == rest;
    StraightLineIndependent(rest);
    DependencesAppend(GovernedStmt(s, None), Governed(rest, None));
  }

  // ---------------------------------------------------------------------
  // Queries

  /** The positions from `lo` on of the edges into block `b`, in increasing order. */
  ghost function EdgesInto(es: seq<(nat, nat)>, b: nat, lo: nat): (r: seq<nat>)
    requires lo <= |es|
    ensures forall i :: 0 <= i < |r| ==> lo <= r[i] < |es|
    ensures forall i, j :: 0 <= i < j < |r| ==> r[i] < r[j]
    ensures forall k :: k in r <==> lo <= k < |es| && es[k].1 == b
    decreases |es| - lo
  {
    if lo == |es| then []
    else
      var rest := EdgesInto(es, b, lo + 1);
      if es[lo].1 == b then [lo] + rest else rest
  }

  /** The blocks with an edge to block `b`, in the order the edges were added:
      the sources of the edges into `b`, oldest first. */
  function Predecessors(g: Cfg, b: nat): (r: seq<Block>)
    requires WellFormed(g)
    ensures forall p :: p in r <==> p in g.blocks && (p.id, b) in g.edges
    ensures |r| == |EdgesInto(g.edges, b, 0)|
    ensures forall i :: 0 <= i < |r| ==> r[i] in g.blocks && r[i].id == g.edges[EdgesInto(g.edges, b, 0)[i]].0
  {
    assert g.edges[0..] == g.edges;
    PredecessorsFrom(g, b, 0)
  }

  function PredecessorsFrom(g: Cfg, b: nat, lo: nat): (r: seq<Block>)
    requires WellFormed(g) && lo <= |g.edges|
    ensures forall p :: p in r <==> p in g.blocks && (p.id, b) in g.edges[lo..]
    ensures |r| == |EdgesInto(g.edges, b, lo)|
    ensures forall i :: 0 <= i < |r| ==> r[i] in g.blocks && r[i].id == g.edges[EdgesInto(g.edges, b, lo)[i]].0
    decreases |g.edges| - lo
  {
    if lo == |g.edges| then []
    else
      var e := g.edges[lo];
      var rest := PredecessorsFrom(g, b, lo + 1);
      assert e in g.edges;
      assert forall x :: x in g.edges[lo..] <==> x == e || x in g.edges[lo + 1..];
      if e.1 == b then
        assert EdgesInto(g.edges, b, lo) == [lo] + EdgesInto(g.edges, b, lo + 1);
        SourcesCons(g, lo, g.blocks[e.0], rest, EdgesInto(g.edges, b, lo), EdgesInto(g.edges, b, lo + 1));
        [g.blocks[e.0]] + rest
      else
        assert EdgesInto(g.edges, b, lo) == EdgesInto(g.edges, b, lo + 1);
        rest
  }

  /** Prepending the source of edge `lo` to a list of edge sources. */
  lemma SourcesCons(g: Cfg, lo: nat, x: Block, rest: seq<Block>, ks: seq<nat>, ks': seq<nat>)
    requires lo < |g.edges| && ks == [lo] + ks'
    requires x in g.blocks && x.id == g.edges[lo].0
    requires |rest| == |ks'|
    requires forall i :: 0 <= i < |ks'| ==> ks'[i] < |g.edges|
    requires forall i :: 0 <= i < |rest| ==> rest[i] in g.blocks && rest[i].id == g.edges[ks'[i]].0
    ensures |[x] + rest| == |ks|
    ensures forall i :: 0 <= i < |[x] + rest| ==> ([x] + rest)[i] in g.blocks && ([x] + rest)[i].id == g.edges[ks[i]].0
  {
    forall i | 0 <= i < |[x] + rest|
      ensures ([x] + rest)[i] in g.blocks && ([x] + rest)[i].id == g.edges[ks[i]].0
    {
      if i > 0 {
        assert ([x] + rest)[i] == rest[i - 1] && ks[i] == ks'[i - 1];
      }
    }
  }

  /** The blocks whose hint is `hint`, in order. */
  function BlocksWithHint(bs: seq<Block>, hint: string): (r: seq<Block>)
    ensures forall b :: b in r <==> b in bs && b.hint == hint
    decreases |bs|
  {
    if bs == [] then []
    else
      var rest := BlocksWithHint(bs[1..], hint);
      assert forall b :: b in bs <==> b == bs[0] || b in bs[1..];
      if bs[0].hint == hint then [bs[0]] + rest else rest
  }

  lemma {:induction false} DependencesAppend(a: seq<(Option<Node>, Node)>, b: seq<(Option<Node>, Node)>)
    ensures Dependences(a + b) == Dependences(a) + Dependences(b)
    decreases |a|
  {
    if a == [] {
      assert a + b == b;
    } else {
      assert (a + b)[1..] == a[1..] + b;
      DependencesAppend(a[1..], b);
    }
  }

  lemma {:induction false} Ungoverned(ps: seq<(Option<Node>, Node)>)
    requires forall k :: 0 <= k < |ps| ==> ps[k].0.None?
    ensures Dependences(ps) == []
    decreases |ps|
  {
    if ps != [] {
      Ungoverned(ps[1..]);
    }
  }

  /** When every statement has a header, each gives one dependence, in order. */
  lemma {:induction false} AllGoverned(ps: seq<(Option<Node>, Node)>)
    requires forall k :: 0 <= k < |ps| ==> ps[k].0.Some?
    ensures Dependences(ps) == seq(|ps|, k requires 0 <= k < |ps| => (ps[k].0.value, ps[k].1))
    decreases |ps|
  {
    if ps != [] {
      AllGoverned(ps[1..]);
    }
  }

  /** The graph a module or a function body is analysed with. */
  class ControlFlowGraph {
    var blocks: seq<Block>
    var successors: seq<(nat, nat)>

    function State(): Cfg
      reads this
    {
      Cfg(blocks, successors)
    }

    ghost predicate Valid()
      reads this
    {
      WellFormed(State())
    }

    /** The graph of a module's code. */
    constructor OfModule(code: seq<Stmt>)
      ensures State() == Build(code) && Valid()
    {
      blocks := [];
      successors := [];
      new;
      assert State() == Empty;
      MakeCfg("entry", code, None);
      assert State() == Build(code);
      BuildHolds(code);
    }

    /** The graph of a function's body. */
    constructor OfDef(d: Stmt)
      requires d.Def?
      ensures State() == Build(d.body) && Valid()
    {
      blocks := [];
      successors := [];
      new;
      assert State() == Empty;
      MakeCfg("entry", d.body, None);
      assert State() == Build(d.body);
      BuildHolds(d.body);
    }

    method MakeBlock(hint: string, statements: seq<Node>, control: Option<Node>) returns (id: nat)
      modifies this
      ensures State() == WithBlock(old(State()), hint, statements, control) && id == |old(blocks)|
    {
      id := |blocks|;
      blocks := blocks + [Block(id, hint, statements, control)];
    }

    method Link(from: nat, to: nat)
      modifies this
      ensures State() == WithEdge(old(State()), from, to)
    {
      successors := successors + [(from, to)];
    }

    method LinkAll(froms: seq<nat>, to: nat)
      modifies this
      ensures State() == WithEdges(old(State()), froms, to)
    {
      var i := 0;
      while i < |froms|
        invariant 0 <= i <= |froms|
        invariant WithEdges(State(), froms[i..], to) == WithEdges(old(State()), froms, to)
      {
        assert froms[i..][1..] == froms[i + 1..];
        Link(froms[i], to);
        i := i + 1;
      }
    }

    /** Builds the blocks of `ss` starting with a fresh block; the last block
        made is the exit. */
    method MakeCfg(hint: string, ss: seq<Stmt>, control: Option<Node>)
      modifies this
      ensures State() == Body(old(State()), hint, ss, control)
      decreases ss, 3
    {
      var entry := MakeBlock(hint, [], control);
      assert ss[0..] == ss;
      var i := 0;
      while i < |ss|
        invariant 0 <= i <= |ss| && blocks != []
        invariant Stmts(State(), ss[i..], control) == Body(old(State()), hint, ss, control)
      {
        assert ss[i..][1..] == ss[i + 1..];
        HandleStatement(ss[i], control);
        i := i + 1;
      }
    }

    method HandleStatement(s: Stmt, control: Option<Node>)
      requires blocks != []
      modifies this
      ensures State() == Step(old(State()), s, control)
      decreases s, 3
    {
      if s.If? {
        HandleIf(s, control);
      } else if s.For? {
        HandleFor(s, control);
      } else if s.Try? {
        HandleTry(s, control);
      } else {
        var k := |blocks| - 1;
        blocks := blocks[k := blocks[k].(statements := blocks[k].statements + [Plain(s)])];
      }
    }

    method HandleIf(s: Stmt, control: Option<Node>)
      requires blocks != [] && s.If?
      modifies this
      ensures State() == IfCfg(old(State()), s, control)
      decreases s, 2
    {
      var lastCond, lastNode, exits := StartIf(s, control);
      var i := 0;
      while i < |s.elifs|
        invariant 0 <= i <= |s.elifs|
        invariant Elifs(Chain(State(), lastCond, lastNode, exits), s.elifs[i..])
          == Elifs(IfStart(old(State()), s, control), s.elifs)
      {
        assert s.elifs[i..][1..] == s.elifs[i + 1..];
        lastCond, lastNode, exits := AddElif(s.elifs[i], lastCond, lastNode, exits);
        i := i + 1;
      }
      assert s.elifs[i..] == [];
      if s.orelse != [] {
        lastCond, lastNode, exits := AddElse(s.orelse, s.elseLoc, lastCond, lastNode, exits);
      }
      ghost var ch := Alternatives(old(State()), s, control);
      assert Chain(State(), lastCond, lastNode, exits) == ch;
      var joinId := MakeBlock("conditional join", [], control);
      LinkAll(exits, joinId);
      ghost var joined := JoinBlock(ch.g, ch.exits, "conditional join", control);
      assert State() == joined && joinId == LastId(joined);
      if s.orelse == [] {
        Link(lastCond, joinId);
        assert State() == WithEdge(joined, ch.lastCond, LastId(joined));
      }
    }

    method StartIf(s: Stmt, control: Option<Node>) returns (lastCond: nat, lastNode: Node, exits: seq<nat>)
      requires blocks != [] && s.If?
      modifies this
      ensures Chain(State(), lastCond, lastNode, exits) == IfStart(old(State()), s, control)
      decreases s, 1
    {
      var cond := Cond(s.test, s.loc);
      var last := |blocks| - 1;
      var condId := MakeBlock("if cond", [cond], control);
      Link(last, condId);
      var bodyEntry := |blocks|;
      MakeCfg("if body", s.body, Some(cond));
      exits := [|blocks| - 1];
      Link(condId, bodyEntry);
      lastCond, lastNode := condId, cond;
    }

    method AddElif(b: Branch, lastCond0: nat, lastNode0: Node, exits0: seq<nat>)
      returns (lastCond: nat, lastNode: Node, exits: seq<nat>)
      modifies this
      ensures Chain(State(), lastCond, lastNode, exits) == Elif(Chain(old(State()), lastCond0, lastNode0, exits0), b)
      decreases b, 0
    {
      var cond := Cond(b.test, b.loc);
      var condId := MakeBlock("elif cond", [cond], Some(lastNode0));
      Link(lastCond0, condId);
      var bodyEntry := |blocks|;
      MakeCfg("elif body", b.body, Some(cond));
      exits := exits0 + [|blocks| - 1];
      Link(condId, bodyEntry);
      lastCond, lastNode := condId, cond;
    }

    method AddElse(orelse: seq<Stmt>, elseLoc: Location, lastCond0: nat, lastNode0: Node, exits0: seq<nat>)
      returns (lastCond: nat, lastNode: Node, exits: seq<nat>)
      modifies this
      ensures Chain(State(), lastCond, lastNode, exits)
        == ElseCfg(Chain(old(State()), lastCond0, lastNode0, exits0), orelse, elseLoc)
      decreases orelse, 4
    {
      var head := ElseHead(elseLoc);
      var elseId := MakeBlock("else cond", [head], Some(lastNode0));
      Link(lastCond0, elseId);
      var bodyEntry := |blocks|;
      MakeCfg("else body", orelse, Some(head));
      exits := exits0 + [|blocks| - 1];
      Link(elseId, bodyEntry);
      lastCond, lastNode := elseId, head;
    }

    method HandleFor(s: Stmt, control: Option<Node>)
      requires blocks != [] && s.For?
      modifies this
      ensures State() == ForCfg(old(State()), s, control)
      decreases s, 2
    {
      ghost var g := State();
      var head := ForHead(s.target, s.iter, s.loc);
      var last := |blocks| - 1;
      var headId := MakeBlock("for loop head", [head], control);
      Link(last, headId);
      ghost var g1 := State();
      assert g1 == WithEdge(WithBlock(g, "for loop head", [head], control), LastId(g), headId);
      var bodyEntry := |blocks|;
      MakeCfg("for body", s.body, Some(head));
      ghost var g2 := State();
      Link(headId, bodyEntry);
      Link(|blocks| - 1, headId);
      ghost var g3 := State();
      assert g3 == WithEdge(WithEdge(g2, headId, |g1.blocks|), LastId(g2), headId);
      var joinId := MakeBlock("for loop join", [], control);
      Link(headId, joinId);
      SingleEdge(WithBlock(g3, "for loop join", [], control), headId, joinId);
    }

    method HandleTry(s: Stmt, control: Option<Node>)
      requires blocks != [] && s.Try?
      modifies this
      ensures State() == TryCfg(old(State()), s, control)
      decreases s, 2
    {
      ghost var a := TryStart(State(), s, control);
      ghost var a' := Handlers(a, s.handlers, LastId(a.g), control);
      assert TryCfg(State(), s, control) == JoinBlock(a'.g, a'.exits, "try join", control);
      var handlersId, exits := StartTry(s, control);
      assert handlersId == LastId(a.g);
      var i, gov := 0, control;
      while i < |s.handlers|
        invariant 0 <= i <= |s.handlers|
        invariant Handlers(Arm(State(), exits), s.handlers[i..], handlersId, gov) == a'
      {
        assert s.handlers[i..][1..] == s.handlers[i + 1..];
        exits := AddHandler(s.handlers[i], handlersId, gov, exits);
        gov := Some(ExceptHead(s.handlers[i].loc));
        i := i + 1;
      }
      assert s.handlers[i..] == [];
      assert Arm(State(), exits) == a';
      var joinId := MakeBlock("try join", [], control);
      LinkAll(exits, joinId);
    }

    method StartTry(s: Stmt, control: Option<Node>) returns (handlersId: nat, exits: seq<nat>)
      requires blocks != [] && s.Try?
      modifies this
      ensures Arm(State(), exits) == TryStart(old(State()), s, control)
      ensures blocks != [] && handlersId == |blocks| - 1
      decreases s, 1
    {
      var last := |blocks| - 1;
      var tryId := |blocks|;
      MakeCfg("try body", s.body, control);
      Link(last, tryId);
      exits := [|blocks| - 1];
      handlersId := MakeBlock("handlers", [], control);
      LinkAll(Range(tryId, handlersId), handlersId);
    }

    method AddHandler(h: Handler, handlersId: nat, gov: Option<Node>, exits0: seq<nat>) returns (exits: seq<nat>)
      modifies this
      ensures Arm(State(), exits) == HandlerCfg(Arm(old(State()), exits0), h, handlersId, gov)
      decreases h, 0
    {
      var head := ExceptHead(h.loc);
      var exceptId := MakeBlock("except cond", [head], gov);
      Link(handlersId, exceptId);
      var bodyEntry := |blocks|;
      MakeCfg("handler body", h.body, Some(head));
      exits := exits0 + [|blocks| - 1];
      Link(exceptId, bodyEntry);
    }

    /** The blocks with an edge into `block`, oldest edge first. */
    function GetPredecessors(block: Block): (r: seq<Block>)
      reads this
      requires Valid()
      ensures forall p :: p in r <==> p in blocks && (p.id, block.id) in successors
      ensures |r| == |EdgesInto(successors, block.id, 0)|
      ensures forall i :: 0 <= i < |r| ==> r[i] in blocks && r[i].id == successors[EdgesInto(successors, block.id, 0)[i]].0
    {
      Predecessors(State(), block.id)
    }

    /** Calls back with (header, statement) for every statement that depends
        on a header, block by block; the calls are returned in order. */
    method VisitControlDependencies() returns (deps: seq<(Node, Node)>)
      ensures deps == Dependences(Pairs(blocks))
    {
      deps := [];
      var i := 0;
      while i < |blocks|
        invariant 0 <= i <= |blocks|
        invariant deps == Dependences(Pairs(blocks[..i]))
      {
        assert blocks[..i + 1][..i] == blocks[..i];
        DependencesAppend(Pairs(blocks[..i]), BlockPairs(blocks[i]));
        var more := VisitBlock(blocks[i]);
        deps := deps + more;
        i := i + 1;
      }
      assert blocks[..|blocks|] == blocks;
    }
  }

  /** The calls for the statements of one block. */
  method VisitBlock(b: Block) returns (deps: seq<(Node, Node)>)
    ensures deps == Dependences(BlockPairs(b))
  {
    deps := [];
    if b.control.Some? {
      var j := 0;
      while j < |b.statements|
        invariant 0 <= j <= |b.statements|
        invariant deps == Dependences(BlockPairs(b)[..j])
      {
        assert BlockPairs(b)[..j + 1] == BlockPairs(b)[..j] + [(b.control, b.statements[j])];
        DependencesAppend(BlockPairs(b)[..j], [(b.control, b.statements[j])]);
        deps := deps + [(b.control.value, b.statements[j])];
        j := j + 1;
      }
      assert BlockPairs(b)[..|b.statements|] == BlockPairs(b);
    } else {
      Ungoverned(BlockPairs(b));
    }
  }
}
