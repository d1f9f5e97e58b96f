/** The statement tree the Python parser hands to the analyses, reduced to the
    shapes the data-flow and control-flow code distinguish. Every statement
    carries its location; compound statements carry the location of their
    header (`if c:`, `elif c:`, `else:`, `for x in e:`, `except:`). */
module Syntax {
  import opened Locations

  datatype Expr =
    | Name(id: string)
    | Literal
    | Call(callee: Expr, args: seq<Expr>)
    | Attribute(value: Expr, attr: string)
    | Subscript(value: Expr, index: Expr)
    /** Operators, tuples and lists: an expression built from operands. */
    | Operation(operands: seq<Expr>)

  /** A `"""defs: [...]"""%magic` declaration: a name and a position relative
      to the line of the statement that declares it. */
  datatype MagicDecl = MagicDecl(name: string, pos: Location)

  datatype Stmt =
    | Assign(targets: seq<Expr>, value: Expr, loc: Location)
    | AugAssign(target: Expr, value: Expr, loc: Location)
    | Import(names: seq<string>, loc: Location)
    | Def(name: string, params: seq<string>, body: seq<Stmt>, loc: Location)
    | Class(name: string, bases: seq<Expr>, body: seq<Stmt>, loc: Location)
    | ExprStmt(expr: Expr, loc: Location)
    | Return(value: Expr, loc: Location)
    | Pass(loc: Location)
    | Annotation(decls: seq<MagicDecl>, loc: Location)
    /** `if test: body`, then the `elif` branches, then `else: orelse` when `orelse` is non-empty. */
    | If(test: Expr, body: seq<Stmt>, elifs: seq<Branch>, orelse: seq<Stmt>, elseLoc: Location, loc: Location)
    | For(target: Expr, iter: Expr, body: seq<Stmt>, loc: Location)
    | Try(body: seq<Stmt>, handlers: seq<Handler>, loc: Location)

  datatype Branch = Branch(test: Expr, body: seq<Stmt>, loc: Location)
  datatype Handler = Handler(body: seq<Stmt>, loc: Location)

  /** The statements a control-flow graph holds: simple statements as they
      are, and for compound statements their headers. */
  datatype Node =
    | Plain(stmt: Stmt)
    | Cond(test: Expr, loc: Location)
    | ElseHead(loc: Location)
    | ForHead(target: Expr, iter: Expr, loc: Location)
    | ExceptHead(loc: Location)

  predicate Compound(s: Stmt) {
    s.If? || s.For? || s.Try?
  }

  function NodeLoc(n: Node): Location {
    match n
    case Plain(s) => s.loc
    case Cond(_, loc) => loc
    case ElseHead(loc) => loc
    case ForHead(_, _, loc) => loc
    case ExceptHead(loc) => loc
  }

  /** The nodes of a statement list in source order, headers before the
      statements they govern; `def` and `class` bodies are not entered. */
  function Nodes(ss: seq<Stmt>): (r: seq<Node>)
    ensures forall n :: n in r && n.Plain? ==> !Compound(n.stmt)
    decreases ss
  {
    if ss == [] then [] else StmtNodes(ss[0]) + Nodes(ss[1..])
  }

  function StmtNodes(s: Stmt): (r: seq<Node>)
    ensures forall n :: n in r && n.Plain? ==> !Compound(n.stmt)
    decreases s
  {
    match s
    case If(test, body, elifs, orelse, elseLoc, loc) =>
      [Cond(test, loc)] + Nodes(body) + BranchNodes(elifs)
        + (if orelse == [] then [] else [ElseHead(elseLoc)] + Nodes(orelse))
    case For(target, iter, body, loc) => [ForHead(target, iter, loc)] + Nodes(body)
    case Try(body, handlers, _) => Nodes(body) + HandlerNodes(handlers)
    case _ => [Plain(s)]
  }

  function BranchNodes(bs: seq<Branch>): (r: seq<Node>)
    ensures forall n :: n in r && n.Plain? ==> !Compound(n.stmt)
    decreases bs
  {
    if bs == [] then [] else [Cond(bs[0].test, bs[0].loc)] + Nodes(bs[0].body) + BranchNodes(bs[1..])
  }

  function HandlerNodes(hs: seq<Handler>): (r: seq<Node>)
    ensures forall n :: n in r && n.Plain? ==> !Compound(n.stmt)
    decreases hs
  {
    if hs == [] then [] else [ExceptHead(hs[0].loc)] + Nodes(hs[0].body) + HandlerNodes(hs[1..])
  }

  /** Moves a statement and everything inside it down by `delta` lines. */
  function ShiftStmt(s: Stmt, delta: int): (r: Stmt)
    ensures r.loc == Shift(s.loc, delta)
    decreases s
  {
    match s
    case Assign(targets, value, loc) => Assign(targets, value, Shift(loc, delta))
    case AugAssign(target, value, loc) => AugAssign(target, value, Shift(loc, delta))
    case Import(names, loc) => Import(names, Shift(loc, delta))
    case Def(name, params, body, loc) => Def(name, params, ShiftStmts(body, delta), Shift(loc, delta))
    case Class(name, bases, body, loc) => Class(name, bases, ShiftStmts(body, delta), Shift(loc, delta))
    case ExprStmt(e, loc) => ExprStmt(e, Shift(loc, delta))
    case Return(e, loc) => Return(e, Shift(loc, delta))
    case Pass(loc) => Pass(Shift(loc, delta))
    case Annotation(decls, loc) => Annotation(decls, Shift(loc, delta))
    case If(test, body, elifs, orelse, elseLoc, loc) =>
      If(test, ShiftStmts(body, delta), ShiftBranches(elifs, delta), ShiftStmts(orelse, delta),
         Shift(elseLoc, delta), Shift(loc, delta))
    case For(target, iter, body, loc) => For(target, iter, ShiftStmts(body, delta), Shift(loc, delta))
    case Try(body, handlers, loc) => Try(ShiftStmts(body, delta), ShiftHandlers(handlers, delta), Shift(loc, delta))
  }

  function ShiftStmts(ss: seq<Stmt>, delta: int): (r: seq<Stmt>)
    ensures |r| == |ss|
    ensures forall i :: 0 <= i < |ss| ==> r[i] == ShiftStmt(ss[i], delta)
    decreases ss
  {
    if ss == [] then [] else [ShiftStmt(ss[0], delta)] + ShiftStmts(ss[1..], delta)
  }

  function ShiftBranches(bs: seq<Branch>, delta: int): (r: seq<Branch>)
    ensures |r| == |bs|
    decreases bs
  {
    if bs == [] then []
    else [Branch(bs[0].test, ShiftStmts(bs[0].body, delta), Shift(bs[0].loc, delta))] + ShiftBranches(bs[1..], delta)
  }

  function ShiftHandlers(hs: seq<Handler>, delta: int): (r: seq<Handler>)
    ensures |r| == |hs|
    decreases hs
  {
    if hs == [] then []
    else [Handler(ShiftStmts(hs[0].body, delta), Shift(hs[0].loc, delta))] + ShiftHandlers(hs[1..], delta)
  }

  /** Shifting by `delta` and then by `-delta` gives the statement back. */
  lemma {:induction false} ShiftStmtBack(s: Stmt, delta: int)
    ensures ShiftStmt(ShiftStmt(s, delta), -delta) == s
    decreases s
  {
    ShiftBack(s.loc, delta);
    match s
    case Def(name, params, body, loc) =>
      assert ShiftStmt(s, delta) == Def(name, params, ShiftStmts(body, delta), Shift(loc, delta));
      ShiftStmtsBack(body, delta);
    case Class(name, bases, body, loc) =>
      assert ShiftStmt(s, delta) == Class(name, bases, ShiftStmts(body, delta), Shift(loc, delta));
      ShiftStmtsBack(body, delta);
    case If(test, body, elifs, orelse, elseLoc, loc) =>
      assert ShiftStmt(s, delta) == If(test, ShiftStmts(body, delta), ShiftBranches(elifs, delta),
        ShiftStmts(orelse, delta), Shift(elseLoc, delta), Shift(loc, delta));
      ShiftBack(elseLoc, delta);
      ShiftStmtsBack(body, delta);
      ShiftBranchesBack(elifs, delta);
      ShiftStmtsBack(orelse, delta);
    case For(target, iter, body, loc) =>
      assert ShiftStmt(s, delta) == For(target, iter, ShiftStmts(body, delta), Shift(loc, delta));
      ShiftStmtsBack(body, delta);
    case Try(body, handlers, loc) =>
      assert ShiftStmt(s, delta) == Try(ShiftStmts(body, delta), ShiftHandlers(handlers, delta), Shift(loc, delta));
      ShiftStmtsBack(body, delta);
      ShiftHandlersBack(handlers, delta);
    case _ =>
  }

  lemma {:induction false} ShiftStmtsBack(ss: seq<Stmt>, delta: int)
    ensures ShiftStmts(ShiftStmts(ss, delta), -delta) == ss
    decreases ss
  {
    if ss != [] {
      ShiftStmtBack(ss[0], delta);
      ShiftStmtsBack(ss[1..], delta);
      assert ShiftStmts(ss, delta)[1..] == ShiftStmts(ss[1..], delta);
    }
  }

  lemma {:induction false} ShiftBranchesBack(bs: seq<Branch>, delta: int)
    ensures ShiftBranches(ShiftBranches(bs, delta), -delta) == bs
    decreases bs
  {
    if bs != [] {
      ShiftStmtsBack(bs[0].body, delta);
      ShiftBranchesBack(bs[1..], delta);
      assert ShiftBranches(bs, delta)[1..] == ShiftBranches(bs[1..], delta);
    }
  }

  lemma {:induction false} ShiftHandlersBack(hs: seq<Handler>, delta: int)
    ensures ShiftHandlers(ShiftHandlers(hs, delta), -delta) == hs
    decreases hs
  {
    if hs != [] {
      ShiftStmtsBack(hs[0].body, delta);
      ShiftHandlersBack(hs[1..], delta);
      assert ShiftHandlers(hs, delta)[1..] == ShiftHandlers(hs[1..], delta);
    }
  }
}
