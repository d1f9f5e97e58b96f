/** The per-statement part of the data-flow analysis (data-flow.ts): which
    names a statement defines or updates (`getDefs`) and which it reads
    (`getUses`). Calls are resolved against a spec table: a call with a spec
    updates exactly the argument positions it lists; a function call without
    one is taken to update every name passed to it, and a method call
    without one to update its receiver. */
module DataFlow {
  import opened Util
  import opened Locations
  import opened Syntax
  import opened Specs

  datatype SymbolType = VariableSymbol | FunctionSymbol | ClassSymbol | ImportSymbol | MagicSymbol

  /** A definition replaces a name's value; an update changes it in place. */
  datatype ReferenceType = Definition | Update | Use

  /** A reference to a name, located at the statement (or header) it occurs in. */
  datatype Ref = Ref(kind: SymbolType, name: string, level: ReferenceType, location: Location,
                     inferredType: Option<TypeSpec>)

  function UpdateRef(x: string, loc: Location): Ref {
    Ref(VariableSymbol, x, Update, loc, None)
  }

  // ---------------------------------------------------------------- uses

  /** The names an expression reads. */
  function ExprUses(e: Expr): (r: set<string>)
    ensures e.Name? ==> e.id in r
    decreases e
  {
    match e
    case Name(x) => {x}
    case Literal => {}
    case Call(callee, args) => ExprUses(callee) + ExprsUses(args)
    case Attribute(v, _) => ExprUses(v)
    case Subscript(v, i) => ExprUses(v) + ExprUses(i)
    case Operation(ops) => ExprsUses(ops)
  }

  function ExprsUses(es: seq<Expr>): (r: set<string>)
    ensures forall k :: 0 <= k < |es| ==> ExprUses(es[k]) <= r
    ensures forall x :: x in r ==> exists k :: 0 <= k < |es| && x in ExprUses(es[k])
    decreases es
  {
    if es == [] then {} else ExprUses(es[0]) + ExprsUses(es[1..])
  }

  /** The names an assignment target reads: none for a plain name, the
      object and index expressions for attribute and subscript targets. */
  function TargetUses(t: Expr): set<string>
    decreases t
  {
    match t
    case Name(_) => {}
    case Operation(ts) => TargetsUses(ts)
    case _ => ExprUses(t)
  }

  function TargetsUses(ts: seq<Expr>): set<string>
    decreases ts
  {
    if ts == [] then {} else TargetUses(ts[0]) + TargetsUses(ts[1..])
  }

  /** The names a target binds. */
  function TargetBound(t: Expr): set<string>
    decreases t
  {
    match t
    case Name(x) => {x}
    case Operation(ts) => TargetsBound(ts)
    case _ => {}
  }

  function TargetsBound(ts: seq<Expr>): set<string>
    decreases ts
  {
    if ts == [] then {} else TargetBound(ts[0]) + TargetsBound(ts[1..])
  }

  /** The names a statement list binds in its own scope (nested `def` and
      `class` bodies are other scopes). */
  function Locals(ss: seq<Stmt>): set<string>
    decreases ss
  {
    if ss == [] then {} else StmtLocals(ss[0]) + Locals(ss[1..])
  }

  function StmtLocals(s: Stmt): set<string>
    decreases s
  {
    match s
    case Assign(targets, _, _) => TargetsBound(targets)
    case AugAssign(target, _, _) => TargetBound(target)
    case Import(names, _) => set x | x in names
    case Def(name, _, _, _) => {name}
    case Class(name, _, _, _) => {name}
    case If(_, body, elifs, orelse, _, _) => Locals(body) + BranchesLocals(elifs) + Locals(orelse)
    case For(target, _, body, _) => TargetBound(target) + Locals(body)
    case Try(body, handlers, _) => Locals(body) + HandlersLocals(handlers)
    case _ => {}
  }

  function BranchesLocals(bs: seq<Branch>): set<string>
    decreases bs
  {
    if bs == [] then {} else Locals(bs[0].body) + BranchesLocals(bs[1..])
  }

  function HandlersLocals(hs: seq<Handler>): set<string>
    decreases hs
  {
    if hs == [] then {} else Locals(hs[0].body) + HandlersLocals(hs[1..])
  }

  /** The names a statement reads. A function reads what its body reads,
      except its parameters and the names its body binds. */
  function GetUses(s: Stmt): (r: set<string>)
    ensures s.Def? ==> forall x :: x in r <==> x in BodyUses(s.body) && x !in s.params && x !in Locals(s.body)
    ensures s.Class? ==> ExprsUses(s.bases) <= r && BodyUses(s.body) <= r
    ensures s.AugAssign? && s.target.Name? ==> s.target.id in r
    decreases s
  {
    match s
    case Assign(targets, value, _) => TargetsUses(targets) + ExprUses(value)
    case AugAssign(target, value, _) => ExprUses(target) + ExprUses(value)
    case Import(_, _) => {}
    case Def(_, params, body, _) => BodyUses(body) - (set p | p in params) - Locals(body)
    case Class(_, bases, body, _) => ExprsUses(bases) + BodyUses(body)
    case ExprStmt(e, _) => ExprUses(e)
    case Return(e, _) => ExprUses(e)
    case Pass(_) => {}
    case Annotation(_, _) => {}
    case If(test, body, elifs, orelse, _, _) =>
      ExprUses(test) + BodyUses(body) + BranchesUses(elifs) + BodyUses(orelse)
    case For(target, iter, body, _) => TargetUses(target) + ExprUses(iter) + BodyUses(body)
    case Try(body, handlers, _) => BodyUses(body) + HandlersUses(handlers)
  }

  function BodyUses(ss: seq<Stmt>): set<string>
    decreases ss
  {
    if ss == [] then {} else GetUses(ss[0]) + BodyUses(ss[1..])
  }

  function BranchesUses(bs: seq<Branch>): set<string>
    decreases bs
  {
    if bs == [] then {} else ExprUses(bs[0].test) + BodyUses(bs[0].body) + BranchesUses(bs[1..])
  }

  function HandlersUses(hs: seq<Handler>): set<string>
    decreases hs
  {
    if hs == [] then {} else BodyUses(hs[0].body) + HandlersUses(hs[1..])
  }

  /** The names a control-flow node reads. */
  function NodeUses(n: Node): set<string> {
    match n
    case Plain(s) => GetUses(s)
    case Cond(test, _) => ExprUses(test)
    case ForHead(target, iter, _) => TargetUses(target) + ExprUses(iter)
    case ElseHead(_) => {}
    case ExceptHead(_) => {}
  }

  function NodesUses(ns: seq<Node>): set<string>
    decreases |ns|
  {
    if ns == [] then {} else NodeUses(ns[0]) + NodesUses(ns[1..])
  }

  // ---------------------------------------------------------------- types

  /** The type of the latest definition of `x` among the references so far. */
  function VarType(x: string, prior: seq<Ref>): (r: Option<TypeSpec>)
    ensures r.Some? ==> exists k :: 0 <= k < |prior| && prior[k].name == x && prior[k].level == Definition
                                    && prior[k].inferredType == r
    decreases |prior|
  {
    if prior == [] then None
    else
      var last := prior[|prior| - 1];
      if last.name == x && last.level == Definition then last.inferredType
      else VarType(x, prior[..|prior| - 1])
  }

  /** The type an expression's value has: the declared result type of a
      function or method spec, the type itself when a type name is called,
      or the type of the variable named. */
  function TypeOf(e: Expr, prior: seq<Ref>, specs: SpecTable): (r: Option<TypeSpec>)
    ensures e.Name? ==> r == VarType(e.id, prior)
    ensures r.Some? && e.Call? && e.callee.Name? ==>
      r.value in specs.types.Values
  {
    match e
    case Name(x) => VarType(x, prior)
    case Call(Name(f), _) =>
      var declared := match Lookup(specs.functions, f) case Some(fs) => ReturnType(specs, fs) case None => None;
      if declared.Some? then declared
      else if f in specs.types then Some(specs.types[f])
      else None
    case Call(Attribute(Name(x), m), _) =>
      (match VarType(x, prior)
       case Some(t) => (match Lookup(t.methods, m) case Some(ms) => ReturnType(specs, ms) case None => None)
       case None => None)
    case _ => None
  }

  /** The spec of method `m` called on `recv`, when the receiver is a
      variable of a known type that lists the method. */
  function MethodSpec(recv: Expr, m: string, prior: seq<Ref>): Option<FunctionSpec> {
    if recv.Name? then
      match VarType(recv.id, prior)
      case Some(t) => Lookup(t.methods, m)
      case None => None
    else None
  }

  // ---------------------------------------------------------------- defs

  /** Updates of the named arguments at the listed 1-based positions. */
  function ArgUpdates(args: seq<Expr>, positions: seq<int>, loc: Location): (r: seq<Ref>)
    ensures forall ref :: ref in r <==>
      exists k :: 0 <= k < |positions| && 1 <= positions[k] <= |args| && args[positions[k] - 1].Name?
                  && ref == UpdateRef(args[positions[k] - 1].id, loc)
    decreases |positions|
  {
    if positions == [] then []
    else
      var p := positions[0];
      var r := (if 1 <= p <= |args| && args[p - 1].Name? then [UpdateRef(args[p - 1].id, loc)] else [])
               + ArgUpdates(args, positions[1..], loc);
      assert forall k :: 0 < k < |positions| ==> positions[k] == positions[1..][k - 1];
      r
  }

  /** A call without arguments updates none of them. */
  lemma {:induction false} NoArgUpdates(positions: seq<int>, loc: Location)
    ensures ArgUpdates([], positions, loc) == []
    decreases |positions|
  {
    if positions != [] {
      NoArgUpdates(positions[1..], loc);
    }
  }

  /** Updates of every argument that is a plain name. */
  function NameArgUpdates(args: seq<Expr>, loc: Location): (r: seq<Ref>)
    ensures forall ref :: ref in r <==>
      exists k :: 0 <= k < |args| && args[k].Name? && ref == UpdateRef(args[k].id, loc)
    decreases |args|
  {
    if args == [] then []
    else
      var r := (if args[0].Name? then [UpdateRef(args[0].id, loc)] else []) + NameArgUpdates(args[1..], loc);
      assert forall k :: 0 < k < |args| ==> args[k] == args[1..][k - 1];
      r
  }

  /** What a call itself (not the calls nested in it) updates. */
  function CallUpdates(callee: Expr, args: seq<Expr>, loc: Location, prior: seq<Ref>, specs: SpecTable): (r: seq<Ref>)
    ensures forall ref :: ref in r ==> ref == UpdateRef(ref.name, loc) && ref.name in ExprUses(callee) + ExprsUses(args)
  {
    assert forall k :: 0 <= k < |args| && args[k].Name? ==> args[k].id in ExprsUses(args) by {
      assert forall k :: 0 <= k < |args| && args[k].Name? ==> args[k].id in ExprUses(args[k]);
    }
    match callee
    case Name(f) =>
      (match Lookup(specs.functions, f)
       case Some(fs) => ArgUpdates(args, fs.updates, loc)
       case None => NameArgUpdates(args, loc))
    case Attribute(recv, m) =>
      (match MethodSpec(recv, m, prior)
       case Some(ms) => (if 0 in ms.updates && recv.Name? then [UpdateRef(recv.id, loc)] else []) + ArgUpdates(args, ms.updates, loc)
       case None => if recv.Name? then [UpdateRef(recv.id, loc)] else [])
    case _ => []
  }

  /** The updates every call inside an expression makes, inner calls first.
      They are updates of names the expression itself mentions. */
  function ExprEffects(e: Expr, loc: Location, prior: seq<Ref>, specs: SpecTable): (r: seq<Ref>)
    ensures forall ref :: ref in r ==> ref == UpdateRef(ref.name, loc) && ref.name in ExprUses(e)
    decreases e
  {
    match e
    case Name(_) => []
    case Literal => []
    case Call(callee, args) =>
      ExprEffects(callee, loc, prior, specs) + ExprsEffects(args, loc, prior, specs) + CallUpdates(callee, args, loc, prior, specs)
    case Attribute(v, _) => ExprEffects(v, loc, prior, specs)
    case Subscript(v, i) => ExprEffects(v, loc, prior, specs) + ExprEffects(i, loc, prior, specs)
    case Operation(ops) => ExprsEffects(ops, loc, prior, specs)
  }

  function ExprsEffects(es: seq<Expr>, loc: Location, prior: seq<Ref>, specs: SpecTable): (r: seq<Ref>)
    ensures forall ref :: ref in r ==> ref == UpdateRef(ref.name, loc) && ref.name in ExprsUses(es)
    decreases es
  {
    if es == [] then [] else ExprEffects(es[0], loc, prior, specs) + ExprsEffects(es[1..], loc, prior, specs)
  }

  /** The variable an attribute or subscript chain starts from. */
  function BaseName(e: Expr): (r: Option<string>)
    ensures r.Some? ==> r.value in ExprUses(e)
  {
    match e
    case Name(x) => Some(x)
    case Attribute(v, _) => BaseName(v)
    case Subscript(v, _) => BaseName(v)
    case _ => None
  }

  function BaseUpdate(e: Expr, loc: Location): seq<Ref> {
    match BaseName(e)
    case Some(x) => [UpdateRef(x, loc)]
    case None => []
  }

  /** What assigning to a target defines: a plain name is (re)defined with
      the value's type; assigning to an attribute or an item only updates the
      object it belongs to. */
  function TargetDefs(t: Expr, loc: Location, ty: Option<TypeSpec>): (r: seq<Ref>)
    ensures forall ref :: ref in r ==> ref.location == loc && ref.kind == VariableSymbol
    ensures forall ref :: ref in r && ref.level == Definition ==> ref.name in TargetBound(t)
    ensures forall ref :: ref in r && ref.level != Definition ==> ref.name in TargetUses(t)
    decreases t
  {
    match t
    case Name(x) => [Ref(VariableSymbol, x, Definition, loc, ty)]
    case Attribute(v, _) => BaseUpdate(v, loc)
    case Subscript(v, _) => BaseUpdate(v, loc)
    case Operation(ts) => TargetsDefs(ts, loc, None)
    case _ => []
  }

  function TargetsDefs(ts: seq<Expr>, loc: Location, ty: Option<TypeSpec>): (r: seq<Ref>)
    ensures forall ref :: ref in r ==> ref.location == loc && ref.kind == VariableSymbol
    ensures forall ref :: ref in r && ref.level == Definition ==> ref.name in TargetsBound(ts)
    ensures forall ref :: ref in r && ref.level != Definition ==> ref.name in TargetsUses(ts)
    decreases ts
  {
    if ts == [] then [] else TargetDefs(ts[0], loc, ty) + TargetsDefs(ts[1..], loc, ty)
  }

  /** A magic annotation's position is relative to the line of the statement
      that carries it. */
  function MagicDefs(decls: seq<MagicDecl>, loc: Location): (r: seq<Ref>)
    ensures |r| == |decls|
    ensures forall k :: 0 <= k < |decls| ==>
      r[k] == Ref(MagicSymbol, decls[k].name, Definition, Shift(decls[k].pos, loc.firstLine), None)
    decreases |decls|
  {
    if decls == [] then []
    else [Ref(MagicSymbol, decls[0].name, Definition, Shift(decls[0].pos, loc.firstLine), None)]
         + MagicDefs(decls[1..], loc)
  }

  function ImportDefs(names: seq<string>, loc: Location): (r: seq<Ref>)
    ensures |r| == |names|
    ensures forall k :: 0 <= k < |names| ==> r[k] == Ref(ImportSymbol, names[k], Definition, loc, None)
    decreases |names|
  {
    if names == [] then [] else [Ref(ImportSymbol, names[0], Definition, loc, None)] + ImportDefs(names[1..], loc)
  }

  /** What a simple statement defines, in order; `prior` holds the
      references made before it, which give variables their types. */
  function SimpleDefs(s: Stmt, prior: seq<Ref>, specs: SpecTable): seq<Ref> {
    match s
    case Assign(targets, value, loc) =>
      TargetsDefs(targets, loc, TypeOf(value, prior, specs))
        + ExprsEffects(targets, loc, prior, specs) + ExprEffects(value, loc, prior, specs)
    case AugAssign(target, value, loc) =>
      BaseUpdate(target, loc) + ExprEffects(target, loc, prior, specs) + ExprEffects(value, loc, prior, specs)
    case Import(names, loc) => ImportDefs(names, loc)
    case Def(name, _, _, loc) => [Ref(FunctionSymbol, name, Definition, loc, None)]
    case Class(name, _, _, loc) => [Ref(ClassSymbol, name, Definition, loc, None)]
    case ExprStmt(e, loc) => ExprEffects(e, loc, prior, specs)
    case Return(e, loc) => ExprEffects(e, loc, prior, specs)
    case Annotation(decls, loc) => MagicDefs(decls, loc)
    case _ => []
  }

  /** What a control-flow node defines. */
  function NodeDefs(n: Node, prior: seq<Ref>, specs: SpecTable): seq<Ref> {
    match n
    case Plain(s) => SimpleDefs(s, prior, specs)
    case Cond(test, loc) => ExprEffects(test, loc, prior, specs)
    case ForHead(target, iter, loc) =>
      TargetDefs(target, loc, None) + ExprEffects(target, loc, prior, specs) + ExprEffects(iter, loc, prior, specs)
    case ElseHead(_) => []
    case ExceptHead(_) => []
  }

  /** The definitions of a run of nodes, each seeing those before it. */
  function NodesDefs(ns: seq<Node>, prior: seq<Ref>, specs: SpecTable): (r: seq<Ref>)
    ensures ns != [] ==> NodeDefs(ns[0], prior, specs) <= r
    decreases |ns|
  {
    if ns == [] then []
    else
      var d := NodeDefs(ns[0], prior, specs);
      d + NodesDefs(ns[1..], prior + d, specs)
  }

  /** `getDefs`: the reference set (each reference once) a statement defines;
      a compound statement defines what its headers and inner statements do.
      What the references are is stated by the lemmas below. */
  function GetDefs(s: Stmt, prior: seq<Ref>, specs: SpecTable): (r: seq<Ref>)
    ensures NoDup(r)
  {
    FromSeq(NodesDefs(StmtNodes(s), prior, specs))
  }

  /** The references of a statement list, each statement seeing the set of
      those before it, as the analysis tests accumulate them. */
  function DefsOfStatements(ss: seq<Stmt>, refs: seq<Ref>, specs: SpecTable): (r: seq<Ref>)
    ensures NoDup(refs) ==> NoDup(r)
    decreases |ss|
  {
    if ss == [] then refs
    else DefsOfStatements(ss[1..], SetUnion(refs, GetDefs(ss[0], refs, specs)), specs)
  }

  /** The expression contains no call. */
  predicate NoCalls(e: Expr)
    decreases e
  {
    match e
    case Call(_, _) => false
    case Attribute(v, _) => NoCalls(v)
    case Subscript(v, i) => NoCalls(v) && NoCalls(i)
    case Operation(ops) => forall k :: 0 <= k < |ops| ==> NoCalls(ops[k])
    case _ => true
  }

  // ---------------------------------------------------------------- properties

  /** An expression without calls changes nothing. */
  lemma {:induction false} NoCallsNoEffects(e: Expr, loc: Location, prior: seq<Ref>, specs: SpecTable)
    requires NoCalls(e)
    ensures ExprEffects(e, loc, prior, specs) == []
    decreases e
  {
    match e
    case Attribute(v, _) => NoCallsNoEffects(v, loc, prior, specs);
    case Subscript(v, i) =>
      NoCallsNoEffects(v, loc, prior, specs);
      NoCallsNoEffects(i, loc, prior, specs);
    case Operation(ops) => NoCallsNoEffectsSeq(ops, loc, prior, specs);
    case _ =>
  }

  lemma {:induction false} NoCallsNoEffectsSeq(es: seq<Expr>, loc: Location, prior: seq<Ref>, specs: SpecTable)
    requires forall k :: 0 <= k < |es| ==> NoCalls(es[k])
    ensures ExprsEffects(es, loc, prior, specs) == []
    decreases es
  {
    if es != [] {
      NoCallsNoEffects(es[0], loc, prior, specs);
      NoCallsNoEffectsSeq(es[1..], loc, prior, specs);
    }
  }

  /** A simple statement is its own single node. */
  lemma SimpleGetDefs(s: Stmt, prior: seq<Ref>, specs: SpecTable)
    requires !Compound(s)
    ensures GetDefs(s, prior, specs) == FromSeq(SimpleDefs(s, prior, specs))
    ensures forall ref :: ref in GetDefs(s, prior, specs) <==> ref in SimpleDefs(s, prior, specs)
  {
    var d := SimpleDefs(s, prior, specs);
    assert StmtNodes(s) == [Plain(s)];
    assert NodesDefs([Plain(s)], prior, specs) == d + NodesDefs([], prior + d, specs);
    assert d + [] == d;
  }

  /** Without a spec, a function call is taken to update every variable
      passed to it. */
  lemma UnspecifiedCallUpdatesArgs(f: string, args: seq<Expr>, loc: Location, prior: seq<Ref>, specs: SpecTable)
    requires Lookup(specs.functions, f).None?
    ensures forall k :: 0 <= k < |args| && args[k].Name? ==>
      UpdateRef(args[k].id, loc) in GetDefs(ExprStmt(Call(Name(f), args), loc), prior, specs)
  {
    var own := CallUpdates(Name(f), args, loc, prior, specs);
    assert own == NameArgUpdates(args, loc);
    var raw := ExprEffects(Name(f), loc, prior, specs) + ExprsEffects(args, loc, prior, specs) + own;
    assert SimpleDefs(ExprStmt(Call(Name(f), args), loc), prior, specs) == raw;
    assert forall k :: 0 <= k < |args| && args[k].Name? ==> UpdateRef(args[k].id, loc) in own;
    SimpleGetDefs(ExprStmt(Call(Name(f), args), loc), prior, specs);
  }

  /** A call statement whose callee and arguments hold no further call
      defines exactly what the call itself updates. */
  lemma CallStmtDefs(callee: Expr, args: seq<Expr>, loc: Location, prior: seq<Ref>, specs: SpecTable)
    requires NoCalls(callee)
    requires forall k :: 0 <= k < |args| ==> NoCalls(args[k])
    ensures GetDefs(ExprStmt(Call(callee, args), loc), prior, specs) == FromSeq(CallUpdates(callee, args, loc, prior, specs))
  {
    CallEffects(callee, args, loc, prior, specs);
    SimpleGetDefs(ExprStmt(Call(callee, args), loc), prior, specs);
  }

  lemma CallEffects(callee: Expr, args: seq<Expr>, loc: Location, prior: seq<Ref>, specs: SpecTable)
    requires NoCalls(callee)
    requires forall k :: 0 <= k < |args| ==> NoCalls(args[k])
    ensures SimpleDefs(ExprStmt(Call(callee, args), loc), prior, specs) == CallUpdates(callee, args, loc, prior, specs)
  {
    var own := CallUpdates(callee, args, loc, prior, specs);
    NoCallsNoEffects(callee, loc, prior, specs);
    NoCallsNoEffectsSeq(args, loc, prior, specs);
    assert ExprEffects(Call(callee, args), loc, prior, specs) == [] + [] + own;
  }

  /** With a spec, a call updates exactly the variables at the positions the
      spec lists (when its arguments contain no calls of their own). */
  lemma SpecifiedCallUpdates(f: string, fs: FunctionSpec, args: seq<Expr>, loc: Location,
                             prior: seq<Ref>, specs: SpecTable)
    requires Lookup(specs.functions, f) == Some(fs)
    requires forall k :: 0 <= k < |args| ==> NoCalls(args[k])
    ensures forall ref :: ref in GetDefs(ExprStmt(Call(Name(f), args), loc), prior, specs) <==>
      ref in ArgUpdates(args, fs.updates, loc)
  {
    CallStmtDefs(Name(f), args, loc, prior, specs);
  }

  /** A method call updates its receiver exactly when the receiver's type
      has no spec for the method, or the spec lists the receiver (position
      0) or passes the receiver again as an updated argument. */
  lemma MethodCallUpdatesReceiver(x: string, m: string, args: seq<Expr>, loc: Location,
                                  prior: seq<Ref>, specs: SpecTable)
    requires forall k :: 0 <= k < |args| ==> NoCalls(args[k])
    ensures MethodSpec(Name(x), m, prior).None? ==>
      UpdateRef(x, loc) in GetDefs(ExprStmt(Call(Attribute(Name(x), m), args), loc), prior, specs)
    ensures MethodSpec(Name(x), m, prior).Some? ==>
      var ms := MethodSpec(Name(x), m, prior).value;
      (UpdateRef(x, loc) in GetDefs(ExprStmt(Call(Attribute(Name(x), m), args), loc), prior, specs) <==>
       0 in ms.updates ||
       exists k :: 0 <= k < |ms.updates| && 1 <= ms.updates[k] <= |args| && args[ms.updates[k] - 1] == Name(x))
  {
    CallStmtDefs(Attribute(Name(x), m), args, loc, prior, specs);
  }

  /** Assigning to an item or an attribute is a weak definition: the object
      is updated and nothing is defined. */
  lemma WeakAssignIsUpdate(target: Expr, value: Expr, loc: Location, prior: seq<Ref>, specs: SpecTable)
    requires target.Attribute? || target.Subscript?
    ensures forall ref :: ref in GetDefs(Assign([target], value, loc), prior, specs) ==> ref.level == Update
    ensures BaseName(target).Some? ==>
      UpdateRef(BaseName(target).value, loc) in GetDefs(Assign([target], value, loc), prior, specs)
  {
    var raw := BaseUpdate(target.value, loc) + ExprEffects(target, loc, prior, specs)
               + ExprEffects(value, loc, prior, specs);
    WeakAssignDefs(target, value, loc, prior, specs);
    assert forall ref :: ref in raw ==> ref.level == Update;
  }

  lemma WeakAssignDefs(target: Expr, value: Expr, loc: Location, prior: seq<Ref>, specs: SpecTable)
    requires target.Attribute? || target.Subscript?
    ensures GetDefs(Assign([target], value, loc), prior, specs) ==
      FromSeq(BaseUpdate(target.value, loc) + ExprEffects(target, loc, prior, specs) + ExprEffects(value, loc, prior, specs))
  {
    WeakSimpleDefs(target, value, loc, prior, specs);
    SimpleGetDefs(Assign([target], value, loc), prior, specs);
  }

  lemma WeakSimpleDefs(target: Expr, value: Expr, loc: Location, prior: seq<Ref>, specs: SpecTable)
    requires target.Attribute? || target.Subscript?
    ensures SimpleDefs(Assign([target], value, loc), prior, specs) ==
      BaseUpdate(target.value, loc) + ExprEffects(target, loc, prior, specs) + ExprEffects(value, loc, prior, specs)
  {
    var ty := TypeOf(value, prior, specs);
    var tgt := ExprEffects(target, loc, prior, specs);
    assert TargetsDefs([target], loc, ty) == BaseUpdate(target.value, loc) by {
      assert TargetsDefs([target], loc, ty) == TargetDefs(target, loc, ty) + TargetsDefs([], loc, ty);
    }
    assert ExprsEffects([target], loc, prior, specs) == tgt by {
      assert ExprsEffects([target], loc, prior, specs) == tgt + ExprsEffects([], loc, prior, specs);
    }
  }

  /** An augmented assignment updates its target and defines nothing. */
  lemma AugAssignIsUpdate(target: Expr, value: Expr, loc: Location, prior: seq<Ref>, specs: SpecTable)
    ensures forall ref :: ref in GetDefs(AugAssign(target, value, loc), prior, specs) ==> ref.level == Update
    ensures BaseName(target).Some? ==>
      UpdateRef(BaseName(target).value, loc) in GetDefs(AugAssign(target, value, loc), prior, specs)
  {
    var raw := SimpleDefs(AugAssign(target, value, loc), prior, specs);
    var base := BaseUpdate(target, loc);
    assert raw == base + ExprEffects(target, loc, prior, specs) + ExprEffects(value, loc, prior, specs);
    assert forall ref :: ref in raw ==> ref.level == Update;
    assert BaseName(target).Some? ==> UpdateRef(BaseName(target).value, loc) in raw by {
      assert BaseName(target).Some? ==> base == [UpdateRef(BaseName(target).value, loc)];
    }
    SimpleGetDefs(AugAssign(target, value, loc), prior, specs);
  }

  /** Assigning to a name defines it first, with the value's type, and
      defines nothing else. */
  lemma AssignDefinesName(x: string, value: Expr, loc: Location, prior: seq<Ref>, specs: SpecTable)
    ensures |GetDefs(Assign([Name(x)], value, loc), prior, specs)| > 0
    ensures GetDefs(Assign([Name(x)], value, loc), prior, specs)[0] == Ref(VariableSymbol, x, Definition, loc, TypeOf(value, prior, specs))
    ensures forall ref :: ref in GetDefs(Assign([Name(x)], value, loc), prior, specs) && ref.level == Definition ==>
      ref == Ref(VariableSymbol, x, Definition, loc, TypeOf(value, prior, specs))
  {
    var s := Assign([Name(x)], value, loc);
    var def := Ref(VariableSymbol, x, Definition, loc, TypeOf(value, prior, specs));
    var rest := ExprEffects(value, loc, prior, specs);
    AssignSimpleDefs(x, value, loc, prior, specs);
    SimpleGetDefs(s, prior, specs);
    FromSeqFront(def, rest);
    FrontUnion(def, rest, GetDefs(s, prior, specs));
  }

  /** What assigning to a name defines, before duplicates are dropped. */
  lemma AssignSimpleDefs(x: string, value: Expr, loc: Location, prior: seq<Ref>, specs: SpecTable)
    ensures SimpleDefs(Assign([Name(x)], value, loc), prior, specs) ==
      [Ref(VariableSymbol, x, Definition, loc, TypeOf(value, prior, specs))] + ExprEffects(value, loc, prior, specs)
  {
    var ty := TypeOf(value, prior, specs);
    var def := Ref(VariableSymbol, x, Definition, loc, ty);
    var rest := ExprEffects(value, loc, prior, specs);
    var a, b := TargetsDefs([Name(x)], loc, ty), ExprsEffects([Name(x)], loc, prior, specs);
    assert [Name(x)][0] == Name(x) && [Name(x)][1..] == [];
    assert SimpleDefs(Assign([Name(x)], value, loc), prior, specs) == a + b + rest;
    assert a == [def] by {
      assert a == TargetDefs(Name(x), loc, ty) + TargetsDefs([], loc, ty);
      assert [def] + [] == [def];
    }
    assert b == [] by {
      assert b == ExprEffects(Name(x), loc, prior, specs) + ExprsEffects([], loc, prior, specs);
    }
    assert a + b + rest == [def] + rest;
  }

  /** A definition followed by updates keeps the definition first and alone. */
  lemma FrontUnion(def: Ref, rest: seq<Ref>, r: seq<Ref>)
    requires def.level == Definition && r == SetUnion([def], rest)
    requires forall ref :: ref in rest ==> ref.level == Update
    ensures |r| > 0 && r[0] == def
    ensures forall ref :: ref in r && ref.level == Definition ==> ref == def
  {
    assert r[..1] == [def];
  }

  /** A function or class declaration defines its name once, located at the
      whole declaration. */
  lemma DeclarationDefs(s: Stmt, prior: seq<Ref>, specs: SpecTable)
    requires s.Def? || s.Class?
    ensures GetDefs(s, prior, specs) ==
      [Ref(if s.Def? then FunctionSymbol else ClassSymbol, s.name, Definition, s.loc, None)]
  {
    SimpleGetDefs(s, prior, specs);
    var def := Ref(if s.Def? then FunctionSymbol else ClassSymbol, s.name, Definition, s.loc, None);
    assert SetUnion([], [def]) == SetUnion([def], []);
  }

  /** The definitions a magic annotation declares are placed relative to the
      line of the annotation. */
  lemma AnnotationDefs(decls: seq<MagicDecl>, loc: Location, prior: seq<Ref>, specs: SpecTable)
    ensures forall ref :: ref in GetDefs(Annotation(decls, loc), prior, specs) <==>
      exists k :: 0 <= k < |decls| &&
        ref == Ref(MagicSymbol, decls[k].name, Definition, Shift(decls[k].pos, loc.firstLine), None)
  {
    SimpleGetDefs(Annotation(decls, loc), prior, specs);
    var r := MagicDefs(decls, loc);
    forall ref | ref in r
      ensures exists k :: 0 <= k < |decls| && ref == Ref(MagicSymbol, decls[k].name, Definition, Shift(decls[k].pos, loc.firstLine), None)
    {
      var k :| 0 <= k < |r| && r[k] == ref;
    }
  }

  /** A call of a type name gives a value of that type, unless the function
      spec of that name declares a result type of its own. */
  lemma ConstructorType(f: string, args: seq<Expr>, prior: seq<Ref>, specs: SpecTable)
    requires f in specs.types
    ensures Lookup(specs.functions, f).None? ==>
      TypeOf(Call(Name(f), args), prior, specs) == Some(specs.types[f])
    ensures Lookup(specs.functions, f).Some? ==>
      var declared := ReturnType(specs, Lookup(specs.functions, f).value);
      TypeOf(Call(Name(f), args), prior, specs) == if declared.Some? then declared else Some(specs.types[f])
  {
  }

  lemma {:induction false} NodesUsesAppend(a: seq<Node>, b: seq<Node>)
    ensures NodesUses(a + b) == NodesUses(a) + NodesUses(b)
    decreases |a|
  {
    if a != [] {
      assert (a + b)[1..] == a[1..] + b;
      NodesUsesAppend(a[1..], b);
    } else {
      assert a + b == b;
    }
  }

  /** A statement reads exactly what its control-flow nodes read: splitting a
      compound statement into headers and inner statements loses no use. */
  lemma {:induction false} StmtNodesUses(s: Stmt)
    ensures NodesUses(StmtNodes(s)) == GetUses(s)
    decreases s
  {
    match s
    case If(test, body, elifs, orelse, elseLoc, loc) =>
      NodesUsesOf(body);
      BranchNodesUses(elifs);
      NodesUsesOf(orelse);
      IfNodesUses(test, body, elifs, orelse, elseLoc, loc);
    case For(target, iter, body, loc) =>
      NodesUsesOf(body);
      NodesUsesAppend([ForHead(target, iter, loc)], Nodes(body));
    case Try(body, handlers, _) =>
      NodesUsesOf(body);
      HandlerNodesUses(handlers);
      NodesUsesAppend(Nodes(body), HandlerNodes(handlers));
    case _ =>
      SimpleNodesUses(s);
  }

  /** The uses of an `if`'s nodes, given those of its bodies and branches. */
  lemma IfNodesUses(test: Expr, body: seq<Stmt>, elifs: seq<Branch>, orelse: seq<Stmt>, elseLoc: Location, loc: Location)
    requires NodesUses(Nodes(body)) == BodyUses(body) && NodesUses(Nodes(orelse)) == BodyUses(orelse)
    requires NodesUses(BranchNodes(elifs)) == BranchesUses(elifs)
    ensures NodesUses(StmtNodes(If(test, body, elifs, orelse, elseLoc, loc))) == GetUses(If(test, body, elifs, orelse, elseLoc, loc))
  {
    var head, branches := [Cond(test, loc)], BranchNodes(elifs);
    var tail := if orelse == [] then [] else [ElseHead(elseLoc)] + Nodes(orelse);
    NodesUsesAppend(head + Nodes(body) + branches, tail);
    NodesUsesAppend(head + Nodes(body), branches);
    NodesUsesAppend(head, Nodes(body));
    assert NodesUses(head) == ExprUses(test) by {
      assert head[1..] == [];
    }
    if orelse != [] {
      NodesUsesAppend([ElseHead(elseLoc)], Nodes(orelse));
      assert NodesUses([ElseHead(elseLoc)]) == {} by {
        assert [ElseHead(elseLoc)][1..] == [];
      }
    }
    assert NodesUses(tail) == BodyUses(orelse);
    assert StmtNodes(If(test, body, elifs, orelse, elseLoc, loc)) == head + Nodes(body) + branches + tail;
  }

  /** A simple statement is one node, whose uses are the statement's. */
  lemma SimpleNodesUses(s: Stmt)
    requires !s.If? && !s.For? && !s.Try?
    ensures NodesUses(StmtNodes(s)) == GetUses(s)
  {
    assert StmtNodes(s) == [Plain(s)];
  }

  lemma {:induction false} NodesUsesOf(ss: seq<Stmt>)
    ensures NodesUses(Nodes(ss)) == BodyUses(ss)
    decreases ss
  {
    if ss != [] {
      StmtNodesUses(ss[0]);
      NodesUsesOf(ss[1..]);
      NodesUsesAppend(StmtNodes(ss[0]), Nodes(ss[1..]));
    }
  }

  lemma {:induction false} BranchNodesUses(bs: seq<Branch>)
    ensures NodesUses(BranchNodes(bs)) == BranchesUses(bs)
    decreases bs
  {
    if bs != [] {
      NodesUsesOf(bs[0].body);
      BranchNodesUses(bs[1..]);
      NodesUsesAppend([Cond(bs[0].test, bs[0].loc)] + Nodes(bs[0].body), BranchNodes(bs[1..]));
      NodesUsesAppend([Cond(bs[0].test, bs[0].loc)], Nodes(bs[0].body));
    }
  }

  lemma {:induction false} HandlerNodesUses(hs: seq<Handler>)
    ensures NodesUses(HandlerNodes(hs)) == HandlersUses(hs)
    decreases hs
  {
    if hs != [] {
      NodesUsesOf(hs[0].body);
      HandlerNodesUses(hs[1..]);
      NodesUsesAppend([ExceptHead(hs[0].loc)] + Nodes(hs[0].body), HandlerNodes(hs[1..]));
      NodesUsesAppend([ExceptHead(hs[0].loc)], Nodes(hs[0].body));
    }
  }

  /** The calls inside an assignment target only update names the target reads. */
  lemma {:induction false} TargetEffectsUsed(t: Expr, loc: Location, prior: seq<Ref>, specs: SpecTable)
    ensures forall ref :: ref in ExprEffects(t, loc, prior, specs) ==> ref.name in TargetUses(t)
    decreases t
  {
    if t.Operation? {
      TargetsEffectsUsed(t.operands, loc, prior, specs);
    }
  }

  lemma {:induction false} TargetsEffectsUsed(ts: seq<Expr>, loc: Location, prior: seq<Ref>, specs: SpecTable)
    ensures forall ref :: ref in ExprsEffects(ts, loc, prior, specs) ==> ref.name in TargetsUses(ts)
    decreases ts
  {
    if ts != [] {
      TargetEffectsUsed(ts[0], loc, prior, specs);
      TargetsEffectsUsed(ts[1..], loc, prior, specs);
    }
  }

  /** A node only updates names it reads. */
  lemma NodeUpdatesUsed(n: Node, prior: seq<Ref>, specs: SpecTable)
    ensures forall ref :: ref in NodeDefs(n, prior, specs) && ref.level != Definition ==> ref.name in NodeUses(n)
  {
    match n
    case Plain(s) =>
      if s.Assign? {
        TargetsEffectsUsed(s.targets, s.loc, prior, specs);
      }
    case ForHead(target, iter, loc) =>
      TargetEffectsUsed(target, loc, prior, specs);
    case _ =>
  }

  lemma {:induction false} NodesUpdatesUsed(ns: seq<Node>, prior: seq<Ref>, specs: SpecTable)
    ensures forall ref :: ref in NodesDefs(ns, prior, specs) && ref.level != Definition ==> ref.name in NodesUses(ns)
    decreases |ns|
  {
    if ns != [] {
      NodeUpdatesUsed(ns[0], prior, specs);
      NodesUpdatesUsed(ns[1..], prior + NodeDefs(ns[0], prior, specs), specs);
    }
  }

  /** Every name a statement updates in place is also a name it reads: an
      update never comes out of nowhere. */
  lemma UpdatesAreUses(s: Stmt, prior: seq<Ref>, specs: SpecTable)
    ensures forall ref :: ref in GetDefs(s, prior, specs) && ref.level == Update ==> ref.name in GetUses(s)
  {
    NodesUpdatesUsed(StmtNodes(s), prior, specs);
    StmtNodesUses(s);
  }

  /** Every name a statement defines, magic names aside, is one it binds in
      its own scope: a definition never comes out of nowhere either. */
  lemma DefinitionsAreBound(s: Stmt, prior: seq<Ref>, specs: SpecTable)
    ensures forall ref :: ref in GetDefs(s, prior, specs) && ref.level == Definition && ref.kind != MagicSymbol ==>
      ref.name in StmtLocals(s)
  {
    NodesDefsBound(StmtNodes(s), prior, specs);
    StmtNodesBound(s);
  }

  /** The names a control-flow node binds. */
  function NodeBound(n: Node): set<string> {
    match n
    case Plain(s) => StmtLocals(s)
    case ForHead(target, _, _) => TargetBound(target)
    case _ => {}
  }

  function NodesBound(ns: seq<Node>): set<string>
    decreases |ns|
  {
    if ns == [] then {} else NodeBound(ns[0]) + NodesBound(ns[1..])
  }

  /** A node defines, magic names aside, only names it binds. */
  lemma NodeDefsBound(n: Node, prior: seq<Ref>, specs: SpecTable)
    ensures forall ref :: ref in NodeDefs(n, prior, specs) && ref.level == Definition && ref.kind != MagicSymbol ==>
      ref.name in NodeBound(n)
  {
    match n
    case Plain(s) =>
      if s.Import? {
        forall ref | ref in ImportDefs(s.names, s.loc) ensures ref.name in StmtLocals(s) {
          var k :| 0 <= k < |s.names| && ImportDefs(s.names, s.loc)[k] == ref;
        }
      }
    case _ =>
  }

  lemma {:induction false} NodesDefsBound(ns: seq<Node>, prior: seq<Ref>, specs: SpecTable)
    ensures forall ref :: ref in NodesDefs(ns, prior, specs) && ref.level == Definition && ref.kind != MagicSymbol ==>
      ref.name in NodesBound(ns)
    decreases |ns|
  {
    if ns != [] {
      NodeDefsBound(ns[0], prior, specs);
      NodesDefsBound(ns[1..], prior + NodeDefs(ns[0], prior, specs), specs);
    }
  }

  lemma {:induction false} NodesBoundAppend(a: seq<Node>, b: seq<Node>)
    ensures NodesBound(a + b) == NodesBound(a) + NodesBound(b)
    decreases |a|
  {
    if a != [] {
      assert (a + b)[1..] == a[1..] + b;
      NodesBoundAppend(a[1..], b);
    } else {
      assert a + b == b;
    }
  }

  /** A statement binds exactly what its control-flow nodes bind. */
  lemma {:induction false} StmtNodesBound(s: Stmt)
    ensures NodesBound(StmtNodes(s)) == StmtLocals(s)
    decreases s
  {
    match s
    case If(test, body, elifs, orelse, elseLoc, loc) =>
      NodesBoundOf(body);
      BranchNodesBound(elifs);
      NodesBoundOf(orelse);
      IfNodesBound(test, body, elifs, orelse, elseLoc, loc);
    case For(target, iter, body, loc) =>
      NodesBoundOf(body);
      NodesBoundAppend([ForHead(target, iter, loc)], Nodes(body));
      assert NodesBound([ForHead(target, iter, loc)]) == TargetBound(target) by {
        assert [ForHead(target, iter, loc)][1..] == [];
      }
    case Try(body, handlers, _) =>
      NodesBoundOf(body);
      HandlerNodesBound(handlers);
      NodesBoundAppend(Nodes(body), HandlerNodes(handlers));
    case _ =>
      assert StmtNodes(s) == [Plain(s)];
      assert [Plain(s)][1..] == [];
  }

  /** The bindings of an `if`'s nodes, given those of its bodies and branches. */
  lemma IfNodesBound(test: Expr, body: seq<Stmt>, elifs: seq<Branch>, orelse: seq<Stmt>, elseLoc: Location, loc: Location)
    requires NodesBound(Nodes(body)) == Locals(body) && NodesBound(Nodes(orelse)) == Locals(orelse)
    requires NodesBound(BranchNodes(elifs)) == BranchesLocals(elifs)
    ensures NodesBound(StmtNodes(If(test, body, elifs, orelse, elseLoc, loc))) == StmtLocals(If(test, body, elifs, orelse, elseLoc, loc))
  {
    var head, branches := [Cond(test, loc)], BranchNodes(elifs);
    var tail := if orelse == [] then [] else [ElseHead(elseLoc)] + Nodes(orelse);
    NodesBoundAppend(head + Nodes(body) + branches, tail);
    NodesBoundAppend(head + Nodes(body), branches);
    NodesBoundAppend(head, Nodes(body));
    assert NodesBound(head) == {} by {
      assert head[1..] == [];
    }
    if orelse != [] {
      NodesBoundAppend([ElseHead(elseLoc)], Nodes(orelse));
      assert NodesBound([ElseHead(elseLoc)]) == {} by {
        assert [ElseHead(elseLoc)][1..] == [];
      }
    }
    assert NodesBound(tail) == Locals(orelse);
    assert StmtNodes(If(test, body, elifs, orelse, elseLoc, loc)) == head + Nodes(body) + branches + tail;
  }

  lemma {:induction false} NodesBoundOf(ss: seq<Stmt>)
    ensures NodesBound(Nodes(ss)) == Locals(ss)
    decreases ss
  {
    if ss != [] {
      StmtNodesBound(ss[0]);
      NodesBoundOf(ss[1..]);
      NodesBoundAppend(StmtNodes(ss[0]), Nodes(ss[1..]));
    }
  }

  lemma {:induction false} BranchNodesBound(bs: seq<Branch>)
    ensures NodesBound(BranchNodes(bs)) == BranchesLocals(bs)
    decreases bs
  {
    if bs != [] {
      NodesBoundOf(bs[0].body);
      BranchNodesBound(bs[1..]);
      NodesBoundAppend([Cond(bs[0].test, bs[0].loc)] + Nodes(bs[0].body), BranchNodes(bs[1..]));
      NodesBoundAppend([Cond(bs[0].test, bs[0].loc)], Nodes(bs[0].body));
      assert NodesBound([Cond(bs[0].test, bs[0].loc)]) == {} by {
        assert [Cond(bs[0].test, bs[0].loc)][1..] == [];
      }
    }
  }

  lemma {:induction false} HandlerNodesBound(hs: seq<Handler>)
    ensures NodesBound(HandlerNodes(hs)) == HandlersLocals(hs)
    decreases hs
  {
    if hs != [] {
      NodesBoundOf(hs[0].body);
      HandlerNodesBound(hs[1..]);
      NodesBoundAppend([ExceptHead(hs[0].loc)] + Nodes(hs[0].body), HandlerNodes(hs[1..]));
      NodesBoundAppend([ExceptHead(hs[0].loc)], Nodes(hs[0].body));
      assert NodesBound([ExceptHead(hs[0].loc)]) == {} by {
        assert [ExceptHead(hs[0].loc)][1..] == [];
      }
    }
  }
}
