/** The `getDefs` and `getUses` scenarios of the analysis test suite, on the
    statement trees the parser gives for their code lines. Where a scenario
    uses the default spec table, only the fact it relies on (that `func` has
    no spec) is required. */
module DataFlowTests {
  import opened Util
  import opened Locations
  import opened Syntax
  import opened Specs
  import opened DataFlow

  function Line(n: int): Location {
    Location(n, 0, n, 20)
  }

  function Call0(f: string): Expr {
    Call(Name(f), [])
  }

  const EmptySpecs := SpecTable([], map[])

  // ---------------------------------------------------------------- getDefs

  /** `a = 1` defines the variable `a`. */
  lemma AssignmentDefines(specs: SpecTable)
    ensures var defs := GetDefs(Assign([Name("a")], Literal, Line(1)), [], specs);
      |defs| > 0 && defs[0].kind == VariableSymbol && defs[0].name == "a" && defs[0].level == Definition
  {
    AssignDefinesName("a", Literal, Line(1), [], specs);
  }

  /** `a += 1` updates `a`. */
  lemma AugAssignUpdates(specs: SpecTable)
    ensures GetDefs(AugAssign(Name("a"), Literal, Line(1)), [], specs) == [UpdateRef("a", Line(1))]
  {
    SimpleGetDefs(AugAssign(Name("a"), Literal, Line(1)), [], specs);
    assert SetUnion([], [UpdateRef("a", Line(1))]) == SetUnion([UpdateRef("a", Line(1))], []);
  }

  /** `import pandas` and `from pandas import load_csv` define the imported names. */
  lemma ImportsDefine(specs: SpecTable)
    ensures GetDefs(Import(["pandas"], Line(1)), [], specs) == [Ref(ImportSymbol, "pandas", Definition, Line(1), None)]
    ensures GetDefs(Import(["load_csv"], Line(1)), [], specs) == [Ref(ImportSymbol, "load_csv", Definition, Line(1), None)]
  {
    ImportOne("pandas", Line(1), specs);
    ImportOne("load_csv", Line(1), specs);
  }

  /** An import of one name defines that name. */
  lemma ImportOne(name: string, loc: Location, specs: SpecTable)
    ensures GetDefs(Import([name], loc), [], specs) == [Ref(ImportSymbol, name, Definition, loc, None)]
  {
    var r := Ref(ImportSymbol, name, Definition, loc, None);
    SimpleGetDefs(Import([name], loc), [], specs);
    assert ImportDefs([name], loc) == [r];
    FromSeqDistinct([r]);
  }

  /** `def func(): return 0` defines the function over its whole extent. */
  lemma FunctionDeclaration(specs: SpecTable)
    ensures var loc := Location(1, 0, 4, -1);
      GetDefs(Def("func", [], [Return(Literal, Location(2, 4, 2, 12))], loc), [], specs)
        == [Ref(FunctionSymbol, "func", Definition, loc, None)]
  {
    DeclarationDefs(Def("func", [], [Return(Literal, Location(2, 4, 2, 12))], Location(1, 0, 4, -1)), [], specs);
  }

  /** `class C(object): ...` defines the class over its whole extent. */
  lemma ClassDeclaration(specs: SpecTable)
    ensures var loc := Location(1, 0, 5, -1);
      var init := Def("__init__", ["self"], [Pass(Location(3, 8, 3, 12))], Location(2, 4, 5, -1));
      GetDefs(Class("C", [Name("object")], [init], loc), [], specs)
        == [Ref(ClassSymbol, "C", Definition, loc, None)]
  {
    var init := Def("__init__", ["self"], [Pass(Location(3, 8, 3, 12))], Location(2, 4, 5, -1));
    DeclarationDefs(Class("C", [Name("object")], [init], Location(1, 0, 5, -1)), [], specs);
  }

  /** `d['a'] = 1` is weak: one update of the dictionary. */
  lemma ItemAssignment(specs: SpecTable)
    ensures GetDefs(Assign([Subscript(Name("d"), Literal)], Literal, Line(1)), [], specs) == [UpdateRef("d", Line(1))]
  {
    WeakNameTarget(Subscript(Name("d"), Literal), "d", Line(1), specs);
  }

  /** `obj.a = 1` is weak: one update of the object. */
  lemma AttributeAssignment(specs: SpecTable)
    ensures GetDefs(Assign([Attribute(Name("obj"), "a")], Literal, Line(1)), [], specs) == [UpdateRef("obj", Line(1))]
  {
    WeakNameTarget(Attribute(Name("obj"), "a"), "obj", Line(1), specs);
  }

  /** Assigning a literal to an item or an attribute of variable `x` updates `x` only. */
  lemma WeakNameTarget(t: Expr, x: string, loc: Location, specs: SpecTable)
    requires (t.Subscript? && t.index == Literal) || t.Attribute?
    requires t.value == Name(x)
    ensures GetDefs(Assign([t], Literal, loc), [], specs) == [UpdateRef(x, loc)]
  {
    WeakAssignDefs(t, Literal, loc, [], specs);
    assert NoCalls(Name(x)) && NoCalls(Literal);
    if t.Subscript? {
      assert t == Subscript(Name(x), Literal);
    } else {
      assert t == Attribute(Name(x), t.attr);
    }
    assert NoCalls(t);
    NoCallsNoEffects(t, loc, [], specs);
    NoCallsNoEffects(Literal, loc, [], specs);
    assert BaseUpdate(t.value, loc) == [UpdateRef(x, loc)];
    assert BaseUpdate(t.value, loc) + [] + [] == [UpdateRef(x, loc)];
    FromSeqDistinct([UpdateRef(x, loc)]);
  }

  /** A def annotation at position [[0, 0], [0, 11]] is placed on the line of
      the annotation: line 1 when it is the first line, line 2 after a
      comment line. */
  lemma AnnotationPositions(specs: SpecTable)
    ensures var decl := MagicDecl("a", Location(0, 0, 0, 11));
      GetDefs(Annotation([decl], Location(1, 0, 1, 66)), [], specs)
        == [Ref(MagicSymbol, "a", Definition, Location(1, 0, 1, 11), None)]
    ensures var decl := MagicDecl("a", Location(0, 0, 0, 11));
      GetDefs(Annotation([decl], Location(2, 0, 2, 66)), [], specs)
        == [Ref(MagicSymbol, "a", Definition, Location(2, 0, 2, 11), None)]
  {
    var decl := MagicDecl("a", Location(0, 0, 0, 11));
    AnnotationOn(decl, Location(1, 0, 1, 66), specs);
    AnnotationOn(decl, Location(2, 0, 2, 66), specs);
  }

  /** The single definition of a one-entry annotation. */
  lemma AnnotationOn(decl: MagicDecl, loc: Location, specs: SpecTable)
    ensures GetDefs(Annotation([decl], loc), [], specs)
      == [Ref(MagicSymbol, decl.name, Definition, Shift(decl.pos, loc.firstLine), None)]
  {
    var r := Ref(MagicSymbol, decl.name, Definition, Shift(decl.pos, loc.firstLine), None);
    assert MagicDefs([decl], loc) == [r];
    assert SimpleDefs(Annotation([decl], loc), [], specs) == [r];
    SimpleGetDefs(Annotation([decl], loc), [], specs);
    FromSeqDistinct([r]);
  }

  /** Without a spec, `func(a)` updates its argument. */
  lemma FunctionCallWithoutSpec(specs: SpecTable)
    requires Lookup(specs.functions, "func").None?
    ensures GetDefs(ExprStmt(Call(Name("func"), [Name("a")]), Line(1)), [], specs) == [UpdateRef("a", Line(1))]
  {
    CallStmtDefs(Name("func"), [Name("a")], Line(1), [], specs);
    assert NameArgUpdates([Name("a")], Line(1)) == [UpdateRef("a", Line(1))] + NameArgUpdates([], Line(1));
    FromSeqDistinct([UpdateRef("a", Line(1))]);
  }

  /** Without a spec, `obj.func()` updates its receiver. */
  lemma MethodCallWithoutSpec(specs: SpecTable)
    ensures GetDefs(ExprStmt(Call(Attribute(Name("obj"), "func"), []), Line(1)), [], specs) == [UpdateRef("obj", Line(1))]
  {
    assert VarType("obj", []) == None;
    UntypedMethodCall("obj", "func", Line(1), [], specs);
  }

  function ABC(): seq<Expr> {
    [Name("a"), Name("b"), Name("c")]
  }

  /** With `func` in the spec table, `func(a, b, c)` defines nothing. */
  lemma SpecIgnoresArguments()
    ensures GetDefs(ExprStmt(Call(Name("func"), ABC()), Line(1)), [], SpecTable([Bare("func")], map[])) == []
  {
    var specs := SpecTable([Bare("func")], map[]);
    CallStmtDefs(Name("func"), ABC(), Line(1), [], specs);
    assert Lookup(specs.functions, "func") == Some(Bare("func"));
    assert ArgUpdates(ABC(), [], Line(1)) == [];
  }

  /** With an empty function list, `func(a, b, c)` updates `a`, `b` and `c`. */
  lemma NoSpecUpdatesArguments()
    ensures var defs := GetDefs(ExprStmt(Call(Name("func"), ABC()), Line(1)), [], EmptySpecs);
      defs == [UpdateRef("a", Line(1)), UpdateRef("b", Line(1)), UpdateRef("c", Line(1))]
  {
    var a, b, c := UpdateRef("a", Line(1)), UpdateRef("b", Line(1)), UpdateRef("c", Line(1));
    assert forall k :: 0 <= k < |ABC()| ==> NoCalls(ABC()[k]);
    CallStmtDefs(Name("func"), ABC(), Line(1), [], EmptySpecs);
    assert Lookup(EmptySpecs.functions, "func") == None;
    ABCUpdates();
    assert CallUpdates(Name("func"), ABC(), Line(1), [], EmptySpecs) == [a, b, c];
    assert "a"[0] != "b"[0] && "a"[0] != "c"[0] && "b"[0] != "c"[0];
    NoDupTriple(a, b, c);
    FromSeqDistinct([a, b, c]);
  }

  lemma ABCUpdates()
    ensures NameArgUpdates(ABC(), Line(1)) == [UpdateRef("a", Line(1)), UpdateRef("b", Line(1)), UpdateRef("c", Line(1))]
  {
    var c := UpdateRef("c", Line(1));
    assert NameArgUpdates([Name("c")], Line(1)) == [c] + NameArgUpdates([], Line(1));
    assert ABC()[1..] == [Name("b"), Name("c")];
    assert [Name("b"), Name("c")][1..] == [Name("c")];
  }

  const XC := Assign([Name("x")], Call0("C"), Line(1))
  const XM := ExprStmt(Call(Attribute(Name("x"), "m"), []), Line(2))

  /** `x=C()` defines `x` with the type of `C()`, whatever the spec table. */
  lemma ConstructorAssignment(specs: SpecTable)
    ensures GetDefs(XC, [], specs) == [Ref(VariableSymbol, "x", Definition, Line(1), TypeOf(Call0("C"), [], specs))]
  {
    var x := Ref(VariableSymbol, "x", Definition, Line(1), TypeOf(Call0("C"), [], specs));
    SimpleGetDefs(XC, [], specs);
    if Lookup(specs.functions, "C").Some? {
      NoArgUpdates(Lookup(specs.functions, "C").value.updates, Line(1));
    }
    assert CallUpdates(Name("C"), [], Line(1), [], specs) == [];
    assert ExprEffects(Call0("C"), Line(1), [], specs) == [] + [] + [];
    assert ExprsEffects([Name("x")], Line(1), [], specs) == [] + [];
    assert TargetsDefs([Name("x")], Line(1), x.inferredType) == [x] + [];
    assert SimpleDefs(XC, [], specs) == [x] + [] + [];
    FromSeqDistinct([x]);
  }

  const CType := TypeSpec([Bare("m")])
  const TypedX := Ref(VariableSymbol, "x", Definition, Line(1), Some(CType))
  const UntypedX := Ref(VariableSymbol, "x", Definition, Line(1), None)

  /** `x.m()` after `x` got type `C`, whose method `m` updates nothing. */
  lemma TypedMethodCall()
    ensures GetDefs(XM, [TypedX], SpecTable([], map["C" := CType])) == []
  {
    var specs := SpecTable([], map["C" := CType]);
    assert MethodSpec(Name("x"), "m", [TypedX]) == Some(Bare("m"));
    CallStmtDefs(Attribute(Name("x"), "m"), [], Line(2), [TypedX], specs);
    NoArgUpdates([], Line(2));
    assert CallUpdates(Attribute(Name("x"), "m"), [], Line(2), [TypedX], specs) == [] + [];
  }

  /** `x.m()` when nothing is known about the type of `x`. */
  lemma UntypedMethodCall(x: string, m: string, loc: Location, prior: seq<Ref>, specs: SpecTable)
    requires VarType(x, prior).None?
    ensures GetDefs(ExprStmt(Call(Attribute(Name(x), m), []), loc), prior, specs) == [UpdateRef(x, loc)]
  {
    assert MethodSpec(Name(x), m, prior) == None;
    assert CallUpdates(Attribute(Name(x), m), [], loc, prior, specs) == [UpdateRef(x, loc)];
    CallStmtDefs(Attribute(Name(x), m), [], loc, prior, specs);
    FromSeqDistinct([UpdateRef(x, loc)]);
  }

  /** `x=C()` then `x.m()`: with `m` a method of type `C` that updates
      nothing, the only reference is the definition of `x`. */
  lemma TypedReceiverIgnored()
    ensures DefsOfStatements([XC, XM], [], SpecTable([], map["C" := CType])) == [TypedX]
  {
    var specs := SpecTable([], map["C" := CType]);
    ConstructorAssignment(specs);
    assert TypeOf(Call0("C"), [], specs) == Some(CType);
    FromSeqDistinct([TypedX]);
    TypedMethodCall();
    TwoStatements(XC, XM, specs);
  }

  lemma UntypedDefinition()
    ensures SetUnion([], GetDefs(XC, [], EmptySpecs)) == [UntypedX]
  {
    ConstructorAssignment(EmptySpecs);
    assert TypeOf(Call0("C"), [], EmptySpecs) == None;
    FromSeqDistinct([UntypedX]);
  }

  lemma UntypedUpdate()
    ensures SetUnion([UntypedX], GetDefs(XM, [UntypedX], EmptySpecs)) == [UntypedX, UpdateRef("x", Line(2))]
  {
    var u := UpdateRef("x", Line(2));
    var prior := [UntypedX];
    assert VarType("x", prior) == None;
    UntypedMethodCall("x", "m", Line(2), prior, EmptySpecs);
    NoDupPair(UntypedX, u);
    assert [UntypedX] + [u] == [UntypedX, u];
    UnionDisjoint([UntypedX], [u]);
  }

  /** `x=C()` then `x.m()` with an empty spec table: `x` is defined, then updated. */
  lemma UntypedReceiverUpdated()
    ensures DefsOfStatements([XC, XM], [], EmptySpecs) == [UntypedX, UpdateRef("x", Line(2))]
  {
    UntypedDefinition();
    UntypedUpdate();
    TwoStatements(XC, XM, EmptySpecs);
  }

  /** Two statements accumulate their references one after the other. */
  lemma TwoStatements(a: Stmt, b: Stmt, specs: SpecTable)
    ensures DefsOfStatements([a, b], [], specs) ==
      SetUnion(SetUnion([], GetDefs(a, [], specs)), GetDefs(b, SetUnion([], GetDefs(a, [], specs)), specs))
  {
    var d1 := GetDefs(a, [], specs);
    var r1 := SetUnion([], d1);
    var d2 := GetDefs(b, r1, specs);
    assert [a, b][0] == a && [a, b][1..] == [b];
    assert [b][0] == b && [b][1..] == [];
    DefsCons([a, b], [], specs, d1);
    DefsCons([b], r1, specs, d2);
  }

  /** One step of the accumulation. */
  lemma DefsCons(ss: seq<Stmt>, refs: seq<Ref>, specs: SpecTable, d: seq<Ref>)
    requires ss != [] && d == GetDefs(ss[0], refs, specs)
    ensures DefsOfStatements(ss, refs, specs) == DefsOfStatements(ss[1..], SetUnion(refs, d), specs)
  {
  }

  /** A name that is both a type and a function returning that type gives
      the assigned variable that type. */
  lemma ClassNameAsTypeAndFunction()
    ensures var ctype := TypeSpec([FunctionSpec("m", [0], None)]);
      var specs := SpecTable([FunctionSpec("C", [], Some("C"))], map["C" := ctype]);
      DefsOfStatements([XC], [], specs) == [Ref(VariableSymbol, "x", Definition, Line(1), Some(ctype))]
  {
    var ctype := TypeSpec([FunctionSpec("m", [0], None)]);
    var specs := SpecTable([FunctionSpec("C", [], Some("C"))], map["C" := ctype]);
    var x := Ref(VariableSymbol, "x", Definition, Line(1), Some(ctype));
    ClassNameDefs(ctype, specs);
    assert DefsOfStatements([XC], [], specs) == DefsOfStatements([], SetUnion([], GetDefs(XC, [], specs)), specs) by {
      assert [XC][1..] == [];
    }
    FromSeqDistinct([x]);
  }

  lemma ClassNameDefs(ctype: TypeSpec, specs: SpecTable)
    requires ctype == TypeSpec([FunctionSpec("m", [0], None)])
    requires specs == SpecTable([FunctionSpec("C", [], Some("C"))], map["C" := ctype])
    ensures GetDefs(XC, [], specs) == [Ref(VariableSymbol, "x", Definition, Line(1), Some(ctype))]
  {
    ConstructorAssignment(specs);
    ClassNameType(ctype, specs);
  }

  lemma ClassNameType(ctype: TypeSpec, specs: SpecTable)
    requires ctype == TypeSpec([FunctionSpec("m", [0], None)])
    requires specs == SpecTable([FunctionSpec("C", [], Some("C"))], map["C" := ctype])
    ensures TypeOf(Call0("C"), [], specs) == Some(ctype)
  {
    assert Lookup(specs.functions, "C") == Some(FunctionSpec("C", [], Some("C")));
    assert ReturnType(specs, FunctionSpec("C", [], Some("C"))) == Some(ctype);
  }

  /** `a + func()` defines nothing. */
  lemma OperandCall(specs: SpecTable)
    requires Lookup(specs.functions, "func").None?
    ensures GetDefs(ExprStmt(Operation([Name("a"), Call0("func")]), Line(1)), [], specs) == []
  {
    var s := ExprStmt(Operation([Name("a"), Call0("func")]), Line(1));
    SimpleGetDefs(s, [], specs);
    QuietCall("func", Line(1), [], specs);
    assert ExprsEffects([Call0("func")], Line(1), [], specs) == [] + [];
    assert ExprsEffects([Name("a"), Call0("func")], Line(1), [], specs) == [] + [];
  }

  /** A call of a function without arguments changes nothing. */
  lemma QuietCall(f: string, loc: Location, prior: seq<Ref>, specs: SpecTable)
    requires Lookup(specs.functions, f).None?
    ensures ExprEffects(Call0(f), loc, prior, specs) == []
  {
    assert CallUpdates(Name(f), [], loc, prior, specs) == [];
    assert ExprEffects(Call0(f), loc, prior, specs) == [] + [] + [];
  }

  /** `func().func()` defines nothing: the receiver is not a variable. */
  lemma CallChain(specs: SpecTable)
    requires Lookup(specs.functions, "func").None?
    ensures GetDefs(ExprStmt(Call(Attribute(Call0("func"), "func"), []), Line(1)), [], specs) == []
  {
    var callee := Attribute(Call0("func"), "func");
    var s := ExprStmt(Call(callee, []), Line(1));
    QuietCall("func", Line(1), [], specs);
    assert ExprEffects(callee, Line(1), [], specs) == [];
    assert MethodSpec(Call0("func"), "func", []) == None;
    assert CallUpdates(callee, [], Line(1), [], specs) == [];
    assert ExprsEffects([], Line(1), [], specs) == [];
    assert ExprEffects(s.expr, Line(1), [], specs) == [] + [] + [];
    assert SimpleDefs(s, [], specs) == [];
    SimpleGetDefs(s, [], specs);
    assert FromSeq<Ref>([]) == [];
  }

  // ---------------------------------------------------------------- getUses

  /** `func()` uses `func`; `x -= 1` uses `x`. */
  lemma SimpleUses()
    ensures "func" in GetUses(ExprStmt(Call0("func"), Line(1)))
    ensures "x" in GetUses(AugAssign(Name("x"), Literal, Line(1)))
  {
  }

  /** `def func(arg): print(a)` uses the free name `a`. */
  lemma FreeNameInFunction()
    ensures "a" in GetUses(Def("func", ["arg"], [ExprStmt(Call(Name("print"), [Name("a")]), Line(2))], Line(1)))
  {
    var body := [ExprStmt(Call(Name("print"), [Name("a")]), Line(2))];
    assert "a" in ExprsUses([Name("a")]);
    assert "a" in BodyUses(body);
    assert Locals(body) == {};
  }

  /** A method body's uses show through its class, however deeply nested. */
  lemma UsesInsideClasses()
    ensures var quux := Def("quux", ["self"], [ExprStmt(Call0("func"), Line(5)),
                                              Assign([Attribute(Name("self"), "data")], Name("a"), Line(6))], Line(4));
      var uses := GetUses(Class("Bar", [], [Class("Baz", [], [Class("Qux", [], [quux], Line(3))], Line(2))], Line(1)));
      "func" in uses && "a" in uses
  {
    var body := [ExprStmt(Call0("func"), Line(5)), Assign([Attribute(Name("self"), "data")], Name("a"), Line(6))];
    var quux := Def("quux", ["self"], body, Line(4));
    assert Locals(body) == {} by {
      assert Locals(body[1..]) == TargetsBound([Attribute(Name("self"), "data")]) + Locals([]);
    }
    assert "func" in BodyUses(body);
    assert "a" in GetUses(body[1]);
    assert "a" in BodyUses(body) by {
      assert BodyUses(body) == GetUses(body[0]) + BodyUses(body[1..]);
      assert BodyUses(body[1..]) == GetUses(body[1]) + BodyUses([]);
    }
    assert GetUses(quux) == BodyUses(body) - {"self"} - {};
    var qux := Class("Qux", [], [quux], Line(3));
    var baz := Class("Baz", [], [qux], Line(2));
    assert BodyUses([quux]) == GetUses(quux) + BodyUses([]);
    assert GetUses(qux) == GetUses(quux);
    assert BodyUses([qux]) == GetUses(qux) + BodyUses([]);
    assert GetUses(baz) == GetUses(qux);
    assert BodyUses([baz]) == GetUses(baz) + BodyUses([]);
  }

  /** `inner` wrapped in classes named `names`, the outermost first. */
  function Nest(names: seq<string>, inner: Stmt, loc: Location): Stmt
    decreases |names|
  {
    if names == [] then inner else Class(names[0], [], [Nest(names[1..], inner, loc)], loc)
  }

  /** However deeply a statement is nested in classes, its uses show through them. */
  lemma {:induction false} NestedClassUses(names: seq<string>, inner: Stmt, loc: Location)
    ensures GetUses(inner) <= GetUses(Nest(names, inner, loc))
    decreases |names|
  {
    if names != [] {
      var n := Nest(names[1..], inner, loc);
      NestedClassUses(names[1..], inner, loc);
      assert BodyUses([n]) == GetUses(n) + BodyUses([]);
    }
  }

  /** `class Baz():` / `  def quux(self):` / `    func()`: the class reads `func`. */
  lemma FunctionInsideClass()
    ensures "func" in GetUses(Class("Baz", [], [Def("quux", ["self"], [ExprStmt(Call0("func"), Line(3))], Line(2))], Line(1)))
  {
    var body := [ExprStmt(Call0("func"), Line(3))];
    var quux := Def("quux", ["self"], body, Line(2));
    assert Locals(body) == {} by {
      assert Locals(body) == Locals([]);
    }
    assert "func" in BodyUses(body);
    assert "func" in GetUses(quux);
    NestedClassUses(["Baz"], quux, Line(1));
    assert Nest(["Baz"], quux, Line(1)) == Class("Baz", [], [quux], Line(1));
  }

  /** `class Baz():` / `  def quux(self):` / `    self.data = a`: the class reads `a`. */
  lemma VariableInsideClass()
    ensures "a" in GetUses(Class("Baz", [], [Def("quux", ["self"], [Assign([Attribute(Name("self"), "data")], Name("a"), Line(3))], Line(2))], Line(1)))
  {
    var body := [Assign([Attribute(Name("self"), "data")], Name("a"), Line(3))];
    var quux := Def("quux", ["self"], body, Line(2));
    assert Locals(body) == {} by {
      assert Locals(body) == TargetsBound([Attribute(Name("self"), "data")]) + Locals([]);
    }
    assert "a" in GetUses(body[0]);
    assert "a" in BodyUses(body);
    assert "a" in GetUses(quux);
    NestedClassUses(["Baz"], quux, Line(1));
    assert Nest(["Baz"], quux, Line(1)) == Class("Baz", [], [quux], Line(1));
  }

  /** Parameters and names bound in a function body are not uses of the function. */
  lemma ParamsAndLocalsIgnored()
    ensures var body := [ExprStmt(Call(Name("print"), [Name("arg")]), Line(2)),
                         Assign([Name("var")], Literal, Line(3)),
                         ExprStmt(Call(Name("print"), [Name("var")]), Line(4))];
      var uses := GetUses(Def("func", ["arg"], body, Line(1)));
      "arg" !in uses && "var" !in uses
    ensures var fn := Def("func", ["arg1"], [ExprStmt(Call(Name("print"), [Name("arg1")]), Line(3))], Line(2));
      "arg1" !in GetUses(Class("Foo", [], [fn], Line(1)))
  {
    var body := [ExprStmt(Call(Name("print"), [Name("arg")]), Line(2)),
                 Assign([Name("var")], Literal, Line(3)),
                 ExprStmt(Call(Name("print"), [Name("var")]), Line(4))];
    assert "var" in Locals(body) by {
      assert Locals(body) == StmtLocals(body[0]) + Locals(body[1..]);
      assert Locals(body[1..]) == StmtLocals(body[1]) + Locals(body[2..]);
      assert TargetsBound([Name("var")]) == {"var"} + {};
    }
    var inner := [ExprStmt(Call(Name("print"), [Name("arg1")]), Line(3))];
    var fn := Def("func", ["arg1"], inner, Line(2));
    assert BodyUses([fn]) == GetUses(fn) + BodyUses([]);
  }
}
