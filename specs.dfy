/** The spec table (specs.ts) that tells the data-flow analysis what a call
    changes. Only the built-in namespace is modelled: a list of function
    specs and a map from type names to the specs of their methods. A bare
    name in the table is a spec that updates nothing and returns no type. */
module Specs {
  import opened Util

  /** `updates` lists argument positions the call changes: 0 is a method's
      receiver, k >= 1 the k-th argument. `returnType` names the type of the result. */
  datatype FunctionSpec = FunctionSpec(name: string, updates: seq<int>, returnType: Option<string>)

  datatype TypeSpec = TypeSpec(methods: seq<FunctionSpec>)

  datatype SpecTable = SpecTable(functions: seq<FunctionSpec>, types: map<string, TypeSpec>)

  /** The table entry written as a bare name. */
  function Bare(name: string): FunctionSpec {
    FunctionSpec(name, [], None)
  }

  /** The first spec with the given name. */
  function Lookup(fs: seq<FunctionSpec>, name: string): (r: Option<FunctionSpec>)
    ensures r.Some? ==> r.value in fs && r.value.name == name
    ensures r.None? ==> forall k :: 0 <= k < |fs| ==> fs[k].name != name
  {
    if fs == [] then None
    else if fs[0].name == name then Some(fs[0])
    else Lookup(fs[1..], name)
  }

  /** What `Lookup` finds is the first spec with the name: no spec before it has that name. */
  lemma {:induction false} LookupFirst(fs: seq<FunctionSpec>, name: string)
    ensures Lookup(fs, name).Some? ==>
      exists k :: 0 <= k < |fs| && fs[k] == Lookup(fs, name).value && forall j :: 0 <= j < k ==> fs[j].name != name
    decreases |fs|
  {
    if fs != [] && fs[0].name != name {
      LookupFirst(fs[1..], name);
      if Lookup(fs, name).Some? {
        var k :| 0 <= k < |fs[1..]| && fs[1..][k] == Lookup(fs, name).value && forall j :: 0 <= j < k ==> fs[1..][j].name != name;
        assert fs[k + 1] == Lookup(fs, name).value;
        forall j | 0 <= j < k + 1 ensures fs[j].name != name {
          if j > 0 { assert fs[j] == fs[1..][j - 1]; }
        }
      }
    }
  }

  /** The type a spec's result has, when the spec names one the table knows. */
  function ReturnType(specs: SpecTable, f: FunctionSpec): (r: Option<TypeSpec>)
    ensures r.Some? <==> f.returnType.Some? && f.returnType.value in specs.types
    ensures r.Some? ==> r.value == specs.types[f.returnType.value]
  {
    if f.returnType.Some? && f.returnType.value in specs.types then Some(specs.types[f.returnType.value]) else None
  }
}
