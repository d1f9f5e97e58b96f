/** The generic directed graph of graph.ts: nodes are kept once per key (the
    key function given at construction decides identity), edges are added one
    at a time, and `TopoSort` lists the nodes so that the source of every edge
    comes before its target. */
module Graphs {
  import opened Util

  class Graph<T(==)> {
    /** Identity of a node: values with the same key are the same node. */
    const key: T -> string
    /** The nodes, in the order they were first registered. */
    var nodes: seq<T>
    /** The edges, as pairs of positions in `nodes`. */
    var edges: set<(nat, nat)>

    ghost predicate Valid()
      reads this
    {
      && (forall i, j :: 0 <= i < j < |nodes| ==> key(nodes[i]) != key(nodes[j]))
      && (forall e :: e in edges ==> e.0 < |nodes| && e.1 < |nodes|)
    }

    constructor(key: T -> string)
      ensures Valid()
      ensures this.key == key && nodes == [] && edges == {}
    {
      this.key := key;
      nodes := [];
      edges := {};
    }

    /** Position of the first element of `ns` whose key is `k`; `|ns|` when there is none. */
    function Find(ns: seq<T>, k: string): (r: nat)
      ensures r <= |ns|
      ensures r < |ns| ==> key(ns[r]) == k
      ensures forall j :: 0 <= j < r ==> key(ns[j]) != k
    {
      if ns == [] then 0
      else if key(ns[0]) == k then 0
      else 1 + Find(ns[1..], k)
    }

    /** `ns` with `x` appended unless a node with the same key is already there. */
    function Registered(ns: seq<T>, x: T): seq<T> {
      if Find(ns, key(x)) < |ns| then ns else ns + [x]
    }

    /** The keys of the elements of `s`. */
    function KeySet(s: seq<T>): set<string> {
      set p | 0 <= p < |s| :: key(s[p])
    }

    /** Linear search for the node that has the key of `x`. */
    method IndexOf(x: T) returns (i: int)
      requires Valid()
      ensures -1 <= i < |nodes|
      ensures 0 <= i ==> key(nodes[i]) == key(x)
      ensures i < 0 ==> forall j :: 0 <= j < |nodes| ==> key(nodes[j]) != key(x)
    {
      i := 0;
      while i < |nodes|
        invariant 0 <= i <= |nodes|
        invariant forall j :: 0 <= j < i ==> key(nodes[j]) != key(x)
      {
        if key(nodes[i]) == key(x) {
          return;
        }
        i := i + 1;
      }
      i := -1;
    }

    /** Registering a node whose key is new appends it. */
    lemma RegisteredNew(ns: seq<T>, x: T)
      requires forall j :: 0 <= j < |ns| ==> key(ns[j]) != key(x)
      ensures Registered(ns, x) == ns + [x]
    {
    }

    /** In a graph whose keys are distinct, the position found for a key is that node's position. */
    lemma FindUnique(i: nat, k: string)
      requires Valid() && i < |nodes| && key(nodes[i]) == k
      ensures Find(nodes, k) == i
    {
    }

    /** Makes `x` a node unless a node with its key exists; `i` is that node's position. */
    method Register(x: T) returns (i: nat)
      requires Valid()
      modifies this
      ensures Valid() && edges == old(edges)
      ensures nodes == Registered(old(nodes), x)
      ensures i == Find(nodes, key(x)) < |nodes|
    {
      var j := IndexOf(x);
      if j < 0 {
        nodes := nodes + [x];
        i := |nodes| - 1;
      } else {
        i := j;
      }
      FindUnique(i, key(x));
    }

    /** Records the edge `from -> to`, registering either end that is not yet a node. */
    method AddEdge(from: T, to: T)
      requires Valid()
      modifies this
      ensures Valid()
      ensures nodes == Registered(Registered(old(nodes), from), to)
      ensures edges == old(edges) + {(Find(nodes, key(from)), Find(nodes, key(to)))}
    {
      var i := Register(from);
      ghost var mid := nodes;
      var j := Register(to);
      assert nodes[..|mid|] == mid;
      FindUnique(i, key(from));
      edges := edges + {(i, j)};
    }

    /** Every predecessor of node `x` is in `done`. */
    predicate Ready(x: nat, done: set<nat>)
      reads this
    {
      forall e | e in edges :: e.1 == x ==> e.0 in done
    }

    /** No edge enters node `v` from inside `S`. */
    ghost predicate IsSource(v: nat, S: set<nat>)
      reads this
    {
      forall e | e in edges && e.1 == v :: e.0 !in S
    }

    /** Some node of `S` has no predecessor inside `S`. */
    ghost predicate HasSource(S: set<nat>)
      reads this
    {
      exists v {:trigger IsSource(v, S)} :: v in S && IsSource(v, S)
    }

    /** The graph has no cycle: every non-empty set of nodes has a node
        that no edge from inside the set reaches. */
    ghost predicate Acyclic()
      reads this
    {
      forall S: set<nat> :: S != {} && (forall v :: v in S ==> v < |nodes|) ==> HasSource(S)
    }

    /** Appends to `work` every node that is not done, not yet waiting and
        has all its predecessors done, in node order. */
    method EnqueueReady(done: set<nat>, work: seq<nat>) returns (work': seq<nat>)
      requires Valid()
      requires NoDup(work)
      requires forall x :: x in work ==> x < |nodes| && x !in done && Ready(x, done)
      ensures NoDup(work') && |work| <= |work'| && work'[..|work|] == work
      ensures forall x :: x in work' ==> x < |nodes| && x !in done && Ready(x, done)
      ensures forall x {:trigger Ready(x, done)} :: 0 <= x < |nodes| && x !in done && x !in work' ==> !Ready(x, done)
    {
      work' := work;
      var w := 0;
      while w < |nodes|
        invariant 0 <= w <= |nodes|
        invariant NoDup(work') && |work| <= |work'| && work'[..|work|] == work
        invariant forall x :: x in work' ==> x < |nodes| && x !in done && Ready(x, done)
        invariant forall x {:trigger Ready(x, done)} :: 0 <= x < w && x !in done && x !in work' ==> !Ready(x, done)
      {
        if w !in done && w !in work' && Ready(w, done) {
          work' := work' + [w];
        }
        w := w + 1;
      }
    }

    /** Kahn's worklist algorithm: a node is emitted once every predecessor has
        been emitted; after each emission the nodes that became ready join the
        end of the worklist. */
    method TopoSort() returns (sorted: seq<T>)
      requires Valid()
      ensures |sorted| <= |nodes|
      ensures forall p :: 0 <= p < |sorted| ==> sorted[p] in nodes
      ensures forall p, q :: 0 <= p < q < |sorted| ==> key(sorted[p]) != key(sorted[q])
      ensures forall e, q :: e in edges && 0 <= q < |sorted| && key(sorted[q]) == key(nodes[e.1]) ==>
                key(nodes[e.0]) in KeySet(sorted[..q])
      ensures Acyclic() ==> |sorted| == |nodes| && KeySet(sorted) == KeySet(nodes)
    {
      var n := |nodes|;
      var ns := nodes;
      var done: set<nat> := {};
      var order: seq<nat> := [];
      var work: seq<nat> := EnqueueReady(done, []);
      while work != []
        invariant forall k :: 0 <= k < |order| ==> order[k] < n
        invariant forall x :: x in done <==> x in order
        invariant NoDup(order) && NoDup(work)
        invariant forall x :: x in work ==> x < n && x !in done && Ready(x, done)
        invariant forall k, e :: 0 <= k < |order| && e in edges && e.1 == order[k] ==> e.0 in order[..k]
        invariant forall x {:trigger Ready(x, done)} :: 0 <= x < n && x !in done && x !in work ==> !Ready(x, done)
        decreases Below(n) - done
      {
        var v: nat := work[0];
        ghost var oldOrder := order;
        ghost var oldWork := work;
        work := work[1..];
        order := order + [v];
        done := done + {v};
        forall x | x in work ensures x != v && x in oldWork {
          var i :| 0 <= i < |work| && work[i] == x;
          assert work[i] == oldWork[i + 1];
        }
        forall k, e | 0 <= k < |order| && e in edges && e.1 == order[k]
          ensures e.0 in order[..k]
        {
          if k < |oldOrder| {
            assert order[..k] == oldOrder[..k];
          } else {
            assert order[..k] == oldOrder;
          }
        }
        work := EnqueueReady(done, work);
      }
      sorted := seq(|order|, k requires 0 <= k < |order| => ns[order[k]]);
      SortedOrder(order, sorted);
      Completeness(order, done);
      if Acyclic() {
        forall i | 0 <= i < n ensures key(nodes[i]) in KeySet(sorted) {
          assert i in order;
          var p :| 0 <= p < |order| && order[p] == i;
          assert sorted[p] == nodes[i];
        }
      }
    }

    /** A duplicate-free list of nodes lists at most every node, and lists every
        node of an acyclic graph when no unlisted node is ready. */
    lemma Completeness(order: seq<nat>, done: set<nat>)
      requires Valid()
      requires forall k :: 0 <= k < |order| ==> order[k] < |nodes|
      requires forall x :: x in done <==> x in order
      requires NoDup(order)
      requires forall x {:trigger Ready(x, done)} :: 0 <= x < |nodes| && x !in done ==> !Ready(x, done)
      ensures |order| <= |nodes|
      ensures Acyclic() ==> |order| == |nodes| && forall i :: 0 <= i < |nodes| ==> i in order
    {
      NoDupCard(order);
      assert done == (set x: nat | x in order);
      assert done <= Below(|nodes|);
      SubsetCard(done, Below(|nodes|));
      if Acyclic() {
        AllReadyDone(done);
        assert done == Below(|nodes|);
      }
    }

    /** The nodes at the positions `order`, which lists every edge's source
        before its target, list every edge's source key before its target key. */
    lemma SortedOrder(order: seq<nat>, sorted: seq<T>)
      requires Valid()
      requires forall k :: 0 <= k < |order| ==> order[k] < |nodes|
      requires NoDup(order)
      requires forall k, e :: 0 <= k < |order| && e in edges && e.1 == order[k] ==> e.0 in order[..k]
      requires |sorted| == |order| && forall k :: 0 <= k < |order| ==> sorted[k] == nodes[order[k]]
      ensures forall p :: 0 <= p < |sorted| ==> sorted[p] in nodes
      ensures forall p, q :: 0 <= p < q < |sorted| ==> key(sorted[p]) != key(sorted[q])
      ensures forall e, q :: e in edges && 0 <= q < |sorted| && key(sorted[q]) == key(nodes[e.1]) ==>
                key(nodes[e.0]) in KeySet(sorted[..q])
    {
      forall e, q | e in edges && 0 <= q < |sorted| && key(sorted[q]) == key(nodes[e.1])
        ensures key(nodes[e.0]) in KeySet(sorted[..q])
      {
        assert order[q] == e.1;
        assert e.0 in order[..q];
        var p :| 0 <= p < q && order[p] == e.0;
        assert sorted[..q][p] == nodes[e.0];
      }
    }

    /** In an acyclic graph, a set that holds every node whose predecessors it
        holds holds every node. */
    lemma AllReadyDone(done: set<nat>)
      requires Valid() && Acyclic()
      requires forall x {:trigger Ready(x, done)} :: 0 <= x < |nodes| && x !in done ==> !Ready(x, done)
      ensures forall x :: 0 <= x < |nodes| ==> x in done
    {
      var rest := set x | x in Below(|nodes|) && x !in done;
      if rest != {} {
        assert HasSource(rest);
        var r :| r in rest && IsSource(r, rest);
        assert Ready(r, done);
      }
      forall x | 0 <= x < |nodes| ensures x in done {
        assert x in Below(|nodes|) && x !in rest;
      }
    }

    /** The smallest element of a non-empty set of naturals. */
    static lemma Minimum(S: set<nat>) returns (m: nat)
      requires S != {}
      ensures m in S && forall x :: x in S ==> m <= x
    {
      var x :| x in S;
      if S == {x} {
        m := x;
      } else {
        var m' := Minimum(S - {x});
        m := if x < m' then x else m';
        forall y | y in S ensures m <= y {
          if y != x {
            assert y in S - {x};
          }
        }
      }
    }

    /** A graph whose every edge goes from an earlier to a later node is acyclic. */
    lemma ForwardEdgesAcyclic()
      requires Valid()
      requires forall e :: e in edges ==> e.0 < e.1
      ensures Acyclic()
    {
      forall S: set<nat> | S != {} && (forall v :: v in S ==> v < |nodes|)
        ensures HasSource(S)
      {
        var m := Minimum(S);
        assert IsSource(m, S);
      }
    }

    /** A graph with a cycle `c[0] -> c[1] -> ... -> c[|c|-1] -> c[0]` is not
        acyclic in the sense above, so `Acyclic` rules out every cycle. */
    lemma CycleIsNotAcyclic(c: seq<nat>)
      requires Valid() && |c| >= 1
      requires forall k :: 0 <= k < |c| ==> c[k] < |nodes|
      requires forall k :: 0 <= k < |c| - 1 ==> (c[k], c[k + 1]) in edges
      requires (c[|c| - 1], c[0]) in edges
      ensures !Acyclic()
    {
      var S := set k | 0 <= k < |c| :: c[k];
      assert c[0] in S;
      forall v {:trigger IsSource(v, S)} | v in S
        ensures !IsSource(v, S)
      {
        var k :| 0 <= k < |c| && c[k] == v;
        var u := if k == 0 then c[|c| - 1] else c[k - 1];
        assert (u, v) in edges && u in S;
      }
      assert forall v :: v in S ==> v < |nodes|;
      assert !HasSource(S);
    }
  }

  /** Registering the edges a -> b and b -> c yields exactly the nodes a, b, c. */
  method TracksNodes() returns (nodes: seq<string>)
    ensures nodes == ["a", "b", "c"]
  {
    var g := new Graph<string>(s => s);
    g.AddEdge("a", "b");
    g.AddEdge("b", "c");
    nodes := g.nodes;
  }

  /** The forest a -> b, c -> d is sorted completely, with a before b and c before d. */
  method SortsForest() returns (sorted: seq<string>)
    ensures |sorted| == 4 && (set x | x in sorted) == {"a", "b", "c", "d"}
    ensures forall q :: 0 <= q < |sorted| && sorted[q] == "b" ==> "a" in sorted[..q]
    ensures forall q :: 0 <= q < |sorted| && sorted[q] == "d" ==> "c" in sorted[..q]
  {
    var g := new Graph<string>(s => s);
    g.AddEdge("a", "b");
    assert g.nodes == ["a", "b"];
    g.AddEdge("c", "d");
    g.RegisteredNew(["a", "b"], "c");
    g.RegisteredNew(["a", "b"] + ["c"], "d");
    g.FindUnique(2, "c");
    g.FindUnique(3, "d");
    g.ForwardEdgesAcyclic();
    sorted := g.TopoSort();
    ForestOrder(g, sorted);
  }

  /** A complete topological order of the forest a -> b, c -> d. */
  lemma ForestOrder(g: Graph<string>, sorted: seq<string>)
    requires g.Valid() && |g.nodes| == 4 && (0, 1) in g.edges && (2, 3) in g.edges
    requires g.nodes[0] == "a" && g.nodes[1] == "b" && g.nodes[2] == "c" && g.nodes[3] == "d"
    requires forall x :: g.key(x) == x
    requires |sorted| == 4 && g.KeySet(sorted) == g.KeySet(g.nodes)
    requires forall e, q :: e in g.edges && 0 <= q < |sorted| && g.key(sorted[q]) == g.key(g.nodes[e.1]) ==>
               g.key(g.nodes[e.0]) in g.KeySet(sorted[..q])
    ensures (set x | x in sorted) == {"a", "b", "c", "d"}
    ensures forall q :: 0 <= q < |sorted| && sorted[q] == "b" ==> "a" in sorted[..q]
    ensures forall q :: 0 <= q < |sorted| && sorted[q] == "d" ==> "c" in sorted[..q]
  {
    assert forall t: seq<string> :: g.KeySet(t) == set x | x in t;
  }

  /** The DAG a -> b, b -> c, a -> c has the single topological order a, b, c. */
  method SortsDag() returns (sorted: seq<string>)
    ensures sorted == ["a", "b", "c"]
  {
    var g := new Graph<string>(s => s);
    g.AddEdge("a", "b");
    assert g.nodes == ["a", "b"];
    g.AddEdge("b", "c");
    assert g.nodes == ["a", "b", "c"];
    g.AddEdge("a", "c");
    assert g.nodes == ["a", "b", "c"];
    assert g.edges == {(0, 1), (1, 2), (0, 2)};
    g.ForwardEdgesAcyclic();
    sorted := g.TopoSort();
    ChainOrder(g, sorted);
  }

  /** A topological order of the three nodes a, b, c with edges a -> b and b -> c. */
  lemma ChainOrder(g: Graph<string>, sorted: seq<string>)
    requires g.Valid() && g.nodes == ["a", "b", "c"] && (0, 1) in g.edges && (1, 2) in g.edges
    requires forall x :: g.key(x) == x
    requires |sorted| == 3 && g.KeySet(sorted) == {"a", "b", "c"}
    requires forall e, q :: e in g.edges && 0 <= q < |sorted| && g.key(sorted[q]) == g.key(g.nodes[e.1]) ==>
               g.key(g.nodes[e.0]) in g.KeySet(sorted[..q])
    ensures sorted == ["a", "b", "c"]
  {
    assert "c" in g.KeySet(sorted);
    var c :| 0 <= c < 3 && sorted[c] == "c";
    assert "b" in g.KeySet(sorted[..c]);
    var b :| 0 <= b < c && sorted[b] == "b";
    assert "a" in g.KeySet(sorted[..b]);
  }
}
