/** The forward query of the execution-log slicer (`getDependentCells` in
    log-slicer.ts), as functions over the log.

    The notebook the log describes holds one cell per persistent id: the
    latest run of that id, at the position where the id first appeared.
    From the target run's defined names, the cells after the target's
    position are visited in notebook order. A cell that reads a live name
    is a dependent: it gets an edge from each cell that provided such a
    name, and the names it defines become live with it as their provider.
    A cell that reads no live name redefines its names harmlessly: they
    stop being live, so a later reader of them does not depend on the
    target (the latest write wins). What a cell defines and reads is given
    as two functions of the cell. */
module Dependencies {
  import opened Util
  import opened Cells

  // ---------------------------------------------------------------- the notebook

  /** Position of the first cell with persistent id `pid`; `|cs|` when there is none. */
  function PidIndex(cs: seq<Cell>, pid: string): (r: nat)
    ensures r <= |cs|
    ensures r < |cs| ==> cs[r].persistentId == pid
    ensures forall j :: 0 <= j < r ==> cs[j].persistentId != pid
  {
    if cs == [] then 0
    else if cs[0].persistentId == pid then 0
    else 1 + PidIndex(cs[1..], pid)
  }

  /** Position of the first run with execution event id `eid`; `|cs|` when there is none. */
  function EventIndex(cs: seq<Cell>, eid: string): (r: nat)
    ensures r <= |cs|
    ensures r < |cs| ==> cs[r].executionEventId == eid
    ensures forall j :: 0 <= j < r ==> cs[j].executionEventId != eid
  {
    if cs == [] then 0
    else if cs[0].executionEventId == eid then 0
    else 1 + EventIndex(cs[1..], eid)
  }

  /** The position found depends only on the persistent ids. */
  lemma {:induction false} PidIndexSameIds(a: seq<Cell>, b: seq<Cell>, pid: string)
    requires |a| == |b| && forall i :: 0 <= i < |a| ==> a[i].persistentId == b[i].persistentId
    ensures PidIndex(a, pid) == PidIndex(b, pid)
    decreases |a|
  {
    if a != [] && a[0].persistentId != pid {
      PidIndexSameIds(a[1..], b[1..], pid);
    }
  }

  /** Appending a cell does not move an id already present. */
  lemma {:induction false} PidIndexAppend(a: seq<Cell>, c: Cell, pid: string)
    ensures PidIndex(a, pid) < |a| ==> PidIndex(a + [c], pid) == PidIndex(a, pid)
    ensures PidIndex(a, pid) == |a| ==> PidIndex(a + [c], pid) == (if c.persistentId == pid then |a| else |a| + 1)
    decreases |a|
  {
    if a != [] && a[0].persistentId != pid {
      assert (a + [c])[1..] == a[1..] + [c];
      PidIndexAppend(a[1..], c, pid);
    } else if a == [] && c.persistentId != pid {
      assert [c][1..] == [];
    }
  }

  predicate DistinctPids(cs: seq<Cell>) {
    forall i, j :: 0 <= i < j < |cs| ==> cs[i].persistentId != cs[j].persistentId
  }

  /** The notebook after the runs of `cells`: a run replaces the cell of its
      persistent id, or is appended when its id is new. */
  function Notebook(cells: seq<Cell>): (r: seq<Cell>)
    decreases |cells|
  {
    if cells == [] then []
    else
      var nb := Notebook(cells[..|cells| - 1]);
      var c := cells[|cells| - 1];
      var k := PidIndex(nb, c.persistentId);
      if k < |nb| then nb[k := c] else nb + [c]
  }

  /** Position of the last run with persistent id `pid`; `|cs|` when there is none. */
  function LastRun(cs: seq<Cell>, pid: string): (r: nat)
    ensures r <= |cs|
    ensures r < |cs| ==> cs[r].persistentId == pid
    ensures r < |cs| ==> forall j :: r < j < |cs| ==> cs[j].persistentId != pid
    ensures r == |cs| ==> forall j :: 0 <= j < |cs| ==> cs[j].persistentId != pid
    decreases |cs|
  {
    if cs == [] then 0
    else if cs[|cs| - 1].persistentId == pid then |cs| - 1
    else
      var k := LastRun(cs[..|cs| - 1], pid);
      if k < |cs| - 1 then k else |cs|
  }

  /** The notebook holds each persistent id of the log once, and for each the
      latest run of that id. */
  lemma {:induction false} NotebookLatest(cells: seq<Cell>)
    ensures DistinctPids(Notebook(cells))
    ensures forall c :: c in Notebook(cells) ==> c in cells
    ensures forall pid :: PidIndex(Notebook(cells), pid) < |Notebook(cells)| <==> LastRun(cells, pid) < |cells|
    ensures forall pid :: LastRun(cells, pid) < |cells| ==>
              Notebook(cells)[PidIndex(Notebook(cells), pid)] == cells[LastRun(cells, pid)]
    decreases |cells|
  {
    if cells != [] {
      var init, c := cells[..|cells| - 1], cells[|cells| - 1];
      NotebookLatest(init);
      var nb := Notebook(init);
      var k := PidIndex(nb, c.persistentId);
      var r := Notebook(cells);
      forall x | x in r ensures x in cells {
        var i :| 0 <= i < |r| && r[i] == x;
        if x != c {
          assert i < |nb| && nb[i] == x;
          assert x in init;
          assert init == cells[..|cells| - 1];
        }
      }
      forall pid
        ensures PidIndex(r, pid) < |r| <==> LastRun(cells, pid) < |cells|
        ensures LastRun(cells, pid) < |cells| ==> r[PidIndex(r, pid)] == cells[LastRun(cells, pid)]
      {
        if pid == c.persistentId {
          assert LastRun(cells, pid) == |cells| - 1;
          if k < |nb| {
            PidIndexSameIds(nb, r, pid);
          } else {
            PidIndexAppend(nb, c, pid);
          }
        } else {
          var j := PidIndex(nb, pid);
          assert LastRun(cells, pid) == (if LastRun(init, pid) < |init| then LastRun(init, pid) else |cells|);
          if k < |nb| {
            PidIndexSameIds(nb, r, pid);
          } else {
            PidIndexAppend(nb, c, pid);
          }
        }
      }
    }
  }

  // ---------------------------------------------------------------- the walk

  /** The state of the walk: the dependents found so far, in visiting order;
      the edges between them as node numbers (0 is the target, `k + 1` the
      dependent `deps[k]`); and, per live name, the node that provided it. */
  datatype Walk = Walk(deps: seq<Cell>, edges: set<(nat, nat)>, live: map<string, nat>)

  /** Before any cell is visited: the target's names are live, provided by the target. */
  function Begin(t: Cell, defs: Cell -> set<string>): Walk {
    Walk([], {}, map n | n in defs(t) :: 0)
  }

  /** The live names `c` reads. */
  function Read(w: Walk, c: Cell, uses: Cell -> set<string>): set<string> {
    set n | n in uses(c) && n in w.live
  }

  /** Visits one cell. */
  function Step(w: Walk, c: Cell, defs: Cell -> set<string>, uses: Cell -> set<string>): Walk {
    var read := Read(w, c, uses);
    if read == {} then Walk(w.deps, w.edges, w.live - defs(c))
    else
      var me := |w.deps| + 1;
      Walk(w.deps + [c],
           w.edges + (set n | n in read :: (w.live[n], me)),
           w.live + (map n | n in defs(c) :: me))
  }

  /** Visits the cells in order. */
  function WalkAll(w: Walk, cs: seq<Cell>, defs: Cell -> set<string>, uses: Cell -> set<string>): Walk
    decreases |cs|
  {
    if cs == [] then w
    else Step(WalkAll(w, cs[..|cs| - 1], defs, uses), cs[|cs| - 1], defs, uses)
  }

  /** The cells visited for target `t`: those after its persistent id's position. */
  function Later(cells: seq<Cell>, t: Cell): seq<Cell> {
    var nb := Notebook(cells);
    var k := PidIndex(nb, t.persistentId);
    if k < |nb| then nb[k + 1..] else []
  }

  /** The walk for the run `eid`; nothing when no run has that id. */
  function DependencyWalk(cells: seq<Cell>, eid: string, defs: Cell -> set<string>, uses: Cell -> set<string>): Walk {
    var k := EventIndex(cells, eid);
    if k == |cells| then Walk([], {}, map[])
    else WalkAll(Begin(cells[k], defs), Later(cells, cells[k]), defs, uses)
  }

  /** The cells that depend on run `eid`, in visiting order. */
  function Dependents(cells: seq<Cell>, eid: string, defs: Cell -> set<string>, uses: Cell -> set<string>): seq<Cell> {
    DependencyWalk(cells, eid, defs, uses).deps
  }

  // ---------------------------------------------------------------- the walk's shape

  /** Every live name and every edge source is a node already made, and
      every edge goes from an earlier node to a later one. */
  predicate Shaped(w: Walk) {
    && (forall n :: n in w.live ==> w.live[n] <= |w.deps|)
    && (forall e :: e in w.edges ==> e.0 < e.1 <= |w.deps|)
  }

  lemma StepShaped(w: Walk, c: Cell, defs: Cell -> set<string>, uses: Cell -> set<string>)
    requires Shaped(w)
    ensures Shaped(Step(w, c, defs, uses))
  {
  }

  /** The walk's edges all point forward, so the graph they make has no cycle;
      the dependents are visited cells, in visiting order. */
  lemma {:induction false} WalkShaped(w: Walk, cs: seq<Cell>, defs: Cell -> set<string>, uses: Cell -> set<string>)
    requires Shaped(w)
    ensures Shaped(WalkAll(w, cs, defs, uses))
    ensures |w.deps| <= |WalkAll(w, cs, defs, uses).deps| <= |w.deps| + |cs|
    ensures WalkAll(w, cs, defs, uses).deps[..|w.deps|] == w.deps
    ensures forall k :: |w.deps| <= k < |WalkAll(w, cs, defs, uses).deps| ==> WalkAll(w, cs, defs, uses).deps[k] in cs
    decreases |cs|
  {
    if cs != [] {
      var init := cs[..|cs| - 1];
      WalkShaped(w, init, defs, uses);
      StepShaped(WalkAll(w, init, defs, uses), cs[|cs| - 1], defs, uses);
      var v := WalkAll(w, init, defs, uses);
      forall k | |w.deps| <= k < |WalkAll(w, cs, defs, uses).deps|
        ensures WalkAll(w, cs, defs, uses).deps[k] in cs
      {
        if k < |v.deps| {
          assert v.deps[k] in init;
        }
      }
    }
  }

  // ---------------------------------------------------------------- last write wins

  /** The writer of name `n` that cell `j` of the walk sees: the nearest
      earlier visited cell that defines `n` (its position), else the target
      (-1) when it defines `n`, else none. */
  function Writer(t: Cell, cs: seq<Cell>, j: nat, n: string, defs: Cell -> set<string>): (r: Option<int>)
    requires j <= |cs|
    ensures r.Some? ==> -1 <= r.value < j
    ensures r.Some? && r.value >= 0 ==> n in defs(cs[r.value])
    decreases j
  {
    if j == 0 then (if n in defs(t) then Some(-1) else None)
    else if n in defs(cs[j - 1]) then Some(j - 1)
    else Writer(t, cs, j - 1, n, defs)
  }

  /** Cell `j` depends on the target: some name it reads was last written by
      the target or by a cell that depends on the target. */
  predicate IsDependent(t: Cell, cs: seq<Cell>, j: nat, defs: Cell -> set<string>, uses: Cell -> set<string>)
    requires j < |cs|
    decreases j
  {
    exists n :: n in uses(cs[j]) && LiveFor(t, cs, j, n, defs, uses)
  }

  /** The write of `n` that cell `j` sees goes back to the target. */
  predicate LiveFor(t: Cell, cs: seq<Cell>, j: nat, n: string, defs: Cell -> set<string>, uses: Cell -> set<string>)
    requires j <= |cs|
    decreases j, 0
  {
    var w := Writer(t, cs, j, n, defs);
    w.Some? && (w.value == -1 || IsDependent(t, cs, w.value, defs, uses))
  }

  /** The cells among the first `j` that depend on the target, in order. */
  function DependentPrefix(t: Cell, cs: seq<Cell>, j: nat, defs: Cell -> set<string>, uses: Cell -> set<string>): seq<Cell>
    requires j <= |cs|
    decreases j
  {
    if j == 0 then []
    else DependentPrefix(t, cs, j - 1, defs, uses) + (if IsDependent(t, cs, j - 1, defs, uses) then [cs[j - 1]] else [])
  }

  /** After the first `j` cells, the live names are those whose latest write
      goes back to the target, and the dependents are the cells that depend
      on it. */
  lemma {:induction false} WalkLive(t: Cell, cs: seq<Cell>, j: nat, defs: Cell -> set<string>, uses: Cell -> set<string>)
    requires j <= |cs|
    ensures forall n :: n in WalkAll(Begin(t, defs), cs[..j], defs, uses).live <==> LiveFor(t, cs, j, n, defs, uses)
    ensures WalkAll(Begin(t, defs), cs[..j], defs, uses).deps == DependentPrefix(t, cs, j, defs, uses)
    decreases j
  {
    if j > 0 {
      WalkLive(t, cs, j - 1, defs, uses);
      assert cs[..j][..j - 1] == cs[..j - 1];
      var w := WalkAll(Begin(t, defs), cs[..j - 1], defs, uses);
      var c := cs[j - 1];
      assert WalkAll(Begin(t, defs), cs[..j], defs, uses) == Step(w, c, defs, uses);
      assert Read(w, c, uses) != {} <==> IsDependent(t, cs, j - 1, defs, uses) by {
        if Read(w, c, uses) != {} {
          var n :| n in Read(w, c, uses);
          assert n in uses(c) && LiveFor(t, cs, j - 1, n, defs, uses);
        }
        if IsDependent(t, cs, j - 1, defs, uses) {
          var n :| n in uses(c) && LiveFor(t, cs, j - 1, n, defs, uses);
          assert n in Read(w, c, uses);
        }
      }
      forall n ensures n in Step(w, c, defs, uses).live <==> LiveFor(t, cs, j, n, defs, uses) {
        if n in defs(c) {
          assert Writer(t, cs, j, n, defs) == Some(j - 1);
        } else {
          assert Writer(t, cs, j, n, defs) == Writer(t, cs, j - 1, n, defs);
        }
      }
    }
  }

  /** The walk finds exactly the cells that depend on the target, in order. */
  lemma WalkFindsDependents(t: Cell, cs: seq<Cell>, defs: Cell -> set<string>, uses: Cell -> set<string>)
    ensures WalkAll(Begin(t, defs), cs, defs, uses).deps == DependentPrefix(t, cs, |cs|, defs, uses)
  {
    WalkLive(t, cs, |cs|, defs, uses);
    assert cs[..|cs|] == cs;
  }

  /** A cell depends on the target only by reading a name: when no visited
      cell reads a name the target defines, there are no dependents. */
  lemma {:induction false} NoReaderNoDependents(t: Cell, cs: seq<Cell>, defs: Cell -> set<string>, uses: Cell -> set<string>)
    requires forall k :: 0 <= k < |cs| ==> uses(cs[k]) * defs(t) == {}
    ensures WalkAll(Begin(t, defs), cs, defs, uses).deps == []
    ensures forall n :: n in WalkAll(Begin(t, defs), cs, defs, uses).live ==> n in defs(t)
    decreases |cs|
  {
    if cs != [] {
      var init := cs[..|cs| - 1];
      NoReaderNoDependents(t, init, defs, uses);
      var w := WalkAll(Begin(t, defs), init, defs, uses);
      var c := cs[|cs| - 1];
      assert uses(c) * defs(t) == {};
      forall n | n in Read(w, c, uses) ensures n in uses(c) * defs(t) {
      }
    }
  }
}
