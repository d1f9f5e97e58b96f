/** `SlicedExecution` and its n-way `merge` (log-slicer.ts). A sliced
    execution is a list of cell slices; merging gathers the slices of all the
    executions, unites the location sets of slices that belong to the same
    cell execution (the same execution event id), and orders the result by
    execution count. */
module Merge {
  import opened Util
  import opened Locations
  import opened Cells
  import opened CellSlices

  datatype SlicedExecution = SlicedExecution(cellSlices: seq<CellSlice>)

  /** The identity a merge matches cell slices by. */
  function EventId(cs: CellSlice): string { cs.cell.executionEventId }

  /** The sort key: the execution count, with an undefined count read as 0. */
  function Count(cs: CellSlice): int {
    if cs.cell.executionCount.Some? then cs.cell.executionCount.value else 0
  }

  /** Some slice of `xs` belongs to execution `id`. */
  predicate HasEvent(xs: seq<CellSlice>, id: string) {
    exists k :: 0 <= k < |xs| && EventId(xs[k]) == id
  }

  /** Some slice of `xs` that belongs to execution `id` covers range `l`. */
  predicate Covers(xs: seq<CellSlice>, id: string, l: Location) {
    exists k :: 0 <= k < |xs| && EventId(xs[k]) == id && l in xs[k].slice
  }

  /** No two slices belong to the same execution. */
  predicate DistinctEvents(xs: seq<CellSlice>) {
    forall i, j :: 0 <= i < j < |xs| ==> EventId(xs[i]) != EventId(xs[j])
  }

  /** Where the slice of execution `id` sits in `acc`, or `|acc|` if nowhere. */
  function IndexOfEvent(acc: seq<CellSlice>, id: string): (r: nat)
    ensures r <= |acc|
    ensures r < |acc| ==> EventId(acc[r]) == id
    ensures forall k :: 0 <= k < r ==> EventId(acc[k]) != id
  {
    if acc == [] then 0
    else if EventId(acc[0]) == id then 0
    else 1 + IndexOfEvent(acc[1..], id)
  }

  /** Adds one cell slice to the merged list: its ranges join those of the
      slice of the same execution, or it is appended as a new entry with a
      fresh location set. */
  function MergeOne(acc: seq<CellSlice>, cs: CellSlice): seq<CellSlice> {
    var k := IndexOfEvent(acc, EventId(cs));
    if k < |acc| then acc[k := CellSlice(acc[k].cell, SetUnion(acc[k].slice, cs.slice))]
    else acc + [CellSlice(cs.cell, FromSeq(cs.slice))]
  }

  /** Merges the slices in order: one entry per execution, holding every
      range of every slice of that execution, each range once. */
  function Gather(xs: seq<CellSlice>): (r: seq<CellSlice>)
    ensures Gathered(xs, r)
    decreases |xs|
  {
    if xs == [] then []
    else
      var init, cs := xs[..|xs| - 1], xs[|xs| - 1];
      var acc := Gather(init);
      var r := MergeOne(acc, cs);
      InitLast(xs);
      GatherStep(xs, init, cs, acc, r);
      r
  }

  /** `r` holds one entry per execution of the slices `xs`, with exactly the
      ranges those slices select in it, each once. */
  ghost predicate Gathered(xs: seq<CellSlice>, r: seq<CellSlice>) {
    GatheredRanges(xs, r) &&
    (forall i :: 0 <= i < |r| ==> FirstCell(xs, r[i]))
  }

  /** `Gathered` without what it says of the cells. */
  ghost predicate GatheredRanges(xs: seq<CellSlice>, r: seq<CellSlice>) {
    DistinctEvents(r) &&
    (forall id :: HasEvent(r, id) <==> HasEvent(xs, id)) &&
    (forall i, l :: 0 <= i < |r| ==> (l in r[i].slice <==> Covers(xs, EventId(r[i]), l))) &&
    (forall i :: 0 <= i < |r| ==> NoDup(r[i].slice))
  }

  /** The cell of `cs` is that of the first slice of `xs` in its execution. */
  predicate FirstCell(xs: seq<CellSlice>, cs: CellSlice) {
    IndexOfEvent(xs, EventId(cs)) < |xs| && xs[IndexOfEvent(xs, EventId(cs))].cell == cs.cell
  }

  /** The first slice of an execution stays first when a slice is appended. */
  lemma {:induction false} IndexOfSnoc(init: seq<CellSlice>, cs: CellSlice, id: string)
    ensures IndexOfEvent(init, id) < |init| ==> IndexOfEvent(init + [cs], id) == IndexOfEvent(init, id)
    ensures IndexOfEvent(init, id) == |init| && id == EventId(cs) ==> IndexOfEvent(init + [cs], id) == |init|
    decreases |init|
  {
    if init == [] {
      assert [] + [cs] == [cs];
    } else {
      assert (init + [cs])[1..] == init[1..] + [cs];
      IndexOfSnoc(init[1..], cs, id);
    }
  }

  /** An execution occurs in `xs` exactly when its first slice is found. */
  lemma IndexOfHas(xs: seq<CellSlice>, id: string)
    ensures HasEvent(xs, id) <==> IndexOfEvent(xs, id) < |xs|
  {
    if HasEvent(xs, id) {
      var k :| 0 <= k < |xs| && EventId(xs[k]) == id;
    }
  }

  /** The cell part of `GatherStep`. */
  lemma GatherCells(xs: seq<CellSlice>, init: seq<CellSlice>, cs: CellSlice, acc: seq<CellSlice>, r: seq<CellSlice>)
    requires xs == init + [cs]
    requires forall id :: HasEvent(acc, id) <==> HasEvent(init, id)
    requires forall i :: 0 <= i < |acc| ==> FirstCell(init, acc[i])
    requires r == MergeOne(acc, cs)
    ensures forall i :: 0 <= i < |r| ==> FirstCell(xs, r[i])
  {
    var k := IndexOfEvent(acc, EventId(cs));
    forall i | 0 <= i < |r| ensures FirstCell(xs, r[i]) {
      if i < |acc| {
        var id := EventId(acc[i]);
        assert r[i].cell == acc[i].cell && EventId(r[i]) == id;
        IndexOfSnoc(init, cs, id);
        assert xs[IndexOfEvent(init, id)] == init[IndexOfEvent(init, id)];
      } else {
        assert k == |acc| && r[i] == CellSlice(cs.cell, FromSeq(cs.slice));
        IndexOfHas(acc, EventId(cs));
        IndexOfHas(init, EventId(cs));
        IndexOfSnoc(init, cs, EventId(cs));
        assert xs[|init|] == cs;
      }
    }
  }

  lemma GatherStep(xs: seq<CellSlice>, init: seq<CellSlice>, cs: CellSlice, acc: seq<CellSlice>, r: seq<CellSlice>)
    requires xs == init + [cs]
    requires Gathered(init, acc)
    requires r == MergeOne(acc, cs)
    ensures Gathered(xs, r)
  {
    GatherCells(xs, init, cs, acc, r);
    GatherRangesStep(xs, init, cs, acc, r);
  }

  lemma GatherRangesStep(xs: seq<CellSlice>, init: seq<CellSlice>, cs: CellSlice, acc: seq<CellSlice>, r: seq<CellSlice>)
    requires xs == init + [cs]
    requires GatheredRanges(init, acc)
    requires r == MergeOne(acc, cs)
    ensures GatheredRanges(xs, r)
  {
    var k := IndexOfEvent(acc, EventId(cs));
    AppendFacts(init, cs);
    if k < |acc| {
      assert forall i :: 0 <= i < |r| ==> EventId(r[i]) == EventId(acc[i]);
      forall id ensures HasEvent(r, id) <==> HasEvent(acc, id) {
        if HasEvent(acc, id) {
          var j :| 0 <= j < |acc| && EventId(acc[j]) == id;
          assert EventId(r[j]) == id;
        }
      }
      forall i, l | 0 <= i < |r| ensures l in r[i].slice <==> Covers(xs, EventId(r[i]), l) {
        if i != k {
          assert EventId(acc[i]) != EventId(acc[k]);
        }
      }
    } else {
      var n := CellSlice(cs.cell, FromSeq(cs.slice));
      assert r == acc + [n];
      assert !HasEvent(acc, EventId(cs));
      forall id ensures HasEvent(r, id) <==> HasEvent(acc, id) || id == EventId(cs) {
        if HasEvent(acc, id) {
          var j :| 0 <= j < |acc| && EventId(acc[j]) == id;
          assert EventId(r[j]) == id;
        }
        if HasEvent(r, id) {
          var j :| 0 <= j < |r| && EventId(r[j]) == id;
          if j < |acc| { assert EventId(acc[j]) == id; }
        }
        assert EventId(r[|acc|]) == EventId(cs);
      }
      forall i, l | 0 <= i < |r| ensures l in r[i].slice <==> Covers(xs, EventId(r[i]), l) {
        if i < |acc| {
          assert r[i] == acc[i];
          assert EventId(acc[i]) != EventId(cs);
        } else {
          assert r[i] == n;
          CoversHasEvent(init, EventId(cs), l);
        }
      }
      forall i, j | 0 <= i < j < |r| ensures EventId(r[i]) != EventId(r[j]) {
        if j == |acc| {
          assert r[i] == acc[i];
          assert EventId(acc[i]) != EventId(cs);
        } else {
          assert r[i] == acc[i] && r[j] == acc[j];
        }
      }
    }
  }

  lemma CoversHasEvent(xs: seq<CellSlice>, id: string, l: Location)
    ensures Covers(xs, id, l) ==> HasEvent(xs, id)
  {
    if Covers(xs, id, l) {
      var j :| 0 <= j < |xs| && EventId(xs[j]) == id && l in xs[j].slice;
    }
  }

  /** How the events and the ranges of a list grow by one slice. */
  lemma AppendFacts(init: seq<CellSlice>, cs: CellSlice)
    ensures forall id :: HasEvent(init + [cs], id) <==> HasEvent(init, id) || id == EventId(cs)
    ensures forall id, l :: Covers(init + [cs], id, l) <==> Covers(init, id, l) || (id == EventId(cs) && l in cs.slice)
  {
    var xs := init + [cs];
    assert forall j :: 0 <= j < |init| ==> xs[j] == init[j];
    assert xs[|init|] == cs;
    forall id ensures HasEvent(xs, id) <==> HasEvent(init, id) || id == EventId(cs) {
      if HasEvent(xs, id) {
        var j :| 0 <= j < |xs| && EventId(xs[j]) == id;
        if j < |init| { assert EventId(init[j]) == id; }
      }
      if HasEvent(init, id) {
        var j :| 0 <= j < |init| && EventId(init[j]) == id;
        assert EventId(xs[j]) == id;
      }
    }
    forall id, l ensures Covers(xs, id, l) <==> Covers(init, id, l) || (id == EventId(cs) && l in cs.slice) {
      if Covers(xs, id, l) {
        var j :| 0 <= j < |xs| && EventId(xs[j]) == id && l in xs[j].slice;
        if j < |init| { assert EventId(init[j]) == id && l in init[j].slice; }
      }
      if Covers(init, id, l) {
        var j :| 0 <= j < |init| && EventId(init[j]) == id && l in init[j].slice;
        assert xs[j] == init[j];
      }
    }
  }

  /** The slices of several executions, one after another. */
  function Flatten(es: seq<SlicedExecution>): (r: seq<CellSlice>)
    decreases |es|
  {
    if es == [] then [] else es[0].cellSlices + Flatten(es[1..])
  }

  /** Every slice of the execution `self` and of the `others`. */
  function AllSlices(self: SlicedExecution, others: seq<SlicedExecution>): seq<CellSlice> {
    self.cellSlices + Flatten(others)
  }

  /** `self.merge(...others)`: one cell slice per cell execution found in any
      of them, holding every range any of them select in that execution's
      cell, ordered by ascending execution count. */
  function MergeAll(self: SlicedExecution, others: seq<SlicedExecution>): (r: SlicedExecution)
    ensures SortedBy(r.cellSlices, Count)
    ensures DistinctEvents(r.cellSlices)
    ensures forall id :: HasEvent(r.cellSlices, id) <==> HasEvent(AllSlices(self, others), id)
    ensures forall i, l :: 0 <= i < |r.cellSlices| ==>
              (l in r.cellSlices[i].slice <==> Covers(AllSlices(self, others), EventId(r.cellSlices[i]), l))
    ensures forall i :: 0 <= i < |r.cellSlices| ==> NoDup(r.cellSlices[i].slice)
    ensures forall i :: 0 <= i < |r.cellSlices| ==> FirstCell(AllSlices(self, others), r.cellSlices[i])
  {
    var g := Gather(AllSlices(self, others));
    var s := SortBy(g, Count);
    SortedFacts(g, s);
    SlicedExecution(s)
  }

  /** What `Gather` promises survives the sort, which only permutes. */
  lemma SortedFacts(g: seq<CellSlice>, s: seq<CellSlice>)
    requires multiset(s) == multiset(g) && |s| == |g|
    requires DistinctEvents(g)
    ensures DistinctEvents(s)
    ensures forall id :: HasEvent(s, id) <==> HasEvent(g, id)
    ensures forall i :: 0 <= i < |s| ==> exists j :: 0 <= j < |g| && s[i] == g[j]
  {
    forall i | 0 <= i < |s| ensures exists j :: 0 <= j < |g| && s[i] == g[j] {
      assert s[i] in multiset(g);
    }
    forall id ensures HasEvent(s, id) <==> HasEvent(g, id) {
      if HasEvent(g, id) {
        var j :| 0 <= j < |g| && EventId(g[j]) == id;
        assert g[j] in multiset(s);
        var i :| 0 <= i < |s| && s[i] == g[j];
      }
    }
    forall i, j | 0 <= i < j < |s| ensures EventId(s[i]) != EventId(s[j]) {
      var a :| 0 <= a < |g| && s[i] == g[a];
      var b :| 0 <= b < |g| && s[j] == g[b];
      if a == b {
        // Two copies of one element would need two copies of it in `g`.
        assert multiset(s)[s[i]] >= 2 by {
          assert s[i] in multiset(s[..j]) by { assert s[..j][i] == s[i]; }
          assert s == s[..j] + s[j..];
          assert s[j..][0] == s[j];
          assert multiset(s) == multiset(s[..j]) + multiset(s[j..]);
        }
        DistinctCount(g, a);
        assert false;
      }
    }
  }

  /** In a list of slices of distinct executions each element occurs once. */
  lemma DistinctCount(g: seq<CellSlice>, a: nat)
    requires DistinctEvents(g) && a < |g|
    ensures multiset(g)[g[a]] == 1
  {
    var x := g[a];
    assert g == g[..a] + [x] + g[a + 1..];
    assert x !in g[..a] by {
      forall j | 0 <= j < a ensures g[..a][j] != x { assert EventId(g[j]) != EventId(g[a]); }
    }
    assert x !in g[a + 1..] by {
      forall j | a < j < |g| ensures g[j] != x { assert EventId(g[j]) != EventId(g[a]); }
    }
    assert multiset(g) == multiset(g[..a]) + multiset{x} + multiset(g[a + 1..]);
  }

  function EventIds(xs: seq<CellSlice>): set<string> {
    set k | 0 <= k < |xs| :: EventId(xs[k])
  }

  lemma DistinctEventIds(xs: seq<CellSlice>)
    requires DistinctEvents(xs)
    ensures |EventIds(xs)| == |xs|
    decreases |xs|
  {
    if xs != [] {
      var init := xs[..|xs| - 1];
      DistinctEventIds(init);
      assert EventIds(xs) == EventIds(init) + {EventId(xs[|xs| - 1])} by {
        forall id | id in EventIds(xs) ensures id in EventIds(init) || id == EventId(xs[|xs| - 1]) {
          var k :| 0 <= k < |xs| && EventId(xs[k]) == id;
          if k < |xs| - 1 { assert EventId(init[k]) == id; }
        }
        forall id | id in EventIds(init) ensures id in EventIds(xs) {
          var k :| 0 <= k < |init| && EventId(init[k]) == id;
          assert EventId(xs[k]) == id;
        }
      }
    }
  }

  lemma EventIdsHas(xs: seq<CellSlice>)
    ensures forall id :: id in EventIds(xs) <==> HasEvent(xs, id)
  {
  }

  /** The merge has exactly one cell slice per distinct execution among its
      inputs. */
  lemma {:induction false} MergeSize(self: SlicedExecution, others: seq<SlicedExecution>)
    ensures |MergeAll(self, others).cellSlices| == |EventIds(AllSlices(self, others))|
  {
    var r := MergeAll(self, others).cellSlices;
    DistinctEventIds(r);
    EventIdsHas(r);
    EventIdsHas(AllSlices(self, others));
    assert EventIds(r) == EventIds(AllSlices(self, others));
  }

  /** When no execution occurs twice among the inputs, the merge keeps every
      input slice: its length is the sum of the input lengths. */
  lemma {:induction false} MergeDistinctSize(self: SlicedExecution, others: seq<SlicedExecution>)
    requires DistinctEvents(AllSlices(self, others))
    ensures |MergeAll(self, others).cellSlices| == |AllSlices(self, others)|
  {
    MergeSize(self, others);
    DistinctEventIds(AllSlices(self, others));
  }

  /** Merging is symmetric: `a.merge(b)` and `b.merge(a)` hold the same
      executions, and for each of them the same ranges. */
  lemma {:induction false} MergeSymmetric(a: SlicedExecution, b: SlicedExecution)
    ensures forall id :: HasEvent(MergeAll(a, [b]).cellSlices, id) <==> HasEvent(MergeAll(b, [a]).cellSlices, id)
    ensures forall i, j, l :: (0 <= i < |MergeAll(a, [b]).cellSlices| && 0 <= j < |MergeAll(b, [a]).cellSlices| &&
                               EventId(MergeAll(a, [b]).cellSlices[i]) == EventId(MergeAll(b, [a]).cellSlices[j])) ==>
              (l in MergeAll(a, [b]).cellSlices[i].slice <==> l in MergeAll(b, [a]).cellSlices[j].slice)
  {
    assert Flatten([b]) == b.cellSlices + Flatten([]);
    assert Flatten([a]) == a.cellSlices + Flatten([]);
    var ab, ba := AllSlices(a, [b]), AllSlices(b, [a]);
    assert ab == a.cellSlices + b.cellSlices;
    assert ba == b.cellSlices + a.cellSlices;
    SwapHasEvent(a.cellSlices, b.cellSlices);
    SwapCovers(a.cellSlices, b.cellSlices);
  }

  /** Swapping two lists of slices keeps the executions they hold. */
  lemma SwapHasEvent(xs: seq<CellSlice>, ys: seq<CellSlice>)
    ensures forall id :: HasEvent(xs + ys, id) <==> HasEvent(ys + xs, id)
  {
    forall id ensures HasEvent(xs + ys, id) <==> HasEvent(ys + xs, id) {
      if HasEvent(xs + ys, id) {
        var k :| 0 <= k < |xs + ys| && EventId((xs + ys)[k]) == id;
        var k' := if k < |xs| then |ys| + k else k - |xs|;
        assert (ys + xs)[k'] == (xs + ys)[k];
      }
      if HasEvent(ys + xs, id) {
        var k :| 0 <= k < |ys + xs| && EventId((ys + xs)[k]) == id;
        var k' := if k < |ys| then |xs| + k else k - |ys|;
        assert (xs + ys)[k'] == (ys + xs)[k];
      }
    }
  }

  /** Swapping two lists of slices keeps the locations each execution covers. */
  lemma SwapCovers(xs: seq<CellSlice>, ys: seq<CellSlice>)
    ensures forall id, l :: Covers(xs + ys, id, l) <==> Covers(ys + xs, id, l)
  {
    forall id, l ensures Covers(xs + ys, id, l) <==> Covers(ys + xs, id, l) {
      if Covers(xs + ys, id, l) {
        var k :| 0 <= k < |xs + ys| && EventId((xs + ys)[k]) == id && l in (xs + ys)[k].slice;
        var k' := if k < |xs| then |ys| + k else k - |xs|;
        assert (ys + xs)[k'] == (xs + ys)[k];
      }
      if Covers(ys + xs, id, l) {
        var k :| 0 <= k < |ys + xs| && EventId((ys + xs)[k]) == id && l in (ys + xs)[k].slice;
        var k' := if k < |ys| then |xs| + k else k - |ys|;
        assert (xs + ys)[k'] == (ys + xs)[k];
      }
    }
  }

  // ---------------------------------------------------------------- scenarios

  const Line := Location(1, 0, 1, 5)

  function Exec(cs: seq<CellSlice>): SlicedExecution { SlicedExecution(cs) }

  /** A merge of two one-slice executions, as a list of two slices. */
  lemma Pair(a: CellSlice, b: CellSlice)
    ensures AllSlices(Exec([a]), [Exec([b])]) == [a, b]
  {
    assert Flatten([Exec([b])]) == [b] + Flatten([]);
  }

  /** Gathering the slices of two different executions keeps both, each
      with its own ranges. */
  lemma GatherDistinct(a: CellSlice, b: CellSlice)
    requires EventId(a) != EventId(b)
    ensures Gather([a, b]) == [CellSlice(a.cell, FromSeq(a.slice)), CellSlice(b.cell, FromSeq(b.slice))]
  {
    assert [a, b][..1] == [a];
    assert [a][..0] == [];
    var one := [CellSlice(a.cell, FromSeq(a.slice))];
    assert Gather([a]) == MergeOne([], a) == one;
    assert IndexOfEvent(one, EventId(b)) == (if EventId(a) == EventId(b) then 0 else 1);
  }

  /** Gathering two slices of one execution unites their ranges. */
  lemma GatherSame(a: CellSlice, b: CellSlice)
    requires EventId(a) == EventId(b)
    ensures Gather([a, b]) == [CellSlice(a.cell, SetUnion(FromSeq(a.slice), b.slice))]
  {
    assert [a, b][..1] == [a];
    assert [a][..0] == [];
    var one := [CellSlice(a.cell, FromSeq(a.slice))];
    assert Gather([a]) == MergeOne([], a) == one;
    assert IndexOfEvent(one, EventId(b)) == (if EventId(a) == EventId(b) then 0 else 1);
  }

  lemma SortPair(x: CellSlice, y: CellSlice)
    ensures SortBy([x, y], Count) == if Count(x) <= Count(y) then [x, y] else [y, x]
  {
    SortTwo(x, y, Count);
  }

  /** Two executions of different cells: both cell slices are kept, the one
      counted 1 first. */
  lemma DifferentCells(c1: Cell, c2: Cell)
    requires c1.executionEventId == "1" && c1.executionCount == Some(1)
    requires c2.executionEventId == "2" && c2.executionCount == Some(2)
    ensures var m := MergeAll(Exec([CellSlice(c1, [Line])]), [Exec([CellSlice(c2, [Line])])]).cellSlices;
            |m| == 2 && EventId(m[0]) == "1" && EventId(m[1]) == "2"
  {
    var a, b := CellSlice(c1, [Line]), CellSlice(c2, [Line]);
    Pair(a, b);
    GatherDistinct(a, b);
    SortPair(CellSlice(c1, FromSeq([Line])), CellSlice(c2, FromSeq([Line])));
  }

  /** The same execution with the same range twice: one entry with one range. */
  lemma SameLocationsOnce(c: Cell)
    ensures var m := MergeAll(Exec([CellSlice(c, [Line])]), [Exec([CellSlice(c, [Line])])]).cellSlices;
            |m| == 1 && |m[0].slice| == 1
  {
    var a := CellSlice(c, [Line]);
    Pair(a, a);
    GatherSame(a, a);
    FromSeqDistinct([Line]);
    UnionIdempotent([Line]);
    assert SortBy([CellSlice(c, [Line])], Count) == [CellSlice(c, [Line])];
  }

  /** Two runs sharing the persistent id and the execution count but not the
      execution event id stay two entries. */
  lemma EventIdentity(c1: Cell, c2: Cell)
    requires c1.executionEventId == "1" && c2.executionEventId == "2"
    requires c1.persistentId == c2.persistentId && c1.executionCount == c2.executionCount
    ensures |MergeAll(Exec([CellSlice(c1, [Line])]), [Exec([CellSlice(c2, [Line])])]).cellSlices| == 2
  {
    var a, b := CellSlice(c1, [Line]), CellSlice(c2, [Line]);
    Pair(a, b);
    GatherDistinct(a, b);
    SortPair(CellSlice(c1, FromSeq([Line])), CellSlice(c2, FromSeq([Line])));
  }

  /** Two different ranges of the same execution: one entry holding both,
      although one range lies inside the other. */
  lemma ComplementaryRanges(c: Cell)
    ensures var m := MergeAll(Exec([CellSlice(c, [Line])]), [Exec([CellSlice(c, [Location(1, 0, 1, 4)])])]).cellSlices;
            |m| == 1 && m[0].slice == [Line, Location(1, 0, 1, 4)]
  {
    var a, b := CellSlice(c, [Line]), CellSlice(c, [Location(1, 0, 1, 4)]);
    Pair(a, b);
    GatherSame(a, b);
    FromSeqDistinct([Line]);
    OverlapKept(Line, Location(1, 0, 1, 4));
    var u := CellSlice(c, [Line, Location(1, 0, 1, 4)]);
    assert SortBy([u], Count) == [u];
  }

  /** The result follows the execution counts, not the argument order. */
  lemma ExecutionOrder(c1: Cell, c2: Cell)
    requires c1.executionEventId == "2" && c1.executionCount == Some(2)
    requires c2.executionEventId == "1" && c2.executionCount == Some(1)
    ensures var m := MergeAll(Exec([CellSlice(c1, [Line])]), [Exec([CellSlice(c2, [Location(1, 0, 1, 4)])])]).cellSlices;
            |m| == 2 && m[0].cell.executionCount == Some(1) && m[1].cell.executionCount == Some(2)
  {
    var a, b := CellSlice(c1, [Line]), CellSlice(c2, [Location(1, 0, 1, 4)]);
    Pair(a, b);
    GatherDistinct(a, b);
    SortPair(CellSlice(c1, FromSeq(a.slice)), CellSlice(c2, FromSeq(b.slice)));
  }

  /** Three executions of two distinct cells each merge into six entries. */
  lemma NWay(cs: seq<Cell>)
    requires |cs| == 6
    requires forall i, j :: 0 <= i < j < 6 ==> cs[i].executionEventId != cs[j].executionEventId
    ensures |MergeAll(Exec([CellSlice(cs[0], [Line]), CellSlice(cs[1], [Line])]),
                      [Exec([CellSlice(cs[2], [Line]), CellSlice(cs[3], [Line])]),
                       Exec([CellSlice(cs[4], [Line]), CellSlice(cs[5], [Line])])]).cellSlices| == 6
  {
    var x := Exec([CellSlice(cs[0], [Line]), CellSlice(cs[1], [Line])]);
    var y := Exec([CellSlice(cs[2], [Line]), CellSlice(cs[3], [Line])]);
    var z := Exec([CellSlice(cs[4], [Line]), CellSlice(cs[5], [Line])]);
    assert [y, z][1..] == [z];
    assert [z][1..] == [];
    assert Flatten([z]) == z.cellSlices;
    assert Flatten([y, z]) == y.cellSlices + z.cellSlices;
    var all := AllSlices(x, [y, z]);
    assert |all| == 6;
    assert forall k :: 0 <= k < 6 ==> all[k] == CellSlice(cs[k], [Line]);
    MergeDistinctSize(x, [y, z]);
  }
}
