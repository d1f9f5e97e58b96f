/** Small shared definitions: an Option type, duplicate-free sequences, sets
    kept as sequences in insertion order, a stable sort, and the string
    helpers (split, join, JavaScript slices) that the slicing code renders
    text with. */
module Util {

  datatype Option<+T> = None | Some(value: T)

  /** No element occurs twice. */
  predicate NoDup<T(==)>(s: seq<T>) {
    forall i, j :: 0 <= i < j < |s| ==> s[i] != s[j]
  }

  lemma NoDupAppend<T>(s: seq<T>, x: T)
    requires NoDup(s) && x !in s
    ensures NoDup(s + [x])
  {
  }

  lemma NoDupPair<T>(x: T, y: T)
    requires x != y
    ensures NoDup([x, y])
  {
  }

  lemma NoDupTriple<T>(x: T, y: T, z: T)
    requires x != y && x != z && y != z
    ensures NoDup([x, y, z])
  {
  }

  /** A duplicate-free sequence has as many elements as the set of its elements. */
  lemma {:induction false} NoDupCard<T>(s: seq<T>)
    requires NoDup(s)
    ensures |set x | x in s| == |s|
  {
    if s != [] {
      var t := s[..|s| - 1];
      var last := s[|s| - 1];
      assert NoDup(t);
      NoDupCard(t);
      assert (set x | x in s) == (set x | x in t) + {last} by {
        forall x | x in s ensures x in t || x == last {
          var i :| 0 <= i < |s| && s[i] == x;
          if i < |s| - 1 { assert t[i] == x; }
        }
      }
      assert last !in (set x | x in t);
    }
  }

  /** The naturals below n, as a set. */
  function Below(n: nat): (r: set<nat>)
    ensures |r| == n
    ensures forall i: int :: i in r <==> 0 <= i < n
  {
    if n == 0 then {} else Below(n - 1) + {n - 1}
  }

  lemma {:induction false} SubsetCard<T>(a: set<T>, b: set<T>)
    requires a <= b
    ensures |a| <= |b|
  {
    if a != {} {
      var x :| x in a;
      SubsetCard(a - {x}, b - {x});
    }
  }

  /** Adds one item to a set kept as a sequence in insertion order (the
      `Set` class that location sets and reference sets are made of). */
  function SetAdd<T(==,!new)>(s: seq<T>, x: T): (r: seq<T>)
    ensures forall m :: m in r <==> m in s || m == x
    ensures NoDup(s) ==> NoDup(r)
    ensures |s| <= |r| <= |s| + 1 && r[..|s|] == s
  {
    if x in s then s else s + [x]
  }

  /** The union of two sets: the first one's items, then the new items of
      the second, in their order. */
  function SetUnion<T(==,!new)>(a: seq<T>, b: seq<T>): (r: seq<T>)
    ensures forall m :: m in r <==> m in a || m in b
    ensures NoDup(a) ==> NoDup(r)
    ensures |a| <= |r| && r[..|a|] == a
    decreases |b|
  {
    if b == [] then a
    else
      var a' := SetAdd(a, b[0]);
      var r := SetUnion(a', b[1..]);
      assert r[..|a|] == r[..|a'|][..|a|];
      r
  }

  /** A set built from a list of items. */
  function FromSeq<T(==,!new)>(xs: seq<T>): (r: seq<T>)
    ensures NoDup(r)
    ensures forall m :: m in r <==> m in xs
  {
    SetUnion([], xs)
  }

  /** A union of sets with nothing in common, neither within nor between
      them, is their concatenation. */
  lemma {:induction false} UnionDisjoint<T(!new)>(a: seq<T>, b: seq<T>)
    requires NoDup(a + b)
    ensures SetUnion(a, b) == a + b
    decreases |b|
  {
    if b != [] {
      assert b[0] !in a by {
        assert (a + b)[|a|] == b[0];
        assert forall i :: 0 <= i < |a| ==> (a + b)[i] == a[i];
      }
      assert a + [b[0]] + b[1..] == a + b;
      UnionDisjoint(a + [b[0]], b[1..]);
    } else {
      assert a + b == a;
    }
  }

  /** The set of a sequence keeps its first item first. */
  lemma FromSeqFront<T(!new)>(x: T, xs: seq<T>)
    ensures FromSeq([x] + xs) == SetUnion([x], xs)
  {
    assert ([x] + xs)[1..] == xs;
    assert SetAdd([], x) == [x];
  }

  /** A duplicate-free list is already a set. */
  lemma FromSeqDistinct<T(!new)>(xs: seq<T>)
    requires NoDup(xs)
    ensures FromSeq(xs) == xs
  {
    UnionDisjoint([], xs);
    assert [] + xs == xs;
  }

  /** The size of a union is the number of distinct items in it. */
  lemma {:induction false} UnionSize<T(!new)>(a: seq<T>, b: seq<T>)
    requires NoDup(a)
    ensures |SetUnion(a, b)| == |(set m | m in a) + (set m | m in b)|
  {
    var r := SetUnion(a, b);
    NoDupCard(r);
    assert (set m | m in r) == (set m | m in a) + (set m | m in b);
  }

  /** Union is idempotent: a set unioned with itself is unchanged. */
  lemma {:induction false} UnionIdempotent<T(!new)>(a: seq<T>)
    requires NoDup(a)
    ensures SetUnion(a, a) == a
  {
    var r := SetUnion(a, a);
    assert r[..|a|] == a;
    UnionSize(a, a);
    NoDupCard(a);
    assert (set m | m in a) + (set m | m in a) == (set m | m in a);
    assert r == r[..|a|];
  }

  /** An index as JavaScript's `slice` reads it: a negative index counts from
      the end, and the result is clamped to [0, len]. */
  function JsIndex(i: int, len: nat): (r: nat)
    ensures r <= len
    ensures 0 <= i <= len ==> r == i
    ensures i < 0 && 0 <= len + i ==> r == len + i
  {
    if i < 0 then (if len + i < 0 then 0 else len + i)
    else if i > len then len else i
  }

  /** JavaScript's `s.slice(from, to)` on strings and arrays. */
  function JsSlice<T>(s: seq<T>, from: int, to: int): (r: seq<T>)
    ensures |r| <= |s|
    ensures 0 <= from <= to <= |s| ==> r == s[from..to]
    ensures JsIndex(to, |s|) <= JsIndex(from, |s|) ==> r == []
  {
    var a := JsIndex(from, |s|);
    var b := JsIndex(to, |s|);
    if b <= a then [] else s[a..b]
  }

  /** What a JavaScript slice returns is taken from the sliced sequence. */
  lemma JsSliceWithin<T>(s: seq<T>, from: int, to: int)
    ensures forall x :: x in JsSlice(s, from, to) ==> x in s
  {
  }

  /** Keys never decrease along the sequence. */
  predicate SortedBy<T>(s: seq<T>, key: T -> int) {
    forall i, j :: 0 <= i < j < |s| ==> key(s[i]) <= key(s[j])
  }

  /** Puts `x` into the sorted `s` after every element whose key is not larger. */
  function Insert<T>(s: seq<T>, x: T, key: T -> int): (r: seq<T>)
    requires SortedBy(s, key)
    ensures SortedBy(r, key)
    ensures multiset(r) == multiset(s) + multiset{x}
    decreases |s|
  {
    if s == [] || key(s[|s| - 1]) <= key(x) then
      SortedBelowLast(s, key);
      SortedSnoc(s, x, key);
      s + [x]
    else
      var init, last := s[..|s| - 1], s[|s| - 1];
      assert s == init + [last];
      SortedBelowLast(s, key);
      var r' := Insert(init, x, key);
      InsertBelow(r', init, x, key(last), key);
      SortedSnoc(r', last, key);
      r' + [last]
  }

  /** Sorting two elements swaps them only when the first has the larger key. */
  lemma SortTwo<T>(x: T, y: T, key: T -> int)
    ensures SortBy([x, y], key) == if key(x) <= key(y) then [x, y] else [y, x]
  {
    var s := [x, y];
    assert s[..1] == [x] && s[1] == y;
    SortOne(x, key);
    assert SortBy(s, key) == Insert([x], y, key);
    InsertAfterOne(x, y, key);
  }

  lemma SortOne<T>(x: T, key: T -> int)
    ensures SortBy([x], key) == [x]
  {
    assert [x][..0] == [];
    assert Insert([], x, key) == [x];
  }

  lemma InsertAfterOne<T>(x: T, y: T, key: T -> int)
    ensures Insert([x], y, key) == if key(x) <= key(y) then [x, y] else [y, x]
  {
    if key(x) > key(y) {
      assert [x][..0] == [];
      assert Insert([], y, key) == [y];
      assert [y] + [x] == [y, x];
    }
  }

  /** A non-empty sequence is its front and its last element. */
  lemma InitLast<T>(s: seq<T>)
    requires s != []
    ensures s == s[..|s| - 1] + [s[|s| - 1]]
  {
  }

  /** Every element of a sorted non-empty sequence has a key at most the last one's,
      and dropping the last element keeps it sorted. */
  lemma SortedBelowLast<T>(s: seq<T>, key: T -> int)
    requires SortedBy(s, key)
    ensures s != [] ==> forall y :: y in s ==> key(y) <= key(s[|s| - 1])
    ensures s != [] ==> SortedBy(s[..|s| - 1], key)
  {
    if s != [] {
      forall y | y in s ensures key(y) <= key(s[|s| - 1]) {
        var k :| 0 <= k < |s| && s[k] == y;
      }
    }
  }

  /** Appending an element whose key bounds all others keeps a sequence sorted. */
  lemma SortedSnoc<T>(s: seq<T>, x: T, key: T -> int)
    requires SortedBy(s, key)
    requires forall y :: y in s ==> key(y) <= key(x)
    ensures SortedBy(s + [x], key)
  {
    var t := s + [x];
    forall i, j | 0 <= i < j < |t| ensures key(t[i]) <= key(t[j]) {
      assert t[i] == s[i];
      if j == |s| {
        assert s[i] in s;
      } else {
        assert t[j] == s[j];
      }
    }
  }

  /** A bound on the keys of `init` and `x` bounds the keys after inserting `x`. */
  lemma InsertBelow<T>(r: seq<T>, init: seq<T>, x: T, bound: int, key: T -> int)
    requires multiset(r) == multiset(init) + multiset{x}
    requires key(x) <= bound
    requires forall y :: y in init ==> key(y) <= bound
    ensures forall y :: y in r ==> key(y) <= bound
  {
    forall y | y in r ensures key(y) <= bound {
      assert y in multiset(r);
      if y != x {
        assert y in multiset(init);
      }
    }
  }

  /** Sorting a sequence that is already in key order leaves it as it is. */
  lemma {:induction false} SortBySorted<T>(s: seq<T>, key: T -> int)
    requires SortedBy(s, key)
    ensures SortBy(s, key) == s
    decreases |s|
  {
    if s != [] {
      var init, last := s[..|s| - 1], s[|s| - 1];
      SortedInit(s, key);
      SortBySorted(init, key);
      SortByStep(s, key);
      InsertLast(init, last, key);
      calc {
        SortBy(s, key);
        Insert(SortBy(init, key), last, key);
        Insert(init, last, key);
        init + [last];
        { InitLast(s); }
        s;
      }
    }
  }

  /** The front of a sorted sequence is sorted, and its last key is at most the last one's. */
  lemma SortedInit<T>(s: seq<T>, key: T -> int)
    requires SortedBy(s, key) && s != []
    ensures SortedBy(s[..|s| - 1], key)
    ensures |s| > 1 ==> key(s[|s| - 2]) <= key(s[|s| - 1])
  {
  }

  /** How `SortBy` takes the last element. */
  lemma SortByStep<T>(s: seq<T>, key: T -> int)
    requires s != []
    ensures SortedBy(SortBy(s[..|s| - 1], key), key)
    ensures SortBy(s, key) == Insert(SortBy(s[..|s| - 1], key), s[|s| - 1], key)
  {
  }

  /** An element whose key is at least the last one's is inserted at the end. */
  lemma InsertLast<T>(s: seq<T>, x: T, key: T -> int)
    requires SortedBy(s, key)
    requires s != [] ==> key(s[|s| - 1]) <= key(x)
    ensures Insert(s, x, key) == s + [x]
  {
  }

  /** Stable insertion sort by key, as JavaScript's `Array.prototype.sort`
      sorts with a comparator that subtracts keys. */
  function SortBy<T>(s: seq<T>, key: T -> int): (r: seq<T>)
    ensures SortedBy(r, key)
    ensures multiset(r) == multiset(s) && |r| == |s|
    decreases |s|
  {
    if s == [] then []
    else
      assert s == s[..|s| - 1] + [s[|s| - 1]];
      var r := Insert(SortBy(s[..|s| - 1], key), s[|s| - 1], key);
      assert |r| == |multiset(r)| == |multiset(s)| == |s|;
      r
  }

  /** The pieces of `s` between occurrences of `sep`, as JavaScript's
      `String.prototype.split` gives them: "a\nb\n" splits into "a", "b", "". */
  function Split(s: string, sep: char): (r: seq<string>)
    ensures |r| >= 1
    ensures forall k :: 0 <= k < |r| ==> sep !in r[k]
    decreases |s|
  {
    if s == [] then [""]
    else
      var rest := Split(s[1..], sep);
      if s[0] == sep then [""] + rest
      else [[s[0]] + rest[0]] + rest[1..]
  }

  /** The pieces concatenated with `sep` between consecutive pieces. */
  function Join(parts: seq<string>, sep: char): (r: string)
    ensures |parts| == 1 ==> r == parts[0]
    decreases |parts|
  {
    if parts == [] then ""
    else if |parts| == 1 then parts[0]
    else parts[0] + [sep] + Join(parts[1..], sep)
  }

  /** Joining gives the empty text exactly for no piece or one empty piece. */
  lemma JoinEmpty(parts: seq<string>, sep: char)
    ensures Join(parts, sep) == "" <==> parts == [] || parts == [""]
  {
    if |parts| >= 2 {
      assert |Join(parts, sep)| >= |parts[0] + [sep]|;
    }
  }

  /** Joining two non-empty runs of pieces puts one separator between them. */
  lemma {:induction false} JoinAppend(a: seq<string>, b: seq<string>, sep: char)
    requires a != [] && b != []
    ensures Join(a + b, sep) == Join(a, sep) + [sep] + Join(b, sep)
    decreases |a|
  {
    if |a| == 1 {
      assert (a + b)[1..] == b;
    } else {
      JoinAppend(a[1..], b, sep);
      assert (a + b)[1..] == a[1..] + b;
    }
  }

  /** Splitting undoes joining, as long as no piece contains the separator. */
  lemma {:induction false} SplitJoin(parts: seq<string>, sep: char)
    requires |parts| >= 1
    requires forall k :: 0 <= k < |parts| ==> sep !in parts[k]
    ensures Split(Join(parts, sep), sep) == parts
    decreases |parts|, |parts[0]|
  {
    if |parts| == 1 {
      SplitSingle(parts[0], sep);
    } else {
      var p := parts[0];
      if p == [] {
        assert Join(parts, sep) == [sep] + Join(parts[1..], sep);
        assert ([sep] + Join(parts[1..], sep))[1..] == Join(parts[1..], sep);
        SplitJoin(parts[1..], sep);
        assert Split(Join(parts, sep), sep) == [""] + parts[1..];
        assert parts == [""] + parts[1..];
      } else {
        var shorter := [p[1..]] + parts[1..];
        assert Join(parts, sep) == [p[0]] + Join(shorter, sep) by {
          assert Join(shorter, sep) == p[1..] + [sep] + Join(parts[1..], sep);
          assert p == [p[0]] + p[1..];
        }
        assert sep !in p[1..] by {
          forall c | c in p[1..] ensures c != sep { assert c in p; }
        }
        SplitJoin(shorter, sep);
        assert ([p[0]] + Join(shorter, sep))[1..] == Join(shorter, sep);
        assert [p[0]] + p[1..] == p;
        assert Split(Join(parts, sep), sep) == [[p[0]] + shorter[0]] + shorter[1..];
        assert shorter[1..] == parts[1..];
      }
    }
  }

  /** A string without the separator is not split at all. */
  lemma {:induction false} SplitSingle(s: string, sep: char)
    requires sep !in s
    ensures Split(s, sep) == [s]
    decreases |s|
  {
    if s != [] {
      assert sep !in s[1..] by {
        forall c | c in s[1..] ensures c != sep { assert c in s; }
      }
      SplitSingle(s[1..], sep);
      assert [s[0]] + s[1..] == s;
    }
  }

  /** The pieces of `a + b` from those of `a` and of `b`: the last piece of
      the first and the first piece of the second run together. */
  function Glue(sa: seq<string>, sb: seq<string>): seq<string>
    requires |sa| >= 1 && |sb| >= 1
  {
    sa[..|sa| - 1] + [sa[|sa| - 1] + sb[0]] + sb[1..]
  }

  /** The pieces of `[c] + s` from those of `s`. */
  function SplitStep(c: char, st: seq<string>, sep: char): seq<string>
    requires |st| >= 1
  {
    if c == sep then [""] + st else [[c] + st[0]] + st[1..]
  }

  /** Splitting a concatenation: the last piece of the first part and the
      first piece of the second part run together. */
  lemma {:induction false} SplitConcat(a: string, b: string, sep: char)
    ensures Split(a + b, sep) == Glue(Split(a, sep), Split(b, sep))
    decreases |a|
  {
    var sb := Split(b, sep);
    if a == [] {
      assert a + b == b;
      var sa := Split(a, sep);
      assert sa == [""];
      assert sa[..0] == [];
      assert sa[0] + sb[0] == sb[0];
      assert [sb[0]] + sb[1..] == sb;
    } else {
      var c, t := a[0], a[1..];
      SplitConcat(t, b, sep);
      assert a + b == [c] + (t + b) && a == [c] + t;
      SplitCons(c, t + b, sep);
      SplitCons(c, t, sep);
      JoinPieces(c, Split(t, sep), sb, sep);
    }
  }

  /** How `Split` reads its first character. */
  lemma SplitCons(c: char, s: string, sep: char)
    ensures Split([c] + s, sep) == SplitStep(c, Split(s, sep), sep)
  {
    assert ([c] + s)[1..] == s;
  }

  /** The step case of `SplitConcat`, on the pieces alone. */
  lemma JoinPieces(c: char, st: seq<string>, sb: seq<string>, sep: char)
    requires |st| >= 1 && |sb| >= 1
    ensures SplitStep(c, Glue(st, sb), sep) == Glue(SplitStep(c, st, sep), sb)
  {
    if c == sep {
      JoinPiecesSep(st, sb);
    } else if |st| == 1 {
      JoinPiecesOne(c, st, sb);
    } else {
      JoinPiecesMore(c, st, sb);
    }
  }

  lemma JoinPiecesSep(st: seq<string>, sb: seq<string>)
    requires |st| >= 1 && |sb| >= 1
    ensures [""] + Glue(st, sb) == Glue([""] + st, sb)
  {
    var n, sa := |st|, [""] + st;
    assert sa[..|sa| - 1] == [""] + st[..n - 1];
    assert sa[|sa| - 1] == st[n - 1];
  }

  lemma JoinPiecesOne(c: char, st: seq<string>, sb: seq<string>)
    requires |st| == 1 && |sb| >= 1
    ensures [[c] + Glue(st, sb)[0]] + Glue(st, sb)[1..] == Glue([[c] + st[0]] + st[1..], sb)
  {
    var rest, sa := Glue(st, sb), [[c] + st[0]];
    assert st[1..] == [];
    assert rest == [st[0] + sb[0]] + sb[1..];
    assert Glue(sa, sb) == [sa[0] + sb[0]] + sb[1..];
    assert [c] + rest[0] == sa[0] + sb[0];
  }

  lemma JoinPiecesMore(c: char, st: seq<string>, sb: seq<string>)
    requires |st| > 1 && |sb| >= 1
    ensures [[c] + Glue(st, sb)[0]] + Glue(st, sb)[1..] == Glue([[c] + st[0]] + st[1..], sb)
  {
    var n, rest, sa := |st|, Glue(st, sb), [[c] + st[0]] + st[1..];
    assert rest[0] == st[0];
    assert rest[1..] == st[1..n - 1] + [st[n - 1] + sb[0]] + sb[1..];
    assert sa[..|sa| - 1] == [[c] + st[0]] + st[1..n - 1];
    assert sa[|sa| - 1] == st[n - 1];
  }

  /** A line break at the end of a text adds one empty piece. */
  lemma SplitNewline(a: string, sep: char)
    ensures Split(a + [sep], sep) == Split(a, sep) + [""]
  {
    SplitConcat(a, [sep], sep);
    var sa := Split(a, sep);
    assert Split([sep], sep) == ["", ""] by {
      assert [sep][1..] == [];
    }
    assert sa[|sa| - 1] + "" == sa[|sa| - 1];
    assert sa[..|sa| - 1] + [sa[|sa| - 1]] == sa;
  }
}
