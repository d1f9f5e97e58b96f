/** A cell restricted to a location set, and its two renderings
    (cellslice.ts): `TextSlice` keeps exactly the covered columns,
    `TextSliceLines` keeps every covered line in full. Lines are 1-based and
    columns 0-based, half-open. */
module CellSlices {
  import opened Util
  import opened Locations
  import opened Cells

  datatype CellSlice = CellSlice(cell: Cell, slice: seq<Location>)

  function FirstLine(l: Location): int { l.firstLine }

  /** The lines a range reaches: its first line through its last one, the last
      one only when the range extends past its column 0. */
  function RangeLines(lines: seq<string>, l: Location): (r: seq<string>)
    ensures 1 <= l.firstLine <= l.lastLine <= |lines| && l.lastColumn > 0 ==>
              r == lines[l.firstLine - 1 .. l.lastLine]
    ensures 1 <= l.firstLine < l.lastLine <= |lines| + 1 && l.lastColumn <= 0 ==>
              r == lines[l.firstLine - 1 .. l.lastLine - 1]
  {
    JsSlice(lines, l.firstLine - 1, l.lastLine + (if l.lastColumn > 0 then 0 else -1))
  }

  /** The text one range selects; with `fullLines` its lines are kept whole. */
  function Piece(lines: seq<string>, l: Location, fullLines: bool): string {
    var ls := RangeLines(lines, l);
    if fullLines || ls == [] then Join(ls, '\n')
    else if l.lastLine == l.firstLine then
      Join(ls[0 := JsSlice(ls[0], l.firstColumn, l.lastColumn)], '\n')
    else
      var first := ls[0 := JsSlice(ls[0], l.firstColumn, |ls[0]|)];
      var k := |first| - 1;
      Join(first[k := JsSlice(first[k], 0, l.lastColumn)], '\n')
  }

  /** The non-empty pieces of the ranges, in the order of the ranges. */
  function Pieces(lines: seq<string>, ls: seq<Location>, fullLines: bool): (r: seq<string>)
    ensures |r| <= |ls|
    ensures forall k :: 0 <= k < |r| ==> r[k] != ""
  {
    if ls == [] then []
    else
      var p := Piece(lines, ls[0], fullLines);
      (if p == "" then [] else [p]) + Pieces(lines, ls[1..], fullLines)
  }

  /** The pieces of the ranges, taken in order of their first lines and
      joined by line breaks. */
  function Render(lines: seq<string>, ls: seq<Location>, fullLines: bool): string {
    Join(Pieces(lines, SortBy(ls, FirstLine), fullLines), '\n')
  }

  /** The lines of the slice's cell. */
  function Lines(cs: CellSlice): seq<string> {
    Split(cs.cell.text, '\n')
  }

  /** The covered text: nothing for no range; for one range, the columns it
      covers, line breaks included. */
  function TextSlice(cs: CellSlice): (r: string)
    ensures cs.slice == [] ==> r == ""
    ensures |cs.slice| == 1 && 1 <= cs.slice[0].firstLine == cs.slice[0].lastLine <= |Lines(cs)|
            && cs.slice[0].lastColumn > 0 ==>
      r == JsSlice(Lines(cs)[cs.slice[0].firstLine - 1], cs.slice[0].firstColumn, cs.slice[0].lastColumn)
    ensures |cs.slice| == 1 && 1 <= cs.slice[0].firstLine < cs.slice[0].lastLine <= |Lines(cs)|
            && cs.slice[0].lastColumn > 0 ==>
      r == Columns(Lines(cs), cs.slice[0])
  {
    var lines := Lines(cs);
    RenderFacts(lines, cs.slice);
    Render(lines, cs.slice, false)
  }

  /** The covered lines in full: nothing for no range; for one range, every
      line it reaches, whole. */
  function TextSliceLines(cs: CellSlice): (r: string)
    ensures cs.slice == [] ==> r == ""
    ensures |cs.slice| == 1 && 1 <= cs.slice[0].firstLine <= cs.slice[0].lastLine <= |Lines(cs)|
            && cs.slice[0].lastColumn > 0 ==>
      r == Join(Lines(cs)[cs.slice[0].firstLine - 1 .. cs.slice[0].lastLine], '\n')
  {
    var lines := Lines(cs);
    RenderFacts(lines, cs.slice);
    Render(lines, cs.slice, true)
  }

  /** What `Render` gives for no range and for one range. */
  lemma RenderFacts(lines: seq<string>, ls: seq<Location>)
    ensures ls == [] ==> Render(lines, ls, false) == "" && Render(lines, ls, true) == ""
    ensures |ls| == 1 && 1 <= ls[0].firstLine == ls[0].lastLine <= |lines| && ls[0].lastColumn > 0 ==>
      Render(lines, ls, false) == JsSlice(lines[ls[0].firstLine - 1], ls[0].firstColumn, ls[0].lastColumn)
    ensures |ls| == 1 && 1 <= ls[0].firstLine < ls[0].lastLine <= |lines| && ls[0].lastColumn > 0 ==>
      Render(lines, ls, false) == Columns(lines, ls[0])
    ensures |ls| == 1 && 1 <= ls[0].firstLine <= ls[0].lastLine <= |lines| && ls[0].lastColumn > 0 ==>
      Render(lines, ls, true) == Join(lines[ls[0].firstLine - 1 .. ls[0].lastLine], '\n')
  {
    if |ls| == 1 {
      var l := ls[0];
      RenderOne(lines, l, false);
      RenderOne(lines, l, true);
      assert ls == [l];
      if 1 <= l.firstLine == l.lastLine <= |lines| && l.lastColumn > 0 {
        SingleLinePiece(lines, l);
        assert lines[l.firstLine - 1 .. l.lastLine] == [lines[l.firstLine - 1]];
      } else if 1 <= l.firstLine < l.lastLine <= |lines| && l.lastColumn > 0 {
        MultiLinePiece(lines, l);
      }
    }
  }

  /** One range renders as its piece. */
  lemma RenderOne(lines: seq<string>, l: Location, fullLines: bool)
    ensures Render(lines, [l], fullLines) == Piece(lines, l, fullLines)
  {
    SortOne(l, FirstLine);
    var p := Piece(lines, l, fullLines);
    assert [l][1..] == [];
    assert Pieces(lines, [l], fullLines) == (if p == "" then [] else [p]);
  }

  /** A range on one line selects the columns from its first column up to,
      not including, its last column; in full-line mode the whole line. */
  lemma SingleLinePiece(lines: seq<string>, l: Location)
    requires 1 <= l.firstLine == l.lastLine <= |lines| && l.lastColumn > 0
    ensures Piece(lines, l, false) == JsSlice(lines[l.firstLine - 1], l.firstColumn, l.lastColumn)
    ensures Piece(lines, l, true) == lines[l.firstLine - 1]
  {
    var ls := RangeLines(lines, l);
    assert ls == [lines[l.firstLine - 1]];
  }

  /** The columns a range over several lines covers: its first line from the
      first column on, the lines in between whole, and its last line up to
      the last column, joined by line breaks. */
  function Columns(lines: seq<string>, l: Location): string
    requires 1 <= l.firstLine < l.lastLine <= |lines|
  {
    Join([JsSlice(lines[l.firstLine - 1], l.firstColumn, |lines[l.firstLine - 1]|)]
         + lines[l.firstLine .. l.lastLine - 1]
         + [JsSlice(lines[l.lastLine - 1], 0, l.lastColumn)], '\n')
  }

  /** A range over several lines selects its first line from the first column
      on, the lines in between whole, and its last line up to the last
      column, joined by line breaks; in full-line mode all those lines whole. */
  lemma MultiLinePiece(lines: seq<string>, l: Location)
    requires 1 <= l.firstLine < l.lastLine <= |lines| && l.lastColumn > 0
    ensures Piece(lines, l, false) == Columns(lines, l)
    ensures Piece(lines, l, true) == Join(lines[l.firstLine - 1 .. l.lastLine], '\n')
  {
    var ls := RangeLines(lines, l);
    var first := ls[0 := JsSlice(ls[0], l.firstColumn, |ls[0]|)];
    var k := |first| - 1;
    assert first[k := JsSlice(first[k], 0, l.lastColumn)] ==
      [JsSlice(lines[l.firstLine - 1], l.firstColumn, |lines[l.firstLine - 1]|)]
           + lines[l.firstLine .. l.lastLine - 1]
           + [JsSlice(lines[l.lastLine - 1], 0, l.lastColumn)];
  }

  /** The range lies within the lines and reaches past column 0 of its last line. */
  predicate InLines(lines: seq<string>, l: Location) {
    1 <= l.firstLine <= l.lastLine <= |lines| && l.lastColumn > 0
  }

  /** The column-wise text of a range, line by line: on one line the columns
      it covers; over several lines its first line from the first column on,
      the lines in between whole, and its last line up to the last column. */
  function ColumnLines(lines: seq<string>, l: Location): seq<string>
    requires InLines(lines, l)
  {
    if l.firstLine == l.lastLine then [JsSlice(lines[l.firstLine - 1], l.firstColumn, l.lastColumn)]
    else [JsSlice(lines[l.firstLine - 1], l.firstColumn, |lines[l.firstLine - 1]|)]
         + lines[l.firstLine .. l.lastLine - 1]
         + [JsSlice(lines[l.lastLine - 1], 0, l.lastColumn)]
  }

  /** The text of one range line by line, whole lines or columns. */
  function PieceLines(lines: seq<string>, l: Location, fullLines: bool): seq<string>
    requires fullLines || InLines(lines, l)
  {
    if fullLines then RangeLines(lines, l) else ColumnLines(lines, l)
  }

  /** The lines the ranges contribute, range after range; a range whose text
      is empty contributes none. No other line is in it. */
  function CoveredLines(lines: seq<string>, ls: seq<Location>, fullLines: bool): seq<string>
    requires fullLines || forall l :: l in multiset(ls) ==> InLines(lines, l)
  {
    if ls == [] then []
    else
      assert ls == [ls[0]] + ls[1..];
      var t := PieceLines(lines, ls[0], fullLines);
      (if t == [] || t == [""] then [] else t) + CoveredLines(lines, ls[1..], fullLines)
  }

  /** A range's piece is its lines joined by line breaks. */
  lemma PieceIsJoin(lines: seq<string>, l: Location, fullLines: bool)
    requires fullLines || InLines(lines, l)
    ensures Piece(lines, l, fullLines) == Join(PieceLines(lines, l, fullLines), '\n')
  {
    if !fullLines {
      if l.firstLine == l.lastLine {
        SingleLinePiece(lines, l);
      } else {
        MultiLinePiece(lines, l);
      }
    }
  }

  /** Joining the pieces of the ranges is joining the lines they cover. */
  lemma {:induction false} PiecesJoin(lines: seq<string>, ls: seq<Location>, fullLines: bool)
    requires fullLines || forall l :: l in multiset(ls) ==> InLines(lines, l)
    ensures Pieces(lines, ls, fullLines) == [] <==> CoveredLines(lines, ls, fullLines) == []
    ensures Join(Pieces(lines, ls, fullLines), '\n') == Join(CoveredLines(lines, ls, fullLines), '\n')
    decreases |ls|
  {
    if ls != [] {
      assert ls == [ls[0]] + ls[1..];
      var p := Piece(lines, ls[0], fullLines);
      var t := PieceLines(lines, ls[0], fullLines);
      PieceIsJoin(lines, ls[0], fullLines);
      JoinEmpty(t, '\n');
      PiecesJoin(lines, ls[1..], fullLines);
      var ps := Pieces(lines, ls[1..], fullLines);
      var rest := CoveredLines(lines, ls[1..], fullLines);
      assert Pieces(lines, ls, fullLines) == (if p == "" then [] else [p]) + ps;
      assert CoveredLines(lines, ls, fullLines) == (if t == [] || t == [""] then [] else t) + rest;
      if p != "" {
        if ps != [] {
          assert ([p] + ps)[1..] == ps;
          JoinAppend(t, rest, '\n');
        } else {
          assert [p] + ps == [p] && t + rest == t;
        }
      } else {
        assert [] + ps == ps && [] + rest == rest;
      }
    }
  }

  /** The covered lines of line-break-free lines hold no line break. */
  lemma {:induction false} CoveredNoBreaks(lines: seq<string>, ls: seq<Location>, fullLines: bool)
    requires forall k :: 0 <= k < |lines| ==> '\n' !in lines[k]
    requires fullLines || forall l :: l in multiset(ls) ==> InLines(lines, l)
    ensures forall x :: x in CoveredLines(lines, ls, fullLines) ==> '\n' !in x
    decreases |ls|
  {
    if ls != [] {
      var l := ls[0];
      assert ls == [l] + ls[1..];
      CoveredNoBreaks(lines, ls[1..], fullLines);
      forall x | x in PieceLines(lines, l, fullLines) ensures '\n' !in x {
        if fullLines {
          JsSliceWithin(lines, l.firstLine - 1, l.lastLine + (if l.lastColumn > 0 then 0 else -1));
        } else {
          JsSliceWithin(lines[l.firstLine - 1], l.firstColumn, l.lastColumn);
          JsSliceWithin(lines[l.firstLine - 1], l.firstColumn, |lines[l.firstLine - 1]|);
          JsSliceWithin(lines[l.lastLine - 1], 0, l.lastColumn);
        }
      }
    }
  }

  /** Over any set of ranges, `textSliceLines` gives, taking the ranges in
      order of their first lines, every line each range reaches, whole, and
      no other line; it is empty when no range reaches a non-empty text. */
  lemma TextSliceLinesCovered(cs: CellSlice)
    ensures CoveredLines(Lines(cs), SortBy(cs.slice, FirstLine), true) == [] ==> TextSliceLines(cs) == ""
    ensures CoveredLines(Lines(cs), SortBy(cs.slice, FirstLine), true) != [] ==>
      Split(TextSliceLines(cs), '\n') == CoveredLines(Lines(cs), SortBy(cs.slice, FirstLine), true)
  {
    var lines, sorted := Lines(cs), SortBy(cs.slice, FirstLine);
    PiecesJoin(lines, sorted, true);
    CoveredNoBreaks(lines, sorted, true);
    if CoveredLines(lines, sorted, true) != [] {
      SplitJoin(CoveredLines(lines, sorted, true), '\n');
    }
  }

  /** Over ranges that lie within the cell, `textSlice` gives, taking the
      ranges in order of their first lines, the columns each covers line by
      line, and nothing of any other line. */
  lemma TextSliceCovered(cs: CellSlice)
    requires forall l :: l in cs.slice ==> InLines(Lines(cs), l)
    ensures CoveredLines(Lines(cs), SortBy(cs.slice, FirstLine), false) == [] ==> TextSlice(cs) == ""
    ensures CoveredLines(Lines(cs), SortBy(cs.slice, FirstLine), false) != [] ==>
      Split(TextSlice(cs), '\n') == CoveredLines(Lines(cs), SortBy(cs.slice, FirstLine), false)
  {
    var lines, sorted := Lines(cs), SortBy(cs.slice, FirstLine);
    PiecesJoin(lines, sorted, false);
    CoveredNoBreaks(lines, sorted, false);
    if CoveredLines(lines, sorted, false) != [] {
      SplitJoin(CoveredLines(lines, sorted, false), '\n');
    }
  }

  /** Ranges already in order of their first lines are rendered in the order given. */
  lemma SortedRanges(cs: CellSlice)
    requires SortedBy(cs.slice, FirstLine)
    ensures TextSliceLines(cs) == Join(Pieces(Lines(cs), cs.slice, true), '\n')
    ensures TextSlice(cs) == Join(Pieces(Lines(cs), cs.slice, false), '\n')
  {
    SortBySorted(cs.slice, FirstLine);
  }

  /** One range spanning the whole of a one-line cell renders the cell's text
      in both modes. */
  lemma WholeLine(c: Cell)
    requires c.text != [] && '\n' !in c.text
    ensures TextSlice(CellSlice(c, [Location(1, 0, 1, |c.text|)])) == c.text
    ensures TextSliceLines(CellSlice(c, [Location(1, 0, 1, |c.text|)])) == c.text
  {
    var l := Location(1, 0, 1, |c.text|);
    SplitSingle(c.text, '\n');
    assert SortBy([l], FirstLine) == [l];
    SingleLinePiece([c.text], l);
  }

  /** The four-line cell "a = 1", "b = 2", "c = 3", "d = 4" restricted to the
      ranges (1,0)-(1,5) and (2,4)-(3,4): the first range gives the whole
      first line, the second "2" and "c = ", and "d = 4" is absent. */
  lemma FourLineExample(c: Cell)
    requires Split(c.text, '\n') == ["a = 1", "b = 2", "c = 3", "d = 4", ""]
    ensures TextSlice(CellSlice(c, [Location(1, 0, 1, 5), Location(2, 4, 3, 4)])) == "a = 1\n2\nc = "
    ensures TextSliceLines(CellSlice(c, [Location(1, 0, 1, 5), Location(2, 4, 3, 4)])) == "a = 1\nb = 2\nc = 3"
  {
    var lines := Split(c.text, '\n');
    SortedExample();
    FourLinePieces(lines);
    JoinExample();
  }

  lemma SortedExample()
    ensures SortBy([Location(1, 0, 1, 5), Location(2, 4, 3, 4)], FirstLine) == [Location(1, 0, 1, 5), Location(2, 4, 3, 4)]
  {
    assert [Location(1, 0, 1, 5), Location(2, 4, 3, 4)][..1] == [Location(1, 0, 1, 5)];
  }

  lemma JoinExample()
    ensures Join(["a = 1", "2\nc = "], '\n') == "a = 1\n2\nc = "
    ensures Join(["a = 1", "b = 2\nc = 3"], '\n') == "a = 1\nb = 2\nc = 3"
  {
  }

  /** The text "a = 1\nb = 2\nc = 3\nd = 4\n" has those four lines and an
      empty one after the final line break. */
  lemma FourLines()
    ensures Split("a = 1\nb = 2\nc = 3\nd = 4\n", '\n') == ["a = 1", "b = 2", "c = 3", "d = 4", ""]
  {
    var parts := ["a = 1", "b = 2", "c = 3", "d = 4", ""];
    assert Join(parts, '\n') == "a = 1\nb = 2\nc = 3\nd = 4\n";
    SplitJoin(parts, '\n');
  }

  lemma FourLinePieces(parts: seq<string>)
    requires parts == ["a = 1", "b = 2", "c = 3", "d = 4", ""]
    ensures Pieces(parts, [Location(1, 0, 1, 5), Location(2, 4, 3, 4)], false) == ["a = 1", "2\nc = "]
    ensures Pieces(parts, [Location(1, 0, 1, 5), Location(2, 4, 3, 4)], true) == ["a = 1", "b = 2\nc = 3"]
  {
    var l1, l2 := Location(1, 0, 1, 5), Location(2, 4, 3, 4);
    SingleLinePiece(parts, l1);
    MultiLinePiece(parts, l2);
    assert parts[2..2] == [];
    assert parts[1..3] == ["b = 2", "c = 3"];
    assert Piece(parts, l2, false) == "2\nc = ";
    assert Piece(parts, l2, true) == "b = 2\nc = 3";
    assert [l1, l2][1..] == [l2];
    assert [l2][1..] == [];
    assert Piece(parts, l1, true) == parts[0] == "a = 1";
    assert parts[0][0..5] == parts[0];
    assert Piece(parts, l1, false) == "a = 1";
    assert Pieces(parts, [l2], false) == ["2\nc = "];
    assert Pieces(parts, [l2], true) == ["b = 2\nc = 3"];
  }
}
