/** Source locations (slice.ts): a location is a range of 1-based lines and
    0-based columns. A location set is a `Util.SetUnion`-built sequence that
    holds each location once, two locations being the same only when all four
    coordinates agree. */
module Locations {
  import opened Util

  datatype Location = Location(firstLine: int, firstColumn: int, lastLine: int, lastColumn: int)

  /** The location moved down by `delta` lines; columns are unchanged. */
  function Shift(l: Location, delta: int): (r: Location)
    ensures r.lastLine - r.firstLine == l.lastLine - l.firstLine
    ensures r.firstColumn == l.firstColumn && r.lastColumn == l.lastColumn
  {
    Location(l.firstLine + delta, l.firstColumn, l.lastLine + delta, l.lastColumn)
  }

  /** Shifting back undoes a shift. */
  lemma ShiftBack(l: Location, delta: int)
    ensures Shift(Shift(l, delta), -delta) == l
  {
  }

  /** Position (line, column) `a` is not after position `b`. */
  predicate PosLe(line1: int, col1: int, line2: int, col2: int) {
    line1 < line2 || (line1 == line2 && col1 <= col2)
  }

  /** `inner` lies inside `outer`. */
  predicate Within(inner: Location, outer: Location) {
    PosLe(outer.firstLine, outer.firstColumn, inner.firstLine, inner.firstColumn) &&
    PosLe(inner.lastLine, inner.lastColumn, outer.lastLine, outer.lastColumn)
  }

  /** The two ranges share at least one position. */
  predicate Intersects(a: Location, b: Location) {
    PosLe(a.firstLine, a.firstColumn, b.lastLine, b.lastColumn) &&
    PosLe(b.firstLine, b.firstColumn, a.lastLine, a.lastColumn)
  }

  /** Overlapping but different ranges are kept apart, not coalesced. */
  lemma OverlapKept(l1: Location, l2: Location)
    requires l1 != l2
    ensures SetUnion([l1], [l2]) == [l1, l2]
  {
  }
}
