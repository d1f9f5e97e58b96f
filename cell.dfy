/** The record the notebook hands over for every executed cell (cell.ts).
    `parsed` stands for the parser's verdict on `text`: the statements it
    produced, or `None` when the text does not parse. */
module Cells {
  import opened Util
  import opened Syntax

  datatype Cell = Cell(
    text: string,
    /** `None` where the notebook leaves the execution count undefined. */
    executionCount: Option<int>,
    /** Identifies one run of a cell. */
    executionEventId: string,
    /** Identifies "the same" cell across edits and runs. */
    persistentId: string,
    hasError: bool,
    parsed: Option<seq<Stmt>>)

  /** JavaScript's `a >= b` on possibly undefined numbers: false whenever
      either side is undefined. */
  predicate CountAtLeast(a: Option<int>, b: Option<int>) {
    a.Some? && b.Some? && a.value >= b.value
  }
}
