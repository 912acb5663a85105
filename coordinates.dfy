/**
 * Source positions and the conversion between line/column numbering bases.
 * The call-graph producers number lines and columns differently; the
 * canonical interchange format is 1-based on both axes.
 */
module Coordinates {

  /** A source position (the `line`/`column` record of estree and NodeProf). */
  datatype Position = Position(line: int, column: int)

  /**
   * Reference conversion of a position whose lines are counted from `lineBase`
   * and whose columns are counted from `columnBase` into 1-based numbering.
   */
  function Normalize(p: Position, lineBase: int, columnBase: int): Position {
    Position(p.line + (1 - lineBase), p.column + (1 - columnBase))
  }

  /** Non-negative coordinates in base 0 or 1 become coordinates of at least 1. */
  lemma NormalizeIsOneBased(p: Position, lineBase: int, columnBase: int)
    requires p.line >= lineBase && p.column >= columnBase
    ensures Normalize(p, lineBase, columnBase).line >= 1
    ensures Normalize(p, lineBase, columnBase).column >= 1
  {
  }
}
