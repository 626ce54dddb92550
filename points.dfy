/** Optional values, standing for the source's `null` returns. */
module Options {
  datatype Option<T> = None | Some(value: T)
}

/**
 * Point arithmetic on (row, column) pairs: the helper functions that the
 * index imports from its point module (comparison, clamping, traversal of a
 * displacement and the distance that undoes a traversal).
 */
module Points {

  datatype Point = Point(row: nat, column: nat)

  const ZERO_POINT := Point(0, 0)

  /** Lexicographic order on (row, column). */
  predicate Less(a: Point, b: Point) {
    a.row < b.row || (a.row == b.row && a.column < b.column)
  }

  predicate LessEq(a: Point, b: Point) {
    Less(a, b) || a == b
  }

  /** -1, 0 or 1 as `a` is before, at or after `b`. */
  function Compare(a: Point, b: Point): (c: int)
    ensures c == 0 <==> a == b
    ensures c < 0 <==> Less(a, b)
    ensures c > 0 <==> Less(b, a)
    ensures -1 <= c <= 1
  {
    if a.row < b.row then -1
    else if a.row > b.row then 1
    else if a.column < b.column then -1
    else if a.column > b.column then 1
    else 0
  }

  function MinPoint(a: Point, b: Point): (m: Point)
    ensures LessEq(m, a) && LessEq(m, b)
    ensures m == a || m == b
  {
    if Less(b, a) then b else a
  }

  predicate IsZero(p: Point) {
    p.row == 0 && p.column == 0
  }

  /**
   * The position reached by applying the displacement `delta` at `start`:
   * a displacement without rows advances the column, one with rows moves
   * down and takes the displacement's column as the new column.
   */
  function Traverse(start: Point, delta: Point): Point {
    Point(start.row + delta.row, if delta.row == 0 then start.column + delta.column else delta.column)
  }

  /** The displacement that leads from `from` to `to`; the inverse of Traverse. */
  function TraversalDistance(to: Point, from: Point): (d: Point)
    requires LessEq(from, to)
    ensures Traverse(from, d) == to
  {
    if to.row == from.row then Point(0, to.column - from.column)
    else Point(to.row - from.row, to.column)
  }

  lemma {:induction false} LessTransitive(a: Point, b: Point, c: Point)
    requires LessEq(a, b) && LessEq(b, c)
    ensures LessEq(a, c)
    ensures Less(a, b) || Less(b, c) ==> Less(a, c)
  {
  }

  lemma {:induction false} LessTotal(a: Point, b: Point)
    ensures Less(a, b) || a == b || Less(b, a)
    ensures !(Less(a, b) && LessEq(b, a))
  {
  }

  lemma {:induction false} TraverseZero(p: Point)
    ensures Traverse(p, ZERO_POINT) == p
    ensures Traverse(ZERO_POINT, p) == p
  {
  }

  /** Traversal is associative, so a sequence of displacements may be folded in any grouping. */
  lemma {:induction false} TraverseAssociative(a: Point, b: Point, c: Point)
    ensures Traverse(Traverse(a, b), c) == Traverse(a, Traverse(b, c))
  {
  }

  /** A traversal never moves backwards, and stays put exactly for a zero displacement. */
  lemma {:induction false} TraverseAdvances(a: Point, d: Point)
    ensures LessEq(a, Traverse(a, d))
    ensures Traverse(a, d) == a <==> IsZero(d)
  {
  }

  /** Traversing the same displacement from two starts keeps their order. */
  lemma {:induction false} TraverseMonotone(a: Point, b: Point, d: Point)
    requires LessEq(a, b)
    ensures LessEq(Traverse(a, d), Traverse(b, d))
  {
  }

  /** From one start, traversal orders the results exactly as it orders the displacements. */
  lemma {:induction false} TraverseOrderEmbedding(a: Point, d1: Point, d2: Point)
    ensures Less(Traverse(a, d1), Traverse(a, d2)) <==> Less(d1, d2)
    ensures Traverse(a, d1) == Traverse(a, d2) <==> d1 == d2
  {
  }

  /** The distance from `a` to `Traverse(a, d)` is `d` itself. */
  lemma {:induction false} DistanceOfTraverse(a: Point, d: Point)
    ensures LessEq(a, Traverse(a, d))
    ensures TraversalDistance(Traverse(a, d), a) == d
  {
  }

  // ---------------------------------------------------------------------------
  // Positions passed in by callers
  // ---------------------------------------------------------------------------

  /**
   * A position a caller hands to a translation. The point helpers compute on
   * any numbers, so unlike a Point its row and column may be negative.
   */
  datatype Position = Position(row: int, column: int)

  function AsPosition(p: Point): Position {
    Position(p.row, p.column)
  }

  /** `compare(a, b) < 0` on positions: rows first, then columns. */
  predicate Before(a: Position, b: Position) {
    a.row < b.row || (a.row == b.row && a.column < b.column)
  }

  predicate AtOrBefore(a: Position, b: Position) {
    Before(a, b) || a == b
  }

  /** minPoint on positions. */
  function MinPosition(a: Position, b: Position): (m: Position)
    ensures AtOrBefore(m, a) && AtOrBefore(m, b)
    ensures m == a || m == b
  {
    if Before(b, a) then b else a
  }

  /** traverse on positions, by the same rule as Traverse. */
  function TraversePosition(start: Position, delta: Position): Position {
    Position(start.row + delta.row, if delta.row == 0 then start.column + delta.column else delta.column)
  }

  /**
   * traversalDistance on positions. Over the integers it undoes
   * TraversePosition whatever the order of the two positions.
   */
  function PositionDistance(to: Position, from: Position): (d: Position)
    ensures TraversePosition(from, d) == to
  {
    if to.row == from.row then Position(0, to.column - from.column)
    else Position(to.row - from.row, to.column)
  }

  /** On points the position order is the point order. */
  lemma {:induction false} BeforeAgrees(a: Point, b: Point)
    ensures Before(AsPosition(a), AsPosition(b)) <==> Less(a, b)
    ensures AtOrBefore(AsPosition(a), AsPosition(b)) <==> LessEq(a, b)
  {
  }

  /** On points the position helpers compute what the point helpers compute. */
  lemma {:induction false} PositionHelpersAgree(a: Point, b: Point)
    ensures TraversePosition(AsPosition(a), AsPosition(b)) == AsPosition(Traverse(a, b))
    ensures LessEq(b, a) ==> PositionDistance(AsPosition(a), AsPosition(b)) == AsPosition(TraversalDistance(a, b))
    ensures MinPosition(AsPosition(a), AsPosition(b)) == AsPosition(MinPoint(a, b))
  {
  }

  /** The distance from `a` to `TraversePosition(a, d)` is `d` itself. */
  lemma {:induction false} PositionDistanceOfTraverse(a: Position, d: Position)
    ensures PositionDistance(TraversePosition(a, d), a) == d
  {
  }

  lemma {:induction false} BeforeTotal(a: Position, b: Position)
    ensures Before(a, b) || a == b || Before(b, a)
    ensures !(Before(a, b) && AtOrBefore(b, a))
  {
  }
}
