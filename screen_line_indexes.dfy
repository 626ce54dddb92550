/**
 * The screen line index of src/screen-line-index.js, the older form of the
 * display index: the same line tree and line iterator, with a `splice` that
 * does not report what it removed.
 */
module ScreenLineIndexes {
  import opened Options
  import opened Points
  import opened ScreenLines
  import opened TreeShapes
  import opened LineTrees
  import opened LineIterators
  import opened TokenIterators

  class ScreenLineIndex {
    const tree: LineTree
    const lineIterator: LineIterator

    ghost predicate Valid()
      reads this, tree, tree.ids, lineIterator
    {
      tree.Valid() && lineIterator.tree == tree
    }

    /** The lines by screen row. */
    ghost function Rows(): seq<ScreenLine>
      reads this, tree, tree.ids, lineIterator
      requires Valid()
    {
      tree.Rows()
    }

    /** Every priority in the tree, and every draw to come, lies in [0, 1). */
    ghost predicate Randomized()
      reads this, tree
    {
      tree.RandomPriorities() && tree.random.InUnitInterval()
    }

    /** An empty index whose priorities come from `random` and whose ids from `ids`. */
    constructor (ids: IdCounter, random: RandomGenerator)
      ensures Valid() && Rows() == [] && tree.RandomPriorities()
      ensures tree.ids == ids && tree.random == random
    {
      var t := new LineTree(ids, random);
      tree := t;
      lineIterator := new LineIterator(t);
    }

    /** buildIterator: a token iterator of its own over this index's lines, off the tree until it seeks. */
    method BuildIterator() returns (it: TokenIterator)
      requires Valid()
      ensures fresh(it) && fresh(it.lineIterator) && it.Valid() && it.NoCaches()
      ensures it.tree == tree && it.lineIterator.currentNode == NIL
    {
      it := new TokenIterator(tree);
    }

    /**
     * splice: the rows `startRow` to `startRow + replacementCount` give way
     * to `newScreenLines`; a start past the last row replaces every row.
     * False when a new line has no tokens: there the LineNode constructor of
     * the source throws.
     */
    method Splice(startRow: nat, replacementCount: nat, newScreenLines: seq<ScreenLine>) returns (ok: bool)
      requires Valid() && Randomized()
      modifies tree, tree.ids, tree.random, lineIterator
      ensures Valid()
      ensures !ok <==> HasEmptyLine(newScreenLines, 0, |newScreenLines|)
      ensures !ok ==> Rows() == old(Rows())
      ensures ok ==> Randomized()
      ensures ok ==> Rows() == TreeSplice(old(Rows()), startRow, replacementCount, newScreenLines)
    {
      var startNode := lineIterator.FindNode(startRow - 1);
      var endNode := lineIterator.FindNode(startRow + replacementCount);
      InorderFacts(tree.tree);
      LinesLength(tree.tree, tree.nodes);
      var removed, _, _, _ := tree.SpliceNodes(startNode, endNode, newScreenLines, startRow, replacementCount);
      ok := removed.Some?;
    }

    /** getLastScreenRow */
    function GetLastScreenRow(): (r: int)
      reads this, tree, tree.ids, lineIterator
      requires Valid()
      ensures r == |Rows()| - 1
    {
      tree.GetLastScreenRow()
    }

    /** getScreenLineCount */
    function GetScreenLineCount(): (n: nat)
      reads this, tree, tree.ids, lineIterator
      requires Valid()
      ensures n == |Rows()|
    {
      tree.GetScreenLineCount()
    }

    /** lineLengthForScreenRow: the screen extent of row `row`, None when there is no such row. */
    method LineLengthForScreenRow(row: int) returns (r: Option<nat>)
      requires Valid()
      modifies lineIterator
      ensures Valid()
      ensures r == if 0 <= row < |Rows()| then Some(Rows()[row].screenExtent) else None
    {
      var node := lineIterator.FindNode(row);
      if node != NIL {
        lineIterator.OnNode();
        return Some(tree.nodes[node].line.screenExtent);
      }
      return None;
    }

    /** getScreenPositionWithMaxLineLength: a row of the longest screen extent, with that extent as column. */
    method GetScreenPositionWithMaxLineLength() returns (p: Option<Point>)
      requires Valid()
      modifies lineIterator
      ensures Valid()
      ensures p.None? <==> |Rows()| == 0
      ensures p.Some? ==> p.value.row < |Rows()| && p.value.column == MaxLength(Rows())
      ensures p.Some? ==> Rows()[p.value.row].screenExtent == MaxLength(Rows())
    {
      p := lineIterator.GetScreenPositionWithMaxLineLength();
    }
  }
}
