/**
 * The display index of src/display-index.js: a line tree together with the
 * line iterator it uses to find rows. `splice` replaces a run of screen
 * rows by new lines and reports the ids of the rows it removed, in row
 * order.
 */
module DisplayIndexes {
  import opened Options
  import opened Points
  import opened ScreenLines
  import opened TreeShapes
  import opened LineTrees
  import opened LineIterators
  import opened TokenIterators

  class DisplayIndex {
    const tree: LineTree
    const lineIterator: LineIterator

    ghost predicate Valid()
      reads this, tree, tree.ids, lineIterator
    {
      tree.Valid() && lineIterator.tree == tree
    }

    /** The lines by screen row. */
    ghost function Rows(): seq<ScreenLine>
      reads this, tree, tree.ids, lineIterator
      requires Valid()
    {
      tree.Rows()
    }

    /** The ids of the rows, by screen row. */
    ghost function RowIds(): seq<nat>
      reads this, tree, tree.ids, lineIterator
      requires Valid()
    {
      tree.RowIds()
    }

    /** Every priority in the tree, and every draw to come, lies in [0, 1). */
    ghost predicate Randomized()
      reads this, tree
    {
      tree.RandomPriorities() && tree.random.InUnitInterval()
    }

    /** An empty index whose priorities come from `random` and whose ids from `ids`. */
    constructor (ids: IdCounter, random: RandomGenerator)
      ensures Valid() && Rows() == [] && tree.RandomPriorities()
      ensures tree.ids == ids && tree.random == random
    {
      var t := new LineTree(ids, random);
      tree := t;
      lineIterator := new LineIterator(t);
    }

    /** buildTokenIterator: a token iterator of its own over this index's lines, off the tree until it seeks. */
    method BuildTokenIterator() returns (it: TokenIterator)
      requires Valid()
      ensures fresh(it) && fresh(it.lineIterator) && it.Valid() && it.NoCaches()
      ensures it.tree == tree && it.lineIterator.currentNode == NIL
    {
      it := new TokenIterator(tree);
    }

    /**
     * splice: the rows `startRow` to `startRow + replacementCount` give way
     * to `newScreenLines`, and the ids of the removed rows come back in row
     * order. As in the source, a start past the last row replaces every row.
     * None when a new line has no tokens: there the LineNode constructor of
     * the source throws.
     */
    method Splice(startRow: nat, replacementCount: nat, newScreenLines: seq<ScreenLine>)
      returns (removedIds: Option<seq<nat>>, ghost freshIds: seq<nat>)
      requires Valid() && Randomized()
      modifies tree, tree.ids, tree.random, lineIterator
      ensures Valid()
      ensures removedIds.None? <==> HasEmptyLine(newScreenLines, 0, |newScreenLines|)
      ensures removedIds.None? ==> Rows() == old(Rows()) && RowIds() == old(RowIds())
      ensures removedIds.Some? ==> Randomized()
      ensures removedIds.Some? ==> Rows() == TreeSplice(old(Rows()), startRow, replacementCount, newScreenLines)
      ensures removedIds.Some? ==> removedIds.value == TreeSplicedOut(old(RowIds()), startRow, replacementCount)
      ensures removedIds.Some? ==>
        RowIds() == TreeSplice(old(RowIds()), startRow, replacementCount, freshIds) && |freshIds| == |newScreenLines|
    {
      var startNode := lineIterator.FindNode(startRow - 1);
      var endNode := lineIterator.FindNode(startRow + replacementCount);
      InorderFacts(tree.tree);
      LinesLength(tree.tree, tree.nodes);
      var removed, b, parent, f := tree.SpliceNodes(startNode, endNode, newScreenLines, startRow, replacementCount);
      freshIds := f;
      if removed.None? {
        return None, freshIds;
      }
      var ids := IdsForSubtree(removed.value, [], b, parent);
      return Some(ids), freshIds;
    }

    /** idsForSubtree: the ids of the subtree at `node`, in row order, after those already in `ids`. */
    method IdsForSubtree(node: int, ids: seq<nat>, ghost t: Tree, ghost parent: int) returns (r: seq<nat>)
      requires Linked(t, parent, tree.nodes) && InArena(t, |tree.nodes|) && node == Handle(t)
      ensures r == ids + IdsOf(t, tree.nodes)
      decreases t
    {
      r := ids;
      if node != NIL {
        HandleNil(t);
        r := IdsForSubtree(tree.nodes[node].left, r, t.left, node);
        r := r + [tree.nodes[node].id];
        r := IdsForSubtree(tree.nodes[node].right, r, t.right, node);
      }
    }

    /** getLastScreenRow */
    function GetLastScreenRow(): (r: int)
      reads this, tree, tree.ids, lineIterator
      requires Valid()
      ensures r == |Rows()| - 1
    {
      tree.GetLastScreenRow()
    }

    /** getScreenLineCount */
    function GetScreenLineCount(): (n: nat)
      reads this, tree, tree.ids, lineIterator
      requires Valid()
      ensures n == |Rows()|
    {
      tree.GetScreenLineCount()
    }

    /** lineLengthForScreenRow: the screen extent of row `row`, None when there is no such row. */
    method LineLengthForScreenRow(row: int) returns (r: Option<nat>)
      requires Valid()
      modifies lineIterator
      ensures Valid()
      ensures r == if 0 <= row < |Rows()| then Some(Rows()[row].screenExtent) else None
    {
      var node := lineIterator.FindNode(row);
      if node != NIL {
        lineIterator.OnNode();
        return Some(tree.nodes[node].line.screenExtent);
      }
      return None;
    }

    /** getScreenPositionWithMaxLineLength: a row of the longest screen extent, with that extent as column. */
    method GetScreenPositionWithMaxLineLength() returns (p: Option<Point>)
      requires Valid()
      modifies lineIterator
      ensures Valid()
      ensures p.None? <==> |Rows()| == 0
      ensures p.Some? ==> p.value.row < |Rows()| && p.value.column == MaxLength(Rows())
      ensures p.Some? ==> Rows()[p.value.row].screenExtent == MaxLength(Rows())
    {
      p := lineIterator.GetScreenPositionWithMaxLineLength();
    }
  }
}
