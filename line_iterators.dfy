/**
 * The line iterator of src/line-iterator.js: a cursor over the nodes of a
 * line tree in screen-row order. It walks down from the root and remembers,
 * for the node it is on, its screen row and buffer range together with those
 * of its nearest left ancestor; stacks hold the left-ancestor fields of every
 * node above it, so that it can climb back up without searching again.
 *
 * The ghost `path` records the directions taken from the root. The invariant
 * says what every field is in terms of that path: the node is the one the
 * path leads to, its row is the number of rows before it, and its buffer
 * range is where the lines before it end and where its own line ends.
 */
module LineIterators {
  import opened Options
  import opened Points
  import opened ScreenLines
  import opened TreeShapes
  import opened TreePaths
  import opened LineTrees

  /** The left-ancestor fields of the iterator and its three stacks, as one value. */
  datatype Ancestry = Ancestry(ancestor: int, row: int, end: Point,
                               ancestors: seq<int>, rows: seq<int>, ends: seq<Point>)

  /** The fields of the iterator about its node: the node, its screen row, its buffer range. */
  datatype Cursor = Cursor(node: int, row: int, start: Point, end: Point)

  /**
   * What the left-ancestor fields hold at `path`: the nearest left ancestor,
   * the row just before the subtree the path reaches and the buffer position
   * where the rows before that subtree end. The stacks hold the same three
   * values for every proper prefix of the path, above the bottom entries -1
   * and ZERO_POINT that a reset leaves in two of them.
   */
  ghost function AncestryAt(t: Tree, ns: seq<LineNode>, path: seq<bool>): (a: Ancestry)
    requires InArena(t, |ns|)
    ensures |a.ancestors| == |path| && |a.rows| == |path| + 1 && |a.ends| == |path| + 1
    decreases |path|
  {
    SubSpan(t, ns, path);
    var lo := Lo(t, path);
    var here := Ancestry(LeftAncestor(t, path), lo - 1, LineStart(Lines(t, ns), lo), [], [-1], [ZERO_POINT]);
    if path == [] then here
    else
      var up := AncestryAt(t, ns, Up(path));
      here.(ancestors := up.ancestors + [up.ancestor], rows := up.rows + [up.row], ends := up.ends + [up.end])
  }

  /** The node `path` leads to, its row and the buffer range of its line. */
  ghost function CursorAt(t: Tree, ns: seq<LineNode>, path: seq<bool>): (c: Cursor)
    requires InArena(t, |ns|) && Sub(t, path).Node?
    ensures 0 <= c.node < |ns| && 0 <= c.row < |Lines(t, ns)|
  {
    RankLine(t, ns, path);
    var row := Rank(t, path);
    Cursor(Sub(t, path).key, row, LineStart(Lines(t, ns), row), LineEnd(Lines(t, ns), row))
  }

  /** The ancestry at the root, as reset leaves it. */
  lemma {:induction false} TopAncestry(t: Tree, ns: seq<LineNode>)
    requires InArena(t, |ns|)
    ensures AncestryAt(t, ns, []) == Ancestry(NIL, -1, ZERO_POINT, [], [-1], [ZERO_POINT])
  {
    assert Lines(t, ns)[..0] == [];
  }

  /**
   * One step down: the current fields are pushed; a step to the right makes
   * the node the left ancestor, with its row and buffer end.
   */
  lemma {:induction false} AncestryDown(t: Tree, ns: seq<LineNode>, path: seq<bool>, right: bool, a: Ancestry, c: Cursor)
    requires InArena(t, |ns|) && Sub(t, path).Node?
    requires a == AncestryAt(t, ns, path) && c == CursorAt(t, ns, path)
    ensures AncestryAt(t, ns, path + [right]) ==
      if right then Ancestry(c.node, c.row, c.end, a.ancestors + [a.ancestor], a.rows + [a.row], a.ends + [a.end])
      else Ancestry(a.ancestor, a.row, a.end, a.ancestors + [a.ancestor], a.rows + [a.row], a.ends + [a.end])
  {
    StepDown(t, path, right);
    RankLine(t, ns, path);
    NextLineStart(Lines(t, ns), Rank(t, path));
  }

  /** One step up: the tops of the stacks are the parent's fields, and the rest are its stacks. */
  lemma {:induction false} AncestryUp(t: Tree, ns: seq<LineNode>, path: seq<bool>, a: Ancestry, u: Ancestry)
    requires InArena(t, |ns|) && path != []
    requires a == AncestryAt(t, ns, path) && u == AncestryAt(t, ns, Up(path))
    ensures |a.ancestors| > 0 && |a.rows| > 1 && |a.ends| > 1
    ensures Ancestry(a.ancestors[|a.ancestors| - 1], a.rows[|a.rows| - 1], a.ends[|a.ends| - 1],
                     a.ancestors[..|a.ancestors| - 1], a.rows[..|a.rows| - 1], a.ends[..|a.ends| - 1]) == u
  {
    assert a.ancestors == u.ancestors + [u.ancestor];
    assert a.ancestors[..|a.ancestors| - 1] == u.ancestors;
    assert a.rows[..|a.rows| - 1] == u.rows;
    assert a.ends[..|a.ends| - 1] == u.ends;
  }

  /** The left-ancestor row and buffer end at `path`: just before the subtree and where the rows before it end. */
  lemma {:induction false} AncestryFacts(t: Tree, ns: seq<LineNode>, path: seq<bool>, a: Ancestry)
    requires InArena(t, |ns|) && a == AncestryAt(t, ns, path)
    ensures Lo(t, path) <= |Lines(t, ns)|
    ensures a.ancestor == LeftAncestor(t, path)
    ensures a.row == Lo(t, path) - 1 && a.end == LineStart(Lines(t, ns), Lo(t, path))
  {
    SubSpan(t, ns, path);
  }

  /** The cursor setCurrentNode derives from the left ancestor's fields and the left subtree's aggregates. */
  lemma {:induction false} DerivedCursor(t: Tree, ns: seq<LineNode>, path: seq<bool>, ancestorRow: int, ancestorEnd: Point,
                                         row: int, start: Point, end: Point)
    requires InArena(t, |ns|) && Sub(t, path).Node? && Lo(t, path) <= |Lines(t, ns)|
    requires ancestorRow == Lo(t, path) - 1 && ancestorEnd == LineStart(Lines(t, ns), Lo(t, path))
    requires InArena(Sub(t, path).left, |ns|) && Sub(t, path).key < |ns|
    requires row == ancestorRow + Size(Sub(t, path).left) + 1
    requires start == Traverse(ancestorEnd, TotalExtent(Lines(Sub(t, path).left, ns)))
    requires end == Traverse(start, ns[Sub(t, path).key].line.bufferExtent)
    ensures Cursor(Sub(t, path).key, row, start, end) == CursorAt(t, ns, path)
  {
    var s, ls := Sub(t, path), Lines(t, ns);
    RankLine(t, ns, path);
    assert row == Rank(t, path) by {
      assert row == Lo(t, path) + Size(s.left);
    }
    assert start == LineStart(ls, row) by {
      RankStart(t, ns, path);
    }
    EndFromStart(ls, row, start, end);
    assert CursorAt(t, ns, path) == Cursor(s.key, row, LineStart(ls, row), LineEnd(ls, row));
  }

  /** `path` leads to a node, `c` is that node's cursor and `a` the ancestry at `path`. */
  ghost predicate Placed(t: Tree, ns: seq<LineNode>, path: seq<bool>, c: Cursor, a: Ancestry)
    requires InArena(t, |ns|)
  {
    Sub(t, path).Node? && c == CursorAt(t, ns, path) && a == AncestryAt(t, ns, path)
  }

  /**
   * The longest extent around a line is the longest of its left run, the
   * line and its right run; an empty run has -1, below every line.
   */
  lemma {:induction false} MaxAround(a: seq<ScreenLine>, x: ScreenLine, b: seq<ScreenLine>)
    ensures MaxLength(a + [x] + b) == Max(Max(MaxLength(a), x.screenExtent), MaxLength(b))
    ensures MaxLength(a + [x] + b) >= x.screenExtent
    ensures MaxLength(a) == -1 <==> a == []
    ensures MaxLength(b) == -1 <==> b == []
  {
    SummarizeConcat(a, x, b);
    MaxLengthAtLeastMinusOne(a);
    MaxLengthAtLeastMinusOne(b);
  }

  class LineIterator {
    const tree: LineTree
    var currentNode: int
    var currentScreenRow: int
    var currentLineBufferStart: Point
    var currentLineBufferEnd: Point
    var leftAncestor: int
    var leftAncestorRow: int
    var leftAncestorBufferEnd: Point
    var leftAncestorStack: seq<int>
    var leftAncestorRowStack: seq<int>
    var leftAncestorBufferEndStack: seq<Point>
    /** The directions from the root to the current node. */
    ghost var path: seq<bool>

    /** The left-ancestor fields and the stacks, as one value. */
    ghost function Fields(): Ancestry
      reads this
    {
      Ancestry(leftAncestor, leftAncestorRow, leftAncestorBufferEnd,
               leftAncestorStack, leftAncestorRowStack, leftAncestorBufferEndStack)
    }

    /** The left-ancestor fields and the stacks agree with `path`. */
    ghost predicate AncestorFields()
      reads this, tree, tree.ids
      requires tree.Valid()
    {
      Fields() == AncestryAt(tree.tree, tree.nodes, path)
    }

    /** The cursor is on the node `path` leads to, with that node's row and buffer range. */
    ghost predicate Positioned()
      reads this, tree, tree.ids
      requires tree.Valid()
    {
      Placed(tree.tree, tree.nodes, path,
             Cursor(currentNode, currentScreenRow, currentLineBufferStart, currentLineBufferEnd), Fields())
    }

    /** The longest screen extent among the rows of the subtree `path` leads to. */
    ghost function SubtreeMax(): int
      reads this, tree, tree.ids
      requires tree.Valid()
    {
      SubBounds(tree.tree, tree.nodes, path);
      MaxLength(Lines(Sub(tree.tree, path), tree.nodes))
    }

    /** Off the tree (NIL) the cursor promises only a row that is not negative; on it, it is positioned. */
    ghost predicate Valid()
      reads this, tree, tree.ids
    {
      tree.Valid() && currentScreenRow >= 0 && (currentNode != NIL ==> Positioned())
    }

    /** The iterator starts off the tree; every query begins with a reset. */
    constructor (tree: LineTree)
      requires tree.Valid()
      ensures Valid() && this.tree == tree && currentNode == NIL
    {
      this.tree := tree;
      currentNode := NIL;
      currentScreenRow := 0;
      currentLineBufferStart := ZERO_POINT;
      currentLineBufferEnd := ZERO_POINT;
      leftAncestor := NIL;
      leftAncestorRow := -1;
      leftAncestorBufferEnd := ZERO_POINT;
      leftAncestorStack := [];
      leftAncestorRowStack := [-1];
      leftAncestorBufferEndStack := [ZERO_POINT];
      path := [];
    }

    /** reset: back to the root with empty history. */
    method Reset()
      requires tree.Valid()
      modifies this
      ensures Valid() && path == [] && currentNode == tree.root
    {
      leftAncestor, leftAncestorRow, leftAncestorBufferEnd := NIL, -1, ZERO_POINT;
      leftAncestorStack, leftAncestorRowStack, leftAncestorBufferEndStack := [], [-1], [ZERO_POINT];
      currentScreenRow, currentLineBufferStart, currentLineBufferEnd := 0, ZERO_POINT, ZERO_POINT;
      path := [];
      TopAncestry(tree.tree, tree.nodes);
      SetCurrentNode(tree.root);
    }

    /**
     * The screen row and buffer range setCurrentNode derives for `node` from
     * the left ancestor's fields and the node's left-subtree aggregates.
     */
    method NodeFields(node: int) returns (row: int, start: Point, end: Point)
      requires tree.Valid() && AncestorFields() && node != NIL && node == Handle(Sub(tree.tree, path))
      ensures Sub(tree.tree, path).Node?
      ensures Cursor(node, row, start, end) == CursorAt(tree.tree, tree.nodes, path)
    {
      var ns := tree.nodes;
      assert node in Keys(tree.tree) && node < |ns| by {
        SubFind(tree.tree, path);
        RankLine(tree.tree, ns, path);
      }
      var leftRows := tree.GetLeftSubtreeRowCount(node);
      var leftExtent := tree.GetLeftSubtreeBufferExtent(node);
      row := leftAncestorRow + leftRows + 1;
      start := Traverse(leftAncestorBufferEnd, leftExtent);
      end := Traverse(start, ns[node].line.bufferExtent);
      SubFind(tree.tree, path);
      AncestryFacts(tree.tree, ns, path, Fields());
      DerivedCursor(tree.tree, ns, path, leftAncestorRow, leftAncestorBufferEnd, row, start, end);
    }

    /** setCurrentNode: moves onto `node`, or off the tree for NIL. */
    method SetCurrentNode(node: int)
      requires tree.Valid() && currentScreenRow >= 0
      requires node != NIL ==> AncestorFields() && node == Handle(Sub(tree.tree, path))
      modifies this
      ensures Valid() && currentNode == node && path == old(path)
    {
      if node != NIL {
        var row, start, end := NodeFields(node);
        currentNode, currentScreenRow, currentLineBufferStart, currentLineBufferEnd := node, row, start, end;
      } else {
        currentNode := node;
      }
    }

    /** pushToAncestorStacks: saves the left-ancestor fields before a step down. */
    method PushToAncestorStacks()
      modifies this
      ensures leftAncestorStack == old(leftAncestorStack) + [leftAncestor]
      ensures leftAncestorRowStack == old(leftAncestorRowStack) + [leftAncestorRow]
      ensures leftAncestorBufferEndStack == old(leftAncestorBufferEndStack) + [leftAncestorBufferEnd]
      ensures leftAncestor == old(leftAncestor) && leftAncestorRow == old(leftAncestorRow)
      ensures leftAncestorBufferEnd == old(leftAncestorBufferEnd) && path == old(path)
      ensures currentNode == old(currentNode) && currentScreenRow == old(currentScreenRow)
      ensures currentLineBufferStart == old(currentLineBufferStart) && currentLineBufferEnd == old(currentLineBufferEnd)
    {
      leftAncestorStack := leftAncestorStack + [leftAncestor];
      leftAncestorRowStack := leftAncestorRowStack + [leftAncestorRow];
      leftAncestorBufferEndStack := leftAncestorBufferEndStack + [leftAncestorBufferEnd];
    }

    /**
     * The pops of ascend: the left-ancestor fields come off the tops of the
     * stacks. Popping the empty stack of left ancestors gives no node.
     */
    method PopAncestorStacks()
      requires |leftAncestorRowStack| > 0 && |leftAncestorBufferEndStack| > 0
      modifies this
      ensures leftAncestor == if |old(leftAncestorStack)| > 0 then old(leftAncestorStack)[|old(leftAncestorStack)| - 1] else NIL
      ensures leftAncestorStack == if |old(leftAncestorStack)| > 0 then old(leftAncestorStack)[..|old(leftAncestorStack)| - 1] else []
      ensures leftAncestorRow == old(leftAncestorRowStack)[|old(leftAncestorRowStack)| - 1]
      ensures leftAncestorRowStack == old(leftAncestorRowStack)[..|old(leftAncestorRowStack)| - 1]
      ensures leftAncestorBufferEnd == old(leftAncestorBufferEndStack)[|old(leftAncestorBufferEndStack)| - 1]
      ensures leftAncestorBufferEndStack == old(leftAncestorBufferEndStack)[..|old(leftAncestorBufferEndStack)| - 1]
      ensures currentNode == old(currentNode) && currentScreenRow == old(currentScreenRow) && path == old(path)
      ensures currentLineBufferStart == old(currentLineBufferStart) && currentLineBufferEnd == old(currentLineBufferEnd)
    {
      if |leftAncestorStack| > 0 {
        leftAncestor := leftAncestorStack[|leftAncestorStack| - 1];
        leftAncestorStack := leftAncestorStack[..|leftAncestorStack| - 1];
      } else {
        leftAncestor := NIL;
      }
      leftAncestorRow := leftAncestorRowStack[|leftAncestorRowStack| - 1];
      leftAncestorRowStack := leftAncestorRowStack[..|leftAncestorRowStack| - 1];
      leftAncestorBufferEnd := leftAncestorBufferEndStack[|leftAncestorBufferEndStack| - 1];
      leftAncestorBufferEndStack := leftAncestorBufferEndStack[..|leftAncestorBufferEndStack| - 1];
    }

    /** descendLeft: one step down to the left child; the left ancestor stays. */
    method DescendLeft()
      requires Valid() && currentNode != NIL && tree.nodes[currentNode].left != NIL
      modifies this
      ensures Valid() && currentNode == old(tree.nodes[currentNode].left)
      ensures path == old(path) + [false]
      ensures Sub(tree.tree, path) == old(Sub(tree.tree, path).left) && Lo(tree.tree, path) == old(Lo(tree.tree, path))
    {
      ghost var t, ns := tree.tree, tree.nodes;
      NodeLinks(t, ns, path);
      StepDown(t, path, false);
      AncestryDown(t, ns, path, false, Fields(), CursorAt(t, ns, path));
      PushToAncestorStacks();
      path := path + [false];
      SetCurrentNode(tree.nodes[currentNode].left);
    }

    /** descendRight: one step down to the right child, which makes the current node the left ancestor. */
    method DescendRight()
      requires Valid() && currentNode != NIL && tree.nodes[currentNode].right != NIL
      modifies this
      ensures Valid() && currentNode == old(tree.nodes[currentNode].right)
      ensures path == old(path) + [true]
      ensures Sub(tree.tree, path) == old(Sub(tree.tree, path).right) && Lo(tree.tree, path) == old(Rank(tree.tree, path)) + 1
    {
      ghost var t, ns := tree.tree, tree.nodes;
      NodeLinks(t, ns, path);
      StepDown(t, path, true);
      AncestryDown(t, ns, path, true, Fields(), CursorAt(t, ns, path));
      PushToAncestorStacks();
      leftAncestor := currentNode;
      leftAncestorRow := currentScreenRow;
      leftAncestorBufferEnd := currentLineBufferEnd;
      path := path + [true];
      SetCurrentNode(tree.nodes[currentNode].right);
    }

    /** ascend: back to the parent, taking the left-ancestor fields off the stacks; above the root it leaves the tree. */
    method Ascend()
      requires Valid() && currentNode != NIL
      modifies this
      ensures Valid()
      ensures old(path) != [] ==> path == Up(old(path)) && currentNode == old(tree.nodes[currentNode].parent)
      ensures old(path) == [] ==> currentNode == NIL
    {
      ghost var t, ns, p := tree.tree, tree.nodes, path;
      var parent := tree.nodes[currentNode].parent;
      NodeLinks(t, ns, p);
      if p != [] {
        AncestryUp(t, ns, p, Fields(), AncestryAt(t, ns, Up(p)));
      }
      PopAncestorStacks();
      if p != [] {
        path := Up(p);
      }
      SetCurrentNode(parent);
    }

    /** On a node, the cursor fields are that node's row, line and buffer range. */
    lemma {:induction false} OnNode()
      requires Valid() && currentNode != NIL
      ensures Sub(tree.tree, path).Node? && currentNode == Sub(tree.tree, path).key < |tree.nodes|
      ensures 0 <= currentScreenRow == Rank(tree.tree, path) < |tree.Rows()|
      ensures tree.nodes[currentNode].line == tree.Rows()[currentScreenRow]
      ensures currentLineBufferStart == LineStart(tree.Rows(), currentScreenRow)
      ensures currentLineBufferEnd == LineEnd(tree.Rows(), currentScreenRow)
      ensures Lo(tree.tree, path) <= currentScreenRow < Lo(tree.tree, path) + Size(Sub(tree.tree, path))
      ensures (tree.nodes[currentNode].left == NIL <==> Sub(tree.tree, path).left == Nil)
      ensures (tree.nodes[currentNode].right == NIL <==> Sub(tree.tree, path).right == Nil)
    {
      RankLine(tree.tree, tree.nodes, path);
      NodeLinks(tree.tree, tree.nodes, path);
      HandleNil(Sub(tree.tree, path).left);
      HandleNil(Sub(tree.tree, path).right);
    }

    /** getTokens: the current line's tokens with their computed offsets; None off the tree. */
    function GetTokens(): (ts: Option<seq<PlacedToken>>)
      reads this, tree, tree.ids
      requires Valid()
      ensures ts.None? <==> currentNode == NIL
      ensures ts.Some? ==>
        0 <= currentScreenRow < |tree.Rows()| && TokensPlaced(tree.Rows()[currentScreenRow].tokens, ts.value)
    {
      if currentNode == NIL then None
      else
        OnNode();
        assert TokensPlaced(tree.nodes[currentNode].line.tokens, tree.nodes[currentNode].tokens);
        Some(tree.nodes[currentNode].tokens)
    }

    /** The current node's parent: NIL at the top of the path, otherwise the node one step up. */
    lemma {:induction false} ParentOf()
      requires Valid() && currentNode != NIL
      ensures currentNode < |tree.nodes|
      ensures (tree.nodes[currentNode].parent == NIL <==> path == [])
      ensures path != [] ==> Sub(tree.tree, Up(path)).Node? && tree.nodes[currentNode].parent == Sub(tree.tree, Up(path)).key < |tree.nodes|
    {
      NodeLinks(tree.tree, tree.nodes, path);
      if path != [] {
        ParentStep(tree.tree, tree.nodes, path);
      }
    }

    /**
     * findNode: from the root, down to the node of screen row `row`; NIL
     * when the tree has no such row.
     */
    method FindNode(row: int) returns (h: int)
      requires tree.Valid()
      modifies this
      ensures Valid()
      ensures h != NIL <==> 0 <= row < |tree.Rows()|
      ensures h != NIL ==> h == currentNode && currentScreenRow == row
      ensures h != NIL ==> row < |Inorder(tree.tree)| && h == Inorder(tree.tree)[row]
    {
      Reset();
      if currentNode == NIL {
        HandleNil(tree.tree);
        return NIL;
      }
      TopFacts(tree.tree, tree.nodes);
      LinesLength(tree.tree, tree.nodes);
      while true
        invariant Valid() && currentNode != NIL
        invariant 0 <= row < |tree.Rows()| ==>
          Lo(tree.tree, path) <= row < Lo(tree.tree, path) + Size(Sub(tree.tree, path))
        decreases Size(Sub(tree.tree, path))
      {
        ghost var t, ns := tree.tree, tree.nodes;
        OnNode();
        NodeLinks(t, ns, path);
        HandleNil(Sub(t, path).left);
        HandleNil(Sub(t, path).right);
        StepDown(t, path, false);
        StepDown(t, path, true);
        if row < currentScreenRow {
          if tree.nodes[currentNode].left != NIL {
            DescendLeft();
          } else {
            return NIL;
          }
        } else if row == currentScreenRow {
          RankKey(t, path);
          return currentNode;
        } else {
          if tree.nodes[currentNode].right != NIL {
            DescendRight();
          } else {
            return NIL;
          }
        }
      }
    }

    /**
     * getScreenPositionWithMaxLineLength: None for an empty tree; otherwise
     * the longest screen extent as the column, on a row whose line has that
     * extent. The descent stops at the first such node from the top, which
     * need not be the first such row.
     */
    method GetScreenPositionWithMaxLineLength() returns (p: Option<Point>)
      requires tree.Valid()
      modifies this
      ensures Valid()
      ensures p.None? <==> |tree.Rows()| == 0
      ensures p.Some? ==> p.value.row < |tree.Rows()| && p.value.column == MaxLength(tree.Rows())
      ensures p.Some? ==> tree.Rows()[p.value.row].screenExtent == MaxLength(tree.Rows())
    {
      Reset();
      if currentNode == NIL {
        HandleNil(tree.tree);
        return None;
      }
      TopFacts(tree.tree, tree.nodes);
      SubAggregates(tree.tree, tree.nodes, path);
      var maxScreenExtent := tree.nodes[currentNode].maxScreenExtent;
      var found := false;
      while !found
        invariant Valid() && currentNode != NIL && maxScreenExtent == MaxLength(tree.Rows())
        invariant found ==> tree.Rows()[currentScreenRow].screenExtent == maxScreenExtent
        invariant !found ==> maxScreenExtent == SubtreeMax()
        decreases !found, Size(Sub(tree.tree, path))
      {
        found := MaxStep(maxScreenExtent);
      }
      OnNode();
      MaxLengthAtLeastMinusOne(tree.Rows());
      return Some(Point(currentScreenRow, maxScreenExtent));
    }

    /**
     * One pass of the loop of getScreenPositionWithMaxLineLength: stop on a
     * node whose line has the longest extent `m` of the subtree, or go down
     * into a child whose subtree has it, left before right.
     */
    method MaxStep(m: int) returns (found: bool)
      requires Valid() && currentNode != NIL
      requires m == SubtreeMax()
      modifies this
      ensures Valid() && currentNode != NIL
      ensures found ==> currentScreenRow == old(currentScreenRow) && tree.Rows()[currentScreenRow].screenExtent == m
      ensures !found ==> m == SubtreeMax()
      ensures !found ==> Size(Sub(tree.tree, path)) < old(Size(Sub(tree.tree, path)))
    {
      ghost var t, ns := tree.tree, tree.nodes;
      OnNode();
      var s := Sub(t, path);
      SubAggregates(t, ns, path);
      NodeLinks(t, ns, path);
      MaxAround(Lines(s.left, ns), ns[s.key].line, Lines(s.right, ns));
      HandleNil(s.left);
      HandleNil(s.right);
      if tree.nodes[currentNode].line.screenExtent == m {
        found := true;
      } else if tree.nodes[currentNode].left != NIL && tree.nodes[tree.nodes[currentNode].left].maxScreenExtent == m {
        DescendLeft();
        found := false;
      } else {
        DescendRight();
        found := false;
      }
    }

    /** seekToScreenPosition: onto the row of `target`, when the tree has that row. */
    method SeekToScreenPosition(target: Point)
      requires tree.Valid()
      modifies this
      ensures Valid()
      ensures target.row < |tree.Rows()| ==> currentNode != NIL && currentScreenRow == target.row
    {
      var _ := FindNode(target.row);
    }

    /**
     * seekToBufferPosition: from the root, down to the row the buffer
     * position `target` belongs to (see IsBufferRowFor); off the tree only
     * when it has no rows.
     */
    method SeekToBufferPosition(target: Point)
      requires tree.Valid()
      modifies this
      ensures Valid()
      ensures currentNode == NIL <==> |tree.Rows()| == 0
      ensures currentNode != NIL ==> IsBufferRowFor(tree.Rows(), target, currentScreenRow)
    {
      Reset();
      if currentNode == NIL {
        HandleNil(tree.tree);
        return;
      }
      TopFacts(tree.tree, tree.nodes);
      LinesLength(tree.tree, tree.nodes);
      ghost var ls := tree.Rows();
      ghost var lo, hi := 0, |ls|;
      BracketedAll(ls, target);
      var found := false;
      while !found
        invariant Valid() && currentNode != NIL
        invariant lo == Lo(tree.tree, path) && hi == lo + Size(Sub(tree.tree, path))
        invariant found ==> IsBufferRowFor(ls, target, currentScreenRow)
        invariant !found ==> Bracketed(ls, target, lo, hi)
        decreases !found, hi - lo
      {
        found, lo, hi := SeekStep(target, ls, lo, hi);
      }
    }

    /**
     * One pass of the loop of seekToBufferPosition: stop on the current row,
     * or take one step down towards the row of `target`. The rows `lo` to
     * `hi` under the current node are those the search has narrowed down to.
     */
    method SeekStep(target: Point, ghost ls: seq<ScreenLine>, ghost lo: nat, ghost hi: nat)
      returns (found: bool, ghost lo': nat, ghost hi': nat)
      requires Valid() && currentNode != NIL && ls == tree.Rows()
      requires lo == Lo(tree.tree, path) && hi == lo + Size(Sub(tree.tree, path))
      requires Bracketed(ls, target, lo, hi)
      modifies this
      ensures Valid() && currentNode != NIL
      ensures lo' == Lo(tree.tree, path) && hi' == lo' + Size(Sub(tree.tree, path))
      ensures found ==> IsBufferRowFor(ls, target, currentScreenRow)
      ensures !found ==> Bracketed(ls, target, lo', hi') && hi' - lo' < hi - lo
    {
      ghost var r, start, end := currentScreenRow, currentLineBufferStart, currentLineBufferEnd;
      OnNode();
      BracketedStep(ls, target, lo, r, hi, start, end);
      found, lo', hi' := false, lo, hi;
      if Compare(target, currentLineBufferStart) <= 0 {
        if tree.nodes[currentNode].left != NIL {
          DescendLeft();
          hi' := r;
        } else {
          found := true;
        }
      } else {
        if Compare(target, currentLineBufferEnd) <= 0 {
          found := true;
        } else if tree.nodes[currentNode].right != NIL {
          DescendRight();
          lo' := r + 1;
        } else {
          found := true;
        }
      }
    }

    /**
     * moveToSuccessor: onto the next screen row. With a right subtree that
     * is its leftmost node; without one, the nearest ancestor the node is
     * left of. False, and off the tree, after the last row or when already
     * off the tree.
     */
    method MoveToSuccessor() returns (moved: bool)
      requires Valid()
      modifies this
      ensures Valid()
      ensures old(currentNode) == NIL ==> !moved
      ensures old(currentNode) != NIL ==> (moved <==> old(currentScreenRow) + 1 < |tree.Rows()|)
      ensures moved ==> currentNode != NIL && currentScreenRow == old(currentScreenRow) + 1
      ensures !moved ==> currentNode == NIL
    {
      if currentNode == NIL {
        return false;
      }
      if tree.nodes[currentNode].right != NIL {
        MoveDownToSuccessor();
        return true;
      } else {
        moved := MoveUpToSuccessor();
      }
    }

    /** The first branch of moveToSuccessor: one step right, then left as far as it goes. */
    method MoveDownToSuccessor()
      requires Valid() && currentNode != NIL && tree.nodes[currentNode].right != NIL
      modifies this
      ensures Valid() && currentNode != NIL && currentScreenRow == old(currentScreenRow) + 1
    {
      ghost var t, r0 := tree.tree, currentScreenRow;
      OnNode();
      DescendRight();
      while tree.nodes[currentNode].left != NIL
        invariant Valid() && currentNode != NIL && Lo(t, path) == r0 + 1
        decreases Size(Sub(t, path))
      {
        OnNode();
        DescendLeft();
      }
      OnNode();
    }

    /**
     * The second branch of moveToSuccessor: up past every node the current
     * one is the right child of, then one more step up, which reaches the
     * next row or leaves the tree after the last one.
     */
    method MoveUpToSuccessor() returns (moved: bool)
      requires Valid() && currentNode != NIL && tree.nodes[currentNode].right == NIL
      modifies this
      ensures Valid()
      ensures moved <==> old(currentScreenRow) + 1 < |tree.Rows()|
      ensures moved ==> currentNode != NIL && currentScreenRow == old(currentScreenRow) + 1
      ensures !moved ==> currentNode == NIL
    {
      ghost var t, r0 := tree.tree, currentScreenRow;
      OnNode();
      ParentOf();
      while tree.nodes[currentNode].parent != NIL && tree.nodes[tree.nodes[currentNode].parent].right == currentNode
        invariant Valid() && currentNode != NIL && Lo(t, path) + Size(Sub(t, path)) == r0 + 1
        invariant tree.nodes[currentNode].parent == NIL || 0 <= tree.nodes[currentNode].parent < |tree.nodes|
        decreases |path|
      {
        ParentStep(t, tree.nodes, path);
        Ascend();
        ParentOf();
      }
      if path != [] {
        ParentStep(t, tree.nodes, path);
      } else {
        LinesLength(t, tree.nodes);
      }
      Ascend();
      if currentNode != NIL {
        OnNode();
      }
      return currentNode != NIL;
    }
  }
}
