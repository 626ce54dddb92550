/**
 * The token iterator of src/token-iterator.js: a line iterator of its own
 * over a line tree together with the index of a token in the current line.
 * It seeks to the token at a screen or buffer position, steps to the next
 * token, reports the current token's screen and buffer range (caching the
 * four positions until the next move) and translates positions between
 * the buffer and the screen inside the current token.
 */
module TokenIterators {
  import opened Options
  import opened Points
  import opened ScreenLines
  import opened TreeShapes
  import opened LineTrees
  import opened LineIterators
  import opened TokenSearches

  /**
   * The token getCurrentToken reports when there is no current line. Only
   * its four zero offsets stand for the source's ZERO_TOKEN, which has no
   * screen extent, buffer extent or metadata; the payload is a placeholder
   * that GetScreenExtent, GetBufferExtent and GetMetadata never report.
   */
  const ZERO_TOKEN := PlacedToken(Token(0, ZERO_POINT, 0), 0, 0, ZERO_POINT, ZERO_POINT)

  /** How the source's moveToSuccessor and seekToScreenPosition end: they return a boolean, or they throw. */
  datatype Outcome = Returned(value: bool) | Threw

  /** A clipped screen target: a row and a column that may be Infinity. */
  datatype ScreenTarget = ScreenTarget(row: int, column: Column)

  /**
   * The clipping of seekToScreenPosition: a negative row sends the target
   * to ZERO_POINT, a negative column to column 0, and a row past
   * `lastScreenRow` to that row at column Infinity.
   */
  function ClipScreenTarget(row: int, column: int, lastScreenRow: int): (r: ScreenTarget)
    ensures lastScreenRow >= 0 ==> 0 <= r.row <= lastScreenRow
    ensures lastScreenRow < 0 ==> r.row == lastScreenRow
    ensures r.column.Infinity? <==> (if row < 0 then 0 else row) > lastScreenRow
    ensures (r.row == row && r.column.At? && r.column.column == column) <==> 0 <= row <= lastScreenRow && column >= 0
    ensures 0 <= row <= lastScreenRow ==> r == ScreenTarget(row, At(if column < 0 then 0 else column))
  {
    var clippedRow, clippedColumn := if row < 0 then 0 else row, if row < 0 then 0 else column;
    var clippedColumn' := if clippedColumn < 0 then 0 else clippedColumn;
    if clippedRow > lastScreenRow then ScreenTarget(lastScreenRow, Infinity)
    else ScreenTarget(clippedRow, At(clippedColumn'))
  }

  /** The clipping of seekToBufferPosition: a negative row gives ZERO_POINT, a negative column column 0. */
  function ClipBufferTarget(row: int, column: int): (p: Point)
    ensures row < 0 ==> p == ZERO_POINT
    ensures row >= 0 ==> p.row == row && p.column == if column < 0 then 0 else column
    ensures (p.row == row && p.column == column) <==> row >= 0 && column >= 0
  {
    if row < 0 then ZERO_POINT
    else Point(row, if column < 0 then 0 else column)
  }

  /**
   * The offset inside its line that the buffer seek searches for: the
   * target, clamped to the end of the line it falls in, measured from the
   * line's start.
   */
  ghost function OffsetInLine(ls: seq<ScreenLine>, target: Point, row: int): (d: Point)
    requires IsBufferRowFor(ls, target, row)
    ensures 0 <= row < |ls| &&
      Traverse(LineStart(ls, row), d) == MinPoint(target, LineEnd(ls, row))
  {
    BufferRowContains(ls, target, row);
    TraverseAdvances(LineStart(ls, row), ls[row].bufferExtent);
    TraversalDistance(MinPoint(target, LineEnd(ls, row)), LineStart(ls, row))
  }

  // ---------------------------------------------------------------------------
  // Translation inside a token
  // ---------------------------------------------------------------------------

  /**
   * translateBufferPosition and translateScreenPosition: the position as far
   * past `to` as `p` is past `from`; None where the source throws, for a
   * position before `from`. The position passed in may have a negative row
   * or column; past the row of `from` a negative column is carried over.
   */
  function Translate(p: Position, from: Point, to: Point): (r: Option<Position>)
    ensures r.None? <==> Before(p, AsPosition(from))
    ensures r.Some? ==> r.value.row == to.row + (p.row - from.row)
    ensures r.Some? && p.row == from.row ==> r.value.column == to.column + (p.column - from.column)
    ensures r.Some? && p.row != from.row ==> r.value.column == p.column
  {
    if Before(p, AsPosition(from)) then None
    else Some(TraversePosition(AsPosition(to), PositionDistance(p, AsPosition(from))))
  }

  /** On a point at or after `from`, translation is the point helpers' traverse of the distance. */
  lemma {:induction false} TranslatePoint(p: Point, from: Point, to: Point)
    requires LessEq(from, p)
    ensures Translate(AsPosition(p), from, to) == Some(AsPosition(Traverse(to, TraversalDistance(p, from))))
  {
    BeforeAgrees(p, from);
    LessTotal(p, from);
    PositionHelpersAgree(p, from);
    PositionHelpersAgree(to, TraversalDistance(p, from));
  }

  /** Translating there and back gives the position back. */
  lemma {:induction false} TranslateRoundTrip(p: Position, from: Point, to: Point)
    requires AtOrBefore(AsPosition(from), p)
    ensures Translate(p, from, to).Some?
    ensures Translate(Translate(p, from, to).value, to, from) == Some(p)
  {
    var d := PositionDistance(p, AsPosition(from));
    var q := TraversePosition(AsPosition(to), d);
    assert !Before(q, AsPosition(to));
    PositionDistanceOfTraverse(AsPosition(to), d);
  }

  /** Translation keeps the order of the positions it accepts. */
  lemma {:induction false} TranslateKeepsOrder(p: Position, q: Position, from: Point, to: Point)
    requires AtOrBefore(AsPosition(from), p) && AtOrBefore(AsPosition(from), q)
    ensures Translate(p, from, to).Some? && Translate(q, from, to).Some?
    ensures Before(p, q) <==> Before(Translate(p, from, to).value, Translate(q, from, to).value)
  {
  }

  /**
   * Positions with a negative coordinate: one on a row before the token's
   * start is refused, and one on a later row keeps its negative column.
   */
  lemma {:induction false} TranslateNegativeCoordinates(from: Point, to: Point)
    ensures Translate(Position(-1, 5), from, to).None?
    ensures from.row == 0 ==> Translate(Position(1, -1), from, to) == Some(Position(to.row + 1, -1))
  {
  }

  /** A token's end is its start moved by its extents. */
  predicate Spans(t: PlacedToken) {
    t.screenEndOffset == t.screenStartOffset + t.token.screenExtent &&
    t.bufferEndOffset == Traverse(t.bufferStartOffset, t.token.bufferExtent)
  }

  /** Every token placed by computed offsets spans its extents. */
  lemma {:induction false} PlacedTokenSpans(tokens: seq<Token>, placed: seq<PlacedToken>, i: nat)
    requires OffsetsComputed(tokens, placed) && i < |placed|
    ensures Spans(placed[i])
  {
    PlacedSpans(tokens, placed, i);
  }

  /** Moving a token's two offsets from the same line start keeps its buffer span. */
  lemma {:induction false} SpansFrom(lineStart: Point, t: PlacedToken)
    requires Spans(t)
    ensures Traverse(lineStart, t.bufferEndOffset) ==
      Traverse(Traverse(lineStart, t.bufferStartOffset), t.token.bufferExtent)
  {
    TraverseAssociative(lineStart, t.bufferStartOffset, t.token.bufferExtent);
  }

  class TokenIterator {
    const tree: LineTree
    const lineIterator: LineIterator
    var tokenIndex: int
    var screenStart: Option<Point>
    var screenEnd: Option<Point>
    var bufferStart: Option<Point>
    var bufferEnd: Option<Point>

    /** The line iterator walks this iterator's tree, and on a line the token index lies inside it. */
    ghost predicate OnToken()
      reads this, tree, tree.ids, lineIterator
    {
      lineIterator.tree == tree && lineIterator.Valid() &&
      (lineIterator.GetTokens().Some? ==> 0 <= tokenIndex < |lineIterator.GetTokens().value|)
    }

    /** The cached positions are the ones the getters compute. */
    ghost predicate Valid()
      reads this, tree, tree.ids, lineIterator
    {
      OnToken() &&
      (screenStart.Some? ==> screenStart.value == ScreenStartOf()) &&
      (screenEnd.Some? ==> screenEnd.value == ScreenEndOf()) &&
      (bufferStart.Some? ==> bufferStart.value == BufferStartOf()) &&
      (bufferEnd.Some? ==> bufferEnd.value == BufferEndOf())
    }

    ghost predicate NoCaches()
      reads this
    {
      screenStart.None? && screenEnd.None? && bufferStart.None? && bufferEnd.None?
    }

    /** The lines of the tree, by screen row. */
    ghost function Rows(): seq<ScreenLine>
      reads this, tree, tree.ids, lineIterator
      requires OnToken()
    {
      tree.Rows()
    }

    /** On the last token of the last line. */
    ghost predicate AtLastToken()
      reads this, tree, tree.ids, lineIterator
      requires OnToken()
    {
      lineIterator.GetTokens().Some? &&
      tokenIndex == |lineIterator.GetTokens().value| - 1 && lineIterator.currentScreenRow == |Rows()| - 1
    }

    constructor (tree: LineTree)
      requires tree.Valid()
      ensures Valid() && NoCaches() && this.tree == tree && fresh(lineIterator) && lineIterator.currentNode == NIL
    {
      this.tree := tree;
      lineIterator := new LineIterator(tree);
      tokenIndex := 0;
      screenStart, screenEnd, bufferStart, bufferEnd := None, None, None, None;
    }

    /** getCurrentToken: token `tokenIndex` of the current line; ZERO_TOKEN off the tree. */
    function GetCurrentToken(): (t: PlacedToken)
      reads this, tree, tree.ids, lineIterator
      requires OnToken()
      ensures lineIterator.GetTokens().None? ==> t == ZERO_TOKEN
      ensures lineIterator.GetTokens().Some? ==>
        0 <= tokenIndex < |tree.Rows()[lineIterator.currentScreenRow].tokens| &&
        t.token == tree.Rows()[lineIterator.currentScreenRow].tokens[tokenIndex]
    {
      var tokens := lineIterator.GetTokens();
      if tokens.Some? && |tokens.value| > 0 then
        PlacedComputed(tree.Rows()[lineIterator.currentScreenRow].tokens, tokens.value);
        tokens.value[tokenIndex]
      else
        ZERO_TOKEN
    }

    ghost function ScreenStartOf(): Point
      reads this, tree, tree.ids, lineIterator
      requires OnToken()
    {
      Point(lineIterator.currentScreenRow, GetCurrentToken().screenStartOffset)
    }

    ghost function ScreenEndOf(): Point
      reads this, tree, tree.ids, lineIterator
      requires OnToken()
    {
      Point(lineIterator.currentScreenRow, GetCurrentToken().screenEndOffset)
    }

    ghost function BufferStartOf(): Point
      reads this, tree, tree.ids, lineIterator
      requires OnToken()
    {
      Traverse(lineIterator.currentLineBufferStart, GetCurrentToken().bufferStartOffset)
    }

    ghost function BufferEndOf(): Point
      reads this, tree, tree.ids, lineIterator
      requires OnToken()
    {
      Traverse(lineIterator.currentLineBufferStart, GetCurrentToken().bufferEndOffset)
    }

    /**
     * getScreenExtent: the current token's screen extent; None off the tree,
     * where the source reads the missing field of ZERO_TOKEN and returns undefined.
     */
    function GetScreenExtent(): (e: Option<nat>)
      reads this, tree, tree.ids, lineIterator
      requires OnToken()
      ensures e.None? <==> lineIterator.GetTokens().None?
      ensures e.Some? ==>
        e.value == tree.Rows()[lineIterator.currentScreenRow].tokens[tokenIndex].screenExtent
    {
      if lineIterator.GetTokens().Some? then Some(GetCurrentToken().token.screenExtent) else None
    }

    /** getBufferExtent: the current token's buffer extent; None (undefined) off the tree. */
    function GetBufferExtent(): (e: Option<Point>)
      reads this, tree, tree.ids, lineIterator
      requires OnToken()
      ensures e.None? <==> lineIterator.GetTokens().None?
      ensures e.Some? ==>
        e.value == tree.Rows()[lineIterator.currentScreenRow].tokens[tokenIndex].bufferExtent
    {
      if lineIterator.GetTokens().Some? then Some(GetCurrentToken().token.bufferExtent) else None
    }

    /** getMetadata: the current token's metadata; None (undefined) off the tree. */
    function GetMetadata(): (m: Option<int>)
      reads this, tree, tree.ids, lineIterator
      requires OnToken()
      ensures m.None? <==> lineIterator.GetTokens().None?
      ensures m.Some? ==>
        m.value == tree.Rows()[lineIterator.currentScreenRow].tokens[tokenIndex].metadata
    {
      if lineIterator.GetTokens().Some? then Some(GetCurrentToken().token.metadata) else None
    }

    /**
     * The current token's offsets are the total extents of the tokens before
     * it in its line, and it spans its own extents.
     */
    lemma {:induction false} CurrentTokenPlaced()
      requires OnToken() && lineIterator.GetTokens().Some?
      ensures var line, t := tree.Rows()[lineIterator.currentScreenRow].tokens, GetCurrentToken();
        0 <= tokenIndex < |line| &&
        t.screenStartOffset == ScreenWidth(line[..tokenIndex]) &&
        t.screenEndOffset == ScreenWidth(line[..tokenIndex + 1]) &&
        t.bufferStartOffset == BufferWidth(line[..tokenIndex]) &&
        t.bufferEndOffset == BufferWidth(line[..tokenIndex + 1])
    {
      var line := tree.Rows()[lineIterator.currentScreenRow].tokens;
      PlacedComputed(line, lineIterator.GetTokens().value);
      OffsetsArePrefixSums(line, lineIterator.GetTokens().value, tokenIndex);
    }

    /** On a line, the current token is the placed token at `tokenIndex`. */
    lemma {:induction false} CurrentIsPlaced()
      requires OnToken() && lineIterator.GetTokens().Some?
      ensures GetCurrentToken() == lineIterator.GetTokens().value[tokenIndex]
    {
    }

    /** On a line, the token at `tokenIndex` spans its extents. */
    lemma {:induction false} LineTokenSpans()
      requires OnToken() && lineIterator.GetTokens().Some?
      ensures Spans(lineIterator.GetTokens().value[tokenIndex])
    {
      var placed := lineIterator.GetTokens().value;
      var line := tree.Rows()[lineIterator.currentScreenRow].tokens;
      PlacedComputed(line, placed);
      PlacedTokenSpans(line, placed, tokenIndex);
    }

    /** The current token spans its extents: its end is its start moved by its screen and buffer extent. */
    lemma {:induction false} TokenSpan()
      requires OnToken() && lineIterator.GetTokens().Some?
      ensures GetScreenExtent().Some? && GetBufferExtent().Some?
      ensures ScreenEndOf() == Point(ScreenStartOf().row, ScreenStartOf().column + GetScreenExtent().value)
      ensures BufferEndOf() == Traverse(BufferStartOf(), GetBufferExtent().value)
    {
      LineTokenSpans();
      CurrentIsPlaced();
      SpansFrom(lineIterator.currentLineBufferStart, GetCurrentToken());
    }

    /** clearCachedPositions */
    method ClearCachedPositions()
      modifies this
      ensures NoCaches() && tokenIndex == old(tokenIndex)
    {
      screenStart, screenEnd, bufferStart, bufferEnd := None, None, None, None;
    }

    /** getScreenStart: the current token's start on screen, cached. */
    method GetScreenStart() returns (p: Point)
      requires Valid()
      modifies this
      ensures Valid() && p == ScreenStartOf() && screenStart == Some(p)
      ensures tokenIndex == old(tokenIndex) && screenEnd == old(screenEnd)
      ensures bufferStart == old(bufferStart) && bufferEnd == old(bufferEnd)
    {
      if screenStart.Some? {
        return screenStart.value;
      }
      p := Point(lineIterator.currentScreenRow, GetCurrentToken().screenStartOffset);
      screenStart := Some(p);
    }

    /** getScreenEnd: the current token's end on screen, cached. */
    method GetScreenEnd() returns (p: Point)
      requires Valid()
      modifies this
      ensures Valid() && p == ScreenEndOf() && screenEnd == Some(p)
      ensures tokenIndex == old(tokenIndex) && screenStart == old(screenStart)
      ensures bufferStart == old(bufferStart) && bufferEnd == old(bufferEnd)
    {
      if screenEnd.Some? {
        return screenEnd.value;
      }
      p := Point(lineIterator.currentScreenRow, GetCurrentToken().screenEndOffset);
      screenEnd := Some(p);
    }

    /** getBufferStart: the current token's start in the buffer, cached. */
    method GetBufferStart() returns (p: Point)
      requires Valid()
      modifies this
      ensures Valid() && p == BufferStartOf() && bufferStart == Some(p)
      ensures tokenIndex == old(tokenIndex) && screenStart == old(screenStart)
      ensures screenEnd == old(screenEnd) && bufferEnd == old(bufferEnd)
    {
      if bufferStart.Some? {
        return bufferStart.value;
      }
      p := Traverse(lineIterator.currentLineBufferStart, GetCurrentToken().bufferStartOffset);
      bufferStart := Some(p);
    }

    /** getBufferEnd: the current token's end in the buffer, cached. */
    method GetBufferEnd() returns (p: Point)
      requires Valid()
      modifies this
      ensures Valid() && p == BufferEndOf() && bufferEnd == Some(p)
      ensures tokenIndex == old(tokenIndex) && screenStart == old(screenStart)
      ensures screenEnd == old(screenEnd) && bufferStart == old(bufferStart)
    {
      if bufferEnd.Some? {
        return bufferEnd.value;
      }
      p := Traverse(lineIterator.currentLineBufferStart, GetCurrentToken().bufferEndOffset);
      bufferEnd := Some(p);
    }

    /**
     * translateBufferPosition: the screen position as far past the token's
     * screen start as `p` is past its buffer start; None where the source
     * throws, for a position before the token's buffer start.
     */
    method TranslateBufferPosition(p: Position) returns (r: Option<Position>)
      requires Valid()
      modifies this
      ensures Valid() && tokenIndex == old(tokenIndex)
      ensures r == Translate(p, BufferStartOf(), ScreenStartOf())
    {
      var start := GetBufferStart();
      if Before(p, AsPosition(start)) {
        return None;
      }
      var screen := GetScreenStart();
      start := GetBufferStart();
      return Some(TraversePosition(AsPosition(screen), PositionDistance(p, AsPosition(start))));
    }

    /**
     * translateScreenPosition: the buffer position as far past the token's
     * buffer start as `p` is past its screen start; None where the source
     * throws, for a position before the token's screen start.
     */
    method TranslateScreenPosition(p: Position) returns (r: Option<Position>)
      requires Valid()
      modifies this
      ensures Valid() && tokenIndex == old(tokenIndex)
      ensures r == Translate(p, ScreenStartOf(), BufferStartOf())
    {
      var start := GetScreenStart();
      if Before(p, AsPosition(start)) {
        return None;
      }
      var buffer := GetBufferStart();
      start := GetScreenStart();
      return Some(TraversePosition(AsPosition(buffer), PositionDistance(p, AsPosition(start))));
    }

    /**
     * moveToSuccessor as the source writes it. At the last token of a line
     * the line iterator steps to the next line; at the last token of the
     * last line that step fails, leaves no current line, and the source then
     * reads the length of the missing token list, which throws. Off the tree
     * it throws at once.
     */
    method MoveToSuccessorAsWritten() returns (r: Outcome)
      requires Valid()
      modifies this, lineIterator
      ensures old(lineIterator.currentNode) == NIL ==> r == Threw
      ensures old(lineIterator.currentNode) != NIL ==> (r == Threw <==> old(AtLastToken()))
      ensures r != Threw ==> r == Returned(true) && Valid() && NoCaches()
      ensures r != Threw && old(tokenIndex + 1 < |lineIterator.GetTokens().value|) ==>
        unchanged(lineIterator) && tokenIndex == old(tokenIndex) + 1
      ensures r != Threw && !old(tokenIndex + 1 < |lineIterator.GetTokens().value|) ==>
        lineIterator.currentNode != NIL && lineIterator.currentScreenRow == old(lineIterator.currentScreenRow) + 1 &&
        tokenIndex == 0
    {
      ClearCachedPositions();
      tokenIndex := tokenIndex + 1;
      var tokens := lineIterator.GetTokens();
      if tokens.None? {
        return Threw;
      }
      ghost var row := lineIterator.currentScreenRow;
      ghost var advanced := false;
      while tokenIndex == |lineIterator.GetTokens().value|
        invariant lineIterator.Valid() && lineIterator.GetTokens().Some? && NoCaches()
        invariant 0 <= tokenIndex <= |lineIterator.GetTokens().value|
        invariant !advanced ==> unchanged(lineIterator) && tokenIndex == old(tokenIndex) + 1
        invariant advanced ==>
          tokenIndex == 0 && 0 < |lineIterator.GetTokens().value| &&
          lineIterator.currentScreenRow == row + 1 && old(tokenIndex) + 1 == |tokens.value|
        invariant old(AtLastToken()) ==> !advanced
        decreases |tree.Rows()| - lineIterator.currentScreenRow
      {
        var moved := lineIterator.MoveToSuccessor();
        if moved {
          tokenIndex := 0;
          advanced := true;
        } else {
          return Threw;
        }
      }
      return Returned(true);
    }

    /**
     * moveToSuccessor as the reference iterators behave: the next token of
     * the line, or the first token of the next line; false, staying on the
     * last token, when there is neither, and false off the tree.
     */
    method MoveToSuccessor() returns (moved: bool)
      requires Valid()
      modifies this, lineIterator
      ensures Valid() && NoCaches()
      ensures old(lineIterator.currentNode) == NIL ==> !moved
      ensures old(lineIterator.currentNode) != NIL ==> (moved <==> !old(AtLastToken()))
      ensures moved && old(tokenIndex + 1 < |lineIterator.GetTokens().value|) ==>
        unchanged(lineIterator) && tokenIndex == old(tokenIndex) + 1
      ensures moved && !old(tokenIndex + 1 < |lineIterator.GetTokens().value|) ==>
        lineIterator.currentNode != NIL && lineIterator.currentScreenRow == old(lineIterator.currentScreenRow) + 1 &&
        tokenIndex == 0
      ensures !moved ==> unchanged(lineIterator) && tokenIndex == old(tokenIndex)
    {
      ClearCachedPositions();
      var tokens := lineIterator.GetTokens();
      if tokens.None? {
        return false;
      }
      if tokenIndex + 1 < |tokens.value| {
        tokenIndex := tokenIndex + 1;
        return true;
      }
      if lineIterator.currentScreenRow == tree.GetLastScreenRow() {
        return false;
      }
      moved := lineIterator.MoveToSuccessor();
      tokenIndex := 0;
    }

    /**
     * seekToScreenPosition as the source writes it: after clearing the
     * cached positions and clipping the target it calls seekToScreenRow on
     * its LineIterator, which defines no such method, so every call throws.
     */
    method SeekToScreenPositionAsWritten(row: int, column: int) returns (r: Outcome)
      requires Valid()
      modifies this
      ensures r == Threw
      ensures Valid() && NoCaches() && tokenIndex == old(tokenIndex)
    {
      ClearCachedPositions();
      var _ := ClipScreenTarget(row, column, tree.GetLastScreenRow());
      return Threw;
    }

    /**
     * seekToScreenPosition as intended, finding the row's node with findNode: onto the line of the clipped target row and
     * there onto the token ScreenSought describes for the clipped column.
     * Off the tree when the tree has no rows.
     */
    method SeekToScreenPosition(row: int, column: int)
      requires Valid()
      modifies this, lineIterator
      ensures Valid() && NoCaches()
      ensures lineIterator.currentNode == NIL <==> |Rows()| == 0
      ensures lineIterator.currentNode != NIL ==>
        var target := ClipScreenTarget(row, column, |Rows()| - 1);
        lineIterator.currentScreenRow == target.row &&
        ScreenSought(lineIterator.GetTokens().value, target.column, tokenIndex)
    {
      ClearCachedPositions();
      var target := ClipScreenTarget(row, column, tree.GetLastScreenRow());
      var node := lineIterator.FindNode(target.row);
      if lineIterator.currentNode == NIL {
        return;
      }
      FindScreenToken(target.column);
    }

    /** The token search of seekToScreenPosition, on the current line. */
    method FindScreenToken(column: Column)
      requires lineIterator.tree == tree && lineIterator.Valid() && NoCaches() && lineIterator.currentNode != NIL
      modifies this, lineIterator
      ensures Valid() && NoCaches()
      ensures lineIterator.currentNode == old(lineIterator.currentNode)
      ensures lineIterator.currentScreenRow == old(lineIterator.currentScreenRow)
      ensures ScreenSought(lineIterator.GetTokens().value, column, tokenIndex)
    {
      var tokens := lineIterator.GetTokens().value;
      ghost var line := tree.Rows()[lineIterator.currentScreenRow].tokens;
      PlacedComputed(line, tokens);
      var index := SearchScreen(line, tokens, column);
      tokenIndex := RewindScreen(tokens, column, index);
      ScreenSeekLands(line, tokens, column, index, tokenIndex);
      if ScreenAdvances(tokens, column, tokenIndex) {
        var _ := MoveToSuccessor();
      }
    }

    /**
     * seekToBufferPosition: onto the line the clipped target falls in and
     * there onto the token BufferSought describes for the target's offset
     * in that line. Off the tree when the tree has no rows.
     */
    method SeekToBufferPosition(row: int, column: int)
      requires Valid()
      modifies this, lineIterator
      ensures Valid() && NoCaches()
      ensures lineIterator.currentNode == NIL <==> |Rows()| == 0
      ensures lineIterator.currentNode != NIL ==>
        var target := ClipBufferTarget(row, column);
        IsBufferRowFor(Rows(), target, lineIterator.currentScreenRow) &&
        BufferSought(lineIterator.GetTokens().value, OffsetInLine(Rows(), target, lineIterator.currentScreenRow), tokenIndex)
    {
      ClearCachedPositions();
      var target := ClipBufferTarget(row, column);
      lineIterator.SeekToBufferPosition(target);
      var clipped := MinPoint(target, lineIterator.currentLineBufferEnd);
      if lineIterator.currentNode == NIL {
        return;
      }
      lineIterator.OnNode();
      ghost var offset := OffsetInLine(tree.Rows(), target, lineIterator.currentScreenRow);
      var targetOffsetInLine := TraversalDistance(clipped, lineIterator.currentLineBufferStart);
      DistanceOfTraverse(lineIterator.currentLineBufferStart, offset);
      FindBufferToken(targetOffsetInLine);
    }

    /** The token search of seekToBufferPosition, on the current line. */
    method FindBufferToken(offset: Point)
      requires lineIterator.tree == tree && lineIterator.Valid() && NoCaches() && lineIterator.currentNode != NIL
      modifies this, lineIterator
      ensures Valid() && NoCaches()
      ensures lineIterator.currentNode == old(lineIterator.currentNode)
      ensures lineIterator.currentScreenRow == old(lineIterator.currentScreenRow)
      ensures BufferSought(lineIterator.GetTokens().value, offset, tokenIndex)
    {
      var tokens := lineIterator.GetTokens().value;
      ghost var line := tree.Rows()[lineIterator.currentScreenRow].tokens;
      PlacedComputed(line, tokens);
      var index := SearchBuffer(line, tokens, offset);
      tokenIndex := RewindBuffer(tokens, offset, index);
      BufferSeekLands(line, tokens, offset, index, tokenIndex);
      if BufferAdvances(tokens, offset, tokenIndex) {
        var _ := MoveToSuccessor();
      }
    }
  }
}
