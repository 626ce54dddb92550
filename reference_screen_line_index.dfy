/**
 * The older linear reference of test/reference-screen-line-index.js: the
 * screen lines in a plain array, a line iterator that scans them from the
 * first row, and a token iterator whose seeks scan a line's tokens from the
 * first one and report whether the unclipped target lies in the token they
 * stop on. Unlike the reference display index, it never steps past a token
 * or a line that ends exactly at the target, and its successor moves skip
 * lines without tokens.
 *
 * A fresh iterator's fields are undefined in the source; here they start at
 * row 0, token 0 and (0, 0). Where the source throws, the methods report it.
 */
module ReferenceScreenLineIndexes {
  import opened Options
  import opened Points
  import opened ScreenLines
  import opened TokenIterators
  import opened ReferenceLines

  class ReferenceScreenLineIndex {
    var screenLines: seq<ScreenLine>

    constructor ()
      ensures screenLines == []
    {
      screenLines := [];
    }

    /** splice: the array splice of the lines, with JavaScript's clamping of start and count. */
    method Splice(startRow: int, rowCount: int, lines: seq<ScreenLine>)
      modifies this
      ensures screenLines == ArraySplice(old(screenLines), startRow, rowCount, lines)
    {
      screenLines := ArraySplice(screenLines, startRow, rowCount, lines);
    }

    /** buildIterator */
    method BuildIterator() returns (it: ReferenceTokenIterator)
      ensures fresh(it) && fresh(it.lineIterator) && it.index == this && it.Valid()
    {
      it := new ReferenceTokenIterator(this);
    }

    /** getLastScreenRow: the row of the last line, -1 for none. */
    function GetLastScreenRow(): (r: int)
      reads this
      ensures r + 1 == |screenLines|
    {
      GetScreenLineCount() - 1
    }

    /** getScreenLineCount */
    function GetScreenLineCount(): (n: nat)
      reads this
      ensures n == |screenLines|
    {
      |screenLines|
    }

    /** getLastBufferRow: the row where the buffer extents of all lines, traversed from (0, 0), end. */
    method GetLastBufferRow() returns (row: nat)
      ensures row == TotalExtent(screenLines).row
    {
      var bufferPosition := FoldBufferExtents(screenLines);
      row := bufferPosition.row;
    }

    /**
     * lineLengthForScreenRow: the screen extent of line `screenRow`. There
     * is no check of the row: off the lines the source reads a property of
     * undefined and throws, which is None here.
     */
    function LineLengthForScreenRow(screenRow: int): (r: Option<nat>)
      reads this
      ensures r.Some? <==> 0 <= screenRow < |screenLines|
      ensures r.Some? ==> r.value == screenLines[screenRow].screenExtent
    {
      if 0 <= screenRow < |screenLines| then Some(screenLines[screenRow].screenExtent) else None
    }

    /** getMaxScreenLineLength: the longest screen extent, -1 for no lines. */
    method GetMaxScreenLineLength() returns (m: int)
      ensures m == MaxLength(screenLines)
      ensures m == -1 <==> screenLines == []
      ensures forall i :: 0 <= i < |screenLines| ==> screenLines[i].screenExtent <= m
      ensures screenLines != [] ==> exists i :: 0 <= i < |screenLines| && screenLines[i].screenExtent == m
    {
      m := MaxScreenLineLength(screenLines);
    }

    /** getScreenRowsWithMaxLineLength: the rows of the longest lines, ascending, each once. */
    method GetScreenRowsWithMaxLineLength() returns (rows: seq<nat>)
      ensures RowsOfLength(screenLines, rows, MaxLength(screenLines), |screenLines|)
      ensures screenLines == [] <==> rows == []
    {
      rows := RowsWithMaxLineLength(screenLines);
    }
  }

  class ReferenceLineIterator {
    const index: ReferenceScreenLineIndex
    var currentScreenRow: int
    var bufferStart: Point
    var bufferEnd: Point

    constructor (index: ReferenceScreenLineIndex)
      ensures this.index == index && Valid()
      ensures currentScreenRow == 0 && bufferStart == ZERO_POINT && bufferEnd == ZERO_POINT
    {
      this.index := index;
      currentScreenRow, bufferStart, bufferEnd := 0, ZERO_POINT, ZERO_POINT;
    }

    /** Every method leaves the row at 0 or above. */
    ghost predicate Valid()
      reads this
    {
      currentScreenRow >= 0
    }

    ghost function Lines(): seq<ScreenLine>
      reads index
    {
      index.screenLines
    }

    /** On a line, with that line's buffer range. */
    ghost predicate OnLine()
      reads this, index
    {
      0 <= currentScreenRow < |index.screenLines| &&
      bufferStart == LineStart(index.screenLines, currentScreenRow) &&
      bufferEnd == LineEnd(index.screenLines, currentScreenRow)
    }

    /**
     * seekToScreenRow: a scan from the first line that stops on row
     * `targetRow`; for a row that is not there it runs past the last line.
     */
    method SeekToScreenRow(targetRow: int)
      modifies this
      ensures Valid()
      ensures 0 <= targetRow < |Lines()| ==> currentScreenRow == targetRow && OnLine()
      ensures !(0 <= targetRow < |Lines()|) ==>
        currentScreenRow == |Lines()| && bufferStart == TotalExtent(Lines()) &&
        bufferEnd == if Lines() == [] then old(bufferEnd) else LineEnd(Lines(), |Lines()| - 1)
    {
      bufferStart := ZERO_POINT;
      var screenLineCount := |index.screenLines|;
      currentScreenRow := 0;
      while currentScreenRow < screenLineCount
        invariant 0 <= currentScreenRow <= screenLineCount
        invariant bufferStart == LineStart(index.screenLines, currentScreenRow)
        invariant bufferEnd == if currentScreenRow == 0 then old(bufferEnd) else LineEnd(index.screenLines, currentScreenRow - 1)
        invariant targetRow < 0 || currentScreenRow <= targetRow
      {
        bufferEnd := Traverse(bufferStart, index.screenLines[currentScreenRow].bufferExtent);
        if currentScreenRow == targetRow {
          break;
        }
        NextLineStart(index.screenLines, currentScreenRow);
        bufferStart := bufferEnd;
        currentScreenRow := currentScreenRow + 1;
      }
      assert index.screenLines[..|index.screenLines|] == index.screenLines;
    }

    /**
     * seekToBufferPosition: a scan from the first line that stops on the
     * first line whose buffer range holds `target`, or on the last line,
     * with no step past a line that ends exactly there. With no lines the
     * row is 0 and the buffer end is left as it was.
     */
    method SeekToBufferPosition(target: Place)
      modifies this
      ensures Valid()
      ensures Lines() == [] ==> currentScreenRow == 0 && bufferStart == ZERO_POINT && bufferEnd == old(bufferEnd)
      ensures Lines() != [] ==> OnLine() && LineScanned(Lines(), target, currentScreenRow)
    {
      bufferStart := ZERO_POINT;
      var screenLineCount := |index.screenLines|;
      currentScreenRow := 0;
      while currentScreenRow < screenLineCount
        invariant screenLineCount == 0 || 0 <= currentScreenRow < screenLineCount
        invariant screenLineCount == 0 ==> currentScreenRow == 0
        invariant bufferStart == LineStart(index.screenLines, currentScreenRow)
        invariant currentScreenRow == 0 ==> bufferEnd == old(bufferEnd)
        invariant forall j :: 0 <= j < currentScreenRow ==> !LineHolds(index.screenLines, target, j)
      {
        bufferEnd := Traverse(bufferStart, index.screenLines[currentScreenRow].bufferExtent);
        if ContainsBufferPosition(target) {
          break;
        }
        if currentScreenRow == screenLineCount - 1 {
          break;
        }
        NextLineStart(index.screenLines, currentScreenRow);
        bufferStart := bufferEnd;
        currentScreenRow := currentScreenRow + 1;
      }
    }

    /**
     * moveToSuccessor: on to the next row, whose buffer range starts where
     * the current one ends. Past the last line it reports false, after the
     * row has already grown and the buffer start has moved.
     */
    method MoveToSuccessor() returns (moved: bool)
      requires Valid()
      modifies this
      ensures Valid()
      ensures currentScreenRow == old(currentScreenRow) + 1 && bufferStart == old(bufferEnd)
      ensures moved <==> currentScreenRow < |Lines()|
      ensures moved ==> bufferEnd == Traverse(bufferStart, Lines()[currentScreenRow].bufferExtent)
      ensures !moved ==> bufferEnd == old(bufferEnd)
      ensures moved && old(OnLine()) ==> OnLine()
    {
      if OnLine() {
        NextLineStart(index.screenLines, currentScreenRow);
      }
      bufferStart := bufferEnd;
      currentScreenRow := currentScreenRow + 1;
      var screenLine := GetCurrentScreenLine();
      if screenLine.None? {
        return false;
      }
      bufferEnd := Traverse(bufferStart, screenLine.value.bufferExtent);
      return true;
    }

    /** getScreenStart */
    function GetScreenStart(): (p: Point)
      reads this
      requires Valid()
      ensures p.row == currentScreenRow && p.column == 0
    {
      Point(currentScreenRow, 0)
    }

    /** getScreenEnd: the end of the current line on screen; None where the source reads a missing line. */
    function GetScreenEnd(): (p: Option<Point>)
      reads this, index
      requires Valid()
      ensures p.Some? <==> currentScreenRow < |Lines()|
      ensures p.Some? ==> p.value == Point(currentScreenRow, Lines()[currentScreenRow].screenExtent)
    {
      match GetCurrentScreenLine()
      case None => None
      case Some(line) => Some(Point(currentScreenRow, line.screenExtent))
    }

    /** getTokens: the current line's tokens, None (null) off the lines. */
    function GetTokens(): (ts: Option<seq<Token>>)
      reads this, index
      ensures ts.Some? <==> 0 <= currentScreenRow < |Lines()|
      ensures ts.Some? ==> ts.value == Lines()[currentScreenRow].tokens
    {
      match GetCurrentScreenLine()
      case None => None
      case Some(line) => Some(line.tokens)
    }

    /** containsBufferPosition */
    predicate ContainsBufferPosition(p: Place)
      reads this
    {
      Holds(bufferStart, p, bufferEnd)
    }

    /** getCurrentScreenLine: None (undefined) off the lines. */
    function GetCurrentScreenLine(): (line: Option<ScreenLine>)
      reads this, index
      ensures line.Some? <==> 0 <= currentScreenRow < |Lines()|
      ensures line.Some? ==> line.value == Lines()[currentScreenRow]
    {
      if 0 <= currentScreenRow < |index.screenLines| then Some(index.screenLines[currentScreenRow]) else None
    }
  }

  class ReferenceTokenIterator {
    const index: ReferenceScreenLineIndex
    const lineIterator: ReferenceLineIterator
    var tokenIndex: nat
    var screenStart: Point
    var screenEnd: Point
    var bufferStart: Point
    var bufferEnd: Point

    constructor (index: ReferenceScreenLineIndex)
      ensures this.index == index && fresh(lineIterator) && Valid()
      ensures tokenIndex == 0 && screenStart == ZERO_POINT && screenEnd == ZERO_POINT
      ensures bufferStart == ZERO_POINT && bufferEnd == ZERO_POINT
    {
      this.index := index;
      lineIterator := new ReferenceLineIterator(index);
      tokenIndex := 0;
      screenStart, screenEnd, bufferStart, bufferEnd := ZERO_POINT, ZERO_POINT, ZERO_POINT, ZERO_POINT;
    }

    ghost predicate Valid()
      reads lineIterator
    {
      lineIterator.index == index && lineIterator.Valid()
    }

    ghost function Lines(): seq<ScreenLine>
      reads index
    {
      index.screenLines
    }

    /** The offsets of the current line's tokens. */
    ghost function Placed(): seq<PlacedToken>
      reads lineIterator, index
      requires Valid() && lineIterator.currentScreenRow < |index.screenLines|
    {
      Offsets(index.screenLines[lineIterator.currentScreenRow].tokens)
    }

    /**
     * On token `tokenIndex` of a line, holding that token's four positions,
     * the buffer ones measured from the line iterator's buffer start.
     */
    ghost predicate OnToken()
      reads this, lineIterator, index
    {
      Valid() && lineIterator.currentScreenRow < |index.screenLines| &&
      SpansToken(Placed(), lineIterator.currentScreenRow, lineIterator.bufferStart, tokenIndex,
                 screenStart, screenEnd, bufferStart, bufferEnd)
    }

    /**
     * seekToScreenPosition: clip the target, find its row by a scan, cap
     * its column at the line's end, scan the tokens for the first whose
     * screen range holds it, and report whether the target as given (not
     * clipped) lies in the token's screen range. The source throws on an
     * empty index and for a target whose row and column are both negative;
     * on a line without tokens it compares against the screen end left by
     * the previous seek.
     */
    method SeekToScreenPosition(row: int, column: int) returns (r: Outcome)
      requires Valid()
      modifies this, lineIterator
      ensures Valid()
      ensures var c := ClipReferenceTarget(row, column, |Lines()| - 1);
        r.Threw? <==> !(0 <= c.row < |Lines()|)
      ensures !r.Threw? ==>
        var c := ClipReferenceTarget(row, column, |Lines()| - 1);
        lineIterator.currentScreenRow == c.row && lineIterator.OnLine() &&
        r.value == Holds(screenStart, Place(row, Col(column)), screenEnd)
      ensures !r.Threw? && Lines()[lineIterator.currentScreenRow].tokens == [] ==>
        tokenIndex == 0 && screenStart == Point(lineIterator.currentScreenRow, 0) &&
        bufferStart == lineIterator.bufferStart && screenEnd == old(screenEnd) && bufferEnd == old(bufferEnd)
      ensures !r.Threw? && Lines()[lineIterator.currentScreenRow].tokens != [] ==>
        var c := ClipReferenceTarget(row, column, |Lines()| - 1);
        ScreenScanned(CappedColumn(c.column, Lines()[c.row].screenExtent))
      ensures !r.Threw? && Lines()[lineIterator.currentScreenRow].tokens != [] &&
              0 <= row < |Lines()| && 0 <= column <= Lines()[row].screenExtent &&
              column <= Offsets(Lines()[row].tokens)[|Lines()[row].tokens| - 1].screenEndOffset ==>
        r == Returned(true)
      ensures r == Returned(true) && Lines()[lineIterator.currentScreenRow].tokens != [] ==>
        row == lineIterator.currentScreenRow && 0 <= column
    {
      var lastScreenRow := index.GetLastScreenRow();
      var clipped := ClipReferenceTarget(row, column, lastScreenRow);
      ghost var c := clipped;
      lineIterator.SeekToScreenRow(clipped.row);
      var lineEnd := lineIterator.GetScreenEnd();
      if lineEnd.None? {
        return Threw;
      }
      clipped := MinPlace(clipped, AsPlace(lineEnd.value));
      assert clipped == Place(c.row, Col(CappedColumn(c.column, index.screenLines[c.row].screenExtent)));
      ScanScreenColumn(clipped.column.column);
      return Returned(ContainsScreenPosition(Place(row, Col(column))));
    }

    /**
     * Where the screen token scan leaves the iterator for the capped column
     * `k`: on the first token whose screen range holds it, or one past the
     * last token, at the last token's end, when none does.
     */
    ghost predicate ScreenScanned(k: nat)
      reads this, lineIterator, index
    {
      Valid() && lineIterator.currentScreenRow < |Lines()| &&
      var tokens := Lines()[lineIterator.currentScreenRow].tokens;
      tokens != [] && tokenIndex <= |tokens| &&
      (tokenIndex < |tokens| ==> OnToken() && FirstHolding(Placed(), k, tokenIndex)) &&
      (tokenIndex == |tokens| ==>
        var last := Placed()[tokenIndex - 1];
        last.screenEndOffset < k &&
        screenStart == screenEnd == Point(lineIterator.currentScreenRow, last.screenEndOffset) &&
        bufferStart == bufferEnd == Traverse(lineIterator.bufferStart, last.bufferEndOffset))
    }

    /**
     * The token loop of seekToScreenPosition, once the line iterator is on
     * its row and the target column `k` is capped at the line's end. On a
     * line without tokens the loop does not run and the ends are left as
     * they were.
     */
    method ScanScreenColumn(k: nat)
      requires Valid() && lineIterator.OnLine()
      modifies this
      ensures Valid()
      ensures var tokens := Lines()[lineIterator.currentScreenRow].tokens;
        (tokens == [] ==>
          tokenIndex == 0 && screenStart == Point(lineIterator.currentScreenRow, 0) &&
          bufferStart == lineIterator.bufferStart && screenEnd == old(screenEnd) && bufferEnd == old(bufferEnd)) &&
        (tokens != [] ==> ScreenScanned(k))
    {
      screenStart := lineIterator.GetScreenStart();
      bufferStart := lineIterator.bufferStart;
      var tokens := lineIterator.GetTokens().value;
      tokenIndex := 0;
      if |tokens| == 0 {
        return;
      }
      tokenIndex, screenStart, screenEnd, bufferStart, bufferEnd :=
        ScanScreenTokens(tokens, lineIterator.currentScreenRow, lineIterator.bufferStart, k);
    }

    /**
     * seekToBufferPosition: clip the target, let the line iterator find the
     * first line whose buffer range holds it (or the last line), scan that
     * line's tokens for the first whose buffer range holds it (or the last
     * token), and report whether the target as given lies in the token's
     * buffer range. With no lines the source reads the length of null and
     * throws; on a line without tokens it compares against the buffer end
     * left by the previous seek.
     */
    method SeekToBufferPosition(row: int, column: int) returns (r: Outcome)
      requires Valid()
      modifies this, lineIterator
      ensures Valid()
      ensures r.Threw? <==> Lines() == []
      ensures !r.Threw? ==>
        var c := ClipReferenceTarget(row, column, TotalExtent(Lines()).row);
        lineIterator.OnLine() && LineScanned(Lines(), c, lineIterator.currentScreenRow) &&
        r.value == Holds(bufferStart, Place(row, Col(column)), bufferEnd)
      ensures !r.Threw? && Lines()[lineIterator.currentScreenRow].tokens == [] ==>
        tokenIndex == 0 && screenStart == Point(lineIterator.currentScreenRow, 0) &&
        bufferStart == lineIterator.bufferStart && screenEnd == old(screenEnd) && bufferEnd == old(bufferEnd)
      ensures !r.Threw? && Lines()[lineIterator.currentScreenRow].tokens != [] ==>
        var c := ClipReferenceTarget(row, column, TotalExtent(Lines()).row);
        OnToken() && TokenScanned(Placed(), lineIterator.bufferStart, c, tokenIndex)
      ensures !r.Threw? && Lines()[lineIterator.currentScreenRow].tokens != [] &&
              ClipReferenceTarget(row, column, TotalExtent(Lines()).row) == Place(row, Col(column)) &&
              (exists j :: 0 <= j < |Placed()| && TokenHolds(Placed(), lineIterator.bufferStart, Place(row, Col(column)), j)) ==>
        r == Returned(true)
    {
      var lastBufferRow := index.GetLastBufferRow();
      var clipped := ClipReferenceTarget(row, column, lastBufferRow);
      lineIterator.SeekToBufferPosition(clipped);
      var tokens := lineIterator.GetTokens();
      if tokens.None? {
        return Threw;
      }
      ScanBufferTarget(clipped);
      if |tokens.value| > 0 && clipped == Place(row, Col(column)) {
        ghost var placed := Placed();
        if j :| 0 <= j < |placed| && TokenHolds(placed, lineIterator.bufferStart, clipped, j) {
          ScannedHolds(placed, lineIterator.bufferStart, clipped, tokenIndex, j);
        }
      }
      return Returned(ContainsBufferPosition(Place(row, Col(column))));
    }

    /**
     * The token loop of seekToBufferPosition, once the line iterator is on
     * the line it found for the clipped `target`.
     */
    method ScanBufferTarget(target: Place)
      requires Valid() && lineIterator.OnLine()
      modifies this
      ensures Valid()
      ensures var tokens := Lines()[lineIterator.currentScreenRow].tokens;
        (tokens == [] ==>
          tokenIndex == 0 && screenStart == Point(lineIterator.currentScreenRow, 0) &&
          bufferStart == lineIterator.bufferStart && screenEnd == old(screenEnd) && bufferEnd == old(bufferEnd)) &&
        (tokens != [] ==> OnToken() && TokenScanned(Placed(), lineIterator.bufferStart, target, tokenIndex))
    {
      screenStart := lineIterator.GetScreenStart();
      bufferStart := lineIterator.bufferStart;
      var tokens := lineIterator.GetTokens().value;
      tokenIndex := 0;
      if |tokens| == 0 {
        return;
      }
      tokenIndex, screenStart, screenEnd, bufferStart, bufferEnd :=
        ScanBufferTokens(tokens, lineIterator.currentScreenRow, lineIterator.bufferStart, target);
    }

    /**
     * moveToSuccessor: on to the next token of the line; past the line's
     * last token, on to token 0 of the next line that has tokens. When no
     * later line has any it reports false, with the line iterator one row
     * past the last line.
     */
    method MoveToSuccessor() returns (moved: bool)
      requires Valid()
      modifies this, lineIterator
      ensures Valid()
      ensures moved ==>
        lineIterator.currentScreenRow < |Lines()| && tokenIndex < |Lines()[lineIterator.currentScreenRow].tokens| &&
        var token := Lines()[lineIterator.currentScreenRow].tokens[tokenIndex];
        screenEnd == Traverse(screenStart, Point(0, token.screenExtent)) &&
        bufferEnd == Traverse(bufferStart, token.bufferExtent)
      ensures old(lineIterator.currentScreenRow) < |Lines()| &&
              old(tokenIndex) + 1 < |Lines()[old(lineIterator.currentScreenRow)].tokens| ==>
        moved && unchanged(lineIterator) && tokenIndex == old(tokenIndex) + 1 &&
        screenStart == old(screenEnd) && bufferStart == old(bufferEnd) &&
        (old(OnToken()) ==> OnToken())
      ensures !(old(lineIterator.currentScreenRow) < |Lines()| &&
                old(tokenIndex) + 1 < |Lines()[old(lineIterator.currentScreenRow)].tokens|) ==>
        SkippedToTokens(old(lineIterator.currentScreenRow), lineIterator.currentScreenRow, moved) &&
        (moved ==> tokenIndex == 0 && screenStart == Point(lineIterator.currentScreenRow, 0) &&
                   bufferStart == lineIterator.bufferStart && OnToken())
      ensures old(lineIterator.OnLine()) && moved ==> lineIterator.OnLine()
    {
      screenStart := screenEnd;
      bufferStart := bufferEnd;
      tokenIndex := tokenIndex + 1;
      var token := GetCurrentToken();
      if token.Some? {
        if old(OnToken()) {
          ghost var tokens := index.screenLines[lineIterator.currentScreenRow].tokens;
          NextTokenStart(tokens, lineIterator.currentScreenRow, lineIterator.bufferStart, tokenIndex - 1,
                         old(screenStart), screenStart, old(bufferStart), bufferStart);
          TokenSpans(tokens, lineIterator.currentScreenRow, lineIterator.bufferStart, tokenIndex, screenStart, bufferStart);
        }
      } else {
        moved := SkipToLineWithTokens();
        if !moved {
          return false;
        }
        token := GetCurrentToken();
        ghost var tokens := index.screenLines[lineIterator.currentScreenRow].tokens;
        FirstTokenStart(tokens, lineIterator.currentScreenRow, lineIterator.bufferStart);
        TokenSpans(tokens, lineIterator.currentScreenRow, lineIterator.bufferStart, 0, screenStart, bufferStart);
      }
      screenEnd := Traverse(screenStart, Point(0, token.value.screenExtent));
      bufferEnd := Traverse(bufferStart, token.value.bufferExtent);
      return true;
    }

    /**
     * From row `from`, the successor moves went on to row `to`: every row
     * in between has no tokens, and either `to` is a line with tokens or no
     * later line has any and `to` is one past the last row (or past `from`).
     */
    ghost predicate SkippedToTokens(from: int, to: int, found: bool)
      reads index
    {
      from < to &&
      (forall j :: from < j < to && 0 <= j < |Lines()| ==> Lines()[j].tokens == []) &&
      (found ==> 0 <= to < |Lines()| && Lines()[to].tokens != []) &&
      (!found ==> to == (if from < |Lines()| then |Lines()| else from + 1))
    }

    /**
     * The loop of moveToSuccessor: move the line iterator on until it is on
     * a line with tokens, taking token 0 of each line it reaches.
     */
    method SkipToLineWithTokens() returns (found: bool)
      requires Valid()
      modifies this, lineIterator
      ensures Valid()
      ensures SkippedToTokens(old(lineIterator.currentScreenRow), lineIterator.currentScreenRow, found)
      ensures found ==>
        tokenIndex == 0 && screenStart == Point(lineIterator.currentScreenRow, 0) && bufferStart == lineIterator.bufferStart
      ensures old(lineIterator.OnLine()) && found ==> lineIterator.OnLine()
    {
      ghost var from := lineIterator.currentScreenRow;
      ghost var wasOnLine := lineIterator.OnLine();
      var moved := lineIterator.MoveToSuccessor();
      while true
        invariant Valid()
        invariant lineIterator.currentScreenRow > from
        invariant forall j :: from < j < lineIterator.currentScreenRow && 0 <= j < |Lines()| ==> Lines()[j].tokens == []
        invariant moved <==> lineIterator.currentScreenRow < |Lines()|
        invariant !moved ==> lineIterator.currentScreenRow == (if from < |Lines()| then |Lines()| else from + 1)
        invariant wasOnLine && moved ==> lineIterator.OnLine()
        decreases |Lines()| - lineIterator.currentScreenRow + 1
      {
        if !moved {
          return false;
        }
        screenStart := lineIterator.GetScreenStart();
        bufferStart := lineIterator.bufferStart;
        tokenIndex := 0;
        if GetCurrentToken().Some? {
          return true;
        }
        moved := lineIterator.MoveToSuccessor();
      }
    }

    /** getMetadata: the current token's metadata, None (null) without a current token. */
    function GetMetadata(): (m: Option<int>)
      reads this, lineIterator, lineIterator.index
      ensures m.Some? <==> GetCurrentToken().Some?
      ensures m.Some? ==> m.value == GetCurrentToken().value.metadata
    {
      match GetCurrentToken()
      case None => None
      case Some(token) => Some(token.metadata)
    }

    /** getScreenStart: on a token, where it starts on screen. */
    function GetScreenStart(): (p: Point)
      reads this, lineIterator, index
      ensures OnToken() ==> p == Point(lineIterator.currentScreenRow, Placed()[tokenIndex].screenStartOffset)
    {
      screenStart
    }

    /** getScreenEnd: on a token, where it ends on screen. */
    function GetScreenEnd(): (p: Point)
      reads this, lineIterator, index
      ensures OnToken() ==> p == Point(lineIterator.currentScreenRow, Placed()[tokenIndex].screenEndOffset)
    {
      screenEnd
    }

    /** getBufferStart: on a token, where it starts in the buffer. */
    function GetBufferStart(): (p: Point)
      reads this, lineIterator, index
      ensures OnToken() && lineIterator.OnLine() ==>
        p == Traverse(LineStart(Lines(), lineIterator.currentScreenRow), Placed()[tokenIndex].bufferStartOffset)
    {
      bufferStart
    }

    /** getBufferEnd: on a token, where it ends in the buffer. */
    function GetBufferEnd(): (p: Point)
      reads this, lineIterator, index
      ensures OnToken() && lineIterator.OnLine() ==>
        p == Traverse(LineStart(Lines(), lineIterator.currentScreenRow), Placed()[tokenIndex].bufferEndOffset)
    {
      bufferEnd
    }

    /** getCurrentToken: token `tokenIndex` of the current line; None (null or undefined) where there is none. */
    function GetCurrentToken(): (t: Option<Token>)
      reads this, lineIterator, lineIterator.index
      ensures t.Some? <==>
        0 <= lineIterator.currentScreenRow < |lineIterator.Lines()| &&
        tokenIndex < |lineIterator.Lines()[lineIterator.currentScreenRow].tokens|
      ensures t.Some? ==> t.value == lineIterator.Lines()[lineIterator.currentScreenRow].tokens[tokenIndex]
    {
      match lineIterator.GetTokens()
      case None => None
      case Some(tokens) => if tokenIndex < |tokens| then Some(tokens[tokenIndex]) else None
    }

    /** containsScreenPosition */
    predicate ContainsScreenPosition(p: Place)
      reads this
    {
      Holds(screenStart, p, screenEnd)
    }

    /** containsBufferPosition */
    predicate ContainsBufferPosition(p: Place)
      reads this
    {
      Holds(bufferStart, p, bufferEnd)
    }
  }
}
