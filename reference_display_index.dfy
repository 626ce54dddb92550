/**
 * The linear reference display index of test/reference-display-index.js:
 * the screen lines in a plain array, a line iterator that walks them from
 * the first row, and a token iterator that scans a line's tokens from the
 * first one. The randomised tests compare the tree index against it.
 *
 * A fresh iterator's fields are undefined in the source; here they start at
 * row 0, token 0 and (0, 0). Where the source throws (reading a line or a
 * token that is not there) the methods report it.
 */
module ReferenceDisplayIndexes {
  import opened Options
  import opened Points
  import opened ScreenLines
  import opened TokenIterators
  import opened ReferenceLines

  class ReferenceDisplayIndex {
    var screenLines: seq<ScreenLine>

    constructor ()
      ensures screenLines == []
    {
      screenLines := [];
    }

    /** splice: the array splice of the lines, with JavaScript's clamping of start and count. */
    method Splice(startRow: int, rowCount: int, lines: seq<ScreenLine>)
      modifies this
      ensures screenLines == ArraySplice(old(screenLines), startRow, rowCount, lines)
    {
      screenLines := ArraySplice(screenLines, startRow, rowCount, lines);
    }

    /** buildTokenIterator */
    method BuildTokenIterator() returns (it: ReferenceTokenIterator)
      ensures fresh(it) && fresh(it.lineIterator) && it.index == this && it.Valid()
    {
      it := new ReferenceTokenIterator(this);
    }

    /** getLastScreenRow: the row of the last line, -1 for none. */
    function GetLastScreenRow(): (r: int)
      reads this
      ensures r + 1 == |screenLines|
    {
      GetScreenLineCount() - 1
    }

    /** getScreenLineCount */
    function GetScreenLineCount(): (n: nat)
      reads this
      ensures n == |screenLines|
    {
      |screenLines|
    }

    /** getLastBufferRow: the row where the buffer extents of all lines, traversed from (0, 0), end. */
    method GetLastBufferRow() returns (row: nat)
      ensures row == TotalExtent(screenLines).row
    {
      var bufferPosition := FoldBufferExtents(screenLines);
      row := bufferPosition.row;
    }

    /** getBufferLineCount */
    method GetBufferLineCount() returns (n: nat)
      ensures n == TotalExtent(screenLines).row + 1
    {
      var lastBufferRow := GetLastBufferRow();
      n := lastBufferRow + 1;
    }

    /** lineLengthForScreenRow: the screen extent of line `screenRow`, None (null) when there is none. */
    function LineLengthForScreenRow(screenRow: int): (r: Option<nat>)
      reads this
      ensures r.Some? <==> 0 <= screenRow < |screenLines|
      ensures r.Some? ==> r.value == screenLines[screenRow].screenExtent
    {
      if 0 <= screenRow < |screenLines| then Some(screenLines[screenRow].screenExtent) else None
    }

    /** getMaxScreenLineLength: the longest screen extent, -1 for no lines. */
    method GetMaxScreenLineLength() returns (m: int)
      ensures m == MaxLength(screenLines)
      ensures m == -1 <==> screenLines == []
      ensures forall i :: 0 <= i < |screenLines| ==> screenLines[i].screenExtent <= m
      ensures screenLines != [] ==> exists i :: 0 <= i < |screenLines| && screenLines[i].screenExtent == m
    {
      m := MaxScreenLineLength(screenLines);
    }

    /** getScreenRowsWithMaxLineLength: the rows of the longest lines, ascending, each once. */
    method GetScreenRowsWithMaxLineLength() returns (rows: seq<nat>)
      ensures RowsOfLength(screenLines, rows, MaxLength(screenLines), |screenLines|)
      ensures screenLines == [] <==> rows == []
    {
      rows := RowsWithMaxLineLength(screenLines);
    }
  }

  class ReferenceLineIterator {
    const index: ReferenceDisplayIndex
    var currentScreenRow: int
    var bufferStart: Point
    var bufferEnd: Point

    constructor (index: ReferenceDisplayIndex)
      ensures this.index == index && Valid()
      ensures currentScreenRow == 0 && bufferStart == ZERO_POINT && bufferEnd == ZERO_POINT
    {
      this.index := index;
      currentScreenRow, bufferStart, bufferEnd := 0, ZERO_POINT, ZERO_POINT;
    }

    /** Every method leaves the row at 0 or above. */
    ghost predicate Valid()
      reads this
    {
      currentScreenRow >= 0
    }

    ghost function Lines(): seq<ScreenLine>
      reads index
    {
      index.screenLines
    }

    /** On a line, with that line's buffer range. */
    ghost predicate OnLine()
      reads this, index
    {
      0 <= currentScreenRow < |index.screenLines| &&
      bufferStart == LineStart(index.screenLines, currentScreenRow) &&
      bufferEnd == LineEnd(index.screenLines, currentScreenRow)
    }

    /**
     * seekToScreenRow: a scan from the first line that stops on row
     * `targetRow`; for a row that is not there it runs past the last line.
     */
    method SeekToScreenRow(targetRow: int)
      modifies this
      ensures Valid()
      ensures 0 <= targetRow < |Lines()| ==> currentScreenRow == targetRow && OnLine()
      ensures !(0 <= targetRow < |Lines()|) ==>
        currentScreenRow == |Lines()| && bufferStart == TotalExtent(Lines()) &&
        bufferEnd == if Lines() == [] then old(bufferEnd) else LineEnd(Lines(), |Lines()| - 1)
    {
      bufferStart := ZERO_POINT;
      var screenLineCount := |index.screenLines|;
      currentScreenRow := 0;
      while currentScreenRow < screenLineCount
        invariant 0 <= currentScreenRow <= screenLineCount
        invariant bufferStart == LineStart(index.screenLines, currentScreenRow)
        invariant bufferEnd == if currentScreenRow == 0 then old(bufferEnd) else LineEnd(index.screenLines, currentScreenRow - 1)
        invariant targetRow < 0 || currentScreenRow <= targetRow
      {
        bufferEnd := Traverse(bufferStart, index.screenLines[currentScreenRow].bufferExtent);
        if currentScreenRow == targetRow {
          break;
        }
        NextLineStart(index.screenLines, currentScreenRow);
        bufferStart := bufferEnd;
        currentScreenRow := currentScreenRow + 1;
      }
      assert index.screenLines[..|index.screenLines|] == index.screenLines;
    }

    /**
     * seekToBufferPosition: a scan from the first line that stops on the
     * first line whose buffer range holds `target`, or on the last line; it
     * then steps past a non-empty line that ends exactly at `target`. With
     * no lines the source throws when `target` equals the stale buffer end.
     */
    method SeekToBufferPosition(target: Place) returns (threw: bool)
      modifies this
      ensures Valid()
      ensures threw <==> Lines() == [] && target == AsPlace(old(bufferEnd))
      ensures Lines() == [] ==> currentScreenRow == 0 && bufferStart == ZERO_POINT && bufferEnd == old(bufferEnd)
      ensures Lines() != [] ==> OnLine()
      ensures Lines() != [] ==>
        exists r :: LineScanned(Lines(), target, r) &&
          currentScreenRow == if StepsPastLine(Lines(), target, r) then r + 1 else r
    {
      bufferStart := ZERO_POINT;
      var screenLineCount := |index.screenLines|;
      currentScreenRow := 0;
      while currentScreenRow < screenLineCount
        invariant screenLineCount == 0 || 0 <= currentScreenRow < screenLineCount
        invariant screenLineCount == 0 ==> currentScreenRow == 0
        invariant bufferStart == LineStart(index.screenLines, currentScreenRow)
        invariant currentScreenRow == 0 ==> bufferEnd == old(bufferEnd)
        invariant forall j :: 0 <= j < currentScreenRow ==> !LineHolds(index.screenLines, target, j)
      {
        bufferEnd := Traverse(bufferStart, index.screenLines[currentScreenRow].bufferExtent);
        if ContainsBufferPosition(target) {
          break;
        }
        if currentScreenRow == screenLineCount - 1 {
          break;
        }
        NextLineStart(index.screenLines, currentScreenRow);
        bufferStart := bufferEnd;
        currentScreenRow := currentScreenRow + 1;
      }
      ghost var scanned := currentScreenRow;
      if target == AsPlace(bufferEnd) {
        var line := GetCurrentScreenLine();
        if line.None? {
          return true;
        }
        if !IsZero(line.value.bufferExtent) && currentScreenRow < screenLineCount - 1 {
          var _ := MoveToSuccessor();
        }
      }
      assert screenLineCount > 0 ==> LineScanned(index.screenLines, target, scanned);
      return false;
    }

    /** moveToSuccessor: on to the next line, when there is one. */
    method MoveToSuccessor() returns (moved: bool)
      requires Valid()
      modifies this
      ensures Valid()
      ensures moved <==> old(currentScreenRow) < |Lines()| - 1
      ensures moved ==>
        currentScreenRow == old(currentScreenRow) + 1 && bufferStart == old(bufferEnd) &&
        bufferEnd == Traverse(bufferStart, Lines()[currentScreenRow].bufferExtent)
      ensures moved && old(OnLine()) ==> OnLine()
      ensures !moved ==> unchanged(this)
    {
      if currentScreenRow < index.GetScreenLineCount() - 1 {
        if OnLine() {
          NextLineStart(index.screenLines, currentScreenRow);
        }
        currentScreenRow := currentScreenRow + 1;
        var screenLine := index.screenLines[currentScreenRow];
        bufferStart := bufferEnd;
        bufferEnd := Traverse(bufferStart, screenLine.bufferExtent);
        return true;
      }
      return false;
    }

    /** moveToPredecessor: back to the previous line by a fresh scan, unless on row 0. */
    method MoveToPredecessor() returns (moved: bool)
      requires Valid()
      modifies this
      ensures Valid()
      ensures moved <==> old(currentScreenRow) > 0
      ensures moved && old(currentScreenRow) <= |Lines()| ==> currentScreenRow == old(currentScreenRow) - 1 && OnLine()
      ensures moved && old(currentScreenRow) > |Lines()| ==> currentScreenRow == |Lines()|
      ensures !moved ==> unchanged(this)
    {
      if currentScreenRow > 0 {
        SeekToScreenRow(currentScreenRow - 1);
        return true;
      }
      return false;
    }

    /** getScreenStart */
    function GetScreenStart(): (p: Point)
      reads this
      requires Valid()
      ensures p.row == currentScreenRow && p.column == 0
    {
      Point(currentScreenRow, 0)
    }

    /** getScreenEnd: the end of the current line on screen; None where the source reads a missing line. */
    function GetScreenEnd(): (p: Option<Point>)
      reads this, index
      requires Valid()
      ensures p.Some? <==> currentScreenRow < |Lines()|
      ensures p.Some? ==> p.value == Point(currentScreenRow, Lines()[currentScreenRow].screenExtent)
    {
      match GetCurrentScreenLine()
      case None => None
      case Some(line) => Some(Point(currentScreenRow, line.screenExtent))
    }

    /** getTokens: the current line's tokens, None (null) off the lines. */
    function GetTokens(): (ts: Option<seq<Token>>)
      reads this, index
      ensures ts.Some? <==> 0 <= currentScreenRow < |Lines()|
      ensures ts.Some? ==> ts.value == Lines()[currentScreenRow].tokens
    {
      match GetCurrentScreenLine()
      case None => None
      case Some(line) => Some(line.tokens)
    }

    /** containsBufferPosition */
    predicate ContainsBufferPosition(p: Place)
      reads this
    {
      Holds(bufferStart, p, bufferEnd)
    }

    /** getCurrentScreenLine: None (undefined) off the lines. */
    function GetCurrentScreenLine(): (line: Option<ScreenLine>)
      reads this, index
      ensures line.Some? <==> 0 <= currentScreenRow < |Lines()|
      ensures line.Some? ==> line.value == Lines()[currentScreenRow]
    {
      if 0 <= currentScreenRow < |index.screenLines| then Some(index.screenLines[currentScreenRow]) else None
    }
  }

  class ReferenceTokenIterator {
    const index: ReferenceDisplayIndex
    const lineIterator: ReferenceLineIterator
    var tokenIndex: int
    var screenStart: Point
    var screenEnd: Point
    var bufferStart: Point
    var bufferEnd: Point

    constructor (index: ReferenceDisplayIndex)
      ensures this.index == index && fresh(lineIterator) && Valid()
      ensures tokenIndex == 0 && screenStart == ZERO_POINT && screenEnd == ZERO_POINT
      ensures bufferStart == ZERO_POINT && bufferEnd == ZERO_POINT
    {
      this.index := index;
      lineIterator := new ReferenceLineIterator(index);
      tokenIndex := 0;
      screenStart, screenEnd, bufferStart, bufferEnd := ZERO_POINT, ZERO_POINT, ZERO_POINT, ZERO_POINT;
    }

    ghost predicate Valid()
      reads lineIterator
    {
      lineIterator.index == index && lineIterator.Valid()
    }

    ghost function Lines(): seq<ScreenLine>
      reads index
    {
      index.screenLines
    }

    /** The offsets of the current line's tokens. */
    ghost function Placed(): seq<PlacedToken>
      reads lineIterator, index
      requires Valid() && lineIterator.currentScreenRow < |index.screenLines|
    {
      Offsets(index.screenLines[lineIterator.currentScreenRow].tokens)
    }

    /**
     * On token `tokenIndex` of a line, holding that token's four positions,
     * the buffer ones measured from the line iterator's buffer start (which
     * is the line's own start when the line iterator is on its line).
     */
    ghost predicate OnToken()
      reads this, lineIterator, index
    {
      Valid() && lineIterator.currentScreenRow < |index.screenLines| &&
      SpansToken(Placed(), lineIterator.currentScreenRow, lineIterator.bufferStart, tokenIndex,
                 screenStart, screenEnd, bufferStart, bufferEnd)
    }

    /**
     * seekToScreenPosition: clip the target, find its row by a scan, cap
     * its column at the line's end, then scan the tokens for the first
     * whose screen range holds it, and step past a non-empty token that ends
     * exactly there. A clipped column past the line's tokens leaves the
     * iterator one token past the last. The source throws on an empty
     * index, for a target whose row and column are both negative (its row
     * stays negative after clipping) and on a line without tokens.
     */
    method SeekToScreenPosition(row: int, column: int) returns (threw: bool)
      requires Valid()
      modifies this, lineIterator
      ensures Valid()
      ensures var c := ClipReferenceTarget(row, column, |Lines()| - 1);
        threw <==> !(0 <= c.row < |Lines()|) || Lines()[c.row].tokens == []
      ensures !threw ==>
        var c := ClipReferenceTarget(row, column, |Lines()| - 1);
        var line := Lines()[c.row];
        var placed := Offsets(line.tokens);
        var k := CappedColumn(c.column, line.screenExtent);
        lineIterator.currentScreenRow == c.row && lineIterator.OnLine() &&
        ((OnToken() && ScreenLanded(placed, k, tokenIndex)) ||
         (placed[|placed| - 1].screenEndOffset < k && tokenIndex == |placed| &&
          screenStart == screenEnd == Point(c.row, placed[|placed| - 1].screenEndOffset) &&
          bufferStart == bufferEnd == Traverse(lineIterator.bufferStart, placed[|placed| - 1].bufferEndOffset)))
    {
      var lastScreenRow := index.GetLastScreenRow();
      var clipped := ClipReferenceTarget(row, column, lastScreenRow);
      ghost var c := clipped;
      lineIterator.SeekToScreenRow(clipped.row);
      var lineEnd := lineIterator.GetScreenEnd();
      if lineEnd.None? {
        return true;
      }
      clipped := MinPlace(clipped, AsPlace(lineEnd.value));
      assert clipped == Place(c.row, Col(CappedColumn(c.column, index.screenLines[c.row].screenExtent)));
      threw := LandOnScreenColumn(clipped.column.column);
    }

    /**
     * The token half of seekToScreenPosition, once the line iterator is on
     * its row and the target column `k` is capped at the line's end.
     */
    method LandOnScreenColumn(k: nat) returns (threw: bool)
      requires Valid() && lineIterator.OnLine()
      modifies this
      ensures Valid()
      ensures threw <==> Lines()[lineIterator.currentScreenRow].tokens == []
      ensures !threw ==> 0 <= tokenIndex <= |Lines()[lineIterator.currentScreenRow].tokens|
      ensures !threw && tokenIndex < |Lines()[lineIterator.currentScreenRow].tokens| ==>
        OnToken() && ScreenLanded(Placed(), k, tokenIndex)
      ensures !threw && tokenIndex == |Lines()[lineIterator.currentScreenRow].tokens| ==>
        var last := Placed()[tokenIndex - 1];
        last.screenEndOffset < k &&
        screenStart == screenEnd == Point(lineIterator.currentScreenRow, last.screenEndOffset) &&
        bufferStart == bufferEnd == Traverse(lineIterator.bufferStart, last.bufferEndOffset)
    {
      var r := lineIterator.currentScreenRow;
      var clipped := Place(r, Col(k));
      screenStart := lineIterator.GetScreenStart();
      bufferStart := lineIterator.bufferStart;
      var tokens := lineIterator.GetTokens().value;
      tokenIndex := 0;
      if |tokens| == 0 {
        return true;
      }
      tokenIndex, screenStart, screenEnd, bufferStart, bufferEnd :=
        ScanScreenTokens(tokens, r, lineIterator.bufferStart, k);
      if tokenIndex == |tokens| {
        // past the last token, the step below is not taken
        return false;
      }
      var token := tokens[tokenIndex];
      ScanLands(tokens, k, tokenIndex);
      ghost var landed := if StepsPast(Offsets(tokens), k, tokenIndex) then tokenIndex + 1 else tokenIndex;
      if token.screenExtent > 0 && clipped == AsPlace(screenEnd) && tokenIndex < |tokens| - 1 {
        var _ := AdvanceInLine();
      }
      assert tokenIndex == landed;
      return false;
    }

    /**
     * seekToBufferPosition: clip the target, let the line iterator find its
     * line, then scan the tokens for the first whose buffer range holds it,
     * or the last token, and step past a non-empty token that ends exactly
     * there. The source throws on an empty index, and on a line without
     * tokens when the target equals the stale buffer end.
     */
    method SeekToBufferPosition(row: int, column: int) returns (threw: bool)
      requires Valid()
      modifies this, lineIterator
      ensures Valid()
      ensures Lines() == [] ==> threw
      ensures Lines() != [] ==> lineIterator.OnLine()
      ensures Lines() != [] ==>
        var c := ClipReferenceTarget(row, column, TotalExtent(Lines()).row);
        (exists r :: LineScanned(Lines(), c, r) &&
          lineIterator.currentScreenRow == if StepsPastLine(Lines(), c, r) then r + 1 else r) &&
        (threw <==> Lines()[lineIterator.currentScreenRow].tokens == [] && c == AsPlace(old(bufferEnd)))
      ensures Lines() != [] && Lines()[lineIterator.currentScreenRow].tokens != [] ==>
        var c := ClipReferenceTarget(row, column, TotalExtent(Lines()).row);
        OnToken() &&
        exists i :: TokenScanned(Placed(), lineIterator.bufferStart, c, i) &&
          tokenIndex == if StepsPastToken(Placed(), lineIterator.bufferStart, c, i) then i + 1 else i
    {
      var lastBufferRow := index.GetLastBufferRow();
      var clipped := ClipReferenceTarget(row, column, lastBufferRow);
      var lineThrew := lineIterator.SeekToBufferPosition(clipped);
      if lineThrew || lineIterator.GetTokens().None? {
        return true;
      }
      threw := LandOnBufferTarget(clipped);
    }

    /**
     * The token half of seekToBufferPosition, once the line iterator is on
     * the line it found for the clipped `target`.
     */
    method LandOnBufferTarget(target: Place) returns (threw: bool)
      requires Valid() && lineIterator.OnLine()
      modifies this
      ensures Valid()
      ensures threw <==> Lines()[lineIterator.currentScreenRow].tokens == [] && target == AsPlace(old(bufferEnd))
      ensures Lines()[lineIterator.currentScreenRow].tokens != [] ==>
        OnToken() &&
        exists i :: TokenScanned(Placed(), lineIterator.bufferStart, target, i) &&
          tokenIndex == if StepsPastToken(Placed(), lineIterator.bufferStart, target, i) then i + 1 else i
    {
      var r := lineIterator.currentScreenRow;
      screenStart := lineIterator.GetScreenStart();
      bufferStart := lineIterator.bufferStart;
      var tokens := lineIterator.GetTokens().value;
      tokenIndex := 0;
      if |tokens| == 0 {
        return target == AsPlace(bufferEnd);
      }
      tokenIndex, screenStart, screenEnd, bufferStart, bufferEnd :=
        ScanBufferTokens(tokens, r, lineIterator.bufferStart, target);
      var token := tokens[tokenIndex];
      ghost var found := tokenIndex;
      OffsetsToken(tokens, found);
      if target == AsPlace(bufferEnd) && !IsZero(token.bufferExtent) && tokenIndex < |tokens| - 1 {
        var _ := AdvanceInLine();
      }
      assert tokenIndex == if StepsPastToken(Offsets(tokens), lineIterator.bufferStart, target, found) then found + 1 else found;
      return false;
    }

    /**
     * The first branch of moveToSuccessor, before the line's last token:
     * on to the next token, which starts where the current one ends. From a
     * negative index the source finds no token there and reports false
     * after the move.
     */
    method AdvanceInLine() returns (moved: bool)
      requires Valid() && lineIterator.currentScreenRow < |Lines()|
      requires tokenIndex < |Lines()[lineIterator.currentScreenRow].tokens| - 1
      modifies this
      ensures Valid()
      ensures moved <==> old(tokenIndex) >= -1
      ensures tokenIndex == old(tokenIndex) + 1 && screenStart == old(screenEnd) && bufferStart == old(bufferEnd)
      ensures moved ==>
        var token := Lines()[lineIterator.currentScreenRow].tokens[tokenIndex];
        screenEnd == Traverse(screenStart, Point(0, token.screenExtent)) &&
        bufferEnd == Traverse(bufferStart, token.bufferExtent)
      ensures !moved ==> screenEnd == old(screenEnd) && bufferEnd == old(bufferEnd)
      ensures old(OnToken()) ==> OnToken()
    {
      ghost var wasOnToken := OnToken();
      tokenIndex := tokenIndex + 1;
      screenStart := screenEnd;
      bufferStart := bufferEnd;
      var nextToken := GetCurrentToken();
      if nextToken.None? {
        return false;
      }
      if wasOnToken {
        ghost var tokens := index.screenLines[lineIterator.currentScreenRow].tokens;
        NextTokenStart(tokens, lineIterator.currentScreenRow, lineIterator.bufferStart, tokenIndex - 1,
                       old(screenStart), screenStart, old(bufferStart), bufferStart);
        TokenSpans(tokens, lineIterator.currentScreenRow, lineIterator.bufferStart, tokenIndex, screenStart, bufferStart);
      }
      screenEnd := Traverse(screenStart, Point(0, nextToken.value.screenExtent));
      bufferEnd := Traverse(bufferStart, nextToken.value.bufferExtent);
      return true;
    }

    /**
     * moveToSuccessor: the next token of the line, or the first token of
     * the next line; false, with nothing changed, past the last token of
     * the last line. Off the lines the source reads the length of null.
     * Moving onto a line without tokens gives false after the move.
     */
    method MoveToSuccessor() returns (r: Outcome)
      requires Valid()
      modifies this, lineIterator
      ensures Valid()
      ensures r.Threw? <==> old(lineIterator.currentScreenRow) >= |Lines()|
      ensures old(lineIterator.currentScreenRow) < |Lines()| &&
              old(tokenIndex) < |Lines()[old(lineIterator.currentScreenRow)].tokens| - 1 ==>
        r == Returned(old(tokenIndex) >= -1) && unchanged(lineIterator) && tokenIndex == old(tokenIndex) + 1 &&
        screenStart == old(screenEnd) && bufferStart == old(bufferEnd) &&
        (old(OnToken()) ==> OnToken())
      ensures old(lineIterator.currentScreenRow) < |Lines()| - 1 &&
              old(tokenIndex) >= |Lines()[old(lineIterator.currentScreenRow)].tokens| - 1 ==>
        lineIterator.currentScreenRow == old(lineIterator.currentScreenRow) + 1 &&
        lineIterator.bufferStart == old(lineIterator.bufferEnd) &&
        tokenIndex == 0 && screenStart == Point(lineIterator.currentScreenRow, 0) && bufferStart == lineIterator.bufferStart &&
        r == Returned(Lines()[lineIterator.currentScreenRow].tokens != []) &&
        (r == Returned(true) ==> OnToken()) &&
        (old(lineIterator.OnLine()) ==> lineIterator.OnLine())
      ensures old(lineIterator.currentScreenRow) == |Lines()| - 1 &&
              old(tokenIndex) >= |Lines()[old(lineIterator.currentScreenRow)].tokens| - 1 ==>
        r == Returned(false) && unchanged(this, lineIterator)
    {
      var tokens := lineIterator.GetTokens();
      if tokens.None? {
        return Threw;
      }
      if tokenIndex < |tokens.value| - 1 {
        var moved := AdvanceInLine();
        return Returned(moved);
      }
      var moved := lineIterator.MoveToSuccessor();
      if !moved {
        return Returned(false);
      }
      tokenIndex := 0;
      var nextToken := GetCurrentToken();
      screenStart := lineIterator.GetScreenStart();
      bufferStart := lineIterator.bufferStart;
      if nextToken.None? {
        return Returned(false);
      }
      ghost var line := index.screenLines[lineIterator.currentScreenRow].tokens;
      FirstTokenStart(line, lineIterator.currentScreenRow, lineIterator.bufferStart);
      TokenSpans(line, lineIterator.currentScreenRow, lineIterator.bufferStart, 0, screenStart, bufferStart);
      screenEnd := Traverse(screenStart, Point(0, nextToken.value.screenExtent));
      bufferEnd := Traverse(bufferStart, nextToken.value.bufferExtent);
      return Returned(true);
    }

    /**
     * moveToPredecessor: the previous token of the line, or the last token
     * of the previous line; false, with nothing changed, on token 0 of row
     * 0. Its positions come from a scan of the line from its first token;
     * the source throws where that token is not there.
     */
    method MoveToPredecessor() returns (r: Outcome)
      requires Valid()
      modifies this, lineIterator
      ensures Valid()
      ensures old(tokenIndex) == 0 && old(lineIterator.currentScreenRow) == 0 ==>
        r == Returned(false) && unchanged(this, lineIterator)
      ensures !(old(tokenIndex) == 0 && old(lineIterator.currentScreenRow) == 0) ==>
        var row := if old(tokenIndex) == 0 then old(lineIterator.currentScreenRow) - 1 else old(lineIterator.currentScreenRow);
        (r.Threw? <==> !(row < |Lines()| && (old(tokenIndex) != 0 || Lines()[row].tokens != []) &&
                         (old(tokenIndex) == 0 || 0 < old(tokenIndex) <= |Lines()[row].tokens|))) &&
        (r.Threw? || (r == Returned(true) && OnToken() && lineIterator.currentScreenRow == row &&
          tokenIndex == if old(tokenIndex) == 0 then |Lines()[row].tokens| - 1 else old(tokenIndex) - 1)) &&
        (old(tokenIndex) == 0 && row < |Lines()| ==> lineIterator.OnLine()) &&
        (old(tokenIndex) != 0 ==> unchanged(lineIterator))
    {
      if tokenIndex == 0 {
        var moved := lineIterator.MoveToPredecessor();
        if !moved {
          return Returned(false);
        }
        var tokensOfLine := lineIterator.GetTokens();
        if tokensOfLine.None? {
          return Threw;
        }
        tokenIndex := |tokensOfLine.value| - 1;
      } else {
        tokenIndex := tokenIndex - 1;
      }
      var tokensOfLine := lineIterator.GetTokens();
      if tokensOfLine.None? {
        return Threw;
      }
      var found, start, end, bufferPosition, bufferEndOfToken :=
        ScanToToken(tokensOfLine.value, lineIterator.currentScreenRow, lineIterator.bufferStart, tokenIndex);
      if !found {
        return Threw;
      }
      screenStart, screenEnd, bufferStart, bufferEnd := start, end, bufferPosition, bufferEndOfToken;
      return Returned(true);
    }

    /** getMetadata: the current token's metadata, None (null) without a current token. */
    function GetMetadata(): (m: Option<int>)
      reads this, lineIterator, lineIterator.index
      ensures m.Some? <==> GetCurrentToken().Some?
      ensures m.Some? ==> m.value == GetCurrentToken().value.metadata
    {
      match GetCurrentToken()
      case None => None
      case Some(token) => Some(token.metadata)
    }

    /** getScreenStart: on a token, where it starts on screen. */
    function GetScreenStart(): (p: Point)
      reads this, lineIterator, index
      ensures OnToken() ==> p == Point(lineIterator.currentScreenRow, Placed()[tokenIndex].screenStartOffset)
    {
      screenStart
    }

    /** getScreenEnd: on a token, where it ends on screen. */
    function GetScreenEnd(): (p: Point)
      reads this, lineIterator, index
      ensures OnToken() ==> p == Point(lineIterator.currentScreenRow, Placed()[tokenIndex].screenEndOffset)
    {
      screenEnd
    }

    /** getBufferStart: on a token, where it starts in the buffer. */
    function GetBufferStart(): (p: Point)
      reads this, lineIterator, index
      ensures OnToken() ==> p == Traverse(lineIterator.bufferStart, Placed()[tokenIndex].bufferStartOffset)
      ensures OnToken() && lineIterator.OnLine() ==>
        p == Traverse(LineStart(Lines(), lineIterator.currentScreenRow), Placed()[tokenIndex].bufferStartOffset)
    {
      bufferStart
    }

    /** getBufferEnd: on a token, where it ends in the buffer. */
    function GetBufferEnd(): (p: Point)
      reads this, lineIterator, index
      ensures OnToken() ==> p == Traverse(lineIterator.bufferStart, Placed()[tokenIndex].bufferEndOffset)
      ensures OnToken() && lineIterator.OnLine() ==>
        p == Traverse(LineStart(Lines(), lineIterator.currentScreenRow), Placed()[tokenIndex].bufferEndOffset)
    {
      bufferEnd
    }

    /** getCurrentToken: token `tokenIndex` of the current line; None where there is none. */
    function GetCurrentToken(): (t: Option<Token>)
      reads this, lineIterator, lineIterator.index
      ensures t.Some? <==>
        0 <= lineIterator.currentScreenRow < |lineIterator.Lines()| &&
        0 <= tokenIndex < |lineIterator.Lines()[lineIterator.currentScreenRow].tokens|
      ensures t.Some? ==> t.value == lineIterator.Lines()[lineIterator.currentScreenRow].tokens[tokenIndex]
    {
      match lineIterator.GetTokens()
      case None => None
      case Some(tokens) => if 0 <= tokenIndex < |tokens| then Some(tokens[tokenIndex]) else None
    }

    /** containsScreenPosition */
    predicate ContainsScreenPosition(p: Place)
      reads this
    {
      Holds(screenStart, p, screenEnd)
    }

    /** containsBufferPosition */
    predicate ContainsBufferPosition(p: Place)
      reads this
    {
      Holds(bufferStart, p, bufferEnd)
    }

    /**
     * translateBufferPosition: the token iterator's translation from the
     * token's buffer start to its screen start, capped at its screen end;
     * None where the source throws, before the token's buffer start.
     */
    function TranslateBufferPosition(p: Position): (r: Option<Position>)
      reads this
      ensures r.None? <==> Before(p, AsPosition(bufferStart))
      ensures r.Some? ==> AtOrBefore(r.value, AsPosition(screenEnd))
      ensures r.Some? && AtOrBefore(Translate(p, bufferStart, screenStart).value, AsPosition(screenEnd)) ==>
        r == Translate(p, bufferStart, screenStart)
    {
      ClampedTranslate(p, bufferStart, screenStart, screenEnd)
    }

    /** translateScreenPosition: the reverse, capped at the token's buffer end. */
    function TranslateScreenPosition(p: Position): (r: Option<Position>)
      reads this
      ensures r.None? <==> Before(p, AsPosition(screenStart))
      ensures r.Some? ==> AtOrBefore(r.value, AsPosition(bufferEnd))
      ensures r.Some? && AtOrBefore(Translate(p, screenStart, bufferStart).value, AsPosition(bufferEnd)) ==>
        r == Translate(p, screenStart, bufferStart)
    {
      ClampedTranslate(p, screenStart, bufferStart, bufferEnd)
    }
  }
}
