/**
 * What the two linear reference indexes (test/reference-display-index.js and
 * test/reference-screen-line-index.js) have in common: positions whose
 * column may be unbounded, the clipping of a seek target, the array splice,
 * the one-pass scans over a flat list of lines, and the linear token scan
 * of a reference seek together with the token it lands on.
 */
module ReferenceLines {
  import opened Options
  import opened Points
  import opened ScreenLines
  import opened TokenSearches
  import opened TokenIterators

  // ---------------------------------------------------------------------------
  // Positions with an unbounded column
  // ---------------------------------------------------------------------------

  /** A column of a reference target: a number, or the Infinity a row past the last is clipped to. */
  datatype Bound = Col(column: int) | Unbounded

  /** A seek target of the reference iterators; unlike a Point its row and column may be negative. */
  datatype Place = Place(row: int, column: Bound)

  function AsPlace(p: Point): Place {
    Place(p.row, Col(p.column))
  }

  /** `compare(a, b) <= 0`: the order of rows, then of columns, with an unbounded column after every other. */
  predicate AtMost(a: Place, b: Place) {
    a.row < b.row ||
    (a.row == b.row && (b.column.Unbounded? || (a.column.Col? && a.column.column <= b.column.column)))
  }

  /** `minPoint`: the earlier of two places, the first when neither is earlier. */
  function MinPlace(a: Place, b: Place): (m: Place)
    ensures m == a || m == b
    ensures AtMost(m, a) && AtMost(m, b)
  {
    if AtMost(b, a) && b != a then b else a
  }

  /** A Point and a Place compare as the Point's own order says. */
  lemma {:induction false} AtMostPoints(p: Point, q: Point)
    ensures AtMost(AsPlace(p), AsPlace(q)) <==> LessEq(p, q)
  {
  }

  /**
   * The clipping of a reference seek: a negative row goes to (0, 0), a
   * negative column to column 0 of the ORIGINAL row, and a row past
   * `lastRow` to that row with an unbounded column.
   */
  function ClipReferenceTarget(row: int, column: int, lastRow: int): (c: Place)
    ensures row > lastRow ==> c == Place(lastRow, Unbounded)
    ensures row <= lastRow ==> c.column.Col? && c.column.column >= 0
    ensures row <= lastRow && (row >= 0 || column < 0) ==> c.row == row
    ensures row <= lastRow && row < 0 && column >= 0 ==> c == Place(0, Col(0))
    ensures row <= lastRow && column >= 0 && row >= 0 ==> c == Place(row, Col(column))
    ensures 0 <= c.row <= lastRow <==> lastRow >= 0 && !(row < 0 && column < 0)
  {
    var clipped := Place(row, Col(column));
    var clipped := if row < 0 then Place(0, Col(0)) else clipped;
    var clipped := if column < 0 then Place(row, Col(0)) else clipped;
    if row > lastRow then Place(lastRow, Unbounded) else clipped
  }

  /**
   * The reference clipping agrees with the token iterator's clipping of a
   * screen target on a non-empty index, except for a target whose row AND
   * column are negative: the reference then keeps the negative row, where
   * the token iterator goes to row 0.
   */
  lemma {:induction false} ClipsAgree(row: int, column: int, lastRow: int)
    requires lastRow >= 0
    ensures var c, t := ClipReferenceTarget(row, column, lastRow), ClipScreenTarget(row, column, lastRow);
      (row < 0 && column < 0) <==> c.row != t.row
    ensures var c, t := ClipReferenceTarget(row, column, lastRow), ClipScreenTarget(row, column, lastRow);
      !(row < 0 && column < 0) ==>
        c.row == t.row && (c.column.Unbounded? <==> t.column.Infinity?) &&
        (t.column.At? ==> c.column == Col(t.column.column))
  {
  }

  // ---------------------------------------------------------------------------
  // Array splice
  // ---------------------------------------------------------------------------

  /** Where `Array.prototype.splice` starts: a negative start counts back from the end; both are clamped to the array. */
  function SpliceStart(length: nat, start: int): (first: nat)
    ensures first <= length
    ensures 0 <= start ==> first == if start <= length then start else length
    ensures start < 0 ==> first == if length + start < 0 then 0 else length + start
  {
    if start < 0 then (if length + start < 0 then 0 else length + start)
    else if start <= length then start
    else length
  }

  /** How many items `Array.prototype.splice` removes from `first` on: `count`, clamped to what is there. */
  function SpliceCount(length: nat, first: nat, count: int): (n: nat)
    requires first <= length
    ensures first + n <= length
    ensures n == if count < 0 then 0 else if first + count <= length then count else length - first
  {
    if count < 0 then 0 else if first + count <= length then count else length - first
  }

  /** `this.screenLines.splice(startRow, rowCount, ...screenLines)`. */
  function ArraySplice<T>(s: seq<T>, start: int, count: int, ins: seq<T>): (r: seq<T>)
    ensures var first := SpliceStart(|s|, start);
      var n := SpliceCount(|s|, first, count);
      |r| == |s| - n + |ins| &&
      r[..first] == s[..first] && r[first..first + |ins|] == ins && r[first + |ins|..] == s[first + n..]
  {
    var first := SpliceStart(|s|, start);
    var last := first + SpliceCount(|s|, first, count);
    var r := s[..first] + ins + s[last..];
    assert r[..first] == s[..first] && r[first..first + |ins|] == ins && r[first + |ins|..] == s[last..];
    r
  }

  /**
   * For a start inside the array the tree's splice is the array splice; past
   * the end of a non-empty array the array splice appends, where the tree's
   * splice replaces every row.
   */
  lemma {:induction false} TreeSpliceAgainstArray<T>(s: seq<T>, start: nat, count: nat, ins: seq<T>)
    ensures start <= |s| ==> TreeSplice(s, start, count, ins) == ArraySplice(s, start, count, ins)
    ensures |s| < start ==> ArraySplice(s, start, count, ins) == s + ins
    ensures |s| < start && s != [] ==> TreeSplice(s, start, count, ins) != ArraySplice(s, start, count, ins)
  {
    var r := ArraySplice(s, start, count, ins);
    if start <= |s| {
      var n := SpliceCount(|s|, start, count);
      assert r == r[..start] + r[start..start + |ins|] + r[start + |ins|..];
      assert TreeSplice(s, start, count, ins) == s[..start] + ins + s[start + n..];
    } else {
      assert r == r[..|s|] + r[|s|..|s| + |ins|] + r[|s| + |ins|..];
      assert |TreeSplice(s, start, count, ins)| == |ins|;
    }
  }

  // ---------------------------------------------------------------------------
  // One-pass scans over the lines
  // ---------------------------------------------------------------------------

  /** getLastBufferRow's loop: the line extents folded with traverse from (0, 0). */
  method FoldBufferExtents(lines: seq<ScreenLine>) returns (p: Point)
    ensures p == TotalExtent(lines)
  {
    p := ZERO_POINT;
    for i := 0 to |lines|
      invariant p == TotalExtent(lines[..i])
    {
      assert lines[..i + 1][..i] == lines[..i];
      p := Traverse(p, lines[i].bufferExtent);
    }
    assert lines[..|lines|] == lines;
  }

  /** getMaxScreenLineLength's loop: the longest screen extent, -1 for no lines. */
  method MaxScreenLineLength(lines: seq<ScreenLine>) returns (m: int)
    ensures m == MaxLength(lines)
    ensures m == -1 <==> lines == []
    ensures forall i :: 0 <= i < |lines| ==> lines[i].screenExtent <= m
    ensures lines != [] ==> exists i :: 0 <= i < |lines| && lines[i].screenExtent == m
  {
    m := -1;
    for i := 0 to |lines|
      invariant m == MaxLength(lines[..i])
    {
      assert lines[..i + 1][..i] == lines[..i];
      m := Max(m, lines[i].screenExtent);
    }
    assert lines[..|lines|] == lines;
    MaxLengthIsMaximum(lines);
  }

  /** The rows of `lines` whose screen extent is `length`. */
  ghost predicate RowsOfLength(lines: seq<ScreenLine>, rows: seq<nat>, length: int, bound: nat)
    requires bound <= |lines|
  {
    (forall i, j :: 0 <= i < j < |rows| ==> rows[i] < rows[j]) &&
    (forall k :: 0 <= k < |rows| ==> rows[k] < bound) &&
    (forall r: nat :: r < bound ==> (r in rows <==> lines[r].screenExtent == length))
  }

  /** One step of getScreenRowsWithMaxLineLength's loop keeps the rows of the longest lines so far. */
  lemma {:induction false} RowsStep(lines: seq<ScreenLine>, rows: seq<nat>, screenRow: nat)
    requires screenRow < |lines|
    requires RowsOfLength(lines, rows, MaxLength(lines[..screenRow]), screenRow)
    ensures var maxLength := MaxLength(lines[..screenRow]);
      var extent := lines[screenRow].screenExtent;
      var kept := if extent > maxLength then [] else rows;
      var maxLength' := if extent > maxLength then extent else maxLength;
      maxLength' == MaxLength(lines[..screenRow + 1]) &&
      RowsOfLength(lines, kept + (if extent == maxLength' then [screenRow] else []), maxLength', screenRow + 1)
  {
    assert lines[..screenRow + 1][..screenRow] == lines[..screenRow];
    MaxLengthIsMaximum(lines[..screenRow]);
    assert forall r :: 0 <= r < screenRow ==> lines[..screenRow][r] == lines[r];
  }

  /**
   * getScreenRowsWithMaxLineLength's loop: the rows whose screen extent is
   * the longest, ascending, each once; none for no lines.
   */
  method RowsWithMaxLineLength(lines: seq<ScreenLine>) returns (rows: seq<nat>)
    ensures RowsOfLength(lines, rows, MaxLength(lines), |lines|)
    ensures lines == [] <==> rows == []
  {
    var maxLength: int := -1;
    rows := [];
    for screenRow := 0 to |lines|
      invariant maxLength == MaxLength(lines[..screenRow])
      invariant RowsOfLength(lines, rows, maxLength, screenRow)
    {
      var line := lines[screenRow];
      RowsStep(lines, rows, screenRow);
      if line.screenExtent > maxLength {
        maxLength := line.screenExtent;
        rows := [];
      }
      if line.screenExtent == maxLength {
        rows := rows + [screenRow];
      }
    }
    assert lines[..|lines|] == lines;
    MaxLengthIsMaximum(lines);
    if lines != [] {
      var k :| 0 <= k < |lines| && lines[k].screenExtent == MaxLength(lines);
      assert k in rows;
    }
    if rows != [] {
      assert rows[0] < |lines|;
    }
  }

  /** The row with the longest line that the tree's max query may return is one of the reference's rows. */
  lemma {:induction false} MaxRowListed(lines: seq<ScreenLine>, rows: seq<nat>, row: nat)
    requires RowsOfLength(lines, rows, MaxLength(lines), |lines|)
    requires row < |lines| && lines[row].screenExtent == MaxLength(lines)
    ensures row in rows && rows[0] <= row
  {
    var k :| 0 <= k < |rows| && rows[k] == row;
    assert k == 0 || rows[0] < rows[k];
  }

  // ---------------------------------------------------------------------------
  // The tokens of a line, as the reference scans them
  // ---------------------------------------------------------------------------

  /** The offsets of every token of a line, as line-node.js computes them: a reference scan walks the same values. */
  ghost function Offsets(tokens: seq<Token>): (placed: seq<PlacedToken>)
    ensures |placed| == |tokens|
    decreases |tokens|
  {
    if tokens == [] then []
    else
      var init := Offsets(tokens[..|tokens| - 1]);
      var last := tokens[|tokens| - 1];
      var screen := if init == [] then 0 else init[|init| - 1].screenEndOffset;
      var buffer := if init == [] then ZERO_POINT else init[|init| - 1].bufferEndOffset;
      init + [PlacedToken(last, screen, screen + last.screenExtent, buffer, Traverse(buffer, last.bufferExtent))]
  }

  /** Offsets are the offsets computeTokenOffsets computes: prefix sums of the extents, each token starting where the previous ends. */
  lemma {:induction false} OffsetsOf(tokens: seq<Token>)
    ensures OffsetsComputed(tokens, Offsets(tokens))
    decreases |tokens|
  {
    if tokens != [] {
      var init := Offsets(tokens[..|tokens| - 1]);
      OffsetsOf(tokens[..|tokens| - 1]);
      var last := tokens[|tokens| - 1];
      var screen := if init == [] then 0 else init[|init| - 1].screenEndOffset;
      var buffer := if init == [] then ZERO_POINT else init[|init| - 1].bufferEndOffset;
      var p := PlacedToken(last, screen, screen + last.screenExtent, buffer, Traverse(buffer, last.bufferExtent));
      ComputedUpToPrefix(tokens, init);
      PlaceNext(tokens, init, p);
      assert Offsets(tokens) == init + [p];
    }
  }

  /** Offsets computed for all but the last token are computed up to there for all of them. */
  lemma {:induction false} ComputedUpToPrefix(tokens: seq<Token>, placed: seq<PlacedToken>)
    requires tokens != [] && OffsetsComputed(tokens[..|tokens| - 1], placed)
    ensures OffsetsComputedUpTo(tokens, placed)
  {
    assert forall j :: 0 <= j < |placed| ==> tokens[..|tokens| - 1][j] == tokens[j];
  }

  /**
   * Where the reference's linear screen scan stops: the first token whose
   * screen span holds column `k`; every earlier token ends before `k`.
   */
  ghost predicate FirstHolding(placed: seq<PlacedToken>, k: nat, i: int) {
    0 <= i < |placed| &&
    placed[i].screenStartOffset <= k <= placed[i].screenEndOffset &&
    (i > 0 ==> placed[i - 1].screenEndOffset < k)
  }

  /** The reference steps from the token it stops on to the next when a non-empty token ends exactly at `k`. */
  predicate StepsPast(placed: seq<PlacedToken>, k: nat, i: nat)
    requires i < |placed|
  {
    placed[i].token.screenExtent > 0 && k == placed[i].screenEndOffset && i < |placed| - 1
  }

  /**
   * The reference display index's screen seek, up to the end of the line,
   * lands where the token iterator's binary search does: the token the
   * scan stops on, or the next one when it steps, is sought in the sense of
   * ScreenSought, which at most one token is.
   */
  lemma {:induction false} ReferenceScreenSought(tokens: seq<Token>, placed: seq<PlacedToken>, k: nat, i: nat)
    requires OffsetsComputed(tokens, placed) && FirstHolding(placed, k, i)
    ensures ScreenSought(placed, At(k), if StepsPast(placed, k, i) then i + 1 else i)
  {
    ComputedOrdered(tokens, placed);
    var n := |placed|;
    assert k <= placed[n - 1].screenEndOffset by {
      assert i == n - 1 || placed[i].screenEndOffset <= placed[n - 1].screenStartOffset;
    }
    if StepsPast(placed, k, i) {
      assert placed[i + 1].screenStartOffset == k;
      forall j | 0 <= j < i + 1
        ensures placed[j].screenStartOffset < k
      {
        assert j == i || placed[j].screenEndOffset <= placed[i].screenStartOffset;
      }
    } else if exists j :: 0 <= j < n && At(k) == At(placed[j].screenStartOffset) {
      var j :| 0 <= j < n && At(k) == At(placed[j].screenStartOffset);
      // token i holds k; were it to start before k it would end there, not be empty, and be stepped past
      assert placed[i].screenStartOffset == k by {
        if j <= i {
          assert placed[j].screenStartOffset <= placed[i].screenStartOffset;
        } else {
          assert placed[i].screenEndOffset <= placed[j].screenStartOffset;
        }
      }
    }
  }

  /** The token the reference display index's screen seek lands on: FirstHolding, then StepsPast. */
  ghost predicate ScreenLanded(placed: seq<PlacedToken>, k: nat, index: int) {
    exists i :: FirstHolding(placed, k, i) && index == (if StepsPast(placed, k, i) then i + 1 else i)
  }

  /** Token `i` of the offsets is the line's own token `i`. */
  lemma {:induction false} OffsetsToken(tokens: seq<Token>, i: nat)
    requires i < |tokens|
    ensures Offsets(tokens)[i].token == tokens[i]
  {
    OffsetsOf(tokens);
  }

  /**
   * Where the reference screen seek lands once its scan stops on token `i`:
   * that token, or the next one when it steps, and the stop token is the
   * line's own token `i`.
   */
  lemma {:induction false} ScanLands(tokens: seq<Token>, k: nat, i: nat)
    requires FirstHolding(Offsets(tokens), k, i)
    ensures Offsets(tokens)[i].token == tokens[i]
    ensures ScreenLanded(Offsets(tokens), k, if StepsPast(Offsets(tokens), k, i) then i + 1 else i)
  {
    OffsetsOf(tokens);
  }

  /**
   * The oracle agreement of a screen seek inside a line: wherever the
   * reference lands and wherever the token iterator's search lands, for a
   * column up to the end of the line's tokens, they land on the same token.
   */
  lemma {:induction false} ScreenSeeksAgree(tokens: seq<Token>, placed: seq<PlacedToken>, k: nat, reference: int, tree: int)
    requires OffsetsComputed(tokens, placed)
    requires ScreenLanded(placed, k, reference) && ScreenSought(placed, At(k), tree)
    ensures reference == tree
  {
    var i :| FirstHolding(placed, k, i) && reference == (if StepsPast(placed, k, i) then i + 1 else i);
    ReferenceScreenSought(tokens, placed, k, i);
    ScreenSoughtUnique(tokens, placed, At(k), reference, tree);
  }

  // ---------------------------------------------------------------------------
  // A token iterator's position, and the scans that find it
  // ---------------------------------------------------------------------------

  /** The column a clipped screen target comes to once `minPoint` caps it at the line's screen end. */
  function CappedColumn(column: Bound, lineEnd: nat): (k: nat)
    ensures column.Unbounded? ==> k == lineEnd
    ensures column.Col? && 0 <= column.column <= lineEnd ==> k == column.column
    ensures column.Col? && lineEnd < column.column ==> k == lineEnd
  {
    match column
    case Unbounded => lineEnd
    case Col(c) => if c < 0 then 0 else if c <= lineEnd then c else lineEnd
  }

  /**
   * The four positions a reference token iterator keeps for token `i` of
   * row `row`, whose line starts at `lineStart` in the buffer: the token's
   * offsets, on the row on screen and traversed from the line start in the
   * buffer.
   */
  ghost predicate SpansToken(placed: seq<PlacedToken>, row: nat, lineStart: Point, i: int,
                             screenStart: Point, screenEnd: Point, bufferStart: Point, bufferEnd: Point) {
    0 <= i < |placed| &&
    screenStart == Point(row, placed[i].screenStartOffset) &&
    screenEnd == Point(row, placed[i].screenEndOffset) &&
    bufferStart == Traverse(lineStart, placed[i].bufferStartOffset) &&
    bufferEnd == Traverse(lineStart, placed[i].bufferEndOffset)
  }

  /**
   * One step of a reference scan: from the start of token `i`, traversing
   * its extents gives its end, which is where token `i + 1` starts; the
   * first token starts at the start of the line.
   */
  lemma {:induction false} SpanStep(tokens: seq<Token>, placed: seq<PlacedToken>, row: nat, lineStart: Point, i: nat,
                 screenStart: Point, bufferStart: Point)
    requires OffsetsComputed(tokens, placed) && i < |placed|
    requires screenStart == Point(row, placed[i].screenStartOffset)
    requires bufferStart == Traverse(lineStart, placed[i].bufferStartOffset)
    ensures SpansToken(placed, row, lineStart, i, screenStart, Traverse(screenStart, Point(0, tokens[i].screenExtent)),
                       bufferStart, Traverse(bufferStart, tokens[i].bufferExtent))
    ensures i + 1 < |placed| ==>
      placed[i + 1].screenStartOffset == placed[i].screenEndOffset &&
      placed[i + 1].bufferStartOffset == placed[i].bufferEndOffset
  {
    TraverseAssociative(lineStart, placed[i].bufferStartOffset, tokens[i].bufferExtent);
  }

  /** The first token of a line starts where the line does. */
  lemma {:induction false} FirstSpan(tokens: seq<Token>, placed: seq<PlacedToken>, row: nat, lineStart: Point)
    requires OffsetsComputed(tokens, placed) && |placed| > 0
    ensures Point(row, 0) == Point(row, placed[0].screenStartOffset)
    ensures lineStart == Traverse(lineStart, placed[0].bufferStartOffset)
  {
    TraverseZero(lineStart);
  }

  /**
   * The same facts over the offsets of a line's tokens, for the iterators:
   * the first token starts at the line's start, a token's ends are its
   * start traversed by its extents, and the next token starts there.
   */
  lemma {:induction false} FirstTokenStart(tokens: seq<Token>, row: nat, lineStart: Point)
    requires tokens != []
    ensures Point(row, 0) == Point(row, Offsets(tokens)[0].screenStartOffset)
    ensures lineStart == Traverse(lineStart, Offsets(tokens)[0].bufferStartOffset)
  {
    OffsetsOf(tokens);
    FirstSpan(tokens, Offsets(tokens), row, lineStart);
  }

  lemma {:induction false} TokenSpans(tokens: seq<Token>, row: nat, lineStart: Point, i: nat, screenStart: Point, bufferStart: Point)
    requires i < |tokens|
    requires screenStart == Point(row, Offsets(tokens)[i].screenStartOffset)
    requires bufferStart == Traverse(lineStart, Offsets(tokens)[i].bufferStartOffset)
    ensures SpansToken(Offsets(tokens), row, lineStart, i, screenStart, Traverse(screenStart, Point(0, tokens[i].screenExtent)),
                       bufferStart, Traverse(bufferStart, tokens[i].bufferExtent))
  {
    OffsetsOf(tokens);
    SpanStep(tokens, Offsets(tokens), row, lineStart, i, screenStart, bufferStart);
  }

  lemma {:induction false} NextTokenStart(tokens: seq<Token>, row: nat, lineStart: Point, i: nat,
                       screenStart: Point, screenEnd: Point, bufferStart: Point, bufferEnd: Point)
    requires i + 1 < |tokens|
    requires SpansToken(Offsets(tokens), row, lineStart, i, screenStart, screenEnd, bufferStart, bufferEnd)
    ensures screenEnd == Point(row, Offsets(tokens)[i + 1].screenStartOffset)
    ensures bufferEnd == Traverse(lineStart, Offsets(tokens)[i + 1].bufferStartOffset)
  {
    OffsetsOf(tokens);
    SpanStep(tokens, Offsets(tokens), row, lineStart, i, screenStart, bufferStart);
  }

  /** The buffer range of line `r` holds `target`: `containsBufferPosition` of the reference line iterators. */
  ghost predicate LineHolds(ls: seq<ScreenLine>, target: Place, r: nat)
    requires r < |ls|
  {
    AtMost(AsPlace(LineStart(ls, r)), target) && AtMost(target, AsPlace(LineEnd(ls, r)))
  }

  /** Where the reference line scan stops: the first line that holds `target`, or the last line. */
  ghost predicate LineScanned(ls: seq<ScreenLine>, target: Place, r: int) {
    0 <= r < |ls| &&
    (forall j :: 0 <= j < r ==> !LineHolds(ls, target, j)) &&
    (LineHolds(ls, target, r) || r == |ls| - 1)
  }

  /** The reference display index's line iterator steps past a non-empty line that ends exactly at `target`. */
  ghost predicate StepsPastLine(ls: seq<ScreenLine>, target: Place, r: nat)
    requires r < |ls|
  {
    target == AsPlace(LineEnd(ls, r)) && !IsZero(ls[r].bufferExtent) && r < |ls| - 1
  }

  /** The buffer range of token `i` holds `target`. */
  ghost predicate TokenHolds(placed: seq<PlacedToken>, lineStart: Point, target: Place, i: nat)
    requires i < |placed|
  {
    AtMost(AsPlace(Traverse(lineStart, placed[i].bufferStartOffset)), target) &&
    AtMost(target, AsPlace(Traverse(lineStart, placed[i].bufferEndOffset)))
  }

  /** Where the reference token scan stops: the first token that holds `target`, or the last token. */
  ghost predicate TokenScanned(placed: seq<PlacedToken>, lineStart: Point, target: Place, i: int) {
    0 <= i < |placed| &&
    (forall j :: 0 <= j < i ==> !TokenHolds(placed, lineStart, target, j)) &&
    (TokenHolds(placed, lineStart, target, i) || i == |placed| - 1)
  }

  /** When any token of the line holds `target`, the one the scan stops on does, and it is the first. */
  lemma {:induction false} ScannedHolds(placed: seq<PlacedToken>, lineStart: Point, target: Place, i: int, j: nat)
    requires TokenScanned(placed, lineStart, target, i)
    requires j < |placed| && TokenHolds(placed, lineStart, target, j)
    ensures i <= j && TokenHolds(placed, lineStart, target, i)
  {
  }

  /** The reference display index's buffer seek steps past a non-empty token that ends exactly at `target`. */
  ghost predicate StepsPastToken(placed: seq<PlacedToken>, lineStart: Point, target: Place, i: nat)
    requires i < |placed|
  {
    target == AsPlace(Traverse(lineStart, placed[i].bufferEndOffset)) &&
    !IsZero(placed[i].token.bufferExtent) && i < |placed| - 1
  }

  /** `containsScreenPosition` / `containsBufferPosition`: `p` lies between `start` and `end`, both included. */
  predicate Holds(start: Point, p: Place, end: Point) {
    AtMost(AsPlace(start), p) && AtMost(p, AsPlace(end))
  }

  /**
   * The token loop of both reference screen seeks, on row `row` of a line
   * starting at `lineStart` in the buffer: from the first token on, the
   * first token whose screen range holds column `k`, with its four
   * positions; when none does, one past the last token, with all four
   * positions at the last token's end.
   */
  method ScanScreenTokens(tokens: seq<Token>, row: nat, lineStart: Point, k: nat)
    returns (i: nat, screenStart: Point, screenEnd: Point, bufferStart: Point, bufferEnd: Point)
    requires tokens != []
    ensures i <= |tokens|
    ensures i < |tokens| ==>
      FirstHolding(Offsets(tokens), k, i) &&
      SpansToken(Offsets(tokens), row, lineStart, i, screenStart, screenEnd, bufferStart, bufferEnd)
    ensures i == |tokens| ==>
      var last := Offsets(tokens)[|tokens| - 1];
      last.screenEndOffset < k &&
      screenStart == screenEnd == Point(row, last.screenEndOffset) &&
      bufferStart == bufferEnd == Traverse(lineStart, last.bufferEndOffset)
  {
    ghost var placed := Offsets(tokens);
    OffsetsOf(tokens);
    var target := Place(row, Col(k));
    FirstSpan(tokens, placed, row, lineStart);
    i, screenStart, bufferStart := 0, Point(row, 0), lineStart;
    screenEnd, bufferEnd := screenStart, bufferStart;
    while i < |tokens|
      invariant 0 <= i <= |tokens|
      invariant i < |tokens| ==>
        screenStart == Point(row, placed[i].screenStartOffset) &&
        bufferStart == Traverse(lineStart, placed[i].bufferStartOffset) &&
        placed[i].screenStartOffset <= k
      invariant i == |tokens| ==>
        screenStart == screenEnd == Point(row, placed[|tokens| - 1].screenEndOffset) &&
        bufferStart == bufferEnd == Traverse(lineStart, placed[|tokens| - 1].bufferEndOffset)
      invariant i > 0 ==> placed[i - 1].screenEndOffset < k
    {
      SpanStep(tokens, placed, row, lineStart, i, screenStart, bufferStart);
      screenEnd := Traverse(screenStart, Point(0, tokens[i].screenExtent));
      bufferEnd := Traverse(bufferStart, tokens[i].bufferExtent);
      if Holds(screenStart, target, screenEnd) {
        return;
      }
      screenStart, bufferStart := screenEnd, bufferEnd;
      i := i + 1;
    }
  }

  /**
   * The token loop of both reference buffer seeks: the first token whose
   * buffer range, measured from `lineStart`, holds `target`, or the last
   * token, with its four positions.
   */
  method ScanBufferTokens(tokens: seq<Token>, row: nat, lineStart: Point, target: Place)
    returns (i: nat, screenStart: Point, screenEnd: Point, bufferStart: Point, bufferEnd: Point)
    requires tokens != []
    ensures TokenScanned(Offsets(tokens), lineStart, target, i)
    ensures SpansToken(Offsets(tokens), row, lineStart, i, screenStart, screenEnd, bufferStart, bufferEnd)
  {
    ghost var placed := Offsets(tokens);
    OffsetsOf(tokens);
    FirstSpan(tokens, placed, row, lineStart);
    i, screenStart, bufferStart := 0, Point(row, 0), lineStart;
    while true
      invariant 0 <= i < |tokens|
      invariant screenStart == Point(row, placed[i].screenStartOffset)
      invariant bufferStart == Traverse(lineStart, placed[i].bufferStartOffset)
      invariant forall j :: 0 <= j < i ==> !TokenHolds(placed, lineStart, target, j)
      decreases |tokens| - i
    {
      SpanStep(tokens, placed, row, lineStart, i, screenStart, bufferStart);
      screenEnd := Traverse(screenStart, Point(0, tokens[i].screenExtent));
      bufferEnd := Traverse(bufferStart, tokens[i].bufferExtent);
      if Holds(bufferStart, target, bufferEnd) || i == |tokens| - 1 {
        return;
      }
      screenStart, bufferStart := screenEnd, bufferEnd;
      i := i + 1;
    }
  }

  /**
   * The loop of the newer reference's moveToPredecessor: a scan from the
   * first token to token `index`, giving its four positions; it finds none
   * (the source reads a missing token) when `index` is not a token's.
   */
  method ScanToToken(tokens: seq<Token>, row: nat, lineStart: Point, index: int)
    returns (found: bool, screenStart: Point, screenEnd: Point, bufferStart: Point, bufferEnd: Point)
    ensures found <==> 0 <= index < |tokens|
    ensures found ==> SpansToken(Offsets(tokens), row, lineStart, index, screenStart, screenEnd, bufferStart, bufferEnd)
  {
    ghost var placed := Offsets(tokens);
    OffsetsOf(tokens);
    var start, bufferPosition := Point(row, 0), lineStart;
    screenStart, screenEnd, bufferStart, bufferEnd := start, start, lineStart, lineStart;
    if |tokens| > 0 {
      FirstSpan(tokens, placed, row, lineStart);
    }
    var i := 0;
    while i < |tokens|
      invariant 0 <= i <= |tokens|
      invariant i < |tokens| ==>
        start == Point(row, placed[i].screenStartOffset) &&
        bufferPosition == Traverse(lineStart, placed[i].bufferStartOffset)
      invariant i <= index || index < 0
    {
      SpanStep(tokens, placed, row, lineStart, i, start, bufferPosition);
      var end := Traverse(start, Point(0, tokens[i].screenExtent));
      var bufferEndOfToken := Traverse(bufferPosition, tokens[i].bufferExtent);
      if i == index {
        return true, start, end, bufferPosition, bufferEndOfToken;
      }
      i := i + 1;
      start, bufferPosition := end, bufferEndOfToken;
    }
    return false, screenStart, screenEnd, bufferStart, bufferEnd;
  }

  // ---------------------------------------------------------------------------
  // Translation with a clamp
  // ---------------------------------------------------------------------------

  /**
   * The reference translations: the token iterator's translation from the
   * token's start in one space to its start in the other, clamped to the
   * token's end there; None where the position is before the token's start.
   */
  function ClampedTranslate(p: Position, from: Point, to: Point, toEnd: Point): (r: Option<Position>)
    ensures r.None? <==> Translate(p, from, to).None?
    ensures r.Some? ==> AtOrBefore(r.value, AsPosition(toEnd)) && AtOrBefore(r.value, Translate(p, from, to).value)
    ensures r.Some? && AtOrBefore(Translate(p, from, to).value, AsPosition(toEnd)) ==> r == Translate(p, from, to)
    ensures r.Some? && Before(AsPosition(toEnd), Translate(p, from, to).value) ==> r.value == AsPosition(toEnd)
  {
    match Translate(p, from, to)
    case None => None
    case Some(q) => Some(MinPosition(AsPosition(toEnd), q))
  }

  /**
   * A position on a later row with a negative column translates to a point
   * one row past the token's start in the other space, after the token's end
   * there, so the clamp gives that end.
   */
  lemma {:induction false} ClampedNegativeColumn(from: Point, to: Point, toEnd: Point)
    requires from.row == 0 && toEnd.row == to.row
    ensures ClampedTranslate(Position(1, -1), from, to, toEnd) == Some(AsPosition(toEnd))
  {
  }
}
