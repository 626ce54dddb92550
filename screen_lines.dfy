/**
 * Screen lines and their tokens, the per-token offsets a line node computes
 * once (src/line-node.js, computeTokenOffsets), and the functions over a flat
 * list of screen lines that both the tree and the linear reference indexes
 * are specified against.
 */
module ScreenLines {
  import opened Points
  import opened Options

  /** One styled span of a line: a screen width and a buffer displacement; `metadata` is opaque. */
  datatype Token = Token(screenExtent: nat, bufferExtent: Point, metadata: int)

  /** A screen line as the caller supplies it to `splice`. */
  datatype ScreenLine = ScreenLine(screenExtent: nat, bufferExtent: Point, tokens: seq<Token>)

  /** A token together with the offsets computed for it inside its line. */
  datatype PlacedToken = PlacedToken(
    token: Token,
    screenStartOffset: nat,
    screenEndOffset: nat,
    bufferStartOffset: Point,
    bufferEndOffset: Point)

  // ---------------------------------------------------------------------------
  // Token offsets
  // ---------------------------------------------------------------------------

  /** Total screen width of a run of tokens. */
  function ScreenWidth(ts: seq<Token>): nat {
    if ts == [] then 0 else ScreenWidth(ts[..|ts| - 1]) + ts[|ts| - 1].screenExtent
  }

  /** Total buffer displacement of a run of tokens, folded with Traverse. */
  function BufferWidth(ts: seq<Token>): Point {
    if ts == [] then ZERO_POINT else Traverse(BufferWidth(ts[..|ts| - 1]), ts[|ts| - 1].bufferExtent)
  }

  /**
   * The offsets of `placed` are those computed for the first |placed| of
   * `tokens`: the first token starts at column 0 and ZERO_POINT, each token
   * ends its extent after its start, and each token starts where the
   * previous one ends.
   */
  ghost predicate OffsetsComputedUpTo(tokens: seq<Token>, placed: seq<PlacedToken>) {
    |placed| <= |tokens| &&
    (forall j :: 0 <= j < |placed| ==>
      placed[j].token == tokens[j] &&
      placed[j].screenEndOffset == placed[j].screenStartOffset + tokens[j].screenExtent &&
      placed[j].bufferEndOffset == Traverse(placed[j].bufferStartOffset, tokens[j].bufferExtent)) &&
    (|placed| > 0 ==> placed[0].screenStartOffset == 0 && placed[0].bufferStartOffset == ZERO_POINT) &&
    (forall j :: 0 < j < |placed| ==>
      placed[j].screenStartOffset == placed[j - 1].screenEndOffset &&
      placed[j].bufferStartOffset == placed[j - 1].bufferEndOffset)
  }

  /** The offsets of `placed` are those computed for all of `tokens`. */
  ghost predicate OffsetsComputed(tokens: seq<Token>, placed: seq<PlacedToken>) {
    |placed| == |tokens| && OffsetsComputedUpTo(tokens, placed)
  }

  /**
   * The same offsets, token by token: the first of `placed` is the first of
   * `tokens` placed at column `screen` and buffer offset `buffer`, and the
   * rest are placed from where it ends.
   */
  ghost predicate PlacedFrom(tokens: seq<Token>, placed: seq<PlacedToken>, screen: nat, buffer: Point)
    decreases |tokens|
  {
    |placed| == |tokens| &&
    (|tokens| > 0 ==>
      var screenEnd, bufferEnd := screen + tokens[0].screenExtent, Traverse(buffer, tokens[0].bufferExtent);
      placed[0] == PlacedToken(tokens[0], screen, screenEnd, buffer, bufferEnd) &&
      PlacedFrom(tokens[1..], placed[1..], screenEnd, bufferEnd))
  }

  /** A line's tokens with their computed offsets, one token at least, as the LineNode constructor leaves them. */
  ghost predicate TokensPlaced(tokens: seq<Token>, placed: seq<PlacedToken>) {
    |tokens| > 0 && PlacedFrom(tokens, placed, 0, ZERO_POINT)
  }

  /** Offsets computed for the whole line are placed token by token from every token on. */
  lemma {:induction false} ComputedPlacedFrom(tokens: seq<Token>, placed: seq<PlacedToken>, k: nat)
    requires OffsetsComputed(tokens, placed) && k <= |tokens|
    ensures k < |tokens| ==> PlacedFrom(tokens[k..], placed[k..], placed[k].screenStartOffset, placed[k].bufferStartOffset)
    ensures k == |tokens| ==> forall s: nat, b: Point :: PlacedFrom(tokens[k..], placed[k..], s, b)
    decreases |tokens| - k
  {
    if k < |tokens| {
      ComputedPlacedFrom(tokens, placed, k + 1);
      assert tokens[k..][1..] == tokens[k + 1..];
      assert placed[k..][1..] == placed[k + 1..];
    }
  }

  /** computeTokenOffsets leaves a line's tokens placed. */
  lemma {:induction false} ComputedPlaced(tokens: seq<Token>, placed: seq<PlacedToken>)
    requires OffsetsComputed(tokens, placed) && |tokens| > 0
    ensures TokensPlaced(tokens, placed)
  {
    ComputedPlacedFrom(tokens, placed, 0);
    assert tokens[0..] == tokens && placed[0..] == placed;
  }

  /** Tokens placed from column `screen` and offset `buffer` satisfy the computed-offset relations from there. */
  lemma {:induction false} PlacedFromComputed(tokens: seq<Token>, placed: seq<PlacedToken>, screen: nat, buffer: Point)
    requires PlacedFrom(tokens, placed, screen, buffer)
    ensures |placed| == |tokens|
    ensures forall j :: 0 <= j < |placed| ==>
      placed[j].token == tokens[j] &&
      placed[j].screenEndOffset == placed[j].screenStartOffset + tokens[j].screenExtent &&
      placed[j].bufferEndOffset == Traverse(placed[j].bufferStartOffset, tokens[j].bufferExtent)
    ensures |placed| > 0 ==> placed[0].screenStartOffset == screen && placed[0].bufferStartOffset == buffer
    ensures forall j :: 0 < j < |placed| ==>
      placed[j].screenStartOffset == placed[j - 1].screenEndOffset &&
      placed[j].bufferStartOffset == placed[j - 1].bufferEndOffset
    decreases |tokens|
  {
    if |tokens| > 0 {
      var screenEnd, bufferEnd := screen + tokens[0].screenExtent, Traverse(buffer, tokens[0].bufferExtent);
      PlacedFromComputed(tokens[1..], placed[1..], screenEnd, bufferEnd);
      assert forall j :: 0 < j < |placed| ==> placed[j] == placed[1..][j - 1] && tokens[j] == tokens[1..][j - 1];
    }
  }

  /** Placed tokens have computed offsets. */
  lemma {:induction false} PlacedComputed(tokens: seq<Token>, placed: seq<PlacedToken>)
    requires TokensPlaced(tokens, placed)
    ensures OffsetsComputed(tokens, placed) && |placed| > 0
  {
    PlacedFromComputed(tokens, placed, 0, ZERO_POINT);
  }

  /** A placed token ends its extents after its start. */
  lemma {:induction false} PlacedSpans(tokens: seq<Token>, placed: seq<PlacedToken>, i: nat)
    requires OffsetsComputed(tokens, placed) && i < |placed|
    ensures placed[i].screenEndOffset == placed[i].screenStartOffset + placed[i].token.screenExtent
    ensures placed[i].bufferEndOffset == Traverse(placed[i].bufferStartOffset, placed[i].token.bufferExtent)
  {
  }

  /** Placing the next token where the previous one ends keeps the offsets computed. */
  lemma {:induction false} PlaceNext(tokens: seq<Token>, placed: seq<PlacedToken>, p: PlacedToken)
    requires OffsetsComputedUpTo(tokens, placed) && |placed| < |tokens|
    requires p.token == tokens[|placed|]
    requires p.screenStartOffset == if |placed| == 0 then 0 else placed[|placed| - 1].screenEndOffset
    requires p.bufferStartOffset == if |placed| == 0 then ZERO_POINT else placed[|placed| - 1].bufferEndOffset
    requires p.screenEndOffset == p.screenStartOffset + p.token.screenExtent
    requires p.bufferEndOffset == Traverse(p.bufferStartOffset, p.token.bufferExtent)
    ensures OffsetsComputedUpTo(tokens, placed + [p])
  {
    var q := placed + [p];
    assert forall j :: 0 <= j < |placed| ==> q[j] == placed[j];
  }

  /**
   * computeTokenOffsets: one pass over the tokens accumulating the screen
   * column and the buffer displacement. A line without tokens is refused.
   */
  method ComputeTokenOffsets(tokens: seq<Token>) returns (placed: Option<seq<PlacedToken>>)
    ensures placed.None? <==> |tokens| == 0
    ensures placed.Some? ==> OffsetsComputed(tokens, placed.value)
  {
    if |tokens| == 0 {
      return None;
    }
    var screenStartOffset := 0;
    var bufferStartOffset := ZERO_POINT;
    var result: seq<PlacedToken> := [];
    for i := 0 to |tokens|
      invariant |result| == i
      invariant OffsetsComputedUpTo(tokens, result)
      invariant i > 0 ==> screenStartOffset == result[i - 1].screenEndOffset
      invariant i > 0 ==> bufferStartOffset == result[i - 1].bufferEndOffset
      invariant i == 0 ==> screenStartOffset == 0 && bufferStartOffset == ZERO_POINT
    {
      var token := tokens[i];
      var screenEndOffset := screenStartOffset + token.screenExtent;
      var bufferEndOffset := Traverse(bufferStartOffset, token.bufferExtent);
      var next := PlacedToken(token, screenStartOffset, screenEndOffset, bufferStartOffset, bufferEndOffset);
      PlaceNext(tokens, result, next);
      result := result + [next];
      screenStartOffset := screenEndOffset;
      bufferStartOffset := bufferEndOffset;
    }
    return Some(result);
  }

  /** The computed offsets are the prefix sums of the token extents. */
  lemma {:induction false} OffsetsArePrefixSums(tokens: seq<Token>, placed: seq<PlacedToken>, j: nat)
    requires OffsetsComputed(tokens, placed)
    requires j < |placed|
    ensures placed[j].screenStartOffset == ScreenWidth(tokens[..j])
    ensures placed[j].screenEndOffset == ScreenWidth(tokens[..j + 1])
    ensures placed[j].bufferStartOffset == BufferWidth(tokens[..j])
    ensures placed[j].bufferEndOffset == BufferWidth(tokens[..j + 1])
  {
    assert tokens[..j + 1][..j] == tokens[..j];
    if j > 0 {
      OffsetsArePrefixSums(tokens, placed, j - 1);
      assert tokens[..j][..j - 1] == tokens[..j - 1];
    }
  }

  /** Offsets never decrease along a line, on screen or in the buffer. */
  lemma {:induction false} OffsetsMonotone(tokens: seq<Token>, placed: seq<PlacedToken>, i: nat, j: nat)
    requires OffsetsComputed(tokens, placed)
    requires i <= j < |placed|
    ensures placed[i].screenStartOffset <= placed[j].screenStartOffset
    ensures placed[i].screenEndOffset <= placed[j].screenEndOffset
    ensures LessEq(placed[i].bufferStartOffset, placed[j].bufferStartOffset)
    ensures LessEq(placed[i].bufferEndOffset, placed[j].bufferEndOffset)
    ensures i < j ==> placed[i].screenEndOffset <= placed[j].screenStartOffset
    ensures i < j ==> LessEq(placed[i].bufferEndOffset, placed[j].bufferStartOffset)
    decreases j - i
  {
    TraverseAdvances(placed[j].bufferStartOffset, tokens[j].bufferExtent);
    if i < j {
      OffsetsMonotone(tokens, placed, i, j - 1);
      TraverseAdvances(placed[j - 1].bufferStartOffset, tokens[j - 1].bufferExtent);
      LessTransitive(placed[i].bufferStartOffset, placed[j - 1].bufferStartOffset, placed[j - 1].bufferEndOffset);
      LessTransitive(placed[i].bufferEndOffset, placed[j - 1].bufferEndOffset, placed[j].bufferStartOffset);
      LessTransitive(placed[i].bufferStartOffset, placed[j - 1].bufferEndOffset, placed[j].bufferStartOffset);
      LessTransitive(placed[i].bufferEndOffset, placed[j].bufferStartOffset, placed[j].bufferEndOffset);
    }
  }

  // ---------------------------------------------------------------------------
  // Aggregates over a flat list of screen lines
  // ---------------------------------------------------------------------------

  function Max(a: int, b: int): int {
    if a < b then b else a
  }

  /** The buffer displacement of a run of lines: their extents folded with Traverse from ZERO_POINT. */
  function TotalExtent(ls: seq<ScreenLine>): Point {
    if ls == [] then ZERO_POINT else Traverse(TotalExtent(ls[..|ls| - 1]), ls[|ls| - 1].bufferExtent)
  }

  /** The longest screen extent of a run of lines, -1 for no lines. */
  function MaxLength(ls: seq<ScreenLine>): int {
    if ls == [] then -1 else Max(MaxLength(ls[..|ls| - 1]), ls[|ls| - 1].screenExtent)
  }

  /** Buffer start of row `i`: where the lines before it end. */
  function LineStart(ls: seq<ScreenLine>, i: nat): Point
    requires i <= |ls|
  {
    TotalExtent(ls[..i])
  }

  /** Buffer end of row `i`. */
  function LineEnd(ls: seq<ScreenLine>, i: nat): (e: Point)
    requires i < |ls|
    ensures e == Traverse(LineStart(ls, i), ls[i].bufferExtent)
  {
    assert ls[..i + 1][..i] == ls[..i];
    TotalExtent(ls[..i + 1])
  }

  /** The extent of two runs of lines is the traversal of one extent by the other. */
  lemma {:induction false} TotalExtentAppend(a: seq<ScreenLine>, b: seq<ScreenLine>)
    ensures TotalExtent(a + b) == Traverse(TotalExtent(a), TotalExtent(b))
    decreases |b|
  {
    if b == [] {
      assert a + b == a;
      TraverseZero(TotalExtent(a));
    } else {
      var b' := b[..|b| - 1];
      assert (a + b)[..|a + b| - 1] == a + b';
      TotalExtentAppend(a, b');
      TraverseAssociative(TotalExtent(a), TotalExtent(b'), b[|b| - 1].bufferExtent);
    }
  }

  lemma {:induction false} MaxLengthAppend(a: seq<ScreenLine>, b: seq<ScreenLine>)
    ensures MaxLength(a + b) == Max(MaxLength(a), MaxLength(b))
    decreases |b|
  {
    if b == [] {
      assert a + b == a;
      MaxLengthAtLeastMinusOne(a);
    } else {
      var b' := b[..|b| - 1];
      assert (a + b)[..|a + b| - 1] == a + b';
      MaxLengthAppend(a, b');
    }
  }

  lemma {:induction false} MaxLengthAtLeastMinusOne(ls: seq<ScreenLine>)
    ensures MaxLength(ls) >= -1
    ensures MaxLength(ls) == -1 <==> ls == []
    decreases |ls|
  {
    if ls != [] {
      MaxLengthAtLeastMinusOne(ls[..|ls| - 1]);
    }
  }

  /** MaxLength bounds every line's screen extent and is the extent of some line, or -1 for none. */
  lemma {:induction false} MaxLengthIsMaximum(ls: seq<ScreenLine>)
    ensures forall i :: 0 <= i < |ls| ==> ls[i].screenExtent <= MaxLength(ls)
    ensures ls == [] <==> MaxLength(ls) == -1
    ensures ls != [] ==> exists i :: 0 <= i < |ls| && ls[i].screenExtent == MaxLength(ls)
    decreases |ls|
  {
    MaxLengthAtLeastMinusOne(ls);
    if ls != [] {
      var init := ls[..|ls| - 1];
      MaxLengthIsMaximum(init);
      assert forall i :: 0 <= i < |init| ==> init[i] == ls[i];
      if MaxLength(init) < ls[|ls| - 1].screenExtent {
        assert ls[|ls| - 1].screenExtent == MaxLength(ls);
      } else {
        var k :| 0 <= k < |init| && init[k].screenExtent == MaxLength(init);
        assert ls[k].screenExtent == MaxLength(ls);
      }
    }
  }

  /** Line starts never decrease with the row. */
  lemma {:induction false} LineStartMonotone(ls: seq<ScreenLine>, i: nat, j: nat)
    requires i <= j <= |ls|
    ensures LessEq(LineStart(ls, i), LineStart(ls, j))
  {
    assert ls[..j] == ls[..i] + ls[i..j];
    TotalExtentAppend(ls[..i], ls[i..j]);
    TraverseAdvances(TotalExtent(ls[..i]), TotalExtent(ls[i..j]));
  }

  /** The buffer end of the last row is the extent of all lines. */
  lemma {:induction false} LastLineEnd(ls: seq<ScreenLine>)
    requires |ls| > 0
    ensures LineEnd(ls, |ls| - 1) == TotalExtent(ls)
  {
    assert ls[..|ls|] == ls;
  }

  // ---------------------------------------------------------------------------
  // Seeking a buffer position among the lines
  // ---------------------------------------------------------------------------

  /**
   * `row` is the line a buffer position `t` belongs to: the first row whose
   * buffer end is at or after `t`, or the last row when `t` is past them all.
   */
  ghost predicate IsBufferRowFor(ls: seq<ScreenLine>, t: Point, row: int) {
    0 <= row < |ls| &&
    (forall j :: 0 <= j < row ==> Less(LineEnd(ls, j), t)) &&
    (row == |ls| - 1 || LessEq(t, LineEnd(ls, row)))
  }

  /** At most one row satisfies IsBufferRowFor. */
  lemma {:induction false} BufferRowUnique(ls: seq<ScreenLine>, t: Point, r1: int, r2: int)
    requires IsBufferRowFor(ls, t, r1) && IsBufferRowFor(ls, t, r2)
    ensures r1 == r2
  {
    if r1 < r2 {
      assert Less(LineEnd(ls, r1), t);
      LessTotal(LineEnd(ls, r1), t);
    } else if r2 < r1 {
      assert Less(LineEnd(ls, r2), t);
      LessTotal(LineEnd(ls, r2), t);
    }
  }

  /** The buffer row of `t` starts at or before `t`, and ends at or after it unless `t` is past the end of the lines. */
  lemma {:induction false} BufferRowContains(ls: seq<ScreenLine>, t: Point, row: int)
    requires IsBufferRowFor(ls, t, row)
    ensures LessEq(LineStart(ls, row), t)
    ensures LessEq(t, LineEnd(ls, row)) || Less(TotalExtent(ls), t)
  {
    if row > 0 {
      assert LineEnd(ls, row - 1) == LineStart(ls, row) by {
        assert ls[..row][..row - 1] == ls[..row - 1];
      }
      assert Less(LineEnd(ls, row - 1), t);
    }
    if row == |ls| - 1 {
      LastLineEnd(ls);
      LessTotal(t, TotalExtent(ls));
    }
  }

  /** Every row ending at or before the start of row `r` ends before `t` once row `r` starts before `t`. */
  lemma {:induction false} EndsBefore(ls: seq<ScreenLine>, t: Point, lo: nat, r: nat)
    requires lo <= r <= |ls|
    requires forall j :: 0 <= j < lo ==> Less(LineEnd(ls, j), t)
    requires Less(LineStart(ls, r), t)
    ensures forall j :: 0 <= j < r ==> Less(LineEnd(ls, j), t)
  {
    forall j | lo <= j < r
      ensures Less(LineEnd(ls, j), t)
    {
      assert LineEnd(ls, j) == LineStart(ls, j + 1);
      LineStartMonotone(ls, j + 1, r);
      LessTransitive(LineEnd(ls, j), LineStart(ls, r), t);
    }
  }

  /**
   * What a search for `t` knows about the rows `lo` to `hi` it has narrowed
   * down to: the first of them starts before `t` (so every row before it
   * ends before `t`), unless it is row 0, and `t` is at or before the
   * start of the row after them.
   */
  ghost predicate Bracketed(ls: seq<ScreenLine>, t: Point, lo: nat, hi: nat) {
    lo <= hi <= |ls| &&
    (lo > 0 ==> Less(LineStart(ls, lo), t)) &&
    (hi < |ls| ==> LessEq(t, LineStart(ls, hi)))
  }

  /** All rows are bracketed before the search starts. */
  lemma {:induction false} BracketedAll(ls: seq<ScreenLine>, t: Point)
    ensures Bracketed(ls, t, 0, |ls|)
  {
  }

  /**
   * One step of a search for `t` at row `r`, whose line runs from `start`
   * to `end`: when `t` is at or before the start, the rows before `r` stay
   * bracketed; when it is past the end, the rows after `r` do; and the
   * search may stop at `r` when `t` is inside its line, or when no rows are
   * left on the side `t` would go to. There `r` is the buffer row of `t`.
   */
  lemma {:induction false} BracketedStep(ls: seq<ScreenLine>, t: Point, lo: nat, r: nat, hi: nat, start: Point, end: Point)
    requires Bracketed(ls, t, lo, hi) && lo <= r < hi
    requires start == LineStart(ls, r) && end == LineEnd(ls, r)
    ensures Compare(t, start) <= 0 ==> Bracketed(ls, t, lo, r)
    ensures Compare(t, end) > 0 ==> Bracketed(ls, t, r + 1, hi)
    ensures Compare(t, start) <= 0 && lo == r ==> IsBufferRowFor(ls, t, r)
    ensures Compare(t, start) > 0 && Compare(t, end) <= 0 ==> IsBufferRowFor(ls, t, r)
    ensures Compare(t, end) > 0 && hi == r + 1 ==> IsBufferRowFor(ls, t, r)
  {
    NextLineStart(ls, r);
    TraverseAdvances(start, ls[r].bufferExtent);
    if Compare(t, start) <= 0 {
      LessTransitive(t, start, end);
    } else if Compare(t, end) <= 0 {
      EndsBefore(ls, t, 0, r);
    } else {
      LessTransitive(start, end, t);
      EndsBefore(ls, t, 0, r);
    }
  }

  /** A line ends where its start is moved past its own buffer extent. */
  lemma {:induction false} EndFromStart(ls: seq<ScreenLine>, i: nat, start: Point, end: Point)
    requires i < |ls| && start == LineStart(ls, i) && end == Traverse(start, ls[i].bufferExtent)
    ensures end == LineEnd(ls, i)
  {
  }

  /** The buffer end of a row is the buffer start of the next one. */
  lemma {:induction false} NextLineStart(ls: seq<ScreenLine>, i: nat)
    requires i < |ls|
    ensures LineEnd(ls, i) == LineStart(ls, i + 1)
  {
  }

  // ---------------------------------------------------------------------------
  // Array splice
  // ---------------------------------------------------------------------------

  /**
   * `Array.prototype.splice(start, count, ...ins)` on `s`: the start is
   * clamped to the length, and so is the number of deleted items.
   */
  function SpliceSeq<T>(s: seq<T>, start: nat, count: nat, ins: seq<T>): (r: seq<T>)
    ensures start + count <= |s| ==> r == s[..start] + ins + s[start + count..]
    ensures |s| <= start ==> r == s + ins
  {
    var first := if start <= |s| then start else |s|;
    var last := if first + count <= |s| then first + count else |s|;
    assert |s| <= start ==> s[..first] == s && s[last..] == [];
    s[..first] + ins + s[last..]
  }

  /** The items SpliceSeq removes. */
  function SplicedOut<T>(s: seq<T>, start: nat, count: nat): (r: seq<T>)
    ensures start + count <= |s| ==> r == s[start..start + count]
    ensures |s| <= start ==> r == []
  {
    var first := if start <= |s| then start else |s|;
    var last := if first + count <= |s| then first + count else |s|;
    s[first..last]
  }

  /** The removed items followed by what is left reconstruct the original run. */
  lemma {:induction false} SpliceSeqParts<T>(s: seq<T>, start: nat, count: nat, ins: seq<T>)
    requires start <= |s|
    ensures s == s[..start] + SplicedOut(s, start, count) + s[start + |SplicedOut(s, start, count)|..]
    ensures SpliceSeq(s, start, count, ins) == s[..start] + ins + s[start + |SplicedOut(s, start, count)|..]
  {
  }
  /**
   * What the tree's splice does to its rows: SpliceSeq while `start` is at
   * most the length. A start past the end finds neither neighbour row, so
   * every row is replaced.
   */
  function TreeSplice<T>(s: seq<T>, start: nat, count: nat, ins: seq<T>): seq<T> {
    if start <= |s| then SpliceSeq(s, start, count, ins) else ins
  }

  /** The rows the tree's splice removes. */
  function TreeSplicedOut<T>(s: seq<T>, start: nat, count: nat): seq<T> {
    if start <= |s| then SplicedOut(s, start, count) else s
  }

  /** Splicing between two kept rows `x` and `y`. */
  lemma {:induction false} SpliceBetween<T>(s: seq<T>, a: seq<T>, x: T, b: seq<T>, y: T, c: seq<T>, start: nat, count: nat, ins: seq<T>)
    requires s == a + [x] + b + [y] + c && |a| + 1 == start && |b| == count
    ensures TreeSplice(s, start, count, ins) == a + [x] + ins + [y] + c
    ensures TreeSplicedOut(s, start, count) == b
  {
    assert s[..start] == a + [x];
    assert s[start..start + count] == b;
    assert s[start + count..] == [y] + c;
  }

  /** Splicing after a kept row `x`, up to the end. */
  lemma {:induction false} SpliceAfter<T>(s: seq<T>, a: seq<T>, x: T, b: seq<T>, start: nat, count: nat, ins: seq<T>)
    requires s == a + [x] + b && |a| + 1 == start && |s| <= start + count
    ensures TreeSplice(s, start, count, ins) == a + [x] + ins
    ensures TreeSplicedOut(s, start, count) == b
  {
    assert s[..start] == a + [x];
    assert s[start..] == b;
  }

  /** Splicing from the first row up to a kept row `y`. */
  lemma {:induction false} SpliceBefore<T>(s: seq<T>, b: seq<T>, y: T, c: seq<T>, count: nat, ins: seq<T>)
    requires s == b + [y] + c && |b| == count
    ensures TreeSplice(s, 0, count, ins) == ins + [y] + c
    ensures TreeSplicedOut(s, 0, count) == b
  {
    assert s[..count] == b;
    assert s[count..] == [y] + c;
  }

  /** Splicing with no kept row on either side replaces everything. */
  lemma {:induction false} SpliceEverything<T>(s: seq<T>, start: nat, count: nat, ins: seq<T>)
    requires (start == 0 && |s| <= count) || |s| < start
    ensures TreeSplice(s, start, count, ins) == ins
    ensures TreeSplicedOut(s, start, count) == s
  {
    assert s[..0] == [] && s[|s|..] == [] && s[0..|s|] == s;
  }
}
