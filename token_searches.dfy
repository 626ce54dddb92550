/**
 * The token search inside one line that the token iterator runs after it
 * has found the line (src/token-iterator.js, seekToScreenPosition and
 * seekToBufferPosition): a binary search over the line's placed tokens, a
 * rewind over empty tokens that start at the target, and the decision to
 * advance past a token the target ends. Each phase is one method; the
 * predicates `ScreenSought` and `BufferSought` say which token the three
 * phases together land on.
 */
module TokenSearches {
  import opened Points
  import opened ScreenLines

  /** A target screen column; a row past the last is clipped to column Infinity. */
  datatype Column = At(column: nat) | Infinity

  /** `targetColumn <= x` of the source, where Infinity is above every column. */
  predicate ColumnAtMost(t: Column, x: nat) {
    t.At? && t.column <= x
  }

  // ---------------------------------------------------------------------------
  // Order of the placed tokens
  // ---------------------------------------------------------------------------

  /**
   * On screen, every token ends after it starts, where the next token starts
   * and before every later token starts.
   */
  ghost predicate ScreenOrdered(placed: seq<PlacedToken>) {
    (forall i :: 0 <= i < |placed| ==> placed[i].screenStartOffset <= placed[i].screenEndOffset) &&
    (forall i :: 0 < i < |placed| ==> placed[i].screenStartOffset == placed[i - 1].screenEndOffset) &&
    (forall i, j :: 0 <= i < j < |placed| ==> placed[i].screenEndOffset <= placed[j].screenStartOffset)
  }

  /** The same in the buffer, under the point order. */
  ghost predicate BufferOrdered(placed: seq<PlacedToken>) {
    (forall i :: 0 <= i < |placed| ==> LessEq(placed[i].bufferStartOffset, placed[i].bufferEndOffset)) &&
    (forall i, j :: 0 <= i < j < |placed| ==> LessEq(placed[i].bufferEndOffset, placed[j].bufferStartOffset))
  }

  /** Computed offsets are ordered on screen and in the buffer. */
  lemma {:induction false} ComputedOrdered(tokens: seq<Token>, placed: seq<PlacedToken>)
    requires OffsetsComputed(tokens, placed)
    ensures ScreenOrdered(placed) && BufferOrdered(placed)
  {
    forall i, j | 0 <= i < j < |placed|
      ensures placed[i].screenEndOffset <= placed[j].screenStartOffset
      ensures LessEq(placed[i].bufferEndOffset, placed[j].bufferStartOffset)
    {
      OffsetsMonotone(tokens, placed, i, j);
    }
    forall i | 0 <= i < |placed|
      ensures LessEq(placed[i].bufferStartOffset, placed[i].bufferEndOffset)
    {
      TraverseAdvances(placed[i].bufferStartOffset, tokens[i].bufferExtent);
    }
  }

  // ---------------------------------------------------------------------------
  // Screen search
  // ---------------------------------------------------------------------------

  /**
   * Where the binary search stops: on a token that starts before the target
   * and ends at or after it, or on the first token for a target at or before
   * its start, or on the last token for a target after its end.
   */
  ghost predicate ScreenSearched(placed: seq<PlacedToken>, t: Column, i: nat) {
    i < |placed| &&
    ((!ColumnAtMost(t, placed[i].screenStartOffset) && ColumnAtMost(t, placed[i].screenEndOffset)) ||
     (i == 0 && ColumnAtMost(t, placed[0].screenStartOffset)) ||
     (i == |placed| - 1 && !ColumnAtMost(t, placed[i].screenEndOffset)))
  }

  /**
   * The token the screen seek lands on: the last token for a target past the
   * line's end; otherwise a token whose range holds the target, and the first
   * token that starts at the target when there is one.
   */
  ghost predicate ScreenSought(placed: seq<PlacedToken>, t: Column, i: int) {
    0 <= i < |placed| &&
    (!ColumnAtMost(t, placed[|placed| - 1].screenEndOffset) ==> i == |placed| - 1) &&
    (ColumnAtMost(t, placed[|placed| - 1].screenEndOffset) ==>
      t.At? && placed[i].screenStartOffset <= t.column <= placed[i].screenEndOffset) &&
    ((exists j :: 0 <= j < |placed| && t == At(placed[j].screenStartOffset)) ==>
      t == At(placed[i].screenStartOffset) && forall j :: 0 <= j < i ==> t != At(placed[j].screenStartOffset))
  }

  /** A target after token `i` ends is after every earlier token ends; one at or before token `i` starts is at or before every later start. */
  lemma {:induction false} ScreenBounds(tokens: seq<Token>, placed: seq<PlacedToken>, i: nat, t: Column)
    requires OffsetsComputed(tokens, placed) && i < |placed|
    ensures !ColumnAtMost(t, placed[i].screenEndOffset) ==> forall j :: 0 <= j <= i ==> !ColumnAtMost(t, placed[j].screenEndOffset)
    ensures ColumnAtMost(t, placed[i].screenStartOffset) ==> forall j :: i <= j < |placed| ==> ColumnAtMost(t, placed[j].screenStartOffset)
  {
    forall j | 0 <= j < |placed|
      ensures j <= i ==> placed[j].screenEndOffset <= placed[i].screenEndOffset
      ensures i <= j ==> placed[i].screenStartOffset <= placed[j].screenStartOffset
    {
      if j <= i {
        OffsetsMonotone(tokens, placed, j, i);
      } else {
        OffsetsMonotone(tokens, placed, i, j);
      }
    }
  }

  /** Each token starts on screen where the previous one ends. */
  lemma {:induction false} ScreenJoin(tokens: seq<Token>, placed: seq<PlacedToken>, k: nat)
    requires OffsetsComputed(tokens, placed) && k <= |placed|
    ensures 0 < k < |placed| ==> placed[k].screenStartOffset == placed[k - 1].screenEndOffset
  {
  }

  /** The binary search of seekToScreenPosition over the line's tokens. */
  method SearchScreen(ghost tokens: seq<Token>, placed: seq<PlacedToken>, target: Column) returns (index: nat)
    requires OffsetsComputed(tokens, placed) && |placed| > 0
    ensures ScreenSearched(placed, target, index)
  {
    var startIndex, endIndex := 0, |placed|;
    index := 0;
    while startIndex < endIndex
      invariant 0 <= startIndex <= endIndex <= |placed| && index < |placed|
      invariant forall j :: 0 <= j < startIndex ==> !ColumnAtMost(target, placed[j].screenEndOffset)
      invariant forall j :: endIndex <= j < |placed| ==> ColumnAtMost(target, placed[j].screenStartOffset)
      invariant (startIndex == 0 && endIndex == |placed|) || index + 1 == startIndex || index == endIndex
      decreases endIndex - startIndex
    {
      index := (startIndex + endIndex) / 2;
      var token := placed[index];
      ScreenBounds(tokens, placed, index, target);
      if ColumnAtMost(target, token.screenStartOffset) {
        endIndex := index;
      } else if ColumnAtMost(target, token.screenEndOffset) {
        return;
      } else {
        startIndex := index + 1;
      }
    }
    ScreenJoin(tokens, placed, startIndex);
  }

  /** The rewind of seekToScreenPosition: back over the tokens that start at the target. */
  method RewindScreen(placed: seq<PlacedToken>, target: Column, index: nat) returns (i: nat)
    requires index < |placed|
    ensures i <= index
    ensures forall j :: i < j <= index ==> target == At(placed[j].screenStartOffset)
    ensures i == 0 || target != At(placed[i].screenStartOffset)
  {
    i := index;
    while target == At(placed[i].screenStartOffset) && i > 0
      invariant i <= index
      invariant forall j :: i < j <= index ==> target == At(placed[j].screenStartOffset)
    {
      i := i - 1;
    }
  }

  /** The advance of seekToScreenPosition: past a token the target ends, unless it is empty or the last. */
  predicate ScreenAdvances(placed: seq<PlacedToken>, target: Column, i: nat)
    requires i < |placed|
  {
    target == At(placed[i].screenEndOffset) && placed[i].token.screenExtent > 0 && i < |placed| - 1
  }

  /** The three phases together land on the token ScreenSought describes. */
  lemma {:induction false} ScreenSeekLands(tokens: seq<Token>, placed: seq<PlacedToken>, t: Column, index: nat, i: nat)
    requires OffsetsComputed(tokens, placed) && |placed| > 0
    requires ScreenSearched(placed, t, index)
    requires i <= index
    requires forall j :: i < j <= index ==> t == At(placed[j].screenStartOffset)
    requires i == 0 || t != At(placed[i].screenStartOffset)
    ensures i == index
    ensures ScreenSought(placed, t, if ScreenAdvances(placed, t, i) then i + 1 else i)
  {
    ComputedOrdered(tokens, placed);
    ghost var atIndex := placed[index].screenStartOffset;
    assert i < index ==> t == At(atIndex);
  }

  /** At most one token fits ScreenSought: the seek's landing token is determined. */
  lemma {:induction false} ScreenSoughtUnique(tokens: seq<Token>, placed: seq<PlacedToken>, t: Column, i1: int, i2: int)
    requires OffsetsComputed(tokens, placed) && |placed| > 0
    requires ScreenSought(placed, t, i1) && ScreenSought(placed, t, i2)
    ensures i1 == i2
  {
    ComputedOrdered(tokens, placed);
  }

  // ---------------------------------------------------------------------------
  // Buffer search
  // ---------------------------------------------------------------------------

  /** Where the binary search of seekToBufferPosition stops, as ScreenSearched in the buffer. */
  ghost predicate BufferSearched(placed: seq<PlacedToken>, t: Point, i: nat) {
    i < |placed| &&
    ((Less(placed[i].bufferStartOffset, t) && LessEq(t, placed[i].bufferEndOffset)) ||
     (i == 0 && LessEq(t, placed[0].bufferStartOffset)) ||
     (i == |placed| - 1 && Less(placed[i].bufferEndOffset, t)))
  }

  /**
   * The token the buffer seek lands on, for an offset `t` inside the line:
   * the last token for an offset past the last token's end; otherwise a
   * token whose range holds `t`, and the first token that starts at `t` when
   * there is one.
   */
  ghost predicate BufferSought(placed: seq<PlacedToken>, t: Point, i: int) {
    0 <= i < |placed| &&
    (Less(placed[|placed| - 1].bufferEndOffset, t) ==> i == |placed| - 1) &&
    (LessEq(t, placed[|placed| - 1].bufferEndOffset) ==>
      LessEq(placed[i].bufferStartOffset, t) && LessEq(t, placed[i].bufferEndOffset)) &&
    ((exists j :: 0 <= j < |placed| && t == placed[j].bufferStartOffset) ==>
      t == placed[i].bufferStartOffset && forall j :: 0 <= j < i ==> t != placed[j].bufferStartOffset)
  }

  /** Tokens up to `i` start, and end, no later than token `i` does. */
  lemma {:induction false} BufferBelow(tokens: seq<Token>, placed: seq<PlacedToken>, i: nat, t: Point)
    requires OffsetsComputed(tokens, placed) && i < |placed|
    ensures Less(placed[i].bufferStartOffset, t) ==> forall j :: 0 <= j <= i ==> Less(placed[j].bufferStartOffset, t)
    ensures Less(placed[i].bufferEndOffset, t) ==> forall j :: 0 <= j <= i ==> Less(placed[j].bufferEndOffset, t)
  {
    forall j | 0 <= j <= i
      ensures LessEq(placed[j].bufferStartOffset, placed[i].bufferStartOffset)
      ensures LessEq(placed[j].bufferEndOffset, placed[i].bufferEndOffset)
    {
      OffsetsMonotone(tokens, placed, j, i);
    }
  }

  /** Tokens from `i` on start, and end, no earlier than token `i` does, and later ones start after it ends. */
  lemma {:induction false} BufferAbove(tokens: seq<Token>, placed: seq<PlacedToken>, i: nat, t: Point)
    requires OffsetsComputed(tokens, placed) && i < |placed|
    ensures LessEq(t, placed[i].bufferStartOffset) ==> forall j :: i <= j < |placed| ==> LessEq(t, placed[j].bufferStartOffset)
    ensures LessEq(t, placed[i].bufferEndOffset) ==> forall j :: i <= j < |placed| ==> LessEq(t, placed[j].bufferEndOffset)
    ensures LessEq(t, placed[i].bufferEndOffset) ==> forall j :: i < j < |placed| ==> LessEq(t, placed[j].bufferStartOffset)
  {
    forall j | i <= j < |placed|
      ensures LessEq(placed[i].bufferStartOffset, placed[j].bufferStartOffset)
      ensures LessEq(placed[i].bufferEndOffset, placed[j].bufferEndOffset)
      ensures i < j ==> LessEq(placed[i].bufferEndOffset, placed[j].bufferStartOffset)
    {
      OffsetsMonotone(tokens, placed, i, j);
    }
  }

  /** Each token starts where the previous one ends. */
  lemma {:induction false} BufferJoin(tokens: seq<Token>, placed: seq<PlacedToken>, k: nat)
    requires OffsetsComputed(tokens, placed) && k <= |placed|
    ensures 0 < k < |placed| ==> placed[k].bufferStartOffset == placed[k - 1].bufferEndOffset
  {
  }

  /** A token ends at or after its start, and at its start exactly when its buffer extent is zero. */
  lemma {:induction false} BufferWithin(tokens: seq<Token>, placed: seq<PlacedToken>, i: nat)
    requires OffsetsComputed(tokens, placed) && i < |placed|
    ensures LessEq(placed[i].bufferStartOffset, placed[i].bufferEndOffset)
    ensures placed[i].bufferStartOffset == placed[i].bufferEndOffset <==> IsZero(placed[i].token.bufferExtent)
  {
    TraverseAdvances(placed[i].bufferStartOffset, tokens[i].bufferExtent);
  }

  /** The binary search of seekToBufferPosition over the line's tokens. */
  method SearchBuffer(ghost tokens: seq<Token>, placed: seq<PlacedToken>, target: Point) returns (index: nat)
    requires OffsetsComputed(tokens, placed) && |placed| > 0
    ensures BufferSearched(placed, target, index)
  {
    var startIndex, endIndex := 0, |placed|;
    index := 0;
    while startIndex < endIndex
      invariant 0 <= startIndex <= endIndex <= |placed| && index < |placed|
      invariant forall j :: 0 <= j < startIndex ==> Less(placed[j].bufferEndOffset, target)
      invariant forall j :: endIndex <= j < |placed| ==> LessEq(target, placed[j].bufferStartOffset)
      invariant (startIndex == 0 && endIndex == |placed|) || index + 1 == startIndex || index == endIndex
      decreases endIndex - startIndex
    {
      index := (startIndex + endIndex) / 2;
      var token := placed[index];
      BufferBelow(tokens, placed, index, target);
      BufferAbove(tokens, placed, index, target);
      if Compare(target, token.bufferStartOffset) <= 0 {
        endIndex := index;
      } else if Compare(target, token.bufferEndOffset) <= 0 {
        return;
      } else {
        startIndex := index + 1;
      }
    }
    BufferJoin(tokens, placed, startIndex);
  }

  /** The rewind of seekToBufferPosition: back over the tokens that start at the target. */
  method RewindBuffer(placed: seq<PlacedToken>, target: Point, index: nat) returns (i: nat)
    requires index < |placed|
    ensures i <= index
    ensures forall j :: i < j <= index ==> target == placed[j].bufferStartOffset
    ensures i == 0 || target != placed[i].bufferStartOffset
  {
    i := index;
    while Compare(target, placed[i].bufferStartOffset) == 0 && i > 0
      invariant i <= index
      invariant forall j :: i < j <= index ==> target == placed[j].bufferStartOffset
    {
      i := i - 1;
    }
  }

  /** The advance of seekToBufferPosition: past a token the target ends, unless it is empty or the last. */
  predicate BufferAdvances(placed: seq<PlacedToken>, target: Point, i: nat)
    requires i < |placed|
  {
    Compare(target, placed[i].bufferEndOffset) == 0 && !IsZero(placed[i].token.bufferExtent) && i < |placed| - 1
  }

  /** A search that stopped inside token `i` lands on it, or on the next token when `t` is where `i` ends. */
  lemma {:induction false} BufferLandsInside(tokens: seq<Token>, placed: seq<PlacedToken>, t: Point, i: nat)
    requires OffsetsComputed(tokens, placed) && i < |placed|
    requires Less(placed[i].bufferStartOffset, t) && LessEq(t, placed[i].bufferEndOffset)
    ensures BufferSought(placed, t, if BufferAdvances(placed, t, i) then i + 1 else i)
  {
    BufferBelow(tokens, placed, i, t);
    BufferAbove(tokens, placed, i, t);
    BufferWithin(tokens, placed, i);
    if BufferAdvances(placed, t, i) {
      BufferJoin(tokens, placed, i + 1);
      BufferAbove(tokens, placed, i + 1, t);
    } else {
      BufferAbove(tokens, placed, i, placed[i].bufferEndOffset);
    }
  }

  /** A search that stopped on the first token with the target at its start stays there. */
  lemma {:induction false} BufferLandsFirst(tokens: seq<Token>, placed: seq<PlacedToken>, t: Point)
    requires OffsetsComputed(tokens, placed) && |placed| > 0
    requires LessEq(t, placed[0].bufferStartOffset)
    ensures !BufferAdvances(placed, t, 0) && BufferSought(placed, t, 0)
  {
    BufferWithin(tokens, placed, 0);
  }

  /** A search that stopped on the last token with the target past its end stays there. */
  lemma {:induction false} BufferLandsLast(tokens: seq<Token>, placed: seq<PlacedToken>, t: Point)
    requires OffsetsComputed(tokens, placed) && |placed| > 0
    requires Less(placed[|placed| - 1].bufferEndOffset, t)
    ensures BufferSought(placed, t, |placed| - 1)
  {
    BufferWithin(tokens, placed, |placed| - 1);
    BufferBelow(tokens, placed, |placed| - 1, t);
  }

  /** The three phases of the buffer seek land on the token BufferSought describes. */
  lemma {:induction false} BufferSeekLands(tokens: seq<Token>, placed: seq<PlacedToken>, t: Point, index: nat, i: nat)
    requires OffsetsComputed(tokens, placed) && |placed| > 0
    requires BufferSearched(placed, t, index)
    requires i <= index
    requires forall j :: i < j <= index ==> t == placed[j].bufferStartOffset
    requires i == 0 || t != placed[i].bufferStartOffset
    ensures i == index
    ensures BufferSought(placed, t, if BufferAdvances(placed, t, i) then i + 1 else i)
  {
    BufferWithin(tokens, placed, index);
    ghost var atIndex := placed[index].bufferStartOffset;
    assert i < index ==> t == atIndex;
    if Less(placed[index].bufferStartOffset, t) && LessEq(t, placed[index].bufferEndOffset) {
      BufferLandsInside(tokens, placed, t, index);
    } else if index == 0 && LessEq(t, placed[0].bufferStartOffset) {
      BufferLandsFirst(tokens, placed, t);
    } else {
      BufferLandsLast(tokens, placed, t);
    }
  }

  /** At most one token fits BufferSought. */
  lemma {:induction false} BufferSoughtUnique(tokens: seq<Token>, placed: seq<PlacedToken>, t: Point, i1: int, i2: int)
    requires OffsetsComputed(tokens, placed) && |placed| > 0
    requires BufferSought(placed, t, i1) && BufferSought(placed, t, i2)
    ensures i1 == i2
  {
    ComputedOrdered(tokens, placed);
  }
}
