# display-index in Dafny

A model of the display index of the Atom editor's `display-index` library, with proofs about it. The index is an ordered list of *screen lines*. Each screen line is a list of *tokens*. Every token has a screen extent (a column count) and a buffer extent (a row/column displacement in the text buffer).

The lines are kept in a treap. This is a binary tree ordered by screen row and heap-ordered by random priorities. Every node caches three aggregates of its subtree: the row count, the longest screen extent, and the buffer extent. A *line iterator* walks the tree. It records where the current line starts and ends in the buffer. A *token iterator* sits on top of it and binary-searches the tokens of a line by screen column or by buffer position. Two flat, array-based reference indexes sit beside the tree. They answer the same questions by linear scans.

The model has these parts:

* **Points** (`points.dfy`): the point helpers. These are comparison, `minPoint`, `traverse` and `traversalDistance`, on the index's points and on the signed positions a caller may pass to a translation.
* **ScreenLines** (`screen_lines.dfy`):
  * tokens and lines;
  * the token offsets that `computeTokenOffsets` stores;
  * the flat meaning of the tree's aggregates: `TotalExtent`, `MaxLength`, and the buffer start and end of a row;
  * `Array.prototype.splice`, and what the tree's splice does to the rows.
* **TreeShapes, TreePaths, TreeRotations, TreeSplices**: the treap as an arena. The arena is a `seq<LineNode>` of node records linked by parent, left and right indices, with `NIL` standing for `null`. A ghost `Tree` gives its shape. `Linked` ties each record's links to that shape, and `Summarized` ties each record's cached aggregates to its children.
* **LineTrees** (`line_trees.dfy`): the class `LineTree`. Its fields are the arena, the root and the ghost shape. Its methods are the node operations of `LineNode` and the tree operations that `DisplayIndex` and `ScreenLineIndex` share:
  * the rotations;
  * bubbling a node up or down;
  * building a balanced subtree of new lines, each child's priority drawn at or above its parent's;
  * the splice itself.

  The id counter and the random generator are small classes of their own.
* **LineIterators, TokenSearches, TokenIterators**: `LineIterator` and `TokenIterator` as classes over a `LineTree`. `TokenSearches` holds the two binary searches and what they find.
* **DisplayIndexes, ScreenLineIndexes**: the two public index classes. Each wraps a `LineTree`.
* **ReferenceLines, ReferenceDisplayIndexes, ReferenceScreenLineIndexes**: the reference indexes of `test/reference-display-index.js` and `test/reference-screen-line-index.js`, and their line and token iterators. `ReferenceLines` holds the linear scans they share and the lemmas that relate their answers to the tree's.

A JavaScript exception is modelled in one of three ways:

* an `Option` result where the source returns `null`;
* `threw: bool` or `Outcome.Threw` where the source throws after changing state;
* `None` from a function that otherwise returns a value.

## Model

| member | source | states |
|---|---|---|
| Points.Compare | src/token-iterator.js:106-109 | `compare` is 0 exactly for equal points, negative exactly when the first is before the second in (row, column) order, positive exactly when it is after, and always -1, 0 or 1 |
| Points.MinPoint | src/token-iterator.js:89 | `minPoint` returns one of its two arguments and is at or before both |
| Points.TraversalDistance | src/token-iterator.js:97 | the distance from `from` to a later `to` is the displacement that `traverse` carries from `from` onto `to` |
| Points.LessTransitive | src/line-iterator.js:55-62 | the point order is transitive, and strict when either step is strict |
| Points.LessTotal | src/line-iterator.js:55-62 | any two points are ordered one way, equal, or ordered the other way, and never both before and at-or-after |
| Points.TraverseZero | src/line-node.js:24 | `ZERO_POINT` is the identity displacement on both sides of `traverse` |
| Points.TraverseAssociative | src/line-node.js:53 | `traverse` is associative, so a subtree's buffer extent does not depend on how its lines are grouped |
| Points.TraverseAdvances | src/line-iterator.js:133-134 | a traversal never moves a point backwards, and leaves it in place exactly for a zero displacement (`isZero`) |
| Points.TraverseMonotone | src/line-iterator.js:133-134 | traversing one displacement from two ordered starts keeps them ordered |
| Points.TraverseOrderEmbedding | src/token-iterator.js:204 | from a fixed start, `traverse` orders and identifies results exactly as it orders and identifies displacements |
| Points.DistanceOfTraverse | src/token-iterator.js:97 | the traversal distance from a start to the point a displacement reaches is that displacement |
| Points.MinPosition | test/reference-display-index.js:263 | `minPoint` on positions with any integer coordinates returns one of its arguments, at or before both |
| Points.PositionDistance | src/token-iterator.js:204 | `traversalDistance` on integer positions is undone by `traverse`, in whichever order the two positions are |
| Points.BeforeAgrees | src/token-iterator.js:200 | on points, the order of positions is the order of points |
| Points.PositionHelpersAgree | src/token-iterator.js:204 | on points, `traverse`, `traversalDistance` and `minPoint` over positions compute what they compute over points |
| Points.PositionDistanceOfTraverse | src/token-iterator.js:204 | the distance from a position to the one a displacement reaches is that displacement, for any integers |
| Points.BeforeTotal | src/token-iterator.js:200 | any two positions are ordered one way, equal, or ordered the other way, and never both |
| ScreenLines.ComputeTokenOffsets | src/line-node.js:22-40 | fails exactly for a line with no tokens; otherwise the first token starts at 0 / `ZERO_POINT`, each token ends at its start plus its extent (`traverse` in the buffer), and each starts where the one before it ends |
| ScreenLines.OffsetsArePrefixSums | src/line-node.js:29-39 | each token's screen offsets are the sums of the screen extents of the tokens before it, and through it; its buffer offsets are the `traverse` folds of their buffer extents |
| ScreenLines.OffsetsMonotone | src/line-node.js:29-39 | offsets never decrease along a line, and an earlier token ends at or before a later one starts, on screen and in the buffer |
| ScreenLines.LineEnd | src/line-iterator.js:133-134 | a row's buffer end is its buffer start traversed by its own buffer extent |
| ScreenLines.TotalExtentAppend | src/line-node.js:53 | the buffer extent of two runs of lines is the `traverse` of one run by the other |
| ScreenLines.MaxLengthAppend | src/line-node.js:49 | the longest line of two runs is the larger of their longest lines |
| ScreenLines.MaxLengthIsMaximum | src/line-node.js:47-49 | `maxScreenExtent` bounds every line's screen extent and is the extent of some line, and it is -1 exactly when there are no lines |
| ScreenLines.LineStartMonotone | src/line-iterator.js:133-134 | buffer starts never decrease with the screen row |
| ScreenLines.LastLineEnd | test/reference-display-index.js:24-32 | the last row ends at the buffer extent of all the lines |
| ScreenLines.BufferRowUnique | src/line-iterator.js:49-71 | at most one row is the row a buffer position belongs to |
| ScreenLines.BufferRowContains | src/line-iterator.js:49-71 | the row of a buffer position starts at or before it, and ends at or after it unless it lies beyond the end of all lines |
| ScreenLines.BracketedStep | src/line-iterator.js:55-68 | one comparison step of the buffer row search keeps the candidate rows bracketing the target, and stopping lands on the target's row |
| ScreenLines.SpliceSeq | test/reference-display-index.js:8-10 | `splice` on an array: in range, the prefix, the new items, then the rest after the deleted ones; from past the end, the new items appended |
| ScreenLines.SplicedOut | test/reference-display-index.js:8-10 | the items `splice` removes: the deleted range in range, nothing from past the end |
| ScreenLines.SpliceSeqParts | src/display-index.js:68 | the removed items between the kept prefix and suffix rebuild the original rows |
| ScreenLines.SpliceBetween | src/display-index.js:42-47 | with a kept row on each side, the new lines go between them and the rows between are removed |
| ScreenLines.SpliceAfter | src/display-index.js:42-47 | with a kept row only before, the new lines replace every row after it |
| ScreenLines.SpliceBefore | src/display-index.js:48-51 | with a kept row only after, the new lines replace every row before it |
| ScreenLines.SpliceEverything | src/display-index.js:52-55 | with no kept row on either side, the new lines replace all the rows |
| TreeShapes.SummarizeConcat | src/line-node.js:42-54 | the aggregates of a node over its two subtrees are the aggregates of the concatenated line list |
| TreeShapes.CombineRotate | src/display-index.js:135-159 | regrouping three subtrees around two nodes, as a rotation does, keeps the aggregates |
| TreeShapes.LinkedSummary | src/line-node.js:42-54 | in a linked, summarised arena, every node's cached row count, maximum screen extent and buffer extent are those of its in-order lines |
| TreeShapes.LinesAt | src/line-iterator.js:21-43 | the i-th in-order line of a tree is the line of the i-th in-order node |
| TreeShapes.IdsAt | src/display-index.js:71-79 | the i-th id in order is the id of the i-th in-order node |
| TreeShapes.DistinctInorder | src/display-index.js:71-79 | a tree whose keys are distinct lists each node once in order |
| TreeShapes.SameInorder | src/display-index.js:110-133 | two trees with the same in-order nodes and the same node payloads have the same rows and ids |
| TreeShapes.FindLinked | src/display-index.js:110-118 | a linked node is found as the top of a linked subtree whose parent is the node's recorded parent |
| TreePaths.RankKey | src/line-iterator.js:21-43 | the node a path leads to has in-order position equal to the path's rank |
| TreePaths.RankLine | src/line-iterator.js:21-43 | the line at the path's rank is that node's line |
| TreePaths.LeftRows | src/line-node.js:56-62 | the rows of the left subtree are exactly the rows between the subtree's first row and the node's row |
| TreePaths.RankStart | src/line-node.js:64-70 | a node's buffer start is its left ancestor's buffer end traversed by its left subtree's buffer extent |
| TreeRotations.RotLeftShape | src/display-index.js:135-159 | a left rotation keeps the in-order nodes, the keys, the size and distinctness, and changes nothing when the pivot is absent |
| TreeRotations.RotRightShape | src/display-index.js:161-185 | as RotLeftShape, for a right rotation |
| TreeRotations.RotLeftLines | src/display-index.js:135-159 | a left rotation keeps the rows |
| TreeRotations.RotRightLines | src/display-index.js:161-185 | a right rotation keeps the rows |
| TreeSplices.SplicedBetween | src/display-index.js:42-47 | grafting the new subtree under the start node, below the end node at the top, leaves a linked, summarised arena whose rows are the splice |
| TreeSplices.SplicedAfter | src/display-index.js:42-47 | grafting as the right child of the start node at the top leaves a linked, summarised arena whose rows are the splice |
| TreeSplices.SplicedBefore | src/display-index.js:48-51 | grafting as the left child of the end node at the top leaves a linked, summarised arena whose rows are the splice |
| TreeSplices.RowsBetween | src/display-index.js:42-47 | the rows and ids after grafting between the two kept rows are the splice of the old ones |
| TreeSplices.RowsOfTop | src/line-node.js:42-54 | a top node's rows are its left rows, its line, then its right rows |
| LineTrees.IdCounter.constructor | src/line-node.js:3 | the counter starts at 0, so the first line gets id 1 |
| LineTrees.RandomGenerator.constructor | src/display-index.js:202-206 | the generator starts at the first draw of its stream |
| LineTrees.RandomGenerator.FloatBetween | src/display-index.js:202-206 | a draw consumes one value of the stream and scales it into `[floor, 1)` |
| LineTrees.ScaledDraw | src/display-index.js:202-206 | `floor + (1 - floor) * u` lies in `[floor, 1)` for `u` in `[0, 1)` |
| LineTrees.HeapOrderedBounds | src/display-index.js:187-199 | every priority of a subtree built under priority `floor` lies in `[floor, 1)` |
| LineTrees.EmptyLineSplit | src/line-node.js:27 | a range of lines has a line without tokens exactly when one of its two halves does |
| LineTrees.SplicedPriorities | src/display-index.js:58-66 | after the splice every priority of the tree lies in `[0, 1)` again |
| LineTrees.BubbledToTop | src/display-index.js:30-38 | a node given a priority below every other node's ends at the top of the tree once bubbled up |
| LineTrees.LineTree.constructor | src/display-index.js:7-16 | a new tree has no rows |
| LineTrees.LineTree.GetScreenLineCount | src/display-index.js:85-87 | the number of rows |
| LineTrees.LineTree.GetLastScreenRow | src/display-index.js:81-83 | one less than the number of rows |
| LineTrees.LineTree.GetLeftSubtreeRowCount | src/line-node.js:56-62 | the size of the node's left subtree, 0 when it has none |
| LineTrees.LineTree.GetLeftSubtreeBufferExtent | src/line-node.js:64-70 | the buffer extent of the lines of the node's left subtree, `ZERO_POINT` when it has none |
| LineTrees.LineTree.ComputeSubtreeProperties | src/line-node.js:42-54 | only the node's cached aggregates change, to those computed from its children |
| LineTrees.LineTree.ChildPriority | src/display-index.js:122-123 | a missing child counts as priority `Infinity`, a present one as its priority |
| LineTrees.LineTree.RotateNodeLeft | src/display-index.js:135-159 | the shape becomes the left rotation at the pivot; rows, ids, keys and payloads are kept; the pivot becomes the root when its parent was |
| LineTrees.LineTree.RotateNodeRight | src/display-index.js:161-185 | as RotateNodeLeft, for the right rotation |
| LineTrees.LineTree.BubbleNodeUp | src/display-index.js:110-118 | the rows and in-order nodes are kept; the node ends at the top or below a parent of no greater priority |
| LineTrees.LineTree.BubbleNodeDown | src/display-index.js:120-133 | the rows and in-order nodes are kept; the node ends above children of no smaller priority |
| LineTrees.LineTree.CreateNode | src/line-node.js:6-20 | fails exactly for a line without tokens; otherwise a new record with the next id, the line's offsets computed, and the given children and priority |
| LineTrees.LineTree.BuildScreenLinesTree | src/display-index.js:187-199 | fails exactly when some line of the range has no tokens; otherwise a new linked subtree whose rows are `lines[start..end]`, heap-ordered with priorities in `[parentPriority, 1)`, and the old tree untouched |
| LineTrees.LineTree.LiftToTop | src/display-index.js:30-38 | a node given a priority below all others is bubbled to the root, keeping the rows |
| LineTrees.LineTree.Rerandomize | src/display-index.js:58-66 | the node gets the next random priority and is bubbled down below no smaller priority, keeping the rows |
| LineTrees.LineTree.SpliceNodes | src/display-index.js:26-69 | fails exactly when a new line has no tokens, leaving the rows; otherwise the rows become the tree splice, the new lines get fresh ids, the removed subtree's ids are returned, and priorities are random again |
| DisplayIndexes.DisplayIndex.constructor | src/display-index.js:7-16 | a new index has no rows and random priorities |
| DisplayIndexes.DisplayIndex.BuildTokenIterator | src/display-index.js:18-20 | a fresh, valid token iterator over this index's tree, not yet on a line |
| DisplayIndexes.DisplayIndex.Splice | src/display-index.js:26-69 | fails exactly when a new line has no tokens, leaving the rows; otherwise the rows become the tree splice of the old rows and the ids returned are the ids of the rows removed, in order |
| DisplayIndexes.DisplayIndex.IdsForSubtree | src/display-index.js:71-79 | the ids of a subtree in order, appended to the given ones |
| DisplayIndexes.DisplayIndex.GetLastScreenRow | src/display-index.js:81-83 | one less than the number of rows |
| DisplayIndexes.DisplayIndex.GetScreenLineCount | src/display-index.js:85-87 | the number of rows |
| DisplayIndexes.DisplayIndex.LineLengthForScreenRow | src/display-index.js:89-96 | the screen extent of the row when it exists, nothing otherwise |
| DisplayIndexes.DisplayIndex.GetScreenPositionWithMaxLineLength | src/display-index.js:98-100 | nothing exactly for an empty index; otherwise a row whose screen extent is the maximum, with that extent as the column |
| ScreenLineIndexes.ScreenLineIndex.constructor | src/screen-line-index.js:7-11 | a new index has no rows and random priorities |
| ScreenLineIndexes.ScreenLineIndex.BuildIterator | src/screen-line-index.js:13-15 | a fresh, valid token iterator over this index's tree, not yet on a line |
| ScreenLineIndexes.ScreenLineIndex.Splice | src/screen-line-index.js:17-54 | fails exactly when a new line has no tokens, leaving the rows; otherwise the rows become the tree splice of the old rows |
| ScreenLineIndexes.ScreenLineIndex.GetLastScreenRow | src/screen-line-index.js:56-58 | one less than the number of rows |
| ScreenLineIndexes.ScreenLineIndex.GetScreenLineCount | src/screen-line-index.js:60-62 | the number of rows |
| ScreenLineIndexes.ScreenLineIndex.LineLengthForScreenRow | src/screen-line-index.js:64-71 | the screen extent of the row when it exists, nothing otherwise |
| ScreenLineIndexes.ScreenLineIndex.GetScreenPositionWithMaxLineLength | src/screen-line-index.js:73-75 | nothing exactly for an empty index; otherwise a row whose screen extent is the maximum, with that extent as the column |
| LineIterators.MaxAround | src/line-iterator.js:112-127 | the longest line around a node is the largest of its left subtree's, its own and its right subtree's |
| LineIterators.LineIterator.constructor | src/line-iterator.js:4 | a new iterator is on no node |
| LineIterators.LineIterator.Reset | src/line-iterator.js:8-19 | the iterator is at the root with empty ancestor stacks |
| LineIterators.LineIterator.SetCurrentNode | src/line-iterator.js:129-136 | the iterator is on the node, with its row and buffer start and end derived from the left ancestor |
| LineIterators.LineIterator.PushToAncestorStacks | src/line-iterator.js:158-162 | the left ancestor, its row and its buffer end are pushed onto their stacks and nothing else changes |
| LineIterators.LineIterator.PopAncestorStacks | src/line-iterator.js:151-156 | the left ancestor, its row and its buffer end are popped from their stacks and nothing else changes |
| LineIterators.LineIterator.DescendLeft | src/line-iterator.js:138-141 | the iterator moves to the left child, one step further down the path |
| LineIterators.LineIterator.DescendRight | src/line-iterator.js:143-149 | the iterator moves to the right child, whose first row follows the current node's row |
| LineIterators.LineIterator.Ascend | src/line-iterator.js:151-156 | the iterator moves to the parent, or onto no node from the root |
| LineIterators.LineIterator.OnNode | src/line-iterator.js:129-136 | on a node, the current row is the node's in-order rank and the cached buffer start and end are that row's |
| LineIterators.LineIterator.GetTokens | src/line-iterator.js:108-110 | the current line's placed tokens, nothing when on no node |
| LineIterators.LineIterator.FindNode | src/line-iterator.js:21-43 | a node is found exactly for a row in range, and it is the node at that in-order position |
| LineIterators.LineIterator.GetScreenPositionWithMaxLineLength | src/line-iterator.js:112-127 | nothing exactly for an empty tree; otherwise a row whose screen extent is the maximum, with that extent as the column |
| LineIterators.LineIterator.SeekToScreenPosition | src/line-iterator.js:45-47 | for a row in range the iterator ends on that row |
| LineIterators.LineIterator.SeekToBufferPosition | src/line-iterator.js:49-71 | on no node exactly for an empty tree; otherwise on the row the buffer position belongs to |
| LineIterators.LineIterator.MoveToSuccessor | src/line-iterator.js:73-90 | moves exactly when a next row exists, to the next row; otherwise ends on no node |
| TokenSearches.ComputedOrdered | src/line-node.js:29-39 | computed offsets order the tokens on screen and in the buffer |
| TokenSearches.SearchScreen | src/token-iterator.js:46-59 | the binary search stops on a token holding the target column, or on the first or last token when the target is outside the line |
| TokenSearches.RewindScreen | src/token-iterator.js:62-65 | the rewind passes exactly the tokens starting at the target, stopping on the first of them |
| TokenSearches.ScreenSeekLands | src/token-iterator.js:46-73 | search, rewind and the final step land on the sought token |
| TokenSearches.ScreenSoughtUnique | src/token-iterator.js:46-73 | the sought token for a screen column is unique |
| TokenSearches.SearchBuffer | src/token-iterator.js:102-115 | the binary search stops on a token holding the buffer offset, or on the first or last token when it is outside the line |
| TokenSearches.RewindBuffer | src/token-iterator.js:118-121 | the rewind passes exactly the tokens starting at the offset, stopping on the first of them |
| TokenSearches.BufferWithin | src/token-iterator.js:125-126 | a token's buffer start and end coincide exactly when its buffer extent is zero |
| TokenSearches.BufferSeekLands | src/token-iterator.js:102-129 | search, rewind and the final step land on the sought token |
| TokenSearches.BufferSoughtUnique | src/token-iterator.js:102-129 | the sought token for a buffer offset is unique |
| TokenIterators.ClipScreenTarget | src/token-iterator.js:21-31 | a target above the lines goes to row 0; below the last row it goes to the last row and an unbounded column; a negative column becomes 0; an in-range target is kept |
| TokenIterators.ClipBufferTarget | src/token-iterator.js:79-85 | a negative row clips to `ZERO_POINT`, a negative column to 0, and a target with no negative coordinate is kept |
| TokenIterators.Translate | src/token-iterator.js:199-213 | fails exactly for a position before the source start, including any negative row; otherwise the row is as far past the target start's row as the position is past the source start's, and the column is shifted by the same amount on that row or carried over, negative or not, on a later row |
| TokenIterators.TranslatePoint | src/token-iterator.js:204 | on a point at or after the source start, translation is `traverse` of the target start by `traversalDistance` from the source start |
| TokenIterators.TranslateNegativeCoordinates | src/token-iterator.js:199-205 | a position with row -1 is refused, and a position one row past a row-0 start with column -1 translates to the next row of the target at column -1 |
| TokenIterators.TranslateRoundTrip | src/token-iterator.js:199-213 | translating any position at or after the start, negative coordinates included, from buffer to screen and back gives it back |
| TokenIterators.TranslateKeepsOrder | src/token-iterator.js:199-213 | translation keeps the order of positions at or after the start, negative coordinates included |
| TokenIterators.TokenIterator.constructor | src/token-iterator.js:12-16 | a new token iterator has a fresh line iterator on no node and no cached positions |
| TokenIterators.TokenIterator.GetCurrentToken | src/token-iterator.js:215-222 | the current token of the current line, `ZERO_TOKEN` with its zero offsets on no line |
| TokenIterators.TokenIterator.GetScreenExtent | src/token-iterator.js:167-169 | the current token's screen extent, and nothing (`undefined`, a field `ZERO_TOKEN` lacks) exactly when there is no current line |
| TokenIterators.TokenIterator.GetBufferExtent | src/token-iterator.js:191-193 | the current token's buffer extent, and nothing (`undefined`) exactly when there is no current line |
| TokenIterators.TokenIterator.GetMetadata | src/token-iterator.js:195-197 | the current token's metadata, and nothing (`undefined`) exactly when there is no current line |
| TokenIterators.TokenIterator.TokenSpan | src/token-iterator.js:157-193 | a token's screen end is its start moved by its screen extent, and its buffer end is its start traversed by its buffer extent |
| TokenIterators.TokenIterator.ClearCachedPositions | src/token-iterator.js:224-229 | all four cached positions are cleared and the token index is kept |
| TokenIterators.TokenIterator.GetScreenStart | src/token-iterator.js:147-155 | the row and screen start offset of the current token, now cached |
| TokenIterators.TokenIterator.GetScreenEnd | src/token-iterator.js:157-165 | the row and screen end offset of the current token, now cached |
| TokenIterators.TokenIterator.GetBufferStart | src/token-iterator.js:171-179 | the line's buffer start traversed by the token's buffer start offset, now cached |
| TokenIterators.TokenIterator.GetBufferEnd | src/token-iterator.js:181-189 | the line's buffer start traversed by the token's buffer end offset, now cached |
| TokenIterators.TokenIterator.TranslateBufferPosition | src/token-iterator.js:199-205 | takes any integer position; fails exactly for one before the token's buffer start; otherwise `Translate` from the buffer start to the screen start |
| TokenIterators.TokenIterator.TranslateScreenPosition | src/token-iterator.js:207-213 | takes any integer position; fails exactly for one before the token's screen start; otherwise `Translate` from the screen start to the buffer start |
| TokenIterators.TokenIterator.MoveToSuccessorAsWritten | src/token-iterator.js:132-145 | as written: throws exactly off the tree or on the last token of the last line; otherwise moves to the next token of the line, or to token 0 of the next row, as `MoveToSuccessor` does |
| TokenIterators.TokenIterator.MoveToSuccessor | src/token-iterator.js:132-145 | moves exactly when a next token exists, to the next token of the line or the first of the next line; otherwise stays put and returns false |
| TokenIterators.TokenIterator.SeekToScreenPositionAsWritten | src/token-iterator.js:18-33 | as written: clears the cached positions and always throws, since the line iterator has no `seekToScreenRow` |
| TokenIterators.TokenIterator.SeekToScreenPosition | src/token-iterator.js:18-74 | on no line exactly for an empty tree; otherwise on the clipped row and the sought token for the clipped column |
| TokenIterators.TokenIterator.FindScreenToken | src/token-iterator.js:40-73 | stays on the line and lands on the sought token for the column |
| TokenIterators.TokenIterator.SeekToBufferPosition | src/token-iterator.js:76-130 | on no line exactly for an empty tree; otherwise on the target's row and the sought token for its offset in the line |
| TokenIterators.TokenIterator.FindBufferToken | src/token-iterator.js:97-129 | stays on the line and lands on the sought token for the offset |
| ReferenceLines.MinPlace | test/reference-display-index.js:89 | one of the two places, at or before both |
| ReferenceLines.AtMostPoints | test/reference-display-index.js:89 | on finite places the order is the point order |
| ReferenceLines.ClipReferenceTarget | test/reference-display-index.js:75-85 | below the last row: the last row with an unbounded column; a negative column becomes 0 and keeps the row; a negative row with a non-negative column becomes `(0, 0)` |
| ReferenceLines.ClipsAgree | test/reference-display-index.js:75-85 | the reference clip and the tree's clip agree except when both coordinates are negative |
| ReferenceLines.SpliceStart | test/reference-display-index.js:8-10 | `splice`'s start: a negative start counts from the end, and both kinds are clamped to the array |
| ReferenceLines.SpliceCount | test/reference-display-index.js:8-10 | `splice`'s delete count: negative counts as 0, and it is clamped to what follows the start |
| ReferenceLines.ArraySplice | test/reference-display-index.js:8-10 | `splice` on the lines: the prefix, the new lines, then the lines after the deleted ones |
| ReferenceLines.TreeSpliceAgainstArray | src/display-index.js:26-69 | the tree's splice agrees with the array splice for every start up to the row count; past it the array appends while the tree replaces every row |
| ReferenceLines.FoldBufferExtents | test/reference-display-index.js:24-32 | the fold of the lines' buffer extents is their total extent |
| ReferenceLines.MaxScreenLineLength | test/reference-display-index.js:43-49 | the longest screen extent, -1 exactly for no lines |
| ReferenceLines.RowsWithMaxLineLength | test/reference-display-index.js:51-65 | exactly the rows whose extent is the maximum, in increasing order, and none exactly for no lines |
| ReferenceLines.MaxRowListed | test/reference-display-index.js:51-65 | every row of maximal extent is listed, and the first listed row is at or before it |
| ReferenceLines.OffsetsOf | src/line-node.js:22-40 | the offsets of a line's tokens, as the reference iterators accumulate them, are the computed offsets |
| ReferenceLines.ReferenceScreenSought | test/reference-display-index.js:94-111 | the reference scan and its final step land on the sought token for the column |
| ReferenceLines.ScreenSeeksAgree | test/reference-display-index.js:94-111 | the reference scan and the tree's binary search land on the same token |
| ReferenceLines.CappedColumn | test/reference-display-index.js:89 | the column capped at the line's end, the end for an unbounded column |
| ReferenceLines.ScannedHolds | test/reference-display-index.js:132-150 | a buffer scan that has passed a token holding the target stops on a token holding it |
| ReferenceLines.ScanScreenTokens | test/reference-display-index.js:94-105 | the scan stops on the first token past the column's start or at the line's end, with that token's screen and buffer span |
| ReferenceLines.ScanBufferTokens | test/reference-display-index.js:132-150 | the scan stops on the token the buffer target belongs to, with its screen and buffer span |
| ReferenceLines.ScanToToken | test/reference-display-index.js:188-209 | finds the token exactly for an index in the line, with its screen and buffer span |
| ReferenceLines.ClampedTranslate | test/reference-display-index.js:258-272 | fails exactly where `Translate` fails; otherwise the translation clamped to the token's end: the translation when it is at or before that end, the end when it is after |
| ReferenceLines.ClampedNegativeColumn | test/reference-display-index.js:258-264 | a position one row past a row-0 buffer start with column -1 gives the token's screen end |
| ReferenceDisplayIndexes.ReferenceDisplayIndex.constructor | test/reference-display-index.js:4-6 | a new index has no lines |
| ReferenceDisplayIndexes.ReferenceDisplayIndex.Splice | test/reference-display-index.js:8-10 | the lines become the array splice of the old lines |
| ReferenceDisplayIndexes.ReferenceDisplayIndex.BuildTokenIterator | test/reference-display-index.js:12-14 | a fresh, valid token iterator over this index |
| ReferenceDisplayIndexes.ReferenceDisplayIndex.GetLastScreenRow | test/reference-display-index.js:16-18 | one less than the number of lines |
| ReferenceDisplayIndexes.ReferenceDisplayIndex.GetScreenLineCount | test/reference-display-index.js:20-22 | the number of lines |
| ReferenceDisplayIndexes.ReferenceDisplayIndex.GetLastBufferRow | test/reference-display-index.js:24-32 | the row of the lines' total buffer extent |
| ReferenceDisplayIndexes.ReferenceDisplayIndex.GetBufferLineCount | test/reference-display-index.js:34-36 | one more than the last buffer row |
| ReferenceDisplayIndexes.ReferenceDisplayIndex.LineLengthForScreenRow | test/reference-display-index.js:38-41 | the screen extent of the row when it exists, nothing otherwise |
| ReferenceDisplayIndexes.ReferenceDisplayIndex.GetMaxScreenLineLength | test/reference-display-index.js:43-49 | the longest screen extent, attained by some line, -1 exactly for no lines |
| ReferenceDisplayIndexes.ReferenceDisplayIndex.GetScreenRowsWithMaxLineLength | test/reference-display-index.js:51-65 | exactly the rows of maximal extent, in increasing order |
| ReferenceDisplayIndexes.ReferenceLineIterator.constructor | test/reference-display-index.js:276-278 | a new iterator is at row 0 with zero buffer start and end, where the source leaves them undefined (see Left out) |
| ReferenceDisplayIndexes.ReferenceLineIterator.SeekToScreenRow | test/reference-display-index.js:280-289 | for a row in range, the iterator is on that row with its buffer start and end |
| ReferenceDisplayIndexes.ReferenceLineIterator.SeekToBufferPosition | test/reference-display-index.js:291-307 | throws exactly on no lines when the target equals the stale buffer end; otherwise on the row the scan stops at |
| ReferenceDisplayIndexes.ReferenceLineIterator.MoveToSuccessor | test/reference-display-index.js:309-319 | moves exactly when a next row exists, to it, and otherwise changes nothing |
| ReferenceDisplayIndexes.ReferenceLineIterator.MoveToPredecessor | test/reference-display-index.js:321-328 | moves exactly when not on row 0, to the row before, and otherwise changes nothing |
| ReferenceDisplayIndexes.ReferenceLineIterator.GetScreenStart | test/reference-display-index.js:330-332 | column 0 of the current row |
| ReferenceDisplayIndexes.ReferenceLineIterator.GetScreenEnd | test/reference-display-index.js:334-336 | the current row at its screen extent, nothing past the last row |
| ReferenceDisplayIndexes.ReferenceLineIterator.GetTokens | test/reference-display-index.js:346-349 | the current line's tokens, nothing off the lines |
| ReferenceDisplayIndexes.ReferenceLineIterator.GetCurrentScreenLine | test/reference-display-index.js:356-358 | the current line, nothing off the lines |
| ReferenceDisplayIndexes.ReferenceTokenIterator.constructor | test/reference-display-index.js:69-72 | a new token iterator with a fresh line iterator; its index and positions start at 0 and `ZERO_POINT`, where the source leaves them undefined (see Left out) |
| ReferenceDisplayIndexes.ReferenceTokenIterator.SeekToScreenPosition | test/reference-display-index.js:74-112 | on the clipped row, on the first token reaching the capped column, or throws on a line without tokens |
| ReferenceDisplayIndexes.ReferenceTokenIterator.LandOnScreenColumn | test/reference-display-index.js:94-111 | throws exactly on a line without tokens; otherwise on the token the scan stops at, with its positions |
| ReferenceDisplayIndexes.ReferenceTokenIterator.SeekToBufferPosition | test/reference-display-index.js:114-151 | on the row of the target and the token the scan stops at; throws on no lines |
| ReferenceDisplayIndexes.ReferenceTokenIterator.LandOnBufferTarget | test/reference-display-index.js:132-150 | throws exactly on a line without tokens at a target equal to the stale buffer end; otherwise on the token that holds the target |
| ReferenceDisplayIndexes.ReferenceTokenIterator.AdvanceInLine | test/reference-display-index.js:156-171 | the next token of the line, starting where the last one ended |
| ReferenceDisplayIndexes.ReferenceTokenIterator.MoveToSuccessor | test/reference-display-index.js:153-175 | throws exactly off the lines; otherwise the next token, or the first token of the next line, or false at the end |
| ReferenceDisplayIndexes.ReferenceTokenIterator.MoveToPredecessor | test/reference-display-index.js:177-212 | false with nothing changed on token 0 of row 0; otherwise the previous token, or the last token of the previous line, and a throw exactly where that token does not exist |
| ReferenceDisplayIndexes.ReferenceTokenIterator.GetMetadata | test/reference-display-index.js:214-217 | the current token's metadata, nothing without a current token |
| ReferenceDisplayIndexes.ReferenceTokenIterator.GetScreenStart | test/reference-display-index.js:219 | the row and screen start offset of the current token |
| ReferenceDisplayIndexes.ReferenceTokenIterator.GetScreenEnd | test/reference-display-index.js:223 | the row and screen end offset of the current token |
| ReferenceDisplayIndexes.ReferenceTokenIterator.GetBufferStart | test/reference-display-index.js:227 | the line's buffer start traversed by the token's buffer start offset |
| ReferenceDisplayIndexes.ReferenceTokenIterator.GetBufferEnd | test/reference-display-index.js:231-233 | the line's buffer start traversed by the token's buffer end offset |
| ReferenceDisplayIndexes.ReferenceTokenIterator.GetCurrentToken | test/reference-display-index.js:235-238 | the token at the index of the current line, nothing when there is none |
| ReferenceDisplayIndexes.ReferenceTokenIterator.TranslateBufferPosition | test/reference-display-index.js:258-264 | takes any integer position; fails exactly before the token's buffer start; otherwise the screen translation clamped to the token's screen end |
| ReferenceDisplayIndexes.ReferenceTokenIterator.TranslateScreenPosition | test/reference-display-index.js:266-272 | takes any integer position; fails exactly before the token's screen start; otherwise the buffer translation clamped to the token's buffer end |
| ReferenceScreenLineIndexes.ReferenceScreenLineIndex.constructor | test/reference-screen-line-index.js:4-6 | a new index has no lines |
| ReferenceScreenLineIndexes.ReferenceScreenLineIndex.Splice | test/reference-screen-line-index.js:8-10 | the lines become the array splice of the old lines |
| ReferenceScreenLineIndexes.ReferenceScreenLineIndex.BuildIterator | test/reference-screen-line-index.js:12-14 | a fresh, valid token iterator over this index |
| ReferenceScreenLineIndexes.ReferenceScreenLineIndex.GetLastScreenRow | test/reference-screen-line-index.js:16-18 | one less than the number of lines |
| ReferenceScreenLineIndexes.ReferenceScreenLineIndex.GetScreenLineCount | test/reference-screen-line-index.js:20-22 | the number of lines |
| ReferenceScreenLineIndexes.ReferenceScreenLineIndex.GetLastBufferRow | test/reference-screen-line-index.js:24-32 | the row of the lines' total buffer extent |
| ReferenceScreenLineIndexes.ReferenceScreenLineIndex.LineLengthForScreenRow | test/reference-screen-line-index.js:34-36 | the screen extent of the row when it exists, nothing otherwise |
| ReferenceScreenLineIndexes.ReferenceScreenLineIndex.GetMaxScreenLineLength | test/reference-screen-line-index.js:38-44 | the longest screen extent, attained by some line, -1 exactly for no lines |
| ReferenceScreenLineIndexes.ReferenceScreenLineIndex.GetScreenRowsWithMaxLineLength | test/reference-screen-line-index.js:46-60 | exactly the rows of maximal extent, in increasing order |
| ReferenceScreenLineIndexes.ReferenceLineIterator.constructor | test/reference-screen-line-index.js:206-208 | a new iterator is at row 0 with zero buffer start and end, where the source leaves them undefined (see Left out) |
| ReferenceScreenLineIndexes.ReferenceLineIterator.SeekToScreenRow | test/reference-screen-line-index.js:210-219 | for a row in range, the iterator is on that row with its buffer start and end |
| ReferenceScreenLineIndexes.ReferenceLineIterator.SeekToBufferPosition | test/reference-screen-line-index.js:221-231 | on the row the scan stops at; at row 0 with a stale buffer end on no lines |
| ReferenceScreenLineIndexes.ReferenceLineIterator.MoveToSuccessor | test/reference-screen-line-index.js:233-240 | always advances the row; reports a move exactly when the new row exists |
| ReferenceScreenLineIndexes.ReferenceLineIterator.GetScreenStart | test/reference-screen-line-index.js:242-244 | column 0 of the current row |
| ReferenceScreenLineIndexes.ReferenceLineIterator.GetScreenEnd | test/reference-screen-line-index.js:246-248 | the current row at its screen extent, nothing past the last row |
| ReferenceScreenLineIndexes.ReferenceLineIterator.GetTokens | test/reference-screen-line-index.js:258-261 | the current line's tokens, nothing off the lines |
| ReferenceScreenLineIndexes.ReferenceLineIterator.GetCurrentScreenLine | test/reference-screen-line-index.js:268-270 | the current line, nothing off the lines |
| ReferenceScreenLineIndexes.ReferenceTokenIterator.constructor | test/reference-screen-line-index.js:64-67 | a new token iterator with a fresh line iterator; its index and positions start at 0 and `ZERO_POINT`, where the source leaves them undefined (see Left out) |
| ReferenceScreenLineIndexes.ReferenceTokenIterator.SeekToScreenPosition | test/reference-screen-line-index.js:69-102 | throws exactly when the clipped row is not a line; otherwise on the first token reaching the capped column, returning whether the target is held |
| ReferenceScreenLineIndexes.ReferenceTokenIterator.ScanScreenColumn | test/reference-screen-line-index.js:89-99 | the token the screen scan stops at on the current line, with its positions |
| ReferenceScreenLineIndexes.ReferenceTokenIterator.SeekToBufferPosition | test/reference-screen-line-index.js:104-136 | throws exactly on no lines; otherwise on the target's row and the token the scan stops at |
| ReferenceScreenLineIndexes.ReferenceTokenIterator.ScanBufferTarget | test/reference-screen-line-index.js:122-133 | the token the buffer scan stops at on the current line, with its positions |
| ReferenceScreenLineIndexes.ReferenceTokenIterator.MoveToSuccessor | test/reference-screen-line-index.js:138-158 | the next token of the line, or the first token of the next line that has tokens, or false at the end |
| ReferenceScreenLineIndexes.ReferenceTokenIterator.SkipToLineWithTokens | test/reference-screen-line-index.js:143-153 | skips the lines without tokens, and finds one exactly when a later line has tokens |
| ReferenceScreenLineIndexes.ReferenceTokenIterator.GetMetadata | test/reference-screen-line-index.js:160-163 | the current token's metadata, nothing without a current token |
| ReferenceScreenLineIndexes.ReferenceTokenIterator.GetScreenStart | test/reference-screen-line-index.js:165 | the row and screen start offset of the current token |
| ReferenceScreenLineIndexes.ReferenceTokenIterator.GetScreenEnd | test/reference-screen-line-index.js:169 | the row and screen end offset of the current token |
| ReferenceScreenLineIndexes.ReferenceTokenIterator.GetBufferStart | test/reference-screen-line-index.js:173 | the line's buffer start traversed by the token's buffer start offset |
| ReferenceScreenLineIndexes.ReferenceTokenIterator.GetBufferEnd | test/reference-screen-line-index.js:177-179 | the line's buffer start traversed by the token's buffer end offset |
| ReferenceScreenLineIndexes.ReferenceTokenIterator.GetCurrentToken | test/reference-screen-line-index.js:181-184 | the token at the index of the current line, nothing when there is none |

## Left out

- `src/point-helpers.js` is not part of this model. Its functions are modelled in `Points` from the way the core uses them: `compare` in row-then-column order, `traverse`, `traversalDistance`, `minPoint` and `isZero`.
- Randomness: `Math.random()` is a stream of reals in `[0, 1)`, given as a parameter of `RandomGenerator`. Every property holds for every such stream. Balance and expected depth are not modelled.
- `Infinity` as a priority, a row or a column is modelled as `PriorityBound.Infinite`, `Column.Infinity` or `Bound.Unbounded`.
- `src/screen-line-iterator.js` is not part of this model. `DisplayIndexes.DisplayIndex` builds its token iterators over `LineIterator`, as `ScreenLineIndex` does.
- `getScreenLines`, `buildScreenLineIterator` and `appendScreenLines` copy or build lists for callers. They are left out because they are not part of the index's logic.
- DisplayIndexes.DisplayIndex.Splice: the start row and count are `nat`, so a negative start row, for which the source finds no start node, is not covered. The same holds for ScreenLineIndexes.ScreenLineIndex.Splice.
- The HTML and debugging helpers of the test directory are left out, and so are the randomized test drivers that compare the tree indexes with the reference indexes.
- Iterators are not invalidated in the model when their index is spliced. Every iterator method requires `Valid()`, which holds only while the tree is unchanged since the iterator was last positioned.
- The `getLastScreenRow` and `getLastBufferRow` helpers of the reference token iterators are inlined where they are used.
- Aliasing between a line object stored in the index and the caller's copy is not modelled. Lines are values, and the offsets `computeTokenOffsets` writes into the tokens are kept beside them as `PlacedToken`s.
- TokenIterators.TokenIterator.GetCurrentToken: off a line it returns `ZERO_TOKEN`, whose four zero offsets match the source's. The model's `ZERO_TOKEN` also carries a placeholder token with extent 0, extent `ZERO_POINT` and metadata 0, where the source's has no such fields. No getter reports that placeholder: `GetScreenExtent`, `GetBufferExtent` and `GetMetadata` return `None` off a line.
- ReferenceDisplayIndexes.ReferenceTokenIterator.GetCurrentToken: `None` stands both for a throw on a missing line and for the `undefined` an index past the token list reads.
- ReferenceDisplayIndexes.ReferenceTokenIterator.GetMetadata: off the lines the source throws, because `getCurrentToken` indexes a `null` token list; the model returns `None` there, as it does for the `null` returned past the token list.
- ReferenceScreenLineIndexes.ReferenceTokenIterator.GetCurrentToken: `None` stands both for the `null` returned off the lines and for the `undefined` an index past the token list reads.
- DisplayIndexes.DisplayIndex.Splice: requires `Randomized()`, every priority in `[0, 1)`. A splice that fails on a line without tokens leaves the two neighbours with their lifted priorities -1 and -2, as the source's throw does, and a further splice from that state is not covered. In the source such a splice can stop lifting a new neighbour below an old lifted node. Only the neighbours are then recomputed, so the root's row count goes stale.
- ScreenLineIndexes.ScreenLineIndex.Splice: the same `Randomized()` precondition, so a splice after a failed one is not covered, for the same reason.
- LineTrees.LineTree.SpliceNodes: requires `RandomPriorities()`, so the tree left by a failed splice, with its neighbours at -1 and -2, is not covered.
- ReferenceDisplayIndexes.ReferenceLineIterator.constructor: the source leaves the row and the buffer start and end `undefined` (test/reference-display-index.js:276-278); the model starts them at row 0 and `ZERO_POINT`. An iterator that has not been seeked therefore differs from the source: on two or more lines its `MoveToSuccessor` moves to row 1, where the source's `undefined < count - 1` is false and it returns false.
- ReferenceDisplayIndexes.ReferenceTokenIterator.constructor: the source leaves the token index and the four positions `undefined` (test/reference-display-index.js:69-72); the model starts them at 0 and `ZERO_POINT`. Before a seek, `MoveToSuccessor` therefore moves within row 0 where the source throws on the `null` token list of an unpositioned line iterator, and `MoveToPredecessor` returns false where the source throws.
- ReferenceScreenLineIndexes.ReferenceLineIterator.constructor: the source leaves the row and the buffer start and end `undefined` (test/reference-screen-line-index.js:206-208); the model starts them at row 0 and `ZERO_POINT`. Before a seek, `MoveToSuccessor` therefore moves to row 1 when there are two or more lines, where the source's incremented `undefined` finds no line and it returns false.
- ReferenceScreenLineIndexes.ReferenceTokenIterator.constructor: the source leaves the token index and the four positions `undefined` (test/reference-screen-line-index.js:64-67); the model starts them at 0 and `ZERO_POINT`. Before a seek, `MoveToSuccessor` can therefore return true where the source finds no current token and no next line and returns false.
- LineIterators.LineIterator.SeekToScreenPosition: only the row of the target is used, as the source does. For a row out of range, the contract states only that the iterator stays valid.

## Findings

| source | as written | input that shows it | evidently intended | confidence | as-written member | corrected member |
|---|---|---|---|---|---|---|
| src/token-iterator.js:132-145 | at the last token of a line, the loop asks the line iterator for the next line; at the last line that fails and leaves no current node, so `getTokens()` returns `null` and reading `.length` throws | a token iterator on the last token of the last line, then `moveToSuccessor()` | return false and stay on the last token, as the reference iterators do | not executed | TokenIterators.TokenIterator.MoveToSuccessorAsWritten | TokenIterators.TokenIterator.MoveToSuccessor |
| src/token-iterator.js:33 | calls `seekToScreenRow` on its `LineIterator`, which `src/line-iterator.js` does not define, so the call throws a `TypeError` | any `seekToScreenPosition` call | move the line iterator to the node of the clipped row, as `findNode` does | not executed | TokenIterators.TokenIterator.SeekToScreenPositionAsWritten | TokenIterators.TokenIterator.SeekToScreenPosition |

Behaviour of the code the model follows:

- The tree's `getScreenPositionWithMaxLineLength` returns some row of maximal length: the first one met on the way down, not necessarily the first such row. `ReferenceLines.RowsWithMaxLineLength` lists them all.
- The tree's splice from past the last row replaces every row, while the array splice of the reference indexes appends. `ReferenceLines.TreeSpliceAgainstArray` states both.
- The reference index keeps a negative row when the column is negative too. `ReferenceLines.ClipsAgree` states where the two clips differ.
