/**
 * The treap's node records and the ghost shape that describes how they are
 * linked.
 *
 * The line nodes of src/line-node.js live in an arena, a sequence of records
 * indexed by handle, with NIL for a missing node. The real pointers are the
 * `left`, `right` and `parent` handles of each record. A ghost `Tree` over
 * handles gives the shape those pointers describe, and `Linked` says that the
 * records agree with it: child and parent pointers match, and every node's
 * aggregates are those computeSubtreeProperties derives from its children.
 * The abstract value of a tree is its in-order sequence of lines.
 */
module TreeShapes {
  import opened Points
  import opened ScreenLines

  const NIL: int := -1

  /** A line node: the line, its tokens with offsets, the links, the priority, the id and the aggregates. */
  datatype LineNode = LineNode(
    line: ScreenLine,
    tokens: seq<PlacedToken>,
    left: int,
    right: int,
    parent: int,
    priority: real,
    id: nat,
    subtreeRowCount: nat,
    maxScreenExtent: int,
    subtreeBufferExtent: Point)

  // ---------------------------------------------------------------------------
  // Subtree aggregates
  // ---------------------------------------------------------------------------

  /** The three aggregates a node keeps about its subtree. */
  datatype Summary = Summary(rowCount: nat, maxScreenExtent: int, bufferExtent: Point)

  /** What a missing child contributes: no rows, maximum -1, no buffer extent. */
  const EMPTY_SUMMARY := Summary(0, -1, ZERO_POINT)

  function Aggregates(n: LineNode): Summary {
    Summary(n.subtreeRowCount, n.maxScreenExtent, n.subtreeBufferExtent)
  }

  function WithAggregates(n: LineNode, s: Summary): (m: LineNode)
    ensures Aggregates(m) == s
  {
    n.(subtreeRowCount := s.rowCount, maxScreenExtent := s.maxScreenExtent, subtreeBufferExtent := s.bufferExtent)
  }

  /** The aggregates of a node with the given line between subtrees with the given aggregates. */
  function Combine(l: Summary, line: ScreenLine, r: Summary): Summary {
    Summary(
      l.rowCount + 1 + r.rowCount,
      Max(Max(l.maxScreenExtent, line.screenExtent), r.maxScreenExtent),
      Traverse(Traverse(l.bufferExtent, line.bufferExtent), r.bufferExtent))
  }

  /** The aggregates a run of lines should have. */
  function Summarize(ls: seq<ScreenLine>): Summary {
    Summary(|ls|, MaxLength(ls), TotalExtent(ls))
  }

  /** Combining the summaries of two runs around a line summarizes the concatenation. */
  lemma {:induction false} SummarizeConcat(a: seq<ScreenLine>, x: ScreenLine, b: seq<ScreenLine>)
    ensures Summarize(a + [x] + b) == Combine(Summarize(a), x, Summarize(b))
  {
    TotalExtentAppend(a + [x], b);
    TotalExtentAppend(a, [x]);
    assert [x][..0] == [];
    MaxLengthAppend(a + [x], b);
    MaxLengthAppend(a, [x]);
  }

  /** Rotating an edge does not change the combined aggregates. */
  lemma {:induction false} CombineRotate(a: Summary, x: ScreenLine, b: Summary, y: ScreenLine, c: Summary)
    ensures Combine(Combine(a, x, b), y, c) == Combine(a, x, Combine(b, y, c))
  {
    TraverseAssociative(Traverse(a.bufferExtent, x.bufferExtent), b.bufferExtent, y.bufferExtent);
    TraverseAssociative(Traverse(Traverse(a.bufferExtent, x.bufferExtent), b.bufferExtent), y.bufferExtent, c.bufferExtent);
    TraverseAssociative(Traverse(a.bufferExtent, x.bufferExtent), Traverse(b.bufferExtent, y.bufferExtent), c.bufferExtent);
  }

  /** The aggregates of the node at handle `h`, or those of a missing child. */
  function ChildSummary(ns: seq<LineNode>, h: int): Summary {
    if 0 <= h < |ns| then Aggregates(ns[h]) else EMPTY_SUMMARY
  }

  /** The aggregates computeSubtreeProperties derives for node `k` from its children's fields. */
  function ComputedAggregates(ns: seq<LineNode>, k: nat): Summary
    requires k < |ns|
  {
    Combine(ChildSummary(ns, ns[k].left), ns[k].line, ChildSummary(ns, ns[k].right))
  }

  predicate Summarized(ns: seq<LineNode>, k: nat)
    requires k < |ns|
  {
    Aggregates(ns[k]) == ComputedAggregates(ns, k)
  }

  // ---------------------------------------------------------------------------
  // Ghost shapes
  // ---------------------------------------------------------------------------

  /** A binary tree over arena handles. */
  datatype Tree = Nil | Node(left: Tree, key: nat, right: Tree)

  /** The handle of a subtree's top node, NIL for the empty tree. */
  function Handle(t: Tree): int {
    if t.Nil? then NIL else t.key
  }

  function Keys(t: Tree): set<int> {
    match t
    case Nil => {}
    case Node(l, k, r) => Keys(l) + {k} + Keys(r)
  }

  function Size(t: Tree): nat {
    match t
    case Nil => 0
    case Node(l, _, r) => Size(l) + 1 + Size(r)
  }

  /** The handles in in-order, that is by screen row. */
  function Inorder(t: Tree): seq<nat> {
    match t
    case Nil => []
    case Node(l, k, r) => Inorder(l) + [k] + Inorder(r)
  }

  /** No handle occurs twice. */
  ghost predicate Distinct(t: Tree) {
    match t
    case Nil => true
    case Node(l, k, r) =>
      Distinct(l) && Distinct(r) && k !in Keys(l) && k !in Keys(r) && Keys(l) !! Keys(r)
  }

  /** Every handle of the tree is an index of an arena of `n` records. */
  ghost predicate InArena(t: Tree, n: nat) {
    match t
    case Nil => true
    case Node(l, k, r) => k < n && InArena(l, n) && InArena(r, n)
  }

  /** The in-order sequence of lines: the abstract value of a tree. */
  function Lines(t: Tree, ns: seq<LineNode>): seq<ScreenLine>
    requires InArena(t, |ns|)
  {
    match t
    case Nil => []
    case Node(l, k, r) => Lines(l, ns) + [ns[k].line] + Lines(r, ns)
  }

  /** The nodes' ids in in-order. */
  function IdsOf(t: Tree, ns: seq<LineNode>): seq<nat>
    requires InArena(t, |ns|)
  {
    match t
    case Nil => []
    case Node(l, k, r) => IdsOf(l, ns) + [ns[k].id] + IdsOf(r, ns)
  }

  /** The records agree with the shape `t`, whose top has parent `par`. */
  ghost predicate Linked(t: Tree, par: int, ns: seq<LineNode>) {
    match t
    case Nil => true
    case Node(l, k, r) =>
      k < |ns| &&
      ns[k].parent == par && ns[k].left == Handle(l) && ns[k].right == Handle(r) &&
      Summarized(ns, k) &&
      Linked(l, k, ns) && Linked(r, k, ns)
  }

  /** Two records of the same node: only links and aggregates may differ. */
  predicate SamePayload(a: LineNode, b: LineNode) {
    a.line == b.line && a.tokens == b.tokens && a.priority == b.priority && a.id == b.id
  }

  /** The per-node payload never changes: lines, tokens and ids stay, the arena only grows. */
  ghost predicate Stable(ns: seq<LineNode>, ns': seq<LineNode>) {
    |ns| <= |ns'| &&
    forall k :: 0 <= k < |ns| ==>
      ns'[k].line == ns[k].line && ns'[k].tokens == ns[k].tokens && ns'[k].id == ns[k].id
  }

  // ---------------------------------------------------------------------------
  // Basic facts
  // ---------------------------------------------------------------------------

  lemma {:induction false} LinkedInArena(t: Tree, par: int, ns: seq<LineNode>)
    requires Linked(t, par, ns)
    ensures InArena(t, |ns|)
  {
    if t.Node? {
      LinkedInArena(t.left, t.key, ns);
      LinkedInArena(t.right, t.key, ns);
    }
  }

  lemma {:induction false} InorderFacts(t: Tree)
    ensures |Inorder(t)| == Size(t)
    ensures forall x :: x in Inorder(t) <==> x in Keys(t)
  {
    if t.Node? {
      InorderFacts(t.left);
      InorderFacts(t.right);
    }
  }

  lemma {:induction false} LinesLength(t: Tree, ns: seq<LineNode>)
    requires InArena(t, |ns|)
    ensures |Lines(t, ns)| == Size(t)
  {
    if t.Node? {
      LinesLength(t.left, ns);
      LinesLength(t.right, ns);
    }
  }

  /** The line at row `i` is the line of the node at row `i`. */
  lemma {:induction false} LinesAt(t: Tree, ns: seq<LineNode>, i: nat)
    requires InArena(t, |ns|)
    requires i < Size(t)
    ensures |Lines(t, ns)| == Size(t) == |Inorder(t)|
    ensures Inorder(t)[i] < |ns| && Lines(t, ns)[i] == ns[Inorder(t)[i]].line
  {
    LinesLength(t, ns);
    InorderFacts(t);
    match t
    case Node(l, k, r) =>
      LinesLength(l, ns);
      InorderFacts(l);
      assert Inorder(t)[i] in Keys(t);
      if i < Size(l) {
        LinesAt(l, ns, i);
      } else if i > Size(l) {
        LinesAt(r, ns, i - Size(l) - 1);
      }
  }

  /** A tree's top handle is NIL exactly when the tree is empty. */
  lemma {:induction false} HandleNil(t: Tree)
    ensures Handle(t) == NIL <==> t.Nil?
    ensures t.Node? ==> Handle(t) in Keys(t)
  {
  }

  /** In a tree with distinct handles, each handle occurs at one row. */
  lemma {:induction false} DistinctInorder(t: Tree)
    requires Distinct(t)
    ensures forall i, j :: 0 <= i < j < |Inorder(t)| ==> Inorder(t)[i] != Inorder(t)[j]
  {
    if t.Node? {
      DistinctInorder(t.left);
      DistinctInorder(t.right);
      InorderFacts(t.left);
      InorderFacts(t.right);
      var s := Inorder(t);
      var nl := |Inorder(t.left)|;
      forall i, j | 0 <= i < j < |s| ensures s[i] != s[j] {
        if j < nl {
          assert s[i] == Inorder(t.left)[i] && s[j] == Inorder(t.left)[j];
        } else if i > nl {
          assert s[i] == Inorder(t.right)[i - nl - 1] && s[j] == Inorder(t.right)[j - nl - 1];
        } else if i == nl {
          assert s[j] == Inorder(t.right)[j - nl - 1];
          assert s[j] in Inorder(t.right);
        } else if j == nl {
          assert s[i] == Inorder(t.left)[i];
          assert s[i] in Inorder(t.left);
        } else {
          assert s[i] == Inorder(t.left)[i] && s[j] == Inorder(t.right)[j - nl - 1];
          assert s[i] in Inorder(t.left) && s[j] in Inorder(t.right);
        }
      }
    }
  }

  /** In a tree with distinct handles, the position of a handle says which part of the tree holds it. */
  lemma {:induction false} InorderIndex(t: Tree, i: nat)
    requires Distinct(t) && t.Node? && i < Size(t)
    ensures |Inorder(t)| == Size(t) && |Inorder(t.left)| == Size(t.left)
    ensures Inorder(t)[i] == t.key <==> i == Size(t.left)
    ensures Inorder(t)[i] in Keys(t.left) <==> i < Size(t.left)
    ensures i < Size(t.left) ==> Inorder(t)[i] == Inorder(t.left)[i]
  {
    InorderFacts(t);
    InorderFacts(t.left);
    InorderFacts(t.right);
    if i < Size(t.left) {
      assert Inorder(t)[i] == Inorder(t.left)[i];
      assert Inorder(t.left)[i] in Inorder(t.left);
    } else if i > Size(t.left) {
      assert Inorder(t)[i] == Inorder(t.right)[i - Size(t.left) - 1];
      assert Inorder(t.right)[i - Size(t.left) - 1] in Inorder(t.right);
    }
  }

  /** The aggregates stored at a linked top are those of its lines. */
  lemma {:induction false} LinkedSummary(t: Tree, par: int, ns: seq<LineNode>)
    requires Linked(t, par, ns)
    ensures InArena(t, |ns|)
    ensures ChildSummary(ns, Handle(t)) == Summarize(Lines(t, ns))
  {
    LinkedInArena(t, par, ns);
    if t.Node? {
      LinkedSummary(t.left, t.key, ns);
      LinkedSummary(t.right, t.key, ns);
      SummarizeConcat(Lines(t.left, ns), ns[t.key].line, Lines(t.right, ns));
    }
  }

  /** Every node of a linked tree satisfies the local aggregate formula. */
  lemma {:induction false} LinkedSummarized(t: Tree, par: int, ns: seq<LineNode>, x: int)
    requires Linked(t, par, ns)
    requires x in Keys(t)
    ensures 0 <= x < |ns| && Summarized(ns, x)
  {
    match t
    case Node(l, k, r) =>
      if x in Keys(l) {
        LinkedSummarized(l, k, ns, x);
      } else if x in Keys(r) {
        LinkedSummarized(r, k, ns, x);
      }
  }

  /** Records outside a subtree do not matter to it. */
  lemma {:induction false} LinkedFrame(t: Tree, par: int, ns: seq<LineNode>, ns': seq<LineNode>)
    requires Linked(t, par, ns)
    requires forall k :: k in Keys(t) ==> 0 <= k < |ns'| && k < |ns| && ns'[k] == ns[k]
    ensures Linked(t, par, ns')
    ensures InArena(t, |ns|) && InArena(t, |ns'|) && Lines(t, ns') == Lines(t, ns)
  {
    LinkedInArena(t, par, ns);
    if t.Node? {
      LinkedFrame(t.left, t.key, ns, ns');
      LinkedFrame(t.right, t.key, ns, ns');
    }
  }

  /** Only the top's parent pointer changed. */
  lemma {:induction false} LinkedReparent(t: Tree, par: int, par': int, ns: seq<LineNode>, ns': seq<LineNode>)
    requires Linked(t, par, ns) && Distinct(t) && t.Node?
    requires t.key < |ns'| && ns'[t.key] == ns[t.key].(parent := par')
    requires forall k :: k in Keys(t) && k != t.key ==> 0 <= k < |ns'| && k < |ns| && ns'[k] == ns[k]
    ensures Linked(t, par', ns')
    ensures InArena(t, |ns|) && InArena(t, |ns'|) && Lines(t, ns') == Lines(t, ns)
  {
    LinkedFrame(t.left, t.key, ns, ns');
    LinkedFrame(t.right, t.key, ns, ns');
  }

  /** Lines depend only on the stable payload of the records. */
  lemma {:induction false} LinesStable(t: Tree, ns: seq<LineNode>, ns': seq<LineNode>)
    requires InArena(t, |ns|) && Stable(ns, ns')
    ensures InArena(t, |ns'|) && Lines(t, ns') == Lines(t, ns) && IdsOf(t, ns') == IdsOf(t, ns)
  {
    if t.Node? {
      LinesStable(t.left, ns, ns');
      LinesStable(t.right, ns, ns');
    }
  }

  lemma {:induction false} IdsLength(t: Tree, ns: seq<LineNode>)
    requires InArena(t, |ns|)
    ensures |IdsOf(t, ns)| == Size(t)
  {
    if t.Node? {
      IdsLength(t.left, ns);
      IdsLength(t.right, ns);
    }
  }

  /** The id at row `i` is the id of the node at row `i`. */
  lemma {:induction false} IdsAt(t: Tree, ns: seq<LineNode>, i: nat)
    requires InArena(t, |ns|)
    requires i < Size(t)
    ensures |IdsOf(t, ns)| == Size(t) == |Inorder(t)|
    ensures Inorder(t)[i] < |ns| && IdsOf(t, ns)[i] == ns[Inorder(t)[i]].id
  {
    IdsLength(t, ns);
    InorderFacts(t);
    match t
    case Node(l, k, r) =>
      IdsLength(l, ns);
      InorderFacts(l);
      assert Inorder(t)[i] in Keys(t);
      if i < Size(l) {
        IdsAt(l, ns, i);
      } else if i > Size(l) {
        IdsAt(r, ns, i - Size(l) - 1);
      }
  }

  /** Two shapes with the same in-order handles over records with the same payload hold the same rows. */
  lemma {:induction false} SameInorder(t: Tree, t': Tree, ns: seq<LineNode>, ns': seq<LineNode>)
    requires InArena(t, |ns|) && InArena(t', |ns'|)
    requires Inorder(t) == Inorder(t')
    requires forall k :: k in Keys(t) ==> 0 <= k < |ns| && k < |ns'| && ns'[k].line == ns[k].line && ns'[k].id == ns[k].id
    ensures Lines(t', ns') == Lines(t, ns) && IdsOf(t', ns') == IdsOf(t, ns)
  {
    InorderFacts(t);
    InorderFacts(t');
    LinesLength(t, ns);
    LinesLength(t', ns');
    IdsLength(t, ns);
    IdsLength(t', ns');
    forall i | 0 <= i < Size(t)
      ensures Lines(t', ns')[i] == Lines(t, ns)[i] && IdsOf(t', ns')[i] == IdsOf(t, ns)[i]
    {
      LinesAt(t, ns, i);
      LinesAt(t', ns', i);
      IdsAt(t, ns, i);
      IdsAt(t', ns', i);
      assert Inorder(t)[i] in Inorder(t);
    }
  }

  // ---------------------------------------------------------------------------
  // The subtree of a node
  // ---------------------------------------------------------------------------

  /** The subtree whose top is handle `x`, Nil when there is none. */
  function Find(t: Tree, x: int): Tree {
    match t
    case Nil => Nil
    case Node(l, k, r) =>
      if k == x then t else if x in Keys(l) then Find(l, x) else Find(r, x)
  }

  /** In a linked tree, `x`'s subtree is linked under `x`'s parent pointer, which lies outside it. */
  lemma {:induction false} FindLinked(t: Tree, par: int, ns: seq<LineNode>, x: int)
    requires Linked(t, par, ns) && Distinct(t) && par !in Keys(t)
    requires x in Keys(t)
    ensures 0 <= x < |ns|
    ensures Find(t, x).Node? && Find(t, x).key == x
    ensures Keys(Find(t, x)) <= Keys(t) && Size(Find(t, x)) <= Size(t) && Distinct(Find(t, x))
    ensures Linked(Find(t, x), ns[x].parent, ns)
    ensures ns[x].parent !in Keys(Find(t, x))
    ensures x == t.key <==> ns[x].parent == par
    ensures x != t.key ==> ns[x].parent in Keys(t)
  {
    match t
    case Node(l, k, r) =>
      if k == x {
      } else if x in Keys(l) {
        FindLinked(l, k, ns, x);
      } else {
        FindLinked(r, k, ns, x);
      }
  }

  /** A subtree of a subtree is found directly. */
  lemma {:induction false} FindNested(t: Tree, x: int, y: int)
    requires Distinct(t) && x in Keys(t)
    requires y in Keys(Find(t, x))
    ensures Find(t, y) == Find(Find(t, x), y)
  {
    match t
    case Node(l, k, r) =>
      if k == x {
      } else if x in Keys(l) {
        FindKeys(l, x);
        FindNested(l, x, y);
      } else {
        FindKeys(r, x);
        FindNested(r, x, y);
      }
  }

  lemma {:induction false} FindKeys(t: Tree, x: int)
    ensures Keys(Find(t, x)) <= Keys(t)
    ensures Size(Find(t, x)) <= Size(t)
  {
    match t
    case Nil =>
    case Node(l, k, r) =>
      if k == x {
      } else if x in Keys(l) {
        FindKeys(l, x);
      } else {
        FindKeys(r, x);
      }
  }
}
