/**
 * The treap shared by DisplayIndex (src/display-index.js) and the older
 * ScreenLineIndex (src/screen-line-index.js), whose rotation, bubbling and
 * building code is the same line for line.
 *
 * Nodes live in an arena `nodes`; a handle is an arena index and NIL stands
 * for `null`. The ghost `tree` is the shape the left/right/parent fields
 * describe, and its in-order sequence of lines, `Rows()`, is the abstract
 * value of the index.
 */
module LineTrees {
  import opened Options
  import opened Points
  import opened ScreenLines
  import opened TreeShapes
  import opened TreeRotations
  import opened TreeSplices

  /** The module-level `idCounter` of src/line-node.js, shared by every tree. */
  class IdCounter {
    var value: nat

    constructor ()
      ensures value == 0
    {
      value := 0;
    }
  }

  /**
   * The priority source. The seeded generator is not modelled: its draws are
   * the caller-supplied `stream`, of which `draws` have been taken.
   */
  class RandomGenerator {
    const stream: nat -> real
    var draws: nat

    /** Every draw lies in [0, 1), as floatBetween(0, 1) and Math.random promise. */
    ghost predicate InUnitInterval() {
      forall i: nat :: 0.0 <= stream(i) < 1.0
    }

    constructor (stream: nat -> real)
      ensures this.stream == stream && draws == 0
    {
      this.stream := stream;
      draws := 0;
    }

    /** generateRandom(floor): the next draw, scaled into [floor, 1). */
    method FloatBetween(floor: real) returns (x: real)
      requires InUnitInterval() && 0.0 <= floor < 1.0
      modifies this
      ensures draws == old(draws) + 1
      ensures x == ScaledDraw(floor, stream(old(draws)))
    {
      x := ScaledDraw(floor, stream(draws));
      draws := draws + 1;
    }
  }

  lemma {:induction false} ProductPositive(a: real, b: real)
    requires a > 0.0 && b > 0.0
    ensures a * b > 0.0
  {
  }

  lemma {:induction false} ProductFacts(u: real, f: real)
    requires 0.0 <= u < 1.0 && 0.0 <= f < 1.0
    ensures u * f <= u && u + f - u * f < 1.0
    ensures u * (1.0 - f) == u - u * f
  {
    ProductPositive(1.0 - u, 1.0 - f);
    if u > 0.0 {
      ProductPositive(u, 1.0 - f);
    }
  }

  /** floatBetween(floor, 1) for the draw `u`: `u` scaled from [0, 1) into [floor, 1). */
  function ScaledDraw(floor: real, u: real): (x: real)
    requires 0.0 <= floor < 1.0 && 0.0 <= u < 1.0
    ensures floor <= x < 1.0
  {
    ProductFacts(u, floor);
    u * (1.0 - floor) + floor
  }

  /**
   * What every record of the arena keeps from its construction: ids that
   * grow with the handle and never pass the counter, and its line's tokens
   * with their computed offsets.
   */
  ghost predicate RecordsFresh(ns: seq<LineNode>, counter: nat) {
    (forall i, j :: 0 <= i < j < |ns| ==> ns[i].id < ns[j].id) &&
    (forall i :: 0 <= i < |ns| ==> ns[i].id <= counter) &&
    (forall i {:trigger TokensPlaced(ns[i].line.tokens, ns[i].tokens)} :: 0 <= i < |ns| ==> TokensPlaced(ns[i].line.tokens, ns[i].tokens))
  }

  /** After a left rotation the records are linked to the rotated shape, which stands for the same rows. */
  lemma {:induction false} RotatedLeftValid(t: Tree, ns: seq<LineNode>, ns': seq<LineNode>, p: nat, counter: nat)
    requires Linked(t, NIL, ns) && InArena(t, |ns|) && Distinct(t) && RecordsFresh(ns, counter)
    requires p in Keys(t) && RotatedLeft(ns, ns', p)
    ensures var t' := RotLeftAt(t, p);
      Linked(t', NIL, ns') && InArena(t', |ns'|) && Distinct(t') && RecordsFresh(ns', counter) &&
      Handle(t') == (if ns[ns[p].parent].parent == NIL then p else Handle(t)) &&
      Lines(t', ns') == Lines(t, ns) && IdsOf(t', ns') == IdsOf(t, ns) &&
      Keys(t') == Keys(t) && Size(t') == Size(t)
    ensures |ns'| == |ns| && forall k :: 0 <= k < |ns| ==> SamePayload(ns[k], ns'[k])
  {
    LeftRotationSite(t, ns, p);
    RotatedLeftPayload(ns, ns', p);
    KeysNat(t);
    RotateLeftLinked(t, NIL, ns, ns', p);
    RotLeftShape(t, p);
    var t' := RotLeftAt(t, p);
    LinkedInArena(t', NIL, ns');
    InArenaKeys(t, |ns|);
    SameInorder(t, t', ns, ns');
  }

  lemma {:induction false} RotatedRightValid(t: Tree, ns: seq<LineNode>, ns': seq<LineNode>, p: nat, counter: nat)
    requires Linked(t, NIL, ns) && InArena(t, |ns|) && Distinct(t) && RecordsFresh(ns, counter)
    requires p in Keys(t) && RotatedRight(ns, ns', p)
    ensures var t' := RotRightAt(t, p);
      Linked(t', NIL, ns') && InArena(t', |ns'|) && Distinct(t') && RecordsFresh(ns', counter) &&
      Handle(t') == (if ns[ns[p].parent].parent == NIL then p else Handle(t)) &&
      Lines(t', ns') == Lines(t, ns) && IdsOf(t', ns') == IdsOf(t, ns) &&
      Keys(t') == Keys(t) && Size(t') == Size(t)
    ensures |ns'| == |ns| && forall k :: 0 <= k < |ns| ==> SamePayload(ns[k], ns'[k])
  {
    RightRotationSite(t, ns, p);
    RotatedRightPayload(ns, ns', p);
    KeysNat(t);
    RotateRightLinked(t, NIL, ns, ns', p);
    RotRightShape(t, p);
    var t' := RotRightAt(t, p);
    LinkedInArena(t', NIL, ns');
    InArenaKeys(t, |ns|);
    SameInorder(t, t', ns, ns');
  }

  /**
   * Priorities do not decrease from a node to its children, start at
   * `floor` and stay below 1: the shape buildScreenLinesTree produces.
   */
  ghost predicate HeapOrdered(t: Tree, ns: seq<LineNode>, floor: real) {
    match t
    case Nil => true
    case Node(l, k, r) =>
      0 <= k < |ns| && floor <= ns[k].priority < 1.0 &&
      HeapOrdered(l, ns, ns[k].priority) && HeapOrdered(r, ns, ns[k].priority)
  }

  /** Every handle of `t` lies in [lo, hi): the nodes a build appended. */
  ghost predicate KeysWithin(t: Tree, lo: nat, hi: nat) {
    forall k :: k in Keys(t) ==> lo <= k < hi
  }

  /** Some line of `lines[start..end]` has no tokens, so building it fails. */
  ghost predicate HasEmptyLine(lines: seq<ScreenLine>, start: nat, end: nat)
    requires start <= end <= |lines|
  {
    exists i :: start <= i < end && |lines[i].tokens| == 0
  }

  lemma {:induction false} EmptyLineSplit(lines: seq<ScreenLine>, start: nat, middle: nat, end: nat)
    requires start <= middle <= end <= |lines|
    ensures HasEmptyLine(lines, start, end) <==> HasEmptyLine(lines, start, middle) || HasEmptyLine(lines, middle, end)
  {
    if HasEmptyLine(lines, start, end) {
      var i :| start <= i < end && |lines[i].tokens| == 0;
      assert i < middle || i >= middle;
    }
  }

  lemma {:induction false} EmptyLineFirst(lines: seq<ScreenLine>, start: nat, end: nat)
    requires start < end <= |lines|
    ensures HasEmptyLine(lines, start, end) <==> |lines[start].tokens| == 0 || HasEmptyLine(lines, start + 1, end)
  {
    if HasEmptyLine(lines, start, end) {
      var i :| start <= i < end && |lines[i].tokens| == 0;
      assert i == start || i > start;
    }
  }

  /** A kept prefix keeps every shorter prefix. */
  lemma {:induction false} PrefixOfPrefix<T>(a: seq<T>, b: seq<T>, n: nat)
    requires n <= |a| <= |b| && b[..|a|] == a
    ensures b[..n] == a[..n]
  {
    assert b[..n] == b[..|a|][..n];
  }

  /** A run of lines is the run before `middle`, the line at `middle` and the run after it. */
  lemma {:induction false} SliceAround<T>(s: seq<T>, start: nat, middle: nat, end: nat)
    requires start <= middle < end <= |s|
    ensures s[start..end] == s[start..middle] + [s[middle]] + s[middle + 1..end]
  {
  }

  /** Prefixes kept by successive steps are kept by both. */
  lemma {:induction false} PrefixKept<T>(a: seq<T>, b: seq<T>, c: seq<T>)
    requires |a| <= |b| <= |c| && b[..|a|] == a && c[..|b|] == b
    ensures c[..|a|] == a
  {
    assert c[..|a|] == c[..|b|][..|a|];
  }

  /** What a build leaves: a linked, heap-ordered tree of distinct nodes in [lo, hi). */
  ghost predicate Built(t: Tree, ns: seq<LineNode>, lo: nat, hi: nat, floor: real) {
    Linked(t, NIL, ns) && Distinct(t) && InArena(t, |ns|) && KeysWithin(t, lo, hi) && HeapOrdered(t, ns, floor)
  }

  lemma {:induction false} HeapOrderedFrame(t: Tree, ns: seq<LineNode>, ns': seq<LineNode>, floor: real)
    requires HeapOrdered(t, ns, floor)
    requires forall k :: k in Keys(t) ==> 0 <= k < |ns'| && k < |ns| && ns'[k].priority == ns[k].priority
    ensures HeapOrdered(t, ns', floor)
  {
    match t
    case Nil =>
    case Node(l, k, r) =>
      HeapOrderedFrame(l, ns, ns', ns[k].priority);
      HeapOrderedFrame(r, ns, ns', ns[k].priority);
  }

  /** A heap-ordered tree has all its priorities in [floor, 1). */
  lemma {:induction false} HeapOrderedBounds(t: Tree, ns: seq<LineNode>, floor: real)
    requires HeapOrdered(t, ns, floor)
    ensures forall k :: k in Keys(t) ==> 0 <= k < |ns| && floor <= ns[k].priority < 1.0
  {
    match t
    case Nil =>
    case Node(l, k, r) =>
      HeapOrderedBounds(l, ns, ns[k].priority);
      HeapOrderedBounds(r, ns, ns[k].priority);
  }

  /**
   * The last step of buildScreenLinesTree: a fresh node `k` over the two
   * subtrees built before it, whose roots now point up at it, is a linked
   * tree of the lines of both subtrees around its own.
   */
  lemma {:induction false} Assemble(lt: Tree, rt: Tree, k: nat, ns: seq<LineNode>, ns': seq<LineNode>, lo: nat, mid: nat, floor: real)
    requires |ns| == k && |ns'| == k + 1 && lo <= mid <= k
    requires Built(lt, ns, lo, mid, ns'[k].priority) && Built(rt, ns, mid, k, ns'[k].priority)
    requires floor <= ns'[k].priority < 1.0
    requires ns'[k].left == Handle(lt) && ns'[k].right == Handle(rt) && ns'[k].parent == NIL
    requires Summarized(ns', k)
    requires forall i :: 0 <= i < k ==>
      ns'[i] == if i == Handle(lt) || i == Handle(rt) then ns[i].(parent := k) else ns[i]
    ensures var t := Node(lt, k, rt);
      Built(t, ns', lo, k + 1, floor) && Lines(t, ns') == Lines(lt, ns) + [ns'[k].line] + Lines(rt, ns)
  {
    assert Keys(lt) !! Keys(rt) by {
      forall x | x in Keys(lt) ensures x !in Keys(rt) {
      }
    }
    AssembleLinked(lt, k, rt, ns, ns', lo, mid);
    AssembleLinked(rt, k, lt, ns, ns', mid, k);
    var t := Node(lt, k, rt);
    assert k !in Keys(lt) && k !in Keys(rt);
    assert Linked(t, NIL, ns');
    HeapOrderedFrame(lt, ns, ns', ns'[k].priority);
    HeapOrderedFrame(rt, ns, ns', ns'[k].priority);
  }

  /**
   * The arena after the node is created (`mid1`) and its children point up
   * at it (`ns'`): the new subtree is built, and the tree the arena held
   * before stands for the same rows.
   */
  lemma {:induction false} JoinFacts(t: Tree, lt: Tree, rt: Tree, k: nat, ns: seq<LineNode>, mid1: seq<LineNode>, ns': seq<LineNode>,
                  lo: nat, mid: nat, floor: real)
    requires |ns| == k && lo <= mid <= k && |mid1| == k + 1
    requires Linked(t, NIL, ns) && InArena(t, lo) && InArena(t, k)
    requires Built(lt, ns, lo, mid, mid1[k].priority) && Built(rt, ns, mid, k, mid1[k].priority)
    requires mid1[..k] == ns && Summarized(mid1, k)
    requires floor <= mid1[k].priority < 1.0
    requires mid1[k].left == Handle(lt) && mid1[k].right == Handle(rt) && mid1[k].parent == NIL
    requires |ns'| == k + 1
    requires forall i :: 0 <= i < k + 1 ==>
      ns'[i] == if i == Handle(lt) || i == Handle(rt) then mid1[i].(parent := k) else mid1[i]
    ensures var b := Node(lt, k, rt);
      Built(b, ns', lo, k + 1, floor) && Lines(b, ns') == Lines(lt, ns) + [mid1[k].line] + Lines(rt, ns)
    ensures Linked(t, NIL, ns') && InArena(t, |ns'|) && Lines(t, ns') == Lines(t, ns) && IdsOf(t, ns') == IdsOf(t, ns)
    ensures ns'[..lo] == ns[..lo]
    ensures forall i :: 0 <= i < k + 1 ==> ns'[i].id == mid1[i].id
  {
    HandleNil(lt);
    HandleNil(rt);
    assert ns'[k] == mid1[k];
    Assemble(lt, rt, k, ns, ns', lo, mid, floor);
    InArenaKeys(t, lo);
    LinkedFrame(t, NIL, ns, ns');
    LinesStable(t, ns, ns');
    assert ns'[..lo] == ns[..lo];
  }

  /** One of the two subtrees of Assemble, hung under `k`. */
  lemma {:induction false} AssembleLinked(c: Tree, k: nat, other: Tree, ns: seq<LineNode>, ns': seq<LineNode>, lo: nat, hi: nat)
    requires |ns| == k && |ns'| == k + 1 && hi <= k
    requires Linked(c, NIL, ns) && Distinct(c) && KeysWithin(c, lo, hi) && InArena(c, k)
    requires Keys(other) !! Keys(c)
    requires forall i :: 0 <= i < k ==>
      ns'[i] == if i == Handle(c) || i == Handle(other) then ns[i].(parent := k) else ns[i]
    ensures Linked(c, k, ns') && InArena(c, k + 1) && Lines(c, ns') == Lines(c, ns)
    ensures forall i :: i in Keys(c) ==> ns'[i].priority == ns[i].priority
  {
    HandleNil(c);
    HandleNil(other);
    if c.Node? {
      LinkedReparent(c, NIL, k, ns, ns');
    }
  }

  /** Changing the priority of one record keeps every tree linked. */
  lemma {:induction false} LinkedReprioritized(t: Tree, par: int, ns: seq<LineNode>, k: nat, p: real)
    requires Linked(t, par, ns) && k < |ns|
    ensures Linked(t, par, ns[k := ns[k].(priority := p)])
  {
    var ns' := ns[k := ns[k].(priority := p)];
    if t.Node? {
      LinkedReprioritized(t.left, t.key, ns, k, p);
      LinkedReprioritized(t.right, t.key, ns, k, p);
      assert ChildSummary(ns', ns[t.key].left) == ChildSummary(ns, ns[t.key].left);
      assert ChildSummary(ns', ns[t.key].right) == ChildSummary(ns, ns[t.key].right);
    }
  }

  /**
   * The shape of the tree once the start node (row `s - 1`) and then the
   * end node (row `s + n`) are lifted to the top: rows `s` to `s + n - 1`
   * are one subtree `b`.
   */
  lemma {:induction false} BoundsShape(t: Tree, a0: Tree, b0: Tree, s: nat, n: nat, startNode: int, endNode: int)
    returns (a: Tree, b: Tree, c: Tree)
    requires Distinct(t)
    requires startNode == if 1 <= s <= |Inorder(t)| then Inorder(t)[s - 1] else NIL
    requires endNode == if s + n < |Inorder(t)| then Inorder(t)[s + n] else NIL
    requires endNode != NIL ==>
      t.Node? && t.key == endNode && (startNode == NIL || Handle(t.left) == startNode || Handle(t.right) == startNode)
    requires endNode == NIL && startNode != NIL ==> t == Node(a0, startNode, b0) && Size(a0) + 1 == s
    requires endNode == NIL && startNode == NIL ==> b0 == t
    ensures startNode != NIL && endNode != NIL ==>
      t == Node(Node(a, startNode, b), endNode, c) && Size(a) + 1 == s && Size(b) == n
    ensures startNode != NIL && endNode == NIL ==>
      t == Node(a, startNode, b) && Size(a) + 1 == s && Size(t) <= s + n
    ensures startNode == NIL && endNode != NIL ==>
      t == Node(b, endNode, c) && s == 0 && Size(b) == n
    ensures startNode == NIL && endNode == NIL ==>
      b == t && ((s == 0 && Size(t) <= n) || Size(t) < s)
  {
    InorderFacts(t);
    a, b, c := a0, b0, Nil;
    if endNode != NIL {
      if startNode != NIL {
        TopOfLeft(t, s - 1, s + n, startNode);
        a, b, c := t.left.left, t.left.right, t.right;
      } else {
        TopPosition(t, s + n);
        b, c := t.left, t.right;
      }
    }
  }

  /** The ids stay fresh when no record changes its payload. */
  lemma {:induction false} RecordsFreshKept(ns: seq<LineNode>, ns': seq<LineNode>, counter: nat)
    requires RecordsFresh(ns, counter) && |ns'| == |ns|
    requires forall k :: 0 <= k < |ns| ==> SamePayload(ns[k], ns'[k])
    ensures RecordsFresh(ns', counter)
  {
    forall k | 0 <= k < |ns|
      ensures ns'[k].id == ns[k].id && ns'[k].line == ns[k].line && ns'[k].tokens == ns[k].tokens
    {
      assert SamePayload(ns[k], ns'[k]);
    }
  }

  /**
   * The end-node branch of splice on the records: `y`'s left link is set
   * to the new subtree's top, which points up at `y`, and `y` recomputes.
   * The result is a well-formed tree of the spliced rows.
   */
  lemma {:induction false} GraftedUnderEnd(t: Tree, b: Tree, y: nat, c: Tree, bt: Tree,
                        ns: seq<LineNode>, ns1: seq<LineNode>, ns2: seq<LineNode>, ns': seq<LineNode>, counter: nat, n: nat)
    requires WellFormed(y, t, ns, counter) && t == Node(b, y, c) && Size(b) == n
    requires Linked(bt, NIL, ns) && Distinct(bt) && InArena(bt, |ns|) && Keys(t) !! Keys(bt)
    requires ns1 == ns[y := ns[y].(left := Handle(bt))]
    requires (Handle(bt) == NIL || 0 <= Handle(bt) < |ns1|) && ns2 == Reparent(ns1, Handle(bt), y)
    requires ns' == Recompute(ns2, y)
    ensures WellFormed(y, Node(bt, y, c), ns', counter)
    ensures Lines(Node(bt, y, c), ns') == TreeSplice(Lines(t, ns), 0, n, Lines(bt, ns))
    ensures IdsOf(Node(bt, y, c), ns') == TreeSplice(IdsOf(t, ns), 0, n, IdsOf(bt, ns))
    ensures Linked(b, y, ns') && InArena(b, |ns'|) && IdsOf(b, ns') == TreeSplicedOut(IdsOf(t, ns), 0, n)
    ensures Keys(Node(bt, y, c)) == Keys(t) - Keys(b) + Keys(bt) && Keys(b) !! Keys(Node(bt, y, c))
    ensures |ns'| == |ns| && forall k :: 0 <= k < |ns| ==> SamePayload(ns[k], ns'[k])
  {
    HandleNil(bt);
    HandleNil(c);
    InArenaKeys(c, |ns|);
    GraftRecords(ns, ns1, ns2, ns', y, Handle(bt), Handle(c));
    SplicedBefore(b, y, c, bt, ns, ns', n);
    DistinctTop(c, y, b, bt, false);
    RecordsFreshKept(ns, ns', counter);
  }

  /**
   * The start-node branch of splice on the records when there is no end
   * node: `x`'s right link is set to the new subtree's top, which points
   * up at `x`, and `x` recomputes.
   */
  lemma {:induction false} GraftedUnderStart(t: Tree, a: Tree, x: nat, b: Tree, bt: Tree,
                          ns: seq<LineNode>, ns1: seq<LineNode>, ns2: seq<LineNode>, ns': seq<LineNode>,
                          counter: nat, s: nat, n: nat)
    requires WellFormed(x, t, ns, counter) && t == Node(a, x, b) && Size(a) + 1 == s && Size(t) <= s + n
    requires Linked(bt, NIL, ns) && Distinct(bt) && InArena(bt, |ns|) && Keys(t) !! Keys(bt)
    requires ns1 == ns[x := ns[x].(right := Handle(bt))]
    requires (Handle(bt) == NIL || 0 <= Handle(bt) < |ns1|) && ns2 == Reparent(ns1, Handle(bt), x)
    requires ns' == Recompute(ns2, x)
    ensures WellFormed(x, Node(a, x, bt), ns', counter)
    ensures Lines(Node(a, x, bt), ns') == TreeSplice(Lines(t, ns), s, n, Lines(bt, ns))
    ensures IdsOf(Node(a, x, bt), ns') == TreeSplice(IdsOf(t, ns), s, n, IdsOf(bt, ns))
    ensures Linked(b, x, ns') && InArena(b, |ns'|) && IdsOf(b, ns') == TreeSplicedOut(IdsOf(t, ns), s, n)
    ensures Keys(Node(a, x, bt)) == Keys(t) - Keys(b) + Keys(bt) && Keys(b) !! Keys(Node(a, x, bt))
    ensures |ns'| == |ns| && forall k :: 0 <= k < |ns| ==> SamePayload(ns[k], ns'[k])
  {
    HandleNil(bt);
    HandleNil(a);
    InArenaKeys(a, |ns|);
    GraftRecords(ns, ns1, ns2, ns', x, Handle(bt), Handle(a));
    SplicedAfter(a, x, b, bt, ns, ns', s, n);
    DistinctTop(a, x, b, bt, true);
    RecordsFreshKept(ns, ns', counter);
  }

  /**
   * The start-node branch of splice with an end node `y` above: after the
   * graft at `x`, `y` recomputes too.
   */
  lemma {:induction false} GraftedBetween(t: Tree, a: Tree, x: nat, b: Tree, y: nat, c: Tree, bt: Tree,
                       ns: seq<LineNode>, ns1: seq<LineNode>, ns2: seq<LineNode>, ns3: seq<LineNode>, ns': seq<LineNode>,
                       counter: nat, s: nat, n: nat)
    requires WellFormed(y, t, ns, counter) && t == Node(Node(a, x, b), y, c) && Size(a) + 1 == s && Size(b) == n
    requires Linked(bt, NIL, ns) && Distinct(bt) && InArena(bt, |ns|) && Keys(t) !! Keys(bt)
    requires x < |ns| && ns1 == ns[x := ns[x].(right := Handle(bt))]
    requires (Handle(bt) == NIL || 0 <= Handle(bt) < |ns1|) && ns2 == Reparent(ns1, Handle(bt), x)
    requires ns3 == Recompute(ns2, x) && ns' == Recompute(ns3, y)
    ensures WellFormed(y, Node(Node(a, x, bt), y, c), ns', counter)
    ensures Lines(Node(Node(a, x, bt), y, c), ns') == TreeSplice(Lines(t, ns), s, n, Lines(bt, ns))
    ensures IdsOf(Node(Node(a, x, bt), y, c), ns') == TreeSplice(IdsOf(t, ns), s, n, IdsOf(bt, ns))
    ensures Linked(b, x, ns') && InArena(b, |ns'|) && IdsOf(b, ns') == TreeSplicedOut(IdsOf(t, ns), s, n)
    ensures Keys(Node(Node(a, x, bt), y, c)) == Keys(t) - Keys(b) + Keys(bt) && Keys(b) !! Keys(Node(Node(a, x, bt), y, c))
    ensures |ns'| == |ns| && forall k :: 0 <= k < |ns| ==> SamePayload(ns[k], ns'[k])
  {
    BetweenLinks(a, x, b, y, c, ns);
    BetweenApart(a, x, b, y, c, bt, |ns|);
    BetweenRecords(ns, ns1, ns2, ns3, ns', x, y, Handle(bt));
    SplicedBetween(a, x, b, y, c, bt, ns, ns', s, n);
    DistinctBetween(a, x, b, y, c, bt);
    RecordsFreshKept(ns, ns', counter);
  }

  /** A built subtree of fresh records shares no node with the tree built before it. */
  lemma {:induction false} BuiltApart(t: Tree, bt: Tree, ns1: seq<LineNode>, ns: seq<LineNode>)
    requires InArena(t, |ns1|) && Built(bt, ns, |ns1|, |ns|, 0.0)
    ensures Keys(t) !! Keys(bt)
    ensures forall k :: k in Keys(bt) ==> 0 <= k < |ns| && 0.0 <= ns[k].priority < 1.0
  {
    InArenaKeys(t, |ns1|);
    HeapOrderedBounds(bt, ns, 0.0);
    forall k | k in Keys(t) ensures k !in Keys(bt) { }
  }

  /**
   * A detached subtree none of whose nodes belongs to `keys` keeps its
   * links and ids while only the records of `keys` change, and only in
   * their priorities.
   */
  lemma {:induction false} KeptOutside(t: Tree, par: int, ns: seq<LineNode>, ns': seq<LineNode>, keys: set<int>, except: set<int>)
    requires Linked(t, par, ns) && InArena(t, |ns|) && Keys(t) !! keys
    requires Outside(keys, ns, ns') && PayloadKept(ns, ns', except)
    ensures Linked(t, par, ns') && InArena(t, |ns'|) && IdsOf(t, ns') == IdsOf(t, ns)
  {
    InArenaKeys(t, |ns|);
    LinkedFrame(t, par, ns, ns');
    LinesStable(t, ns, ns');
  }

  /**
   * The priorities after splice: every node of the new tree is an old node
   * other than the neighbours, a node of the built subtree, or a neighbour
   * with a fresh draw, so each priority lies in [0, 1).
   */
  lemma {:induction false} SplicedPriorities(t0: Tree, t: Tree, b: Tree, bt: Tree,
                          ns0: seq<LineNode>, ns1: seq<LineNode>, ns2: seq<LineNode>, ns3: seq<LineNode>, ns: seq<LineNode>,
                          x: int, y: int)
    requires PrioritiesIn(t0, ns0) && PayloadKept(ns0, ns1, {x, y})
    requires |ns1| <= |ns2| && ns2[..|ns1|] == ns1
    requires forall k :: k in Keys(bt) ==> 0 <= k < |ns2| && 0.0 <= ns2[k].priority < 1.0
    requires |ns3| == |ns2| && forall k :: 0 <= k < |ns2| ==> SamePayload(ns2[k], ns3[k])
    requires PayloadKept(ns3, ns, {x, y})
    requires x != NIL ==> 0 <= x < |ns| && 0.0 <= ns[x].priority < 1.0
    requires y != NIL ==> 0 <= y < |ns| && 0.0 <= ns[y].priority < 1.0
    requires Keys(t) == Keys(t0) - Keys(b) + Keys(bt) && NIL !in Keys(t)
    ensures PrioritiesIn(t, ns)
  {
    forall k | k in Keys(t)
      ensures 0 <= k < |ns| && 0.0 <= ns[k].priority < 1.0
    {
      if k == x || k == y {
      } else if k in Keys(bt) {
        assert SamePayload(ns2[k], ns3[k]);
      } else {
        assert ns2[k] == ns1[k];
        assert SamePayload(ns2[k], ns3[k]);
      }
    }
  }

  /** `ns'` keeps the payload of every record of `ns`; only the nodes in `except` may have new priorities. */
  ghost predicate PayloadKept(ns: seq<LineNode>, ns': seq<LineNode>, except: set<int>) {
    |ns'| == |ns| &&
    forall k :: 0 <= k < |ns| ==>
      ns'[k].line == ns[k].line && ns'[k].tokens == ns[k].tokens && ns'[k].id == ns[k].id &&
      (k !in except ==> ns'[k].priority == ns[k].priority)
  }

  /** The priorities of the nodes of `t` are draws of the generator, in [0, 1). */
  ghost predicate PrioritiesIn(t: Tree, ns: seq<LineNode>) {
    forall k :: k in Keys(t) ==> 0 <= k < |ns| && 0.0 <= ns[k].priority < 1.0
  }

  /** After one node's priority was set to `floor` or above, every priority of the tree lies above `floor`. */
  lemma {:induction false} PrioritiesAbove(t: Tree, ns0: seq<LineNode>, ns: seq<LineNode>, x: int, floor: real)
    requires PrioritiesIn(t, ns0) && PayloadKept(ns0, ns, {x}) && floor < 0.0
    requires 0 <= x < |ns| ==> floor < ns[x].priority
    ensures forall k :: k in Keys(t) ==> 0 <= k < |ns| && floor < ns[k].priority
  {
  }

  lemma {:induction false} PayloadKeptTransitive(a: seq<LineNode>, b: seq<LineNode>, c: seq<LineNode>, e1: set<int>, e2: set<int>)
    requires PayloadKept(a, b, e1) && PayloadKept(b, c, e2)
    ensures PayloadKept(a, c, e1 + e2)
  {
  }

  /** The node at position `i` of the in-order handles, once at the top, has `i` rows on its left. */
  lemma {:induction false} TopPosition(t: Tree, i: nat)
    requires Distinct(t) && t.Node? && i < |Inorder(t)| && Inorder(t)[i] == t.key
    ensures Size(t.left) == i
  {
    InorderFacts(t);
    InorderIndex(t, i);
  }

  /**
   * With the node of position `j` at the top, a node of an earlier position
   * `i` heading one of its sides heads the left one, with `i` rows on its left.
   */
  lemma {:induction false} TopOfLeft(t: Tree, i: nat, j: nat, x: int)
    requires Distinct(t) && t.Node? && i < j < |Inorder(t)| && Inorder(t)[j] == t.key && Inorder(t)[i] == x
    requires Handle(t.left) == x || Handle(t.right) == x
    ensures t.left.Node? && t.left.key == x && Size(t.left.left) == i && Size(t.left) == j
  {
    InorderFacts(t);
    InorderIndex(t, j);
    InorderIndex(t, i);
    HandleNil(t.left);
    HandleNil(t.right);
    InorderIndex(t.left, i);
  }

  /** A priority write to `node` followed by rotations: only that priority changed. */
  lemma {:induction false} ReprioritizedPayload(ns0: seq<LineNode>, ns1: seq<LineNode>, ns: seq<LineNode>, node: nat, priority: real)
    requires node < |ns0| && ns1 == ns0[node := ns0[node].(priority := priority)]
    requires |ns| == |ns1| && forall k :: 0 <= k < |ns1| ==> SamePayload(ns1[k], ns[k])
    ensures PayloadKept(ns0, ns, {node}) && ns[node].priority == priority
  {
    assert SamePayload(ns1[node], ns[node]);
  }

  /**
   * A node whose new priority is below every other one of the tree, and
   * not below its parent's, has no parent: it is the top of the tree.
   */
  lemma {:induction false} BubbledToTop(t: Tree, ns0: seq<LineNode>, ns: seq<LineNode>, node: nat, priority: real)
    requires Linked(t, NIL, ns) && Distinct(t) && node in Keys(t)
    requires PayloadKept(ns0, ns, {node}) && node < |ns| && ns[node].priority == priority
    requires forall k :: k in Keys(t) && k != node ==> 0 <= k < |ns0| && priority < ns0[k].priority
    requires ns[node].parent != NIL ==> 0 <= ns[node].parent < |ns| && ns[node].priority >= ns[ns[node].parent].priority
    ensures t.Node? && t.key == node && ns[node].parent == NIL
  {
    KeysNat(t);
    FindLinked(t, NIL, ns, node);
    NeighbourFacts(t, ns, node);
    assert forall k :: k in Keys(t) && k != node ==> priority < ns[k].priority;
  }

  /** A priority compared by bubbleNodeDown: a real, or +infinity for a missing child. */
  datatype PriorityBound = Finite(value: real) | Infinite

  /** The source's `<` on priorities extended with +infinity. */
  predicate Below(a: PriorityBound, b: PriorityBound) {
    a.Finite? && (b.Infinite? || a.value < b.value)
  }

  ghost predicate WellFormed(root: int, tree: Tree, nodes: seq<LineNode>, counter: nat) {
      root == Handle(tree) &&
      Linked(tree, NIL, nodes) && InArena(tree, |nodes|) && Distinct(tree) &&
      RecordsFresh(nodes, counter)
  }

  class LineTree {
    var root: int
    var nodes: seq<LineNode>
    ghost var tree: Tree
    const ids: IdCounter
    const random: RandomGenerator

    ghost predicate Valid()
      reads this, ids
    {
      WellFormed(root, tree, nodes, ids.value)
    }

    /** The lines by screen row: the value the tree stands for. */
    ghost function Rows(): seq<ScreenLine>
      reads this, ids
      requires Valid()
    {
      Lines(tree, nodes)
    }

    /** The nodes' ids by screen row. */
    ghost function RowIds(): seq<nat>
      reads this, ids
      requires Valid()
    {
      IdsOf(tree, nodes)
    }

    /** The priorities of the tree's nodes are draws of the generator, in [0, 1). */
    ghost predicate RandomPriorities()
      reads this
    {
      PrioritiesIn(tree, nodes)
    }

    constructor (ids: IdCounter, random: RandomGenerator)
      ensures Valid() && Rows() == [] && RandomPriorities()
      ensures this.ids == ids && this.random == random
      ensures nodes == []
    {
      this.ids := ids;
      this.random := random;
      root := NIL;
      nodes := [];
      tree := Nil;
    }

    /** getScreenLineCount */
    function GetScreenLineCount(): (n: nat)
      reads this, ids
      requires Valid()
      ensures n == |Rows()|
    {
      LinkedSummary(tree, NIL, nodes);
      LinesLength(tree, nodes);
      if root != NIL then nodes[root].subtreeRowCount else 0
    }

    /** getLastScreenRow */
    function GetLastScreenRow(): (r: int)
      reads this, ids
      requires Valid()
      ensures r == |Rows()| - 1
    {
      GetScreenLineCount() - 1
    }

    /** getLeftSubtreeRowCount of node `k`: the number of rows in its left subtree. */
    method GetLeftSubtreeRowCount(k: nat) returns (n: nat)
      requires Valid() && k in Keys(tree)
      ensures Find(tree, k).Node? && n == Size(Find(tree, k).left)
    {
      KeysNat(tree);
      FindLinked(tree, NIL, nodes, k);
      var s := Find(tree, k);
      LinkedSummary(s.left, k, nodes);
      LinkedInArena(s.left, k, nodes);
      LinesLength(s.left, nodes);
      n := if nodes[k].left != NIL then nodes[nodes[k].left].subtreeRowCount else 0;
    }

    /** getLeftSubtreeBufferExtent of node `k`: the buffer extent of the lines of its left subtree. */
    method GetLeftSubtreeBufferExtent(k: nat) returns (e: Point)
      requires Valid() && k in Keys(tree)
      ensures Find(tree, k).Node? && InArena(Find(tree, k).left, |nodes|)
      ensures e == TotalExtent(Lines(Find(tree, k).left, nodes))
    {
      KeysNat(tree);
      FindLinked(tree, NIL, nodes, k);
      var s := Find(tree, k);
      LinkedSummary(s.left, k, nodes);
      LinkedInArena(s.left, k, nodes);
      e := if nodes[k].left != NIL then nodes[nodes[k].left].subtreeBufferExtent else ZERO_POINT;
    }

    /** computeSubtreeProperties of node `k`: its aggregates from its children's fields. */
    method ComputeSubtreeProperties(k: nat)
      requires k < |nodes|
      modifies this
      ensures nodes == old(nodes)[k := WithAggregates(old(nodes)[k], ComputedAggregates(old(nodes), k))]
      ensures root == old(root) && tree == old(tree)
    {
      var n := nodes[k];
      var leftSubtreeRowCount := if 0 <= n.left < |nodes| then nodes[n.left].subtreeRowCount else 0;
      var rightSubtreeRowCount := if 0 <= n.right < |nodes| then nodes[n.right].subtreeRowCount else 0;
      var leftMax := if 0 <= n.left < |nodes| then nodes[n.left].maxScreenExtent else -1;
      var rightMax := if 0 <= n.right < |nodes| then nodes[n.right].maxScreenExtent else -1;
      var leftExtent := if 0 <= n.left < |nodes| then nodes[n.left].subtreeBufferExtent else ZERO_POINT;
      var rightExtent := if 0 <= n.right < |nodes| then nodes[n.right].subtreeBufferExtent else ZERO_POINT;
      nodes := nodes[k := n.(
        subtreeRowCount := leftSubtreeRowCount + 1 + rightSubtreeRowCount,
        maxScreenExtent := Max(Max(leftMax, n.line.screenExtent), rightMax),
        subtreeBufferExtent := Traverse(Traverse(leftExtent, n.line.bufferExtent), rightExtent))];
    }

    /**
     * Hangs `replacement` where `child` hung under `parent`, or makes it the
     * root when `child` had no parent (the first step of both rotations).
     */
    method ReplaceChild(parent: int, child: int, replacement: int)
      requires parent == NIL || 0 <= parent < |nodes|
      modifies this
      ensures parent == NIL ==> nodes == old(nodes) && root == replacement
      ensures parent != NIL ==>
        root == old(root) &&
        nodes == old(nodes)[parent := if old(nodes[parent].left) == child
          then old(nodes[parent]).(left := replacement)
          else old(nodes[parent]).(right := replacement)]
      ensures tree == old(tree)
    {
      if parent != NIL {
        if nodes[parent].left == child {
          nodes := nodes[parent := nodes[parent].(left := replacement)];
        } else {
          nodes := nodes[parent := nodes[parent].(right := replacement)];
        }
      } else {
        root := replacement;
      }
    }

    /** The link rewrites of rotateNodeLeft, before the two nodes recompute their aggregates. */
    method RelinkLeft(pivot: nat)
      requires LeftRotatable(nodes, pivot)
      modifies this
      ensures LinksRotatedLeft(old(nodes), nodes, pivot)
      ensures root == if old(nodes[nodes[pivot].parent].parent) == NIL then pivot else old(root)
      ensures tree == old(tree)
    {
      var r := nodes[pivot].parent;
      var g := nodes[r].parent;
      ReplaceChild(g, r, pivot);
      nodes := nodes[pivot := nodes[pivot].(parent := g)];
      var b := nodes[pivot].left;
      nodes := nodes[r := nodes[r].(right := b)];
      if b != NIL {
        nodes := nodes[b := nodes[b].(parent := r)];
      }
      nodes := nodes[pivot := nodes[pivot].(left := r)];
      nodes := nodes[r := nodes[r].(parent := pivot)];
    }

    /** rotateNodeLeft: lifts the right child `pivot` over its parent. */
    method RotateNodeLeft(pivot: nat)
      requires Valid() && pivot in Keys(tree) && IsRightChild(nodes, pivot)
      modifies this
      ensures Valid()
      ensures tree == RotLeftAt(old(tree), pivot) && RotatedLeft(old(nodes), nodes, pivot)
      ensures root == if old(nodes[nodes[pivot].parent].parent) == NIL then pivot else old(root)
      ensures Rows() == old(Rows()) && RowIds() == old(RowIds())
      ensures Keys(tree) == old(Keys(tree)) && Size(tree) == old(Size(tree))
      ensures |nodes| == old(|nodes|) && forall k :: 0 <= k < |nodes| ==> SamePayload(old(nodes[k]), nodes[k])
    {
      ghost var ns, t := nodes, tree;
      LeftRotationSite(tree, nodes, pivot);
      var r := nodes[pivot].parent;
      RelinkLeft(pivot);
      ghost var mid := nodes;
      ComputeSubtreeProperties(r);
      ComputeSubtreeProperties(pivot);
      LinksRotatedLeftThenSummarized(ns, mid, pivot, r);
      RotatedLeftValid(t, ns, nodes, pivot, ids.value);
      tree := RotLeftAt(t, pivot);
    }

    /** The link rewrites of rotateNodeRight, before the two nodes recompute their aggregates. */
    method RelinkRight(pivot: nat)
      requires RightRotatable(nodes, pivot)
      modifies this
      ensures LinksRotatedRight(old(nodes), nodes, pivot)
      ensures root == if old(nodes[nodes[pivot].parent].parent) == NIL then pivot else old(root)
      ensures tree == old(tree)
    {
      var r := nodes[pivot].parent;
      var g := nodes[r].parent;
      ReplaceChild(g, r, pivot);
      nodes := nodes[pivot := nodes[pivot].(parent := g)];
      var b := nodes[pivot].right;
      nodes := nodes[r := nodes[r].(left := b)];
      if b != NIL {
        nodes := nodes[b := nodes[b].(parent := r)];
      }
      nodes := nodes[pivot := nodes[pivot].(right := r)];
      nodes := nodes[r := nodes[r].(parent := pivot)];
    }

    /** rotateNodeRight: lifts the left child `pivot` over its parent. */
    method RotateNodeRight(pivot: nat)
      requires Valid() && pivot in Keys(tree) && IsLeftChild(nodes, pivot)
      modifies this
      ensures Valid()
      ensures tree == RotRightAt(old(tree), pivot) && RotatedRight(old(nodes), nodes, pivot)
      ensures root == if old(nodes[nodes[pivot].parent].parent) == NIL then pivot else old(root)
      ensures Rows() == old(Rows()) && RowIds() == old(RowIds())
      ensures Keys(tree) == old(Keys(tree)) && Size(tree) == old(Size(tree))
      ensures |nodes| == old(|nodes|) && forall k :: 0 <= k < |nodes| ==> SamePayload(old(nodes[k]), nodes[k])
    {
      ghost var ns, t := nodes, tree;
      RightRotationSite(tree, nodes, pivot);
      var r := nodes[pivot].parent;
      RelinkRight(pivot);
      ghost var mid := nodes;
      ComputeSubtreeProperties(r);
      ComputeSubtreeProperties(pivot);
      LinksRotatedRightThenSummarized(ns, mid, pivot, r);
      RotatedRightValid(t, ns, nodes, pivot, ids.value);
      tree := RotRightAt(t, pivot);
    }
 
    /** One step of bubbleNodeUp: the rotation that lifts `node` over its parent. */
    method LiftNode(node: nat)
      requires Valid() && node in Keys(tree) && node < |nodes| && nodes[node].parent != NIL
      modifies this
      ensures Valid() && node in Keys(tree) && node < |nodes|
      ensures Rows() == old(Rows()) && RowIds() == old(RowIds())
      ensures Keys(tree) == old(Keys(tree)) && Size(tree) == old(Size(tree))
      ensures |nodes| == old(|nodes|) && forall k :: 0 <= k < |nodes| ==> SamePayload(old(nodes[k]), nodes[k])
      ensures Size(Find(old(tree), node)) < Size(Find(tree, node)) <= Size(tree)
      ensures root == old(root) || (tree.Node? && root == node && (Handle(tree.left) == old(root) || Handle(tree.right) == old(root)))
      ensures Inorder(tree) == old(Inorder(tree)) && Outside(Keys(tree), old(nodes), nodes)
    {
      ghost var t, ns := tree, nodes;
      NeighbourFacts(tree, nodes, node);
      if node == nodes[nodes[node].parent].left {
        RotRightMeasures(tree, nodes, node);
        RotateNodeRight(node);
        RotatedRightFrame(t, ns, nodes, node);
      } else {
        RotLeftMeasures(tree, nodes, node);
        RotateNodeLeft(node);
        RotatedLeftFrame(t, ns, nodes, node);
      }
    }

    /**
     * bubbleNodeUp: rotates `node` over its parent while its priority is
     * below the parent's. It stops at the root or under a parent whose
     * priority is not above its own; the rows stay as they were.
     */
    method BubbleNodeUp(node: nat)
      requires Valid() && node in Keys(tree)
      modifies this
      ensures Valid() && node in Keys(tree) && node < |nodes|
      ensures Rows() == old(Rows()) && RowIds() == old(RowIds()) && Keys(tree) == old(Keys(tree))
      ensures |nodes| == old(|nodes|) && forall k :: 0 <= k < |nodes| ==> SamePayload(old(nodes[k]), nodes[k])
      ensures nodes[node].parent != NIL ==>
        0 <= nodes[node].parent < |nodes| && nodes[node].priority >= nodes[nodes[node].parent].priority
      ensures root == old(root) || (tree.Node? && root == node && (Handle(tree.left) == old(root) || Handle(tree.right) == old(root)))
      ensures Inorder(tree) == old(Inorder(tree)) && Outside(Keys(tree), old(nodes), nodes)
    {
      NeighbourFacts(tree, nodes, node);
      while nodes[node].parent != NIL && nodes[node].priority < nodes[nodes[node].parent].priority
        invariant Valid() && node in Keys(tree) && node < |nodes|
        invariant nodes[node].parent != NIL ==> 0 <= nodes[node].parent < |nodes|
        invariant nodes[node].parent == NIL <==> node == root
        invariant Rows() == old(Rows()) && RowIds() == old(RowIds()) && Keys(tree) == old(Keys(tree))
        invariant Size(tree) == old(Size(tree))
        invariant |nodes| == old(|nodes|) && forall k :: 0 <= k < |nodes| ==> SamePayload(old(nodes[k]), nodes[k])
        invariant root == old(root) || (tree.Node? && root == node && (Handle(tree.left) == old(root) || Handle(tree.right) == old(root)))
        invariant Inorder(tree) == old(Inorder(tree)) && Outside(Keys(tree), old(nodes), nodes)
        decreases Size(tree) - Size(Find(tree, node))
      {
        ghost var ns := nodes;
        LiftNode(node);
        OutsideTransitive(Keys(tree), old(nodes), ns, nodes);
        NeighbourFacts(tree, nodes, node);
      }
    }
 
    /** The priority of child `c` as bubbleNodeDown reads it, with a missing child counting as +infinity. */
    function ChildPriority(c: int): (p: PriorityBound)
      reads this
      requires c == NIL || 0 <= c < |nodes|
      ensures p.Infinite? <==> c == NIL
      ensures c != NIL ==> p.value == nodes[c].priority
    {
      if c != NIL then Finite(nodes[c].priority) else Infinite
    }

    /** The children of `node` are nodes of the tree whose records point back at it. */
    ghost predicate ChildrenLinked(node: nat)
      reads this
      requires node < |nodes|
    {
      (nodes[node].left != NIL ==>
        nodes[node].left in Keys(tree) && IsLeftChild(nodes, nodes[node].left) && nodes[nodes[node].left].parent == node) &&
      (nodes[node].right != NIL ==>
        nodes[node].right in Keys(tree) && IsRightChild(nodes, nodes[node].right) && nodes[nodes[node].right].parent == node)
    }

    /** One step of bubbleNodeDown: the rotation that lifts `child` over its parent `node`. */
    method LowerNode(node: nat, child: nat)
      requires Valid() && node in Keys(tree) && node < |nodes|
      requires child == nodes[node].left || child == nodes[node].right
      modifies this
      ensures Valid() && node in Keys(tree) && node < |nodes|
      ensures Rows() == old(Rows()) && RowIds() == old(RowIds()) && Keys(tree) == old(Keys(tree))
      ensures |nodes| == old(|nodes|) && forall k :: 0 <= k < |nodes| ==> SamePayload(old(nodes[k]), nodes[k])
      ensures Size(Find(tree, node)) < Size(Find(old(tree), node))
      ensures ChildrenLinked(node)
      ensures Inorder(tree) == old(Inorder(tree)) && Outside(Keys(tree), old(nodes), nodes)
    {
      ghost var t, ns := tree, nodes;
      NeighbourFacts(tree, nodes, node);
      if child == nodes[node].left {
        RotRightMeasures(tree, nodes, child);
        RotateNodeRight(child);
        RotatedRightFrame(t, ns, nodes, child);
      } else {
        RotLeftMeasures(tree, nodes, child);
        RotateNodeLeft(child);
        RotatedLeftFrame(t, ns, nodes, child);
      }
      NeighbourFacts(tree, nodes, node);
    }

    /**
     * bubbleNodeDown: while a child has a lower priority than `node`,
     * lifts the child with the lower priority over it (the right one on a
     * tie). It stops when neither child is below `node`; the rows stay as
     * they were.
     */
    method BubbleNodeDown(node: nat)
      requires Valid() && node in Keys(tree)
      modifies this
      ensures Valid() && node in Keys(tree) && node < |nodes|
      ensures Rows() == old(Rows()) && RowIds() == old(RowIds()) && Keys(tree) == old(Keys(tree))
      ensures |nodes| == old(|nodes|) && forall k :: 0 <= k < |nodes| ==> SamePayload(old(nodes[k]), nodes[k])
      ensures nodes[node].left != NIL ==>
        0 <= nodes[node].left < |nodes| && nodes[nodes[node].left].priority >= nodes[node].priority
      ensures nodes[node].right != NIL ==>
        0 <= nodes[node].right < |nodes| && nodes[nodes[node].right].priority >= nodes[node].priority
      ensures Inorder(tree) == old(Inorder(tree)) && Outside(Keys(tree), old(nodes), nodes)
    {
      NeighbourFacts(tree, nodes, node);
      while true
        invariant Valid() && node in Keys(tree) && node < |nodes|
        invariant ChildrenLinked(node)
        invariant Rows() == old(Rows()) && RowIds() == old(RowIds()) && Keys(tree) == old(Keys(tree))
        invariant |nodes| == old(|nodes|) && forall k :: 0 <= k < |nodes| ==> SamePayload(old(nodes[k]), nodes[k])
        invariant Inorder(tree) == old(Inorder(tree)) && Outside(Keys(tree), old(nodes), nodes)
        decreases Size(Find(tree, node))
      {
        ghost var ns := nodes;
        var leftChildPriority := ChildPriority(nodes[node].left);
        var rightChildPriority := ChildPriority(nodes[node].right);
        if Below(leftChildPriority, rightChildPriority) && Below(leftChildPriority, Finite(nodes[node].priority)) {
          LowerNode(node, nodes[node].left);
          OutsideTransitive(Keys(tree), old(nodes), ns, nodes);
        } else if Below(rightChildPriority, Finite(nodes[node].priority)) {
          LowerNode(node, nodes[node].right);
          OutsideTransitive(Keys(tree), old(nodes), ns, nodes);
        } else {
          assert !Below(leftChildPriority, Finite(nodes[node].priority));
          break;
        }
      }
    }
 
    /**
     * The LineNode constructor: takes the next id, places the tokens and
     * appends the record, with its aggregates computed from its children.
     * A line without tokens is refused after the id has been taken.
     */
    method CreateNode(line: ScreenLine, left: int, right: int, priority: real) returns (h: Option<nat>)
      requires left == NIL || 0 <= left < |nodes|
      requires right == NIL || 0 <= right < |nodes|
      requires RecordsFresh(nodes, ids.value)
      modifies this, ids
      ensures ids.value == old(ids.value) + 1 && root == old(root) && tree == old(tree)
      ensures RecordsFresh(nodes, ids.value)
      ensures h.None? <==> |line.tokens| == 0
      ensures h.None? ==> nodes == old(nodes)
      ensures h.Some? ==> h.value == |old(nodes)| && |nodes| == |old(nodes)| + 1 && nodes[..h.value] == old(nodes)
      ensures h.Some? ==>
        var n := nodes[h.value];
        n.line == line && OffsetsComputed(line.tokens, n.tokens) &&
        n.left == left && n.right == right && n.parent == NIL &&
        n.priority == priority && n.id == ids.value && Summarized(nodes, h.value)
    {
      ids.value := ids.value + 1;
      var placed := ComputeTokenOffsets(line.tokens);
      if placed.None? {
        return None;
      }
      var k := |nodes|;
      ComputedPlaced(line.tokens, placed.value);
      nodes := nodes + [LineNode(line, placed.value, left, right, NIL, priority, ids.value, 0, -1, ZERO_POINT)];
      ComputeSubtreeProperties(k);
      return Some(k);
    }
 
    /** `if (child) child.parent = node` */
    method SetParent(child: int, node: int)
      requires child == NIL || 0 <= child < |nodes|
      modifies this
      ensures nodes == if child == NIL then old(nodes) else old(nodes)[child := old(nodes)[child].(parent := node)]
      ensures root == old(root) && tree == old(tree)
    {
      if child != NIL {
        nodes := nodes[child := nodes[child].(parent := node)];
      }
    }

    /**
     * The end of buildScreenLinesTree: the node for `line` over the two
     * subtrees built for it, which then point up at the new node.
     */
    method JoinSubtrees(line: ScreenLine, left: int, right: int, priority: real,
                        ghost lt: Tree, ghost rt: Tree, ghost parentPriority: real, ghost lo: nat, ghost mid: nat)
      returns (h: Option<nat>, ghost built: Tree)
      requires Valid() && InArena(tree, lo) && lo <= mid <= |nodes|
      requires left == Handle(lt) && right == Handle(rt)
      requires Built(lt, nodes, lo, mid, priority) && Built(rt, nodes, mid, |nodes|, priority)
      requires parentPriority <= priority < 1.0
      modifies this, ids
      ensures Valid() && root == old(root) && tree == old(tree)
      ensures Rows() == old(Rows()) && RowIds() == old(RowIds())
      ensures |old(nodes)| <= |nodes| && nodes[..lo] == old(nodes[..lo])
      ensures h.None? <==> |line.tokens| == 0
      ensures h.Some? ==>
        h.value == Handle(built) && Built(built, nodes, lo, |nodes|, parentPriority) &&
        Lines(built, nodes) == old(Lines(lt, nodes)) + [line] + old(Lines(rt, nodes))
    {
      ghost var ns := nodes;
      HandleNil(lt);
      HandleNil(rt);
      LinkedInArena(tree, NIL, nodes);
      var node := CreateNode(line, left, right, priority);
      if node.None? {
        return None, Nil;
      }
      var k := node.value;
      ghost var mid1 := nodes;
      SetParent(left, k);
      SetParent(right, k);
      built := Node(lt, k, rt);
      h := Some(k);
      JoinFacts(tree, lt, rt, k, ns, mid1, nodes, lo, mid, parentPriority);
    }

    /**
     * buildScreenLinesTree: a balanced subtree of `lines[start..end]`,
     * splitting at the middle. The node's priority is drawn first, at least
     * `parentPriority`, and bounds the draws of both children; the children
     * are built and linked before the node itself is created. An empty range
     * gives NIL; a line without tokens makes the whole build fail.
     */
    method BuildScreenLinesTree(lines: seq<ScreenLine>, start: nat, end: nat, parentPriority: real)
      returns (h: Option<int>, ghost built: Tree)
      requires Valid() && start <= end <= |lines|
      requires random.InUnitInterval() && 0.0 <= parentPriority < 1.0
      modifies this, ids, random
      decreases end - start, 1
      ensures Valid() && root == old(root) && tree == old(tree)
      ensures Rows() == old(Rows()) && RowIds() == old(RowIds())
      ensures |old(nodes)| <= |nodes| && nodes[..|old(nodes)|] == old(nodes)
      ensures h.None? <==> HasEmptyLine(lines, start, end)
      ensures h.Some? ==>
        h.value == Handle(built) && Built(built, nodes, |old(nodes)|, |nodes|, parentPriority) &&
        Lines(built, nodes) == lines[start..end]
    {
      if start == end {
        return Some(NIL), Nil;
      }
      var priority := random.FloatBetween(parentPriority);
      var middle := (start + end) / 2;
      EmptyLineSplit(lines, start, middle, end);
      ghost var n0 := nodes;
      LinkedInArena(tree, NIL, nodes);
      var left, lt := BuildScreenLinesTree(lines, start, middle, priority);
      if left.None? {
        return None, Nil;
      }
      ghost var n1 := nodes;
      h, built := BuildRightAndJoin(lines, start, middle, end, priority, parentPriority, left.value, lt, |n0|);
      PrefixOfPrefix(n0, n1, |n0|);
    }

    /**
     * The rest of buildScreenLinesTree once the left subtree `lt` of
     * `lines[start..middle]` is built: the right subtree, then the node.
     */
    method BuildRightAndJoin(lines: seq<ScreenLine>, start: nat, middle: nat, end: nat, priority: real,
                             ghost parentPriority: real, left: int, ghost lt: Tree, ghost lo: nat)
      returns (h: Option<int>, ghost built: Tree)
      requires Valid() && start <= middle < end <= |lines|
      requires random.InUnitInterval() && 0.0 <= parentPriority <= priority < 1.0
      requires lo <= |nodes| && InArena(tree, lo)
      requires left == Handle(lt) && Built(lt, nodes, lo, |nodes|, priority) && Lines(lt, nodes) == lines[start..middle]
      modifies this, ids, random
      decreases end - start, 0
      ensures Valid() && root == old(root) && tree == old(tree)
      ensures Rows() == old(Rows()) && RowIds() == old(RowIds())
      ensures |old(nodes)| <= |nodes| && nodes[..lo] == old(nodes[..lo])
      ensures h.None? <==> HasEmptyLine(lines, middle, end)
      ensures h.Some? ==>
        h.value == Handle(built) && Built(built, nodes, lo, |nodes|, parentPriority) &&
        Lines(built, nodes) == lines[start..end]
    {
      EmptyLineFirst(lines, middle, end);
      ghost var n1 := nodes;
      var right, rt := BuildScreenLinesTree(lines, middle + 1, end, priority);
      PrefixOfPrefix(n1, nodes, lo);
      if right.None? {
        return None, Nil;
      }
      ghost var n2 := nodes;
      LinkedFrame(lt, NIL, n1, n2);
      HeapOrderedFrame(lt, n1, n2, priority);
      SliceAround(lines, start, middle, end);
      var node;
      node, built := JoinSubtrees(lines[middle], left, right.value, priority, lt, rt, parentPriority, lo, |n1|);
      if node.None? {
        return None, Nil;
      }
      h := Some(node.value);
    }
  
    // -------------------------------------------------------------------------
    // splice
    // -------------------------------------------------------------------------

    /** `node.priority = p` */
    method SetPriority(node: nat, p: real)
      requires Valid() && node < |nodes|
      modifies this
      ensures Valid() && nodes == old(nodes)[node := old(nodes[node]).(priority := p)]
      ensures root == old(root) && tree == old(tree)
      ensures Rows() == old(Rows()) && RowIds() == old(RowIds())
    {
      ghost var ns := nodes;
      nodes := nodes[node := nodes[node].(priority := p)];
      LinkedReprioritized(tree, NIL, ns, node, p);
      LinesStable(tree, ns, nodes);
    }

    /**
     * The first half of splice for one neighbour row: `node` gets a priority
     * below every other node's and bubbles up, so it ends at the top.
     */
    method LiftToTop(node: nat, priority: real)
      requires Valid() && node in Keys(tree)
      requires forall k :: k in Keys(tree) && k != node ==> 0 <= k < |nodes| && priority < nodes[k].priority
      modifies this
      ensures Valid() && tree.Node? && tree.key == node && root == node
      ensures Inorder(tree) == old(Inorder(tree)) && Keys(tree) == old(Keys(tree))
      ensures Rows() == old(Rows()) && RowIds() == old(RowIds())
      ensures old(root) == node || Handle(tree.left) == old(root) || Handle(tree.right) == old(root)
      ensures Outside(Keys(tree), old(nodes), nodes) && PayloadKept(old(nodes), nodes, {node})
      ensures nodes[node].priority == priority
    {
      InArenaKeys(tree, |nodes|);
      SetPriority(node, priority);
      ghost var ns := nodes;
      BubbleNodeUp(node);
      ReprioritizedPayload(old(nodes), ns, nodes, node, priority);
      BubbledToTop(tree, old(nodes), nodes, node, priority);
    }

    /**
     * The first bubbling of splice: the node of row `s - 1`, when there is
     * one, gets priority -1 and is lifted to the top; every priority stays
     * above -2.
     */
    method LiftStart(startNode: int, ghost s: nat) returns (ghost a: Tree, ghost b: Tree)
      requires Valid() && PrioritiesIn(tree, nodes)
      requires startNode == if 1 <= s <= |Inorder(tree)| then Inorder(tree)[s - 1] else NIL
      modifies this
      ensures Valid() && Inorder(tree) == old(Inorder(tree)) && Keys(tree) == old(Keys(tree))
      ensures Rows() == old(Rows()) && RowIds() == old(RowIds())
      ensures Outside(Keys(tree), old(nodes), nodes) && PayloadKept(old(nodes), nodes, {startNode})
      ensures forall k :: k in Keys(tree) ==> 0 <= k < |nodes| && -2.0 < nodes[k].priority
      ensures startNode != NIL ==> tree == Node(a, startNode, b) && Size(a) + 1 == s
      ensures startNode == NIL ==> b == tree
    {
      a, b := Nil, tree;
      ghost var t0, ns0 := tree, nodes;
      if startNode != NIL {
        InorderFacts(tree);
        assert startNode in Keys(tree) by {
          assert Inorder(tree)[s - 1] in Inorder(tree);
        }
        LiftToTop(startNode, -1.0);
        InorderFacts(tree);
        TopPosition(tree, s - 1);
        a, b := tree.left, tree.right;
      }
      PrioritiesAbove(t0, ns0, nodes, startNode, -2.0);
    }

    /**
     * The second bubbling of splice, after LiftStart: the node of row
     * `s + n`, when there is one, gets priority -2 and is lifted to the
     * top. The rows in between then form one subtree `b`: the right subtree
     * of the start node, the left subtree of the end node, or the whole
     * tree when neither exists.
     */
    method LiftEnd(startNode: int, endNode: int, ghost s: nat, ghost n: nat, ghost a0: Tree, ghost b0: Tree)
      returns (ghost a: Tree, ghost b: Tree, ghost c: Tree)
      requires Valid()
      requires forall k :: k in Keys(tree) ==> 0 <= k < |nodes| && -2.0 < nodes[k].priority
      requires startNode == if 1 <= s <= |Inorder(tree)| then Inorder(tree)[s - 1] else NIL
      requires endNode == if s + n < |Inorder(tree)| then Inorder(tree)[s + n] else NIL
      requires startNode != NIL ==> tree == Node(a0, startNode, b0) && Size(a0) + 1 == s
      requires startNode == NIL ==> b0 == tree
      modifies this
      ensures Valid() && Inorder(tree) == old(Inorder(tree)) && Keys(tree) == old(Keys(tree))
      ensures Rows() == old(Rows()) && RowIds() == old(RowIds())
      ensures Outside(Keys(tree), old(nodes), nodes) && PayloadKept(old(nodes), nodes, {endNode})
      ensures startNode != NIL && endNode != NIL ==>
        tree == Node(Node(a, startNode, b), endNode, c) && Size(a) + 1 == s && Size(b) == n
      ensures startNode != NIL && endNode == NIL ==>
        tree == Node(a, startNode, b) && Size(a) + 1 == s && Size(tree) <= s + n
      ensures startNode == NIL && endNode != NIL ==>
        tree == Node(b, endNode, c) && s == 0 && Size(b) == n
      ensures startNode == NIL && endNode == NIL ==>
        b == tree && ((s == 0 && Size(tree) <= n) || Size(tree) < s)
    {
      InorderFacts(tree);
      if endNode != NIL {
        DistinctInorder(tree);
        assert endNode in Keys(tree) && endNode != startNode by {
          assert Inorder(tree)[s + n] in Inorder(tree);
        }
        LiftToTop(endNode, -2.0);
      }
      a, b, c := BoundsShape(tree, a0, b0, s, n, startNode, endNode);
    }

    /** Both bubblings at the start of splice. */
    method LiftBounds(startNode: int, endNode: int, ghost s: nat, ghost n: nat)
      returns (ghost a: Tree, ghost b: Tree, ghost c: Tree)
      requires Valid() && RandomPriorities()
      requires startNode == if 1 <= s <= |Inorder(tree)| then Inorder(tree)[s - 1] else NIL
      requires endNode == if s + n < |Inorder(tree)| then Inorder(tree)[s + n] else NIL
      modifies this
      ensures Valid() && Inorder(tree) == old(Inorder(tree)) && Keys(tree) == old(Keys(tree))
      ensures Rows() == old(Rows()) && RowIds() == old(RowIds())
      ensures Outside(Keys(tree), old(nodes), nodes) && PayloadKept(old(nodes), nodes, {startNode, endNode})
      ensures startNode != NIL && endNode != NIL ==>
        tree == Node(Node(a, startNode, b), endNode, c) && Size(a) + 1 == s && Size(b) == n
      ensures startNode != NIL && endNode == NIL ==>
        tree == Node(a, startNode, b) && Size(a) + 1 == s && Size(tree) <= s + n
      ensures startNode == NIL && endNode != NIL ==>
        tree == Node(b, endNode, c) && s == 0 && Size(b) == n
      ensures startNode == NIL && endNode == NIL ==>
        b == tree && ((s == 0 && Size(tree) <= n) || Size(tree) < s)
    {
      ghost var ns0 := nodes;
      var a0, b0 := LiftStart(startNode, s);
      ghost var ns1 := nodes;
      a, b, c := LiftEnd(startNode, endNode, s, n, a0, b0);
      PayloadKeptTransitive(ns0, ns1, nodes, {startNode}, {endNode});
      OutsideTransitive(Keys(tree), ns0, ns1, nodes);
    }
    /**
     * The middle of splice, once the neighbours are lifted: the new subtree
     * `sub` (of shape `bt`) becomes the right subtree of the start node, or
     * else the left subtree of the end node, or else the whole tree. The
     * source's closing `if (endNode) endNode.computeSubtreeProperties()` is
     * the last step of each branch that has an end node, so the start-node
     * branch comes in two cases, with and without an end node. The rows
     * become the spliced rows, and the detached subtree `b`, whose top is
     * returned, holds the ids of the removed rows.
     */
    method ReplaceSubtree(startNode: int, endNode: int, sub: int, ghost a: Tree, ghost b: Tree, ghost c: Tree,
                          ghost bt: Tree, ghost s: nat, ghost n: nat)
      returns (oldSubtree: int, ghost removedParent: int)
      requires Valid() && NIL <= startNode && NIL <= endNode
      requires startNode != NIL && endNode != NIL ==>
        tree == Node(Node(a, startNode, b), endNode, c) && Size(a) + 1 == s && Size(b) == n
      requires startNode != NIL && endNode == NIL ==>
        tree == Node(a, startNode, b) && Size(a) + 1 == s && Size(tree) <= s + n
      requires startNode == NIL && endNode != NIL ==>
        tree == Node(b, endNode, c) && s == 0 && Size(b) == n
      requires startNode == NIL && endNode == NIL ==>
        b == tree && ((s == 0 && Size(tree) <= n) || Size(tree) < s)
      requires sub == Handle(bt) && Linked(bt, NIL, nodes) && Distinct(bt) && InArena(bt, |nodes|)
      requires Keys(tree) !! Keys(bt)
      modifies this
      ensures Valid() && oldSubtree == Handle(b)
      ensures Rows() == TreeSplice(old(Rows()), s, n, old(Lines(bt, nodes)))
      ensures RowIds() == TreeSplice(old(RowIds()), s, n, old(IdsOf(bt, nodes)))
      ensures Linked(b, removedParent, nodes) && InArena(b, |nodes|)
      ensures IdsOf(b, nodes) == TreeSplicedOut(old(RowIds()), s, n)
      ensures Keys(tree) == old(Keys(tree)) - Keys(b) + Keys(bt) && Keys(b) !! Keys(tree)
      ensures startNode != NIL ==> startNode in Keys(tree)
      ensures endNode != NIL ==> endNode in Keys(tree)
      ensures |nodes| == old(|nodes|) && forall k :: 0 <= k < |nodes| ==> SamePayload(old(nodes[k]), nodes[k])
    {
      if startNode != NIL && endNode != NIL {
        oldSubtree := GraftBetweenNodes(startNode, endNode, sub, a, b, c, bt, s, n);
        removedParent := startNode;
      } else if startNode != NIL {
        oldSubtree := GraftUnderStart(startNode, sub, a, b, bt, s, n);
        removedParent := startNode;
      } else if endNode != NIL {
        oldSubtree := GraftUnderEnd(endNode, sub, b, c, bt, n);
        removedParent := endNode;
      } else {
        oldSubtree := root;
        root := sub;
        LinesLength(tree, nodes);
        IdsLength(tree, nodes);
        SpliceEverything(Lines(b, nodes), s, n, Lines(bt, nodes));
        SpliceEverything(IdsOf(b, nodes), s, n, IdsOf(bt, nodes));
        tree := bt;
        removedParent := NIL;
      }
    }

    /**
     * The start-node branch of splice when there is no end node: `sub`
     * replaces the right subtree of the start node `x`, at the top, which
     * recomputes its aggregates.
     */
    method GraftUnderStart(x: nat, sub: int, ghost a: Tree, ghost b: Tree, ghost bt: Tree, ghost s: nat, ghost n: nat)
      returns (oldSubtree: int)
      requires Valid() && tree == Node(a, x, b) && Size(a) + 1 == s && Size(tree) <= s + n
      requires sub == Handle(bt) && Linked(bt, NIL, nodes) && Distinct(bt) && InArena(bt, |nodes|)
      requires Keys(tree) !! Keys(bt)
      modifies this
      ensures Valid() && oldSubtree == Handle(b)
      ensures Rows() == TreeSplice(old(Rows()), s, n, old(Lines(bt, nodes)))
      ensures RowIds() == TreeSplice(old(RowIds()), s, n, old(IdsOf(bt, nodes)))
      ensures Linked(b, x, nodes) && InArena(b, |nodes|)
      ensures IdsOf(b, nodes) == TreeSplicedOut(old(RowIds()), s, n)
      ensures Keys(tree) == old(Keys(tree)) - Keys(b) + Keys(bt) && Keys(b) !! Keys(tree)
      ensures tree == Node(a, x, bt)
      ensures |nodes| == old(|nodes|) && forall k :: 0 <= k < |nodes| ==> SamePayload(old(nodes[k]), nodes[k])
    {
      ghost var t, ns := tree, nodes;
      TopLinks(a, x, b, nodes);
      oldSubtree := nodes[x].right;
      nodes := nodes[x := nodes[x].(right := sub)];
      ghost var ns1 := nodes;
      SetParent(sub, x);
      ghost var ns2 := nodes;
      ComputeSubtreeProperties(x);
      GraftedUnderStart(t, a, x, b, bt, ns, ns1, ns2, nodes, ids.value, s, n);
      tree := Node(a, x, bt);
    }

    /**
     * The start-node branch of splice under an end node `y` at the top:
     * `sub` replaces the right subtree of the start node `x`, which
     * recomputes its aggregates, and then so does `y`.
     */
    method GraftBetweenNodes(x: nat, y: nat, sub: int, ghost a: Tree, ghost b: Tree, ghost c: Tree,
                             ghost bt: Tree, ghost s: nat, ghost n: nat)
      returns (oldSubtree: int)
      requires Valid() && tree == Node(Node(a, x, b), y, c) && Size(a) + 1 == s && Size(b) == n
      requires sub == Handle(bt) && Linked(bt, NIL, nodes) && Distinct(bt) && InArena(bt, |nodes|)
      requires Keys(tree) !! Keys(bt)
      modifies this
      ensures Valid() && oldSubtree == Handle(b)
      ensures Rows() == TreeSplice(old(Rows()), s, n, old(Lines(bt, nodes)))
      ensures RowIds() == TreeSplice(old(RowIds()), s, n, old(IdsOf(bt, nodes)))
      ensures Linked(b, x, nodes) && InArena(b, |nodes|)
      ensures IdsOf(b, nodes) == TreeSplicedOut(old(RowIds()), s, n)
      ensures Keys(tree) == old(Keys(tree)) - Keys(b) + Keys(bt) && Keys(b) !! Keys(tree)
      ensures tree == Node(Node(a, x, bt), y, c)
      ensures |nodes| == old(|nodes|) && forall k :: 0 <= k < |nodes| ==> SamePayload(old(nodes[k]), nodes[k])
    {
      ghost var t, ns := tree, nodes;
      BetweenLinks(a, x, b, y, c, nodes);
      BetweenApart(a, x, b, y, c, bt, |nodes|);
      oldSubtree := nodes[x].right;
      nodes := nodes[x := nodes[x].(right := sub)];
      ghost var ns1 := nodes;
      SetParent(sub, x);
      ghost var ns2 := nodes;
      ComputeSubtreeProperties(x);
      ghost var ns3 := nodes;
      ComputeSubtreeProperties(y);
      GraftedBetween(t, a, x, b, y, c, bt, ns, ns1, ns2, ns3, nodes, ids.value, s, n);
      tree := Node(Node(a, x, bt), y, c);
    }

    /**
     * The end-node branch of splice, without a start node: `sub` replaces
     * the left subtree of the end node `y`, which recomputes its aggregates.
     */
    method GraftUnderEnd(y: nat, sub: int, ghost b: Tree, ghost c: Tree, ghost bt: Tree, ghost n: nat)
      returns (oldSubtree: int)
      requires Valid() && tree == Node(b, y, c) && Size(b) == n
      requires sub == Handle(bt) && Linked(bt, NIL, nodes) && Distinct(bt) && InArena(bt, |nodes|)
      requires Keys(tree) !! Keys(bt)
      modifies this
      ensures Valid() && oldSubtree == Handle(b)
      ensures Rows() == TreeSplice(old(Rows()), 0, n, old(Lines(bt, nodes)))
      ensures RowIds() == TreeSplice(old(RowIds()), 0, n, old(IdsOf(bt, nodes)))
      ensures Linked(b, y, nodes) && InArena(b, |nodes|)
      ensures IdsOf(b, nodes) == TreeSplicedOut(old(RowIds()), 0, n)
      ensures Keys(tree) == old(Keys(tree)) - Keys(b) + Keys(bt) && Keys(b) !! Keys(tree)
      ensures tree == Node(bt, y, c)
      ensures |nodes| == old(|nodes|) && forall k :: 0 <= k < |nodes| ==> SamePayload(old(nodes[k]), nodes[k])
    {
      ghost var t, ns := tree, nodes;
      TopLinks(b, y, c, nodes);
      oldSubtree := nodes[y].left;
      nodes := nodes[y := nodes[y].(left := sub)];
      ghost var ns1 := nodes;
      SetParent(sub, y);
      ghost var ns2 := nodes;
      ComputeSubtreeProperties(y);
      GraftedUnderEnd(t, b, y, c, bt, ns, ns1, ns2, nodes, ids.value, n);
      tree := Node(bt, y, c);
    }

    /**
     * The last steps of splice for one neighbour node: a fresh priority
     * drawn from the generator, then bubbleNodeDown. The rows stay as they
     * were and only that node's priority changes.
     */
    method Rerandomize(node: nat)
      requires Valid() && node in Keys(tree) && random.InUnitInterval()
      modifies this, random
      ensures Valid() && Rows() == old(Rows()) && RowIds() == old(RowIds()) && Keys(tree) == old(Keys(tree))
      ensures Outside(Keys(tree), old(nodes), nodes) && PayloadKept(old(nodes), nodes, {node})
      ensures random.draws == old(random.draws) + 1
      ensures node < |nodes| && nodes[node].priority == ScaledDraw(0.0, random.stream(old(random.draws)))
      ensures nodes[node].left != NIL ==>
        0 <= nodes[node].left < |nodes| && nodes[nodes[node].left].priority >= nodes[node].priority
      ensures nodes[node].right != NIL ==>
        0 <= nodes[node].right < |nodes| && nodes[nodes[node].right].priority >= nodes[node].priority
    {
      var p := random.FloatBetween(0.0);
      InArenaKeys(tree, |nodes|);
      SetPriority(node, p);
      ghost var ns := nodes;
      BubbleNodeDown(node);
      ReprioritizedPayload(old(nodes), ns, nodes, node, p);
    }

    /** Rerandomize for the start node, then for the end node, each when it exists. */
    method RerandomizeBounds(startNode: int, endNode: int)
      requires Valid() && random.InUnitInterval()
      requires startNode != NIL ==> startNode in Keys(tree)
      requires endNode != NIL ==> endNode in Keys(tree)
      modifies this, random
      ensures Valid() && Rows() == old(Rows()) && RowIds() == old(RowIds()) && Keys(tree) == old(Keys(tree))
      ensures Outside(Keys(tree), old(nodes), nodes) && PayloadKept(old(nodes), nodes, {startNode, endNode})
      ensures startNode != NIL ==> 0 <= startNode < |nodes| && 0.0 <= nodes[startNode].priority < 1.0
      ensures endNode != NIL ==> 0 <= endNode < |nodes| && 0.0 <= nodes[endNode].priority < 1.0
    {
      InArenaKeys(tree, |nodes|);
      if startNode != NIL {
        Rerandomize(startNode);
      }
      ghost var ns := nodes;
      if endNode != NIL {
        Rerandomize(endNode);
      }
      PayloadKeptTransitive(old(nodes), ns, nodes, {startNode}, {endNode});
      assert {startNode} + {endNode} == {startNode, endNode};
      OutsideTransitive(Keys(tree), old(nodes), ns, nodes);
    }

    /**
     * splice on the tree, given the nodes of rows `s - 1` and `s + n` as
     * the line iterator finds them: both neighbours are lifted to the top,
     * the new lines are built into a subtree that takes the place of the
     * rows between them, and the neighbours get fresh priorities. Returns
     * the top of the removed subtree `b`, which holds the ids of the removed
     * rows; None when a new line has no tokens, where the source throws from
     * the LineNode constructor once the neighbours are lifted.
     */
    method SpliceNodes(startNode: int, endNode: int, newLines: seq<ScreenLine>, ghost s: nat, ghost n: nat)
      returns (removed: Option<int>, ghost b: Tree, ghost removedParent: int, ghost freshIds: seq<nat>)
      requires Valid() && RandomPriorities() && random.InUnitInterval()
      requires startNode == if 1 <= s <= |Inorder(tree)| then Inorder(tree)[s - 1] else NIL
      requires endNode == if s + n < |Inorder(tree)| then Inorder(tree)[s + n] else NIL
      modifies this, ids, random
      ensures Valid()
      ensures removed.None? <==> HasEmptyLine(newLines, 0, |newLines|)
      ensures removed.None? ==> Rows() == old(Rows()) && RowIds() == old(RowIds())
      ensures removed.Some? ==> Rows() == TreeSplice(old(Rows()), s, n, newLines) && RandomPriorities()
      ensures removed.Some? ==> RowIds() == TreeSplice(old(RowIds()), s, n, freshIds) && |freshIds| == |newLines|
      ensures removed.Some? ==>
        removed.value == Handle(b) && Linked(b, removedParent, nodes) && InArena(b, |nodes|) &&
        IdsOf(b, nodes) == TreeSplicedOut(old(RowIds()), s, n)
    {
      ghost var t0, ns0 := tree, nodes;
      var a, b0, c := LiftBounds(startNode, endNode, s, n);
      ghost var ns1 := nodes;
      var built, bt := BuildScreenLinesTree(newLines, 0, |newLines|, 0.0);
      if built.None? {
        return None, Nil, NIL, [];
      }
      BuiltApart(tree, bt, ns1, nodes);
      assert Lines(bt, nodes) == newLines;
      freshIds := IdsOf(bt, nodes);
      IdsLength(bt, nodes);
      LinesLength(bt, nodes);
      var top, p := InsertSubtree(startNode, endNode, built.value, a, b0, c, bt, s, n, t0, ns0, ns1);
      removed, b, removedParent := Some(top), b0, p;
    }

    /**
     * The rest of splice once the new subtree `bt` is built: it replaces
     * the rows between the lifted neighbours, which then get fresh
     * priorities. The priorities of the tree `t0` before the lifts (with
     * records `ns0`; `ns1` after the lifts) were draws in [0, 1), and so are
     * those of the result.
     */
    method InsertSubtree(startNode: int, endNode: int, sub: int, ghost a: Tree, ghost b: Tree, ghost c: Tree,
                         ghost bt: Tree, ghost s: nat, ghost n: nat,
                         ghost t0: Tree, ghost ns0: seq<LineNode>, ghost ns1: seq<LineNode>)
      returns (oldSubtree: int, ghost removedParent: int)
      requires Valid() && NIL <= startNode && NIL <= endNode && random.InUnitInterval()
      requires startNode != NIL && endNode != NIL ==>
        tree == Node(Node(a, startNode, b), endNode, c) && Size(a) + 1 == s && Size(b) == n
      requires startNode != NIL && endNode == NIL ==>
        tree == Node(a, startNode, b) && Size(a) + 1 == s && Size(tree) <= s + n
      requires startNode == NIL && endNode != NIL ==>
        tree == Node(b, endNode, c) && s == 0 && Size(b) == n
      requires startNode == NIL && endNode == NIL ==>
        b == tree && ((s == 0 && Size(tree) <= n) || Size(tree) < s)
      requires sub == Handle(bt) && Linked(bt, NIL, nodes) && Distinct(bt) && InArena(bt, |nodes|)
      requires Keys(tree) !! Keys(bt)
      requires PrioritiesIn(t0, ns0) && PayloadKept(ns0, ns1, {startNode, endNode}) && Keys(tree) == Keys(t0)
      requires |ns1| <= |nodes| && nodes[..|ns1|] == ns1
      requires forall k :: k in Keys(bt) ==> 0 <= k < |nodes| && 0.0 <= nodes[k].priority < 1.0
      modifies this, random
      ensures Valid() && oldSubtree == Handle(b) && RandomPriorities()
      ensures Rows() == TreeSplice(old(Rows()), s, n, old(Lines(bt, nodes)))
      ensures RowIds() == TreeSplice(old(RowIds()), s, n, old(IdsOf(bt, nodes)))
      ensures Linked(b, removedParent, nodes) && InArena(b, |nodes|)
      ensures IdsOf(b, nodes) == TreeSplicedOut(old(RowIds()), s, n)
    {
      ghost var ns2 := nodes;
      oldSubtree, removedParent := ReplaceSubtree(startNode, endNode, sub, a, b, c, bt, s, n);
      ghost var ns3 := nodes;
      RerandomizeBounds(startNode, endNode);
      KeptOutside(b, removedParent, ns3, nodes, Keys(tree), {startNode, endNode});
      SplicedPriorities(t0, tree, b, bt, ns0, ns1, ns2, ns3, nodes, startNode, endNode);
    }

}
}
