/**
 * The middle of splice (src/display-index.js and src/screen-line-index.js):
 * once the neighbour rows are lifted to the top, the subtree between them
 * is swapped for a freshly built one. The lemmas here follow the record
 * writes one case at a time: under the start node, under the end node, or
 * as the whole tree.
 */
module TreeSplices {
  import opened ScreenLines
  import opened TreeShapes
  import opened TreeRotations

  /** `if (child) child.parent = node` on an arena. */
  function Reparent(ns: seq<LineNode>, child: int, node: int): (ns': seq<LineNode>)
    requires child == NIL || 0 <= child < |ns|
    ensures |ns'| == |ns|
  {
    if child == NIL then ns else ns[child := ns[child].(parent := node)]
  }

  /** computeSubtreeProperties of node `k` on an arena. */
  function Recompute(ns: seq<LineNode>, k: nat): (ns': seq<LineNode>)
    requires k < |ns|
    ensures |ns'| == |ns|
  {
    ns[k := WithAggregates(ns[k], ComputedAggregates(ns, k))]
  }

  /**
   * The records of `ns'` are those of `ns` except at the nodes `p`, `q`
   * and `r`, and every node keeps its payload.
   */
  ghost predicate ChangedOnly(ns: seq<LineNode>, ns': seq<LineNode>, p: int, q: int, r: int) {
    |ns'| == |ns| &&
    (forall k :: 0 <= k < |ns| && k != p && k != q && k != r ==> ns'[k] == ns[k]) &&
    (forall k :: 0 <= k < |ns| ==> SamePayload(ns[k], ns'[k]))
  }

  /**
   * Node `k` recomputed in `ns` keeps its aggregates in `ns'` when neither
   * node `k` nor its children change afterwards.
   */
  lemma {:induction false} RecomputedSummarized(ns: seq<LineNode>, ns': seq<LineNode>, k: nat)
    requires k < |ns| == |ns'| && ns'[k] == Recompute(ns, k)[k]
    requires ns[k].left == NIL || (0 <= ns[k].left < |ns| && ns[k].left != k && ns'[ns[k].left] == ns[ns[k].left])
    requires ns[k].right == NIL || (0 <= ns[k].right < |ns| && ns[k].right != k && ns'[ns[k].right] == ns[ns[k].right])
    ensures Summarized(ns', k)
  {
  }

  /**
   * The three record writes of a graft at node `k`: a child link of `k`
   * is set to the new subtree's top `h` (`ns1`), `h` points up at `k`
   * (`ns2`), and `k` recomputes its aggregates (`ns'`). Only `k` and `h`
   * change; `k` keeps the links `ns1` gave it and is summarized.
   */
  lemma {:induction false} GraftRecords(ns: seq<LineNode>, ns1: seq<LineNode>, ns2: seq<LineNode>, ns': seq<LineNode>,
                     k: nat, h: int, other: int)
    requires k < |ns| && (h == NIL || 0 <= h < |ns|) && h != k && (other == NIL || (0 <= other < |ns| && other != k))
    requires |ns1| == |ns| && ns1 == ns[k := ns1[k]] && SamePayload(ns[k], ns1[k]) && ns1[k].parent == ns[k].parent
    requires (ns1[k].left == other && ns1[k].right == h) || (ns1[k].left == h && ns1[k].right == other)
    requires ns2 == Reparent(ns1, h, k)
    requires ns' == Recompute(ns2, k)
    ensures ChangedOnly(ns, ns', k, h, k)
    ensures ns'[k].parent == ns[k].parent && ns'[k].left == ns1[k].left && ns'[k].right == ns1[k].right
    ensures Summarized(ns', k)
    ensures h != NIL ==> ns'[h] == ns[h].(parent := k)
  {
    RecomputedSummarized(ns2, ns', k);
  }

  /** The links of the top `k` of a linked tree. */
  lemma {:induction false} TopLinks(l: Tree, k: nat, r: Tree, ns: seq<LineNode>)
    requires Linked(Node(l, k, r), NIL, ns)
    ensures k < |ns| && ns[k].parent == NIL && ns[k].left == Handle(l) && ns[k].right == Handle(r)
  {
  }

  /** The link fields of the two top levels of a linked tree. */
  lemma {:induction false} BetweenLinks(a: Tree, x: nat, b: Tree, y: nat, c: Tree, ns: seq<LineNode>)
    requires Linked(Node(Node(a, x, b), y, c), NIL, ns)
    ensures x < |ns| && y < |ns|
    ensures ns[x].parent == y && ns[x].left == Handle(a) && ns[x].right == Handle(b)
    ensures ns[y].parent == NIL && ns[y].left == x && ns[y].right == Handle(c)
  {
    assert Linked(Node(a, x, b), y, ns);
  }

  /** The two top nodes differ, and the tops of `a`, `c` and `bt` are NIL or other nodes. */
  lemma {:induction false} BetweenApart(a: Tree, x: nat, b: Tree, y: nat, c: Tree, bt: Tree, n: nat)
    requires Distinct(Node(Node(a, x, b), y, c))
    requires InArena(Node(Node(a, x, b), y, c), n) && InArena(bt, n) && Keys(Node(Node(a, x, b), y, c)) !! Keys(bt)
    ensures InArena(Node(a, x, b), n) && x != y
    ensures Handle(a) == NIL || (0 <= Handle(a) < n && Handle(a) != x && Handle(a) != y)
    ensures Handle(c) == NIL || (0 <= Handle(c) < n && Handle(c) != x && Handle(c) != y)
    ensures Handle(bt) == NIL || (0 <= Handle(bt) < n && Handle(bt) != x && Handle(bt) != y)
  {
    assert x !in Keys(a) && y !in Keys(a) && y !in Keys(c) by {
      assert Distinct(Node(a, x, b));
    }
    assert x !in Keys(c);
    assert x in Keys(Node(Node(a, x, b), y, c)) && y in Keys(Node(Node(a, x, b), y, c));
    HandleApart(a, n, x, y);
    HandleApart(c, n, x, y);
    HandleApart(bt, n, x, y);
  }

  /** The top of a subtree in the arena that holds neither `x` nor `y` is NIL or a third record. */
  lemma {:induction false} HandleApart(s: Tree, n: nat, x: int, y: int)
    requires InArena(s, n) && x !in Keys(s) && y !in Keys(s)
    ensures Handle(s) == NIL || (0 <= Handle(s) < n && Handle(s) != x && Handle(s) != y)
  {
  }

  /**
   * The four record writes of a graft at `x` below `y`: GraftRecords at
   * `x`, then `y` recomputes. Only `x`, the new top `h` and `y` change, and
   * both `x` and `y` are summarized.
   */
  lemma {:induction false} BetweenRecords(ns: seq<LineNode>, ns1: seq<LineNode>, ns2: seq<LineNode>, ns3: seq<LineNode>, ns': seq<LineNode>,
                       x: nat, y: nat, h: int)
    requires x < |ns| && y < |ns| && x != y && (h == NIL || (0 <= h < |ns| && h != x && h != y))
    requires ns[x].left == NIL || (0 <= ns[x].left < |ns| && ns[x].left != x && ns[x].left != y)
    requires ns[y].left == x && (ns[y].right == NIL || (0 <= ns[y].right < |ns| && ns[y].right != x && ns[y].right != y))
    requires ns1 == ns[x := ns[x].(right := h)] && ns2 == Reparent(ns1, h, x)
    requires ns3 == Recompute(ns2, x) && ns' == Recompute(ns3, y)
    ensures ChangedOnly(ns, ns', x, h, y)
    ensures ns'[x].parent == ns[x].parent && ns'[x].left == ns[x].left && ns'[x].right == h && Summarized(ns', x)
    ensures ns'[y].parent == ns[y].parent && ns'[y].left == x && ns'[y].right == ns[y].right && Summarized(ns', y)
    ensures h != NIL ==> ns'[h] == ns[h].(parent := x)
  {
    GraftRecords(ns, ns1, ns2, ns3, x, h, ns[x].left);
    RecomputedAfter(ns, ns3, ns', x, h, y);
    RecomputedSummarized(ns3, ns', y);
    assert ns'[x] == ns3[x];
  }

  /** Node `y` recomputes its aggregates after a graft that changed `p`, `q` and `p` again. */
  lemma {:induction false} RecomputedAfter(ns: seq<LineNode>, ns1: seq<LineNode>, ns': seq<LineNode>, p: int, q: int, y: nat)
    requires ChangedOnly(ns, ns1, p, q, p) && y < |ns1| && ns' == Recompute(ns1, y)
    ensures ChangedOnly(ns, ns', p, q, y)
  {
  }

  /**
   * A kept subtree `x` under `par`: its records are untouched, so it is
   * linked to the same parent and stands for the same rows.
   */
  lemma {:induction false} KeptSubtree(x: Tree, par: int, ns: seq<LineNode>, ns': seq<LineNode>, p: int, q: int, r: int)
    requires Linked(x, par, ns) && InArena(x, |ns|) && ChangedOnly(ns, ns', p, q, r)
    requires p !in Keys(x) && q !in Keys(x) && r !in Keys(x)
    ensures Linked(x, par, ns') && InArena(x, |ns'|)
    ensures Lines(x, ns') == Lines(x, ns) && IdsOf(x, ns') == IdsOf(x, ns)
  {
    InArenaKeys(x, |ns|);
    forall k | k in Keys(x)
      ensures 0 <= k < |ns'| && k < |ns| && ns'[k] == ns[k]
    {
      assert k != p && k != q && k != r;
    }
    LinkedFrame(x, par, ns, ns');
    PayloadStable(ns, ns', p, q, r);
    LinesStable(x, ns, ns');
  }

  lemma {:induction false} PayloadStable(ns: seq<LineNode>, ns': seq<LineNode>, p: int, q: int, r: int)
    requires ChangedOnly(ns, ns', p, q, r)
    ensures Stable(ns, ns')
  {
    forall k | 0 <= k < |ns|
      ensures ns'[k].line == ns[k].line && ns'[k].tokens == ns[k].tokens && ns'[k].id == ns[k].id
    {
      assert SamePayload(ns[k], ns'[k]);
    }
  }

  /** The new subtree, whose top now points up at `par`. */
  lemma {:induction false} GraftedSubtree(bt: Tree, par: int, ns: seq<LineNode>, ns': seq<LineNode>, p: int, q: int, r: int)
    requires Linked(bt, NIL, ns) && Distinct(bt) && InArena(bt, |ns|) && bt.Node?
    requires ChangedOnly(ns, ns', p, q, r)
    requires (p == bt.key || p !in Keys(bt)) && (q == bt.key || q !in Keys(bt)) && (r == bt.key || r !in Keys(bt))
    requires ns'[bt.key] == ns[bt.key].(parent := par)
    ensures Linked(bt, par, ns') && InArena(bt, |ns'|)
    ensures Lines(bt, ns') == Lines(bt, ns) && IdsOf(bt, ns') == IdsOf(bt, ns)
  {
    InArenaKeys(bt, |ns|);
    LinkedReparent(bt, NIL, par, ns, ns');
    PayloadStable(ns, ns', p, q, r);
    LinesStable(bt, ns, ns');
  }

  /**
   * Only the start node `x` exists, at the top: the new subtree `bt` has
   * replaced its right subtree `b`, and only `x` and the top of `bt` have
   * changed. The removed subtree still hangs from `x` as far as its own
   * records say.
   */
  lemma {:induction false} GraftRight(a: Tree, x: nat, b: Tree, bt: Tree, ns: seq<LineNode>, ns': seq<LineNode>)
    requires Linked(Node(a, x, b), NIL, ns) && Distinct(Node(a, x, b)) && InArena(Node(a, x, b), |ns|)
    requires Linked(bt, NIL, ns) && Distinct(bt) && InArena(bt, |ns|) && Keys(Node(a, x, b)) !! Keys(bt)
    requires ChangedOnly(ns, ns', x, Handle(bt), x)
    requires ns'[x].parent == NIL && ns'[x].left == Handle(a) && ns'[x].right == Handle(bt) && Summarized(ns', x)
    requires bt.Node? ==> ns'[bt.key] == ns[bt.key].(parent := x)
    ensures var t' := Node(a, x, bt);
      Linked(t', NIL, ns') && InArena(t', |ns'|) &&
      Lines(t', ns') == Lines(a, ns) + [ns[x].line] + Lines(bt, ns) &&
      IdsOf(t', ns') == IdsOf(a, ns) + [ns[x].id] + IdsOf(bt, ns)
    ensures Linked(b, x, ns') && InArena(b, |ns'|) && IdsOf(b, ns') == IdsOf(b, ns)
  {
    GraftKeys(a, x, b, bt);
    KeptSubtree(a, x, ns, ns', x, Handle(bt), x);
    KeptSubtree(b, x, ns, ns', x, Handle(bt), x);
    if bt.Node? {
      GraftedSubtree(bt, x, ns, ns', x, Handle(bt), x);
    }
    LinkedTop(a, x, bt, NIL, ns');
    assert SamePayload(ns[x], ns'[x]);
    RowsOfTop(a, x, bt, ns, ns');
  }

  /** Only the end node `y` exists, at the top: `bt` has replaced its left subtree `b`. */
  lemma {:induction false} GraftLeft(b: Tree, y: nat, c: Tree, bt: Tree, ns: seq<LineNode>, ns': seq<LineNode>)
    requires Linked(Node(b, y, c), NIL, ns) && Distinct(Node(b, y, c)) && InArena(Node(b, y, c), |ns|)
    requires Linked(bt, NIL, ns) && Distinct(bt) && InArena(bt, |ns|) && Keys(Node(b, y, c)) !! Keys(bt)
    requires ChangedOnly(ns, ns', y, Handle(bt), y)
    requires ns'[y].parent == NIL && ns'[y].left == Handle(bt) && ns'[y].right == Handle(c) && Summarized(ns', y)
    requires bt.Node? ==> ns'[bt.key] == ns[bt.key].(parent := y)
    ensures var t' := Node(bt, y, c);
      Linked(t', NIL, ns') && InArena(t', |ns'|) &&
      Lines(t', ns') == Lines(bt, ns) + [ns[y].line] + Lines(c, ns) &&
      IdsOf(t', ns') == IdsOf(bt, ns) + [ns[y].id] + IdsOf(c, ns)
    ensures Linked(b, y, ns') && InArena(b, |ns'|) && IdsOf(b, ns') == IdsOf(b, ns)
  {
    GraftKeys(c, y, b, bt);
    KeptSubtree(b, y, ns, ns', y, Handle(bt), y);
    KeptSubtree(c, y, ns, ns', y, Handle(bt), y);
    if bt.Node? {
      GraftedSubtree(bt, y, ns, ns', y, Handle(bt), y);
    }
    LinkedTop(bt, y, c, NIL, ns');
    assert SamePayload(ns[y], ns'[y]);
    RowsOfTop(bt, y, c, ns, ns');
  }

  /**
   * Both neighbours exist: the start node `x` is the left child of the
   * top `y`, and `bt` has replaced the right subtree `b` of `x`.
   */
  lemma {:induction false} GraftBetween(a: Tree, x: nat, b: Tree, y: nat, c: Tree, bt: Tree, ns: seq<LineNode>, ns': seq<LineNode>)
    requires Linked(Node(Node(a, x, b), y, c), NIL, ns) && Distinct(Node(Node(a, x, b), y, c))
    requires InArena(Node(Node(a, x, b), y, c), |ns|) && InArena(Node(a, x, b), |ns|)
    requires Linked(bt, NIL, ns) && Distinct(bt) && InArena(bt, |ns|) && Keys(Node(Node(a, x, b), y, c)) !! Keys(bt)
    requires ChangedOnly(ns, ns', x, Handle(bt), y)
    requires ns'[x].parent == y && ns'[x].left == Handle(a) && ns'[x].right == Handle(bt) && Summarized(ns', x)
    requires ns'[y].parent == NIL && ns'[y].left == x && ns'[y].right == Handle(c) && Summarized(ns', y)
    requires bt.Node? ==> ns'[bt.key] == ns[bt.key].(parent := x)
    ensures var t' := Node(Node(a, x, bt), y, c);
      Linked(t', NIL, ns') && InArena(t', |ns'|) &&
      Lines(t', ns') == Lines(a, ns) + [ns[x].line] + Lines(bt, ns) + [ns[y].line] + Lines(c, ns) &&
      IdsOf(t', ns') == IdsOf(a, ns) + [ns[x].id] + IdsOf(bt, ns) + [ns[y].id] + IdsOf(c, ns)
    ensures Linked(b, x, ns') && InArena(b, |ns'|) && IdsOf(b, ns') == IdsOf(b, ns)
  {
    GraftKeys(a, x, b, bt);
    assert y !in Keys(a) && y !in Keys(b) && y !in Keys(bt);
    KeptSubtree(a, x, ns, ns', x, Handle(bt), y);
    KeptSubtree(b, x, ns, ns', x, Handle(bt), y);
    if bt.Node? {
      GraftedSubtree(bt, x, ns, ns', x, Handle(bt), y);
    }
    LinkedTop(a, x, bt, y, ns');
    assert SamePayload(ns[x], ns'[x]);
    RowsOfTop(a, x, bt, ns, ns');
    KeysNat(c);
    KeptSubtree(c, y, ns, ns', x, Handle(bt), y);
    LinkedTop(Node(a, x, bt), y, c, NIL, ns');
    assert SamePayload(ns[y], ns'[y]);
    RowsOfTop(Node(a, x, bt), y, c, ns, ns');
  }

  /**
   * Both neighbours exist: grafting between them splices the rows of `bt`
   * in for rows `s` to `s + n - 1`, and the removed subtree `b` holds the
   * ids of exactly those rows.
   */
  lemma {:induction false} SplicedBetween(a: Tree, x: nat, b: Tree, y: nat, c: Tree, bt: Tree, ns: seq<LineNode>, ns': seq<LineNode>, s: nat, n: nat)
    requires Linked(Node(Node(a, x, b), y, c), NIL, ns) && Distinct(Node(Node(a, x, b), y, c))
    requires InArena(Node(Node(a, x, b), y, c), |ns|) && InArena(Node(a, x, b), |ns|)
    requires Linked(bt, NIL, ns) && Distinct(bt) && InArena(bt, |ns|) && Keys(Node(Node(a, x, b), y, c)) !! Keys(bt)
    requires ChangedOnly(ns, ns', x, Handle(bt), y)
    requires ns'[x].parent == y && ns'[x].left == Handle(a) && ns'[x].right == Handle(bt) && Summarized(ns', x)
    requires ns'[y].parent == NIL && ns'[y].left == x && ns'[y].right == Handle(c) && Summarized(ns', y)
    requires bt.Node? ==> ns'[bt.key] == ns[bt.key].(parent := x)
    requires Size(a) + 1 == s && Size(b) == n
    ensures var t, t' := Node(Node(a, x, b), y, c), Node(Node(a, x, bt), y, c);
      Linked(t', NIL, ns') && InArena(t', |ns'|) &&
      Lines(t', ns') == TreeSplice(Lines(t, ns), s, n, Lines(bt, ns)) &&
      IdsOf(t', ns') == TreeSplice(IdsOf(t, ns), s, n, IdsOf(bt, ns)) &&
      IdsOf(b, ns') == TreeSplicedOut(IdsOf(t, ns), s, n)
    ensures Linked(b, x, ns') && InArena(b, |ns'|)
  {
    GraftBetween(a, x, b, y, c, bt, ns, ns');
    RowsBetween(a, x, b, y, c, ns, s, n, Lines(bt, ns), IdsOf(bt, ns));
  }

  /** Only the start node exists: `bt` takes the place of every row from `s` on. */
  lemma {:induction false} SplicedAfter(a: Tree, x: nat, b: Tree, bt: Tree, ns: seq<LineNode>, ns': seq<LineNode>, s: nat, n: nat)
    requires Linked(Node(a, x, b), NIL, ns) && Distinct(Node(a, x, b)) && InArena(Node(a, x, b), |ns|)
    requires Linked(bt, NIL, ns) && Distinct(bt) && InArena(bt, |ns|) && Keys(Node(a, x, b)) !! Keys(bt)
    requires ChangedOnly(ns, ns', x, Handle(bt), x)
    requires ns'[x].parent == NIL && ns'[x].left == Handle(a) && ns'[x].right == Handle(bt) && Summarized(ns', x)
    requires bt.Node? ==> ns'[bt.key] == ns[bt.key].(parent := x)
    requires Size(a) + 1 == s && Size(Node(a, x, b)) <= s + n
    ensures var t, t' := Node(a, x, b), Node(a, x, bt);
      Linked(t', NIL, ns') && InArena(t', |ns'|) &&
      Lines(t', ns') == TreeSplice(Lines(t, ns), s, n, Lines(bt, ns)) &&
      IdsOf(t', ns') == TreeSplice(IdsOf(t, ns), s, n, IdsOf(bt, ns)) &&
      IdsOf(b, ns') == TreeSplicedOut(IdsOf(t, ns), s, n)
    ensures Linked(b, x, ns') && InArena(b, |ns'|)
  {
    GraftRight(a, x, b, bt, ns, ns');
    RowsAfter(a, x, b, ns, s, n, Lines(bt, ns), IdsOf(bt, ns));
  }

  /** Only the end node exists: `bt` takes the place of the first `n` rows. */
  lemma {:induction false} SplicedBefore(b: Tree, y: nat, c: Tree, bt: Tree, ns: seq<LineNode>, ns': seq<LineNode>, n: nat)
    requires Linked(Node(b, y, c), NIL, ns) && Distinct(Node(b, y, c)) && InArena(Node(b, y, c), |ns|)
    requires Linked(bt, NIL, ns) && Distinct(bt) && InArena(bt, |ns|) && Keys(Node(b, y, c)) !! Keys(bt)
    requires ChangedOnly(ns, ns', y, Handle(bt), y)
    requires ns'[y].parent == NIL && ns'[y].left == Handle(bt) && ns'[y].right == Handle(c) && Summarized(ns', y)
    requires bt.Node? ==> ns'[bt.key] == ns[bt.key].(parent := y)
    requires Size(b) == n
    ensures var t, t' := Node(b, y, c), Node(bt, y, c);
      Linked(t', NIL, ns') && InArena(t', |ns'|) &&
      Lines(t', ns') == TreeSplice(Lines(t, ns), 0, n, Lines(bt, ns)) &&
      IdsOf(t', ns') == TreeSplice(IdsOf(t, ns), 0, n, IdsOf(bt, ns)) &&
      IdsOf(b, ns') == TreeSplicedOut(IdsOf(t, ns), 0, n)
    ensures Linked(b, y, ns') && InArena(b, |ns'|)
  {
    GraftLeft(b, y, c, bt, ns, ns');
    RowsBefore(b, y, c, ns, n, Lines(bt, ns), IdsOf(bt, ns));
  }

  /** The rows and ids of the tree of SplicedBetween before and after the splice. */
  lemma {:induction false} RowsBetween(a: Tree, x: nat, b: Tree, y: nat, c: Tree, ns: seq<LineNode>, s: nat, n: nat,
                    ins: seq<ScreenLine>, insIds: seq<nat>)
    requires InArena(Node(Node(a, x, b), y, c), |ns|) && InArena(Node(a, x, b), |ns|)
    requires Size(a) + 1 == s && Size(b) == n
    ensures var t := Node(Node(a, x, b), y, c);
      Lines(a, ns) + [ns[x].line] + ins + [ns[y].line] + Lines(c, ns) == TreeSplice(Lines(t, ns), s, n, ins) &&
      IdsOf(a, ns) + [ns[x].id] + insIds + [ns[y].id] + IdsOf(c, ns) == TreeSplice(IdsOf(t, ns), s, n, insIds) &&
      IdsOf(b, ns) == TreeSplicedOut(IdsOf(t, ns), s, n)
  {
    LinesLength(a, ns);
    LinesLength(b, ns);
    IdsLength(a, ns);
    IdsLength(b, ns);
    assert Lines(Node(Node(a, x, b), y, c), ns) == Lines(a, ns) + [ns[x].line] + Lines(b, ns) + [ns[y].line] + Lines(c, ns);
    assert IdsOf(Node(Node(a, x, b), y, c), ns) == IdsOf(a, ns) + [ns[x].id] + IdsOf(b, ns) + [ns[y].id] + IdsOf(c, ns);
    SpliceBetween(Lines(Node(Node(a, x, b), y, c), ns), Lines(a, ns), ns[x].line, Lines(b, ns), ns[y].line, Lines(c, ns), s, n, ins);
    SpliceBetween(IdsOf(Node(Node(a, x, b), y, c), ns), IdsOf(a, ns), ns[x].id, IdsOf(b, ns), ns[y].id, IdsOf(c, ns), s, n, insIds);
  }

  /** The rows and ids of the tree of SplicedAfter before and after the splice. */
  lemma {:induction false} RowsAfter(a: Tree, x: nat, b: Tree, ns: seq<LineNode>, s: nat, n: nat, ins: seq<ScreenLine>, insIds: seq<nat>)
    requires InArena(Node(a, x, b), |ns|) && Size(a) + 1 == s && Size(Node(a, x, b)) <= s + n
    ensures var t := Node(a, x, b);
      Lines(a, ns) + [ns[x].line] + ins == TreeSplice(Lines(t, ns), s, n, ins) &&
      IdsOf(a, ns) + [ns[x].id] + insIds == TreeSplice(IdsOf(t, ns), s, n, insIds) &&
      IdsOf(b, ns) == TreeSplicedOut(IdsOf(t, ns), s, n)
  {
    LinesLength(a, ns);
    LinesLength(Node(a, x, b), ns);
    IdsLength(a, ns);
    IdsLength(Node(a, x, b), ns);
    SpliceAfter(Lines(Node(a, x, b), ns), Lines(a, ns), ns[x].line, Lines(b, ns), s, n, ins);
    SpliceAfter(IdsOf(Node(a, x, b), ns), IdsOf(a, ns), ns[x].id, IdsOf(b, ns), s, n, insIds);
  }

  /** The rows and ids of the tree of SplicedBefore before and after the splice. */
  lemma {:induction false} RowsBefore(b: Tree, y: nat, c: Tree, ns: seq<LineNode>, n: nat, ins: seq<ScreenLine>, insIds: seq<nat>)
    requires InArena(Node(b, y, c), |ns|) && Size(b) == n
    ensures var t := Node(b, y, c);
      ins + [ns[y].line] + Lines(c, ns) == TreeSplice(Lines(t, ns), 0, n, ins) &&
      insIds + [ns[y].id] + IdsOf(c, ns) == TreeSplice(IdsOf(t, ns), 0, n, insIds) &&
      IdsOf(b, ns) == TreeSplicedOut(IdsOf(t, ns), 0, n)
  {
    LinesLength(b, ns);
    IdsLength(b, ns);
    SpliceBefore(Lines(Node(b, y, c), ns), Lines(b, ns), ns[y].line, Lines(c, ns), n, ins);
    SpliceBefore(IdsOf(Node(b, y, c), ns), IdsOf(b, ns), ns[y].id, IdsOf(c, ns), n, insIds);
  }

  /**
   * The nodes a graft at `x` changes, `x` and the new top, lie outside
   * the subtrees it keeps: `o` and `b` beside `x`, and those below the new top.
   */
  lemma {:induction false} GraftKeys(o: Tree, x: nat, b: Tree, bt: Tree)
    requires Distinct(Node(o, x, b)) || Distinct(Node(b, x, o))
    requires Keys(o) + {x} + Keys(b) !! Keys(bt) && Distinct(bt)
    ensures x !in Keys(o) && x !in Keys(b) && x !in Keys(bt)
    ensures Handle(bt) !in Keys(o) && Handle(bt) !in Keys(b)
  {
    KeysNat(o);
    KeysNat(b);
    HandleNil(bt);
  }

  /** The rows of a node whose subtrees and own payload read the same in both arenas. */
  lemma {:induction false} RowsOfTop(l: Tree, k: nat, r: Tree, ns: seq<LineNode>, ns': seq<LineNode>)
    requires InArena(Node(l, k, r), |ns|) && InArena(Node(l, k, r), |ns'|)
    requires Lines(l, ns') == Lines(l, ns) && Lines(r, ns') == Lines(r, ns)
    requires IdsOf(l, ns') == IdsOf(l, ns) && IdsOf(r, ns') == IdsOf(r, ns)
    requires ns'[k].line == ns[k].line && ns'[k].id == ns[k].id
    ensures Lines(Node(l, k, r), ns') == Lines(l, ns) + [ns[k].line] + Lines(r, ns)
    ensures IdsOf(Node(l, k, r), ns') == IdsOf(l, ns) + [ns[k].id] + IdsOf(r, ns)
  {
  }

  /** A node over two subtrees linked under it is a linked tree. */
  lemma {:induction false} LinkedTop(l: Tree, k: nat, r: Tree, par: int, ns: seq<LineNode>)
    requires Linked(l, k, ns) && Linked(r, k, ns) && InArena(l, |ns|) && InArena(r, |ns|)
    requires k < |ns| && ns[k].parent == par && ns[k].left == Handle(l) && ns[k].right == Handle(r) && Summarized(ns, k)
    ensures Linked(Node(l, k, r), par, ns) && InArena(Node(l, k, r), |ns|)
  {
  }

  /**
   * Swapping the subtree `b` beside `x` and `o` for a subtree `bt` with
   * none of their nodes keeps the nodes distinct and trades the nodes of
   * `b` for those of `bt`; `bt` lands on the right of `x` when `right`
   * holds and on its left otherwise.
   */
  lemma {:induction false} DistinctTop(o: Tree, x: nat, b: Tree, bt: Tree, right: bool)
    requires var t := if right then Node(o, x, b) else Node(b, x, o);
      Distinct(t) && Distinct(bt) && Keys(t) !! Keys(bt)
    ensures var t, t' := if right then Node(o, x, b) else Node(b, x, o), if right then Node(o, x, bt) else Node(bt, x, o);
      Distinct(t') && Keys(t') == Keys(t) - Keys(b) + Keys(bt) && Keys(b) !! Keys(t')
  {
  }

  /** DistinctTop for the subtree `b` between `x` and the top `y`. */
  lemma {:induction false} DistinctBetween(a: Tree, x: nat, b: Tree, y: nat, c: Tree, bt: Tree)
    requires Distinct(Node(Node(a, x, b), y, c)) && Distinct(bt) && Keys(Node(Node(a, x, b), y, c)) !! Keys(bt)
    ensures var t, t' := Node(Node(a, x, b), y, c), Node(Node(a, x, bt), y, c);
      Distinct(t') && Keys(t') == Keys(t) - Keys(b) + Keys(bt) && Keys(b) !! Keys(t')
  {
    DistinctTop(a, x, b, bt, true);
  }
}
