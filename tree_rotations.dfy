/**
 * Rotations of the treap (rotateNodeLeft and rotateNodeRight in
 * src/display-index.js and src/screen-line-index.js), stated on the ghost
 * shape and on the arena records.
 *
 * `RotLeftAt(t, p)` lifts `p` over its parent in the shape. `RotatedLeft(ns,
 * ns', p)` says which records a left rotation rewrites and how: the pivot `p`,
 * its parent `r`, `r`'s parent `g`, and `p`'s former left child `b`; every other
 * record is untouched. The lemmas show that the rewritten records are linked
 * to the rotated shape, which has the same in-order sequence.
 */
module TreeRotations {
  import opened Points
  import opened ScreenLines
  import opened TreeShapes

  function RotLeftAt(t: Tree, p: nat): Tree {
    match t
    case Nil => Nil
    case Node(l, k, r) =>
      if r.Node? && r.key == p then Node(Node(l, k, r.left), p, r.right)
      else Node(RotLeftAt(l, p), k, RotLeftAt(r, p))
  }

  function RotRightAt(t: Tree, p: nat): Tree {
    match t
    case Nil => Nil
    case Node(l, k, r) =>
      if l.Node? && l.key == p then Node(l.left, p, Node(l.right, k, r))
      else Node(RotRightAt(l, p), k, RotRightAt(r, p))
  }

  // ---------------------------------------------------------------------------
  // Shape facts
  // ---------------------------------------------------------------------------

  lemma {:induction false} KeysNat(t: Tree)
    ensures forall k :: k in Keys(t) ==> k >= 0
  {
    if t.Node? {
      KeysNat(t.left);
      KeysNat(t.right);
    }
  }

  /** A rotation keeps the in-order sequence, the handles and their distinctness. */
  lemma {:induction false} RotLeftShape(t: Tree, p: nat)
    ensures Inorder(RotLeftAt(t, p)) == Inorder(t)
    ensures Keys(RotLeftAt(t, p)) == Keys(t)
    ensures Size(RotLeftAt(t, p)) == Size(t)
    ensures Distinct(t) ==> Distinct(RotLeftAt(t, p))
    ensures p !in Keys(t) ==> RotLeftAt(t, p) == t
  {
    match t
    case Nil =>
    case Node(l, k, r) =>
      if r.Node? && r.key == p {
        assert Inorder(RotLeftAt(t, p)) == (Inorder(l) + [k] + Inorder(r.left)) + [p] + Inorder(r.right);
        assert Keys(t) == Keys(l) + {k} + Keys(r.left) + {p} + Keys(r.right);
        if Distinct(t) {
          assert Keys(r) == Keys(r.left) + {p} + Keys(r.right);
          assert Distinct(r);
          assert Distinct(r.left) && Distinct(r.right) && p !in Keys(r.left) && p !in Keys(r.right);
          assert Distinct(Node(l, k, r.left));
          assert Keys(Node(l, k, r.left)) == Keys(l) + {k} + Keys(r.left);
        }
      } else {
        RotLeftShape(l, p);
        RotLeftShape(r, p);
      }
  }

  lemma {:induction false} RotRightShape(t: Tree, p: nat)
    ensures Inorder(RotRightAt(t, p)) == Inorder(t)
    ensures Keys(RotRightAt(t, p)) == Keys(t)
    ensures Size(RotRightAt(t, p)) == Size(t)
    ensures Distinct(t) ==> Distinct(RotRightAt(t, p))
    ensures p !in Keys(t) ==> RotRightAt(t, p) == t
  {
    match t
    case Nil =>
    case Node(l, k, r) =>
      if l.Node? && l.key == p {
        assert Inorder(RotRightAt(t, p)) == Inorder(l.left) + [p] + (Inorder(l.right) + [k] + Inorder(r));
        assert Keys(t) == Keys(l.left) + {p} + Keys(l.right) + {k} + Keys(r);
        if Distinct(t) {
          assert Keys(l) == Keys(l.left) + {p} + Keys(l.right);
          assert Distinct(l);
          assert Distinct(l.left) && Distinct(l.right) && p !in Keys(l.left) && p !in Keys(l.right);
          assert Distinct(Node(l.right, k, r));
          assert Keys(Node(l.right, k, r)) == Keys(l.right) + {k} + Keys(r);
        }
      } else {
        RotRightShape(l, p);
        RotRightShape(r, p);
      }
  }

  lemma {:induction false} RotLeftLines(t: Tree, p: nat, ns: seq<LineNode>)
    requires InArena(t, |ns|)
    ensures InArena(RotLeftAt(t, p), |ns|) && Lines(RotLeftAt(t, p), ns) == Lines(t, ns)
  {
    match t
    case Nil =>
    case Node(l, k, r) =>
      if r.Node? && r.key == p {
      } else {
        RotLeftLines(l, p, ns);
        RotLeftLines(r, p, ns);
      }
  }

  lemma {:induction false} RotRightLines(t: Tree, p: nat, ns: seq<LineNode>)
    requires InArena(t, |ns|)
    ensures InArena(RotRightAt(t, p), |ns|) && Lines(RotRightAt(t, p), ns) == Lines(t, ns)
  {
    match t
    case Nil =>
    case Node(l, k, r) =>
      if l.Node? && l.key == p {
      } else {
        RotRightLines(l, p, ns);
        RotRightLines(r, p, ns);
      }
  }

  /** A handle below the top is not the top of its own subtree's parent chain. */
  lemma {:induction false} FindProper(t: Tree, x: int)
    requires Distinct(t) && t.Node? && x in Keys(t) && x != t.key
    ensures t.key !in Keys(Find(t, x))
  {
    if x in Keys(t.left) {
      FindKeys(t.left, x);
    } else {
      FindKeys(t.right, x);
    }
  }

  /** After lifting `p` over `r`, the subtrees of `p` and `r` are the rotated ones. */
  lemma {:induction false} RotLeftFind(t: Tree, p: nat, r: nat)
    requires Distinct(t) && r in Keys(t)
    requires Find(t, r).Node? && Find(t, r).right.Node? && Find(t, r).right.key == p
    ensures var s := Find(t, r);
      Find(RotLeftAt(t, p), p) == Node(Node(s.left, r, s.right.left), p, s.right.right) &&
      Find(RotLeftAt(t, p), r) == Node(s.left, r, s.right.left)
  {
    match t
    case Node(l, k, rt) =>
      if k == r {
      } else if r in Keys(l) {
        FindKeys(l, r);
        FindDistinct(l, r);
        RotLeftShape(l, p);
        RotLeftShape(rt, p);
        RotLeftFind(l, p, r);
      } else {
        FindKeys(rt, r);
        FindDistinct(rt, r);
        if rt.key == p {
          FindProper(rt, r);
          assert false;
        }
        RotLeftShape(l, p);
        RotLeftShape(rt, p);
        RotLeftFind(rt, p, r);
      }
  }

  lemma {:induction false} RotRightFind(t: Tree, p: nat, r: nat)
    requires Distinct(t) && r in Keys(t)
    requires Find(t, r).Node? && Find(t, r).left.Node? && Find(t, r).left.key == p
    ensures var s := Find(t, r);
      Find(RotRightAt(t, p), p) == Node(s.left.left, p, Node(s.left.right, r, s.right)) &&
      Find(RotRightAt(t, p), r) == Node(s.left.right, r, s.right)
  {
    match t
    case Node(l, k, rt) =>
      if k == r {
      } else if r in Keys(l) {
        FindKeys(l, r);
        FindDistinct(l, r);
        if l.key == p {
          FindProper(l, r);
          assert false;
        }
        RotRightShape(l, p);
        RotRightShape(rt, p);
        RotRightFind(l, p, r);
      } else {
        FindKeys(rt, r);
        FindDistinct(rt, r);
        RotRightShape(l, p);
        RotRightShape(rt, p);
        RotRightFind(rt, p, r);
      }
  }

  lemma {:induction false} FindDistinct(t: Tree, x: int)
    requires Distinct(t)
    ensures Distinct(Find(t, x))
  {
    match t
    case Nil =>
    case Node(l, k, r) =>
      if k == x {
      } else if x in Keys(l) {
        FindDistinct(l, x);
      } else {
        FindDistinct(r, x);
      }
  }

  // ---------------------------------------------------------------------------
  // Left rotation on the records
  // ---------------------------------------------------------------------------

  /**
   * `ns'` is `ns` after rotateNodeLeft(p): `p` takes the place of its parent
   * `r` under `g`, `r` adopts `p`'s left child `b` as its right child and
   * becomes `p`'s left child, and both recompute their aggregates.
   */
  ghost predicate RotatedLeft(ns: seq<LineNode>, ns': seq<LineNode>, p: int) {
    0 <= p < |ns| && |ns'| == |ns| &&
    var r := ns[p].parent;
    0 <= r < |ns| && ns[r].right == p &&
    var g := ns[r].parent;
    var b := ns[p].left;
    (g == NIL || 0 <= g < |ns|) && (b == NIL || 0 <= b < |ns|) &&
    p != r && p != b && p != g && r != b && r != g && (b == NIL || b != g) &&
    ns'[r] == WithAggregates(ns[r].(right := b, parent := p),
      Combine(ChildSummary(ns, ns[r].left), ns[r].line, ChildSummary(ns, b))) &&
    ns'[p] == WithAggregates(ns[p].(parent := g, left := r),
      Combine(Aggregates(ns'[r]), ns[p].line, ChildSummary(ns, ns[p].right))) &&
    (b != NIL ==> ns'[b] == ns[b].(parent := r)) &&
    (g != NIL ==> ns'[g] == if ns[g].left == r then ns[g].(left := p) else ns[g].(right := p)) &&
    forall k :: 0 <= k < |ns| && k != p && k != r && k != b && k != g ==> ns'[k] == ns[k]
  }

  /** `mid` is `ns` after the link rewrites of rotateNodeLeft(p), before the aggregates are recomputed. */
  ghost predicate LinksRotatedLeft(ns: seq<LineNode>, mid: seq<LineNode>, p: int) {
    0 <= p < |ns| && |mid| == |ns| &&
    var r := ns[p].parent;
    0 <= r < |ns| && ns[r].right == p &&
    var g := ns[r].parent;
    var b := ns[p].left;
    (g == NIL || 0 <= g < |ns|) && (b == NIL || 0 <= b < |ns|) &&
    p != r && p != b && p != g && r != b && r != g && (b == NIL || b != g) &&
    mid[r] == ns[r].(right := b, parent := p) &&
    mid[p] == ns[p].(parent := g, left := r) &&
    (b != NIL ==> mid[b] == ns[b].(parent := r)) &&
    (g != NIL ==> mid[g] == if ns[g].left == r then ns[g].(left := p) else ns[g].(right := p)) &&
    forall k :: 0 <= k < |ns| && k != p && k != r && k != b && k != g ==> mid[k] == ns[k]
  }

  /** Recomputing the aggregates of the old parent and then of the pivot completes the left rotation. */
  lemma {:induction false} LinksRotatedLeftThenSummarized(ns: seq<LineNode>, mid: seq<LineNode>, p: nat, r: nat)
    requires LeftRotatable(ns, p) && LinksRotatedLeft(ns, mid, p) && r == ns[p].parent
    ensures var mid' := mid[r := WithAggregates(mid[r], ComputedAggregates(mid, r))];
      RotatedLeft(ns, mid'[p := WithAggregates(mid'[p], ComputedAggregates(mid', p))], p)
  {
    var b := ns[p].left;
    assert ChildSummary(mid, ns[r].left) == ChildSummary(ns, ns[r].left);
    assert ChildSummary(mid, b) == ChildSummary(ns, b);
    var mid' := mid[r := WithAggregates(mid[r], ComputedAggregates(mid, r))];
    assert ChildSummary(mid', ns[p].right) == ChildSummary(ns, ns[p].right);
  }

  /** A left rotation rewrites links and aggregates only. */
  lemma {:induction false} RotatedLeftPayload(ns: seq<LineNode>, ns': seq<LineNode>, p: int)
    requires RotatedLeft(ns, ns', p)
    ensures |ns'| == |ns| && forall k :: 0 <= k < |ns| ==> SamePayload(ns[k], ns'[k])
  {
    forall k | 0 <= k < |ns| ensures SamePayload(ns[k], ns'[k]) {
    }
  }

  /** The pivot ends up with the aggregates its parent had: the subtree holds the same lines. */
  lemma {:induction false} RotatedLeftAggregates(ns: seq<LineNode>, ns': seq<LineNode>, p: int)
    requires RotatedLeft(ns, ns', p)
    requires Summarized(ns, ns[p].parent) && Summarized(ns, p)
    ensures Aggregates(ns'[p]) == Aggregates(ns[ns[p].parent])
  {
    var r := ns[p].parent;
    CombineRotate(ChildSummary(ns, ns[r].left), ns[r].line, ChildSummary(ns, ns[p].left), ns[p].line, ChildSummary(ns, ns[p].right));
  }

  /** Only the pivot and its parent change aggregates; only the four named records change at all. */
  lemma {:induction false} RotatedLeftElsewhere(ns: seq<LineNode>, ns': seq<LineNode>, p: int, x: int)
    requires RotatedLeft(ns, ns', p)
    requires x != p && x != ns[p].parent
    ensures ChildSummary(ns', x) == ChildSummary(ns, x)
    ensures 0 <= x < |ns| ==> ns'[x].line == ns[x].line && ns'[x].priority == ns[x].priority
  {
  }

  /** The moved child `b` keeps its subtree and takes the rotated parent as its parent. */
  lemma {:induction false} RotatedLeftMoved(bt: Tree, ns: seq<LineNode>, ns': seq<LineNode>, p: nat)
    requires RotatedLeft(ns, ns', p) && Linked(bt, p, ns) && Distinct(bt)
    requires Handle(bt) == ns[p].left
    requires p !in Keys(bt) && ns[p].parent !in Keys(bt) && ns[ns[p].parent].parent !in Keys(bt)
    ensures Linked(bt, ns[p].parent, ns')
  {
    if bt.Node? {
      LinkedInArena(bt, p, ns);
      InArenaKeys(bt, |ns|);
      LinkedReparent(bt, p, ns[p].parent, ns, ns');
    }
  }

  /** The case where the rotated edge hangs at the top of `t`. */
  lemma {:induction false} RotateLeftAtTop(t: Tree, par: int, ns: seq<LineNode>, ns': seq<LineNode>, p: nat)
    requires Linked(t, par, ns) && Distinct(t) && par !in Keys(t)
    requires t.Node? && t.right.Node? && t.right.key == p
    requires RotatedLeft(ns, ns', p)
    ensures Linked(RotLeftAt(t, p), par, ns')
  {
    var a, r, rt := t.left, t.key, t.right;
    var bt, c := rt.left, rt.right;
    assert ns[p].parent == r && ns[r].parent == par && ns[p].left == Handle(bt);
    KeysNat(t);
    assert Handle(bt) == NIL || Handle(bt) in Keys(rt) by {
      if bt.Node? {
        assert bt.key in Keys(bt);
      }
    }
    assert p in Keys(rt);
    RotatedLeftUntouched(a, r, ns, ns', p);
    RotatedLeftUntouched(c, p, ns, ns', p);
    RotatedLeftMoved(bt, ns, ns', p);
    RotatedLeftElsewhere(ns, ns', p, Handle(a));
    RotatedLeftElsewhere(ns, ns', p, Handle(bt));
    RotatedLeftElsewhere(ns, ns', p, Handle(c));
    assert Linked(Node(a, r, bt), p, ns');
  }

  lemma {:induction false} InArenaKeys(t: Tree, n: nat)
    requires InArena(t, n)
    ensures forall k :: k in Keys(t) ==> 0 <= k < n
  {
    if t.Node? {
      InArenaKeys(t.left, n);
      InArenaKeys(t.right, n);
    }
  }

  /** Below the top of `t`, the records a rotation at `p` touches belong to `t` (or, for the grandparent, may be its parent). */
  lemma {:induction false} RotationSite(t: Tree, par: int, ns: seq<LineNode>, p: nat)
    requires Linked(t, par, ns) && Distinct(t) && par !in Keys(t)
    requires p in Keys(t) && p != t.key
    ensures p < |ns| && 0 <= ns[p].parent < |ns| && ns[p].parent in Keys(t)
    ensures ns[p].left == NIL || ns[p].left in Keys(t)
    ensures ns[p].right == NIL || ns[p].right in Keys(t)
    ensures ns[ns[p].parent].parent == par || ns[ns[p].parent].parent in Keys(t)
    ensures ns[ns[p].parent].parent == par <==> ns[p].parent == t.key
  {
    KeysNat(t);
    FindLinked(t, par, ns, p);
    var r := ns[p].parent;
    FindLinked(t, par, ns, r);
    var s := Find(t, p);
    assert Keys(s) == Keys(s.left) + {p} + Keys(s.right);
    if s.left.Node? {
      assert s.left.key in Keys(s.left);
    }
    if s.right.Node? {
      assert s.right.key in Keys(s.right);
    }
  }

  /** `p` is the right child of its parent. */
  predicate IsRightChild(ns: seq<LineNode>, p: int) {
    0 <= p < |ns| && 0 <= ns[p].parent < |ns| && ns[ns[p].parent].right == p
  }

  /** `p` is the left child of its parent. */
  predicate IsLeftChild(ns: seq<LineNode>, p: int) {
    0 <= p < |ns| && 0 <= ns[p].parent < |ns| && ns[ns[p].parent].left == p
  }

  /** Every node below the top of a linked tree is a child of its parent record. */
  lemma {:induction false} ParentLinks(t: Tree, par: int, ns: seq<LineNode>, x: int)
    requires Linked(t, par, ns) && Distinct(t) && x in Keys(t)
    ensures 0 <= x < |ns|
    ensures x == t.key ==> ns[x].parent == par
    ensures x != t.key ==> ns[x].parent in Keys(t) && (IsLeftChild(ns, x) || IsRightChild(ns, x))
  {
    KeysNat(t);
    LinkedInArena(t, par, ns);
    InArenaKeys(t, |ns|);
    if x != t.key {
      if x in Keys(t.left) {
        ParentLinks(t.left, t.key, ns, x);
        if x == t.left.key { HandleNil(t.left); }
      } else {
        ParentLinks(t.right, t.key, ns, x);
        if x == t.right.key { HandleNil(t.right); }
      }
    }
  }

  /** The neighbours of a node of a linked tree are nodes of the tree that point back at it. */
  lemma {:induction false} NeighbourFacts(t: Tree, ns: seq<LineNode>, x: nat)
    requires Linked(t, NIL, ns) && Distinct(t) && x in Keys(t)
    ensures x < |ns|
    ensures ns[x].parent == NIL <==> x == t.key
    ensures ns[x].parent != NIL ==> ns[x].parent in Keys(t) && (IsLeftChild(ns, x) || IsRightChild(ns, x))
    ensures ns[x].left != NIL ==> ns[x].left in Keys(t) && IsLeftChild(ns, ns[x].left) && ns[ns[x].left].parent == x
    ensures ns[x].right != NIL ==> ns[x].right in Keys(t) && IsRightChild(ns, ns[x].right) && ns[ns[x].right].parent == x
  {
    KeysNat(t);
    ParentLinks(t, NIL, ns, x);
    FindLinked(t, NIL, ns, x);
    var s := Find(t, x);
    assert Keys(s) == Keys(s.left) + {x} + Keys(s.right);
    HandleNil(s.left);
    HandleNil(s.right);
  }

  /** The facts about the records that a left rotation at `p` relies on. */
  predicate LeftRotatable(ns: seq<LineNode>, p: int) {
    IsRightChild(ns, p) &&
    var r := ns[p].parent;
    var g := ns[r].parent;
    var b := ns[p].left;
    (g == NIL || 0 <= g < |ns|) && (b == NIL || 0 <= b < |ns|) &&
    p != r && p != b && p != g && r != b && r != g && (b == NIL || b != g) &&
    ns[r].left != p && ns[r].left != r && ns[p].right != p && ns[p].right != r
  }

  /** The facts about the records that a right rotation at `p` relies on. */
  predicate RightRotatable(ns: seq<LineNode>, p: int) {
    IsLeftChild(ns, p) &&
    var r := ns[p].parent;
    var g := ns[r].parent;
    var b := ns[p].right;
    (g == NIL || 0 <= g < |ns|) && (b == NIL || 0 <= b < |ns|) &&
    p != r && p != b && p != g && r != b && r != g && (b == NIL || b != g) &&
    ns[r].right != p && ns[r].right != r && ns[p].left != p && ns[p].left != r
  }

  /**
   * The handles a left rotation at the right child `p` reads: its parent `r`,
   * the grandparent `g`, the moved child `b`, and the two children that stay put.
   */
  lemma {:induction false} LeftRotationSite(t: Tree, ns: seq<LineNode>, p: nat)
    requires Linked(t, NIL, ns) && Distinct(t) && p in Keys(t)
    requires IsRightChild(ns, p)
    ensures LeftRotatable(ns, p)
    ensures p != t.key && (ns[ns[p].parent].parent == NIL <==> ns[p].parent == t.key)
  {
    KeysNat(t);
    LinkedInArena(t, NIL, ns);
    InArenaKeys(t, |ns|);
    var r := ns[p].parent;
    assert p != t.key;
    RotationSite(t, NIL, ns, p);
    FindLinked(t, NIL, ns, r);
    var s := Find(t, r);
    var A, R := s.left, s.right;
    assert R.Node? && R.key == p;
    var B, C := R.left, R.right;
    assert Keys(R) == Keys(B) + {p} + Keys(C);
    HandleNil(A);
    HandleNil(B);
    HandleNil(C);
  }

  /** The mirror image of LeftRotationSite. */
  lemma {:induction false} RightRotationSite(t: Tree, ns: seq<LineNode>, p: nat)
    requires Linked(t, NIL, ns) && Distinct(t) && p in Keys(t)
    requires IsLeftChild(ns, p)
    ensures RightRotatable(ns, p)
    ensures p != t.key && (ns[ns[p].parent].parent == NIL <==> ns[p].parent == t.key)
  {
    KeysNat(t);
    LinkedInArena(t, NIL, ns);
    InArenaKeys(t, |ns|);
    var r := ns[p].parent;
    assert p != t.key;
    RotationSite(t, NIL, ns, p);
    FindLinked(t, NIL, ns, r);
    var s := Find(t, r);
    var L, C := s.left, s.right;
    assert L.Node? && L.key == p;
    var A, B := L.left, L.right;
    assert Keys(L) == Keys(A) + {p} + Keys(B);
    HandleNil(A);
    HandleNil(B);
    HandleNil(C);
  }

  /** A subtree holding none of the four rewritten records stays linked, with the same lines. */
  lemma {:induction false} RotatedLeftUntouched(t: Tree, par: int, ns: seq<LineNode>, ns': seq<LineNode>, p: nat)
    requires RotatedLeft(ns, ns', p) && Linked(t, par, ns)
    requires p !in Keys(t) && ns[p].parent !in Keys(t) && ns[p].left !in Keys(t)
    requires ns[ns[p].parent].parent !in Keys(t)
    ensures Linked(t, par, ns') && InArena(t, |ns|) && Lines(t, ns') == Lines(t, ns)
  {
    LinkedInArena(t, par, ns);
    InArenaKeys(t, |ns|);
    LinkedFrame(t, par, ns, ns');
  }

  /** The rotation happens inside the left subtree of `t`. */
  lemma {:induction false} RotateLeftInLeft(t: Tree, par: int, ns: seq<LineNode>, ns': seq<LineNode>, p: nat)
    requires Linked(t, par, ns) && Distinct(t) && par !in Keys(t)
    requires RotatedLeft(ns, ns', p)
    requires t.Node? && p in Keys(t.left)
    ensures Linked(RotLeftAt(t, p), par, ns')
    ensures Handle(RotLeftAt(t, p)) == t.key && ns[p].parent != t.key
    decreases t, 0
  {
    var l, k, rt := t.left, t.key, t.right;
    KeysNat(t);
    assert Handle(rt) != p by {
      if rt.Node? {
        assert rt.key in Keys(rt);
      }
    }
    assert p != l.key;
    RotationSite(l, k, ns, p);
    var r := ns[p].parent;
    var g := ns[r].parent;
    var b := ns[p].left;
    RotateLeftLinked(l, k, ns, ns', p);
    RotLeftShape(l, p);
    RotLeftShape(rt, p);
    var l' := RotLeftAt(l, p);
    assert RotLeftAt(t, p) == Node(l', k, rt);
    RotatedLeftUntouched(rt, k, ns, ns', p);
    LinkedSummarized(l, k, ns, r);
    LinkedSummarized(l, k, ns, p);
    RotatedLeftElsewhere(ns, ns', p, Handle(rt));
    if g == k {
      RotatedLeftAggregates(ns, ns', p);
      assert ns'[k] == ns[k].(left := p);
    } else {
      RotatedLeftElsewhere(ns, ns', p, Handle(l));
      assert ns'[k] == ns[k];
    }
    assert Summarized(ns', k);
  }

  /** The rotation happens strictly inside the right subtree of `t`. */
  lemma {:induction false} RotateLeftInRight(t: Tree, par: int, ns: seq<LineNode>, ns': seq<LineNode>, p: nat)
    requires Linked(t, par, ns) && Distinct(t) && par !in Keys(t)
    requires RotatedLeft(ns, ns', p)
    requires t.Node? && p in Keys(t.right) && p != t.right.key
    ensures Linked(RotLeftAt(t, p), par, ns')
    ensures Handle(RotLeftAt(t, p)) == t.key && ns[p].parent != t.key
    decreases t, 0
  {
    var l, k, rt := t.left, t.key, t.right;
    KeysNat(t);
    RotationSite(rt, k, ns, p);
    var r := ns[p].parent;
    var g := ns[r].parent;
    var b := ns[p].left;
    RotateLeftLinked(rt, k, ns, ns', p);
    RotLeftShape(l, p);
    RotLeftShape(rt, p);
    var rt' := RotLeftAt(rt, p);
    assert RotLeftAt(t, p) == Node(l, k, rt');
    RotatedLeftUntouched(l, k, ns, ns', p);
    LinkedSummarized(rt, k, ns, r);
    LinkedSummarized(rt, k, ns, p);
    RotatedLeftElsewhere(ns, ns', p, Handle(l));
    if g == k {
      RotatedLeftAggregates(ns, ns', p);
      assert Handle(l) != r by {
        if l.Node? {
          assert l.key in Keys(l);
        }
      }
      assert ns'[k] == ns[k].(right := p);
    } else {
      RotatedLeftElsewhere(ns, ns', p, Handle(rt));
      assert ns'[k] == ns[k];
    }
    assert Summarized(ns', k);
  }

  /** rotateNodeLeft keeps the records linked to the rotated shape. */
  lemma {:induction false} RotateLeftLinked(t: Tree, par: int, ns: seq<LineNode>, ns': seq<LineNode>, p: nat)
    requires Linked(t, par, ns) && Distinct(t) && par !in Keys(t)
    requires RotatedLeft(ns, ns', p)
    requires p in Keys(t) && p != t.key
    ensures Linked(RotLeftAt(t, p), par, ns')
    ensures Handle(RotLeftAt(t, p)) == if t.key == ns[p].parent then p else t.key
    decreases t, 1
  {
    if t.right.Node? && t.right.key == p {
      RotateLeftAtTop(t, par, ns, ns', p);
    } else if p in Keys(t.left) {
      RotateLeftInLeft(t, par, ns, ns', p);
    } else {
      RotateLeftInRight(t, par, ns, ns', p);
    }
  }

  // ---------------------------------------------------------------------------
  // Right rotation on the records
  // ---------------------------------------------------------------------------

  /**
   * `ns'` is `ns` after rotateNodeRight(p): `p` takes the place of its parent
   * `r` under `g`, `r` adopts `p`'s right child `b` as its left child and
   * becomes `p`'s right child, and both recompute their aggregates.
   */
  ghost predicate RotatedRight(ns: seq<LineNode>, ns': seq<LineNode>, p: int) {
    0 <= p < |ns| && |ns'| == |ns| &&
    var r := ns[p].parent;
    0 <= r < |ns| && ns[r].left == p &&
    var g := ns[r].parent;
    var b := ns[p].right;
    (g == NIL || 0 <= g < |ns|) && (b == NIL || 0 <= b < |ns|) &&
    p != r && p != b && p != g && r != b && r != g && (b == NIL || b != g) &&
    ns'[r] == WithAggregates(ns[r].(left := b, parent := p),
      Combine(ChildSummary(ns, b), ns[r].line, ChildSummary(ns, ns[r].right))) &&
    ns'[p] == WithAggregates(ns[p].(parent := g, right := r),
      Combine(ChildSummary(ns, ns[p].left), ns[p].line, Aggregates(ns'[r]))) &&
    (b != NIL ==> ns'[b] == ns[b].(parent := r)) &&
    (g != NIL ==> ns'[g] == if ns[g].left == r then ns[g].(left := p) else ns[g].(right := p)) &&
    forall k :: 0 <= k < |ns| && k != p && k != r && k != b && k != g ==> ns'[k] == ns[k]
  }

  ghost predicate LinksRotatedRight(ns: seq<LineNode>, mid: seq<LineNode>, p: int) {
    0 <= p < |ns| && |mid| == |ns| &&
    var r := ns[p].parent;
    0 <= r < |ns| && ns[r].left == p &&
    var g := ns[r].parent;
    var b := ns[p].right;
    (g == NIL || 0 <= g < |ns|) && (b == NIL || 0 <= b < |ns|) &&
    p != r && p != b && p != g && r != b && r != g && (b == NIL || b != g) &&
    mid[r] == ns[r].(left := b, parent := p) &&
    mid[p] == ns[p].(parent := g, right := r) &&
    (b != NIL ==> mid[b] == ns[b].(parent := r)) &&
    (g != NIL ==> mid[g] == if ns[g].left == r then ns[g].(left := p) else ns[g].(right := p)) &&
    forall k :: 0 <= k < |ns| && k != p && k != r && k != b && k != g ==> mid[k] == ns[k]
  }

  lemma {:induction false} LinksRotatedRightThenSummarized(ns: seq<LineNode>, mid: seq<LineNode>, p: nat, r: nat)
    requires RightRotatable(ns, p) && LinksRotatedRight(ns, mid, p) && r == ns[p].parent
    ensures var mid' := mid[r := WithAggregates(mid[r], ComputedAggregates(mid, r))];
      RotatedRight(ns, mid'[p := WithAggregates(mid'[p], ComputedAggregates(mid', p))], p)
  {
    var b := ns[p].right;
    assert ChildSummary(mid, ns[r].right) == ChildSummary(ns, ns[r].right);
    assert ChildSummary(mid, b) == ChildSummary(ns, b);
    var mid' := mid[r := WithAggregates(mid[r], ComputedAggregates(mid, r))];
    assert ChildSummary(mid', ns[p].left) == ChildSummary(ns, ns[p].left);
  }

  lemma {:induction false} RotatedRightPayload(ns: seq<LineNode>, ns': seq<LineNode>, p: int)
    requires RotatedRight(ns, ns', p)
    ensures |ns'| == |ns| && forall k :: 0 <= k < |ns| ==> SamePayload(ns[k], ns'[k])
  {
    forall k | 0 <= k < |ns| ensures SamePayload(ns[k], ns'[k]) {
    }
  }

  lemma {:induction false} RotatedRightAggregates(ns: seq<LineNode>, ns': seq<LineNode>, p: int)
    requires RotatedRight(ns, ns', p)
    requires Summarized(ns, ns[p].parent) && Summarized(ns, p)
    ensures Aggregates(ns'[p]) == Aggregates(ns[ns[p].parent])
  {
    var r := ns[p].parent;
    CombineRotate(ChildSummary(ns, ns[p].left), ns[p].line, ChildSummary(ns, ns[p].right), ns[r].line, ChildSummary(ns, ns[r].right));
  }

  lemma {:induction false} RotatedRightElsewhere(ns: seq<LineNode>, ns': seq<LineNode>, p: int, x: int)
    requires RotatedRight(ns, ns', p)
    requires x != p && x != ns[p].parent
    ensures ChildSummary(ns', x) == ChildSummary(ns, x)
    ensures 0 <= x < |ns| ==> ns'[x].line == ns[x].line && ns'[x].priority == ns[x].priority
  {
  }

  lemma {:induction false} RotatedRightUntouched(t: Tree, par: int, ns: seq<LineNode>, ns': seq<LineNode>, p: nat)
    requires RotatedRight(ns, ns', p) && Linked(t, par, ns)
    requires p !in Keys(t) && ns[p].parent !in Keys(t) && ns[p].right !in Keys(t)
    requires ns[ns[p].parent].parent !in Keys(t)
    ensures Linked(t, par, ns') && InArena(t, |ns|) && Lines(t, ns') == Lines(t, ns)
  {
    LinkedInArena(t, par, ns);
    InArenaKeys(t, |ns|);
    LinkedFrame(t, par, ns, ns');
  }

  lemma {:induction false} RotatedRightMoved(bt: Tree, ns: seq<LineNode>, ns': seq<LineNode>, p: nat)
    requires RotatedRight(ns, ns', p) && Linked(bt, p, ns) && Distinct(bt)
    requires Handle(bt) == ns[p].right
    requires p !in Keys(bt) && ns[p].parent !in Keys(bt) && ns[ns[p].parent].parent !in Keys(bt)
    ensures Linked(bt, ns[p].parent, ns')
  {
    if bt.Node? {
      LinkedInArena(bt, p, ns);
      InArenaKeys(bt, |ns|);
      LinkedReparent(bt, p, ns[p].parent, ns, ns');
    }
  }

  lemma {:induction false} RotateRightAtTop(t: Tree, par: int, ns: seq<LineNode>, ns': seq<LineNode>, p: nat)
    requires Linked(t, par, ns) && Distinct(t) && par !in Keys(t)
    requires t.Node? && t.left.Node? && t.left.key == p
    requires RotatedRight(ns, ns', p)
    ensures Linked(RotRightAt(t, p), par, ns')
  {
    var lt, r, c := t.left, t.key, t.right;
    var a, bt := lt.left, lt.right;
    assert ns[p].parent == r && ns[r].parent == par && ns[p].right == Handle(bt);
    KeysNat(t);
    assert Handle(bt) == NIL || Handle(bt) in Keys(lt) by {
      if bt.Node? {
        assert bt.key in Keys(bt);
      }
    }
    assert p in Keys(lt);
    RotatedRightUntouched(a, p, ns, ns', p);
    RotatedRightUntouched(c, r, ns, ns', p);
    RotatedRightMoved(bt, ns, ns', p);
    RotatedRightElsewhere(ns, ns', p, Handle(a));
    RotatedRightElsewhere(ns, ns', p, Handle(bt));
    RotatedRightElsewhere(ns, ns', p, Handle(c));
    assert Linked(Node(bt, r, c), p, ns');
  }

  lemma {:induction false} RotateRightInLeft(t: Tree, par: int, ns: seq<LineNode>, ns': seq<LineNode>, p: nat)
    requires Linked(t, par, ns) && Distinct(t) && par !in Keys(t)
    requires RotatedRight(ns, ns', p)
    requires t.Node? && p in Keys(t.left) && p != t.left.key
    ensures Linked(RotRightAt(t, p), par, ns')
    ensures Handle(RotRightAt(t, p)) == t.key && ns[p].parent != t.key
    decreases t, 0
  {
    var l, k, rt := t.left, t.key, t.right;
    KeysNat(t);
    RotationSite(l, k, ns, p);
    var r := ns[p].parent;
    var g := ns[r].parent;
    var b := ns[p].right;
    RotateRightLinked(l, k, ns, ns', p);
    RotRightShape(l, p);
    RotRightShape(rt, p);
    var l' := RotRightAt(l, p);
    assert RotRightAt(t, p) == Node(l', k, rt);
    RotatedRightUntouched(rt, k, ns, ns', p);
    LinkedSummarized(l, k, ns, r);
    LinkedSummarized(l, k, ns, p);
    RotatedRightElsewhere(ns, ns', p, Handle(rt));
    if g == k {
      RotatedRightAggregates(ns, ns', p);
      assert ns'[k] == ns[k].(left := p);
    } else {
      RotatedRightElsewhere(ns, ns', p, Handle(l));
      assert ns'[k] == ns[k];
    }
    assert Summarized(ns', k);
  }

  lemma {:induction false} RotateRightInRight(t: Tree, par: int, ns: seq<LineNode>, ns': seq<LineNode>, p: nat)
    requires Linked(t, par, ns) && Distinct(t) && par !in Keys(t)
    requires RotatedRight(ns, ns', p)
    requires t.Node? && p in Keys(t.right)
    ensures Linked(RotRightAt(t, p), par, ns')
    ensures Handle(RotRightAt(t, p)) == t.key && ns[p].parent != t.key
    decreases t, 0
  {
    var l, k, rt := t.left, t.key, t.right;
    KeysNat(t);
    assert Handle(l) != p by {
      if l.Node? {
        assert l.key in Keys(l);
      }
    }
    assert p != rt.key;
    RotationSite(rt, k, ns, p);
    var r := ns[p].parent;
    var g := ns[r].parent;
    var b := ns[p].right;
    RotateRightLinked(rt, k, ns, ns', p);
    RotRightShape(l, p);
    RotRightShape(rt, p);
    var rt' := RotRightAt(rt, p);
    assert RotRightAt(t, p) == Node(l, k, rt');
    RotatedRightUntouched(l, k, ns, ns', p);
    LinkedSummarized(rt, k, ns, r);
    LinkedSummarized(rt, k, ns, p);
    RotatedRightElsewhere(ns, ns', p, Handle(l));
    if g == k {
      RotatedRightAggregates(ns, ns', p);
      assert Handle(l) != r by {
        if l.Node? {
          assert l.key in Keys(l);
        }
      }
      assert ns'[k] == ns[k].(right := p);
    } else {
      RotatedRightElsewhere(ns, ns', p, Handle(rt));
      assert ns'[k] == ns[k];
    }
    assert Summarized(ns', k);
  }

  /** rotateNodeRight keeps the records linked to the rotated shape. */
  lemma {:induction false} RotateRightLinked(t: Tree, par: int, ns: seq<LineNode>, ns': seq<LineNode>, p: nat)
    requires Linked(t, par, ns) && Distinct(t) && par !in Keys(t)
    requires RotatedRight(ns, ns', p)
    requires p in Keys(t) && p != t.key
    ensures Linked(RotRightAt(t, p), par, ns')
    ensures Handle(RotRightAt(t, p)) == if t.key == ns[p].parent then p else t.key
    decreases t, 1
  {
    if t.left.Node? && t.left.key == p {
      RotateRightAtTop(t, par, ns, ns', p);
    } else if p in Keys(t.left) {
      RotateRightInLeft(t, par, ns, ns', p);
    } else {
      RotateRightInRight(t, par, ns, ns', p);
    }
  }

  // ---------------------------------------------------------------------------
  // What a rotation does to the subtree of the pivot and of its old parent
  // ---------------------------------------------------------------------------

  /** The subtree of a node's parent, with the node as its right child. */
  /** The records of a node set `keys` aside, `ns'` extends `ns` and agrees with it everywhere else. */
  ghost predicate Outside(keys: set<int>, ns: seq<LineNode>, ns': seq<LineNode>) {
    |ns| <= |ns'| && forall k :: 0 <= k < |ns| && k !in keys ==> ns'[k] == ns[k]
  }

  /** A left rotation at `p` keeps the in-order handles and rewrites records of the tree only. */
  lemma {:induction false} RotatedLeftFrame(t: Tree, ns: seq<LineNode>, ns': seq<LineNode>, p: nat)
    requires Linked(t, NIL, ns) && Distinct(t) && p in Keys(t) && RotatedLeft(ns, ns', p)
    ensures Inorder(RotLeftAt(t, p)) == Inorder(t)
    ensures Outside(Keys(t), ns, ns')
  {
    RotLeftShape(t, p);
    NeighbourFacts(t, ns, p);
    NeighbourFacts(t, ns, ns[p].parent);
  }

  /** A right rotation at `p` keeps the in-order handles and rewrites records of the tree only. */
  lemma {:induction false} RotatedRightFrame(t: Tree, ns: seq<LineNode>, ns': seq<LineNode>, p: nat)
    requires Linked(t, NIL, ns) && Distinct(t) && p in Keys(t) && RotatedRight(ns, ns', p)
    ensures Inorder(RotRightAt(t, p)) == Inorder(t)
    ensures Outside(Keys(t), ns, ns')
  {
    RotRightShape(t, p);
    NeighbourFacts(t, ns, p);
    NeighbourFacts(t, ns, ns[p].parent);
  }

  lemma {:induction false} OutsideTransitive(keys: set<int>, a: seq<LineNode>, b: seq<LineNode>, c: seq<LineNode>)
    requires Outside(keys, a, b) && Outside(keys, b, c)
    ensures Outside(keys, a, c)
  {
  }

  lemma {:induction false} RightChildSubtree(t: Tree, ns: seq<LineNode>, p: nat)
    requires Linked(t, NIL, ns) && Distinct(t) && p in Keys(t) && IsRightChild(ns, p)
    ensures ns[p].parent in Keys(t)
    ensures var s := Find(t, ns[p].parent);
      s.Node? && s.right.Node? && s.right.key == p && Find(t, p) == s.right
  {
    NeighbourFacts(t, ns, p);
    var r := ns[p].parent;
    KeysNat(t);
    FindLinked(t, NIL, ns, r);
    var s := Find(t, r);
    HandleNil(s.right);
    assert Keys(s) == Keys(s.left) + {r} + Keys(s.right);
    FindNested(t, r, p);
  }

  lemma {:induction false} LeftChildSubtree(t: Tree, ns: seq<LineNode>, p: nat)
    requires Linked(t, NIL, ns) && Distinct(t) && p in Keys(t) && IsLeftChild(ns, p)
    ensures ns[p].parent in Keys(t)
    ensures var s := Find(t, ns[p].parent);
      s.Node? && s.left.Node? && s.left.key == p && Find(t, p) == s.left
  {
    NeighbourFacts(t, ns, p);
    var r := ns[p].parent;
    KeysNat(t);
    FindLinked(t, NIL, ns, r);
    var s := Find(t, r);
    HandleNil(s.left);
    assert Keys(s) == Keys(s.left) + {r} + Keys(s.right);
    FindNested(t, r, p);
  }

  /**
   * Lifting `p` over its parent grows the subtree under `p` and shrinks the
   * one under the old parent; at the top, `p` becomes the root with the old
   * root as its left child.
   */
  lemma {:induction false} RotLeftMeasures(t: Tree, ns: seq<LineNode>, p: nat)
    requires Linked(t, NIL, ns) && Distinct(t) && p in Keys(t) && IsRightChild(ns, p)
    ensures var t' := RotLeftAt(t, p);
      Size(Find(t, p)) < Size(Find(t', p)) <= Size(t) &&
      Size(Find(t', ns[p].parent)) < Size(Find(t, ns[p].parent))
    ensures ns[ns[p].parent].parent == NIL ==>
      RotLeftAt(t, p).Node? && RotLeftAt(t, p).key == p && Handle(RotLeftAt(t, p).left) == t.key
  {
    RightChildSubtree(t, ns, p);
    var r := ns[p].parent;
    RotLeftFind(t, p, r);
    RotLeftShape(t, p);
    FindKeys(RotLeftAt(t, p), p);
    NeighbourFacts(t, ns, r);
  }

  lemma {:induction false} RotRightMeasures(t: Tree, ns: seq<LineNode>, p: nat)
    requires Linked(t, NIL, ns) && Distinct(t) && p in Keys(t) && IsLeftChild(ns, p)
    ensures var t' := RotRightAt(t, p);
      Size(Find(t, p)) < Size(Find(t', p)) <= Size(t) &&
      Size(Find(t', ns[p].parent)) < Size(Find(t, ns[p].parent))
    ensures ns[ns[p].parent].parent == NIL ==>
      RotRightAt(t, p).Node? && RotRightAt(t, p).key == p && Handle(RotRightAt(t, p).right) == t.key
  {
    LeftChildSubtree(t, ns, p);
    var r := ns[p].parent;
    RotRightFind(t, p, r);
    RotRightShape(t, p);
    FindKeys(RotRightAt(t, p), p);
    NeighbourFacts(t, ns, r);
  }
}
