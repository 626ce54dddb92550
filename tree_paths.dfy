/**
 * Paths from the root of a tree, as the line iterator of src/line-iterator.js
 * walks them: a sequence of directions, `true` for a step to the right child.
 * The functions here say where a path leads (`Sub`), how many rows lie before
 * the subtree it reaches (`Lo`), and which node is its nearest left ancestor,
 * the last node the path left to its right (`LeftAncestor`).
 */
module TreePaths {
  import opened Points
  import opened ScreenLines
  import opened TreeShapes

  /** The path to the parent. */
  function Up(path: seq<bool>): seq<bool>
    requires path != []
  {
    path[..|path| - 1]
  }

  /** The subtree the directions `path` lead to from the top of `t`. */
  function Sub(t: Tree, path: seq<bool>): Tree
    decreases |path|
  {
    if path == [] then t
    else
      var s := Sub(t, Up(path));
      if s.Nil? then Nil else if path[|path| - 1] then s.right else s.left
  }

  /** The number of rows of `t` before the subtree at `path`. */
  function Lo(t: Tree, path: seq<bool>): nat
    decreases |path|
  {
    if path == [] then 0
    else
      var s := Sub(t, Up(path));
      if s.Node? && path[|path| - 1] then Lo(t, Up(path)) + Size(s.left) + 1 else Lo(t, Up(path))
  }

  /** The last node above `path` whose right subtree the path enters, or NIL. */
  function LeftAncestor(t: Tree, path: seq<bool>): int
    decreases |path|
  {
    if path == [] then NIL
    else
      var s := Sub(t, Up(path));
      if s.Node? && path[|path| - 1] then s.key else LeftAncestor(t, Up(path))
  }

  /** The row of the node at `path`: the rows before its subtree and its left subtree. */
  function Rank(t: Tree, path: seq<bool>): nat
    requires Sub(t, path).Node?
  {
    Lo(t, path) + Size(Sub(t, path).left)
  }

  /** The handle of the parent of the node at `path`, NIL at the top. */
  function ParentAt(t: Tree, path: seq<bool>): int {
    if path == [] then NIL else Handle(Sub(t, Up(path)))
  }

  /** A step down from a node: the three functions as the line iterator updates them. */
  lemma {:induction false} StepDown(t: Tree, path: seq<bool>, right: bool)
    requires Sub(t, path).Node?
    ensures Up(path + [right]) == path
    ensures Sub(t, path + [right]) == if right then Sub(t, path).right else Sub(t, path).left
    ensures Lo(t, path + [right]) == if right then Rank(t, path) + 1 else Lo(t, path)
    ensures LeftAncestor(t, path + [right]) == if right then Sub(t, path).key else LeftAncestor(t, path)
    ensures ParentAt(t, path + [right]) == Sub(t, path).key
  {
    assert Up(path + [right]) == path;
  }

  /**
   * The subtree at `path` covers the rows [Lo, Lo + Size) of `t`: its lines
   * are that slice of the tree's lines.
   */
  lemma {:induction false} SubSpan(t: Tree, ns: seq<LineNode>, path: seq<bool>)
    requires InArena(t, |ns|)
    ensures InArena(Sub(t, path), |ns|)
    ensures Lo(t, path) + Size(Sub(t, path)) <= Size(t)
    ensures |Lines(t, ns)| == Size(t)
    ensures Lines(t, ns)[Lo(t, path)..Lo(t, path) + Size(Sub(t, path))] == Lines(Sub(t, path), ns)
    decreases |path|
  {
    SubBounds(t, ns, path);
    LinesLength(t, ns);
    var ls := Lines(t, ns);
    if path == [] {
      assert ls[0..|ls|] == ls;
    } else {
      SubSpan(t, ns, Up(path));
      SubSpanStep(t, ns, path, ls);
    }
  }

  /** The subtree at `path` lies in the arena and inside the rows of `t`. */
  lemma {:induction false} SubBounds(t: Tree, ns: seq<LineNode>, path: seq<bool>)
    requires InArena(t, |ns|)
    ensures InArena(Sub(t, path), |ns|)
    ensures Lo(t, path) + Size(Sub(t, path)) <= Size(t)
    decreases |path|
  {
    if path != [] {
      SubBounds(t, ns, Up(path));
    }
  }

  /** One step of `SubSpan`: from the span in `ls` of the path one step up to the span of `path`. */
  lemma {:induction false} SubSpanStep(t: Tree, ns: seq<LineNode>, path: seq<bool>, ls: seq<ScreenLine>)
    requires path != [] && InArena(Sub(t, Up(path)), |ns|) && InArena(Sub(t, path), |ns|)
    requires Lo(t, Up(path)) + Size(Sub(t, Up(path))) <= |ls|
    requires ls[Lo(t, Up(path))..Lo(t, Up(path)) + Size(Sub(t, Up(path)))] == Lines(Sub(t, Up(path)), ns)
    ensures Lo(t, path) + Size(Sub(t, path)) <= Size(Sub(t, Up(path))) + Lo(t, Up(path))
    ensures ls[Lo(t, path)..Lo(t, path) + Size(Sub(t, path))] == Lines(Sub(t, path), ns)
  {
    var s, lo := Sub(t, Up(path)), Lo(t, Up(path));
    if s.Node? {
      ChildSpans(ls, lo, s, ns);
      if path[|path| - 1] {
        assert Sub(t, path) == s.right && Lo(t, path) == lo + Size(s.left) + 1;
      } else {
        assert Sub(t, path) == s.left && Lo(t, path) == lo;
      }
    } else {
      assert Sub(t, path) == Nil && Lo(t, path) == lo;
    }
  }

  /** The span of a node splits into the spans of its two children. */
  lemma {:induction false} ChildSpans(ls: seq<ScreenLine>, lo: nat, s: Tree, ns: seq<LineNode>)
    requires s.Node? && InArena(s, |ns|) && lo + Size(s) <= |ls|
    requires ls[lo..lo + Size(s)] == Lines(s, ns)
    ensures ls[lo..lo + Size(s.left)] == Lines(s.left, ns)
    ensures ls[lo + Size(s.left) + 1..lo + Size(s)] == Lines(s.right, ns)
  {
    LinesLength(s.left, ns);
    LinesLength(s.right, ns);
    SplitSlice(ls, lo, Lines(s.left, ns), ns[s.key].line, Lines(s.right, ns));
  }

  /** A slice holding `a + [x] + b` holds `a` and `b` at the matching offsets. */
  lemma {:induction false} SplitSlice<T>(s: seq<T>, lo: nat, a: seq<T>, x: T, b: seq<T>)
    requires lo + |a| + 1 + |b| <= |s|
    requires s[lo..lo + |a| + 1 + |b|] == a + [x] + b
    ensures s[lo..lo + |a|] == a
    ensures s[lo + |a| + 1..lo + |a| + 1 + |b|] == b
  {
    forall k | 0 <= k < |a|
      ensures s[lo..lo + |a|][k] == a[k]
    {
      assert s[lo + k] == s[lo..lo + |a| + 1 + |b|][k];
    }
    forall k | 0 <= k < |b|
      ensures s[lo + |a| + 1..lo + |a| + 1 + |b|][k] == b[k]
    {
      assert s[lo + |a| + 1 + k] == s[lo..lo + |a| + 1 + |b|][|a| + 1 + k];
    }
  }

  /** The subtree at `path` covers the positions [Lo, Lo + Size) of the tree's in-order handles. */
  lemma {:induction false} KeySpan(t: Tree, path: seq<bool>)
    ensures Lo(t, path) + Size(Sub(t, path)) <= Size(t) == |Inorder(t)|
    ensures Inorder(t)[Lo(t, path)..Lo(t, path) + Size(Sub(t, path))] == Inorder(Sub(t, path))
    decreases |path|
  {
    InorderFacts(t);
    var ks := Inorder(t);
    if path == [] {
      assert ks[0..|ks|] == ks;
    } else {
      KeySpan(t, Up(path));
      KeySpanStep(t, path, ks);
    }
  }

  /** One step of `KeySpan`, from the span of the path one step up. */
  lemma {:induction false} KeySpanStep(t: Tree, path: seq<bool>, ks: seq<nat>)
    requires path != []
    requires Lo(t, Up(path)) + Size(Sub(t, Up(path))) <= |ks|
    requires ks[Lo(t, Up(path))..Lo(t, Up(path)) + Size(Sub(t, Up(path)))] == Inorder(Sub(t, Up(path)))
    ensures Lo(t, path) + Size(Sub(t, path)) <= Size(Sub(t, Up(path))) + Lo(t, Up(path))
    ensures ks[Lo(t, path)..Lo(t, path) + Size(Sub(t, path))] == Inorder(Sub(t, path))
  {
    var s, lo := Sub(t, Up(path)), Lo(t, Up(path));
    if s.Node? {
      InorderFacts(s.left);
      InorderFacts(s.right);
      SplitSlice(ks, lo, Inorder(s.left), s.key, Inorder(s.right));
      if path[|path| - 1] {
        assert Sub(t, path) == s.right && Lo(t, path) == lo + Size(s.left) + 1;
      } else {
        assert Sub(t, path) == s.left && Lo(t, path) == lo;
      }
    } else {
      assert Sub(t, path) == Nil && Lo(t, path) == lo;
    }
  }

  /** The node at `path` is the handle at position `Rank` of the tree's in-order handles. */
  lemma {:induction false} RankKey(t: Tree, path: seq<bool>)
    requires Sub(t, path).Node?
    ensures Rank(t, path) < |Inorder(t)| && Inorder(t)[Rank(t, path)] == Sub(t, path).key
  {
    KeySpan(t, path);
    var s := Sub(t, path);
    InorderFacts(s.left);
    assert Inorder(s)[Size(s.left)] == s.key;
  }

  /** The node at `path` holds line `Rank` of the tree. */
  lemma {:induction false} RankLine(t: Tree, ns: seq<LineNode>, path: seq<bool>)
    requires InArena(t, |ns|) && Sub(t, path).Node?
    ensures Rank(t, path) < Size(t) == |Lines(t, ns)|
    ensures Sub(t, path).key < |ns| && Lines(t, ns)[Rank(t, path)] == ns[Sub(t, path).key].line
  {
    SubSpan(t, ns, path);
    var s := Sub(t, path);
    LinesLength(s.left, ns);
    assert Lines(s, ns)[Size(s.left)] == ns[s.key].line;
  }

  /** The rows of the left subtree of the node at `path` come right before its own row. */
  lemma {:induction false} LeftRows(t: Tree, ns: seq<LineNode>, path: seq<bool>)
    requires InArena(t, |ns|) && Sub(t, path).Node?
    ensures Rank(t, path) < |Lines(t, ns)| && InArena(Sub(t, path).left, |ns|)
    ensures Lines(t, ns)[Lo(t, path)..Rank(t, path)] == Lines(Sub(t, path).left, ns)
  {
    RankLine(t, ns, path);
    StepDown(t, path, false);
    SubSpan(t, ns, path + [false]);
  }

  /** Along a path of a linked tree, every subtree is linked below its parent on the path. */
  lemma {:induction false} SubLinked(t: Tree, ns: seq<LineNode>, path: seq<bool>)
    requires Linked(t, NIL, ns) && Distinct(t)
    ensures Keys(Sub(t, path)) <= Keys(t) && Distinct(Sub(t, path))
    ensures Linked(Sub(t, path), ParentAt(t, path), ns)
    decreases |path|
  {
    if path != [] {
      var p := Up(path);
      SubLinked(t, ns, p);
    }
  }

  /**
   * The record of the node at `path` links to the two subtrees below it and
   * to its parent on the path.
   */
  lemma {:induction false} NodeLinks(t: Tree, ns: seq<LineNode>, path: seq<bool>)
    requires Linked(t, NIL, ns) && Distinct(t) && Sub(t, path).Node?
    ensures Sub(t, path).key < |ns|
    ensures ns[Sub(t, path).key].left == Handle(Sub(t, path).left)
    ensures ns[Sub(t, path).key].right == Handle(Sub(t, path).right)
    ensures ns[Sub(t, path).key].parent == ParentAt(t, path)
  {
    SubLinked(t, ns, path);
  }

  /** The aggregates stored for the node at `path` and for its children summarize their lines. */
  lemma {:induction false} SubAggregates(t: Tree, ns: seq<LineNode>, path: seq<bool>)
    requires Linked(t, NIL, ns) && Distinct(t) && Sub(t, path).Node?
    ensures InArena(Sub(t, path), |ns|)
    ensures ChildSummary(ns, Handle(Sub(t, path))) == Summarize(Lines(Sub(t, path), ns))
    ensures ChildSummary(ns, Handle(Sub(t, path).left)) == Summarize(Lines(Sub(t, path).left, ns))
    ensures ChildSummary(ns, Handle(Sub(t, path).right)) == Summarize(Lines(Sub(t, path).right, ns))
  {
    SubLinked(t, ns, path);
    var s := Sub(t, path);
    LinkedSummary(s, ParentAt(t, path), ns);
    LinkedSummary(s.left, s.key, ns);
    LinkedSummary(s.right, s.key, ns);
  }

  /** Searching the key of the node at `path` finds that node's subtree. */
  lemma {:induction false} SubFind(t: Tree, path: seq<bool>)
    requires Distinct(t) && Sub(t, path).Node?
    ensures Sub(t, path).key in Keys(t)
    ensures Find(t, Sub(t, path).key) == Sub(t, path)
    decreases |path|
  {
    if path == [] {
    } else {
      var p := Up(path);
      var s := Sub(t, p);
      SubFind(t, p);
      SubKeys(t, p);
      var x := Sub(t, path).key;
      assert x in Keys(s);
      FindNested(t, s.key, x);
    }
  }

  lemma {:induction false} SubKeys(t: Tree, path: seq<bool>)
    requires Distinct(t)
    ensures Keys(Sub(t, path)) <= Keys(t) && Distinct(Sub(t, path))
    decreases |path|
  {
    if path != [] {
      SubKeys(t, Up(path));
    }
  }

  /** The buffer start of the row at `path`: the left ancestor's end moved past the left subtree. */
  lemma {:induction false} RankStart(t: Tree, ns: seq<LineNode>, path: seq<bool>)
    requires InArena(t, |ns|) && Sub(t, path).Node?
    ensures Rank(t, path) < |Lines(t, ns)| && InArena(Sub(t, path).left, |ns|)
    ensures LineStart(Lines(t, ns), Rank(t, path))
      == Traverse(LineStart(Lines(t, ns), Lo(t, path)), TotalExtent(Lines(Sub(t, path).left, ns)))
  {
    LeftRows(t, ns, path);
    var ls := Lines(t, ns);
    var lo, rank := Lo(t, path), Rank(t, path);
    assert ls[..rank] == ls[..lo] + ls[lo..rank];
    TotalExtentAppend(ls[..lo], ls[lo..rank]);
  }

  /**
   * A node below the top and its parent on the path: the parent's record
   * points back at the node from the side the path took, and the spans of
   * the two subtrees line up.
   */
  lemma {:induction false} ParentStep(t: Tree, ns: seq<LineNode>, path: seq<bool>)
    requires Linked(t, NIL, ns) && Distinct(t)
    requires path != [] && Sub(t, path).Node?
    ensures Sub(t, Up(path)).Node? && Sub(t, path).key < |ns| && Sub(t, Up(path)).key < |ns|
    ensures ns[Sub(t, path).key].parent == Sub(t, Up(path)).key
    ensures ns[Sub(t, Up(path)).key].right == Sub(t, path).key <==> path[|path| - 1]
    ensures path[|path| - 1] ==>
      Lo(t, path) + Size(Sub(t, path)) == Lo(t, Up(path)) + Size(Sub(t, Up(path)))
    ensures !path[|path| - 1] ==>
      Lo(t, path) == Lo(t, Up(path)) && Lo(t, path) + Size(Sub(t, path)) == Rank(t, Up(path))
  {
    var p := Up(path);
    var right := path[|path| - 1];
    assert path == p + [right];
    SubLinked(t, ns, p);
    SubLinked(t, ns, path);
    StepDown(t, p, right);
    var s := Sub(t, p);
    if !right {
      assert Sub(t, path).key in Keys(s.left);
    }
  }

  /** At the top of a linked tree there is no parent and the span is the whole tree. */
  lemma {:induction false} TopFacts(t: Tree, ns: seq<LineNode>)
    requires Linked(t, NIL, ns) && t.Node?
    ensures t.key < |ns| && ns[t.key].parent == NIL
    ensures Sub(t, []) == t && Lo(t, []) == 0 && LeftAncestor(t, []) == NIL
  {
  }
}
