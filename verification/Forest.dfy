/** The depends forest: where it starts, and what it expands. */
module Forest {
  import opened Lex
  import opened Sorting
  import opened Graphs
  import opened Reachability
  import opened DependsGraph

  predicate NodeLess(a: Node, b: Node)
  {
    Less(a.id, b.id)
  }

  function SortedChildren(outDep: Adjacency, n: Node): (c: seq<Node>)
    ensures forall x :: x in c <==> x in At(outDep, n)
    ensures multiset(c) == multiset(At(outDep, n))
  {
    SortKeeps(At(outDep, n), NodeLess);
    StableSort(At(outDep, n), NodeLess)
  }

  /** Children that need no subtree of their own: ancestors, and nodes without outgoing edges. */
  predicate AllLeafLike(outDep: Adjacency, children: seq<Node>, onPath: set<Node>)
  {
    forall i :: 0 <= i < |children| ==> children[i] in onPath || At(outDep, children[i]) == []
  }

  // ------------------------------------------------------------- what is printed

  datatype Mark = OnCycle | Unresolved | Unmarked

  /** The printed forest before it is drawn: a node that is only named, or one that is expanded into its children. */
  datatype Tree = Leaf(node: Node, mark: Mark) | Branch(node: Node, kids: seq<Tree>)

  /** The expanded nodes, in the order in which they are printed. */
  function Expanded(t: Tree): seq<Node>
    decreases t, 1, 0
  {
    if t.Leaf? then [] else [t.node] + ExpandedBelow(t, |t.kids|)
  }

  /** Those below the first `i` children. */
  function ExpandedBelow(t: Tree, i: nat): seq<Node>
    requires t.Branch? && i <= |t.kids|
    decreases t, 0, i
  {
    if i == 0 then [] else ExpandedBelow(t, i - 1) + Expanded(t.kids[i - 1])
  }

  lemma {:induction false} BelowPrefix(t: Tree, u: Tree, i: nat)
    requires t.Branch? && u.Branch? && i <= |t.kids| && t.kids <= u.kids
    ensures ExpandedBelow(t, i) == ExpandedBelow(u, i)
  {
    if i > 0 {
      BelowPrefix(t, u, i - 1);
      assert t.kids[i - 1] == u.kids[i - 1];
    }
  }

  /** The children's names are the node's targets, ascending by id. */
  ghost predicate NamesInOrder(targets: seq<Node>, kids: seq<Tree>)
  {
    && multiset(targets) == multiset(seq(|kids|, i requires 0 <= i < |kids| => kids[i].node))
    && forall i, j :: 0 <= i < j < |kids| ==> LessEq(kids[i].node.id, kids[j].node.id)
  }

  /** A child is only named when it is an ancestor, has no row, is printed already or is another root, or when all
      children of its parent are named in one line; and a named child is marked as an ancestor or as having no row. */
  ghost predicate KidFits(
    resolved: set<Node>, roots: set<Node>, path: set<Node>, log: seq<Node>, inOneLine: bool, kid: Tree)
  {
    && (kid.Leaf? <==> inOneLine || kid.node in path || kid.node !in resolved || kid.node in log || kid.node in roots)
    && (kid.Leaf? ==>
          kid.mark == if kid.node in path then OnCycle else if kid.node !in resolved then Unresolved else Unmarked)
  }

  /** Every child is an ancestor or has no children of its own. */
  ghost predicate InOneLine(outDep: Adjacency, n: Node, path: set<Node>)
  {
    forall c :: c in At(outDep, n) ==> c in path || At(outDep, c) == []
  }

  /** A printed tree, with its ancestors and what is printed above it. */
  ghost predicate Fits(
    outDep: Adjacency, resolved: set<Node>, roots: set<Node>, path: set<Node>, log: seq<Node>, t: Tree)
    decreases t
  {
    t.Branch? ==>
      && t.node !in log && NamesInOrder(At(outDep, t.node), t.kids)
      && forall i :: 0 <= i < |t.kids| ==> FitsBelow(outDep, resolved, roots, path, log, t, i)
  }

  ghost predicate FitsBelow(
    outDep: Adjacency, resolved: set<Node>, roots: set<Node>, path: set<Node>, log: seq<Node>, t: Tree, i: nat)
    requires t.Branch? && i < |t.kids|
    decreases t, 0
  {
    var (below, above) := (path + {t.node}, log + [t.node] + ExpandedBelow(t, i));
    && KidFits(resolved, roots, below, above, InOneLine(outDep, t.node, below), t.kids[i])
    && Fits(outDep, resolved, roots, below, above, t.kids[i])
  }

  // ------------------------------------------------------------- expansion

  /** A resolved node with outgoing edges: one the forest must expand when it meets it. */
  ghost predicate Needs(outDep: Adjacency, resolved: set<Node>, c: Node)
  {
    c in resolved && At(outDep, c) != []
  }

  /** Each child of `u` that needs expanding is expanded, or is a root that prints its own subtree. */
  ghost predicate Covered(outDep: Adjacency, resolved: set<Node>, roots: set<Node>, expanded: set<Node>, u: Node)
  {
    forall c :: c in At(outDep, u) && Needs(outDep, resolved, c) ==> c in expanded || c in roots
  }

  /** The expansions so far, in order and without repetition. */
  ghost predicate IsLog(log: seq<Node>, expanded: set<Node>)
  {
    (forall x :: x in log <==> x in expanded) && NoRepeats(log)
  }

  /** What a subtree under `top` adds: nodes whose children are covered, none of them another root. */
  ghost predicate Grown(
    outDep: Adjacency, resolved: set<Node>, roots: set<Node>, before: set<Node>, expanded: set<Node>, top: set<Node>)
  {
    && before <= expanded
    && (forall x :: x in expanded && x !in before && x !in top ==>
      Covered(outDep, resolved, roots, expanded, x) && x !in roots)
  }

  lemma GrownThrough(
    outDep: Adjacency, resolved: set<Node>, roots: set<Node>, a: set<Node>, b: set<Node>, c: set<Node>, top: set<Node>)
    requires Grown(outDep, resolved, roots, a, b, top) && Grown(outDep, resolved, roots, b, c, {})
    ensures Grown(outDep, resolved, roots, a, c, top)
  {
    forall x | x in c && x !in a && x !in top ensures Covered(outDep, resolved, roots, c, x) && x !in roots {
      if x in b { assert Covered(outDep, resolved, roots, b, x); }
    }
  }

  lemma FewerLeft(all: set<Node>, a: set<Node>, b: set<Node>)
    requires a <= b
    ensures |all - b| <= |all - a|
  {
    assert all - a == (all - b) + (all * (b - a));
    assert (all - b) !! (all * (b - a));
  }

  /** The first `i` children are dealt with. */
  ghost predicate Handled(
    outDep: Adjacency, resolved: set<Node>, roots: set<Node>, expanded: set<Node>, children: seq<Node>, i: nat)
    requires i <= |children|
  {
    forall k :: 0 <= k < i ==> Needs(outDep, resolved, children[k]) ==> children[k] in expanded || children[k] in roots
  }

  lemma HandledOneMore(
    outDep: Adjacency, resolved: set<Node>, roots: set<Node>, was: set<Node>, expanded: set<Node>,
    children: seq<Node>, i: nat)
    requires i < |children| && Handled(outDep, resolved, roots, was, children, i) && was <= expanded
    requires Needs(outDep, resolved, children[i]) ==> children[i] in expanded || children[i] in roots
    ensures Handled(outDep, resolved, roots, expanded, children, i + 1)
  {
  }

  lemma HandledAll(outDep: Adjacency, resolved: set<Node>, roots: set<Node>, expanded: set<Node>, node: Node)
    requires Handled(outDep, resolved, roots, expanded, SortedChildren(outDep, node), |SortedChildren(outDep, node)|)
    ensures Covered(outDep, resolved, roots, expanded, node)
  {
    var children := SortedChildren(outDep, node);
    forall c | c in At(outDep, node) && Needs(outDep, resolved, c) ensures c in expanded || c in roots {
      assert c in children;
      var k :| 0 <= k < |children| && children[k] == c;
    }
  }

  /** `x` may be expanded after `log`: it is a root, or a resolved child of a node already expanded. */
  ghost predicate Justified(outDep: Adjacency, resolved: set<Node>, roots: set<Node>, log: seq<Node>, x: Node)
  {
    x in roots || (x in resolved && exists k :: 0 <= k < |log| && x in At(outDep, log[k]))
  }

  /** Every expansion was justified when it happened. */
  ghost predicate Grounded(outDep: Adjacency, resolved: set<Node>, roots: set<Node>, log: seq<Node>)
  {
    forall i {:trigger log[..i]} :: 0 <= i < |log| ==> Justified(outDep, resolved, roots, log[..i], log[i])
  }

  lemma GroundedWith(outDep: Adjacency, resolved: set<Node>, roots: set<Node>, log: seq<Node>, x: Node)
    requires Grounded(outDep, resolved, roots, log) && Justified(outDep, resolved, roots, log, x)
    ensures Grounded(outDep, resolved, roots, log + [x])
  {
    var more := log + [x];
    forall i | 0 <= i < |more| ensures Justified(outDep, resolved, roots, more[..i], more[i]) {
      assert more[..i] == log[..i];
      if i == |log| { assert log[..i] == log; }
    }
  }

  /** What expanding more does to a log: it only grows, and stays justified. */
  ghost predicate Extended(outDep: Adjacency, resolved: set<Node>, roots: set<Node>, log0: seq<Node>, log: seq<Node>)
  {
    log0 <= log && Grounded(outDep, resolved, roots, log)
  }

  lemma ExtendedThrough(
    outDep: Adjacency, resolved: set<Node>, roots: set<Node>, a: seq<Node>, b: seq<Node>, c: seq<Node>)
    requires a <= b && Extended(outDep, resolved, roots, b, c)
    ensures Extended(outDep, resolved, roots, a, c)
  {
  }

  lemma NodeLessOrders()
    ensures WeakOrder(NodeLess)
  {
    forall a, b | NodeLess(a, b) ensures !NodeLess(b, a) { Asymmetric(a.id, b.id); }
    forall a, b, c | !NodeLess(b, a) && !NodeLess(c, b) ensures !NodeLess(c, a) { NotLessChains(a.id, b.id, c.id); }
  }

  lemma NotNodeLess(a: Node, b: Node)
    ensures !NodeLess(b, a) <==> LessEq(a.id, b.id)
  {
    Total(a.id, b.id);
    Irreflexive(a.id);
    if Less(a.id, b.id) { Asymmetric(a.id, b.id); }
  }

  lemma SortedByID(s: seq<Node>)
    requires Sorted(s, NodeLess)
    ensures forall i, j :: 0 <= i < j < |s| ==> LessEq(s[i].id, s[j].id)
  {
    forall i, j | 0 <= i < j < |s| ensures LessEq(s[i].id, s[j].id) {
      NotNodeLess(s[i], s[j]);
    }
  }

  /** The trees are the children's, as far as they go. */
  ghost predicate AreNamed(kids: seq<Tree>, children: seq<Node>)
  {
    |kids| <= |children| && forall k :: 0 <= k < |kids| ==> kids[k].node == children[k]
  }

  lemma NamedOneMore(kids: seq<Tree>, children: seq<Node>, kid: Tree)
    requires AreNamed(kids, children) && |kids| < |children| && kid.node == children[|kids|]
    ensures AreNamed(kids + [kid], children)
  {
  }

  lemma KidsInOrder(outDep: Adjacency, n: Node, kids: seq<Tree>)
    requires |kids| == |SortedChildren(outDep, n)| && AreNamed(kids, SortedChildren(outDep, n))
    ensures NamesInOrder(At(outDep, n), kids)
  {
    var children := SortedChildren(outDep, n);
    var names := seq(|kids|, i requires 0 <= i < |kids| => kids[i].node);
    assert names == children;
    NodeLessOrders();
    SortSorts(At(outDep, n), NodeLess);
    SortedByID(children);
  }

  /** More children after them change nothing for the first ones. */
  lemma FitsWithMore(
    outDep: Adjacency, resolved: set<Node>, roots: set<Node>, path: set<Node>, log: seq<Node>, t: Tree, u: Tree, i: nat)
    requires t.Branch? && u.Branch? && t.node == u.node && t.kids <= u.kids && i < |t.kids|
    requires FitsBelow(outDep, resolved, roots, path, log, t, i)
    ensures FitsBelow(outDep, resolved, roots, path, log, u, i)
  {
    BelowPrefix(t, u, i);
    assert t.kids[i] == u.kids[i];
  }

  lemma Regroup(a: seq<Node>, b: seq<Node>, c: seq<Node>, ab: seq<Node>, bc: seq<Node>)
    requires ab == a + b && bc == b + c
    ensures ab + c == a + bc
  {
  }

  lemma BelowOneMore(t: Tree, u: Tree, kid: Tree)
    requires t.Branch? && u == Branch(t.node, t.kids + [kid])
    ensures ExpandedBelow(u, |u.kids|) == ExpandedBelow(t, |t.kids|) + Expanded(kid)
    ensures ExpandedBelow(u, |t.kids|) == ExpandedBelow(t, |t.kids|)
  {
    BelowPrefix(t, u, |t.kids|);
    assert u.kids[|t.kids|] == kid;
  }

  /** All children so far fit. */
  ghost predicate KidsFit(
    outDep: Adjacency, resolved: set<Node>, roots: set<Node>, path: set<Node>, log: seq<Node>, t: Tree)
  {
    t.Branch? && forall k :: 0 <= k < |t.kids| ==> FitsBelow(outDep, resolved, roots, path, log, t, k)
  }

  lemma OneMoreKid(
    outDep: Adjacency, resolved: set<Node>, roots: set<Node>, path: set<Node>, log: seq<Node>, t: Tree, u: Tree,
    kid: Tree, now: seq<Node>)
    requires KidsFit(outDep, resolved, roots, path, log, t) && u == Branch(t.node, t.kids + [kid])
    requires now == log + [t.node] + ExpandedBelow(t, |t.kids|)
    requires !InOneLine(outDep, t.node, path + {t.node})
    requires KidFits(resolved, roots, path + {t.node}, now, false, kid)
    requires Fits(outDep, resolved, roots, path + {t.node}, now, kid)
    ensures KidsFit(outDep, resolved, roots, path, log, u)
  {
    EarlierKidsFit(outDep, resolved, roots, path, log, t, u);
    LastKidFits(outDep, resolved, roots, path, log, t, u, kid, now, |t.kids|);
  }

  lemma EarlierKidsFit(
    outDep: Adjacency, resolved: set<Node>, roots: set<Node>, path: set<Node>, log: seq<Node>, t: Tree, u: Tree)
    requires KidsFit(outDep, resolved, roots, path, log, t) && u.Branch? && u.node == t.node && t.kids <= u.kids
    ensures forall k :: 0 <= k < |t.kids| ==> FitsBelow(outDep, resolved, roots, path, log, u, k)
  {
    forall k | 0 <= k < |t.kids| ensures FitsBelow(outDep, resolved, roots, path, log, u, k) {
      assert FitsBelow(outDep, resolved, roots, path, log, t, k);
      FitsWithMore(outDep, resolved, roots, path, log, t, u, k);
    }
  }

  lemma LastKidFits(
    outDep: Adjacency, resolved: set<Node>, roots: set<Node>, path: set<Node>, log: seq<Node>, t: Tree, u: Tree,
    kid: Tree, now: seq<Node>, n: nat)
    requires t.Branch? && n == |t.kids| && u == Branch(t.node, t.kids + [kid])
    requires now == log + [t.node] + ExpandedBelow(t, n) && !InOneLine(outDep, t.node, path + {t.node})
    requires KidFits(resolved, roots, path + {t.node}, now, false, kid)
    requires Fits(outDep, resolved, roots, path + {t.node}, now, kid)
    ensures FitsBelow(outDep, resolved, roots, path, log, u, n)
  {
    assert u.kids[n] == kid;
    BelowPrefix(t, u, n);
  }

  lemma LogOneMore(log0: seq<Node>, t: Tree, u: Tree, kid: Tree, was: seq<Node>)
    requires t.Branch? && u == Branch(t.node, t.kids + [kid]) && was == log0 + ExpandedBelow(t, |t.kids|)
    ensures was + Expanded(kid) == log0 + ExpandedBelow(u, |u.kids|)
  {
    BelowOneMore(t, u, kid);
    Regroup(log0, ExpandedBelow(t, |t.kids|), Expanded(kid), was, ExpandedBelow(u, |u.kids|));
  }

  lemma {:induction false} LeavesExpandNothing(t: Tree, i: nat)
    requires t.Branch? && i <= |t.kids| && forall k :: 0 <= k < |t.kids| ==> t.kids[k].Leaf?
    ensures ExpandedBelow(t, i) == []
  {
    if i > 0 { LeavesExpandNothing(t, i - 1); }
  }

  ghost function Named(resolved: set<Node>, n: Node, path: set<Node>): Tree
  {
    Leaf(n, if n in path then OnCycle else if n !in resolved then Unresolved else Unmarked)
  }

  /** The children's names in one line. */
  method LeafList(resolved: set<Node>, children: seq<Node>, onPath: set<Node>) returns (kids: seq<Tree>)
    ensures |kids| == |children| && forall i :: 0 <= i < |kids| ==> kids[i] == Named(resolved, children[i], onPath)
  {
    kids := [];
    var i := 0;
    while i < |children|
      invariant 0 <= i <= |children| && |kids| == i
      invariant forall k :: 0 <= k < i ==> kids[k] == Named(resolved, children[k], onPath)
    {
      var mark := if children[i] in onPath then OnCycle else if children[i] in resolved then Unmarked else Unresolved;
      kids := kids + [Leaf(children[i], mark)];
      i := i + 1;
    }
  }

  /** Prints one node's subtree: expands it, and its children in turn unless all are leaf-like. */
  method WriteSubtree(
    outDep: Adjacency, resolved: set<Node>, roots: set<Node>, node: Node,
    onPath0: set<Node>, expanded0: set<Node>, log0: seq<Node>)
    returns (expanded: set<Node>, log: seq<Node>, tree: Tree)
    requires node !in expanded0 && onPath0 <= expanded0 && IsLog(log0, expanded0)
    requires Grounded(outDep, resolved, roots, log0) && Justified(outDep, resolved, roots, log0, node)
    ensures IsLog(log, expanded) && node in expanded && Extended(outDep, resolved, roots, log0, log)
    ensures Grown(outDep, resolved, roots, expanded0, expanded, {node})
    ensures Covered(outDep, resolved, roots, expanded, node)
    ensures tree.Branch? && tree.node == node && log == log0 + Expanded(tree)
    ensures Fits(outDep, resolved, roots, onPath0, log0, tree)
    decreases |Targets(outDep) - (expanded0 + {node})|, 3
  {
    var (onPath, was, now) := (onPath0 + {node}, expanded0 + {node}, log0 + [node]);
    NodeIsLogged(outDep, resolved, roots, node, expanded0, log0, was, now);
    var children := SortedChildren(outDep, node);
    var kids;
    expanded, log, kids := WriteKids(outDep, resolved, roots, node, children, onPath0, onPath, was, now, log0);
    SubtreeIsDone(outDep, resolved, roots, node, expanded0, was, expanded);
    ExtendedThrough(outDep, resolved, roots, log0, now, log);
    tree := Branch(node, kids);
    TreeFits(outDep, resolved, roots, onPath0, log0, tree, log);
  }

  lemma NodeIsLogged(
    outDep: Adjacency, resolved: set<Node>, roots: set<Node>, node: Node, expanded0: set<Node>, log0: seq<Node>,
    was: set<Node>, now: seq<Node>)
    requires node !in expanded0 && IsLog(log0, expanded0) && was == expanded0 + {node} && now == log0 + [node]
    requires Grounded(outDep, resolved, roots, log0) && Justified(outDep, resolved, roots, log0, node)
    ensures node !in log0 && IsLog(now, was) && Grounded(outDep, resolved, roots, now)
    ensures Grown(outDep, resolved, roots, expanded0, was, {node})
  {
    GroundedWith(outDep, resolved, roots, log0, node);
  }

  lemma SubtreeIsDone(
    outDep: Adjacency, resolved: set<Node>, roots: set<Node>, node: Node, a: set<Node>, b: set<Node>, c: set<Node>)
    requires Grown(outDep, resolved, roots, a, b, {node}) && Grown(outDep, resolved, roots, b, c, {}) && node in b
    requires Handled(outDep, resolved, roots, c, SortedChildren(outDep, node), |SortedChildren(outDep, node)|)
    ensures Grown(outDep, resolved, roots, a, c, {node}) && Covered(outDep, resolved, roots, c, node) && node in c
  {
    GrownThrough(outDep, resolved, roots, a, b, c, {node});
    HandledAll(outDep, resolved, roots, c, node);
  }

  /** The children: in one line, or each in its turn. */
  method WriteKids(
    outDep: Adjacency, resolved: set<Node>, roots: set<Node>, ghost node: Node, children: seq<Node>,
    ghost path: set<Node>, onPath: set<Node>, expanded0: set<Node>, log0: seq<Node>, ghost before: seq<Node>)
    returns (expanded: set<Node>, log: seq<Node>, kids: seq<Tree>)
    requires onPath <= expanded0 && IsLog(log0, expanded0) && Grounded(outDep, resolved, roots, log0)
    requires node in expanded0 && children == SortedChildren(outDep, node)
    requires onPath == path + {node} && log0 == before + [node]
    ensures IsLog(log, expanded) && Extended(outDep, resolved, roots, log0, log)
    ensures Grown(outDep, resolved, roots, expanded0, expanded, {})
    ensures Handled(outDep, resolved, roots, expanded, children, |children|)
    ensures |kids| == |children| && AreNamed(kids, children)
    ensures KidsFit(outDep, resolved, roots, path, before, Branch(node, kids))
    ensures log == log0 + ExpandedBelow(Branch(node, kids), |kids|)
    decreases |Targets(outDep) - expanded0|, 2
  {
    LeafLikeIsInLine(outDep, node, onPath);
    if AllLeafLike(outDep, children, onPath) {
      expanded, log := expanded0, log0;
      kids := LeafList(resolved, children, onPath);
      LeavesExpandNothing(Branch(node, kids), |kids|);
      AllNamed(outDep, resolved, roots, path, before, node, kids);
    } else {
      expanded, log, kids := WriteChildren(
        outDep, resolved, roots, node, children, path, onPath, expanded0, log0, before);
    }
  }

  lemma TreeFits(
    outDep: Adjacency, resolved: set<Node>, roots: set<Node>, path: set<Node>, log0: seq<Node>, tree: Tree,
    log: seq<Node>)
    requires tree.Branch? && tree.node !in log0 && KidsFit(outDep, resolved, roots, path, log0, tree)
    requires |tree.kids| == |SortedChildren(outDep, tree.node)|
    requires AreNamed(tree.kids, SortedChildren(outDep, tree.node))
    requires log == log0 + [tree.node] + ExpandedBelow(tree, |tree.kids|)
    ensures Fits(outDep, resolved, roots, path, log0, tree) && log == log0 + Expanded(tree)
  {
    KidsInOrder(outDep, tree.node, tree.kids);
    Regroup(log0, [tree.node], ExpandedBelow(tree, |tree.kids|), log0 + [tree.node], Expanded(tree));
  }

  lemma LeafLikeIsInLine(outDep: Adjacency, node: Node, onPath: set<Node>)
    ensures AllLeafLike(outDep, SortedChildren(outDep, node), onPath) <==> InOneLine(outDep, node, onPath)
  {
    var children := SortedChildren(outDep, node);
    if AllLeafLike(outDep, children, onPath) {
      forall c | c in At(outDep, node) ensures c in onPath || At(outDep, c) == [] {
        assert c in children;
        var k :| 0 <= k < |children| && children[k] == c;
      }
    }
  }

  lemma AllNamed(
    outDep: Adjacency, resolved: set<Node>, roots: set<Node>, path: set<Node>, log: seq<Node>, node: Node,
    kids: seq<Tree>)
    requires AllLeafLike(outDep, SortedChildren(outDep, node), path + {node})
    requires forall k :: 0 <= k < |kids| ==> kids[k] == Named(resolved, kids[k].node, path + {node})
    ensures KidsFit(outDep, resolved, roots, path, log, Branch(node, kids))
  {
    LeafLikeIsInLine(outDep, node, path + {node});
  }

  method WriteChildren(
    outDep: Adjacency, resolved: set<Node>, roots: set<Node>, ghost node: Node, children: seq<Node>,
    ghost path: set<Node>, onPath: set<Node>, expanded0: set<Node>, log0: seq<Node>, ghost before: seq<Node>)
    returns (expanded: set<Node>, log: seq<Node>, kids: seq<Tree>)
    requires onPath <= expanded0 && IsLog(log0, expanded0) && Grounded(outDep, resolved, roots, log0)
    requires node in expanded0 && forall x :: x in children ==> x in At(outDep, node)
    requires onPath == path + {node} && log0 == before + [node] && !InOneLine(outDep, node, onPath)
    ensures IsLog(log, expanded) && Extended(outDep, resolved, roots, log0, log)
    ensures Grown(outDep, resolved, roots, expanded0, expanded, {})
    ensures Handled(outDep, resolved, roots, expanded, children, |children|)
    ensures |kids| == |children| && AreNamed(kids, children)
    ensures KidsFit(outDep, resolved, roots, path, before, Branch(node, kids))
    ensures log == log0 + ExpandedBelow(Branch(node, kids), |kids|)
    decreases |Targets(outDep) - expanded0|, 1
  {
    expanded, log, kids := expanded0, log0, [];
    var i := 0;
    while i < |children|
      invariant 0 <= i <= |children| && IsLog(log, expanded) && Extended(outDep, resolved, roots, log0, log)
      invariant Grown(outDep, resolved, roots, expanded0, expanded, {})
      invariant Handled(outDep, resolved, roots, expanded, children, i)
      invariant |kids| == i && AreNamed(kids, children)
      invariant KidsFit(outDep, resolved, roots, path, before, Branch(node, kids))
      invariant log == log0 + ExpandedBelow(Branch(node, kids), i)
    {
      ghost var (was, wrote) := (expanded, log);
      FewerLeft(Targets(outDep), expanded0, expanded);
      var child := children[i];
      assert child in children;
      var kid;
      expanded, log, kid := WriteChild(outDep, resolved, roots, node, child, onPath, expanded, log);
      GrownThrough(outDep, resolved, roots, expanded0, was, expanded, {});
      ExtendedThrough(outDep, resolved, roots, log0, wrote, log);
      HandledOneMore(outDep, resolved, roots, was, expanded, children, i);
      ghost var (t, u) := (Branch(node, kids), Branch(node, kids + [kid]));
      OneMoreKid(outDep, resolved, roots, path, before, t, u, kid, wrote);
      LogOneMore(log0, t, u, kid, wrote);
      NamedOneMore(kids, children, kid);
      kids := kids + [kid];
      i := i + 1;
    }
  }

  /** A child is a back edge, unresolved, already printed, another root, or a subtree of its own. */
  method WriteChild(
    outDep: Adjacency, resolved: set<Node>, roots: set<Node>, ghost node: Node, child: Node,
    onPath: set<Node>, expanded0: set<Node>, log0: seq<Node>)
    returns (expanded: set<Node>, log: seq<Node>, kid: Tree)
    requires onPath <= expanded0 && IsLog(log0, expanded0) && Grounded(outDep, resolved, roots, log0)
    requires node in expanded0 && child in At(outDep, node)
    ensures IsLog(log, expanded) && Extended(outDep, resolved, roots, log0, log)
    ensures Grown(outDep, resolved, roots, expanded0, expanded, {})
    ensures Needs(outDep, resolved, child) ==> child in expanded || child in roots
    ensures kid.node == child && log == log0 + Expanded(kid)
    ensures KidFits(resolved, roots, onPath, log0, false, kid) && Fits(outDep, resolved, roots, onPath, log0, kid)
    decreases |Targets(outDep) - expanded0|, 0
  {
    expanded, log := expanded0, log0;
    if child in onPath { return expanded, log, Leaf(child, OnCycle); }
    if child !in resolved { return expanded, log, Leaf(child, Unresolved); }
    if child in expanded || child in roots { return expanded, log, Leaf(child, Unmarked); }
    EdgeInMap(outDep, node, child);
    Fewer(Targets(outDep), expanded0, expanded0, child);
    assert Justified(outDep, resolved, roots, log0, child) by { assert node in log0; }
    expanded, log, kid := WriteSubtree(outDep, resolved, roots, child, onPath, expanded0, log0);
  }

  /** What the first `i` trees expand. */
  function ExpandedIn(trees: seq<Tree>, i: nat): seq<Node>
    requires i <= |trees|
  {
    if i == 0 then [] else ExpandedIn(trees, i - 1) + Expanded(trees[i - 1])
  }

  lemma {:induction false} InPrefix(a: seq<Tree>, b: seq<Tree>, i: nat)
    requires i <= |a| && a <= b
    ensures ExpandedIn(a, i) == ExpandedIn(b, i)
  {
    if i > 0 {
      InPrefix(a, b, i - 1);
      assert a[i - 1] == b[i - 1];
    }
  }

  /** A root's tree, printed below those before it. */
  ghost predicate RootFits(outDep: Adjacency, resolved: set<Node>, roots: seq<Node>, trees: seq<Tree>, i: nat)
    requires i < |trees| <= |roots|
  {
    && trees[i].Branch? && trees[i].node == roots[i]
    && Fits(outDep, resolved, (set r | r in roots), {}, ExpandedIn(trees, i), trees[i])
  }

  /** One tree for each root in turn. */
  ghost predicate IsForest(outDep: Adjacency, resolved: set<Node>, roots: seq<Node>, trees: seq<Tree>)
  {
    |trees| <= |roots| && forall i :: 0 <= i < |trees| ==> RootFits(outDep, resolved, roots, trees, i)
  }

  lemma OneMoreTree(
    outDep: Adjacency, resolved: set<Node>, roots: seq<Node>, trees: seq<Tree>, tree: Tree, more: seq<Tree>)
    requires IsForest(outDep, resolved, roots, trees) && |trees| < |roots| && more == trees + [tree]
    requires tree.Branch? && tree.node == roots[|trees|]
    requires Fits(outDep, resolved, (set r | r in roots), {}, ExpandedIn(trees, |trees|), tree)
    ensures IsForest(outDep, resolved, roots, more)
    ensures ExpandedIn(more, |more|) == ExpandedIn(trees, |trees|) + Expanded(tree)
  {
    forall i | 0 <= i < |more| ensures RootFits(outDep, resolved, roots, more, i) {
      InPrefix(trees, more, i);
      if i < |trees| { assert RootFits(outDep, resolved, roots, trees, i) && more[i] == trees[i]; }
    }
    InPrefix(trees, more, |trees|);
    assert more[|trees|] == tree;
  }

  /** Prints every root's subtree. Terminates on any graph and expands no node twice; expands each root and, of an
      expanded node's children, every resolved one with outgoing edges; and expands nothing but roots and resolved
      children of nodes expanded before. Children come in id order, and each is marked as what it is. */
  method FormatForest(outDep: Adjacency, resolved: set<Node>, roots: seq<Node>)
    returns (log: seq<Node>, trees: seq<Tree>)
    requires NoRepeats(roots)
    ensures NoRepeats(log)
    ensures forall r :: r in roots ==> r in log
    ensures forall u, c :: u in log && c in At(outDep, u) && Needs(outDep, resolved, c) ==> c in log
    ensures Grounded(outDep, resolved, (set r | r in roots), log)
    ensures |trees| == |roots| && IsForest(outDep, resolved, roots, trees) && log == ExpandedIn(trees, |trees|)
  {
    var rootSet := set r | r in roots;
    var expanded: set<Node> := {};
    log, trees := [], [];
    var k := 0;
    while k < |roots|
      invariant 0 <= k <= |roots| && IsLog(log, expanded) && Grounded(outDep, resolved, rootSet, log)
      invariant forall i :: 0 <= i < |roots| ==> (roots[i] in expanded <==> i < k)
      invariant forall x :: x in expanded ==> Covered(outDep, resolved, rootSet, expanded, x)
      invariant |trees| == k && IsForest(outDep, resolved, roots, trees) && log == ExpandedIn(trees, k)
    {
      ghost var was := expanded;
      var tree;
      expanded, log, tree := WriteSubtree(outDep, resolved, rootSet, roots[k], {}, expanded, log);
      forall x | x in expanded ensures Covered(outDep, resolved, rootSet, expanded, x) {
        if x in was { assert Covered(outDep, resolved, rootSet, was, x); }
      }
      OneMoreTree(outDep, resolved, roots, trees, tree, trees + [tree]);
      trees := trees + [tree];
      k := k + 1;
    }
  }

  /** What is marked as an ancestor really is on a cycle. */
  ghost predicate MarksAreCycles(outDep: Adjacency, t: Tree)
    decreases t
  {
    match t
    case Leaf(n, mark) => mark == OnCycle ==> Reaches(EdgesOf(outDep), n, n)
    case Branch(_, kids) => forall i :: 0 <= i < |kids| ==> MarksAreCycles(outDep, kids[i])
  }

  lemma {:induction false} CycleMarks(
    outDep: Adjacency, resolved: set<Node>, roots: set<Node>, path: set<Node>, log: seq<Node>, t: Tree)
    requires Fits(outDep, resolved, roots, path, log, t) && t.Branch?
    requires forall p :: p in path ==> Reaches(EdgesOf(outDep), p, t.node)
    ensures MarksAreCycles(outDep, t)
    decreases t
  {
    forall i | 0 <= i < |t.kids| ensures MarksAreCycles(outDep, t.kids[i]) {
      assert FitsBelow(outDep, resolved, roots, path, log, t, i);
      var (kid, below) := (t.kids[i], path + {t.node});
      KidIsTarget(outDep, t.node, t.kids, i);
      forall p | p in below ensures Reaches(EdgesOf(outDep), p, kid.node) {
        if p in path {
          ReachesOnward(EdgesOf(outDep), p, t.node, kid.node);
        } else {
          ReachesByEdge(EdgesOf(outDep), t.node, kid.node);
        }
      }
      if kid.Branch? {
        CycleMarks(outDep, resolved, roots, below, log + [t.node] + ExpandedBelow(t, i), kid);
      }
    }
  }

  lemma KidIsTarget(outDep: Adjacency, n: Node, kids: seq<Tree>, i: nat)
    requires NamesInOrder(At(outDep, n), kids) && i < |kids|
    ensures (n, kids[i].node) in EdgesOf(outDep)
  {
    var names := seq(|kids|, k requires 0 <= k < |kids| => kids[k].node);
    assert names[i] in multiset(names);
    EdgeInMap(outDep, n, kids[i].node);
  }

  /** Reached from `r` along edges whose far ends are resolved. */
  function ResolvedEdges(outDep: Adjacency, resolved: set<Node>): Relation
  {
    set e | e in EdgesOf(outDep) && e.1 in resolved
  }

  /** Everything with outgoing edges that a root reaches through resolved nodes is expanded. */
  lemma {:induction false} ForestCovers(
    outDep: Adjacency, resolved: set<Node>, log: seq<Node>, r: Node, w: seq<Node>, i: nat)
    requires forall u, c :: u in log && c in At(outDep, u) && Needs(outDep, resolved, c) ==> c in log
    requires r in log && Chain(ResolvedEdges(outDep, resolved), w) && 0 < |w| && w[0] == r && i < |w|
    requires At(outDep, w[i]) != []
    ensures w[i] in log
  {
    if i > 0 {
      assert (w[i - 1], w[i]) in ResolvedEdges(outDep, resolved);
      assert w[i] in outDep[w[i - 1]];
      ForestCovers(outDep, resolved, log, r, w, i - 1);
    }
  }
}
