/** Finite directed graphs of ids: walks, reachability, and cycles. */
module Graphs {
  import opened Lex

  /** A graph node, named by a full ticket id. */
  datatype Node = Node(id: Text)

  /** Adjacency lists may repeat targets and may name targets outside `nodes`; only edges inside count. */
  datatype Graph = Graph(nodes: set<Node>, lists: map<Node, seq<Node>>)

  predicate Edge(g: Graph, a: Node, b: Node)
  {
    a in g.nodes && b in g.nodes && a in g.lists && b in g.lists[a]
  }

  function Succ(g: Graph, a: Node): set<Node>
  {
    set b | b in g.nodes && Edge(g, a, b)
  }

  /** Some walk of `n` edges starts at `v`. */
  ghost predicate HasWalk(g: Graph, v: Node, n: nat)
    decreases n
  {
    v in g.nodes && (n == 0 || exists u :: Edge(g, v, u) && HasWalk(g, u, n - 1))
  }

  ghost predicate Walk(g: Graph, w: seq<Node>)
  {
    w != [] && w[0] in g.nodes && forall i :: 0 < i < |w| ==> Edge(g, w[i - 1], w[i])
  }

  /** Some walk from `v` visits a node twice. */
  ghost predicate ReachesCycle(g: Graph, v: Node)
  {
    exists w, i, j :: Walk(g, w) && w[0] == v && 0 <= i < j < |w| && w[i] == w[j]
  }

  ghost predicate Acyclic(g: Graph)
  {
    forall v :: v in g.nodes ==> !ReachesCycle(g, v)
  }

  lemma {:induction false} WalkFrom(g: Graph, v: Node, n: nat) returns (w: seq<Node>)
    requires HasWalk(g, v, n)
    ensures Walk(g, w) && w[0] == v && |w| == n + 1
    decreases n
  {
    if n == 0 {
      w := [v];
    } else {
      var u :| Edge(g, v, u) && HasWalk(g, u, n - 1);
      var rest := WalkFrom(g, u, n - 1);
      w := WalkCons(g, v, rest);
    }
  }

  lemma {:induction false} WalkOnward(g: Graph, w: seq<Node>, i: nat, j: nat, n: nat)
    requires Walk(g, w) && i <= j < |w| && HasWalk(g, w[j], n)
    ensures HasWalk(g, w[i], n + (j - i))
    decreases j - i
  {
    if i < j {
      WalkOnward(g, w, i + 1, j, n);
      assert Edge(g, w[i + 1 - 1], w[i + 1]);
    }
  }

  lemma {:induction false} ShorterWalk(g: Graph, v: Node, m: nat, n: nat)
    requires HasWalk(g, v, n) && m <= n
    ensures HasWalk(g, v, m)
    decreases n
  {
    if m > 0 {
      var u :| Edge(g, v, u) && HasWalk(g, u, n - 1);
      ShorterWalk(g, u, m - 1, n - 1);
    }
  }

  lemma {:induction false} AroundTheCycle(g: Graph, w: seq<Node>, i: nat, j: nat, n: nat)
    requires Walk(g, w) && i < j < |w| && w[i] == w[j]
    ensures HasWalk(g, w[i], n)
    decreases n
  {
    if n == 0 {
      if i > 0 { assert Edge(g, w[i - 1], w[i]); }
    } else {
      AroundTheCycle(g, w, i, j, n - 1);
      WalkOnward(g, w, i, j, n - 1);
      ShorterWalk(g, w[i], n, n - 1 + (j - i));
    }
  }

  lemma {:induction false} InNodes(g: Graph, w: seq<Node>, i: nat)
    requires Walk(g, w) && i < |w|
    ensures w[i] in g.nodes
  {
    if i > 0 { assert Edge(g, w[i - 1], w[i]); }
  }

  /** A walk longer than the graph visits some node twice. */
  lemma {:induction false} Pigeonhole(s: set<Node>, w: seq<Node>) returns (i: nat, j: nat)
    requires |w| > |s| && forall k :: 0 <= k < |w| ==> w[k] in s
    ensures i < j < |w| && w[i] == w[j]
    decreases |s|
  {
    var last := w[|w| - 1];
    if k :| 0 <= k < |w| - 1 && w[k] == last {
      i, j := k, |w| - 1;
    } else {
      i, j := Pigeonhole(s - {last}, w[..|w| - 1]);
    }
  }

  /** Reaching a cycle is having walks of every length, and a walk as long as the graph is large is enough. */
  lemma CycleMeansUnbounded(g: Graph, v: Node)
    requires v in g.nodes
    ensures ReachesCycle(g, v) ==> forall n :: HasWalk(g, v, n)
    ensures HasWalk(g, v, |g.nodes|) ==> ReachesCycle(g, v)
  {
    if ReachesCycle(g, v) {
      var w, i, j :| Walk(g, w) && w[0] == v && 0 <= i < j < |w| && w[i] == w[j];
      forall n: nat ensures HasWalk(g, v, n) {
        AroundTheCycle(g, w, i, j, n);
        WalkOnward(g, w, 0, i, n);
        ShorterWalk(g, v, n, n + i);
      }
    }
    if HasWalk(g, v, |g.nodes|) {
      var w := WalkFrom(g, v, |g.nodes|);
      forall k | 0 <= k < |w| ensures w[k] in g.nodes { InNodes(g, w, k); }
      var i, j := Pigeonhole(g.nodes, w);
    }
  }

  ghost predicate IsSink(g: Graph, v: Node)
  {
    forall x :: !Edge(g, v, x)
  }

  /** From every node of an acyclic graph some walk leads to a node with no outgoing edge. */
  lemma WalkToSink(g: Graph, v: Node) returns (w: seq<Node>)
    requires v in g.nodes && Acyclic(g)
    ensures Walk(g, w) && w[0] == v && IsSink(g, w[|w| - 1])
  {
    CycleMeansUnbounded(g, v);
    w := SinkBelow(g, v, |g.nodes|);
  }

  lemma {:induction false} SinkBelow(g: Graph, v: Node, n: nat) returns (w: seq<Node>)
    requires v in g.nodes && !HasWalk(g, v, n)
    ensures Walk(g, w) && w[0] == v && IsSink(g, w[|w| - 1])
    decreases n
  {
    if x :| Edge(g, v, x) {
      var rest := SinkBelow(g, x, n - 1);
      w := WalkCons(g, v, rest);
    } else {
      w := [v];
    }
  }

  lemma {:induction false} WalkCons(g: Graph, v: Node, rest: seq<Node>) returns (w: seq<Node>)
    requires Walk(g, rest) && Edge(g, v, rest[0])
    ensures w == [v] + rest && Walk(g, w)
  {
    w := [v] + rest;
    forall i | 0 < i < |w| ensures Edge(g, w[i - 1], w[i]) {
      if i > 1 { assert Edge(g, rest[i - 2], rest[i - 1]); }
    }
  }
}
