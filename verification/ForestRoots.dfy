/** Where the board's depends forest starts: its sources, and one ticket per cluster that has none. */
module ForestRoots {
  import opened Lex
  import opened Sorting
  import opened Graphs
  import opened Reachability
  import opened DependsGraph
  import opened Forest

  predicate HasOut(outDep: Adjacency, x: Node)
  {
    At(outDep, x) != []
  }

  /** The edges between two tickets of the board. */
  function BoardEdges(board: set<Node>, outDep: Adjacency): Relation
  {
    set e | e in EdgesOf(outDep) && e.0 in board && e.1 in board
  }

  function Undirected(r: Relation): Relation
  {
    r + Reverse(r)
  }

  ghost predicate HasIn(r: Relation, x: Node)
  {
    exists f :: (f, x) in r
  }

  ghost predicate Same(u: Relation, x: Node, y: Node)
  {
    x == y || Reaches(u, x, y)
  }

  /** A ticket with outgoing edges that no board ticket depends on. */
  ghost predicate IsSource(board: set<Node>, outDep: Adjacency, x: Node)
  {
    x in board && HasOut(outDep, x) && !HasIn(BoardEdges(board, outDep), x)
  }

  /** `x` is a source; or its cluster has no source, and `x` is the least of those with outgoing edges. */
  ghost predicate IsRoot(board: set<Node>, outDep: Adjacency, x: Node)
  {
    var u := Undirected(BoardEdges(board, outDep));
    && x in board
    && HasOut(outDep, x)
    && (IsSource(board, outDep, x)
        || forall y :: Same(u, x, y) ==> !IsSource(board, outDep, y) && (HasOut(outDep, y) ==> LessEq(x.id, y.id)))
  }

  // -------------------------------------------------------- clusters

  lemma ReachesThrough(r: Relation, a: Node, b: Node, c: Node)
    requires Reaches(r, a, b) && Reaches(r, b, c)
    ensures Reaches(r, a, c)
  {
    var v :| Path(r, a, b, v);
    var w :| Path(r, b, c, w);
    var vw := v + w[1..];
    forall i | 0 < i < |vw| ensures (vw[i - 1], vw[i]) in r {
      if i >= |v| { assert (w[i - |v|], w[i - |v| + 1]) in r; }
    }
    assert Path(r, a, c, vw);
  }

  lemma UndirectedIsSymmetric(r: Relation)
    ensures Reverse(Undirected(r)) == Undirected(r)
  {
    var u := Undirected(r);
    forall e ensures e in Reverse(u) <==> e in u {
      var back := (e.1, e.0);
      if e in Reverse(u) { assert back in u; }
      if back in r { assert e in Reverse(r); }
      if e in Reverse(r) { assert back in r; }
      if back in u { assert e in Reverse(u); }
      if e in r { assert back in Reverse(r); }
    }
  }

  lemma SameIsSymmetric(r: Relation, x: Node, y: Node)
    requires Same(Undirected(r), x, y)
    ensures Same(Undirected(r), y, x)
  {
    UndirectedIsSymmetric(r);
    if x != y { ReverseReaches(Undirected(r), x, y); }
  }

  lemma SameChains(u: Relation, x: Node, y: Node, z: Node)
    requires Same(u, x, y) && Same(u, y, z)
    ensures Same(u, x, z)
  {
    if x != y && y != z { ReachesThrough(u, x, y, z); }
  }

  /** Two members of one cluster have the same cluster. */
  lemma SameCluster(r: Relation, start: Node, x: Node, y: Node)
    requires Same(Undirected(r), start, x)
    ensures Same(Undirected(r), start, y) <==> Same(Undirected(r), x, y)
  {
    var u := Undirected(r);
    SameIsSymmetric(r, start, x);
    if Same(u, start, y) { SameChains(u, x, start, y); }
    if Same(u, x, y) { SameChains(u, start, x, y); }
  }

  // -------------------------------------------------------- edge bookkeeping

  function Degree(inDeg: map<Node, nat>, x: Node): nat
  {
    if x in inDeg then inDeg[x] else 0
  }

  /** The three maps describe the board edges `r` and the sources of edges `outs`. */
  ghost predicate Describes(r: Relation, inDeg: map<Node, nat>, und: Adjacency)
  {
    (forall x :: Degree(inDeg, x) > 0 <==> HasIn(r, x)) && EdgesOf(und) == Undirected(r)
  }

  lemma DescribesOneMore(r: Relation, inDeg: map<Node, nat>, und: Adjacency, a: Node, b: Node)
    requires Describes(r, inDeg, und)
    ensures Describes(r + {(a, b)}, inDeg[b := Degree(inDeg, b) + 1], AddBoth(und, a, b))
  {
    var r2, deg2 := r + {(a, b)}, inDeg[b := Degree(inDeg, b) + 1];
    forall x ensures Degree(deg2, x) > 0 <==> HasIn(r2, x) {
      if x == b { assert (a, b) in r2; }
      if HasIn(r, x) { var f :| (f, x) in r; assert (f, x) in r2; }
      if x != b && HasIn(r2, x) { var f :| (f, x) in r2; assert (f, x) in r; }
    }
    AppendedEdges(und, a, b);
    var one := und[a := AppendUnique(At(und, a), b)];
    AppendedEdges(one, b, a);
    ReverseAdds(r, a, b);
  }

  function AddBoth(und: Adjacency, a: Node, b: Node): Adjacency
  {
    var one := und[a := AppendUnique(At(und, a), b)];
    one[b := AppendUnique(At(one, b), a)]
  }

  /** One ticket's depends list: its targets on the board. */
  method IndexTargets(
    board: set<Node>, from: Node, tos: seq<Node>, ghost r0: Relation, inDeg0: map<Node, nat>, und0: Adjacency)
    returns (inDeg: map<Node, nat>, und: Adjacency)
    requires Describes(r0, inDeg0, und0)
    ensures Describes(r0 + (set t | t in tos && t in board :: (from, t)), inDeg, und)
  {
    inDeg, und := inDeg0, und0;
    ghost var r := r0;
    var i := 0;
    while i < |tos|
      invariant 0 <= i <= |tos| && Describes(r, inDeg, und)
      invariant r == r0 + (set t | t in tos[..i] && t in board :: (from, t))
    {
      var to := tos[i];
      assert tos[..i + 1] == tos[..i] + [to];
      if to in board {
        DescribesOneMore(r, inDeg, und, from, to);
        r := r + {(from, to)};
        inDeg := inDeg[to := Degree(inDeg, to) + 1];
        und := AddBoth(und, from, to);
      }
      i := i + 1;
    }
    assert tos[..i] == tos;
  }

  /** The board edges whose sources are in `froms`. */
  ghost function EdgesFrom(board: set<Node>, outDep: Adjacency, froms: set<Node>): Relation
  {
    set e | e in BoardEdges(board, outDep) && e.0 in froms
  }

  lemma EdgesFromOneMore(board: set<Node>, outDep: Adjacency, froms: set<Node>, f: Node)
    requires f in outDep && f in board
    ensures EdgesFrom(board, outDep, froms + {f})
         == EdgesFrom(board, outDep, froms) + (set t | t in outDep[f] && t in board :: (f, t))
  {
    var more := set t | t in outDep[f] && t in board :: (f, t);
    forall e ensures e in EdgesFrom(board, outDep, froms + {f}) <==> e in EdgesFrom(board, outDep, froms) + more {
      assert e == (e.0, e.1);
      if e in more { assert e in EdgesOf(outDep); }
      if e in EdgesFrom(board, outDep, froms + {f}) && e.0 == f { assert e.1 in outDep[f]; }
    }
  }

  /** Walks the depends map in whatever order its keys come. */
  method IndexEdges(
    board: set<Node>, outDep: Adjacency) returns (hasOut: set<Node>, inDeg: map<Node, nat>, und: Adjacency)
    ensures forall x :: x in hasOut <==> x in board && HasOut(outDep, x)
    ensures Describes(BoardEdges(board, outDep), inDeg, und)
  {
    hasOut, inDeg, und := {}, map[], map[];
    var left := outDep.Keys;
    ghost var done: set<Node> := {};
    assert Describes(EdgesFrom(board, outDep, done), inDeg, und);
    while left != {}
      invariant left <= outDep.Keys && done == outDep.Keys - left
      invariant forall x :: x in hasOut <==> x in board && HasOut(outDep, x) && x in done
      invariant Describes(EdgesFrom(board, outDep, done), inDeg, und)
      decreases left
    {
      var from :| from in left;
      left := left - {from};
      if from in board && outDep[from] != [] {
        hasOut := hasOut + {from};
        inDeg, und := IndexTargets(board, from, outDep[from], EdgesFrom(board, outDep, done), inDeg, und);
        EdgesFromOneMore(board, outDep, done, from);
      } else {
        assert EdgesFrom(board, outDep, done + {from}) == EdgesFrom(board, outDep, done);
      }
      done := done + {from};
    }
    assert EdgesFrom(board, outDep, done) == BoardEdges(board, outDep);
  }

  // -------------------------------------------------------- one cluster

  /** The queue grows by the neighbours not seen before, once each. */
  method Enqueue(nbs: seq<Node>, seen0: set<Node>) returns (seen: set<Node>, added: seq<Node>)
    ensures forall x :: x in added <==> x in nbs && x !in seen0
    ensures NoRepeats(added) && seen == seen0 + (set x | x in added)
  {
    seen, added := seen0, [];
    var i := 0;
    while i < |nbs|
      invariant 0 <= i <= |nbs|
      invariant forall x :: x in added <==> x in nbs[..i] && x !in seen0
      invariant NoRepeats(added) && seen == seen0 + (set x | x in added)
    {
      assert nbs[..i + 1] == nbs[..i] + [nbs[i]];
      if nbs[i] !in seen {
        seen, added := seen + {nbs[i]}, added + [nbs[i]];
      }
      i := i + 1;
    }
    assert nbs[..i] == nbs;
  }

  /** `seen` holds whole clusters. */
  ghost predicate Whole(u: Relation, seen: set<Node>)
  {
    forall a, b :: (a, b) in u ==> (a in seen <==> b in seen)
  }

  /** The breadth-first search so far: `comp` handled, `q` waiting. */
  ghost predicate Searching(u: Relation, start: Node, seen0: set<Node>, seen: set<Node>, comp: seq<Node>, q: seq<Node>)
  {
    && NoRepeats(comp + q)
    && (forall x :: x in seen <==> x in seen0 || x in comp || x in q)
    && (forall x :: x in comp || x in q ==> x !in seen0 && Same(u, start, x))
    && (forall a, b :: a in comp && (a, b) in u ==> b in seen)
  }

  lemma SearchStep(
    und: Adjacency, start: Node, seen0: set<Node>, seen: set<Node>, comp: seq<Node>, q: seq<Node>, added: seq<Node>)
    requires q != [] && Searching(EdgesOf(und), start, seen0, seen, comp, q) && NoRepeats(added)
    requires forall x :: x in added <==> x in At(und, q[0]) && x !in seen
    ensures Searching(EdgesOf(und), start, seen0, seen + (set x | x in added), comp + [q[0]], q[1..] + added)
  {
    var u, n := EdgesOf(und), q[0];
    var (comp2, q2) := (comp + [n], q[1..] + added);
    assert q == [n] + q[1..];
    assert comp2 + q2 == comp + q + added;
    forall i, j | 0 <= i < j < |comp + q + added| ensures (comp + q + added)[i] != (comp + q + added)[j] {
      if j >= |comp + q| && i < |comp + q| {
        assert (comp + q)[i] in comp || (comp + q)[i] in q;
        assert added[j - |comp + q|] in added;
      }
    }
    forall x | x in added ensures x !in seen0 && Same(u, start, x) {
      EdgeInMap(und, n, x);
      ReachesByEdge(u, n, x);
      SameChains(u, start, n, x);
    }
    forall a, b | a in comp2 && (a, b) in u ensures b in seen + (set x | x in added) {
      if a == n { assert b in At(und, n); }
    }
  }

  lemma SearchDone(r: Relation, start: Node, seen0: set<Node>, seen: set<Node>, comp: seq<Node>)
    requires Searching(Undirected(r), start, seen0, seen, comp, []) && Whole(Undirected(r), seen0) && start in comp
    ensures forall x :: x in comp <==> Same(Undirected(r), start, x)
    ensures Whole(Undirected(r), seen)
  {
    var u := Undirected(r);
    var s := set x | x in comp;
    UndirectedIsSymmetric(r);
    forall a, b | (a, b) in u && a in s ensures b in s {
      assert a !in seen0 && b in seen;
    }
    assert Closed(u, start, s);
    forall x | Same(u, start, x) ensures x in comp {
      if x != start {
        var w :| Path(u, start, x, w);
        ClosedHoldsPath(u, start, s, w, |w| - 1);
      }
    }
    forall a, b | (a, b) in u ensures a in seen <==> b in seen {
      assert (b, a) in Reverse(u);
    }
  }

  /** Collects the whole cluster of a start not seen before. */
  method Component(
    board: set<Node>, ghost r: Relation, und: Adjacency, start: Node, seen0: set<Node>)
    returns (comp: seq<Node>, seen: set<Node>)
    requires EdgesOf(und) == Undirected(r) && Whole(Undirected(r), seen0) && start !in seen0 && start in board
    requires Targets(und) <= board
    ensures forall x :: x in comp <==> Same(Undirected(r), start, x)
    ensures NoRepeats(comp) && Whole(Undirected(r), seen)
    ensures forall x :: x in comp ==> x !in seen0 && x in board
    ensures forall x :: x in seen <==> x in seen0 || x in comp
  {
    ghost var u := Undirected(r);
    var q := [start];
    comp, seen := [], seen0 + {start};
    while q != []
      invariant Searching(u, start, seen0, seen, comp, q)
      invariant start in comp || start in q
      invariant forall x :: x in comp || x in q ==> x in board
      decreases |board - (set x | x in comp)|
    {
      var n := q[0];
      assert forall x :: x in comp ==> x != n by { HeadIsNew(comp, q); }
      ghost var handled := set x | x in comp;
      Fewer(board, handled, handled, n);
      if n in board { comp := comp + [n]; }
      assert (set x | x in comp) == handled + {n};
      ghost var was := comp[..|comp| - 1];
      ghost var wasSeen := seen;
      var added;
      seen, added := Enqueue(At(und, n), seen);
      SearchStep(und, start, seen0, wasSeen, was, q, added);
      forall x | x in added ensures x in board { EdgeInMap(und, n, x); }
      q := q[1..] + added;
    }
    SearchDone(r, start, seen0, seen, comp);
    assert comp + q == comp;
  }

  lemma HeadIsNew(comp: seq<Node>, q: seq<Node>)
    requires q != [] && NoRepeats(comp + q)
    ensures q[0] !in comp
  {
    forall i | 0 <= i < |comp| ensures comp[i] != q[0] {
      assert (comp + q)[i] == comp[i] && (comp + q)[|comp|] == q[0];
    }
  }

  // -------------------------------------------------------- one cluster's roots

  /** The cluster's sources. */
  method LocalSources(comp: seq<Node>, hasOut: set<Node>, inDeg: map<Node, nat>) returns (local: seq<Node>)
    requires NoRepeats(comp)
    ensures NoRepeats(local) && forall x :: x in local <==> x in comp && x in hasOut && Degree(inDeg, x) == 0
  {
    local := [];
    var i := 0;
    while i < |comp|
      invariant 0 <= i <= |comp| && NoRepeats(local)
      invariant forall x :: x in local <==> x in comp[..i] && x in hasOut && Degree(inDeg, x) == 0
    {
      assert comp[..i + 1] == comp[..i] + [comp[i]];
      if comp[i] in hasOut && Degree(inDeg, comp[i]) == 0 { local := local + [comp[i]]; }
      i := i + 1;
    }
    assert comp[..i] == comp;
  }

  ghost predicate IsLeastWithOut(comp: seq<Node>, hasOut: set<Node>, x: Node)
  {
    x in comp && x in hasOut && forall y :: y in comp && y in hasOut ==> !NodeLess(y, x)
  }

  lemma FirstIsLeast(comp: seq<Node>, hasOut: set<Node>, sorted: seq<Node>, i: nat)
    requires Sorted(sorted, NodeLess) && (forall x :: x in comp <==> x in sorted)
    requires i < |sorted| && sorted[i] in hasOut && forall k :: 0 <= k < i ==> sorted[k] !in hasOut
    ensures forall x :: IsLeastWithOut(comp, hasOut, x) <==> x == sorted[i]
  {
    assert sorted[i] in sorted;
    forall y | y in comp && y in hasOut ensures !NodeLess(y, sorted[i]) {
      var k :| 0 <= k < |sorted| && sorted[k] == y;
      if k == i { NodeLessOrders(); }
    }
    forall x | IsLeastWithOut(comp, hasOut, x) ensures x == sorted[i] { Total(x.id, sorted[i].id); }
  }

  /** The least member with outgoing edges, if there is one. */
  method LeastWithOut(comp: seq<Node>, hasOut: set<Node>) returns (local: seq<Node>)
    ensures NoRepeats(local)
    ensures forall x :: x in local <==> IsLeastWithOut(comp, hasOut, x)
  {
    var sorted := StableSort(comp, NodeLess);
    NodeLessOrders();
    SortKeeps(comp, NodeLess);
    SortSorts(comp, NodeLess);
    var i := 0;
    while i < |sorted|
      invariant 0 <= i <= |sorted|
      invariant forall k :: 0 <= k < i ==> sorted[k] !in hasOut
    {
      if sorted[i] in hasOut {
        FirstIsLeast(comp, hasOut, sorted, i);
        return [sorted[i]];
      }
      i := i + 1;
    }
    local := [];
  }

  lemma ClusterRoot(board: set<Node>, outDep: Adjacency, start: Node, comp: seq<Node>, sources: seq<Node>, x: Node)
    requires forall y :: y in comp <==> Same(Undirected(BoardEdges(board, outDep)), start, y)
    requires forall y :: y in comp ==> y in board
    requires forall y :: y in sources <==> y in comp && IsSource(board, outDep, y)
    requires x in comp
    ensures sources != [] ==> (IsRoot(board, outDep, x) <==> x in sources)
    ensures sources == [] ==>
              (IsRoot(board, outDep, x) <==>
               HasOut(outDep, x) && forall y :: y in comp && HasOut(outDep, y) ==> !NodeLess(y, x))
  {
    var r := BoardEdges(board, outDep);
    forall y ensures y in comp <==> Same(Undirected(r), x, y) { SameCluster(r, start, x, y); }
    forall y ensures !NodeLess(y, x) <==> LessEq(x.id, y.id) { NotNodeLess(x, y); }
    if sources != [] { assert sources[0] in sources; }
  }

  /** The roots contributed by one cluster. */
  method LocalRoots(
    ghost board: set<Node>, ghost outDep: Adjacency, ghost start: Node, comp: seq<Node>, hasOut: set<Node>,
    inDeg: map<Node, nat>, ghost und: Adjacency)
    returns (local: seq<Node>)
    requires NoRepeats(comp) && forall y :: y in comp <==> Same(Undirected(BoardEdges(board, outDep)), start, y)
    requires forall y :: y in comp ==> y in board
    requires forall x :: x in hasOut <==> x in board && HasOut(outDep, x)
    requires Describes(BoardEdges(board, outDep), inDeg, und)
    ensures NoRepeats(local) && forall x :: x in local <==> x in comp && IsRoot(board, outDep, x)
  {
    local := LocalSources(comp, hasOut, inDeg);
    ghost var sources := local;
    if local == [] { local := LeastWithOut(comp, hasOut); }
    forall x ensures x in local <==> x in comp && IsRoot(board, outDep, x) {
      if x in comp { ClusterRoot(board, outDep, start, comp, sources, x); }
    }
  }

  // -------------------------------------------------------- all roots

  lemma UndirectedOnBoard(board: set<Node>, outDep: Adjacency, und: Adjacency)
    requires EdgesOf(und) == Undirected(BoardEdges(board, outDep))
    ensures Targets(und) <= board
  {
  }

  lemma JoinNoRepeats(a: seq<Node>, b: seq<Node>)
    requires NoRepeats(a) && NoRepeats(b) && forall x :: x in b ==> x !in a
    ensures NoRepeats(a + b)
  {
    forall i, j | 0 <= i < j < |a + b| ensures (a + b)[i] != (a + b)[j] {
      if i < |a| && j >= |a| { assert b[j - |a|] in b && a[i] in a; }
    }
  }

  /** The clusters seen so far contribute exactly their roots, each once. */
  ghost predicate Gathered(board: set<Node>, outDep: Adjacency, seen: set<Node>, roots: seq<Node>)
  {
    && Whole(Undirected(BoardEdges(board, outDep)), seen)
    && NoRepeats(roots)
    && forall x :: x in roots <==> x in seen && IsRoot(board, outDep, x)
  }

  lemma GatheredMore(
    board: set<Node>, outDep: Adjacency, seen: set<Node>, roots: seq<Node>, comp: seq<Node>, local: seq<Node>,
    seen1: set<Node>)
    requires Gathered(board, outDep, seen, roots) && Whole(Undirected(BoardEdges(board, outDep)), seen1)
    requires NoRepeats(local)
    requires forall x :: x in seen1 <==> x in seen || x in comp
    requires forall x :: x in comp ==> x !in seen
    requires forall x :: x in local <==> x in comp && IsRoot(board, outDep, x)
    ensures Gathered(board, outDep, seen1, roots + local)
  {
    JoinNoRepeats(roots, local);
  }

  method ScanBoard(
    board: set<Node>, sorted: seq<Node>, outDep: Adjacency) returns (roots: seq<Node>, ghost seen: set<Node>)
    requires forall i :: 0 <= i < |sorted| ==> sorted[i] in board
    ensures Gathered(board, outDep, seen, roots)
    ensures forall i :: 0 <= i < |sorted| && HasOut(outDep, sorted[i]) ==> sorted[i] in seen
  {
    var hasOut, inDeg, und := IndexEdges(board, outDep);
    UndirectedOnBoard(board, outDep, und);
    ghost var r := BoardEdges(board, outDep);
    var visited: set<Node> := {};
    roots := [];
    var i := 0;
    while i < |sorted|
      invariant 0 <= i <= |sorted| && Gathered(board, outDep, visited, roots)
      invariant forall k :: 0 <= k < i && HasOut(outDep, sorted[k]) ==> sorted[k] in visited
    {
      var start := sorted[i];
      if (start in hasOut || Degree(inDeg, start) != 0) && start !in visited {
        var comp, visited1 := Component(board, r, und, start, visited);
        var local := LocalRoots(board, outDep, start, comp, hasOut, inDeg, und);
        GatheredMore(board, outDep, visited, roots, comp, local, visited1);
        roots, visited := roots + local, visited1;
      }
      i := i + 1;
    }
    seen := visited;
  }

  /** `forestRoots`: exactly the roots, each once, in id order. */
  method FindRoots(boardIDs: seq<Node>, outDep: Adjacency) returns (roots: seq<Node>)
    ensures forall x :: x in roots <==> IsRoot((set b | b in boardIDs), outDep, x)
    ensures NoRepeats(roots) && forall i, j :: 0 <= i < j < |roots| ==> LessEq(roots[i].id, roots[j].id)
  {
    var board := set b | b in boardIDs;
    var sorted := StableSort(boardIDs, NodeLess);
    SortKeeps(boardIDs, NodeLess);
    ghost var seen;
    roots, seen := ScanBoard(board, sorted, outDep);
    forall x | IsRoot(board, outDep, x) ensures x in seen {
      assert x in boardIDs && x in sorted;
    }
    NodeLessOrders();
    SortKeeps(roots, NodeLess);
    SortSorts(roots, NodeLess);
    SortKeepsNoRepeats(roots, NodeLess);
    roots := StableSort(roots, NodeLess);
    SortedByID(roots);
  }

  // -------------------------------------------------------- acyclic boards

  ghost predicate AcyclicRelation(r: Relation)
  {
    forall x :: !Reaches(r, x, x)
  }

  /** Climbing from `x` against the edges ends, because nothing already below can come up again. */
  lemma {:induction false} Climb(r: Relation, nodes: set<Node>, below: set<Node>, x: Node) returns (top: Node)
    requires AcyclicRelation(r) && x in nodes && x !in below
    requires forall a, b :: (a, b) in r ==> a in nodes
    requires forall y :: y in below ==> Reaches(r, x, y)
    ensures top in nodes && !HasIn(r, top) && (top == x || Reaches(r, top, x))
    decreases |nodes - below|
  {
    top := x;
    if HasIn(r, x) {
      var p :| (p, x) in r;
      ReachesByEdge(r, p, x);
      forall y | y in below + {x} ensures Reaches(r, p, y) {
        if y != x { ReachesThrough(r, p, x, y); }
      }
      assert p !in below + {x};
      Fewer(nodes, below, below, x);
      top := Climb(r, nodes, below + {x}, p);
      if top != p { ReachesThrough(r, top, p, x); }
    }
  }

  /** On an acyclic board every ticket on a depends edge is a root or below one. */
  lemma RootAbove(board: set<Node>, outDep: Adjacency, x: Node) returns (root: Node)
    requires AcyclicRelation(BoardEdges(board, outDep)) && x in board
    requires HasOut(outDep, x) || HasIn(BoardEdges(board, outDep), x)
    ensures IsRoot(board, outDep, root) && (root == x || Reaches(BoardEdges(board, outDep), root, x))
  {
    var r := BoardEdges(board, outDep);
    root := Climb(r, board, {}, x);
    if root != x {
      var w :| Path(r, root, x, w);
      assert (w[0], w[1]) in r;
      assert w[1] in outDep[root];
    }
  }

  lemma {:induction false} BelowIsExpanded(
    board: set<Node>, outDep: Adjacency, resolved: set<Node>, log: seq<Node>, w: seq<Node>)
    requires board <= resolved
    requires forall u, c :: u in log && c in At(outDep, u) && Needs(outDep, resolved, c) ==> c in log
    requires |w| >= 1 && w[0] in log && Chain(BoardEdges(board, outDep), w) && HasOut(outDep, w[|w| - 1])
    ensures w[|w| - 1] in log
  {
    assert Chain(ResolvedEdges(outDep, resolved), w) by {
      forall i | 0 < i < |w| ensures (w[i - 1], w[i]) in ResolvedEdges(outDep, resolved) {
        assert (w[i - 1], w[i]) in BoardEdges(board, outDep);
      }
    }
    ForestCovers(outDep, resolved, log, w[0], w, |w| - 1);
  }

  /** The printed board: no ticket expanded twice and, without cycles, every ticket with depends edges expanded. */
  method PrintBoard(boardIDs: seq<Node>, outDep: Adjacency, resolved: set<Node>)
    returns (roots: seq<Node>, log: seq<Node>, trees: seq<Tree>)
    requires forall b :: b in boardIDs ==> b in resolved
    ensures NoRepeats(log)
    ensures AcyclicRelation(BoardEdges((set b | b in boardIDs), outDep)) ==>
              forall x :: x in boardIDs && HasOut(outDep, x) ==> x in log
    ensures forall x :: x in roots <==> IsRoot((set b | b in boardIDs), outDep, x)
    ensures forall i, j :: 0 <= i < j < |roots| ==> LessEq(roots[i].id, roots[j].id)
    ensures |trees| == |roots| && IsForest(outDep, resolved, roots, trees) && log == ExpandedIn(trees, |trees|)
  {
    roots := FindRoots(boardIDs, outDep);
    log, trees := FormatForest(outDep, resolved, roots);
    ghost var board := set b | b in boardIDs;
    if AcyclicRelation(BoardEdges(board, outDep)) {
      forall x | x in boardIDs && HasOut(outDep, x) ensures x in log {
        var root := RootAbove(board, outDep, x);
        assert root in log;
        if root != x {
          var w :| Path(BoardEdges(board, outDep), root, x, w);
          BelowIsExpanded(board, outDep, resolved, log, w);
        }
      }
    }
  }
}
