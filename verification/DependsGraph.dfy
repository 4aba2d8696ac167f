/** The depends neighbourhood of one ticket, loaded hop by hop from the edge table and then walked in memory. */
module DependsGraph {
  import opened Sorting
  import opened Graphs
  import opened Reachability

  type Adjacency = map<Node, seq<Node>>

  function At(adj: Adjacency, n: Node): seq<Node>
  {
    if n in adj then adj[n] else []
  }

  function AppendUnique(list: seq<Node>, v: Node): seq<Node>
  {
    if v in list then list else list + [v]
  }

  /** The edges of an adjacency map. */
  function EdgesOf(adj: Adjacency): Relation
  {
    set a, b | a in adj && b in adj[a] :: (a, b)
  }

  // ------------------------------------------------------------- in-memory walks

  /** Edges out of `n` and of what was newly visited lead to visited nodes. */
  ghost predicate Explored(adj: Adjacency, n: Node, k: nat, before: set<Node>, visited: set<Node>)
    requires k <= |At(adj, n)|
  {
    && before <= visited
    && (forall i :: 0 <= i < k ==> At(adj, n)[i] in visited)
    && (forall v, w :: v in visited && v !in before && w in At(adj, v) ==> w in visited)
  }

  ghost predicate AllReached(adj: Adjacency, start: Node, before: set<Node>, visited: set<Node>)
  {
    forall v :: v in visited && v !in before ==> Reaches(EdgesOf(adj), start, v)
  }

  ghost predicate Lists(out: seq<Node>, visited: set<Node>, start: Node)
  {
    && (forall v :: v in out <==> v in visited && v != start)
    && NoRepeats(out)
  }

  /** Every target in the map. */
  ghost function Targets(adj: Adjacency): set<Node>
  {
    set e | e in EdgesOf(adj) :: e.1
  }

  lemma EdgeInMap(adj: Adjacency, a: Node, b: Node)
    requires b in At(adj, a)
    ensures (a, b) in EdgesOf(adj) && b in Targets(adj)
  {
    assert (a, b) in EdgesOf(adj);
    assert (a, b).1 == b;
  }

  /** The depth-first closure with its shared visited set and output. */
  method WalkFrom(
    adj: Adjacency, start: Node, n: Node, visited0: set<Node>, out0: seq<Node>)
    returns (visited: set<Node>, out: seq<Node>)
    requires start in visited0 && Lists(out0, visited0, start) && (n == start || Reaches(EdgesOf(adj), start, n))
    ensures Explored(adj, n, |At(adj, n)|, visited0, visited) && AllReached(adj, start, visited0, visited)
    ensures Lists(out, visited, start)
    decreases |Targets(adj) - visited0|
  {
    visited, out := visited0, out0;
    var next := At(adj, n);
    var k := 0;
    while k < |next|
      invariant 0 <= k <= |next|
      invariant Explored(adj, n, k, visited0, visited) && AllReached(adj, start, visited0, visited)
      invariant Lists(out, visited, start)
    {
      var v := next[k];
      if v !in visited {
        EdgeInMap(adj, n, v);
        ReachOn(adj, start, n, v);
        Fewer(Targets(adj), visited0, visited, v);
        ListsOneMore(out, visited, start, v);
        ghost var was := visited;
        visited, out := WalkFrom(adj, start, v, visited + {v}, out + [v]);
        ExploredThrough(adj, n, k, v, visited0, was, visited);
        ReachedThrough(adj, start, v, visited0, was, visited);
      }
      k := k + 1;
    }
  }

  lemma ListsOneMore(out: seq<Node>, visited: set<Node>, start: Node, v: Node)
    requires Lists(out, visited, start) && v !in visited && start in visited
    ensures Lists(out + [v], visited + {v}, start)
  {
  }

  lemma ReachedThrough(adj: Adjacency, start: Node, v: Node, before: set<Node>, was: set<Node>, visited: set<Node>)
    requires AllReached(adj, start, before, was) && AllReached(adj, start, was + {v}, visited)
    requires Reaches(EdgesOf(adj), start, v)
    ensures AllReached(adj, start, before, visited)
  {
  }

  lemma ReachOn(adj: Adjacency, start: Node, n: Node, v: Node)
    requires (n, v) in EdgesOf(adj) && (n == start || Reaches(EdgesOf(adj), start, n))
    ensures Reaches(EdgesOf(adj), start, v)
  {
    if n == start { ReachesByEdge(EdgesOf(adj), n, v); } else { ReachesOnward(EdgesOf(adj), start, n, v); }
  }

  lemma Fewer(all: set<Node>, before: set<Node>, visited: set<Node>, v: Node)
    requires before <= visited && v in all && v !in visited
    ensures |all - (visited + {v})| < |all - before|
  {
    var (a, b) := (all - (visited + {v}), all - before);
    assert b == a + (b - a) && v in b - a;
  }

  lemma ExploredThrough(adj: Adjacency, n: Node, k: nat, v: Node, before: set<Node>, was: set<Node>, visited: set<Node>)
    requires k < |At(adj, n)| && v == At(adj, n)[k]
    requires Explored(adj, n, k, before, was) && Explored(adj, v, |At(adj, v)|, was + {v}, visited)
    ensures Explored(adj, n, k + 1, before, visited)
  {
    forall x, w | x in visited && x !in before && w in At(adj, x) ensures w in visited {
      if x == v {
        var i :| 0 <= i < |At(adj, v)| && At(adj, v)[i] == w;
      } else if x in was {
      } else {
        assert x !in was + {v};
      }
    }
  }

  /** Transitive targets: everything reached from `start`, once each, without `start` itself. */
  method Reachable(adj: Adjacency, start: Node) returns (out: seq<Node>)
    ensures forall b :: b in out <==> b != start && Reaches(EdgesOf(adj), start, b)
    ensures NoRepeats(out)
  {
    var visited;
    visited, out := WalkFrom(adj, start, start, {start}, []);
    WalkedAll(adj, start, visited);
  }

  lemma WalkedAll(adj: Adjacency, start: Node, visited: set<Node>)
    requires Explored(adj, start, |At(adj, start)|, {start}, visited) && AllReached(adj, start, {start}, visited)
    ensures forall b :: b != start ==> (b in visited <==> Reaches(EdgesOf(adj), start, b))
  {
    var r := EdgesOf(adj);
    forall a, b | (a, b) in r && (a == start || a in visited) ensures b in visited {
      if a == start { var i :| 0 <= i < |At(adj, start)| && At(adj, start)[i] == b; }
    }
    forall b | Reaches(r, start, b) ensures b in visited {
      var w :| Path(r, start, b, w);
      ClosedHoldsPath(r, start, visited, w, |w| - 1);
    }
  }

  /** The same closure, stopping as soon as an edge leads back to the subject. */
  method CycleWalk(
    adj: Adjacency, subject: Node, n: Node, visited0: set<Node>) returns (found: bool, visited: set<Node>)
    requires subject !in visited0 && (n == subject || Reaches(EdgesOf(adj), subject, n))
    ensures found ==> Reaches(EdgesOf(adj), subject, subject)
    ensures !found ==> subject !in visited && Explored(adj, n, |At(adj, n)|, visited0, visited)
    decreases |Targets(adj) - visited0|
  {
    visited := visited0;
    var next := At(adj, n);
    var k := 0;
    while k < |next|
      invariant 0 <= k <= |next|
      invariant subject !in visited && Explored(adj, n, k, visited0, visited)
    {
      var v := next[k];
      EdgeInMap(adj, n, v);
      ReachOn(adj, subject, n, v);
      if v == subject { return true, visited; }
      if v !in visited {
        Fewer(Targets(adj), visited0, visited, v);
        ghost var was := visited;
        found, visited := CycleWalk(adj, subject, v, visited + {v});
        if found { return true, visited; }
        ExploredThrough(adj, n, k, v, visited0, was, visited);
      }
      k := k + 1;
    }
    found := false;
  }

  /** True exactly when some non-empty depends path returns to the subject. */
  method SubjectInCycle(adj: Adjacency, subject: Node) returns (found: bool)
    ensures found <==> Reaches(EdgesOf(adj), subject, subject)
  {
    var visited;
    found, visited := CycleWalk(adj, subject, subject, {});
    if !found {
      forall w | Path(EdgesOf(adj), subject, subject, w) ensures false {
        ExploredIsClosed(adj, subject, visited);
        ClosedHoldsPath(EdgesOf(adj), subject, visited, w, |w| - 1);
      }
    }
  }

  lemma ExploredIsClosed(adj: Adjacency, n: Node, visited: set<Node>)
    requires Explored(adj, n, |At(adj, n)|, {}, visited)
    ensures Closed(EdgesOf(adj), n, visited)
  {
    forall a, b | (a, b) in EdgesOf(adj) && (a == n || a in visited) ensures b in visited {
      if a == n { var i :| 0 <= i < |At(adj, n)| && At(adj, n)[i] == b; }
    }
  }

  // ------------------------------------------------------------ hop-by-hop loading

  type Table = seq<(Node, Node)>

  function EdgeSet(t: Table): Relation
  {
    set e | e in t
  }

  /** `EdgesFromID` or, inbound, `EdgesByTarget`: the depends rows at one id. */
  function RowsAt(t: Table, id: Node, outbound: bool): (rows: Table)
    ensures forall e :: e in rows <==> e in t && (if outbound then e.0 else e.1) == id
  {
    if t == [] then []
    else (if (if outbound then t[0].0 else t[0].1) == id then [t[0]] else []) + RowsAt(t[1..], id, outbound)
  }

  function Directed(r: Relation, outbound: bool): Relation
  {
    if outbound then r else Reverse(r)
  }

  function Far(e: (Node, Node), outbound: bool): Node
  {
    if outbound then e.1 else e.0
  }

  /** The part of the edge table held in memory, by source and by target. */
  class Loaded {
    var outDep: Adjacency
    var inDep: Adjacency

    ghost predicate Consistent()
      reads this
    {
      && EdgesOf(inDep) == Reverse(EdgesOf(outDep))
      && (forall n :: NoRepeats(At(outDep, n)))
      && (forall n :: NoRepeats(At(inDep, n)))
    }

    ghost function Edges(): Relation
      reads this
    {
      EdgesOf(outDep)
    }

    constructor ()
      ensures Consistent() && Edges() == {}
    {
      outDep, inDep := map[], map[];
    }

    method AddEdge(a: Node, b: Node)
      requires Consistent()
      modifies this
      ensures Consistent() && Edges() == old(Edges()) + {(a, b)}
      ensures forall n :: old(At(outDep, n)) <= At(outDep, n)
      ensures forall n :: old(At(inDep, n)) <= At(inDep, n)
    {
      AppendedEdges(outDep, a, b);
      AppendedEdges(inDep, b, a);
      ReverseAdds(EdgesOf(outDep), a, b);
      AppendedOnce(outDep, a, b);
      AppendedOnce(inDep, b, a);
      outDep := outDep[a := AppendUnique(At(outDep, a), b)];
      inDep := inDep[b := AppendUnique(At(inDep, b), a)];
    }

    method AddEdges(rows: Table)
      requires Consistent()
      modifies this
      ensures Consistent() && Edges() == old(Edges()) + EdgeSet(rows)
      ensures forall n :: old(At(outDep, n)) <= At(outDep, n)
      ensures forall n :: old(At(inDep, n)) <= At(inDep, n)
    {
      var i := 0;
      while i < |rows|
        invariant 0 <= i <= |rows| && Consistent() && Edges() == old(Edges()) + EdgeSet(rows[..i])
        invariant forall n :: old(At(outDep, n)) <= At(outDep, n)
        invariant forall n :: old(At(inDep, n)) <= At(inDep, n)
      {
        AddEdge(rows[i].0, rows[i].1);
        assert rows[..i + 1] == rows[..i] + [rows[i]] && (rows[i].0, rows[i].1) == rows[i];
        assert EdgeSet(rows[..i + 1]) == EdgeSet(rows[..i]) + {rows[i]};
        i := i + 1;
      }
      assert rows[..i] == rows;
    }
  }

  lemma AppendedOnce(adj: Adjacency, a: Node, b: Node)
    requires forall n :: NoRepeats(At(adj, n))
    ensures var next := adj[a := AppendUnique(At(adj, a), b)];
            forall n :: NoRepeats(At(next, n)) && At(adj, n) <= At(next, n)
  {
    var next := adj[a := AppendUnique(At(adj, a), b)];
    forall n ensures NoRepeats(At(next, n)) && At(adj, n) <= At(next, n) {
      assert NoRepeats(At(adj, n));
      if n == a {
        assert At(next, n) == AppendUnique(At(adj, a), b);
      } else {
        assert At(next, n) == At(adj, n);
      }
    }
  }

  lemma AppendedEdges(adj: Adjacency, a: Node, b: Node)
    ensures EdgesOf(adj[a := AppendUnique(At(adj, a), b)]) == EdgesOf(adj) + {(a, b)}
  {
    var next := adj[a := AppendUnique(At(adj, a), b)];
    forall e ensures e in EdgesOf(next) <==> e in EdgesOf(adj) + {(a, b)} {
      var (x, y) := e;
      if (x, y) in EdgesOf(next) { assert y in next[x]; }
      if (x, y) in EdgesOf(adj) { assert y in adj[x] && y in next[x]; }
      if (x, y) == (a, b) { assert b in next[a]; }
    }
  }

  lemma ReverseAdds(r: Relation, a: Node, b: Node)
    ensures Reverse(r + {(a, b)}) == Reverse(r) + {(b, a)}
  {
    forall e ensures e in Reverse(r + {(a, b)}) <==> e in Reverse(r) + {(b, a)} {
      assert e == (e.0, e.1);
      if (e.1, e.0) in r + {(a, b)} { assert e in Reverse(r + {(a, b)}); }
      if (e.1, e.0) in r { assert e in Reverse(r); }
    }
  }

  lemma DirectedEdge(r: Relation, outbound: bool, x: Node, y: Node)
    ensures (x, y) in Directed(r, outbound) <==> (if outbound then (x, y) else (y, x)) in r
  {
    if !outbound && (y, x) in r { assert (x, y) == ((y, x).1, (y, x).0); }
  }

  /** Every table edge out of `x`, in the walking direction, is loaded and its far end visited. */
  ghost predicate Processed(d: Relation, loaded: Relation, visited: set<Node>, x: Node)
  {
    forall y :: (x, y) in d ==> (x, y) in loaded && y in visited
  }

  /** Every table edge out of `subject` and of what it reaches, in one direction, is loaded. */
  ghost predicate LoadedFrom(d: Relation, loaded: Relation, subject: Node)
  {
    forall x, y :: (x, y) in d && (x == subject || Reaches(d, subject, x)) ==> (x, y) in loaded
  }

  lemma FarEndsSnoc(rows: Table, i: nat, outbound: bool, visited0: set<Node>, visited: set<Node>)
    requires i < |rows| && visited == visited0 + FarEnds(rows[..i], outbound)
    ensures visited0 + FarEnds(rows[..i + 1], outbound) == visited + {Far(rows[i], outbound)}
  {
    assert rows[..i + 1] == rows[..i] + [rows[i]];
    assert FarEnds(rows[..i + 1], outbound) == FarEnds(rows[..i], outbound) + {Far(rows[i], outbound)};
  }

  /** `added` lists, once each, what was visited since. */
  ghost predicate Added(before: set<Node>, visited: set<Node>, added: seq<Node>)
  {
    before <= visited && (forall x :: x in added <==> x in visited && x !in before) && |added| == |visited - before|
  }

  lemma AddOne(before: set<Node>, visited: set<Node>, added: seq<Node>, next: Node)
    requires Added(before, visited, added) && next !in visited
    ensures Added(before, visited + {next}, added + [next])
  {
    assert (visited + {next}) - before == (visited - before) + {next};
  }

  /** The far ends of one id's rows not visited before, once each. */
  method NewEnds(rows: Table, outbound: bool, visited0: set<Node>) returns (visited: set<Node>, added: seq<Node>)
    ensures visited == visited0 + FarEnds(rows, outbound) && Added(visited0, visited, added)
  {
    visited, added := visited0, [];
    var i := 0;
    assert visited0 - visited0 == {};
    while i < |rows|
      invariant 0 <= i <= |rows|
      invariant visited == visited0 + FarEnds(rows[..i], outbound)
      invariant Added(visited0, visited, added)
    {
      var next := Far(rows[i], outbound);
      ghost var was := visited;
      FarEndsSnoc(rows, i, outbound, visited0, visited);
      if next !in visited {
        AddOne(visited0, visited, added, next);
        visited, added := visited + {next}, added + [next];
      }
      assert visited == was + {next};
      i := i + 1;
    }
    assert rows[..i] == rows;
  }

  ghost function FarEnds(t: Table, outbound: bool): set<Node>
  {
    set e | e in t :: Far(e, outbound)
  }

  /** Whatever was loaded since `before` comes out of the subject or of what it reaches. */
  ghost predicate LoadedWithin(d: Relation, before: Relation, loaded: Relation, subject: Node)
  {
    forall x, y :: (x, y) in loaded ==> (x, y) in before || x == subject || Reaches(d, subject, x)
  }

  lemma LoadedWithinStep(
    d: Relation, before: Relation, was: Relation, loaded: Relation, subject: Node, id: Node, outbound: bool,
    edges: Relation, rows: Relation)
    requires LoadedWithin(d, before, was, subject) && (id == subject || Reaches(d, subject, id))
    requires was == Directed(edges, outbound) && loaded == Directed(edges + rows, outbound)
    requires forall e :: e in rows ==> (if outbound then e.0 else e.1) == id
    ensures LoadedWithin(d, before, loaded, subject)
  {
    forall x, y | (x, y) in loaded ensures (x, y) in before || x == subject || Reaches(d, subject, x) {
      DirectedEdge(edges, outbound, x, y);
      DirectedEdge(edges + rows, outbound, x, y);
    }
  }

  /** What the breadth-first loading keeps. */
  ghost predicate Loading(
    t: Table, subject: Node, outbound: bool, loaded: Relation, visited: set<Node>, queue: seq<Node>)
  {
    var d := Directed(EdgeSet(t), outbound);
    && subject in visited && (forall x :: x in visited ==> x == subject || Reaches(d, subject, x))
    && (forall x :: x in queue ==> x in visited)
    && (forall x :: x in visited && x !in queue ==> Processed(d, loaded, visited, x))
  }

  /** Loads all that is reachable from the subject in one direction, one id's rows at a time. */
  method ExpandDepends(g: Loaded, t: Table, subject: Node, seeds: seq<Node>, outbound: bool)
    requires g.Consistent() && g.Edges() <= EdgeSet(t)
    requires forall y :: (subject, y) in Directed(EdgeSet(t), outbound) <==> y in seeds
    requires forall y :: y in seeds ==> (subject, y) in Directed(g.Edges(), outbound)
    modifies g
    ensures g.Consistent() && old(g.Edges()) <= g.Edges() <= EdgeSet(t)
    ensures LoadedFrom(Directed(EdgeSet(t), outbound), Directed(g.Edges(), outbound), subject)
    ensures LoadedWithin(Directed(EdgeSet(t), outbound), Directed(old(g.Edges()), outbound),
              Directed(g.Edges(), outbound), subject)
  {
    var visited, queue := StartQueue(seeds, subject);
    StartLoading(t, subject, outbound, seeds, g.Edges(), visited, queue);
    while queue != []
      invariant g.Consistent() && old(g.Edges()) <= g.Edges() <= EdgeSet(t)
      invariant Loading(t, subject, outbound, Directed(g.Edges(), outbound), visited, queue)
      invariant LoadedWithin(Directed(EdgeSet(t), outbound), Directed(old(g.Edges()), outbound),
                  Directed(g.Edges(), outbound), subject)
      decreases |FarEnds(t, outbound) - visited| + |queue|
    {
      var id := queue[0];
      var rows := RowsAt(t, id, outbound);
      ghost var (was, q, before) := (visited, queue, g.Edges());
      g.AddEdges(rows);
      DirectedGrows(before, g.Edges(), outbound);
      assert id in visited;
      LoadedWithinStep(Directed(EdgeSet(t), outbound), Directed(old(g.Edges()), outbound), Directed(before, outbound),
        Directed(g.Edges(), outbound), subject, id, outbound, before, EdgeSet(rows));
      RowsLoaded(rows, t, id, outbound, g.Edges());
      var added;
      visited, added := NewEnds(rows, outbound, visited);
      queue := queue[1..] + added;
      LoadingStep(t, subject, outbound, Directed(before, outbound), Directed(g.Edges(), outbound), was, q, rows,
        visited, queue);
      QueueDrains(t, outbound, id, rows, was, visited);
    }
    EverythingLoaded(t, subject, outbound, Directed(g.Edges(), outbound), visited);
  }

  method StartQueue(seeds: seq<Node>, subject: Node) returns (visited: set<Node>, queue: seq<Node>)
    ensures visited == {subject} + set x | x in seeds
    ensures forall x :: x in queue <==> x in seeds && x != subject
  {
    visited, queue := {subject}, [];
    var i := 0;
    while i < |seeds|
      invariant 0 <= i <= |seeds| && visited == {subject} + set x | x in seeds[..i]
      invariant forall x :: x in queue <==> x in seeds[..i] && x != subject
    {
      assert seeds[..i + 1] == seeds[..i] + [seeds[i]];
      if seeds[i] !in visited { visited, queue := visited + {seeds[i]}, queue + [seeds[i]]; }
      i := i + 1;
    }
    assert seeds[..i] == seeds;
  }

  lemma StartLoading(
    t: Table, subject: Node, outbound: bool, seeds: seq<Node>, edges: Relation, visited: set<Node>, queue: seq<Node>)
    requires forall y :: (subject, y) in Directed(EdgeSet(t), outbound) <==> y in seeds
    requires forall y :: y in seeds ==> (subject, y) in Directed(edges, outbound)
    requires visited == {subject} + set x | x in seeds
    requires forall x :: x in queue <==> x in seeds && x != subject
    ensures Loading(t, subject, outbound, Directed(edges, outbound), visited, queue)
  {
    forall x | x in visited && x != subject ensures Reaches(Directed(EdgeSet(t), outbound), subject, x) {
      ReachesByEdge(Directed(EdgeSet(t), outbound), subject, x);
    }
  }

  lemma RowsAreEdges(t: Table, id: Node, outbound: bool, y: Node)
    ensures (id, y) in Directed(EdgeSet(t), outbound) <==>
              exists e :: e in RowsAt(t, id, outbound) && Far(e, outbound) == y
  {
    DirectedEdge(EdgeSet(t), outbound, id, y);
    if (id, y) in Directed(EdgeSet(t), outbound) {
      var e := if outbound then (id, y) else (y, id);
      assert e in RowsAt(t, id, outbound) && Far(e, outbound) == y;
    }
    if e :| e in RowsAt(t, id, outbound) && Far(e, outbound) == y {
      assert e == (e.0, e.1);
    }
  }

  /** Loading one id's rows processes that id and keeps the others processed. */
  lemma LoadingStep(
    t: Table, subject: Node, outbound: bool, before: Relation, loaded: Relation, was: set<Node>, q: seq<Node>,
    rows: Table, visited: set<Node>, queue: seq<Node>)
    requires q != [] && rows == RowsAt(t, q[0], outbound) && before <= loaded
    requires Loading(t, subject, outbound, before, was, q)
    requires forall e :: e in rows ==> (q[0], Far(e, outbound)) in loaded
    requires visited == was + FarEnds(rows, outbound)
    requires forall x :: x in queue <==> x in q[1..] || (x in visited && x !in was)
    ensures Loading(t, subject, outbound, loaded, visited, queue)
  {
    var (d, id) := (Directed(EdgeSet(t), outbound), q[0]);
    assert id in q;
    forall x | x in visited ensures x == subject || Reaches(d, subject, x) {
      if x !in was {
        RowsAreEdges(t, id, outbound, x);
        if id == subject { ReachesByEdge(d, id, x); } else { ReachesOnward(d, subject, id, x); }
      }
    }
    forall x | x in visited && x !in queue ensures Processed(d, loaded, visited, x) {
      if x == id {
        forall y | (id, y) in d ensures (id, y) in loaded && y in visited { RowsAreEdges(t, id, outbound, y); }
      } else {
        assert x !in q by { assert q == [id] + q[1..]; }
        assert Processed(d, before, was, x);
      }
    }
  }

  lemma QueueDrains(t: Table, outbound: bool, id: Node, rows: Table, was: set<Node>, visited: set<Node>)
    requires rows == RowsAt(t, id, outbound) && visited == was + FarEnds(rows, outbound)
    ensures |FarEnds(t, outbound) - visited| + |visited - was| == |FarEnds(t, outbound) - was|
  {
    var far := FarEnds(t, outbound);
    assert visited - was <= far;
    assert far - was == (far - visited) + (visited - was);
  }

  lemma EverythingLoaded(t: Table, subject: Node, outbound: bool, loaded: Relation, visited: set<Node>)
    requires Loading(t, subject, outbound, loaded, visited, [])
    ensures LoadedFrom(Directed(EdgeSet(t), outbound), loaded, subject)
  {
    var d := Directed(EdgeSet(t), outbound);
    assert forall x :: x in visited ==> Processed(d, loaded, visited, x);
    assert Closed(d, subject, visited);
    forall x, y | (x, y) in d && (x == subject || Reaches(d, subject, x)) ensures (x, y) in loaded {
      if x != subject {
        var w :| Path(d, subject, x, w);
        ClosedHoldsPath(d, subject, visited, w, |w| - 1);
      }
      assert Processed(d, loaded, visited, x);
    }
  }

  lemma DirectedGrows(r: Relation, q: Relation, outbound: bool)
    requires r <= q
    ensures Directed(r, outbound) <= Directed(q, outbound)
  {
  }

  lemma RowsLoaded(rows: Table, t: Table, id: Node, outbound: bool, edges: Relation)
    requires rows == RowsAt(t, id, outbound) && EdgeSet(rows) <= edges
    ensures forall e :: e in rows ==> (id, Far(e, outbound)) in Directed(edges, outbound)
  {
    forall e | e in rows ensures (id, Far(e, outbound)) in Directed(edges, outbound) {
      assert e == (e.0, e.1) && e in EdgeSet(rows);
      DirectedEdge(edges, outbound, id, Far(e, outbound));
    }
  }

  // -------------------------------------------------------- the whole neighbourhood

  /** An edge the report needs: at the subject, out of what it reaches, or, when asked, into what reaches it. */
  ghost predicate Near(all: Relation, subject: Node, inbound: bool, a: Node, b: Node)
  {
    a == subject || b == subject || Reaches(all, subject, a) || (inbound && Reaches(all, b, subject))
  }

  /** Loads what one ticket's report needs: always everything outbound, and inbound when asked. */
  method BuildDependsGraph(t: Table, subject: Node, inbound: bool) returns (g: Loaded)
    ensures fresh(g) && g.Consistent() && g.Edges() <= EdgeSet(t)
    ensures LoadedFrom(EdgeSet(t), g.Edges(), subject)
    ensures inbound ==> LoadedFrom(Reverse(EdgeSet(t)), Reverse(g.Edges()), subject)
    ensures forall a, b :: (a, b) in g.Edges() <==> (a, b) in EdgeSet(t) && Near(EdgeSet(t), subject, inbound, a, b)
  {
    g := new Loaded();
    g.AddEdges(RowsAt(t, subject, true));
    g.AddEdges(RowsAt(t, subject, false));
    ghost var first := g.Edges();
    SeedsAreRows(t, subject, g.Edges(), g.outDep, true);
    ExpandDepends(g, t, subject, At(g.outDep, subject), true);
    ghost var second := g.Edges();
    if inbound {
      SeedsAreRows(t, subject, g.Edges(), g.inDep, false);
      ExpandDepends(g, t, subject, At(g.inDep, subject), false);
    }
    AllNear(EdgeSet(t), first, second, g.Edges(), subject, inbound);
  }

  lemma AllNear(all: Relation, first: Relation, second: Relation, edges: Relation, subject: Node, inbound: bool)
    requires first <= second <= edges <= all
    requires forall a, b :: (a, b) in first <==> (a, b) in all && (a == subject || b == subject)
    requires LoadedFrom(all, second, subject) && LoadedWithin(all, first, second, subject)
    requires if inbound then
               LoadedFrom(Reverse(all), Reverse(edges), subject)
               && LoadedWithin(Reverse(all), Reverse(second), Reverse(edges), subject)
             else edges == second
    ensures forall a, b :: (a, b) in edges <==> (a, b) in all && Near(all, subject, inbound, a, b)
  {
    forall a, b ensures (a, b) in edges <==> (a, b) in all && Near(all, subject, inbound, a, b) {
      DirectedEdge(all, false, b, a);
      DirectedEdge(second, false, b, a);
      DirectedEdge(edges, false, b, a);
      ReachesBack(all, subject, b);
    }
  }

  lemma ReachesBack(all: Relation, subject: Node, b: Node)
    ensures Reaches(Reverse(all), subject, b) <==> Reaches(all, b, subject)
  {
    if Reaches(all, b, subject) { ReverseReaches(all, b, subject); }
    if Reaches(Reverse(all), subject, b) {
      ReverseReaches(Reverse(all), subject, b);
      ReverseTwice(all);
    }
  }

  /** The first hop: exactly the subject's own table rows. */
  lemma SeedsAreRows(t: Table, subject: Node, edges: Relation, adj: Adjacency, outbound: bool)
    requires edges <= EdgeSet(t) && EdgesOf(adj) == Directed(edges, outbound)
    requires EdgeSet(RowsAt(t, subject, outbound)) <= edges
    ensures forall y :: (subject, y) in Directed(EdgeSet(t), outbound) <==> y in At(adj, subject)
    ensures forall y :: y in At(adj, subject) ==> (subject, y) in Directed(edges, outbound)
  {
    forall y ensures (subject, y) in Directed(EdgeSet(t), outbound) <==> y in At(adj, subject) {
      RowsAreEdges(t, subject, outbound, y);
      RowsLoaded(RowsAt(t, subject, outbound), t, subject, outbound, edges);
      DirectedGrows(edges, EdgeSet(t), outbound);
      if y in At(adj, subject) { assert (subject, y) in EdgesOf(adj); }
      if (subject, y) in EdgesOf(adj) { assert y in adj[subject]; }
    }
    forall y | y in At(adj, subject) ensures (subject, y) in Directed(edges, outbound) { EdgeInMap(adj, subject, y); }
  }

  /** The report's answers, from the loaded part, are those of the whole edge table. */
  method Neighbourhood(
    t: Table, subject: Node, transitive: bool) returns (depends: seq<Node>, dependedOnBy: seq<Node>, inCycle: bool)
    ensures forall b :: b in depends <==> b != subject && Reaches(EdgeSet(t), subject, b)
    ensures transitive ==> forall b :: b in dependedOnBy <==> b != subject && Reaches(EdgeSet(t), b, subject)
    ensures inCycle <==> Reaches(EdgeSet(t), subject, subject)
  {
    var g := BuildDependsGraph(t, subject, transitive);
    depends := Reachable(g.outDep, subject);
    dependedOnBy := Reachable(g.inDep, subject);
    inCycle := SubjectInCycle(g.outDep, subject);
    forall b ensures Reaches(g.Edges(), subject, b) <==> Reaches(EdgeSet(t), subject, b) {
      SameReach(g.Edges(), EdgeSet(t), subject, b);
    }
    if transitive {
      forall b ensures Reaches(Reverse(g.Edges()), subject, b) <==> Reaches(EdgeSet(t), b, subject) {
        BackwardReach(g.Edges(), EdgeSet(t), subject, b);
      }
    }
  }

  lemma BackwardReach(edges: Relation, all: Relation, subject: Node, b: Node)
    requires edges <= all && LoadedFrom(Reverse(all), Reverse(edges), subject)
    ensures Reaches(Reverse(edges), subject, b) <==> Reaches(all, b, subject)
  {
    assert Reverse(edges) <= Reverse(all);
    SameReach(Reverse(edges), Reverse(all), subject, b);
    ReachesBack(all, subject, b);
  }

  lemma ReverseTwice(r: Relation)
    ensures Reverse(Reverse(r)) == r
  {
    forall e ensures e in Reverse(Reverse(r)) <==> e in r {
      assert e == (e.0, e.1);
      if e in r { assert (e.1, e.0) in Reverse(r); }
    }
  }
}
