/** Layered ranks of a depends graph for display, and the flag that marks cyclic edges. */
module Ranks {
  import opened Lex
  import opened Graphs
  import opened Sorting

  // -------------------------------------------------------------- the meaning

  /** The longest walk from `v` has `n` edges. */
  ghost predicate Height(g: Graph, v: Node, n: nat)
  {
    HasWalk(g, v, n) && !HasWalk(g, v, n + 1)
  }

  /** A node that reaches no cycle is ranked by its longest depends chain; all others share the next rank above. */
  ghost predicate IsRanking(g: Graph, rank: map<Node, nat>, top: nat)
  {
    && rank.Keys == g.nodes && (forall v :: v in g.nodes ==> RankFits(g, v, rank[v], top))
    && (top > 0 ==> exists v :: v in g.nodes && !ReachesCycle(g, v) && rank[v] == top - 1)
  }

  ghost predicate RankFits(g: Graph, v: Node, r: nat, top: nat)
  {
    if ReachesCycle(g, v) then r == top else r < top && Height(g, v, r)
  }

  /** An edge is flagged exactly when its target can reach a cycle. */
  lemma EdgeFlagMarksCycles(g: Graph, rank: map<Node, nat>, top: nat, a: Node, b: Node)
    requires IsRanking(g, rank, top) && Edge(g, a, b)
    ensures rank[a] <= rank[b] <==> ReachesCycle(g, b)
  {
    assert RankFits(g, a, rank[a], top) && RankFits(g, b, rank[b], top);
    if ReachesCycle(g, b) {
      CycleComesBack(g, a, b);
    } else if !ReachesCycle(g, a) {
      HigherAbove(g, a, b, rank[a], rank[b]);
    }
  }

  /** The longest walk from an edge's source is longer than that from its target. */
  lemma HigherAbove(g: Graph, a: Node, b: Node, m: nat, n: nat)
    requires Edge(g, a, b) && Height(g, a, m) && Height(g, b, n)
    ensures n < m
  {
    assert HasWalk(g, a, n + 1);
    if m <= n { ShorterWalk(g, a, m + 1, n + 1); }
  }

  lemma CycleComesBack(g: Graph, a: Node, b: Node)
    requires Edge(g, a, b) && ReachesCycle(g, b)
    ensures ReachesCycle(g, a)
  {
    CycleMeansUnbounded(g, b);
    CycleMeansUnbounded(g, a);
    assert HasWalk(g, b, |g.nodes|);
    assert HasWalk(g, a, |g.nodes| + 1);
    ShorterWalk(g, a, |g.nodes|, |g.nodes| + 1);
  }

  /** Nodes whose walks are all shorter than `n`. */
  ghost function Low(g: Graph, n: nat): set<Node>
  {
    set v | v in g.nodes && !HasWalk(g, v, n)
  }

  lemma LowStep(g: Graph, n: nat, v: Node)
    ensures v in Low(g, n + 1) <==> v in g.nodes && Succ(g, v) <= Low(g, n)
  {
    if v in g.nodes && HasWalk(g, v, n + 1) {
      var u :| Edge(g, v, u) && HasWalk(g, u, n);
      assert u in Succ(g, v);
    }
  }

  lemma LowGrows(g: Graph, m: nat, n: nat)
    requires m <= n
    ensures Low(g, m) <= Low(g, n)
  {
    forall v | v in Low(g, m) ensures v in Low(g, n) {
      if HasWalk(g, v, n) { ShorterWalk(g, v, m, n); }
    }
  }

  lemma {:induction false} LowStops(g: Graph, m: nat, n: nat)
    requires m <= n && Low(g, m) == Low(g, m + 1)
    ensures Low(g, n) == Low(g, m)
    decreases n
  {
    if m < n {
      LowStops(g, m, n - 1);
      forall v ensures v in Low(g, n) <==> v in Low(g, m) {
        LowStep(g, n - 1, v);
        LowStep(g, m, v);
      }
    }
  }

  /** Once a layer adds nothing, what is left reaches a cycle. */
  lemma LeftoversReachCycles(g: Graph, n: nat, v: Node)
    requires Low(g, n) == Low(g, n + 1) && v in g.nodes
    ensures v in Low(g, n) <==> !ReachesCycle(g, v)
  {
    CycleMeansUnbounded(g, v);
    var m := n + |g.nodes|;
    LowStops(g, n, m);
    if v !in Low(g, n) {
      ShorterWalk(g, v, |g.nodes|, m);
    }
  }

  // ------------------------------------------------------------ the algorithm

  function At(rev: map<Node, seq<Node>>, u: Node): seq<Node>
  {
    if u in rev then rev[u] else []
  }

  /** `list` holds, once each, the nodes of `done` with an edge to `u`. */
  ghost predicate Sources(g: Graph, list: seq<Node>, done: set<Node>, u: Node)
  {
    && NoRepeats(list)
    && (forall i :: 0 <= i < |list| ==> list[i] in done && Edge(g, list[i], u))
    && (forall v :: v in done && Edge(g, v, u) ==> v in list)
  }

  ghost predicate Reversed(g: Graph, rev: map<Node, seq<Node>>, done: set<Node>)
  {
    forall u {:trigger Sources(g, At(rev, u), done, u)} :: Sources(g, At(rev, u), done, u)
  }

  /** Part-way through one source: the targets in `seen` list it, the others do not yet. */
  ghost predicate Reversing(g: Graph, rev: map<Node, seq<Node>>, done: set<Node>, from: Node, seen: set<Node>)
  {
    forall u {:trigger Sources(g, At(rev, u), done, u)} {:trigger Sources(g, At(rev, u), done + {from}, u)} ::
      Sources(g, At(rev, u), if u in seen then done + {from} else done, u)
  }

  /** Counts one source's distinct present targets and records it in their reverse lists. */
  method CountSource(
    g: Graph, from: Node, rev0: map<Node, seq<Node>>, ghost done: set<Node>)
    returns (count: nat, rev: map<Node, seq<Node>>)
    requires from in g.nodes && from in g.lists && from !in done && Reversed(g, rev0, done)
    ensures count == |Succ(g, from)| && Reversed(g, rev, done + {from})
  {
    var tos := g.lists[from];
    var seen: set<Node> := {};
    count, rev := 0, rev0;
    var k := 0;
    while k < |tos|
      invariant 0 <= k <= |tos|
      invariant seen == set u | u in g.nodes && u in tos[..k]
      invariant count == |seen| && Reversing(g, rev, done, from, seen)
    {
      var to := tos[k];
      assert tos[..k + 1] == tos[..k] + [to];
      if to in g.nodes && to !in seen {
        AppendSource(g, rev, done, from, seen, to);
        seen := seen + {to};
        count := count + 1;
        rev := rev[to := At(rev, to) + [from]];
      }
      k := k + 1;
    }
    assert tos[..k] == tos;
    assert seen == Succ(g, from);
    SourceCounted(g, rev, done, from);
  }

  lemma AppendSource(g: Graph, rev: map<Node, seq<Node>>, done: set<Node>, from: Node, seen: set<Node>, to: Node)
    requires Reversing(g, rev, done, from, seen) && from !in done && to !in seen && Edge(g, from, to)
    ensures Reversing(g, rev[to := At(rev, to) + [from]], done, from, seen + {to})
  {
    var next := rev[to := At(rev, to) + [from]];
    forall u ensures Sources(g, At(next, u), if u in seen + {to} then done + {from} else done, u) {
      assert Sources(g, At(rev, u), if u in seen then done + {from} else done, u);
      if u == to { assert At(next, u) == At(rev, u) + [from]; }
    }
  }

  lemma SourceCounted(g: Graph, rev: map<Node, seq<Node>>, done: set<Node>, from: Node)
    requires Reversing(g, rev, done, from, Succ(g, from))
    ensures Reversed(g, rev, done + {from})
  {
    forall u ensures Sources(g, At(rev, u), done + {from}, u) {
      assert Sources(g, At(rev, u), if u in Succ(g, from) then done + {from} else done, u);
    }
  }

  /** Out-degrees inside the graph, and who depends on whom. */
  method CountDepends(g: Graph) returns (indeg: map<Node, nat>, rev: map<Node, seq<Node>>)
    ensures indeg.Keys == g.nodes && forall v :: v in g.nodes ==> indeg[v] == |Succ(g, v)|
    ensures Reversed(g, rev, g.nodes)
  {
    indeg := map v | v in g.nodes :: 0;
    rev := map[];
    var todo := g.lists.Keys * g.nodes;
    ghost var done: set<Node> := {};
    while todo != {}
      invariant done + todo == g.lists.Keys * g.nodes && todo !! done
      invariant indeg.Keys == g.nodes
      invariant forall v :: v in g.nodes ==> indeg[v] == if v in done then |Succ(g, v)| else 0
      invariant Reversed(g, rev, done)
      decreases |todo|
    {
      var from :| from in todo;
      var count;
      count, rev := CountSource(g, from, rev, done);
      indeg, todo, done := indeg[from := count], todo - {from}, done + {from};
    }
    assert done == g.lists.Keys * g.nodes;
    NoOtherSources(g, rev, done);
    forall v | v in g.nodes && v !in done ensures |Succ(g, v)| == 0 { NoTargets(g, v); }
  }

  lemma NoTargets(g: Graph, v: Node)
    requires v !in g.lists
    ensures Succ(g, v) == {}
  {
  }

  lemma NoOtherSources(g: Graph, rev: map<Node, seq<Node>>, done: set<Node>)
    requires Reversed(g, rev, done) && done == g.lists.Keys * g.nodes
    ensures Reversed(g, rev, g.nodes)
  {
    forall u ensures Sources(g, At(rev, u), g.nodes, u) {
      assert Sources(g, At(rev, u), done, u);
    }
  }

  // -------------------------------------------------------------- one layer

  /** Unprocessed targets of each node. */
  ghost predicate Counts(g: Graph, indeg: map<Node, nat>, done: set<Node>)
  {
    indeg.Keys == g.nodes && forall v :: v in g.nodes ==> indeg[v] == Left(g, v, done)
  }

  /** All of `v`'s targets are in `done`, but were not all in `before`. */
  ghost predicate Becomes(g: Graph, v: Node, before: set<Node>, done: set<Node>)
  {
    v in g.nodes && Succ(g, v) <= done && !(Succ(g, v) <= before)
  }

  /** The nodes that became ready between `before` and `done`, once each. */
  ghost predicate Ready(g: Graph, next: seq<Node>, before: set<Node>, done: set<Node>)
  {
    && NoRepeats(next)
    && (forall i :: 0 <= i < |next| ==> Becomes(g, next[i], before, done))
    && (forall v {:trigger Becomes(g, v, before, done)} :: Becomes(g, v, before, done) ==> v in next)
  }

  ghost function Left(g: Graph, v: Node, done: set<Node>): nat
  {
    |Succ(g, v) - done|
  }

  /** Takes one node off the graph: each of its dependers has one target fewer left. */
  method FinishNode(
    g: Graph, indeg0: map<Node, nat>, sources: seq<Node>, next0: seq<Node>, id: Node, ghost before: set<Node>,
    ghost done: set<Node>)
    returns (indeg: map<Node, nat>, next: seq<Node>)
    requires Counts(g, indeg0, done) && Ready(g, next0, before, done) && before <= done && id !in done
    requires Sources(g, sources, g.nodes, id)
    ensures Counts(g, indeg, done + {id}) && Ready(g, next, before, done + {id})
  {
    ghost var goal := map v | v in g.nodes :: Left(g, v, done + {id});
    OneFewerEach(g, indeg0, goal, sources, id, done);
    var freed;
    indeg, freed := DecrementEach(indeg0, sources, goal);
    next := next0 + freed;
    FreedAreNew(g, next0, freed, sources, id, before, done);
  }

  /** Finishing `id` costs each of its sources one target and the other nodes none. */
  lemma OneFewerEach(
    g: Graph, indeg: map<Node, nat>, goal: map<Node, nat>, sources: seq<Node>, id: Node, done: set<Node>)
    requires Counts(g, indeg, done) && id !in done && Sources(g, sources, g.nodes, id)
    requires goal.Keys == g.nodes && forall v :: v in g.nodes ==> goal[v] == Left(g, v, done + {id})
    ensures forall v :: v in g.nodes ==> Costs(v in sources, goal[v], indeg[v])
    ensures forall v :: v in sources ==> v in g.nodes && (goal[v] == 0 <==> Succ(g, v) <= done + {id})
  {
    forall v | v in g.nodes ensures Costs(v in sources, goal[v], indeg[v]) {
      OneFewerAt(g, sources, id, done, v);
    }
    forall v | v in sources ensures v in g.nodes && (goal[v] == 0 <==> Succ(g, v) <= done + {id}) {
      OneFewerAt(g, sources, id, done, v);
    }
  }

  ghost predicate Costs(source: bool, after: nat, before: nat)
  {
    if source then after + 1 == before else after == before
  }

  lemma OneFewerAt(g: Graph, sources: seq<Node>, id: Node, done: set<Node>, v: Node)
    requires id !in done && Sources(g, sources, g.nodes, id)
    ensures v in g.nodes ==> Costs(v in sources, Left(g, v, done + {id}), Left(g, v, done))
    ensures v in sources ==> v in g.nodes && (Left(g, v, done + {id}) == 0 <==> Succ(g, v) <= done + {id})
  {
    if v in sources {
      OneFewer(g, v, id, done);
    } else if v in g.nodes {
      assert !Edge(g, v, id);
      assert Succ(g, v) - (done + {id}) == Succ(g, v) - done;
    }
  }

  method DecrementEach(
    indeg0: map<Node, nat>, sources: seq<Node>, ghost goal: map<Node, nat>)
    returns (indeg: map<Node, nat>, freed: seq<Node>)
    requires goal.Keys == indeg0.Keys && NoRepeats(sources)
    requires forall v :: v in sources ==> v in indeg0
    requires forall v :: v in indeg0 ==> Costs(v in sources, goal[v], indeg0[v])
    ensures indeg == goal
    ensures NoRepeats(freed) && forall v :: v in freed <==> v in sources && goal[v] == 0
  {
    indeg, freed := indeg0, [];
    var k := 0;
    ghost var marked: set<Node> := {};
    while k < |sources|
      invariant 0 <= k <= |sources| && indeg.Keys == indeg0.Keys
      invariant forall i :: 0 <= i < |sources| ==> (sources[i] in marked <==> i < k)
      invariant forall v :: v in marked ==> v in sources
      invariant forall v :: v in indeg ==> indeg[v] == if v in marked then goal[v] else indeg0[v]
      invariant NoRepeats(freed) && forall v :: v in freed <==> v in marked && goal[v] == 0
    {
      var dep := sources[k];
      assert dep in sources && dep !in marked;
      indeg := indeg[dep := indeg[dep] - 1];
      if indeg[dep] == 0 {
        freed := freed + [dep];
      }
      marked := marked + {dep};
      k := k + 1;
    }
  }

  lemma FreedAreNew(
    g: Graph, next0: seq<Node>, freed: seq<Node>, sources: seq<Node>, id: Node, before: set<Node>, done: set<Node>)
    requires Ready(g, next0, before, done) && before <= done && id !in done && Sources(g, sources, g.nodes, id)
    requires NoRepeats(freed) && forall v :: v in freed <==> v in sources && Succ(g, v) <= done + {id}
    ensures Ready(g, next0 + freed, before, done + {id})
  {
    var next := next0 + freed;
    forall i | 0 <= i < |freed| ensures id in Succ(g, freed[i]) && freed[i] in g.nodes {
      assert freed[i] in freed;
      var k :| 0 <= k < |sources| && sources[k] == freed[i];
    }
    forall i | 0 <= i < |next| ensures Becomes(g, next[i], before, done + {id}) {
      if i < |next0| { assert Becomes(g, next0[i], before, done); } else { assert next[i] == freed[i - |next0|]; }
    }
    forall i, j | 0 <= i < j < |next| ensures next[i] != next[j] {
      if i < |next0| <= j { assert Becomes(g, next0[i], before, done) && id in Succ(g, freed[j - |next0|]); }
    }
    forall v | Becomes(g, v, before, done + {id}) ensures v in next {
      if id in Succ(g, v) {
        assert v in sources;
      } else {
        assert Becomes(g, v, before, done);
      }
    }
  }

  lemma OneFewer(g: Graph, v: Node, id: Node, done: set<Node>)
    requires Edge(g, v, id) && id !in done
    ensures Left(g, v, done + {id}) == Left(g, v, done) - 1
    ensures Left(g, v, done + {id}) == 0 <==> Succ(g, v) <= done + {id}
    ensures !(Succ(g, v) <= done)
  {
    assert id in Succ(g, v);
    assert Succ(g, v) - (done + {id}) == (Succ(g, v) - done) - {id};
    if |Succ(g, v) - (done + {id})| == 0 { assert Succ(g, v) - (done + {id}) == {}; }
    if Succ(g, v) <= done + {id} { assert Succ(g, v) - (done + {id}) == {}; }
  }

  ghost function Elems(s: seq<Node>): set<Node>
  {
    set v | v in s
  }

  lemma ElemsSnoc(q: seq<Node>, i: nat, before: set<Node>)
    requires i < |q| && NoRepeats(q) && Elems(q) !! before
    ensures Elems(q[..i + 1]) == Elems(q[..i]) + {q[i]} && q[i] !in before + Elems(q[..i])
  {
    assert q[..i + 1] == q[..i] + [q[i]];
    assert q[i] in Elems(q);
  }

  /** Takes one whole layer off the graph, in any order of its nodes. */
  method FinishLayer(g: Graph, indeg0: map<Node, nat>, rev: map<Node, seq<Node>>, q: seq<Node>, ghost before: set<Node>)
    returns (indeg: map<Node, nat>, next: seq<Node>)
    requires Counts(g, indeg0, before) && Reversed(g, rev, g.nodes) && NoRepeats(q) && Elems(q) !! before
    ensures Counts(g, indeg, before + Elems(q)) && Ready(g, next, before, before + Elems(q))
  {
    indeg, next := indeg0, [];
    var i := 0;
    ghost var done := before;
    while i < |q|
      invariant 0 <= i <= |q| && before <= done && done == before + Elems(q[..i])
      invariant Counts(g, indeg, done) && Ready(g, next, before, done)
    {
      ElemsSnoc(q, i, before);
      assert Sources(g, At(rev, q[i]), g.nodes, q[i]);
      indeg, next := FinishNode(g, indeg, At(rev, q[i]), next, q[i], before, done);
      done := done + {q[i]};
      assert done == before + Elems(q[..i + 1]);
      i := i + 1;
    }
    assert q[..i] == q;
  }

  /** The next layer: the nodes whose longest walk is one edge longer. */
  ghost predicate IsLayer(g: Graph, q: seq<Node>, n: nat)
  {
    NoRepeats(q) && Elems(q) == Low(g, n + 1) - Low(g, n)
  }

  lemma ReadyIsNextLayer(g: Graph, next: seq<Node>, n: nat)
    requires Ready(g, next, Low(g, n), Low(g, n + 1))
    ensures IsLayer(g, next, n + 1)
  {
    forall v ensures v in next <==> v in Low(g, n + 2) - Low(g, n + 1) {
      LowStep(g, n, v);
      LowStep(g, n + 1, v);
      if v in next {
        var i :| 0 <= i < |next| && next[i] == v;
        assert Becomes(g, next[i], Low(g, n), Low(g, n + 1));
      }
      if v in Low(g, n + 2) - Low(g, n + 1) { assert Becomes(g, v, Low(g, n), Low(g, n + 1)); }
    }
  }

  method FirstLayer(g: Graph, ids: seq<Node>, indeg: map<Node, nat>) returns (q: seq<Node>)
    requires NoRepeats(ids) && g.nodes == Elems(ids) && Counts(g, indeg, {})
    ensures IsLayer(g, q, 0)
  {
    q := ZeroCounts(ids, indeg);
    forall v ensures v in Elems(q) <==> v in Low(g, 1) - Low(g, 0) {
      ZeroIsLow(g, indeg, v);
      assert v in ids <==> v in Elems(ids);
    }
  }

  method ZeroCounts(ids: seq<Node>, indeg: map<Node, nat>) returns (q: seq<Node>)
    requires NoRepeats(ids) && forall i :: 0 <= i < |ids| ==> ids[i] in indeg
    ensures NoRepeats(q) && forall v :: v in q <==> v in ids && v in indeg && indeg[v] == 0
  {
    q := [];
    var i := 0;
    while i < |ids|
      invariant 0 <= i <= |ids| && NoRepeats(q)
      invariant forall v :: v in q <==> v in ids[..i] && v in indeg && indeg[v] == 0
    {
      assert ids[..i + 1] == ids[..i] + [ids[i]] && ids[i] !in ids[..i];
      if indeg[ids[i]] == 0 { q := q + [ids[i]]; }
      i := i + 1;
    }
    assert ids[..i] == ids;
  }

  lemma ZeroIsLow(g: Graph, indeg: map<Node, nat>, v: Node)
    requires Counts(g, indeg, {})
    ensures v in Low(g, 1) - Low(g, 0) <==> v in g.nodes && indeg[v] == 0
  {
    LowStep(g, 0, v);
    assert !(v in Low(g, 0));
    if v in g.nodes {
      assert indeg[v] == Left(g, v, {});
      assert Low(g, 0) == {};
      EmptyMeansZero(Succ(g, v), Low(g, 0));
    }
  }

  lemma EmptyMeansZero(a: set<Node>, none: set<Node>)
    requires none == {}
    ensures |a - {}| == 0 <==> a <= none
  {
    assert a - {} == a;
  }

  /** Every node ranked so far has its height as rank. */
  ghost predicate Ranked(g: Graph, rank: map<Node, nat>, layer: nat)
  {
    rank.Keys == Low(g, layer) && forall v :: v in rank ==> rank[v] < layer && Height(g, v, rank[v])
  }

  /** Kahn's algorithm in layers, with one extra rank for what no layer takes. */
  method AssignRanks(ids: seq<Node>, deps: map<Node, seq<Node>>) returns (rank: map<Node, nat>, top: nat)
    requires NoRepeats(ids)
    ensures IsRanking(Graph(Elems(ids), deps), rank, top)
  {
    var nodes := set v | v in ids;
    var g := Graph(nodes, deps);
    assert g.nodes == Elems(ids);
    var indeg, rev := CountDepends(g);
    assert Counts(g, indeg, {}) by { forall v | v in g.nodes ensures Succ(g, v) - {} == Succ(g, v) {} }
    var q := FirstLayer(g, ids, indeg);
    rank := map[];
    var layer := 0;
    ghost var last: Node :| true;
    while q != []
      invariant Counts(g, indeg, Low(g, layer)) && IsLayer(g, q, layer) && Ranked(g, rank, layer)
      invariant layer > 0 ==> last in rank && rank[last] == layer - 1
      decreases |g.nodes - Low(g, layer)|
    {
      LayerShrinks(g, q, layer);
      rank := RankLayer(g, rank, q, layer);
      last := q[0];
      indeg, q := FinishLayer(g, indeg, rev, q, Low(g, layer));
      ReadyIsNextLayer(g, q, layer);
      layer := layer + 1;
    }
    NoMoreLayers(g, q, layer);
    ghost var layered := rank;
    top := layer;
    rank := RankRest(ids, rank, layer);
    RestOnTop(g, layered, layer, rank, last);
  }

  /** What no layer took gets the next rank. */
  method RankRest(ids: seq<Node>, rank0: map<Node, nat>, layer: nat) returns (rank: map<Node, nat>)
    ensures rank.Keys == rank0.Keys + Elems(ids)
    ensures forall v :: v in rank ==> rank[v] == if v in rank0 then rank0[v] else layer
  {
    rank := rank0;
    var i := 0;
    while i < |ids|
      invariant 0 <= i <= |ids| && rank.Keys == rank0.Keys + Elems(ids[..i])
      invariant forall v :: v in rank ==> rank[v] == if v in rank0 then rank0[v] else layer
    {
      assert ids[..i + 1] == ids[..i] + [ids[i]];
      if ids[i] !in rank { rank := rank[ids[i] := layer]; }
      i := i + 1;
    }
    assert ids[..i] == ids;
  }

  lemma NoMoreLayers(g: Graph, q: seq<Node>, layer: nat)
    requires IsLayer(g, q, layer) && q == []
    ensures Low(g, layer) == Low(g, layer + 1)
  {
    LowGrows(g, layer, layer + 1);
    assert Elems(q) == {};
    NothingBetween(Low(g, layer), Low(g, layer + 1));
  }

  lemma NothingBetween(a: set<Node>, b: set<Node>)
    requires a <= b && b - a == {}
    ensures a == b
  {
    assert forall x :: x in b ==> x in a || x in b - a;
  }

  lemma RestOnTop(g: Graph, rank: map<Node, nat>, layer: nat, full: map<Node, nat>, last: Node)
    requires Ranked(g, rank, layer) && Low(g, layer) == Low(g, layer + 1)
    requires layer > 0 ==> last in rank && rank[last] == layer - 1
    requires full.Keys == rank.Keys + g.nodes
    requires forall v :: v in full ==> full[v] == if v in rank then rank[v] else layer
    ensures IsRanking(g, full, layer)
  {
    forall v | v in g.nodes ensures RankFits(g, v, full[v], layer) { RestAt(g, rank, layer, v); }
    if layer > 0 {
      assert last in g.nodes && full[last] == layer - 1 && RankFits(g, last, full[last], layer);
    }
  }

  lemma RestAt(g: Graph, rank: map<Node, nat>, layer: nat, v: Node)
    requires rank.Keys == Low(g, layer) && (v in rank ==> rank[v] < layer && Height(g, v, rank[v]))
    requires Low(g, layer) == Low(g, layer + 1) && v in g.nodes
    ensures RankFits(g, v, if v in rank then rank[v] else layer, layer)
  {
    LeftoversReachCycles(g, layer, v);
  }

  lemma LayerShrinks(g: Graph, q: seq<Node>, layer: nat)
    requires IsLayer(g, q, layer) && q != []
    ensures Low(g, layer + 1) == Low(g, layer) + Elems(q) && Elems(q) !! Low(g, layer)
    ensures |g.nodes - Low(g, layer + 1)| < |g.nodes - Low(g, layer)|
  {
    LowGrows(g, layer, layer + 1);
    assert q[0] in Elems(q);
    Parts(g.nodes, Low(g, layer), Low(g, layer + 1), Elems(q), q[0]);
  }

  lemma Parts(nodes: set<Node>, a: set<Node>, b: set<Node>, e: set<Node>, x: Node)
    requires a <= b <= nodes && e == b - a && x in e
    ensures b == a + e && e !! a && |nodes - b| < |nodes - a|
  {
    SmallerSet(nodes - b, nodes - a, x);
  }

  lemma SmallerSet(a: set<Node>, b: set<Node>, x: Node)
    requires a <= b && x in b && x !in a
    ensures |a| < |b|
  {
    var rest := b - a;
    assert b == a + rest && a !! rest && x in rest;
  }

  method RankLayer(g: Graph, rank0: map<Node, nat>, q: seq<Node>, layer: nat) returns (rank: map<Node, nat>)
    requires Ranked(g, rank0, layer) && IsLayer(g, q, layer) && Low(g, layer + 1) == Low(g, layer) + Elems(q)
    ensures Ranked(g, rank, layer + 1) && (q != [] ==> q[0] in rank && rank[q[0]] == layer)
  {
    rank := rank0;
    var i := 0;
    while i < |q|
      invariant 0 <= i <= |q| && rank.Keys == Low(g, layer) + Elems(q[..i])
      invariant forall v :: v in rank ==> rank[v] < layer + 1 && Height(g, v, rank[v])
      invariant forall v :: v in rank && v !in rank0 ==> rank[v] == layer
    {
      assert q[..i + 1] == q[..i] + [q[i]] && q[i] in Elems(q);
      rank := rank[q[i] := layer];
      i := i + 1;
    }
    assert q[..i] == q;
    if q != [] { FirstIsUsed(g, rank0, rank, q, layer); }
  }

  lemma FirstIsUsed(g: Graph, rank0: map<Node, nat>, rank: map<Node, nat>, q: seq<Node>, layer: nat)
    requires IsLayer(g, q, layer) && q != [] && rank0.Keys == Low(g, layer) && rank.Keys == Low(g, layer) + Elems(q)
    requires forall v :: v in rank && v !in rank0 ==> rank[v] == layer
    ensures q[0] in rank && rank[q[0]] == layer
  {
    assert q[0] in Elems(q) && q[0] !in Low(g, layer);
  }
}
