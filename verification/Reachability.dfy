/** Reachability over a finite edge relation. */
module Reachability {
  import opened Graphs

  type Relation = set<(Node, Node)>

  ghost predicate Chain(r: Relation, w: seq<Node>)
  {
    forall i :: 0 < i < |w| ==> (w[i - 1], w[i]) in r
  }

  /** A path of at least one edge. */
  ghost predicate Path(r: Relation, a: Node, b: Node, w: seq<Node>)
  {
    |w| >= 2 && w[0] == a && w[|w| - 1] == b && Chain(r, w)
  }

  ghost predicate Reaches(r: Relation, a: Node, b: Node)
  {
    exists w :: Path(r, a, b, w)
  }

  lemma ReachesByEdge(r: Relation, a: Node, b: Node)
    requires (a, b) in r
    ensures Reaches(r, a, b)
  {
    assert Path(r, a, b, [a, b]);
  }

  lemma ReachesOnward(r: Relation, a: Node, b: Node, c: Node)
    requires Reaches(r, a, b) && (b, c) in r
    ensures Reaches(r, a, c)
  {
    var w :| Path(r, a, b, w);
    assert Path(r, a, c, w + [c]);
  }

  lemma ReachesMore(r: Relation, q: Relation, a: Node, b: Node)
    requires r <= q && Reaches(r, a, b)
    ensures Reaches(q, a, b)
  {
    var w :| Path(r, a, b, w);
    assert Path(q, a, b, w);
  }

  /** Every edge out of `from` and out of `s` ends in `s`. */
  ghost predicate Closed(r: Relation, from: Node, s: set<Node>)
  {
    forall a, b :: (a, b) in r && (a == from || a in s) ==> b in s
  }

  lemma {:induction false} ClosedHoldsPath(r: Relation, from: Node, s: set<Node>, w: seq<Node>, i: nat)
    requires Closed(r, from, s) && Chain(r, w) && 0 < i < |w| && w[0] == from
    ensures w[i] in s
  {
    assert (w[i - 1], w[i]) in r;
    if i > 1 { ClosedHoldsPath(r, from, s, w, i - 1); }
  }

  /** If `q` holds every `r`-edge out of `from` and of what `from` reaches, it reaches the same nodes. */
  lemma {:induction false} SameReach(q: Relation, r: Relation, from: Node, b: Node)
    requires q <= r && forall x, y :: (x, y) in r && (x == from || Reaches(r, from, x)) ==> (x, y) in q
    ensures Reaches(q, from, b) <==> Reaches(r, from, b)
  {
    if Reaches(q, from, b) { ReachesMore(q, r, from, b); }
    if Reaches(r, from, b) {
      var w :| Path(r, from, b, w);
      forall i | 0 < i < |w| ensures (w[i - 1], w[i]) in q {
        if i > 1 {
          assert Path(r, from, w[i - 1], w[..i]);
        }
      }
      assert Path(q, from, b, w);
    }
  }

  function Reverse(r: Relation): Relation
  {
    set e | e in r :: (e.1, e.0)
  }

  lemma {:induction false} ReverseReaches(r: Relation, a: Node, b: Node)
    requires Reaches(r, a, b)
    ensures Reaches(Reverse(r), b, a)
  {
    var w :| Path(r, a, b, w);
    var v := seq(|w|, i requires 0 <= i < |w| => w[|w| - 1 - i]);
    forall i | 0 < i < |v| ensures (v[i - 1], v[i]) in Reverse(r) {
      assert (w[|w| - i - 1], w[|w| - i]) in r;
    }
    assert Path(Reverse(r), b, a, v);
  }
}
