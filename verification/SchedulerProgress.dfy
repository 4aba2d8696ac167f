/** When the scheduler has something to pick, and what working its queues off visits. */
module SchedulerProgress {
  import opened Lex
  import opened Results
  import opened Sorting
  import opened Statuses
  import opened Graphs
  import opened Scheduler
  import opened GateLoading

  // ------------------------------------------------------ open tickets

  /** What the ticket with this id depends on. */
  function TargetNodes(tickets: seq<Ticket>, deps: seq<Dep>, id: Text): (out: seq<Node>)
    ensures forall n :: n in out <==>
              exists d, t :: d in deps && t in tickets && t.path == d.fromPath && t.id == id && Node(d.toID) == n
  {
    if deps == [] then []
    else
      var rest := TargetNodes(tickets, deps[1..], id);
      if exists t :: t in tickets && t.path == deps[0].fromPath && t.id == id then [Node(deps[0].toID)] + rest else rest
  }

  /** The depends graph among those tickets of some scopes that are not yet terminal. */
  function OpenGraph(schemas: Schemas, db: Db, scopes: set<Text>): Graph
  {
    var open := set t | t in db.tickets && t.scope in scopes && !Terminal(schemas, t) :: Node(t.id);
    Graph(open, map n | n in open :: TargetNodes(db.tickets, db.deps, n.id))
  }

  ghost predicate DependsOn(db: Db, t: Ticket, x: Text)
  {
    exists d :: d in db.deps && d.fromPath == t.path && d.toID == x
  }

  ghost predicate Open(schemas: Schemas, db: Db, id: Text)
  {
    exists t :: t in db.tickets && t.id == id && !Terminal(schemas, t)
  }

  ghost predicate OpenIn(schemas: Schemas, db: Db, scopes: set<Text>, t: Ticket)
  {
    t in db.tickets && t.scope in scopes && !Terminal(schemas, t)
  }

  /** An open ticket that `t` depends on. */
  ghost predicate Waits(schemas: Schemas, db: Db, t: Ticket, x: Text)
  {
    DependsOn(db, t, x) && Open(schemas, db, x)
  }

  /** What the index keeps: one row for a path, ids that carry their scope, and edges tagged with theirs. */
  ghost predicate Indexed(db: Db)
  {
    && (forall i, j :: 0 <= i < j < |db.tickets| ==> db.tickets[i].path != db.tickets[j].path)
    && PrefixIsScope(db)
    && EdgesTagged(db)
  }

  /** An open ticket is a plain todo with an id of its own, and every ticket it depends on has a row. */
  ghost predicate Plain(schemas: Schemas, db: Db, t: Ticket)
  {
    && IsNextEligible(t.status) && !t.archived && !t.parseError && !t.schemaError
    && (forall u :: u in db.tickets && u.id == t.id ==> u == t)
    && (forall x :: DependsOn(db, t, x) ==> exists u :: u in db.tickets && u.id == x)
  }

  /** The open tickets of these scopes are plain and do not depend on one another in a circle. Nothing is asked of
      other scopes. */
  ghost predicate Workable(schemas: Schemas, db: Db, scopes: set<Text>)
  {
    && Indexed(db)
    && (forall t {:trigger Plain(schemas, db, t)} :: OpenIn(schemas, db, scopes, t) ==> Plain(schemas, db, t))
    && Acyclic(OpenGraph(schemas, db, scopes))
  }

  /** The scheduler's candidates: the plain todos of one scope. */
  ghost predicate IsQueue(db: Db, scope: Text, queue: seq<Ticket>)
  {
    forall t :: t in queue <==>
      t in db.tickets && t.scope == scope && IsNextEligible(t.status) && !t.archived && !t.parseError
  }

  lemma NotDuplicated(db: Db, t: Ticket)
    requires Indexed(db) && forall u :: u in db.tickets && u.id == t.id ==> u == t
    ensures !Duplicated(db.tickets, t.scope, t.id)
  {
    forall i, j | 0 <= i < j < |db.tickets| ensures !(db.tickets[i].id == t.id && db.tickets[j].id == t.id) {
      assert db.tickets[i] in db.tickets && db.tickets[j] in db.tickets && db.tickets[i].path != db.tickets[j].path;
    }
  }

  // ------------------------------------------------------ what makes a ticket ready

  /** Every scope there is. */
  function ScopesOf(db: Db): (all: set<Text>)
    ensures AllScopes(db, all)
  {
    (set t | t in db.tickets :: t.scope) + (set d | d in db.deps :: d.fromScope)
  }

  lemma FullGateTargets(db: Db, g: Gate, t: Ticket, x: Text)
    requires IsLoaded(db, ScopesOf(db), g)
    ensures x in DependsIn(g, t.path) <==> DependsOn(db, t, x)
    ensures forall u :: u in RowsIn(g, x) <==> u in db.tickets && u.id == x
  {
    var all := ScopesOf(db);
    if DependsOn(db, t, x) {
      var d :| d in db.deps && d.fromPath == t.path && d.toID == x;
      assert d in DepsFrom(db.deps, all);
      assert Names(DepsFrom(db.deps, all), t.path, x);
    }
  }

  lemma UnmetIsWaiting(schemas: Schemas, db: Db, g: Gate, t: Ticket, x: Text)
    requires IsLoaded(db, ScopesOf(db), g) && Plain(schemas, db, t)
    ensures Unmet(schemas, g, t, x) <==> Waits(schemas, db, t, x)
  {
    FullGateTargets(db, g, t, x);
    if DependsOn(db, t, x) {
      var u :| u in db.tickets && u.id == x;
      assert u in RowsIn(g, x);
      if AllTerminal(schemas, RowsIn(g, x)) {
        forall v | v in db.tickets && v.id == x ensures Terminal(schemas, v) { assert v in RowsIn(g, x); }
      } else {
        var k :| 0 <= k < |RowsIn(g, x)| && !Terminal(schemas, RowsIn(g, x)[k]);
        assert RowsIn(g, x)[k] in RowsIn(g, x);
      }
    }
  }

  /** Under a gate loaded for its scope, a plain ticket is ready exactly when nothing it depends on is open, in any
      scope. */
  lemma ReadyExactly(schemas: Schemas, db: Db, home: set<Text>, g: Gate, t: Ticket)
    requires Indexed(db) && IsLoaded(db, home, g) && t in db.tickets && t.scope in home && Plain(schemas, db, t)
    ensures Ready(schemas, g, t) <==> forall x :: !Waits(schemas, db, t, x)
  {
    var all := ScopesOf(db);
    var full := GateOf(db, all);
    GateOfIsLoaded(db, all);
    HomeGateIsEnough(schemas, db, home, all, g, full, t);
    ReadyIsUnmet(schemas, full, t);
    NotDuplicated(db, t);
    forall x ensures Unmet(schemas, full, t, x) <==> Waits(schemas, db, t, x) {
      UnmetIsWaiting(schemas, db, full, t, x);
    }
  }

  // ------------------------------------------------------ what holds a scope up

  /** An open ticket outside these scopes on which `t` depends. */
  ghost predicate WaitsOutside(schemas: Schemas, db: Db, scopes: set<Text>, t: Ticket, x: Text)
  {
    Waits(schemas, db, t, x) && ScopeOf(x) !in scopes
  }

  /** A chain of open tickets of these scopes leads from `id` to one that waits for a ticket outside. */
  ghost predicate HeldOutside(schemas: Schemas, db: Db, scopes: set<Text>, id: Text)
  {
    exists w, t, x :: HoldingChain(schemas, db, scopes, id, w, t, x)
  }

  ghost predicate HoldingChain(schemas: Schemas, db: Db, scopes: set<Text>, id: Text, w: seq<Node>, t: Ticket, x: Text)
  {
    && Walk(OpenGraph(schemas, db, scopes), w) && w[0] == Node(id) && w[|w| - 1] == Node(t.id)
    && OpenIn(schemas, db, scopes, t) && WaitsOutside(schemas, db, scopes, t, x)
  }

  lemma OpenEdge(schemas: Schemas, db: Db, scopes: set<Text>, t: Ticket, x: Text)
    requires PrefixIsScope(db) && OpenIn(schemas, db, scopes, t) && Waits(schemas, db, t, x) && ScopeOf(x) in scopes
    ensures Edge(OpenGraph(schemas, db, scopes), Node(t.id), Node(x))
  {
    var d :| d in db.deps && d.fromPath == t.path && d.toID == x;
    var u :| u in db.tickets && u.id == x && !Terminal(schemas, u);
    assert ScopeOf(u.id) == u.scope;
    assert Node(x) in TargetNodes(db.tickets, db.deps, Node(t.id).id);
  }

  lemma EdgeWaits(schemas: Schemas, db: Db, scopes: set<Text>, t: Ticket, b: Node)
    requires Workable(schemas, db, scopes) && OpenIn(schemas, db, scopes, t)
    requires Edge(OpenGraph(schemas, db, scopes), Node(t.id), b)
    ensures Waits(schemas, db, t, b.id)
  {
    assert Plain(schemas, db, t);
    var d, u :| d in db.deps && u in db.tickets && u.path == d.fromPath && u.id == t.id && Node(d.toID) == b;
    assert u == t && DependsOn(db, t, b.id);
    var v :| v in db.tickets && v.scope in scopes && !Terminal(schemas, v) && Node(v.id) == b;
  }

  /** An open ticket from which no chain leads outside leads to one that waits for nothing. */
  lemma ChainEnds(schemas: Schemas, db: Db, scopes: set<Text>, t: Ticket) returns (u: Ticket)
    requires Workable(schemas, db, scopes) && OpenIn(schemas, db, scopes, t)
    ensures OpenIn(schemas, db, scopes, u)
    ensures (forall x :: !Waits(schemas, db, u, x)) || HeldOutside(schemas, db, scopes, t.id)
    ensures forall x :: Waits(schemas, db, u, x) ==> ScopeOf(x) !in scopes
  {
    var open := OpenGraph(schemas, db, scopes);
    assert Node(t.id) in open.nodes;
    var w := WalkToSink(open, Node(t.id));
    InNodes(open, w, |w| - 1);
    u :| u in db.tickets && u.scope in scopes && !Terminal(schemas, u) && Node(u.id) == w[|w| - 1];
    forall x | Waits(schemas, db, u, x) ensures ScopeOf(x) !in scopes {
      if ScopeOf(x) in scopes { OpenEdge(schemas, db, scopes, u, x); }
    }
    if x :| Waits(schemas, db, u, x) {
      assert HoldingChain(schemas, db, scopes, t.id, w, u, x);
    }
  }

  /** A ticket that waits for nothing is not held. */
  lemma FreeIsNotHeld(schemas: Schemas, db: Db, scopes: set<Text>, t: Ticket)
    requires Workable(schemas, db, scopes) && OpenIn(schemas, db, scopes, t) && forall x :: !Waits(schemas, db, t, x)
    ensures !HeldOutside(schemas, db, scopes, t.id)
  {
    forall w, u, x ensures !HoldingChain(schemas, db, scopes, t.id, w, u, x) {
      if HoldingChain(schemas, db, scopes, t.id, w, u, x) {
        assert Plain(schemas, db, t);
        if |w| > 1 {
          assert Edge(OpenGraph(schemas, db, scopes), w[1 - 1], w[1]);
          EdgeWaits(schemas, db, scopes, t, w[1]);
        }
      }
    }
  }

  // ------------------------------------------------------ when there is a pick

  /** An open ticket of the scope with no open target in the scope itself. */
  ghost predicate IsTip(schemas: Schemas, db: Db, scope: Text, t: Ticket)
  {
    OpenIn(schemas, db, {scope}, t) && forall x :: Waits(schemas, db, t, x) ==> ScopeOf(x) != scope
  }

  lemma QueueIsOpen(schemas: Schemas, db: Db, scope: Text, queue: seq<Ticket>, t: Ticket)
    requires Workable(schemas, db, {scope}) && IsQueue(db, scope, queue)
    ensures t in queue <==> OpenIn(schemas, db, {scope}, t)
  {
    TodoIsNotTerminal(schemas(scope));
    if OpenIn(schemas, db, {scope}, t) { assert Plain(schemas, db, t); }
  }

  lemma PickIsFree(
    schemas: Schemas, db: Db, home: set<Text>, g: Gate, scope: Text, queue: seq<Ticket>, pick: Option<Ticket>)
    requires Workable(schemas, db, {scope}) && IsLoaded(db, home, g) && scope in home && IsQueue(db, scope, queue)
    requires IsPick(schemas, g, queue, [], pick)
    ensures pick.Some? ==> OpenIn(schemas, db, {scope}, pick.value) && forall x :: !Waits(schemas, db, pick.value, x)
    ensures pick.None? ==> forall t :: OpenIn(schemas, db, {scope}, t) ==> exists x :: Waits(schemas, db, t, x)
  {
    if pick.Some? {
      QueueIsOpen(schemas, db, scope, queue, pick.value);
      assert Plain(schemas, db, pick.value);
      ReadyExactly(schemas, db, home, g, pick.value);
    } else {
      forall t | OpenIn(schemas, db, {scope}, t) ensures exists x :: Waits(schemas, db, t, x) {
        QueueIsOpen(schemas, db, scope, queue, t);
        assert Plain(schemas, db, t) && PassesLens(t, []);
        ReadyExactly(schemas, db, home, g, t);
      }
    }
  }

  lemma NoPickMeansHeld(
    schemas: Schemas, db: Db, home: set<Text>, g: Gate, scope: Text, queue: seq<Ticket>, pick: Option<Ticket>)
    requires Workable(schemas, db, {scope}) && IsLoaded(db, home, g) && scope in home && IsQueue(db, scope, queue)
    requires IsPick(schemas, g, queue, [], pick)
    ensures pick.None? <==> forall t :: OpenIn(schemas, db, {scope}, t) ==> HeldOutside(schemas, db, {scope}, t.id)
  {
    PickIsFree(schemas, db, home, g, scope, queue, pick);
    if pick.Some? {
      FreeIsNotHeld(schemas, db, {scope}, pick.value);
    } else {
      forall t | OpenIn(schemas, db, {scope}, t) ensures HeldOutside(schemas, db, {scope}, t.id) {
        var u := ChainEnds(schemas, db, {scope}, t);
      }
    }
  }

  lemma QueueHasTip(schemas: Schemas, db: Db, scope: Text, queue: seq<Ticket>) returns (t: Ticket)
    requires Workable(schemas, db, {scope}) && IsQueue(db, scope, queue) && queue != []
    ensures IsTip(schemas, db, scope, t)
  {
    assert queue[0] in queue;
    QueueIsOpen(schemas, db, scope, queue, queue[0]);
    t := ChainEnds(schemas, db, {scope}, queue[0]);
  }

  /** A tip that waits for nothing elsewhere. */
  ghost predicate IsFreeTip(schemas: Schemas, db: Db, scope: Text, t: Ticket)
  {
    IsTip(schemas, db, scope, t) && forall x :: !WaitsOutside(schemas, db, {scope}, t, x)
  }

  lemma FreeTip(schemas: Schemas, db: Db, scope: Text, t: Ticket)
    ensures IsFreeTip(schemas, db, scope, t) <==>
              OpenIn(schemas, db, {scope}, t) && forall x :: !Waits(schemas, db, t, x)
  {
    if IsFreeTip(schemas, db, scope, t) {
      forall x ensures !Waits(schemas, db, t, x) { assert !WaitsOutside(schemas, db, {scope}, t, x); }
    }
  }

  /** Progress of one scope's queue, without a lens. There is no pick exactly when every open ticket of the scope is
      held, through open tickets of the scope, by an open ticket of another scope; it is enough to look at the tips, and
      a non-empty queue has one. */
  lemma PickExistsExactly(
    schemas: Schemas, db: Db, home: set<Text>, g: Gate, scope: Text, queue: seq<Ticket>, pick: Option<Ticket>)
    requires Workable(schemas, db, {scope}) && IsLoaded(db, home, g) && scope in home && IsQueue(db, scope, queue)
    requires IsPick(schemas, g, queue, [], pick)
    ensures pick.None? <==> forall t :: OpenIn(schemas, db, {scope}, t) ==> HeldOutside(schemas, db, {scope}, t.id)
    ensures pick.Some? <==> exists t :: IsFreeTip(schemas, db, scope, t)
    ensures queue != [] ==> exists t :: IsTip(schemas, db, scope, t)
  {
    NoPickMeansHeld(schemas, db, home, g, scope, queue, pick);
    PickIsFree(schemas, db, home, g, scope, queue, pick);
    if pick.Some? { FreeTip(schemas, db, scope, pick.value); }
    if t :| IsFreeTip(schemas, db, scope, t) { FreeTip(schemas, db, scope, t); }
    if queue != [] { var t := QueueHasTip(schemas, db, scope, queue); }
  }

  // ------------------------------------------------------ working the queues off

  const DONE: Text := Bytes("done")

  function Finished(t: Ticket, id: Text): Ticket
  {
    if t.id == id then t.(status := DONE) else t
  }

  /** The picked ticket is marked done; nothing else changes. */
  function Finish(db: Db, id: Text): (after: Db)
    ensures |after.tickets| == |db.tickets| && after.deps == db.deps
    ensures forall i :: 0 <= i < |db.tickets| ==> after.tickets[i] == Finished(db.tickets[i], id)
  {
    Db(seq(|db.tickets|, i requires 0 <= i < |db.tickets| => Finished(db.tickets[i], id)), db.deps)
  }

  lemma FinishedTickets(db: Db, id: Text)
    ensures forall t :: t in db.tickets ==> Finished(t, id) in Finish(db, id).tickets
    ensures forall u :: u in Finish(db, id).tickets ==> exists t :: t in db.tickets && u == Finished(t, id)
  {
    var after := Finish(db, id);
    forall t | t in db.tickets ensures Finished(t, id) in after.tickets {
      var i :| 0 <= i < |db.tickets| && db.tickets[i] == t;
      assert after.tickets[i] == Finished(t, id);
    }
    forall u | u in after.tickets ensures exists t :: t in db.tickets && u == Finished(t, id) {
      var i :| 0 <= i < |after.tickets| && after.tickets[i] == u;
      assert db.tickets[i] in db.tickets;
    }
  }

  lemma FinishedIsTerminal(schemas: Schemas, t: Ticket, id: Text)
    ensures Terminal(schemas, Finished(t, id)) <==> t.id == id || Terminal(schemas, t)
  {
    DoneIsTerminal(schemas(t.scope));
  }

  /** The ticket whose row after finishing `id` is `u`. */
  lemma Before(schemas: Schemas, db: Db, id: Text, u: Ticket) returns (t: Ticket)
    requires u in Finish(db, id).tickets
    ensures t in db.tickets && u == Finished(t, id) && (!Terminal(schemas, u) ==> t == u && u.id != id)
  {
    FinishedTickets(db, id);
    t :| t in db.tickets && u == Finished(t, id);
    FinishedIsTerminal(schemas, t, id);
  }

  lemma OpenInAfter(schemas: Schemas, db: Db, scopes: set<Text>, id: Text, t: Ticket)
    ensures OpenIn(schemas, Finish(db, id), scopes, t) <==> t.id != id && OpenIn(schemas, db, scopes, t)
  {
    if OpenIn(schemas, Finish(db, id), scopes, t) { var u := Before(schemas, db, id, t); }
    if t.id != id && OpenIn(schemas, db, scopes, t) { FinishedTickets(db, id); }
  }

  lemma OpenAfter(schemas: Schemas, db: Db, id: Text, x: Text)
    ensures Open(schemas, Finish(db, id), x) <==> x != id && Open(schemas, db, x)
  {
    if Open(schemas, Finish(db, id), x) {
      var u :| u in Finish(db, id).tickets && u.id == x && !Terminal(schemas, u);
      var t := Before(schemas, db, id, u);
    }
    if x != id && Open(schemas, db, x) {
      var t :| t in db.tickets && t.id == x && !Terminal(schemas, t);
      FinishedTickets(db, id);
    }
  }

  lemma NodeAfter(schemas: Schemas, db: Db, scopes: set<Text>, id: Text, n: Node)
    ensures n in OpenGraph(schemas, Finish(db, id), scopes).nodes <==>
              n in OpenGraph(schemas, db, scopes).nodes && n.id != id
  {
    if n in OpenGraph(schemas, Finish(db, id), scopes).nodes {
      var u :| OpenIn(schemas, Finish(db, id), scopes, u) && Node(u.id) == n;
      OpenInAfter(schemas, db, scopes, id, u);
    }
    if n in OpenGraph(schemas, db, scopes).nodes && n.id != id {
      var u :| OpenIn(schemas, db, scopes, u) && Node(u.id) == n;
      OpenInAfter(schemas, db, scopes, id, u);
    }
  }

  lemma TargetsAfter(db: Db, id: Text, n: Text, x: Node)
    ensures x in TargetNodes(Finish(db, id).tickets, db.deps, n) <==> x in TargetNodes(db.tickets, db.deps, n)
  {
    var after := Finish(db, id);
    FinishedTickets(db, id);
    if x in TargetNodes(after.tickets, db.deps, n) {
      var d, u :| d in db.deps && u in after.tickets && u.path == d.fromPath && u.id == n && Node(d.toID) == x;
      var t :| t in db.tickets && u == Finished(t, id);
    }
    if x in TargetNodes(db.tickets, db.deps, n) {
      var d, t :| d in db.deps && t in db.tickets && t.path == d.fromPath && t.id == n && Node(d.toID) == x;
      assert Finished(t, id) in after.tickets;
    }
  }

  /** Finishing a ticket takes its node out of the graph and leaves the other edges. */
  lemma EdgeAfter(schemas: Schemas, db: Db, scopes: set<Text>, id: Text, a: Node, b: Node)
    ensures Edge(OpenGraph(schemas, Finish(db, id), scopes), a, b) <==>
            Edge(OpenGraph(schemas, db, scopes), a, b) && a.id != id && b.id != id
  {
    NodeAfter(schemas, db, scopes, id, a);
    NodeAfter(schemas, db, scopes, id, b);
    TargetsAfter(db, id, a.id, b);
  }

  lemma WalkAfter(schemas: Schemas, db: Db, scopes: set<Text>, id: Text, w: seq<Node>)
    ensures Walk(OpenGraph(schemas, Finish(db, id), scopes), w) <==>
            Walk(OpenGraph(schemas, db, scopes), w) && forall i :: 0 <= i < |w| ==> w[i].id != id
  {
    var (g, h) := (OpenGraph(schemas, db, scopes), OpenGraph(schemas, Finish(db, id), scopes));
    forall n ensures n in h.nodes <==> n in g.nodes && n.id != id { NodeAfter(schemas, db, scopes, id, n); }
    forall a, b ensures Edge(h, a, b) <==> Edge(g, a, b) && a.id != id && b.id != id {
      EdgeAfter(schemas, db, scopes, id, a, b);
    }
    if Walk(h, w) {
      forall i | 0 <= i < |w| ensures w[i].id != id { InNodes(h, w, i); }
    }
  }

  lemma AcyclicAfter(schemas: Schemas, db: Db, scopes: set<Text>, id: Text)
    requires Acyclic(OpenGraph(schemas, db, scopes))
    ensures Acyclic(OpenGraph(schemas, Finish(db, id), scopes))
  {
    var (g, h) := (OpenGraph(schemas, db, scopes), OpenGraph(schemas, Finish(db, id), scopes));
    forall v | v in h.nodes ensures !ReachesCycle(h, v) {
      NodeAfter(schemas, db, scopes, id, v);
      forall w: seq<Node>, i, j | Walk(h, w) && w[0] == v && 0 <= i < j < |w| ensures w[i] != w[j] {
        WalkAfter(schemas, db, scopes, id, w);
        assert !ReachesCycle(g, v);
      }
    }
  }

  lemma IndexedAfter(db: Db, id: Text)
    requires Indexed(db)
    ensures Indexed(Finish(db, id))
  {
    FinishedTickets(db, id);
  }

  lemma PlainAfter(schemas: Schemas, db: Db, id: Text, t: Ticket)
    requires Plain(schemas, db, t) && t.id != id
    ensures Plain(schemas, Finish(db, id), t)
  {
    var after := Finish(db, id);
    FinishedTickets(db, id);
    forall u | u in after.tickets && u.id == t.id ensures u == t {
      var v :| v in db.tickets && u == Finished(v, id);
    }
    forall x | DependsOn(after, t, x) ensures exists u :: u in after.tickets && u.id == x {
      assert DependsOn(db, t, x);
      var u :| u in db.tickets && u.id == x;
      assert Finished(u, id) in after.tickets;
    }
  }

  /** Finishing a ticket keeps the scopes workable. */
  lemma FinishKeepsWorkable(schemas: Schemas, db: Db, scopes: set<Text>, id: Text)
    requires Workable(schemas, db, scopes)
    ensures Workable(schemas, Finish(db, id), scopes)
  {
    IndexedAfter(db, id);
    AcyclicAfter(schemas, db, scopes, id);
    forall t | OpenIn(schemas, Finish(db, id), scopes, t) ensures Plain(schemas, Finish(db, id), t) {
      OpenInAfter(schemas, db, scopes, id, t);
      assert Plain(schemas, db, t);
      PlainAfter(schemas, db, id, t);
    }
  }

  lemma WaitsAfter(schemas: Schemas, db: Db, id: Text, t: Ticket, x: Text)
    ensures Waits(schemas, Finish(db, id), t, x) <==> Waits(schemas, db, t, x) && x != id
  {
    OpenAfter(schemas, db, id, x);
    assert DependsOn(Finish(db, id), t, x) <==> DependsOn(db, t, x);
  }

  /** A chain to the outside never passes through a ticket that waits for nothing. */
  lemma ChainAvoids(
    schemas: Schemas, db: Db, scopes: set<Text>, p: Ticket, y: Text, w: seq<Node>, t: Ticket, x: Text, i: nat)
    requires Workable(schemas, db, scopes) && OpenIn(schemas, db, scopes, p) && forall z :: !Waits(schemas, db, p, z)
    requires HoldingChain(schemas, db, scopes, y, w, t, x) && i < |w|
    ensures w[i].id != p.id
  {
    assert Plain(schemas, db, p);
    if w[i].id == p.id {
      if i + 1 < |w| {
        assert Edge(OpenGraph(schemas, db, scopes), w[i + 1 - 1], w[i + 1]);
        EdgeWaits(schemas, db, scopes, p, w[i + 1]);
      }
    }
  }

  /** Finishing a ticket that waits for nothing neither frees nor holds any other. */
  lemma HeldAfter(schemas: Schemas, db: Db, scopes: set<Text>, p: Ticket, y: Text)
    requires Workable(schemas, db, scopes) && OpenIn(schemas, db, scopes, p) && forall z :: !Waits(schemas, db, p, z)
    ensures HeldOutside(schemas, Finish(db, p.id), scopes, y) <==> HeldOutside(schemas, db, scopes, y)
  {
    var after := Finish(db, p.id);
    if w: seq<Node>, t: Ticket, x: Text :| HoldingChain(schemas, db, scopes, y, w, t, x) {
      forall i | 0 <= i < |w| ensures w[i].id != p.id { ChainAvoids(schemas, db, scopes, p, y, w, t, x, i); }
      WalkAfter(schemas, db, scopes, p.id, w);
      OpenInAfter(schemas, db, scopes, p.id, t);
      assert ScopeOf(p.id) == p.scope;
      WaitsAfter(schemas, db, p.id, t, x);
      assert HoldingChain(schemas, after, scopes, y, w, t, x);
    }
    if w: seq<Node>, t: Ticket, x: Text :| HoldingChain(schemas, after, scopes, y, w, t, x) {
      WalkAfter(schemas, db, scopes, p.id, w);
      OpenInAfter(schemas, db, scopes, p.id, t);
      WaitsAfter(schemas, db, p.id, t, x);
      assert HoldingChain(schemas, db, scopes, y, w, t, x);
    }
  }

  // ------------------------------------------------------ picks

  /** The scheduler picks this ticket from one scope's queue, without a lens, under a gate loaded for that scope. */
  ghost predicate Picks(schemas: Schemas, db: Db, scope: Text, p: Ticket)
  {
    exists home, g, queue :: PicksFrom(schemas, db, scope, home, g, queue, p)
  }

  ghost predicate PicksFrom(
    schemas: Schemas, db: Db, scope: Text, home: set<Text>, g: Gate, queue: seq<Ticket>, p: Ticket)
  {
    scope in home && IsLoaded(db, home, g) && IsQueue(db, scope, queue) && IsPick(schemas, g, queue, [], Some(p))
  }

  lemma {:induction false} WorkableLess(schemas: Schemas, db: Db, scopes: set<Text>, scope: Text)
    requires Workable(schemas, db, scopes) && scope in scopes
    ensures Workable(schemas, db, {scope})
  {
    var (g, h) := (OpenGraph(schemas, db, scopes), OpenGraph(schemas, db, {scope}));
    forall v | v in h.nodes ensures !ReachesCycle(h, v) {
      forall w: seq<Node>, i, j | Walk(h, w) && w[0] == v && 0 <= i < j < |w| ensures w[i] != w[j] {
        assert Walk(g, w) by {
          forall k | 0 < k < |w| ensures Edge(g, w[k - 1], w[k]) { assert Edge(h, w[k - 1], w[k]); }
        }
        assert !ReachesCycle(g, v);
      }
    }
    forall t | OpenIn(schemas, db, {scope}, t) ensures Plain(schemas, db, t) { assert OpenIn(schemas, db, scopes, t); }
  }

  lemma PickedIsFree(schemas: Schemas, db: Db, scopes: set<Text>, scope: Text, p: Ticket)
    requires Workable(schemas, db, scopes) && scope in scopes && Picks(schemas, db, scope, p)
    ensures OpenIn(schemas, db, scopes, p) && forall x :: !Waits(schemas, db, p, x)
  {
    WorkableLess(schemas, db, scopes, scope);
    var home, g, queue :| PicksFrom(schemas, db, scope, home, g, queue, p);
    PickIsFree(schemas, db, home, g, scope, queue, Some(p));
  }

  function QueueOf(tickets: seq<Ticket>, scope: Text): (queue: seq<Ticket>)
    ensures forall t :: t in queue <==>
              t in tickets && t.scope == scope && IsNextEligible(t.status) && !t.archived && !t.parseError
  {
    if tickets == [] then []
    else
      var t := tickets[0];
      var mine := t.scope == scope && IsNextEligible(t.status) && !t.archived && !t.parseError;
      (if mine then [t] else []) + QueueOf(tickets[1..], scope)
  }

  lemma {:induction false} FirstExists(
    schemas: Schemas, g: Gate, sorted: seq<Ticket>, lens: seq<Text>) returns (chosen: Option<Ticket>)
    ensures IsFirst(schemas, g, sorted, lens, chosen)
  {
    if sorted == [] {
      chosen := None;
    } else {
      var (front, p) := (sorted[..|sorted| - 1], sorted[|sorted| - 1]);
      var before := FirstExists(schemas, g, front, lens);
      FirstGrows(schemas, g, front, p, lens, before);
      assert sorted == front + [p];
      chosen := if before.None? && Ready(schemas, g, p) && PassesLens(p, lens) then Some(p) else before;
    }
  }

  /** As long as some open ticket of the scope waits for nothing, the scheduler picks one. */
  lemma SomePick(schemas: Schemas, db: Db, scope: Text, t: Ticket) returns (p: Ticket)
    requires Workable(schemas, db, {scope}) && OpenIn(schemas, db, {scope}, t) && forall x :: !Waits(schemas, db, t, x)
    ensures Picks(schemas, db, scope, p)
  {
    var (home, g, queue) := ({scope}, GateOf(db, {scope}), QueueOf(db.tickets, scope));
    GateOfIsLoaded(db, home);
    var chosen := FirstExists(schemas, g, StableSort(queue, TicketLess), []);
    FirstIsPick(schemas, g, queue, [], chosen);
    PickIsFree(schemas, db, home, g, scope, queue, chosen);
    p := chosen.value;
    assert PicksFrom(schemas, db, scope, home, g, queue, p);
  }

  // ------------------------------------------------------ whole runs

  ghost predicate PicksIn(schemas: Schemas, db: Db, scopes: set<Text>, p: Ticket)
  {
    exists scope :: scope in scopes && Picks(schemas, db, scope, p)
  }

  /** Picking from these scopes and finishing, until no queue of theirs yields a pick, picks `order`. */
  ghost predicate WorksOff(schemas: Schemas, db: Db, scopes: set<Text>, order: seq<Text>)
    decreases |order|
  {
    if order == [] then forall p :: !PicksIn(schemas, db, scopes, p)
    else
      && (exists p :: PicksIn(schemas, db, scopes, p) && p.id == order[0])
      && WorksOff(schemas, Finish(db, order[0]), scopes, order[1..])
  }

  /** An open ticket that no open ticket outside holds, directly or through others. */
  ghost predicate Reachable(schemas: Schemas, db: Db, scopes: set<Text>, id: Text)
  {
    (exists t :: OpenIn(schemas, db, scopes, t) && t.id == id) && !HeldOutside(schemas, db, scopes, id)
  }

  /** `x` was not open to begin with, or is finished before position `i`. */
  ghost predicate DoneBy(schemas: Schemas, db: Db, order: seq<Text>, i: nat, x: Text)
    requires i <= |order|
  {
    !Open(schemas, db, x) || x in order[..i]
  }

  lemma ReachableAfter(schemas: Schemas, db: Db, scopes: set<Text>, p: Ticket, y: Text)
    requires Workable(schemas, db, scopes) && OpenIn(schemas, db, scopes, p) && forall z :: !Waits(schemas, db, p, z)
    ensures Reachable(schemas, Finish(db, p.id), scopes, y) <==> y != p.id && Reachable(schemas, db, scopes, y)
    ensures Reachable(schemas, db, scopes, p.id)
  {
    HeldAfter(schemas, db, scopes, p, y);
    FreeIsNotHeld(schemas, db, scopes, p);
    forall t ensures OpenIn(schemas, Finish(db, p.id), scopes, t) <==> t.id != p.id && OpenIn(schemas, db, scopes, t) {
      OpenInAfter(schemas, db, scopes, p.id, t);
    }
  }

  lemma NothingReachableAtRest(schemas: Schemas, db: Db, scopes: set<Text>, y: Text)
    requires Workable(schemas, db, scopes) && forall p :: !PicksIn(schemas, db, scopes, p)
    ensures !Reachable(schemas, db, scopes, y)
  {
    if t :| OpenIn(schemas, db, scopes, t) && t.id == y {
      var u := ChainEnds(schemas, db, scopes, t);
      if forall x :: !Waits(schemas, db, u, x) {
        WorkableLess(schemas, db, scopes, u.scope);
        var p := SomePick(schemas, db, u.scope, u);
        assert PicksIn(schemas, db, scopes, p);
      }
    }
  }

  /** The first ticket picked waits for nothing, and the rest of the order works the scopes off once it is finished. */
  lemma FirstPick(schemas: Schemas, db: Db, scopes: set<Text>, order: seq<Text>) returns (p: Ticket)
    requires Workable(schemas, db, scopes) && WorksOff(schemas, db, scopes, order) && order != []
    ensures p.id == order[0] && OpenIn(schemas, db, scopes, p) && Plain(schemas, db, p)
    ensures forall z :: !Waits(schemas, db, p, z)
    ensures Workable(schemas, Finish(db, p.id), scopes) && WorksOff(schemas, Finish(db, p.id), scopes, order[1..])
  {
    p :| PicksIn(schemas, db, scopes, p) && p.id == order[0];
    var scope :| scope in scopes && Picks(schemas, db, scope, p);
    PickedIsFree(schemas, db, scopes, scope, p);
    FinishKeepsWorkable(schemas, db, scopes, p.id);
  }

  /** The order lists these ids, once each. */
  ghost predicate ListsOnce(order: seq<Text>, ids: iset<Text>)
  {
    NoRepeats(order) && forall y :: y in order <==> y in ids
  }

  ghost function ReachableIDs(schemas: Schemas, db: Db, scopes: set<Text>): iset<Text>
  {
    iset y | Reachable(schemas, db, scopes, y)
  }

  lemma ReachableIDsAfter(schemas: Schemas, db: Db, scopes: set<Text>, p: Ticket)
    requires Workable(schemas, db, scopes) && OpenIn(schemas, db, scopes, p) && forall z :: !Waits(schemas, db, p, z)
    ensures p.id in ReachableIDs(schemas, db, scopes)
    ensures ReachableIDs(schemas, Finish(db, p.id), scopes) == ReachableIDs(schemas, db, scopes) - iset{p.id}
  {
    var (before, after) := (ReachableIDs(schemas, db, scopes), ReachableIDs(schemas, Finish(db, p.id), scopes));
    ReachableIDAfter(schemas, db, scopes, p, p.id);
    forall y ensures y in after <==> y in before - iset{p.id} { ReachableIDAfter(schemas, db, scopes, p, y); }
  }

  lemma ReachableIDAfter(schemas: Schemas, db: Db, scopes: set<Text>, p: Ticket, y: Text)
    requires Workable(schemas, db, scopes) && OpenIn(schemas, db, scopes, p) && forall z :: !Waits(schemas, db, p, z)
    ensures p.id in ReachableIDs(schemas, db, scopes)
    ensures y in ReachableIDs(schemas, Finish(db, p.id), scopes) <==>
              y in ReachableIDs(schemas, db, scopes) && y != p.id
  {
    ReachableAfter(schemas, db, scopes, p, y);
  }

  lemma ListsOneMore(id: Text, rest: seq<Text>, before: iset<Text>, after: iset<Text>)
    requires ListsOnce(rest, after) && id in before && after == before - iset{id}
    ensures ListsOnce([id] + rest, before)
  {
    var order := [id] + rest;
    forall i, j | 0 <= i < j < |order| ensures order[i] != order[j] {
      assert order[j] == rest[j - 1] && rest[j - 1] in rest;
      if i > 0 { assert order[i] == rest[i - 1]; }
    }
  }

  lemma NothingListedAtRest(schemas: Schemas, db: Db, scopes: set<Text>)
    requires Workable(schemas, db, scopes) && forall p :: !PicksIn(schemas, db, scopes, p)
    ensures ListsOnce([], ReachableIDs(schemas, db, scopes))
  {
    forall y ensures y !in ReachableIDs(schemas, db, scopes) { NothingReachableAtRest(schemas, db, scopes, y); }
  }

  lemma NextBoard(schemas: Schemas, db: Db, scopes: set<Text>, order: seq<Text>, next: Db, rest: seq<Text>)
    requires Workable(schemas, db, scopes) && WorksOff(schemas, db, scopes, order) && order != []
    requires next == Finish(db, order[0]) && rest == order[1..]
    ensures Workable(schemas, next, scopes) && WorksOff(schemas, next, scopes, rest)
  {
    var p := FirstPick(schemas, db, scopes, order);
  }

  lemma FirstLists(schemas: Schemas, db: Db, scopes: set<Text>, order: seq<Text>, next: Db, rest: seq<Text>)
    requires Workable(schemas, db, scopes) && WorksOff(schemas, db, scopes, order) && order != []
    requires next == Finish(db, order[0]) && rest == order[1..]
    requires ListsOnce(rest, ReachableIDs(schemas, next, scopes))
    ensures ListsOnce(order, ReachableIDs(schemas, db, scopes))
  {
    var p := FirstPick(schemas, db, scopes, order);
    ReachableIDsAfter(schemas, db, scopes, p);
    ListsOneMore(p.id, rest, ReachableIDs(schemas, db, scopes), ReachableIDs(schemas, next, scopes));
    assert order == [p.id] + rest;
  }

  lemma {:induction false} VisitedOnce(schemas: Schemas, db: Db, scopes: set<Text>, order: seq<Text>)
    requires Workable(schemas, db, scopes) && WorksOff(schemas, db, scopes, order)
    ensures ListsOnce(order, ReachableIDs(schemas, db, scopes))
    decreases |order|
  {
    if order == [] {
      NothingListedAtRest(schemas, db, scopes);
    } else {
      var (next, rest) := (Finish(db, order[0]), order[1..]);
      NextBoard(schemas, db, scopes, order, next, rest);
      VisitedOnce(schemas, next, scopes, rest);
      FirstLists(schemas, db, scopes, order, next, rest);
    }
  }

  /** A ticket with this id depends on `x`. */
  ghost predicate NeedsID(db: Db, id: Text, x: Text)
  {
    exists t :: t in db.tickets && t.id == id && DependsOn(db, t, x)
  }

  lemma NeedsAfter(db: Db, id: Text, y: Text, x: Text)
    requires NeedsID(db, y, x)
    ensures NeedsID(Finish(db, id), y, x)
  {
    var t :| t in db.tickets && t.id == y && DependsOn(db, t, x);
    FinishedTickets(db, id);
    var u := Finished(t, id);
    assert u in Finish(db, id).tickets && u.id == y && DependsOn(Finish(db, id), u, x);
  }

  lemma FirstTargetsDone(schemas: Schemas, db: Db, p: Ticket, order: seq<Text>, x: Text)
    requires Plain(schemas, db, p) && !Waits(schemas, db, p, x) && NeedsID(db, p.id, x)
    ensures DoneBy(schemas, db, order, 0, x)
  {
  }

  lemma FirstVisit(schemas: Schemas, db: Db, scopes: set<Text>, order: seq<Text>, x: Text)
    requires Workable(schemas, db, scopes) && WorksOff(schemas, db, scopes, order) && order != []
    requires NeedsID(db, order[0], x)
    ensures DoneBy(schemas, db, order, 0, x)
  {
    var p := FirstPick(schemas, db, scopes, order);
    FirstTargetsDone(schemas, db, p, order, x);
  }

  lemma DoneByOneMore(
    schemas: Schemas, db: Db, order: seq<Text>, i: nat, x: Text, next: Db, rest: seq<Text>, k: nat)
    requires 0 < i < |order| && next == Finish(db, order[0]) && rest == order[1..] && k == i - 1
    requires DoneBy(schemas, next, rest, k, x)
    ensures DoneBy(schemas, db, order, i, x)
  {
    OpenAfter(schemas, db, order[0], x);
    assert order[..i] == [order[0]] + order[1..][..i - 1];
  }

  lemma NeedLater(db: Db, order: seq<Text>, i: nat, x: Text, next: Db, rest: seq<Text>, k: nat)
    requires 0 < i < |order| && next == Finish(db, order[0]) && rest == order[1..] && k == i - 1
    requires NeedsID(db, order[i], x)
    ensures NeedsID(next, rest[k], x)
  {
    NeedsAfter(db, order[0], order[i], x);
  }

  lemma {:induction false} VisitedInOrder(
    schemas: Schemas, db: Db, scopes: set<Text>, order: seq<Text>, i: nat, x: Text)
    requires Workable(schemas, db, scopes) && WorksOff(schemas, db, scopes, order)
    requires i < |order| && NeedsID(db, order[i], x)
    ensures DoneBy(schemas, db, order, i, x)
    decreases |order|
  {
    if i == 0 {
      FirstVisit(schemas, db, scopes, order, x);
    } else {
      var (next, rest, k) := (Finish(db, order[0]), order[1..], i - 1);
      NextBoard(schemas, db, scopes, order, next, rest);
      NeedLater(db, order, i, x, next, rest, k);
      VisitedInOrder(schemas, next, scopes, rest, k, x);
      DoneByOneMore(schemas, db, order, i, x, next, rest, k);
    }
  }

  /** Working some scopes off visits exactly the open tickets that nothing outside holds, once each, and every one only
      after everything it depends on. */
  lemma {:induction false} WorkedOffInTopologicalOrder(schemas: Schemas, db: Db, scopes: set<Text>, order: seq<Text>)
    requires Workable(schemas, db, scopes) && WorksOff(schemas, db, scopes, order)
    ensures NoRepeats(order)
    ensures forall y :: y in order <==> Reachable(schemas, db, scopes, y)
    ensures forall i, x :: 0 <= i < |order| && NeedsID(db, order[i], x) ==> DoneBy(schemas, db, order, i, x)
  {
    VisitedOnce(schemas, db, scopes, order);
    forall i, x | 0 <= i < |order| && NeedsID(db, order[i], x) ensures DoneBy(schemas, db, order, i, x) {
      VisitedInOrder(schemas, db, scopes, order, i, x);
    }
  }

  /** How many tickets of these scopes are open. */
  ghost function OpenCount(schemas: Schemas, db: Db, scopes: set<Text>): nat
  {
    |OpenGraph(schemas, db, scopes).nodes|
  }

  /** Picking from these scopes and finishing may pick `order`, and perhaps more. */
  ghost predicate PicksOff(schemas: Schemas, db: Db, scopes: set<Text>, order: seq<Text>)
    decreases |order|
  {
    || order == []
    || ((exists p :: PicksIn(schemas, db, scopes, p) && p.id == order[0])
        && PicksOff(schemas, Finish(db, order[0]), scopes, order[1..]))
  }

  /** A pick leaves a workable board with fewer open tickets. */
  lemma PickLeavesFewer(schemas: Schemas, db: Db, scopes: set<Text>, p: Ticket, next: Db)
    requires Workable(schemas, db, scopes) && PicksIn(schemas, db, scopes, p) && next == Finish(db, p.id)
    ensures Workable(schemas, next, scopes) && OpenCount(schemas, next, scopes) < OpenCount(schemas, db, scopes)
  {
    var scope :| scope in scopes && Picks(schemas, db, scope, p);
    PickedIsFree(schemas, db, scopes, scope, p);
    FinishKeepsWorkable(schemas, db, scopes, p.id);
    FewerOpen(schemas, db, scopes, p);
  }

  lemma WorksOffNext(schemas: Schemas, db: Db, scopes: set<Text>, p: Ticket, rest: seq<Text>, order: seq<Text>)
    requires PicksIn(schemas, db, scopes, p) && WorksOff(schemas, Finish(db, p.id), scopes, rest)
    requires order == [p.id] + rest
    ensures WorksOff(schemas, db, scopes, order)
  {
    assert order[0] == p.id && order[1..] == rest;
  }

  lemma PickedFirst(schemas: Schemas, db: Db, scopes: set<Text>, order: seq<Text>, tail: seq<Text>)
    returns (p: Ticket, next: Db)
    requires PicksOff(schemas, db, scopes, order) && order != [] && tail == order[1..]
    ensures PicksIn(schemas, db, scopes, p) && order[0] == p.id && next == Finish(db, p.id)
    ensures PicksOff(schemas, next, scopes, tail)
  {
    p :| PicksIn(schemas, db, scopes, p) && p.id == order[0];
    next := Finish(db, p.id);
  }

  lemma Regroup(order: seq<Text>, id: Text, tail: seq<Text>, rest: seq<Text>)
    requires order != [] && order[0] == id && order[1..] == tail
    ensures order + rest == [id] + (tail + rest)
  {
  }

  /** However picks and finishes have gone so far, there are no more of them than open tickets at first, and they can
      be carried on until nothing is left to pick. */
  lemma {:induction false} EveryRunEnds(schemas: Schemas, db: Db, scopes: set<Text>, order: seq<Text>)
    returns (rest: seq<Text>)
    requires Workable(schemas, db, scopes) && PicksOff(schemas, db, scopes, order)
    ensures WorksOff(schemas, db, scopes, order + rest)
    ensures |order + rest| <= OpenCount(schemas, db, scopes)
    decreases |order|
  {
    if order == [] {
      rest := SomeOrderWorksOff(schemas, db, scopes);
      assert [] + rest == rest;
    } else {
      var tail := order[1..];
      var p, next := PickedFirst(schemas, db, scopes, order, tail);
      PickLeavesFewer(schemas, db, scopes, p, next);
      rest := EveryRunEnds(schemas, next, scopes, tail);
      Regroup(order, p.id, tail, rest);
      WorksOffNext(schemas, db, scopes, p, tail + rest, order + rest);
    }
  }

  /** Some order works the scopes off. */
  lemma {:induction false} SomeOrderWorksOff(schemas: Schemas, db: Db, scopes: set<Text>) returns (order: seq<Text>)
    requires Workable(schemas, db, scopes)
    ensures WorksOff(schemas, db, scopes, order) && |order| <= OpenCount(schemas, db, scopes)
    decreases OpenCount(schemas, db, scopes)
  {
    if p :| PicksIn(schemas, db, scopes, p) {
      var next := Finish(db, p.id);
      PickLeavesFewer(schemas, db, scopes, p, next);
      var rest := SomeOrderWorksOff(schemas, next, scopes);
      order := [p.id] + rest;
      WorksOffNext(schemas, db, scopes, p, rest, order);
    } else {
      order := [];
    }
  }

  lemma FewerOpen(schemas: Schemas, db: Db, scopes: set<Text>, p: Ticket)
    requires OpenIn(schemas, db, scopes, p)
    ensures |OpenGraph(schemas, Finish(db, p.id), scopes).nodes| < |OpenGraph(schemas, db, scopes).nodes|
  {
    var (g, h) := (OpenGraph(schemas, db, scopes), OpenGraph(schemas, Finish(db, p.id), scopes));
    forall n ensures n in h.nodes <==> n in g.nodes && n != Node(p.id) { NodeAfter(schemas, db, scopes, p.id, n); }
    assert h.nodes == g.nodes - {Node(p.id)} && Node(p.id) in g.nodes;
  }

  /** With every scope worked off, nothing is outside and every open ticket is visited. */
  lemma WholeBoardIsWorkedOff(schemas: Schemas, db: Db, order: seq<Text>)
    requires Workable(schemas, db, ScopesOf(db)) && WorksOff(schemas, db, ScopesOf(db), order)
    ensures forall x :: x in order <==> Open(schemas, db, x)
  {
    var all := ScopesOf(db);
    WorkedOffInTopologicalOrder(schemas, db, all, order);
    forall x | Open(schemas, db, x) ensures ScopeOf(x) in all {
      var u :| u in db.tickets && u.id == x && !Terminal(schemas, u);
    }
    forall x ensures Open(schemas, db, x) <==> exists t :: OpenIn(schemas, db, all, t) && t.id == x {
      if Open(schemas, db, x) {
        var t :| t in db.tickets && t.id == x && !Terminal(schemas, t);
        assert OpenIn(schemas, db, all, t);
      }
    }
  }

  // ------------------------------------------------------ two scopes

  /** Two todos of different scopes, the first depending on the second. */
  function TwoScopes(a: Ticket, b: Ticket): Db
  {
    Db([a, b], [Dep(a.path, a.scope, b.id)])
  }

  predicate AcrossScopes(a: Ticket, b: Ticket)
  {
    && IsNextEligible(a.status) && !a.archived && !a.parseError && !a.schemaError && IsNextEligible(b.status)
    && a.path != b.path && a.scope == ScopeOf(a.id) != ScopeOf(b.id) == b.scope
  }

  lemma FirstScopeIsWorkable(schemas: Schemas, a: Ticket, b: Ticket, db: Db)
    requires AcrossScopes(a, b) && db == TwoScopes(a, b)
    ensures Workable(schemas, db, {a.scope}) && Waits(schemas, db, a, b.id) && OpenIn(schemas, db, {a.scope}, a)
  {
    var g := OpenGraph(schemas, db, {a.scope});
    assert db.tickets[0] == a && db.tickets[1] == b && db.deps[0] == Dep(a.path, a.scope, b.id);
    TodoIsNotTerminal(schemas(a.scope));
    TodoIsNotTerminal(schemas(b.scope));
    forall v, w ensures !Edge(g, v, w) {
      assert Edge(g, v, w) ==> v == Node(a.id) == w && w in TargetNodes(db.tickets, db.deps, v.id);
    }
    NoEdgesNoCycle(g);
    assert Plain(schemas, db, a) by { assert b in db.tickets && b.id == b.id; }
  }

  /** A todo of one scope that depends on a todo of another: the first scope is workable and its queue not empty, yet
      there is no pick. */
  lemma OtherScopeHolds(
    schemas: Schemas, a: Ticket, b: Ticket, home: set<Text>, g: Gate, queue: seq<Ticket>, pick: Option<Ticket>)
    requires AcrossScopes(a, b) && IsLoaded(TwoScopes(a, b), home, g) && a.scope in home
    requires IsQueue(TwoScopes(a, b), a.scope, queue) && IsPick(schemas, g, queue, [], pick)
    ensures Workable(schemas, TwoScopes(a, b), {a.scope}) && queue != [] && pick.None?
  {
    var db := TwoScopes(a, b);
    FirstScopeIsWorkable(schemas, a, b, db);
    QueueIsOpen(schemas, db, a.scope, queue, a);
    PickIsFree(schemas, db, home, g, a.scope, queue, pick);
    assert forall t :: OpenIn(schemas, db, {a.scope}, t) ==> t == a;
  }

  lemma NoEdgesNoCycle(g: Graph)
    requires forall v, w :: !Edge(g, v, w)
    ensures Acyclic(g)
  {
    forall w | |w| > 1 ensures !Walk(g, w) { assert !Edge(g, w[1 - 1], w[1]); }
  }
}
