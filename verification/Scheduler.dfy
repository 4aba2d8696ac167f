/** The depends gate and the next-ticket picker. */
module Scheduler {
  import opened Lex
  import opened Results
  import opened Sorting
  import opened Statuses

  datatype Ticket = Ticket(
    path: Text, scope: Text, id: Text, orderKey: Text, status: Text,
    archived: bool, parseError: bool, schemaError: bool, tags: seq<Text>)

  /** A depends edge: the file it comes from, that file's scope, and the full id it names. */
  datatype Dep = Dep(fromPath: Text, fromScope: Text, toID: Text)

  /** The ticket and depends tables. */
  datatype Db = Db(tickets: seq<Ticket>, deps: seq<Dep>)

  /** The custom statuses of each scope; a scope without a usable schema has none. */
  type Schemas = Text -> map<Text, Category>

  // -------------------------------------------------------- what the rows say

  predicate Terminal(schemas: Schemas, t: Ticket)
  {
    IsTerminal(t.status, schemas(t.scope))
  }

  /** A target is met when it has rows and all of them are terminal. */
  predicate AllTerminal(schemas: Schemas, rows: seq<Ticket>)
  {
    rows != [] && forall i :: 0 <= i < |rows| ==> Terminal(schemas, rows[i])
  }

  /** Another row of the same scope has the same id. */
  predicate Duplicated(tickets: seq<Ticket>, scope: Text, id: Text)
  {
    exists i, j :: 0 <= i < j < |tickets| && tickets[i].scope == scope == tickets[j].scope
      && tickets[i].id == id == tickets[j].id
  }

  // ------------------------------------------------------------------ the gate

  /** What the scheduler keeps in memory. */
  datatype Gate = Gate(byID: map<Text, seq<Ticket>>, depends: map<Text, seq<Text>>, dups: set<(Text, Text)>)

  function RowsIn(g: Gate, id: Text): seq<Ticket>
  {
    if id in g.byID then g.byID[id] else []
  }

  function DependsIn(g: Gate, path: Text): seq<Text>
  {
    if path in g.depends then g.depends[path] else []
  }

  predicate Unmet(schemas: Schemas, g: Gate, p: Ticket, target: Text)
  {
    target in DependsIn(g, p.path) && !AllTerminal(schemas, RowsIn(g, target))
  }

  datatype Eval = Eval(waitingOn: seq<Text>, schemaError: bool)
  {
    predicate Held() { waitingOn != [] || schemaError }
  }

  ghost predicate IsEval(schemas: Schemas, g: Gate, p: Ticket, e: Eval)
  {
    && e.schemaError == p.schemaError
    && (forall x :: x in e.waitingOn <==> Unmet(schemas, g, p, x))
    && Sorted(e.waitingOn, Less) && NoRepeats(e.waitingOn)
  }

  /** Walks a ticket's targets once each and collects the unmet ones, sorted. */
  method EvalDepends(schemas: Schemas, g: Gate, p: Ticket) returns (e: Eval)
    ensures IsEval(schemas, g, p, e)
  {
    var seen: set<Text> := {};
    var waiting: seq<Text> := [];
    var targets := DependsIn(g, p.path);
    var i := 0;
    while i < |targets|
      invariant 0 <= i <= |targets|
      invariant forall x :: x in seen <==> x in targets[..i]
      invariant forall x :: x in waiting <==> x in seen && !AllTerminal(schemas, RowsIn(g, x))
      invariant NoRepeats(waiting)
    {
      var x := targets[i];
      assert targets[..i + 1] == targets[..i] + [x];
      if x !in seen {
        seen := seen + {x};
        if !AllTerminal(schemas, RowsIn(g, x)) { waiting := waiting + [x]; }
      }
      i := i + 1;
    }
    assert targets[..i] == targets;
    LessOrders();
    SortKeeps(waiting, Less);
    SortSorts(waiting, Less);
    SortKeepsNoRepeats(waiting, Less);
    e := Eval(StableSort(waiting, Less), p.schemaError);
  }

  lemma LessOrders()
    ensures WeakOrder(Less)
  {
    forall a, b | Less(a, b) ensures !Less(b, a) { Asymmetric(a, b); }
    forall a, b, c | !Less(b, a) && !Less(c, b) ensures !Less(c, a) { NotLessChains(a, b, c); }
  }

  predicate NextEligible(g: Gate, p: Ticket, e: Eval)
  {
    IsNextEligible(p.status) && !p.archived && !p.parseError && (p.scope, p.id) !in g.dups && !e.Held()
  }

  // -------------------------------------------------------------- next ticket

  predicate TicketLess(a: Ticket, b: Ticket)
  {
    if a.orderKey != b.orderKey then Less(a.orderKey, b.orderKey) else Less(a.id, b.id)
  }

  lemma TicketLessOrders()
    ensures WeakOrder(TicketLess)
  {
    forall a, b | TicketLess(a, b) ensures !TicketLess(b, a) {
      if a.orderKey != b.orderKey { Asymmetric(a.orderKey, b.orderKey); } else { Asymmetric(a.id, b.id); }
    }
    forall a, b, c | !TicketLess(b, a) && !TicketLess(c, b) ensures !TicketLess(c, a) {
      NotLessChains(a.orderKey, b.orderKey, c.orderKey);
      NotLessChains(a.id, b.id, c.id);
    }
  }

  /** An empty lens shows all, and an untagged ticket is never hidden. */
  predicate PassesLens(p: Ticket, lens: seq<Text>)
  {
    lens == [] || p.tags == [] || exists i :: 0 <= i < |p.tags| && p.tags[i] in lens
  }

  predicate Ready(schemas: Schemas, g: Gate, p: Ticket)
  {
    && IsNextEligible(p.status) && !p.archived && !p.parseError && (p.scope, p.id) !in g.dups && !p.schemaError
    && forall i :: 0 <= i < |DependsIn(g, p.path)| ==> !Unmet(schemas, g, p, DependsIn(g, p.path)[i])
  }

  lemma EligibleIsReady(schemas: Schemas, g: Gate, p: Ticket, e: Eval)
    requires IsEval(schemas, g, p, e)
    ensures NextEligible(g, p, e) <==> Ready(schemas, g, p)
    ensures e.Held() <==> IsHeld(schemas, g, p)
  {
    if e.waitingOn != [] {
      assert e.waitingOn[0] in e.waitingOn;
      var i :| 0 <= i < |DependsIn(g, p.path)| && DependsIn(g, p.path)[i] == e.waitingOn[0];
    }
  }

  datatype Selection = Selection(chosen: Option<Ticket>, blocked: nat, readyOutsideLens: nat)

  /** What is picked: of the ready candidates under the lens one with the least order key, and of those with that key
      one with the least id. */
  ghost predicate IsPick(schemas: Schemas, g: Gate, candidates: seq<Ticket>, lens: seq<Text>, pick: Option<Ticket>)
  {
    match pick
    case Some(p) =>
      && p in candidates && Ready(schemas, g, p) && PassesLens(p, lens)
      && forall q :: q in candidates && Ready(schemas, g, q) && PassesLens(q, lens) ==>
        LessEq(p.orderKey, q.orderKey) && (p.orderKey == q.orderKey ==> LessEq(p.id, q.id))
    case None => forall q :: q in candidates && Ready(schemas, g, q) ==> !PassesLens(q, lens)
  }

  /** Walks the candidates in (order, id) and takes the first ready one under the lens. */
  method SelectNext(
    schemas: Schemas, g: Gate, candidates: seq<Ticket>, lens: seq<Text>, noLens: bool) returns (s: Selection)
    ensures IsPick(schemas, g, candidates, if noLens then [] else lens, s.chosen)
    ensures s.readyOutsideLens == CountIf(candidates, OutsideTest(schemas, g, if noLens then [] else lens))
    ensures s.blocked == CountIf(candidates, HeldTest(schemas, g))
  {
    var used := if noLens then [] else lens;
    s := WalkInOrder(schemas, g, StableSort(candidates, TicketLess), used);
    FirstIsPick(schemas, g, candidates, used, s.chosen);
    SortKeepsCount(candidates, TicketLess, OutsideTest(schemas, g, used));
    SortKeepsCount(candidates, TicketLess, HeldTest(schemas, g));
  }

  /** Kept back by an unmet target or a malformed entry. */
  predicate IsHeld(schemas: Schemas, g: Gate, p: Ticket)
  {
    p.schemaError || exists i :: 0 <= i < |DependsIn(g, p.path)| && Unmet(schemas, g, p, DependsIn(g, p.path)[i])
  }

  function HeldTest(schemas: Schemas, g: Gate): (test: Ticket -> bool)
    ensures forall p :: test(p) == IsHeld(schemas, g, p)
  {
    p => IsHeld(schemas, g, p)
  }

  function OutsideTest(schemas: Schemas, g: Gate, lens: seq<Text>): (test: Ticket -> bool)
    ensures forall p :: test(p) == (Ready(schemas, g, p) && !PassesLens(p, lens))
  {
    p => Ready(schemas, g, p) && !PassesLens(p, lens)
  }

  ghost predicate NoneInside(schemas: Schemas, g: Gate, sorted: seq<Ticket>, lens: seq<Text>)
  {
    forall k :: 0 <= k < |sorted| && Ready(schemas, g, sorted[k]) ==> !PassesLens(sorted[k], lens)
  }

  ghost predicate IsFirst(schemas: Schemas, g: Gate, sorted: seq<Ticket>, lens: seq<Text>, chosen: Option<Ticket>)
  {
    if chosen.Some? then
      exists k :: 0 <= k < |sorted| && First(schemas, g, sorted, lens, k) && chosen == Some(sorted[k])
    else NoneInside(schemas, g, sorted, lens)
  }

  lemma FirstGrows(schemas: Schemas, g: Gate, sorted: seq<Ticket>, p: Ticket, lens: seq<Text>, chosen: Option<Ticket>)
    requires IsFirst(schemas, g, sorted, lens, chosen)
    ensures var ready := Ready(schemas, g, p) && PassesLens(p, lens);
            IsFirst(schemas, g, sorted + [p], lens, if chosen.None? && ready then Some(p) else chosen)
  {
    var longer := sorted + [p];
    assert forall k :: 0 <= k < |sorted| ==> longer[k] == sorted[k];
    if chosen.Some? {
      var k :| 0 <= k < |sorted| && First(schemas, g, sorted, lens, k) && chosen == Some(sorted[k]);
      assert First(schemas, g, longer, lens, k);
    } else if Ready(schemas, g, p) && PassesLens(p, lens) {
      assert First(schemas, g, longer, lens, |sorted|);
    }
  }

  /** Looks through the lens for one of the ticket's tags. */
  method ShownUnder(p: Ticket, lens: seq<Text>) returns (shown: bool)
    ensures shown <==> PassesLens(p, lens)
  {
    if |lens| == 0 || |p.tags| == 0 { return true; }
    var i := 0;
    while i < |p.tags|
      invariant 0 <= i <= |p.tags| && forall k :: 0 <= k < i ==> p.tags[k] !in lens
    {
      if p.tags[i] in lens { return true; }
      i := i + 1;
    }
    return false;
  }

  method WalkInOrder(schemas: Schemas, g: Gate, sorted: seq<Ticket>, lens: seq<Text>) returns (s: Selection)
    ensures IsFirst(schemas, g, sorted, lens, s.chosen)
    ensures s.readyOutsideLens == CountIf(sorted, OutsideTest(schemas, g, lens))
    ensures s.blocked == CountIf(sorted, HeldTest(schemas, g))
  {
    var chosen: Option<Ticket> := None;
    var blocked, outside := 0, 0;
    var i := 0;
    while i < |sorted|
      invariant 0 <= i <= |sorted|
      invariant IsFirst(schemas, g, sorted[..i], lens, chosen)
      invariant outside == CountIf(sorted[..i], OutsideTest(schemas, g, lens))
      invariant blocked == CountIf(sorted[..i], HeldTest(schemas, g))
    {
      var p := sorted[i];
      var e := EvalDepends(schemas, g, p);
      EligibleIsReady(schemas, g, p, e);
      FirstGrows(schemas, g, sorted[..i], p, lens, chosen);
      assert sorted[..i + 1] == sorted[..i] + [p];
      CountSnoc(sorted[..i], p, OutsideTest(schemas, g, lens));
      CountSnoc(sorted[..i], p, HeldTest(schemas, g));
      var shown := ShownUnder(p, lens);
      if !NextEligible(g, p, e) {
        if e.Held() { blocked := blocked + 1; }
      } else if !shown {
        outside := outside + 1;
      } else if chosen.None? {
        chosen := Some(p);
      }
      i := i + 1;
    }
    assert sorted[..i] == sorted;
    s := Selection(chosen, blocked, outside);
  }

  ghost predicate First(schemas: Schemas, g: Gate, sorted: seq<Ticket>, lens: seq<Text>, k: nat)
    requires k < |sorted|
  {
    && Ready(schemas, g, sorted[k]) && PassesLens(sorted[k], lens)
    && forall m :: 0 <= m < k && Ready(schemas, g, sorted[m]) ==> !PassesLens(sorted[m], lens)
  }

  lemma NoneBefore(schemas: Schemas, g: Gate, sorted: seq<Ticket>, lens: seq<Text>, k: nat, q: Ticket)
    requires Sorted(sorted, TicketLess) && k < |sorted| && First(schemas, g, sorted, lens, k)
    requires q in sorted && Ready(schemas, g, q) && PassesLens(q, lens)
    ensures !TicketLess(q, sorted[k])
  {
    var m :| 0 <= m < |sorted| && sorted[m] == q;
    if m == k { TicketLessOrders(); }
  }

  lemma FirstIsPick(schemas: Schemas, g: Gate, candidates: seq<Ticket>, lens: seq<Text>, chosen: Option<Ticket>)
    requires IsFirst(schemas, g, StableSort(candidates, TicketLess), lens, chosen)
    ensures IsPick(schemas, g, candidates, lens, chosen)
  {
    var sorted := StableSort(candidates, TicketLess);
    SortKeeps(candidates, TicketLess);
    TicketLessOrders();
    SortSorts(candidates, TicketLess);
    if chosen.Some? {
      var k :| 0 <= k < |sorted| && First(schemas, g, sorted, lens, k) && chosen == Some(sorted[k]);
      assert sorted[k] in sorted;
      var p := sorted[k];
      forall q | q in candidates && Ready(schemas, g, q) && PassesLens(q, lens)
        ensures LessEq(p.orderKey, q.orderKey) && (p.orderKey == q.orderKey ==> LessEq(p.id, q.id))
      {
        NoneBefore(schemas, g, sorted, lens, k, q);
        Total(p.orderKey, q.orderKey);
        Total(p.id, q.id);
      }
    } else {
      forall q | q in candidates && Ready(schemas, g, q) ensures !PassesLens(q, lens) {
        assert q in sorted;
        var m :| 0 <= m < |sorted| && sorted[m] == q;
      }
    }
  }
}
