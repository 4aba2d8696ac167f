/** Loading the depends gate, and why loading less than everything changes nothing. */
module GateLoading {
  import opened Lex
  import opened Results
  import opened Statuses
  import opened Scheduler

  function InScopes(tickets: seq<Ticket>, home: set<Text>): (out: seq<Ticket>)
    ensures forall t :: t in out <==> t in tickets && t.scope in home
  {
    if tickets == [] then [] else (if tickets[0].scope in home then [tickets[0]] else []) + InScopes(tickets[1..], home)
  }

  function DepsFrom(deps: seq<Dep>, home: set<Text>): (out: seq<Dep>)
    ensures forall d :: d in out <==> d in deps && d.fromScope in home
  {
    if deps == [] then [] else (if deps[0].fromScope in home then [deps[0]] else []) + DepsFrom(deps[1..], home)
  }

  function WithIDs(tickets: seq<Ticket>, ids: seq<Text>): (out: seq<Ticket>)
    ensures forall t :: t in out <==> t in tickets && t.id in ids
  {
    if tickets == [] then [] else (if tickets[0].id in ids then [tickets[0]] else []) + WithIDs(tickets[1..], ids)
  }

  function IdsOf(tickets: seq<Ticket>): set<Text>
  {
    set t | t in tickets :: t.id
  }

  /** Home targets that no home ticket answers to. */
  ghost predicate Missing(db: Db, home: set<Text>, id: Text)
  {
    id !in IdsOf(InScopes(db.tickets, home)) && exists d :: d in DepsFrom(db.deps, home) && d.toID == id
  }

  function At<T>(m: map<Text, seq<T>>, k: Text): seq<T>
  {
    if k in m then m[k] else []
  }

  method GroupByID(tickets: seq<Ticket>) returns (byID: map<Text, seq<Ticket>>)
    ensures forall id, t :: t in At(byID, id) <==> t in tickets && t.id == id
  {
    byID := map[];
    var i := 0;
    while i < |tickets|
      invariant 0 <= i <= |tickets|
      invariant forall id, t :: t in At(byID, id) <==> t in tickets[..i] && t.id == id
    {
      var t := tickets[i];
      assert tickets[..i + 1] == tickets[..i] + [t];
      ghost var was := byID;
      byID := byID[t.id := At(byID, t.id) + [t]];
      assert forall id :: At(byID, id) == At(was, id) + if id == t.id then [t] else [];
      i := i + 1;
    }
    assert tickets[..i] == tickets;
  }

  method GroupByPath(deps: seq<Dep>) returns (depends: map<Text, seq<Text>>)
    ensures forall path, x :: x in At(depends, path) <==> Names(deps, path, x)
  {
    depends := map[];
    var i := 0;
    while i < |deps|
      invariant 0 <= i <= |deps|
      invariant forall path, x :: x in At(depends, path) <==> Names(deps[..i], path, x)
    {
      var d := deps[i];
      assert deps[..i + 1] == deps[..i] + [d];
      NamesSnoc(deps[..i], d);
      depends := depends[d.fromPath := At(depends, d.fromPath) + [d.toID]];
      i := i + 1;
    }
    assert deps[..i] == deps;
  }

  /** Some edge from `path` names `x`. */
  ghost predicate Names(deps: seq<Dep>, path: Text, x: Text)
  {
    exists d :: d in deps && d.fromPath == path && d.toID == x
  }

  lemma NamesSnoc(deps: seq<Dep>, d: Dep)
    ensures forall path, x :: Names(deps + [d], path, x) <==>
              Names(deps, path, x) || (d.fromPath == path && d.toID == x)
  {
    forall path, x ensures Names(deps + [d], path, x) <==> Names(deps, path, x) || (d.fromPath == path && d.toID == x) {
      if e :| e in deps + [d] && e.fromPath == path && e.toID == x { assert e == d || e in deps; }
      if e :| e in deps && e.fromPath == path && e.toID == x { assert e in deps + [d]; }
      if d.fromPath == path && d.toID == x { assert d in deps + [d]; }
    }
  }

  method MissingTargets(deps: seq<Dep>, have: set<Text>) returns (missing: seq<Text>)
    ensures forall id :: id in missing <==> id !in have && exists d :: d in deps && d.toID == id
  {
    missing := [];
    var i := 0;
    while i < |deps|
      invariant 0 <= i <= |deps|
      invariant forall id :: id in missing <==> id !in have && exists d :: d in deps[..i] && d.toID == id
    {
      assert deps[..i + 1] == deps[..i] + [deps[i]];
      if deps[i].toID !in have && deps[i].toID !in missing { missing := missing + [deps[i].toID]; }
      i := i + 1;
    }
    assert deps[..i] == deps;
  }

  /** What a loaded gate holds. */
  ghost predicate IsLoaded(db: Db, home: set<Text>, g: Gate)
  {
    && (forall id, t :: t in RowsIn(g, id) <==>
      t in db.tickets && t.id == id && (t.scope in home || Missing(db, home, id)))
    && (forall path, x :: x in DependsIn(g, path) <==> Names(DepsFrom(db.deps, home), path, x))
    && (forall s, id :: (s, id) in g.dups <==> s in home && Duplicated(db.tickets, s, id))
  }

  /** Loads the home rows, the rows of the targets they do not have, and the home depends edges. */
  method Load(db: Db, home: set<Text>) returns (g: Gate)
    ensures IsLoaded(db, home, g)
  {
    var tickets, edges := InScopes(db.tickets, home), DepsFrom(db.deps, home);
    var missing := MissingTargets(edges, IdsOf(tickets));
    var extra := WithIDs(db.tickets, missing);
    var byID := GroupByID(tickets + extra);
    var depends := GroupByPath(edges);
    var dups := set t | t in tickets && Duplicated(db.tickets, t.scope, t.id) :: (t.scope, t.id);
    g := Gate(byID, depends, dups);
    RowsLoaded(db, home, tickets, extra, missing, g);
    forall path, x ensures x in DependsIn(g, path) <==> Names(edges, path, x) {
      assert DependsIn(g, path) == At(depends, path);
    }
    forall s, id ensures (s, id) in g.dups <==> s in home && Duplicated(db.tickets, s, id) {
      DupsLoaded(db, home, tickets, dups, s, id);
    }
  }

  lemma RowsLoaded(
    db: Db, home: set<Text>, tickets: seq<Ticket>, extra: seq<Ticket>, missing: seq<Text>, g: Gate)
    requires tickets == InScopes(db.tickets, home) && extra == WithIDs(db.tickets, missing)
    requires forall id :: id in missing <==> Missing(db, home, id)
    requires forall id, t :: t in At(g.byID, id) <==> t in tickets + extra && t.id == id
    ensures forall id, t :: t in RowsIn(g, id) <==>
              t in db.tickets && t.id == id && (t.scope in home || Missing(db, home, id))
  {
    forall id, t
      ensures t in RowsIn(g, id) <==> t in db.tickets && t.id == id && (t.scope in home || Missing(db, home, id))
    {
      assert RowsIn(g, id) == At(g.byID, id);
      assert t in tickets + extra <==> t in tickets || t in extra;
      assert t in tickets <==> t in db.tickets && t.scope in home;
      assert t in extra <==> t in db.tickets && t.id in missing;
      assert id in missing <==> Missing(db, home, id);
      MissingIsNotHome(db, home, id, t);
    }
  }

  lemma MissingIsNotHome(db: Db, home: set<Text>, id: Text, t: Ticket)
    ensures Missing(db, home, id) && t in db.tickets && t.id == id ==> t.scope !in home
  {
    if t in db.tickets && t.scope in home { assert t in InScopes(db.tickets, home); }
  }

  lemma DupsLoaded(db: Db, home: set<Text>, tickets: seq<Ticket>, dups: set<(Text, Text)>, s: Text, id: Text)
    requires tickets == InScopes(db.tickets, home)
    requires dups == set t | t in tickets && Duplicated(db.tickets, t.scope, t.id) :: (t.scope, t.id)
    ensures (s, id) in dups <==> s in home && Duplicated(db.tickets, s, id)
  {
    if s in home && Duplicated(db.tickets, s, id) {
      var i, j :| 0 <= i < j < |db.tickets| && db.tickets[i].scope == s == db.tickets[j].scope
        && db.tickets[i].id == id == db.tickets[j].id;
      assert db.tickets[i] in tickets;
    }
  }

  function TargetsFrom(deps: seq<Dep>, path: Text): (out: seq<Text>)
    ensures forall x :: x in out <==> Names(deps, path, x)
  {
    if deps == [] then []
    else
      var rest := TargetsFrom(deps[1..], path);
      assert deps == [deps[0]] + deps[1..];
      if deps[0].fromPath == path then [deps[0].toID] + rest else rest
  }

  /** The rows a gate holds for one id. */
  ghost function RowsFor(db: Db, home: set<Text>, id: Text): (rows: seq<Ticket>)
    ensures forall t :: t in rows <==> t in db.tickets && t.id == id && (t.scope in home || Missing(db, home, id))
  {
    WithIDs(if Missing(db, home, id) then db.tickets else InScopes(db.tickets, home), [id])
  }

  /** The gate for some home scopes, as a value. */
  ghost function GateOf(db: Db, home: set<Text>): Gate
  {
    var edges := DepsFrom(db.deps, home);
    Gate(map id | id in IdsOf(db.tickets) :: RowsFor(db, home, id),
         map path | path in (set d | d in edges :: d.fromPath) :: TargetsFrom(edges, path),
         set t | t in db.tickets && t.scope in home && Duplicated(db.tickets, t.scope, t.id) :: (t.scope, t.id))
  }

  lemma GateOfRows(db: Db, home: set<Text>, id: Text)
    ensures forall t :: t in RowsIn(GateOf(db, home), id) <==> t in RowsFor(db, home, id)
  {
    if id !in IdsOf(db.tickets) {
      forall t | t in db.tickets ensures t.id != id { assert t.id in IdsOf(db.tickets); }
    }
  }

  lemma GateOfDepends(db: Db, home: set<Text>, path: Text, x: Text)
    ensures x in DependsIn(GateOf(db, home), path) <==> Names(DepsFrom(db.deps, home), path, x)
  {
    if Names(DepsFrom(db.deps, home), path, x) {
      var d :| d in DepsFrom(db.deps, home) && d.fromPath == path && d.toID == x;
      assert path in GateOf(db, home).depends;
    }
  }

  lemma GateOfDups(db: Db, home: set<Text>, s: Text, id: Text)
    ensures (s, id) in GateOf(db, home).dups <==> s in home && Duplicated(db.tickets, s, id)
  {
    if s in home && Duplicated(db.tickets, s, id) {
      var i, j :| 0 <= i < j < |db.tickets| && db.tickets[i].scope == s == db.tickets[j].scope
        && db.tickets[i].id == id == db.tickets[j].id;
      assert db.tickets[i] in db.tickets;
    }
  }

  lemma GateOfIsLoaded(db: Db, home: set<Text>)
    ensures IsLoaded(db, home, GateOf(db, home))
  {
    var g := GateOf(db, home);
    forall id, t
      ensures t in RowsIn(g, id) <==> t in db.tickets && t.id == id && (t.scope in home || Missing(db, home, id))
    {
      GateOfRows(db, home, id);
    }
    forall path, x ensures x in DependsIn(g, path) <==> Names(DepsFrom(db.deps, home), path, x) {
      GateOfDepends(db, home, path, x);
    }
    forall s, id ensures (s, id) in g.dups <==> s in home && Duplicated(db.tickets, s, id) {
      GateOfDups(db, home, s, id);
    }
  }

  // --------------------------------------------------- loading less is enough

  /** The text before the first hyphen. */
  function ScopeOf(id: Text): Text
  {
    if id == [] || id[0] == 45 then [] else [id[0]] + ScopeOf(id[1..])
  }

  /** Every row's full id carries its scope. */
  ghost predicate PrefixIsScope(db: Db)
  {
    forall t :: t in db.tickets ==> ScopeOf(t.id) == t.scope
  }

  /** The id the index gives a file: a legal same-scope fence id, else the id in its name. */
  function RowID(scope: Text, nameShort: Text, fenceID: Text, legal: bool): Text
  {
    if legal && ScopeOf(fenceID) == scope then fenceID else scope + [45] + nameShort
  }

  /** Indexing keeps the prefix rule, whatever the fence says. */
  lemma {:induction false} RowIDKeepsPrefix(scope: Text, nameShort: Text, fenceID: Text, legal: bool)
    requires 45 !in scope
    ensures ScopeOf(RowID(scope, nameShort, fenceID, legal)) == scope
    ensures legal && ScopeOf(fenceID) == scope ==> RowID(scope, nameShort, fenceID, legal) == fenceID
  {
    PrefixOfJoin(scope, nameShort);
  }

  lemma {:induction false} PrefixOfJoin(scope: Text, rest: Text)
    requires 45 !in scope
    ensures ScopeOf(scope + [45] + rest) == scope
  {
    if scope != [] {
      PrefixOfJoin(scope[1..], rest);
      assert (scope + [45] + rest)[1..] == scope[1..] + [45] + rest;
    } else {
      assert (scope + [45] + rest)[0] == 45;
    }
  }

  /** Edges are tagged with the scope of the file they come from. */
  ghost predicate EdgesTagged(db: Db)
  {
    forall d, t :: d in db.deps && t in db.tickets && t.path == d.fromPath ==> t.scope == d.fromScope
  }

  ghost predicate AllScopes(db: Db, all: set<Text>)
  {
    && (forall t :: t in db.tickets ==> t.scope in all)
    && (forall d :: d in db.deps ==> d.fromScope in all)
  }

  lemma SameTargets(db: Db, home: set<Text>, all: set<Text>, g: Gate, full: Gate, p: Ticket, x: Text)
    requires IsLoaded(db, home, g) && IsLoaded(db, all, full) && AllScopes(db, all) && EdgesTagged(db)
    requires p in db.tickets && p.scope in home
    ensures x in DependsIn(g, p.path) <==> x in DependsIn(full, p.path)
  {
    if Names(DepsFrom(db.deps, home), p.path, x) {
      var d :| d in DepsFrom(db.deps, home) && d.fromPath == p.path && d.toID == x;
      assert d in DepsFrom(db.deps, all);
    }
    if Names(DepsFrom(db.deps, all), p.path, x) {
      var d :| d in DepsFrom(db.deps, all) && d.fromPath == p.path && d.toID == x;
      assert d in DepsFrom(db.deps, home);
    }
  }

  lemma SameRows(db: Db, home: set<Text>, all: set<Text>, g: Gate, full: Gate, p: Ticket, x: Text)
    requires IsLoaded(db, home, g) && IsLoaded(db, all, full) && AllScopes(db, all) && PrefixIsScope(db)
    requires x in DependsIn(g, p.path)
    ensures forall t :: t in RowsIn(g, x) <==> t in RowsIn(full, x)
  {
    var d :| d in DepsFrom(db.deps, home) && d.fromPath == p.path && d.toID == x;
    if !Missing(db, home, x) {
      var u :| u in InScopes(db.tickets, home) && u.id == x;
      assert ScopeOf(u.id) == u.scope;
      forall t | t in db.tickets && t.id == x ensures t.scope in home { assert ScopeOf(t.id) == t.scope; }
    }
    forall t ensures t in RowsIn(g, x) <==> t in RowsIn(full, x) {
      assert t in db.tickets ==> t.scope in all;
    }
  }

  lemma SameVerdict(schemas: Schemas, a: seq<Ticket>, b: seq<Ticket>)
    requires forall t :: t in a <==> t in b
    ensures AllTerminal(schemas, a) <==> AllTerminal(schemas, b)
  {
    if AllTerminal(schemas, a) {
      assert a[0] in b;
      forall i | 0 <= i < |b| ensures Terminal(schemas, b[i]) { assert b[i] in a; }
    }
    if AllTerminal(schemas, b) {
      assert b[0] in a;
      forall i | 0 <= i < |a| ensures Terminal(schemas, a[i]) { assert a[i] in b; }
    }
  }

  /** A gate loaded for some home scopes judges every home ticket exactly as a gate loaded from all rows. */
  lemma HomeGateIsEnough(schemas: Schemas, db: Db, home: set<Text>, all: set<Text>, g: Gate, full: Gate, p: Ticket)
    requires IsLoaded(db, home, g) && IsLoaded(db, all, full) && AllScopes(db, all)
    requires PrefixIsScope(db) && EdgesTagged(db) && p in db.tickets && p.scope in home
    ensures forall e :: IsEval(schemas, g, p, e) <==> IsEval(schemas, full, p, e)
    ensures forall e :: NextEligible(g, p, e) <==> NextEligible(full, p, e)
    ensures Ready(schemas, g, p) <==> Ready(schemas, full, p)
  {
    forall x ensures Unmet(schemas, g, p, x) <==> Unmet(schemas, full, p, x) {
      SameTargets(db, home, all, g, full, p, x);
      if x in DependsIn(g, p.path) {
        SameRows(db, home, all, g, full, p, x);
        SameVerdict(schemas, RowsIn(g, x), RowsIn(full, x));
      }
    }
    ReadyIsUnmet(schemas, g, p);
    ReadyIsUnmet(schemas, full, p);
  }

  /** A depends target that holds nothing back: there are rows with its id, and all of them are done. */
  ghost predicate TargetIsDone(schemas: Schemas, db: Db, x: Text)
  {
    && (exists t :: t in db.tickets && t.id == x)
    && forall t :: t in db.tickets && t.id == x ==> CategoryOf(t.status, schemas(t.scope)) == Some(Done)
  }

  lemma TargetRows(schemas: Schemas, db: Db, home: set<Text>, g: Gate, x: Text)
    requires IsLoaded(db, home, g) && PrefixIsScope(db) && exists d :: d in DepsFrom(db.deps, home) && d.toID == x
    ensures AllTerminal(schemas, RowsIn(g, x)) <==> TargetIsDone(schemas, db, x)
  {
    assert forall t :: t in RowsIn(g, x) <==> t in db.tickets && t.id == x;
    var rows := RowsIn(g, x);
    if AllTerminal(schemas, rows) {
      assert rows[0] in rows;
      forall t | t in rows ensures Terminal(schemas, t) { var i :| 0 <= i < |rows| && rows[i] == t; }
    }
    if TargetIsDone(schemas, db, x) {
      forall i | 0 <= i < |rows| ensures Terminal(schemas, rows[i]) { assert rows[i] in rows; }
      var t :| t in db.tickets && t.id == x;
      assert t in rows;
    }
  }

  /** Ready, read off the tables: a live, readable todo that shares its id with no row of its scope, and whose depends
      targets are all there and done. */
  lemma ReadyFromTables(schemas: Schemas, db: Db, home: set<Text>, g: Gate, p: Ticket)
    requires IsLoaded(db, home, g) && PrefixIsScope(db) && EdgesTagged(db) && p in db.tickets && p.scope in home
    ensures Ready(schemas, g, p) <==>
              && p.status == Bytes("todo") && !p.archived && !p.parseError && !p.schemaError
              && (forall i, j :: 0 <= i < j < |db.tickets| ==>
                !(db.tickets[i].scope == db.tickets[j].scope == p.scope
                  && db.tickets[i].id == db.tickets[j].id == p.id))
              && (forall d :: d in db.deps && d.fromPath == p.path ==> TargetIsDone(schemas, db, d.toID))
  {
    ReadyIsUnmet(schemas, g, p);
    forall d | d in db.deps && d.fromPath == p.path
      ensures Unmet(schemas, g, p, d.toID) <==> !TargetIsDone(schemas, db, d.toID)
    {
      assert d in DepsFrom(db.deps, home);
      TargetRows(schemas, db, home, g, d.toID);
      assert Names(DepsFrom(db.deps, home), p.path, d.toID);
    }
    forall x | Unmet(schemas, g, p, x) ensures exists d :: d in db.deps && d.fromPath == p.path && d.toID == x {
      assert Names(DepsFrom(db.deps, home), p.path, x);
    }
  }

  lemma ReadyIsUnmet(schemas: Schemas, g: Gate, p: Ticket)
    ensures Ready(schemas, g, p) <==>
              (IsNextEligible(p.status) && !p.archived && !p.parseError && (p.scope, p.id) !in g.dups && !p.schemaError
               && forall x :: !Unmet(schemas, g, p, x))
  {
  }
}
