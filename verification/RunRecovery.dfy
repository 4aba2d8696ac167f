/** A repair run over all the collisions of a scope, one after the other with one map of occupied ids. Stopped anywhere,
    any number of times, it ends in the files of an uninterrupted run exactly when no collision is unsteady. */
module RunRecovery {
  import opened Lex
  import opened Results
  import opened Sorting
  import opened ShortIds
  import opened CollisionRepair
  import opened CrashRecovery

  // ------------------------------------------------------------ the run

  /** A collision as the index lists it. */
  datatype Group = Group(x: Text, rows: seq<Rec>)

  ghost predicate Collide(env: Env, fs: Files, p: Path, q: Path)
  {
    p in fs && q in fs && p != q && RowShort(env, p, fs[p]) == RowShort(env, q, fs[q])
  }

  ghost predicate Grouped(todo: seq<Group>, x: Text)
  {
    exists i :: 0 <= i < |todo| && todo[i].x == x
  }

  /** The ids that several files share, in string order, each with its files. */
  ghost predicate Duplicates(env: Env, fs: Files, todo: seq<Group>)
  {
    && (forall i :: 0 <= i < |todo| ==> |todo[i].rows| >= 2 && Lists(env, fs, todo[i].x, todo[i].rows))
    && (forall i, j :: 0 <= i < j < |todo| ==> Less(ShortBytes(todo[i].x), ShortBytes(todo[j].x)))
    && (forall p, q :: Collide(env, fs, p, q) ==> Grouped(todo, RowShort(env, p, fs[p])))
  }

  /** All members but the keeper. */
  ghost function LosersOf(env: Env, rows: seq<Rec>): seq<Rec>
  {
    SortKeeps(rows, KeeperOrder(env));
    if rows == [] then [] else StableSort(rows, KeeperOrder(env))[1..]
  }

  datatype RunError = NotPlanned(cause: ExtendError) | Refused(path: Path)

  /** The files when the run is not stopped: each collision is planned and applied with the map the one before left. */
  ghost function RunEnds(env: Env, fs: Files, todo: seq<Group>, occ: Occupied): Result<Files, RunError>
    decreases |todo|
  {
    if todo == [] then Ok(fs)
    else
      var losers := LosersOf(env, todo[0].rows);
      match Plan(env, fs, losers, todo[0].x, occ)
      case Err(e) => Err(NotPlanned(e))
      case Ok(ops) =>
        match ApplyAll(fs, ops)
        case Err(p) => Err(Refused(p))
        case Ok(next) => RunEnds(env, next, todo[1..], OccupiedAfter(env, fs, losers, todo[0].x, occ))
  }

  /** The files at which the run may be found stopped. */
  ghost predicate RunStops(env: Env, fs: Files, todo: seq<Group>, occ: Occupied, mid: Files)
    decreases |todo|
  {
    || mid == fs
    || (todo != [] &&
        var losers := LosersOf(env, todo[0].rows);
        var plan := Plan(env, fs, losers, todo[0].x, occ);
        plan.Ok? &&
        (StopsAt(fs, plan.value, mid) ||
         (ApplyAll(fs, plan.value).Ok? &&
          var after := OccupiedAfter(env, fs, losers, todo[0].x, occ);
          RunStops(env, ApplyAll(fs, plan.value).value, todo[1..], after, mid))))
  }

  /** A run reads the collisions and the occupied ids off the files it finds. */
  ghost predicate Reads(env: Env, fs: Files, todo: seq<Group>, occ: Occupied)
  {
    Duplicates(env, fs, todo) && OccupancyOf(env, fs, occ)
  }

  ghost predicate StoppedRun(env: Env, fs: Files, mid: Files)
  {
    exists todo, occ :: Reads(env, fs, todo, occ) && RunStops(env, fs, todo, occ, mid)
  }

  /** Runs, each starting from the files the one before left. */
  ghost predicate RunHistory(env: Env, h: seq<Files>)
  {
    h != [] && forall i :: 0 <= i < |h| - 1 ==> StoppedRun(env, h[i], h[i + 1])
  }

  // ------------------------------------------------------------ the situation

  ghost function Finished(c: Case): Files
  {
    Done(c.fs, c.ops, |c.ops|)
  }

  /** The cases of one run: each starts from the files, and the ids taken for held, that the one before leaves. */
  ghost predicate Chain(env: Env, fs: Files, seen: set<Text>, cs: seq<Case>)
    decreases |cs|
  {
    || cs == []
    || (cs[0].env == env && cs[0].fs == fs && cs[0].seen == seen
        && Chain(env, Finished(cs[0]), seen + Shorts(cs[0].ops), cs[1..]))
  }

  ghost function FinalFiles(fs: Files, cs: seq<Case>): Files
    decreases |cs|
  {
    if cs == [] then fs else FinalFiles(Finished(cs[0]), cs[1..])
  }

  /** The collision as it is in these files, with the ops that the run plans for it. */
  ghost predicate Stands(env: Env, c: Case, fs: Files)
  {
    && c.env == env && c.losers != [] && c.LosersDiffer()
    && c.(fs := fs).MembersRead() && c.(fs := fs).NoLookalike()
    && FreshPlan(c.env, c.losers, c.x, c.seen) == Ok(c.ops)
  }

  ghost predicate Unlike(c: Case, i: nat, d: Case, m: nat, s: Text)
    requires i < |c.losers| && m < |d.losers|
  {
    Render(c.env, c.losers[i].raw, s) != Render(d.env, d.losers[m].raw, s)
  }

  /** No loser of the one holds the same text, apart from ids, as a loser of the other. */
  ghost predicate Apart(c: Case, d: Case)
  {
    forall i, m, s {:trigger Unlike(c, i, d, m, s)} ::
      0 <= i < |c.losers| && 0 <= m < |d.losers| ==> Unlike(c, i, d, m, s)
  }

  ghost predicate Covers(cs: seq<Case>, x: Text)
  {
    exists k :: 0 <= k < |cs| && cs[k].x == x
  }

  /** In string order, and no two losers alike. */
  ghost predicate InOrder(cs: seq<Case>)
  {
    forall k, m :: 0 <= k < m < |cs| ==> AsciiLess(cs[k].x, cs[m].x) && Apart(cs[k], cs[m])
  }

  /** These are the collisions of the files, in the order in which the run repairs them. */
  ghost predicate Due(env: Env, fs: Files, seen: set<Text>, cs: seq<Case>)
  {
    && Sane(env) && HeldIn(env, fs) <= seen && Chain(env, fs, seen, cs)
    && (forall k :: 0 <= k < |cs| ==> Stands(env, cs[k], fs))
    && InOrder(cs)
    && (forall p, q :: Collide(env, fs, p, q) ==> Covers(cs, RowShort(env, p, fs[p])))
  }

  ghost predicate AllSteady(cs: seq<Case>)
  {
    forall k :: 0 <= k < |cs| ==> cs[k].Steady()
  }

  // ------------------------------------------------------------ one collision beside another

  lemma MemberHolds(c: Case, r: Rec)
    requires c.Member(r)
    ensures c.x in HeldIn(c.env, c.fs)
  {
    assert Holds(c.env, r.path, c.fs[r.path], c.x);
    if r.path.short != c.x {
      assert r.path in c.fs && FenceShort(c.env, c.fs[r.path]).Some?;
    }
  }

  /** A file under another id is not moved. */
  lemma OthersStay(c: Case, j: nat, half: bool, p: Path)
    requires c.Core() && j <= |c.ops| && (half ==> j < |c.ops|) && p in c.fs && RowShort(c.env, p, c.fs[p]) != c.x
    ensures p in Progress(c, j, half) && Progress(c, j, half)[p] == c.fs[p]
  {
    forall i | 0 <= i < j ensures c.ops[i].src != p { assert c.OpFits(i); }
    ProgressAt(c, j, half, p);
  }

  /** A file written part-way has an id that was not taken for held. */
  lemma WrittenIsNew(c: Case, j: nat, half: bool, p: Path) returns (i: nat)
    requires c.Core() && j <= |c.ops| && (half ==> j < |c.ops|) && p in Progress(c, j, half) && p !in c.fs
    ensures i < Started(j, half) && p == c.ops[i].dst && Progress(c, j, half)[p] == c.ops[i].content && c.OpFits(i)
    ensures RowShort(c.env, p, Progress(c, j, half)[p]) == p.short && p.short !in c.seen
  {
    i := ProgressFile(c, j, half, p);
  }

  lemma OtherMemberStays(c: Case, d: Case, now: Files, j: nat, half: bool, r: Rec)
    requires c.Core() && PartWay(c, now, j, half) && d.env == c.env && d.x != c.x
    requires d.(fs := c.fs).Member(r)
    ensures d.(fs := now).Member(r)
  {
    OthersStay(c, j, half, r.path);
  }

  lemma OtherListedStays(c: Case, d: Case, now: Files, j: nat, half: bool, p: Path)
    requires c.Core() && PartWay(c, now, j, half) && d.env == c.env && d.x in c.seen
    requires d.(fs := c.fs).Listed(p)
    ensures d.(fs := now).Listed(p)
  {
    if p in now {
      if p in c.fs {
        var _ := ProgressFile(c, j, half, p);
      } else {
        var _ := WrittenIsNew(c, j, half, p);
      }
    }
  }

  lemma OtherMembersStay(c: Case, d: Case, now: Files, j: nat, half: bool)
    requires c.Core() && PartWay(c, now, j, half) && d.env == c.env && d.x != c.x && d.x in c.seen
    requires d.(fs := c.fs).MembersRead()
    ensures d.(fs := now).MembersRead()
  {
    var (was, after) := (d.(fs := c.fs), d.(fs := now));
    OtherMemberStays(c, d, now, j, half, d.keeper);
    forall i | 0 <= i < |d.losers| ensures after.LoserAt(i) {
      assert was.LoserAt(i);
      OtherMemberStays(c, d, now, j, half, d.losers[i]);
    }
    forall p ensures after.Listed(p) {
      assert was.Listed(p);
      OtherListedStays(c, d, now, j, half, p);
    }
  }

  /** What is written for one collision is no lookalike for another. */
  lemma NoLookalikeStays(c: Case, d: Case, now: Files, j: nat, half: bool)
    requires c.Core() && Sane(c.env) && PartWay(c, now, j, half) && d.env == c.env && Apart(c, d)
    requires d.(fs := c.fs).NoLookalike() && d.(fs := c.fs).MembersRead()
    ensures d.(fs := now).NoLookalike()
  {
    forall p, m, s | 0 <= m < |d.losers| ensures !d.(fs := now).Alike(p, m, s) {
      assert !d.(fs := c.fs).Alike(p, m, s);
      if p in now {
        if p in c.fs {
          var _ := ProgressFile(c, j, half, p);
        } else {
          var i := WrittenIsNew(c, j, half, p);
          assert d.(fs := c.fs).LoserAt(m);
          RenderedFence(d.env, d.losers[m].raw, s);
          assert Unlike(c, i, d, m, s);
        }
      }
    }
  }

  lemma StandsPartWay(c: Case, d: Case, now: Files, j: nat, half: bool)
    requires c.Core() && Sane(c.env) && PartWay(c, now, j, half) && Apart(c, d) && d.x != c.x
    requires Stands(c.env, d, c.fs)
    ensures Stands(c.env, d, now)
  {
    MemberHolds(d.(fs := c.fs), d.keeper);
    OtherMembersStay(c, d, now, j, half);
    NoLookalikeStays(c, d, now, j, half);
  }

  /** Part-way through a collision no two files share an id that did not share it before. */
  lemma CollideBefore(c: Case, now: Files, j: nat, half: bool, p: Path, q: Path)
    requires c.Core() && PartWay(c, now, j, half) && Collide(c.env, now, p, q)
    ensures Collide(c.env, c.fs, p, q) && RowShort(c.env, p, c.fs[p]) == RowShort(c.env, p, now[p])
  {
    if p in c.fs {
      var _ := ProgressFile(c, j, half, p);
      if q in c.fs {
        var _ := ProgressFile(c, j, half, q);
      } else {
        var _ := WrittenIsNew(c, j, half, q);
      }
    } else {
      var _ := WrittenIsNew(c, j, half, p);
      if q in c.fs {
        var _ := ProgressFile(c, j, half, q);
      } else {
        var _ := WrittenIsNew(c, j, half, q);
      }
    }
  }

  /** Once it is repaired, only the keeper has the id. */
  lemma RepairedIsUnique(c: Case, p: Path, q: Path)
    requires c.Core() && c.MembersRead() && Collide(c.env, Finished(c), p, q)
    ensures RowShort(c.env, p, Finished(c)[p]) != c.x
  {
    var (now, n) := (Finished(c), |c.ops|);
    if RowShort(c.env, p, now[p]) == c.x {
      MembersPartWay(c, n, false, Rec(p, now[p]));
      MembersPartWay(c, n, false, Rec(q, now[q]));
    }
  }

  // ------------------------------------------------------------ from one collision to the next

  lemma FirstIsPlanned(env: Env, fs: Files, seen: set<Text>, cs: seq<Case>)
    requires Due(env, fs, seen, cs) && cs != []
    ensures cs[0].Planned() && cs[0].Core() && cs[0].env == env && cs[0].fs == fs && cs[0].seen == seen
  {
    var c := cs[0];
    assert Stands(env, c, fs) && c.(fs := fs) == c;
    PlannedHasCore(c);
  }

  lemma XsDiffer(a: Text, b: Text)
    requires AsciiLess(a, b)
    ensures a != b
  {
    Irreflexive(ShortBytes(a));
  }

  /** The other collisions stand wherever the first one is. */
  lemma OthersStand(env: Env, fs: Files, seen: set<Text>, cs: seq<Case>, now: Files, j: nat, half: bool, k: nat)
    requires Due(env, fs, seen, cs) && 0 < k < |cs| && PartWay(cs[0], now, j, half)
    ensures Stands(env, cs[k], now)
  {
    FirstIsPlanned(env, fs, seen, cs);
    assert Stands(env, cs[k], fs) && Apart(cs[0], cs[k]);
    XsDiffer(cs[0].x, cs[k].x);
    StandsPartWay(cs[0], cs[k], now, j, half);
  }

  lemma HeldAfterwards(c: Case)
    requires c.Core()
    ensures HeldIn(c.env, Finished(c)) <= c.seen + Shorts(c.ops)
  {
    forall e | e in HeldIn(c.env, Finished(c)) ensures e in c.seen + Shorts(c.ops) {
      HeldBefore(c, |c.ops|, false, e);
      assert c.ops[..|c.ops|] == c.ops;
    }
  }

  lemma CoversRest(cs: seq<Case>, rest: seq<Case>, x: Text)
    requires cs != [] && rest == cs[1..] && Covers(cs, x) && x != cs[0].x
    ensures Covers(rest, x)
  {
    var k :| 0 <= k < |cs| && cs[k].x == x;
    assert rest[k - 1] == cs[k];
  }

  lemma CollideCovered(env: Env, fs: Files, seen: set<Text>, cs: seq<Case>, rest: seq<Case>, now: Files)
    requires Due(env, fs, seen, cs) && cs != [] && rest == cs[1..] && now == Finished(cs[0])
    ensures forall p, q :: Collide(env, now, p, q) ==> Covers(rest, RowShort(env, p, now[p]))
  {
    var c := cs[0];
    FirstIsPlanned(env, fs, seen, cs);
    forall p, q | Collide(env, now, p, q) ensures Covers(rest, RowShort(env, p, now[p])) {
      CollideBefore(c, now, |c.ops|, false, p, q);
      RepairedIsUnique(c, p, q);
      CoversRest(cs, rest, RowShort(env, p, now[p]));
    }
  }

  lemma RestInOrder(cs: seq<Case>, rest: seq<Case>)
    requires InOrder(cs) && cs != [] && rest == cs[1..]
    ensures InOrder(rest)
  {
    forall k, m | 0 <= k < m < |rest| ensures AsciiLess(rest[k].x, rest[m].x) && Apart(rest[k], rest[m]) {
      assert rest[k] == cs[k + 1] && rest[m] == cs[m + 1];
    }
  }

  lemma OtherStandsAfter(env: Env, fs: Files, seen: set<Text>, cs: seq<Case>, now: Files, k: nat)
    requires Due(env, fs, seen, cs) && 0 < k < |cs| && now == Finished(cs[0])
    ensures Stands(env, cs[k], now)
  {
    OthersStand(env, fs, seen, cs, now, |cs[0].ops|, false, k);
  }

  lemma RestStands(env: Env, fs: Files, seen: set<Text>, cs: seq<Case>, rest: seq<Case>, now: Files)
    requires Due(env, fs, seen, cs) && cs != [] && rest == cs[1..] && now == Finished(cs[0])
    ensures forall k :: 0 <= k < |rest| ==> Stands(env, rest[k], now)
  {
    forall k | 0 < k < |cs| ensures Stands(env, cs[k], now) { OtherStandsAfter(env, fs, seen, cs, now, k); }
    assert forall k :: 0 <= k < |rest| ==> rest[k] == cs[k + 1];
  }

  /** Once the first collision is repaired, the others are due. */
  lemma RestIsDue(env: Env, fs: Files, seen: set<Text>, cs: seq<Case>, rest: seq<Case>, now: Files, more: set<Text>)
    requires Due(env, fs, seen, cs) && cs != [] && rest == cs[1..]
    requires now == Finished(cs[0]) && more == seen + Shorts(cs[0].ops)
    ensures Due(env, now, more, rest)
  {
    FirstIsPlanned(env, fs, seen, cs);
    HeldAfterwards(cs[0]);
    RestStands(env, fs, seen, cs, rest, now);
    RestInOrder(cs, rest);
    CollideCovered(env, fs, seen, cs, rest, now);
  }

  // ------------------------------------------------------------ what a run reads

  /** However the index lists the members, they sort into the keeper and the losers. */
  lemma ListingSortsAll(c: Case, rows: seq<Rec>)
    requires Sane(c.env) && c.MembersRead() && Lists(c.env, c.fs, c.x, rows)
    ensures StableSort(rows, KeeperOrder(c.env)) == [c.keeper] + c.losers
  {
    var all := [c.keeper] + c.losers;
    forall r ensures r in rows <==> r in all {
      if r in rows { assert c.Listed(r.path); ListedIsMember(c, r); }
      if r in all { MemberIsListed(c, rows, r); }
    }
    RestSorted(c, 0);
    assert c.losers[0..] == c.losers;
    SameElements(rows, all);
    KeeperSortIsDetermined(c.env, rows, all);
  }

  lemma ListedIsMember(c: Case, r: Rec)
    requires c.MembersRead() && r.path in c.fs && c.fs[r.path] == r.raw && RowShort(c.env, r.path, r.raw) == c.x
    ensures r in [c.keeper] + c.losers
  {
    assert c.Listed(r.path);
    if r.path != c.keeper.path {
      var i :| 0 <= i < |c.losers| && c.losers[i].path == r.path;
      assert c.LoserAt(i) && c.losers[i] == r;
    }
  }

  lemma MemberIsListed(c: Case, rows: seq<Rec>, r: Rec)
    requires c.MembersRead() && Lists(c.env, c.fs, c.x, rows) && r in [c.keeper] + c.losers
    ensures r in rows
  {
    if r != c.keeper {
      var i :| 0 <= i < |c.losers| && c.losers[i] == r;
      assert c.LoserAt(i);
    }
    assert c.Member(r) && Rec(r.path, c.fs[r.path]) == r;
  }

  function Xs(todo: seq<Group>): seq<Text>
  {
    seq(|todo|, i requires 0 <= i < |todo| => todo[i].x)
  }

  function CaseXs(cs: seq<Case>): seq<Text>
  {
    seq(|cs|, i requires 0 <= i < |cs| => cs[i].x)
  }

  ghost predicate Ascending(xs: seq<Text>)
  {
    forall i, j :: 0 <= i < j < |xs| ==> AsciiLess(xs[i], xs[j])
  }

  lemma AscendingSorts(a: seq<Text>)
    requires Ascending(a)
    ensures Sorted(a, AsciiLess) && NoRepeats(a)
    ensures forall x, y :: x in a && y in a && x != y ==> AsciiLess(x, y) || AsciiLess(y, x)
  {
    forall i, j | 0 <= i < j < |a| ensures !AsciiLess(a[j], a[i]) && a[i] != a[j] {
      Asymmetric(ShortBytes(a[i]), ShortBytes(a[j]));
      XsDiffer(a[i], a[j]);
    }
    forall x, y | x in a && y in a && x != y ensures AsciiLess(x, y) || AsciiLess(y, x) {
      var i, j :| 0 <= i < |a| && 0 <= j < |a| && a[i] == x && a[j] == y;
      if i < j {} else {}
    }
  }

  lemma SameAscending(a: seq<Text>, b: seq<Text>)
    requires Ascending(a) && Ascending(b) && forall x :: x in a <==> x in b
    ensures a == b
  {
    AscendingSorts(a);
    AscendingSorts(b);
    SameElements(a, b);
    SortedUnique(a, b, AsciiLess);
  }

  /** A group has two files that share its id. */
  lemma GroupCollides(env: Env, fs: Files, g: Group) returns (p: Path, q: Path)
    requires |g.rows| >= 2 && Lists(env, fs, g.x, g.rows)
    ensures Collide(env, fs, p, q) && RowShort(env, p, fs[p]) == g.x
  {
    var (a, b) := (g.rows[0], g.rows[1]);
    p, q := a.path, b.path;
    assert a != b;
  }

  /** The keeper and any loser share their id. */
  lemma CaseCollides(c: Case, i: nat)
    requires c.MembersRead() && i < |c.losers|
    ensures Collide(c.env, c.fs, c.keeper.path, c.losers[i].path)
    ensures RowShort(c.env, c.keeper.path, c.fs[c.keeper.path]) == c.x
  {
    assert c.LoserAt(i);
  }

  /** Until its last loser is moved, a collision still is one. */
  lemma StillCollides(c: Case, now: Files, j: nat, half: bool)
    requires c.Core() && c.MembersRead() && PartWay(c, now, j, half) && j < |c.losers|
    ensures Collide(c.env, now, c.keeper.path, c.losers[j].path)
    ensures RowShort(c.env, c.keeper.path, now[c.keeper.path]) == c.x
  {
    var rest := [c.keeper] + c.losers[j..];
    assert rest[0] == c.keeper && rest[1] == c.losers[j];
    StaysMember(c, j, c.keeper);
    StaysMember(c, j, c.losers[j]);
    ProgressAt(c, j, half, c.keeper.path);
    ProgressAt(c, j, half, c.losers[j].path);
    assert c.LoserAt(j);
  }

  lemma CaseIsGrouped(
    env: Env, fs: Files, seen: set<Text>, cs: seq<Case>, now: Files, j: nat, half: bool, todo: seq<Group>, k: nat)
    requires Due(env, fs, seen, cs) && k < |cs| && PartWay(cs[0], now, j, half) && j < |cs[0].ops|
    requires Duplicates(env, now, todo)
    ensures Grouped(todo, cs[k].x)
  {
    FirstIsPlanned(env, fs, seen, cs);
    if k == 0 {
      StillCollides(cs[0], now, j, half);
    } else {
      OthersStand(env, fs, seen, cs, now, j, half, k);
      CaseCollides(cs[k].(fs := now), 0);
    }
  }

  lemma GroupIsCase(
    env: Env, fs: Files, seen: set<Text>, cs: seq<Case>, now: Files, j: nat, half: bool, todo: seq<Group>, i: nat)
    requires Due(env, fs, seen, cs) && cs != [] && PartWay(cs[0], now, j, half)
    requires Duplicates(env, now, todo) && i < |todo|
    ensures Covers(cs, todo[i].x)
  {
    FirstIsPlanned(env, fs, seen, cs);
    var p, q := GroupCollides(env, now, todo[i]);
    CollideBefore(cs[0], now, j, half, p, q);
  }

  /** Two ascending lists that cover each other name the same ids. */
  lemma SameXs(cs: seq<Case>, todo: seq<Group>)
    requires forall i :: 0 <= i < |todo| ==> Covers(cs, todo[i].x)
    requires forall k :: 0 <= k < |cs| ==> Grouped(todo, cs[k].x)
    requires forall k, m :: 0 <= k < m < |cs| ==> AsciiLess(cs[k].x, cs[m].x)
    requires forall i, j :: 0 <= i < j < |todo| ==> AsciiLess(todo[i].x, todo[j].x)
    ensures |cs| == |todo| && forall k :: 0 <= k < |cs| ==> todo[k].x == cs[k].x
  {
    var (a, b) := (Xs(todo), CaseXs(cs));
    forall x ensures x in a <==> x in b {
      if x in a {
        var i :| 0 <= i < |todo| && a[i] == x;
        assert Covers(cs, todo[i].x);
        var k :| 0 <= k < |cs| && cs[k].x == x;
        assert b[k] == x;
      }
      if x in b {
        var k :| 0 <= k < |cs| && b[k] == x;
        assert Grouped(todo, cs[k].x);
        var i :| 0 <= i < |todo| && todo[i].x == x;
        assert a[i] == x;
      }
    }
    SameAscending(a, b);
    assert |a| == |todo| && |b| == |cs|;
    forall k | 0 <= k < |cs| ensures todo[k].x == cs[k].x { assert a[k] == b[k]; }
  }

  /** A run that starts part-way reads the collisions that are left, in the same order. */
  lemma ReadsInOrder(
    env: Env, fs: Files, seen: set<Text>, cs: seq<Case>, now: Files, j: nat, half: bool, todo: seq<Group>)
    requires Due(env, fs, seen, cs) && cs != [] && PartWay(cs[0], now, j, half) && j < |cs[0].ops|
    requires Duplicates(env, now, todo)
    ensures |cs| == |todo| && forall k :: 0 <= k < |cs| ==> todo[k].x == cs[k].x
  {
    forall i | 0 <= i < |todo| ensures Covers(cs, todo[i].x) {
      GroupIsCase(env, fs, seen, cs, now, j, half, todo, i);
    }
    forall k | 0 <= k < |cs| ensures Grouped(todo, cs[k].x) {
      CaseIsGrouped(env, fs, seen, cs, now, j, half, todo, k);
    }
    SameXs(cs, todo);
  }

  ghost predicate Matched(c: Case, g: Group)
  {
    g.x == c.x && LosersOf(c.env, g.rows) == c.losers
  }

  ghost predicate AllMatched(cs: seq<Case>, todo: seq<Group>)
  {
    |cs| == |todo| && forall k :: 0 <= k < |cs| ==> Matched(cs[k], todo[k])
  }

  lemma LosersListed(c: Case, rows: seq<Rec>)
    requires Sane(c.env) && c.MembersRead() && |rows| >= 2 && Lists(c.env, c.fs, c.x, rows)
    ensures LosersOf(c.env, rows) == c.losers
  {
    ListingSortsAll(c, rows);
  }

  lemma OtherIsMatched(
    env: Env, fs: Files, seen: set<Text>, cs: seq<Case>, now: Files, j: nat, half: bool, todo: seq<Group>, k: nat)
    requires Due(env, fs, seen, cs) && 0 < k < |cs| && PartWay(cs[0], now, j, half)
    requires Duplicates(env, now, todo) && k < |todo| && todo[k].x == cs[k].x
    ensures Matched(cs[k], todo[k])
  {
    OthersStand(env, fs, seen, cs, now, j, half, k);
    LosersListed(cs[k].(fs := now), todo[k].rows);
  }

  lemma FirstIsMatched(c: Case, now: Files, j: nat, half: bool, rows: seq<Rec>)
    requires c.Planned() && PartWay(c, now, j, half) && |rows| >= 2 && Lists(c.env, now, c.x, rows)
    ensures |c.losers| == |c.ops| && LosersOf(c.env, rows) == c.losers[j..]
  {
    ListingSorts(c, j, half, rows);
    assert ([c.keeper] + c.losers[j..])[1..] == c.losers[j..];
  }

  lemma OthersMatch(env: Env, fs: Files, seen: set<Text>, cs: seq<Case>, now: Files, j: nat, half: bool,
                    todo: seq<Group>)
    requires Due(env, fs, seen, cs) && cs != [] && PartWay(cs[0], now, j, half) && Duplicates(env, now, todo)
    requires |cs| == |todo| && forall k :: 0 <= k < |cs| ==> todo[k].x == cs[k].x
    ensures forall k :: 0 < k < |cs| ==> Matched(cs[k], todo[k])
  {
    forall k | 0 < k < |cs| ensures Matched(cs[k], todo[k]) {
      OtherIsMatched(env, fs, seen, cs, now, j, half, todo, k);
    }
  }

  lemma TailsMatch(cs: seq<Case>, todo: seq<Group>, cases: seq<Case>, groups: seq<Group>)
    requires cs != [] && |cs| == |todo| && cases == cs[1..] && groups == todo[1..]
    requires forall k :: 0 < k < |cs| ==> Matched(cs[k], todo[k])
    ensures AllMatched(cases, groups)
  {
    forall k | 0 <= k < |cases| ensures Matched(cases[k], groups[k]) {
      assert cases[k] == cs[k + 1] && groups[k] == todo[k + 1];
    }
  }

  /** So the losers it plans for are those that are left. */
  lemma ReadsMatch(env: Env, fs: Files, seen: set<Text>, cs: seq<Case>, now: Files, j: nat, half: bool,
                   todo: seq<Group>, cases: seq<Case>, groups: seq<Group>)
    requires Due(env, fs, seen, cs) && cs != [] && PartWay(cs[0], now, j, half) && j < |cs[0].ops|
    requires Duplicates(env, now, todo) && cases == cs[1..] && (todo != [] ==> groups == todo[1..])
    ensures |cs[0].losers| == |cs[0].ops| && todo != [] && todo[0].x == cs[0].x
    ensures LosersOf(env, todo[0].rows) == cs[0].losers[j..] && AllMatched(cases, groups)
  {
    ReadsInOrder(env, fs, seen, cs, now, j, half, todo);
    FirstIsPlanned(env, fs, seen, cs);
    FirstIsMatched(cs[0], now, j, half, todo[0].rows);
    OthersMatch(env, fs, seen, cs, now, j, half, todo);
    TailsMatch(cs, todo, cases, groups);
  }

  // ------------------------------------------------------------ planning with a carried map

  /** A map that may stand for the files: it knows every id held, takes none for held that was never seen, and names no
      file for an id that the file does not hold. */
  ghost predicate Fits(env: Env, fs: Files, seen: set<Text>, occ: Occupied)
  {
    && HeldIn(env, fs) <= occ.Keys <= seen
    && (forall s :: s in occ ==> occ[s].short in seen)
    && (forall s :: s in occ && occ[s] in fs ==> Holds(env, occ[s], fs[occ[s]], s))
  }

  lemma NameIsHeld(env: Env, fs: Files, p: Path)
    requires p in fs
    ensures p.short in HeldIn(env, fs)
  {
  }

  lemma ReadMapFits(c: Case, now: Files, j: nat, half: bool, occ: Occupied, known: set<Text>)
    requires c.Core() && PartWay(c, now, j, half) && OccupancyOf(c.env, now, occ)
    requires known == c.seen + Shorts(c.ops[..Started(j, half)])
    ensures Fits(c.env, now, known, occ)
  {
    OccupancyHolds(c.env, now, occ);
    HeldIsKnown(c, now, j, half, known);
    forall s | s in occ ensures occ[s].short in known { NameIsHeld(c.env, now, occ[s]); }
  }

  lemma HeldIsKnown(c: Case, now: Files, j: nat, half: bool, known: set<Text>)
    requires c.Core() && PartWay(c, now, j, half) && known == c.seen + Shorts(c.ops[..Started(j, half)])
    ensures HeldIn(c.env, now) <= known
  {
    forall e | e in HeldIn(c.env, now) ensures e in known { HeldBefore(c, j, half, e); }
  }

  /** What is seen but unknown to the map is free, and comes after everything planned. */
  lemma UnknownIsLater(c: Case, occ: Occupied)
    requires c.Core() && c.Steady() && c.ops != [] && Fits(c.env, c.fs, c.seen, occ)
    ensures SameUpTo(c.x, c.ops[|c.ops| - 1].dst.short, occ.Keys, c.seen)
  {
    var n := |c.ops| - 1;
    assert c.OpFits(n);
    forall e | Extends(e, c.x) && UpTo(e, c.ops[n].dst.short) ensures e in occ.Keys <==> e in c.seen {
      assert !c.FreesEarlier(e);
    }
  }

  /** The next collision is planned as in an uninterrupted run. */
  lemma PlanHere(c: Case, occ: Occupied)
    requires c.Planned() && c.losers != [] && Fits(c.env, c.fs, c.seen, occ) && (c.Steady() || occ.Keys == c.seen)
    ensures Plan(c.env, c.fs, c.losers, c.x, occ) == Ok(c.ops)
  {
    PlannedHasCore(c);
    CleanAfter(c, 0, false);
    assert Progress(c, 0, false) == c.fs;
    PlanWithoutResume(c.env, c.fs, c.losers, c.x, occ);
    if occ.Keys != c.seen {
      UnknownIsLater(c, occ);
      AllUpToLast(c);
      FreshPlanUpTo(c.env, c.losers, c.x, c.ops[|c.ops| - 1].dst.short, occ.Keys, c.seen, c.ops);
    }
  }

  /** Every id held when the collision is repaired is known to the map, or was given by the ops that were left. */
  lemma HeldIsKnownAfter(c: Case, now: Files, j: nat, half: bool, ops: seq<Op>, s: Text)
    requires c.Core() && PartWay(c, now, j, half) && ops == c.ops[j..] && s in HeldIn(c.env, Finished(c))
    ensures s in HeldIn(c.env, now) || Goes(ops, s)
  {
    var n := |c.ops|;
    var p := Holder(c.env, Finished(c), s);
    var i := ProgressFile(c, n, false, p);
    if p in c.fs {
      assert !IsSrc(c.ops, j, p) by { assert forall k :: 0 <= k < j ==> c.ops[k].src != p; }
      ProgressAt(c, j, half, p);
    } else if i < j {
      ProgressDst(c, j, half, i);
    } else {
      assert ops[i - j] == c.ops[i];
    }
  }

  /** A known file that is there afterwards is the same as before. */
  lemma KnownFileStays(c: Case, now: Files, j: nat, half: bool, p: Path)
    requires c.Core() && PartWay(c, now, j, half) && p in Finished(c)
    requires p.short in c.seen + Shorts(c.ops[..Started(j, half)])
    ensures p in now && now[p] == Finished(c)[p]
  {
    var n := |c.ops|;
    var i := ProgressFile(c, n, false, p);
    if p in c.fs {
      assert !IsSrc(c.ops, j, p) by { assert forall k :: 0 <= k < j ==> c.ops[k].src != p; }
      ProgressAt(c, j, half, p);
    } else {
      var m :| 0 <= m < Started(j, half) && c.ops[m].dst.short == c.ops[i].dst.short;
      assert m == i by { if m < i {} else {} }
      ProgressDst(c, j, half, i);
    }
  }

  lemma KnownFileHolds(c: Case, now: Files, j: nat, half: bool, occ: Occupied, known: set<Text>, s: Text)
    requires c.Core() && PartWay(c, now, j, half) && known == c.seen + Shorts(c.ops[..Started(j, half)])
    requires Fits(c.env, now, known, occ) && s in occ && occ[s] in Finished(c)
    ensures Holds(c.env, occ[s], Finished(c)[occ[s]], s)
  {
    KnownFileStays(c, now, j, half, occ[s]);
  }

  lemma ShortsGo(c: Case, j: nat, ops: seq<Op>, s: Text)
    requires j <= |c.ops| && ops == c.ops[j..] && Goes(ops, s)
    ensures s in Shorts(c.ops)
  {
    var i :| 0 <= i < |ops| && ops[i].dst.short == s;
    assert c.ops[j + i].dst.short == s;
  }

  lemma ShortsOfFirst(c: Case, n: nat)
    requires n <= |c.ops|
    ensures Shorts(c.ops[..n]) <= Shorts(c.ops)
  {
    forall s | s in Shorts(c.ops[..n]) ensures s in Shorts(c.ops) {
      var i :| 0 <= i < n && c.ops[..n][i].dst.short == s;
      assert c.ops[i].dst.short == s;
    }
  }

  /** The map `after` has what `occ` had and the ids of the ops' destinations, with their names. */
  ghost predicate Claims(occ: Occupied, ops: seq<Op>, after: Occupied)
  {
    && (forall s :: s in occ ==> s in after && after[s] == occ[s])
    && (forall s :: s in after <==> s in occ || Goes(ops, s))
    && (forall s :: s in after && s !in occ ==> after[s].short == s)
  }

  lemma ClaimsSeen(c: Case, j: nat, occ: Occupied, known: set<Text>, ops: seq<Op>, after: Occupied)
    requires j <= |c.ops| && ops == c.ops[j..] && Claims(occ, ops, after) && occ.Keys <= known
    requires known <= c.seen + Shorts(c.ops) && forall s :: s in occ ==> occ[s].short in known
    ensures after.Keys <= c.seen + Shorts(c.ops) && forall s :: s in after ==> after[s].short in c.seen + Shorts(c.ops)
  {
    forall s | s in after ensures s in c.seen + Shorts(c.ops) { if s !in occ { ShortsGo(c, j, ops, s); } }
  }

  lemma ClaimsHeld(c: Case, now: Files, j: nat, half: bool, occ: Occupied, ops: seq<Op>, after: Occupied)
    requires c.Core() && PartWay(c, now, j, half) && ops == c.ops[j..] && Claims(occ, ops, after)
    requires HeldIn(c.env, now) <= occ.Keys
    ensures HeldIn(c.env, Finished(c)) <= after.Keys
  {
    forall s | s in HeldIn(c.env, Finished(c)) ensures s in after { HeldIsKnownAfter(c, now, j, half, ops, s); }
  }

  lemma ClaimsHold(c: Case, now: Files, j: nat, half: bool, occ: Occupied, known: set<Text>, ops: seq<Op>,
                   after: Occupied)
    requires c.Core() && PartWay(c, now, j, half) && known == c.seen + Shorts(c.ops[..Started(j, half)])
    requires Fits(c.env, now, known, occ) && Claims(occ, ops, after)
    ensures forall s :: s in after && after[s] in Finished(c) ==> Holds(c.env, after[s], Finished(c)[after[s]], s)
  {
    forall s | s in after && after[s] in Finished(c) ensures Holds(c.env, after[s], Finished(c)[after[s]], s) {
      if s in occ { KnownFileHolds(c, now, j, half, occ, known, s); }
    }
  }

  /** The map that a collision's plan leaves fits the files that its ops leave. */
  lemma FitsNext(c: Case, now: Files, j: nat, half: bool, occ: Occupied, known: set<Text>, losers: seq<Rec>,
                 ops: seq<Op>, after: Occupied)
    requires c.Core() && PartWay(c, now, j, half) && known == c.seen + Shorts(c.ops[..Started(j, half)])
    requires Fits(c.env, now, known, occ) && losers == c.losers[j..] && ops == c.ops[j..]
    requires Plan(c.env, now, losers, c.x, occ) == Ok(ops) && after == OccupiedAfter(c.env, now, losers, c.x, occ)
    ensures Fits(c.env, Finished(c), c.seen + Shorts(c.ops), after)
  {
    FitsTakesNames(c.env, now, known, occ);
    PlanClaims(c.env, now, losers, c.x, occ, ops);
    assert Claims(occ, ops, after);
    ShortsOfFirst(c, Started(j, half));
    ClaimsSeen(c, j, occ, known, ops, after);
    ClaimsHeld(c, now, j, half, occ, ops, after);
    ClaimsHold(c, now, j, half, occ, known, ops, after);
  }

  lemma GoesIsShort(ops: seq<Op>, s: Text)
    ensures Goes(ops, s) <==> s in Shorts(ops)
  {
  }

  /** In a run that was not stopped before, the map knows exactly what was seen. */
  lemma KnowsAllNext(c: Case, occ: Occupied, after: Occupied)
    requires NamesTaken(c.fs, occ) && occ.Keys == c.seen
    requires Plan(c.env, c.fs, c.losers, c.x, occ) == Ok(c.ops)
    requires after == OccupiedAfter(c.env, c.fs, c.losers, c.x, occ)
    ensures after.Keys == c.seen + Shorts(c.ops)
  {
    PlanClaims(c.env, c.fs, c.losers, c.x, occ, c.ops);
    forall s ensures s in after.Keys <==> s in c.seen + Shorts(c.ops) { GoesIsShort(c.ops, s); }
  }

  lemma FitsTakesNames(env: Env, fs: Files, seen: set<Text>, occ: Occupied)
    requires Fits(env, fs, seen, occ)
    ensures NamesTaken(fs, occ)
  {
    forall p | p in fs ensures p.short in occ { NameIsHeld(env, fs, p); }
  }

  // ------------------------------------------------------------ the rest of a run

  /** Either no case is unsteady, or the map knows exactly what was seen. */
  ghost predicate Follows(seen: set<Text>, cs: seq<Case>, occ: Occupied)
  {
    AllSteady(cs) || occ.Keys == seen
  }

  lemma AppliesWhole(c: Case)
    requires c.Core()
    ensures ApplyAll(c.fs, c.ops) == Ok(Finished(c))
  {
    ApplyContinues(c, 0, false);
    assert c.ops[0..] == c.ops;
  }

  lemma FitsNextWhole(c: Case, occ: Occupied, after: Occupied)
    requires c.Core() && Fits(c.env, c.fs, c.seen, occ)
    requires Plan(c.env, c.fs, c.losers, c.x, occ) == Ok(c.ops)
    requires after == OccupiedAfter(c.env, c.fs, c.losers, c.x, occ)
    ensures Fits(c.env, Finished(c), c.seen + Shorts(c.ops), after)
    ensures occ.Keys == c.seen ==> after.Keys == c.seen + Shorts(c.ops)
  {
    assert c.ops[0..] == c.ops && c.losers[0..] == c.losers && c.ops[..0] == [];
    assert c.seen + Shorts([]) == c.seen && Progress(c, 0, false) == c.fs;
    FitsNext(c, c.fs, 0, false, occ, c.seen, c.losers, c.ops, after);
    FitsTakesNames(c.env, c.fs, c.seen, occ);
    if occ.Keys == c.seen { KnowsAllNext(c, occ, after); }
  }

  lemma OneCollision(c: Case, occ: Occupied, after: Occupied)
    requires c.Planned() && c.Core() && c.losers != [] && Fits(c.env, c.fs, c.seen, occ)
    requires c.Steady() || occ.Keys == c.seen
    requires after == OccupiedAfter(c.env, c.fs, c.losers, c.x, occ)
    ensures Plan(c.env, c.fs, c.losers, c.x, occ) == Ok(c.ops) && ApplyAll(c.fs, c.ops) == Ok(Finished(c))
    ensures Fits(c.env, Finished(c), c.seen + Shorts(c.ops), after)
    ensures occ.Keys == c.seen ==> after.Keys == c.seen + Shorts(c.ops)
  {
    PlanHere(c, occ);
    AppliesWhole(c);
    FitsNextWhole(c, occ, after);
  }

  /** The run is about to repair the first of these cases, and knows enough to follow them all. */
  ghost predicate Running(env: Env, fs: Files, seen: set<Text>, cs: seq<Case>, todo: seq<Group>, occ: Occupied)
  {
    Due(env, fs, seen, cs) && AllMatched(cs, todo) && Fits(env, fs, seen, occ) && Follows(seen, cs, occ)
  }

  /** One collision of a run. */
  lemma RunsOne(env: Env, fs: Files, todo: seq<Group>, occ: Occupied, losers: seq<Rec>, ops: seq<Op>, next: Files,
                after: Occupied, groups: seq<Group>)
    requires todo != [] && groups == todo[1..] && losers == LosersOf(env, todo[0].rows)
    requires Plan(env, fs, losers, todo[0].x, occ) == Ok(ops) && ApplyAll(fs, ops) == Ok(next)
    requires after == OccupiedAfter(env, fs, losers, todo[0].x, occ)
    ensures RunEnds(env, fs, todo, occ) == RunEnds(env, next, groups, after)
    ensures forall mid :: RunStops(env, fs, todo, occ, mid) <==>
              mid == fs || StopsAt(fs, ops, mid) || RunStops(env, next, groups, after, mid)
  {
  }

  lemma RestFollows(seen: set<Text>, cs: seq<Case>, occ: Occupied, more: set<Text>, rest: seq<Case>, after: Occupied)
    requires cs != [] && rest == cs[1..] && Follows(seen, cs, occ) && (occ.Keys == seen ==> after.Keys == more)
    ensures Follows(more, rest, after) && (cs[0].Steady() || occ.Keys == seen)
  {
  }

  lemma RestMatched(cs: seq<Case>, todo: seq<Group>, rest: seq<Case>, groups: seq<Group>)
    requires cs != [] && AllMatched(cs, todo) && rest == cs[1..] && groups == todo[1..]
    ensures AllMatched(rest, groups) && Matched(cs[0], todo[0])
  {
  }

  /** The first collision of a run that follows its cases. */
  lemma FirstOfRun(env: Env, fs: Files, seen: set<Text>, cs: seq<Case>, todo: seq<Group>, occ: Occupied,
                   next: Files, more: set<Text>, after: Occupied)
    requires Running(env, fs, seen, cs, todo, occ) && cs != [] && next == Finished(cs[0])
    requires more == seen + Shorts(cs[0].ops) && after == OccupiedAfter(env, fs, cs[0].losers, cs[0].x, occ)
    ensures Matched(cs[0], todo[0]) && cs[0].env == env
    ensures Plan(env, fs, cs[0].losers, cs[0].x, occ) == Ok(cs[0].ops) && ApplyAll(fs, cs[0].ops) == Ok(next)
    ensures Fits(env, next, more, after) && (occ.Keys == seen ==> after.Keys == more)
  {
    FirstIsPlanned(env, fs, seen, cs);
    assert Stands(env, cs[0], fs);
    assert cs[0].Steady() || occ.Keys == seen;
    OneCollision(cs[0], occ, after);
  }

  lemma StillRunning(env: Env, fs: Files, seen: set<Text>, cs: seq<Case>, todo: seq<Group>, occ: Occupied,
                     next: Files, more: set<Text>, rest: seq<Case>, groups: seq<Group>, after: Occupied)
    requires Running(env, fs, seen, cs, todo, occ) && cs != [] && rest == cs[1..] && groups == todo[1..]
    requires next == Finished(cs[0]) && more == seen + Shorts(cs[0].ops)
    requires Fits(env, next, more, after) && (occ.Keys == seen ==> after.Keys == more)
    ensures Running(env, next, more, rest, groups, after)
  {
    RestMatched(cs, todo, rest, groups);
    RestFollows(seen, cs, occ, more, rest, after);
    RestIsDue(env, fs, seen, cs, rest, next, more);
  }

  lemma NextRunning(env: Env, fs: Files, seen: set<Text>, cs: seq<Case>, todo: seq<Group>, occ: Occupied,
                    next: Files, more: set<Text>, rest: seq<Case>, groups: seq<Group>) returns (after: Occupied)
    requires Running(env, fs, seen, cs, todo, occ) && cs != [] && rest == cs[1..] && groups == todo[1..]
    requires next == Finished(cs[0]) && more == seen + Shorts(cs[0].ops)
    ensures Running(env, next, more, rest, groups, after) && (occ.Keys == seen ==> after.Keys == more)
    ensures RunEnds(env, fs, todo, occ) == RunEnds(env, next, groups, after)
    ensures forall mid :: RunStops(env, fs, todo, occ, mid) <==>
              mid == fs || StopsAt(fs, cs[0].ops, mid) || RunStops(env, next, groups, after, mid)
  {
    after := OccupiedAfter(env, fs, cs[0].losers, cs[0].x, occ);
    FirstOfRun(env, fs, seen, cs, todo, occ, next, more, after);
    StillRunning(env, fs, seen, cs, todo, occ, next, more, rest, groups, after);
    RunsOne(env, fs, todo, occ, cs[0].losers, cs[0].ops, next, after, groups);
  }

  lemma {:induction false} RestEnds(
    env: Env, fs: Files, seen: set<Text>, cs: seq<Case>, todo: seq<Group>, occ: Occupied)
    requires Running(env, fs, seen, cs, todo, occ)
    ensures RunEnds(env, fs, todo, occ) == Ok(FinalFiles(fs, cs))
    decreases |cs|
  {
    if cs != [] {
      var (next, more, rest, groups) := (Finished(cs[0]), seen + Shorts(cs[0].ops), cs[1..], todo[1..]);
      var after := NextRunning(env, fs, seen, cs, todo, occ, next, more, rest, groups);
      RestEnds(env, next, more, rest, groups, after);
    }
  }

  /** The files that an uninterrupted run passes through. */
  ghost predicate OnPath(fs: Files, cs: seq<Case>, mid: Files)
    decreases |cs|
  {
    || mid == fs
    || (cs != [] && ((exists j, half :: PartWay(cs[0], mid, j, half)) || OnPath(Finished(cs[0]), cs[1..], mid)))
  }

  lemma StopsPartWay(c: Case, now: Files, j: nat, half: bool, ops: seq<Op>, mid: Files)
    requires c.Core() && PartWay(c, now, j, half) && ops == c.ops[j..] && StopsAt(now, ops, mid)
    ensures exists k, h :: PartWay(c, mid, k, h)
  {
    StopsInProgress(c, j, half, mid);
    var k, h :| j <= k <= |c.ops| && (h ==> k < |c.ops|) && mid == Progress(c, k, h);
    assert PartWay(c, mid, k, h);
  }

  lemma StopsInFirst(env: Env, fs: Files, seen: set<Text>, cs: seq<Case>, mid: Files)
    requires Due(env, fs, seen, cs) && cs != [] && StopsAt(fs, cs[0].ops, mid)
    ensures exists j, half :: PartWay(cs[0], mid, j, half)
  {
    FirstIsPlanned(env, fs, seen, cs);
    assert cs[0].ops[0..] == cs[0].ops;
    StopsPartWay(cs[0], fs, 0, false, cs[0].ops, mid);
  }

  lemma {:induction false} RestStops(
    env: Env, fs: Files, seen: set<Text>, cs: seq<Case>, todo: seq<Group>, occ: Occupied, mid: Files)
    requires Running(env, fs, seen, cs, todo, occ) && RunStops(env, fs, todo, occ, mid)
    ensures OnPath(fs, cs, mid)
    decreases |cs|
  {
    if cs != [] && mid != fs {
      var (next, more, rest, groups) := (Finished(cs[0]), seen + Shorts(cs[0].ops), cs[1..], todo[1..]);
      var after := NextRunning(env, fs, seen, cs, todo, occ, next, more, rest, groups);
      if StopsAt(fs, cs[0].ops, mid) {
        StopsInFirst(env, fs, seen, cs, mid);
      } else {
        RestStops(env, next, more, rest, groups, after, mid);
      }
    }
  }

  // ------------------------------------------------------------ a run that starts part-way

  lemma ReplanFirst(c: Case, now: Files, j: nat, half: bool, occ: Occupied, losers: seq<Rec>, ops: seq<Op>,
                    after: Occupied)
    requires c.Valid() && c.Core() && PartWay(c, now, j, half) && OccupancyOf(c.env, now, occ)
    requires losers == c.losers[j..] && ops == c.ops[j..]
    requires after == OccupiedAfter(c.env, now, losers, c.x, occ)
    ensures Plan(c.env, now, losers, c.x, occ) == Ok(ops) && ApplyAll(now, ops) == Ok(Finished(c))
    ensures Fits(c.env, Finished(c), c.seen + Shorts(c.ops), after)
  {
    ReplanContinues(c, j, half, occ);
    ApplyContinues(c, j, half);
    var known := c.seen + Shorts(c.ops[..Started(j, half)]);
    ReadMapFits(c, now, j, half, occ, known);
    FitsNext(c, now, j, half, occ, known, losers, ops, after);
  }

  lemma ResumesFirst(env: Env, fs: Files, seen: set<Text>, cs: seq<Case>, now: Files, j: nat, half: bool,
                     todo: seq<Group>, occ: Occupied, rest: seq<Case>, groups: seq<Group>) returns (after: Occupied)
    requires Due(env, fs, seen, cs) && AllSteady(cs) && cs != [] && PartWay(cs[0], now, j, half)
    requires j < |cs[0].ops| && Reads(env, now, todo, occ) && rest == cs[1..] && (todo != [] ==> groups == todo[1..])
    ensures Fits(env, Finished(cs[0]), seen + Shorts(cs[0].ops), after) && AllMatched(rest, groups)
    ensures RunEnds(env, now, todo, occ) == RunEnds(env, Finished(cs[0]), groups, after)
    ensures forall mid :: RunStops(env, now, todo, occ, mid) <==>
              mid == now || StopsAt(now, cs[0].ops[j..], mid) || RunStops(env, Finished(cs[0]), groups, after, mid)
  {
    var c := cs[0];
    FirstIsPlanned(env, fs, seen, cs);
    ReadsMatch(env, fs, seen, cs, now, j, half, todo, rest, groups);
    var (losers, ops) := (c.losers[j..], c.ops[j..]);
    after := OccupiedAfter(env, now, losers, c.x, occ);
    ReplanFirst(c, now, j, half, occ, losers, ops, after);
    RunsOne(env, now, todo, occ, losers, ops, Finished(c), after, groups);
  }

  lemma FirstOnPath(
    env: Env, fs: Files, seen: set<Text>, cs: seq<Case>, now: Files, j: nat, half: bool, mid: Files)
    requires Due(env, fs, seen, cs) && cs != [] && PartWay(cs[0], now, j, half)
    requires mid == now || StopsAt(now, cs[0].ops[j..], mid)
    ensures OnPath(fs, cs, mid)
  {
    if mid != now {
      FirstIsPlanned(env, fs, seen, cs);
      StopsPartWay(cs[0], now, j, half, cs[0].ops[j..], mid);
    }
  }

  lemma RestIsRunning(env: Env, fs: Files, seen: set<Text>, cs: seq<Case>, rest: seq<Case>, next: Files,
                      more: set<Text>, groups: seq<Group>, after: Occupied)
    requires Due(env, fs, seen, cs) && AllSteady(cs) && cs != [] && rest == cs[1..]
    requires next == Finished(cs[0]) && more == seen + Shorts(cs[0].ops)
    requires Fits(env, next, more, after) && AllMatched(rest, groups)
    ensures Running(env, next, more, rest, groups, after)
  {
    RestIsDue(env, fs, seen, cs, rest, next, more);
    assert AllSteady(rest);
  }

  /** A run that starts part-way ends as one that was not stopped, and passes through the same files. */
  lemma FromPartWay(env: Env, fs: Files, seen: set<Text>, cs: seq<Case>, now: Files, j: nat, half: bool,
                    todo: seq<Group>, occ: Occupied)
    requires Due(env, fs, seen, cs) && AllSteady(cs) && cs != [] && PartWay(cs[0], now, j, half)
    requires j < |cs[0].ops| && Reads(env, now, todo, occ)
    ensures RunEnds(env, now, todo, occ) == Ok(FinalFiles(fs, cs))
    ensures forall mid :: RunStops(env, now, todo, occ, mid) ==> OnPath(fs, cs, mid)
  {
    var (rest, groups) := (cs[1..], if todo == [] then [] else todo[1..]);
    var (next, more) := (Finished(cs[0]), seen + Shorts(cs[0].ops));
    var after := ResumesFirst(env, fs, seen, cs, now, j, half, todo, occ, rest, groups);
    RestIsRunning(env, fs, seen, cs, rest, next, more, groups, after);
    RestEnds(env, next, more, rest, groups, after);
    forall mid | RunStops(env, now, todo, occ, mid) ensures OnPath(fs, cs, mid) {
      if mid == now || StopsAt(now, cs[0].ops[j..], mid) {
        FirstOnPath(env, fs, seen, cs, now, j, half, mid);
      } else {
        RestStops(env, next, more, rest, groups, after, mid);
      }
    }
  }

  lemma NothingLeft(env: Env, fs: Files, seen: set<Text>, todo: seq<Group>)
    requires Due(env, fs, seen, []) && Duplicates(env, fs, todo)
    ensures todo == []
  {
    if todo != [] {
      var p, q := GroupCollides(env, fs, todo[0]);
    }
  }

  /** Where a run was stopped: the collision it was at, how far it had got, and that the rest of the path is ahead. */
  ghost predicate Ahead(fs: Files, cs: seq<Case>, mid: Files, fs1: Files, cs1: seq<Case>, j: nat, half: bool)
  {
    && FinalFiles(fs1, cs1) == FinalFiles(fs, cs) && (AllSteady(cs) ==> AllSteady(cs1))
    && (forall m :: OnPath(fs1, cs1, m) ==> OnPath(fs, cs, m))
    && if cs1 == [] then mid == fs1 else j < |cs1[0].ops| && PartWay(cs1[0], mid, j, half)
  }

  lemma HasOps(env: Env, fs: Files, seen: set<Text>, cs: seq<Case>)
    requires Due(env, fs, seen, cs) && cs != []
    ensures |cs[0].ops| > 0 && PartWay(cs[0], fs, 0, false)
  {
    FirstIsPlanned(env, fs, seen, cs);
    assert Stands(env, cs[0], fs);
  }

  lemma PastFirst(fs: Files, cs: seq<Case>, mid: Files, next: Files, rest: seq<Case>)
    requires cs != [] && OnPath(fs, cs, mid) && mid != fs && next == Finished(cs[0]) && rest == cs[1..]
    requires forall j: nat, half: bool :: PartWay(cs[0], mid, j, half) ==> j >= |cs[0].ops|
    ensures OnPath(next, rest, mid)
  {
  }

  lemma AheadOfFirst(fs: Files, cs: seq<Case>, mid: Files, next: Files, rest: seq<Case>, fs1: Files, cs1: seq<Case>,
                     j: nat, half: bool)
    requires cs != [] && next == Finished(cs[0]) && rest == cs[1..] && Ahead(next, rest, mid, fs1, cs1, j, half)
    ensures Ahead(fs, cs, mid, fs1, cs1, j, half)
  {
    assert AllSteady(cs) ==> AllSteady(rest);
  }

  lemma {:induction false} Locate(env: Env, fs: Files, seen: set<Text>, cs: seq<Case>, mid: Files)
    returns (fs1: Files, seen1: set<Text>, cs1: seq<Case>, j: nat, half: bool)
    requires Due(env, fs, seen, cs) && OnPath(fs, cs, mid)
    ensures Due(env, fs1, seen1, cs1) && Ahead(fs, cs, mid, fs1, cs1, j, half)
    decreases |cs|
  {
    if cs == [] {
      fs1, seen1, cs1, j, half := fs, seen, cs, 0, false;
    } else if mid == fs {
      HasOps(env, fs, seen, cs);
      fs1, seen1, cs1, j, half := fs, seen, cs, 0, false;
    } else if i: nat, h: bool :| PartWay(cs[0], mid, i, h) && i < |cs[0].ops| {
      fs1, seen1, cs1, j, half := fs, seen, cs, i, h;
    } else {
      var (next, more, rest) := (Finished(cs[0]), seen + Shorts(cs[0].ops), cs[1..]);
      RestIsDue(env, fs, seen, cs, rest, next, more);
      PastFirst(fs, cs, mid, next, rest);
      fs1, seen1, cs1, j, half := Locate(env, next, more, rest, mid);
      AheadOfFirst(fs, cs, mid, next, rest, fs1, cs1, j, half);
    }
  }

  /** Whatever a run reads that starts anywhere on the path. */
  lemma AnyRun(env: Env, fs: Files, seen: set<Text>, cs: seq<Case>, mid: Files, todo: seq<Group>, occ: Occupied)
    requires Due(env, fs, seen, cs) && AllSteady(cs) && OnPath(fs, cs, mid) && Reads(env, mid, todo, occ)
    ensures RunEnds(env, mid, todo, occ) == Ok(FinalFiles(fs, cs))
    ensures forall m :: RunStops(env, mid, todo, occ, m) ==> OnPath(fs, cs, m)
  {
    var fs1, seen1, cs1, j, half := Locate(env, fs, seen, cs, mid);
    if cs1 == [] {
      NothingLeft(env, fs1, seen1, todo);
    } else {
      FromPartWay(env, fs1, seen1, cs1, mid, j, half, todo, occ);
    }
  }

  lemma {:induction false} RunsStayOnPath(env: Env, fs: Files, seen: set<Text>, cs: seq<Case>, h: seq<Files>)
    requires Due(env, fs, seen, cs) && AllSteady(cs) && RunHistory(env, h) && h[0] == fs
    ensures OnPath(fs, cs, h[|h| - 1])
    decreases |h|
  {
    if |h| > 1 {
      var before := h[..|h| - 1];
      RunsStayOnPath(env, fs, seen, cs, before);
      assert StoppedRun(env, h[|h| - 2], h[|h| - 2 + 1]);
      var todo, occ :| Reads(env, h[|h| - 2], todo, occ) && RunStops(env, h[|h| - 2], todo, occ, h[|h| - 1]);
      AnyRun(env, fs, seen, cs, h[|h| - 2], todo, occ);
    }
  }

  // ------------------------------------------------------------ why every collision must be steady

  /** Some map of the occupied ids. */
  ghost function SomeOccupied(env: Env, fs: Files): (occ: Occupied)
    ensures OccupancyOf(env, fs, occ)
  {
    HeldBySome(env, fs);
    map s | s in HeldIn(env, fs) :: var p :| p in fs && Holds(env, p, fs[p], s); p
  }

  lemma HeldBySome(env: Env, fs: Files)
    ensures forall s :: s in HeldIn(env, fs) <==> exists p :: p in fs && Holds(env, p, fs[p], s)
  {
  }

  lemma AllList(c: Case)
    requires c.MembersRead()
    ensures Lists(c.env, c.fs, c.x, [c.keeper] + c.losers)
  {
    var rows := [c.keeper] + c.losers;
    RestSorted(c, 0);
    assert c.losers[0..] == c.losers;
    forall i | 0 <= i < |rows| ensures c.Member(rows[i]) { if i > 0 { assert c.LoserAt(i - 1); } }
    forall p | p in c.fs && RowShort(c.env, p, c.fs[p]) == c.x ensures Rec(p, c.fs[p]) in rows {
      ListedIsMember(c, Rec(p, c.fs[p]));
    }
  }

  lemma RestList(c: Case, now: Files, j: nat, half: bool, rows: seq<Rec>)
    requires c.Core() && c.MembersRead() && PartWay(c, now, j, half) && rows == [c.keeper] + c.losers[j..]
    ensures Lists(c.env, now, c.x, rows)
  {
    RestSorted(c, j);
    forall i | 0 <= i < |rows| ensures c.Member(rows[i]) && rows[i].path in now && now[rows[i].path] == rows[i].raw {
      assert rows[i] in rows;
      StaysMember(c, j, rows[i]);
      ProgressAt(c, j, half, rows[i].path);
    }
    forall p | p in now && RowShort(c.env, p, now[p]) == c.x ensures Rec(p, now[p]) in rows {
      MembersPartWay(c, j, half, Rec(p, now[p]));
    }
  }

  /** The collisions as a run that starts part-way may list them. */
  function Listing(cs: seq<Case>, j: nat): seq<Group>
    requires cs != [] ==> j <= |cs[0].losers|
  {
    seq(|cs|, k requires 0 <= k < |cs| =>
      Group(cs[k].x, [cs[k].keeper] + if k == 0 then cs[k].losers[j..] else cs[k].losers))
  }

  lemma ListingIsRead(env: Env, fs: Files, seen: set<Text>, cs: seq<Case>, now: Files, j: nat, half: bool)
    requires Due(env, fs, seen, cs) && cs != [] && PartWay(cs[0], now, j, half) && j < |cs[0].ops|
    ensures |cs[0].losers| == |cs[0].ops| && Duplicates(env, now, Listing(cs, j))
  {
    FirstIsPlanned(env, fs, seen, cs);
    var todo := Listing(cs, j);
    forall k | 0 <= k < |todo| ensures |todo[k].rows| >= 2 && Lists(env, now, todo[k].x, todo[k].rows) {
      if k == 0 {
        RestList(cs[0], now, j, half, todo[0].rows);
      } else {
        OthersStand(env, fs, seen, cs, now, j, half, k);
        AllList(cs[k].(fs := now));
      }
    }
    forall p, q | Collide(env, now, p, q) ensures Grouped(todo, RowShort(env, p, now[p])) {
      CollideBefore(cs[0], now, j, half, p, q);
      var k :| 0 <= k < |cs| && cs[k].x == RowShort(env, p, now[p]);
      assert todo[k].x == cs[k].x;
    }
  }

  ghost predicate Has(fs: Files, p: Path, content: Text)
  {
    p in fs && fs[p] == content
  }

  lemma {:induction false} NotApplied(fs: Files, ops: seq<Op>, p: Path, content: Text)
    requires ApplyAll(fs, ops).Ok? && !Has(fs, p, content)
    requires forall i :: 0 <= i < |ops| ==> ops[i].content != content
    ensures !Has(ApplyAll(fs, ops).value, p, content)
    decreases |ops|
  {
    if ops != [] {
      var next := ApplyOp(fs, ops[0]).value;
      assert !Has(next, p, content);
      NotApplied(next, ops[1..], p, content);
    }
  }

  /** Whatever id it is given, no loser's text is this one. */
  ghost predicate NoneRenders(env: Env, losers: seq<Rec>, content: Text)
  {
    forall i, s :: 0 <= i < |losers| ==> Render(env, losers[i].raw, s) != content
  }

  lemma {:induction false} NotPlannedContent(
    env: Env, fs: Files, losers: seq<Rec>, x: Text, occ: Occupied, ops: seq<Op>, content: Text)
    requires Plan(env, fs, losers, x, occ) == Ok(ops) && NoneRenders(env, losers, content)
    ensures forall i :: 0 <= i < |ops| ==> ops[i].content != content
    decreases |losers|
  {
    if losers != [] {
      var resumed := PlanHead(env, fs, losers, x, occ, ops);
      assert ops[0].content != content;
      NotPlannedContent(env, fs, losers[1..], x, AfterFirst(occ, ops[0], resumed), ops[1..], content);
      assert ops == [ops[0]] + ops[1..];
    }
  }

  lemma {:induction false} NeverWritten(
    env: Env, fs: Files, todo: seq<Group>, occ: Occupied, p: Path, content: Text)
    requires RunEnds(env, fs, todo, occ).Ok? && !Has(fs, p, content)
    requires forall k :: 0 <= k < |todo| ==> NoneRenders(env, LosersOf(env, todo[k].rows), content)
    ensures !Has(RunEnds(env, fs, todo, occ).value, p, content)
    decreases |todo|
  {
    if todo != [] {
      var losers := LosersOf(env, todo[0].rows);
      var ops := Plan(env, fs, losers, todo[0].x, occ).value;
      NotPlannedContent(env, fs, losers, todo[0].x, occ, ops, content);
      NotApplied(fs, ops, p, content);
      var after := OccupiedAfter(env, fs, losers, todo[0].x, occ);
      NeverWritten(env, ApplyAll(fs, ops).value, todo[1..], after, p, content);
    }
  }

  /** A file under an id that no collision has stays to the end. */
  lemma {:induction false} StaysToTheEnd(
    env: Env, fs: Files, seen: set<Text>, cs: seq<Case>, p: Path, content: Text)
    requires Due(env, fs, seen, cs) && Has(fs, p, content) && !Covers(cs, RowShort(env, p, content))
    ensures Has(FinalFiles(fs, cs), p, content)
    decreases |cs|
  {
    if cs != [] {
      var (next, more, rest) := (Finished(cs[0]), seen + Shorts(cs[0].ops), cs[1..]);
      FirstIsPlanned(env, fs, seen, cs);
      assert cs[0].x != RowShort(env, p, content);
      OthersStay(cs[0], |cs[0].ops|, false, p);
      RestIsDue(env, fs, seen, cs, rest, next, more);
      NotCoveredLater(cs, rest, RowShort(env, p, content));
      StaysToTheEnd(env, next, more, rest, p, content);
    }
  }

  lemma OtherRendersNone(env: Env, c: Case, d: Case, n: nat, s: Text, fs: Files)
    requires Sane(env) && Apart(c, d) && c.env == env && Stands(env, d, fs) && n < |c.losers|
    requires env.parse(c.losers[n].raw).Some?
    ensures NoneRenders(env, d.losers, Render(env, c.losers[n].raw, s))
  {
    RenderedFence(env, c.losers[n].raw, s);
    forall m, u | 0 <= m < |d.losers| ensures Render(env, d.losers[m].raw, u) != Render(env, c.losers[n].raw, s) {
      assert d.(fs := fs).LoserAt(m);
      RenderedFence(env, d.losers[m].raw, u);
      assert Unlike(c, n, d, m, s);
    }
  }

  lemma NewIDIsNotCovered(env: Env, fs: Files, seen: set<Text>, cs: seq<Case>, s: Text)
    requires Due(env, fs, seen, cs) && s !in seen
    ensures !Covers(cs, s)
  {
    forall k | 0 <= k < |cs| ensures cs[k].x != s {
      assert Stands(env, cs[k], fs);
      MemberHolds(cs[k].(fs := fs), cs[k].keeper);
    }
  }

  lemma NotCoveredLater(cs: seq<Case>, rest: seq<Case>, s: Text)
    requires cs != [] && rest == cs[1..] && !Covers(cs, s)
    ensures !Covers(rest, s)
  {
    assert forall k :: 0 <= k < |rest| ==> rest[k] == cs[k + 1];
  }

  lemma OpWrites(c: Case, n: nat)
    requires c.Core() && n < |c.ops|
    ensures Has(Finished(c), c.ops[n].dst, c.ops[n].content) && c.ops[n].dst.short !in c.seen
    ensures RowShort(c.env, c.ops[n].dst, c.ops[n].content) == c.ops[n].dst.short
  {
    assert c.OpFits(n);
    ProgressDst(c, |c.ops|, false, n);
  }

  /** What the first collision writes is there at the end. */
  lemma WrittenStays(env: Env, fs: Files, seen: set<Text>, cs: seq<Case>, n: nat)
    requires Due(env, fs, seen, cs) && cs != [] && n < |cs[0].ops|
    ensures Has(FinalFiles(fs, cs), cs[0].ops[n].dst, cs[0].ops[n].content)
  {
    var (next, more, rest, op) := (Finished(cs[0]), seen + Shorts(cs[0].ops), cs[1..], cs[0].ops[n]);
    FirstIsPlanned(env, fs, seen, cs);
    OpWrites(cs[0], n);
    NewIDIsNotCovered(env, fs, seen, cs, op.dst.short);
    NotCoveredLater(cs, rest, op.dst.short);
    RestIsDue(env, fs, seen, cs, rest, next, more);
    StaysToTheEnd(env, next, more, rest, op.dst, op.content);
  }

  lemma OthersRenderNone(env: Env, fs: Files, seen: set<Text>, cs: seq<Case>, rest: seq<Case>, groups: seq<Group>,
                         n: nat, content: Text)
    requires Due(env, fs, seen, cs) && cs != [] && rest == cs[1..] && AllMatched(rest, groups)
    requires n < |cs[0].ops| && content == cs[0].ops[n].content
    ensures forall k :: 0 <= k < |groups| ==> NoneRenders(env, LosersOf(env, groups[k].rows), content)
  {
    FirstIsPlanned(env, fs, seen, cs);
    assert cs[0].OpFits(n);
    forall k | 0 <= k < |groups| ensures NoneRenders(env, LosersOf(env, groups[k].rows), content) {
      assert rest[k] == cs[k + 1] && Matched(rest[k], groups[k]) && Stands(env, cs[k + 1], fs);
      OtherRendersNone(env, cs[0], cs[k + 1], n, cs[0].ops[n].dst.short, fs);
    }
  }

  /** The run continues with the last loser of an unsteady collision elsewhere. */
  lemma LastGoesElsewhere(env: Env, fs: Files, seen: set<Text>, cs: seq<Case>, n: nat, now: Files, todo: seq<Group>,
                          occ: Occupied, groups: seq<Group>) returns (next: Files, after: Occupied)
    requires Due(env, fs, seen, cs) && cs != [] && !cs[0].Steady() && n == |cs[0].ops| - 1
    requires now == Progress(cs[0], n, false) && Reads(env, now, todo, occ) && (todo != [] ==> groups == todo[1..])
    ensures RunEnds(env, now, todo, occ) == RunEnds(env, next, groups, after) && cs[0].ops[n].dst !in next
    ensures AllMatched(cs[1..], groups)
  {
    var c := cs[0];
    FirstIsPlanned(env, fs, seen, cs);
    var last := [c.losers[n]];
    ReadsMatch(env, fs, seen, cs, now, n, false, todo, cs[1..], groups);
    assert c.losers[n..] == last;
    UnsteadyMove(c, n, now, occ);
    next, after := RunsLast(env, now, todo, occ, last, c.x, c.ops[n].dst, groups);
  }

  lemma RunsLast(env: Env, now: Files, todo: seq<Group>, occ: Occupied, last: seq<Rec>, x: Text, p: Path,
                 groups: seq<Group>) returns (next: Files, after: Occupied)
    requires todo != [] && groups == todo[1..] && LosersOf(env, todo[0].rows) == last && todo[0].x == x
    requires var plan := Plan(env, now, last, x, occ);
             plan.Ok? && ApplyAll(now, plan.value).Ok? && p !in ApplyAll(now, plan.value).value
    ensures RunEnds(env, now, todo, occ) == RunEnds(env, next, groups, after) && p !in next
  {
    var ops := Plan(env, now, last, x, occ).value;
    next, after := ApplyAll(now, ops).value, OccupiedAfter(env, now, last, x, occ);
    RunsOne(env, now, todo, occ, last, ops, next, after, groups);
  }

  /** A run stopped before the last move of an unsteady collision does not end as it would have. */
  lemma UnsteadyFirst(env: Env, fs: Files, seen: set<Text>, cs: seq<Case>, n: nat, now: Files, todo: seq<Group>,
                      occ: Occupied)
    requires Due(env, fs, seen, cs) && cs != [] && !cs[0].Steady() && n == |cs[0].ops| - 1
    requires now == Progress(cs[0], n, false) && Reads(env, now, todo, occ)
    ensures RunEnds(env, now, todo, occ) != Ok(FinalFiles(fs, cs))
  {
    var groups := if todo == [] then [] else todo[1..];
    var (p, content) := (cs[0].ops[n].dst, cs[0].ops[n].content);
    var next, after := LastGoesElsewhere(env, fs, seen, cs, n, now, todo, occ, groups);
    WrittenStays(env, fs, seen, cs, n);
    OthersRenderNone(env, fs, seen, cs, cs[1..], groups, n, content);
    if RunEnds(env, next, groups, after).Ok? {
      NeverWritten(env, next, groups, after, p, content);
    }
  }

  /** Found stopped at `mid`, the run is then not completed to the files it was heading for. */
  ghost predicate LosesItsWay(env: Env, mid: Files, goal: Files)
  {
    exists todo, occ :: Reads(env, mid, todo, occ) && RunEnds(env, mid, todo, occ) != Ok(goal)
  }

  lemma UnsteadyFirstStops(env: Env, fs: Files, seen: set<Text>, cs: seq<Case>) returns (mid: Files)
    requires Due(env, fs, seen, cs) && cs != [] && !cs[0].Steady()
    ensures StopsAt(fs, cs[0].ops, mid) && LosesItsWay(env, mid, FinalFiles(fs, cs))
  {
    var c := cs[0];
    FirstIsPlanned(env, fs, seen, cs);
    UnsteadyHasOps(c);
    var n := |c.ops| - 1;
    mid := Progress(c, n, false);
    StopsBeforeLast(c, n, mid);
    ListingIsRead(env, fs, seen, cs, mid, n, false);
    UnsteadyFirst(env, fs, seen, cs, n, mid, Listing(cs, n), SomeOccupied(env, mid));
  }

  lemma {:induction false} UnsteadyStops(
    env: Env, fs: Files, seen: set<Text>, cs: seq<Case>, todo: seq<Group>, occ: Occupied, k: nat) returns (mid: Files)
    requires Running(env, fs, seen, cs, todo, occ) && occ.Keys == seen && k < |cs| && !cs[k].Steady()
    ensures RunStops(env, fs, todo, occ, mid) && LosesItsWay(env, mid, FinalFiles(fs, cs))
    decreases |cs|
  {
    var (next, more, rest, groups) := (Finished(cs[0]), seen + Shorts(cs[0].ops), cs[1..], todo[1..]);
    var after := NextRunning(env, fs, seen, cs, todo, occ, next, more, rest, groups);
    if k == 0 {
      mid := UnsteadyFirstStops(env, fs, seen, cs);
    } else {
      var i := k - 1;
      assert rest[i] == cs[k];
      mid := UnsteadyStops(env, next, more, rest, groups, after, i);
      SameGoal(fs, cs, next, rest);
    }
  }

  lemma SameGoal(fs: Files, cs: seq<Case>, next: Files, rest: seq<Case>)
    requires cs != [] && next == Finished(cs[0]) && rest == cs[1..]
    ensures FinalFiles(fs, cs) == FinalFiles(next, rest)
  {
  }

  // ------------------------------------------------------------ the exact condition

  /** Some history of stopped runs leads from the one to the other. */
  ghost predicate Reaches(env: Env, fs: Files, now: Files)
  {
    exists h :: RunHistory(env, h) && h[0] == fs && h[|h| - 1] == now
  }

  /** However many runs were stopped, and wherever: the next run ends in these files. */
  ghost predicate Recovers(env: Env, fs: Files, goal: Files)
  {
    forall now, todo, occ ::
      Reaches(env, fs, now) && Reads(env, now, todo, occ) ==> RunEnds(env, now, todo, occ) == Ok(goal)
  }

  lemma MatchAll(cs: seq<Case>, todo: seq<Group>, rest: seq<Case>, groups: seq<Group>)
    requires cs != [] && todo != [] && rest == cs[1..] && groups == todo[1..]
    requires Matched(cs[0], todo[0]) && AllMatched(rest, groups)
    ensures AllMatched(cs, todo)
  {
    forall k | 0 <= k < |cs| ensures Matched(cs[k], todo[k]) {
      if k > 0 { assert Matched(rest[k - 1], groups[k - 1]); }
    }
  }

  lemma FirstMapFits(c: Case, occ: Occupied)
    requires c.Core() && c.seen == HeldIn(c.env, c.fs) && OccupancyOf(c.env, c.fs, occ)
    ensures Fits(c.env, c.fs, c.seen, occ) && occ.Keys == c.seen
  {
    OccupancyHolds(c.env, c.fs, occ);
    assert c.ops[..0] == [] && c.seen + Shorts([]) == c.seen;
    ReadMapFits(c, c.fs, 0, false, occ, c.seen);
  }

  /** Whatever a first run reads, it follows the cases. */
  lemma FirstRunFollows(
    env: Env, fs: Files, held: set<Text>, cs: seq<Case>, todo: seq<Group>, occ: Occupied)
    requires held == HeldIn(env, fs) && Due(env, fs, held, cs) && cs != [] && Reads(env, fs, todo, occ)
    ensures occ.Keys == held && Running(env, fs, held, cs, todo, occ)
  {
    var groups := if todo == [] then [] else todo[1..];
    HasOps(env, fs, held, cs);
    ReadsMatch(env, fs, held, cs, fs, 0, false, todo, cs[1..], groups);
    FirstIsPlanned(env, fs, held, cs);
    assert cs[0].losers[0..] == cs[0].losers;
    MatchAll(cs, todo, cs[1..], groups);
    FirstMapFits(cs[0], occ);
  }

  lemma FirstRunReads(env: Env, fs: Files, seen: set<Text>, cs: seq<Case>) returns (todo: seq<Group>, occ: Occupied)
    requires Due(env, fs, seen, cs) && cs != []
    ensures Reads(env, fs, todo, occ)
  {
    HasOps(env, fs, seen, cs);
    ListingIsRead(env, fs, seen, cs, fs, 0, false);
    todo, occ := Listing(cs, 0), SomeOccupied(env, fs);
  }

  /** A first run that is not stopped ends in the files the cases lead to. */
  lemma FirstRunEnds(env: Env, fs: Files, held: set<Text>, cs: seq<Case>, todo: seq<Group>, occ: Occupied)
    requires held == HeldIn(env, fs) && Due(env, fs, held, cs) && Reads(env, fs, todo, occ)
    ensures RunEnds(env, fs, todo, occ) == Ok(FinalFiles(fs, cs))
  {
    if cs == [] {
      NothingLeft(env, fs, held, todo);
    } else {
      FirstRunFollows(env, fs, held, cs, todo, occ);
      RestEnds(env, fs, held, cs, todo, occ);
    }
  }

  lemma SteadyRunRecovers(env: Env, fs: Files, seen: set<Text>, cs: seq<Case>)
    requires Due(env, fs, seen, cs) && AllSteady(cs)
    ensures Recovers(env, fs, FinalFiles(fs, cs))
  {
    forall now, todo, occ | Reaches(env, fs, now) && Reads(env, now, todo, occ)
      ensures RunEnds(env, now, todo, occ) == Ok(FinalFiles(fs, cs))
    {
      var h :| RunHistory(env, h) && h[0] == fs && h[|h| - 1] == now;
      RunsStayOnPath(env, fs, seen, cs, h);
      AnyRun(env, fs, seen, cs, now, todo, occ);
    }
  }

  lemma OneStop(env: Env, fs: Files, mid: Files)
    requires StoppedRun(env, fs, mid)
    ensures Reaches(env, fs, mid)
  {
    var h := [fs, mid];
    assert StoppedRun(env, h[0], h[0 + 1]);
    assert RunHistory(env, h) && h[|h| - 1] == mid;
  }

  lemma UnsteadyRunDoesNot(env: Env, fs: Files, held: set<Text>, cs: seq<Case>, k: nat)
    requires held == HeldIn(env, fs) && Due(env, fs, held, cs) && k < |cs| && !cs[k].Steady()
    ensures !Recovers(env, fs, FinalFiles(fs, cs))
  {
    var todo, occ := FirstRunReads(env, fs, held, cs);
    FirstRunFollows(env, fs, held, cs, todo, occ);
    var mid := UnsteadyStops(env, fs, held, cs, todo, occ, k);
    OneStop(env, fs, mid);
  }

  /** Not stopped, a repair run over any number of collisions ends in the files its cases lead to; and it recovers from
      every history of stops if and only if each of its collisions is steady, names freed by the others counted in. */
  lemma RunRecoversExactly(env: Env, fs: Files, cs: seq<Case>)
    requires Due(env, fs, HeldIn(env, fs), cs)
    ensures forall todo, occ :: Reads(env, fs, todo, occ) ==> RunEnds(env, fs, todo, occ) == Ok(FinalFiles(fs, cs))
    ensures Recovers(env, fs, FinalFiles(fs, cs)) <==> AllSteady(cs)
  {
    forall todo, occ | Reads(env, fs, todo, occ) ensures RunEnds(env, fs, todo, occ) == Ok(FinalFiles(fs, cs)) {
      FirstRunEnds(env, fs, HeldIn(env, fs), cs, todo, occ);
    }
    if AllSteady(cs) {
      SteadyRunRecovers(env, fs, HeldIn(env, fs), cs);
    } else {
      var k :| 0 <= k < |cs| && !cs[k].Steady();
      UnsteadyRunDoesNot(env, fs, HeldIn(env, fs), cs, k);
    }
  }

  // ------------------------------------------------------------ plain names

  /** No loser's file name is an extension of a collided id. */
  ghost predicate PlainNames(cs: seq<Case>)
  {
    forall k, i, m :: 0 <= k < |cs| && 0 <= i < |cs[k].losers| && 0 <= m < |cs| ==>
      !Extends(cs[k].losers[i].path.short, cs[m].x)
  }

  /** The ids that an extension is looked for among, and that were seen, are still held. */
  ghost predicate NothingFreed(env: Env, fs: Files, seen: set<Text>, cs: seq<Case>)
  {
    forall e, m :: 0 <= m < |cs| && e in seen && Extends(e, cs[m].x) ==> e in HeldIn(env, fs)
  }

  /** What a move frees is its file's name. */
  lemma StaysHeld(c: Case, e: Text)
    requires c.Core() && c.MembersRead() && e in HeldIn(c.env, c.fs)
    requires forall i :: 0 <= i < |c.losers| ==> c.losers[i].path.short != e
    ensures e in HeldIn(c.env, Finished(c))
  {
    var n := |c.ops|;
    var p := Holder(c.env, c.fs, e);
    ProgressAt(c, n, false, p);
    if IsSrc(c.ops, n, p) {
      var i :| 0 <= i < n && c.ops[i].src == p;
      assert c.OpFits(i);
      StaysMember(c, n, c.keeper);
      ProgressAt(c, n, false, c.keeper.path);
      MemberHolds(c.(fs := Finished(c)), c.keeper);
    }
  }

  lemma ShortIsHeld(c: Case, e: Text)
    requires c.Core() && e in Shorts(c.ops)
    ensures e in HeldIn(c.env, Finished(c))
  {
    var i :| 0 <= i < |c.ops| && c.ops[i].dst.short == e;
    OpWrites(c, i);
  }

  lemma PlainLater(cs: seq<Case>, rest: seq<Case>)
    requires cs != [] && rest == cs[1..] && PlainNames(cs)
    ensures PlainNames(rest)
  {
    assert forall k :: 0 <= k < |rest| ==> rest[k] == cs[k + 1];
  }

  lemma NothingFreedNext(env: Env, fs: Files, seen: set<Text>, cs: seq<Case>, next: Files, more: set<Text>,
                         rest: seq<Case>)
    requires Due(env, fs, seen, cs) && cs != [] && PlainNames(cs) && NothingFreed(env, fs, seen, cs)
    requires next == Finished(cs[0]) && more == seen + Shorts(cs[0].ops) && rest == cs[1..]
    ensures NothingFreed(env, next, more, rest) && PlainNames(rest)
  {
    var c := cs[0];
    FirstIsPlanned(env, fs, seen, cs);
    forall e, m | 0 <= m < |rest| && e in more && Extends(e, rest[m].x) ensures e in HeldIn(env, next) {
      assert rest[m] == cs[m + 1];
      if e in seen {
        StaysHeld(c, e);
      } else {
        ShortIsHeld(c, e);
      }
    }
    PlainLater(cs, rest);
  }

  lemma FirstIsSteady(env: Env, fs: Files, seen: set<Text>, cs: seq<Case>)
    requires Due(env, fs, seen, cs) && cs != [] && PlainNames(cs) && NothingFreed(env, fs, seen, cs)
    ensures cs[0].Steady()
  {
    FirstIsPlanned(env, fs, seen, cs);
    PlainNamesAreSteady(cs[0]);
  }

  /** A run whose losers have plain names recovers. */
  lemma {:induction false} PlainRunIsSteady(env: Env, fs: Files, seen: set<Text>, cs: seq<Case>)
    requires Due(env, fs, seen, cs) && PlainNames(cs) && NothingFreed(env, fs, seen, cs)
    ensures AllSteady(cs)
    decreases |cs|
  {
    if cs != [] {
      var (next, more, rest) := (Finished(cs[0]), seen + Shorts(cs[0].ops), cs[1..]);
      FirstIsSteady(env, fs, seen, cs);
      RestIsDue(env, fs, seen, cs, rest, next, more);
      NothingFreedNext(env, fs, seen, cs, next, more, rest);
      PlainRunIsSteady(env, next, more, rest);
      forall k | 0 <= k < |cs| ensures cs[k].Steady() { if k > 0 { assert rest[k - 1] == cs[k]; } }
    }
  }

  lemma PlainRunRecovers(env: Env, fs: Files, cs: seq<Case>)
    requires Due(env, fs, HeldIn(env, fs), cs) && PlainNames(cs)
    ensures Recovers(env, fs, FinalFiles(fs, cs))
  {
    PlainRunIsSteady(env, fs, HeldIn(env, fs), cs);
    RunRecoversExactly(env, fs, cs);
  }
}
