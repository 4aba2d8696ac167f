/** Two collisions of three files each: one that any crash recovers from, and one that a crash does not. */
module CrashExamples {
  import opened Lex
  import opened Results
  import opened Sorting
  import opened ShortIds
  import opened Collision
  import opened CollisionRepair
  import opened CrashRecovery

  // ------------------------------------------------------------ a file format

  /** A file is the length of its id, the id, and the rest, whose first number is also the creation instant. */
  function Write(d: Doc): Text
  {
    (if d.short.Some? then [|d.short.value|] + d.short.value else [-1]) + d.rest
  }

  function Read(t: Text): Option<Doc>
  {
    if t != [] && 0 <= t[0] < |t| then Some(Doc(Some(t[1..1 + t[0]]), t[1 + t[0]..], t[1 + t[0]..])) else None
  }

  function PathBytes(p: Path): Text
  {
    [|p.dir|] + p.dir + [|p.short|] + p.short + p.slug
  }

  function Instant(created: Text): Option<int>
  {
    if created == [] then None else Some(created[0])
  }

  const FORMAT: Env := Env(Read, Write, Instant, (t: Text) => t, (p: Path) => [], PathBytes)

  lemma ReadsBack(s: Text, rest: Text)
    ensures Read([|s|] + s + rest) == Some(Doc(Some(s), rest, rest))
  {
    var t := [|s|] + s + rest;
    assert t[1..1 + |s|] == s && t[1 + |s|..] == rest;
  }

  lemma PathsDiffer(p: Path, q: Path)
    requires PathBytes(p) == PathBytes(q)
    ensures p == q
  {
    PathParts(p, PathBytes(p));
    PathParts(q, PathBytes(q));
  }

  /** Every part of a path can be read off its bytes. */
  lemma PathParts(p: Path, t: Text)
    requires t == PathBytes(p)
    ensures |t| > 0 && t[0] == |p.dir| && |t| > 1 + |p.dir| && t[1..1 + |p.dir|] == p.dir
    ensures var n := 1 + |p.dir|;
            && t[n] == |p.short| && |t| >= n + 1 + |p.short|
            && t[n + 1..n + 1 + |p.short|] == p.short && t[n + 1 + |p.short|..] == p.slug
  {
    var (a, b, c) := ([|p.dir|], [|p.short|], p.short + p.slug);
    assert t == a + p.dir + b + c;
    assert forall k :: 0 <= k < |p.dir| ==> t[1 + k] == p.dir[k];
    var n := 1 + |p.dir|;
    assert t[n] == |p.short|;
    assert t[n + 1..] == c;
    assert c[..|p.short|] == p.short && c[|p.short|..] == p.slug;
    assert t[n + 1..n + 1 + |p.short|] == c[..|p.short|] && t[n + 1 + |p.short|..] == c[|p.short|..];
  }

  lemma FormatIsSane()
    ensures Sane(FORMAT)
  {
    forall d: Doc | d.short.Some? ensures Read(Write(d)).Some? && Read(Write(d)).value.short == d.short {
      ReadsBack(d.short.value, d.rest);
    }
    forall p, q | PathBytes(p) == PathBytes(q) ensures p == q { PathsDiffer(p, q); }
  }

  // ------------------------------------------------------------ three files

  /** The `k`th file: its fence id is `s`. */
  function Raw(s: Text, k: int): Text
  {
    [|s|] + s + [k]
  }

  function Member(x: Text, name: Text, k: int): Rec
  {
    Rec(Path([], name, [k]), Raw(x, k))
  }

  lemma RawReads(s: Text, k: int)
    ensures Read(Raw(s, k)) == Some(Doc(Some(s), [k], [k])) && Instant([k]) == Some(k)
    ensures forall t :: Render(FORMAT, Raw(s, k), t) == Raw(t, k)
  {
    ReadsBack(s, [k]);
  }

  lemma RawsDiffer(s: Text, t: Text, j: int, k: int)
    requires j != k
    ensures Raw(s, j) != Raw(t, k)
  {
    assert Raw(s, j)[|Raw(s, j)| - 1] == j && Raw(t, k)[|Raw(t, k)| - 1] == k;
  }

  /** Three files with fence id `x`; the second is named `name`, and the losers are planned at the `i`th and `j`th
      extension. */
  function Collided(x: Text, name: Text, i: int, j: int): Case
  {
    var (keeper, first, second) := (Member(x, x, 0), Member(x, name, 1), Member(x, x, 2));
    var fs := map[keeper.path := keeper.raw, first.path := first.raw, second.path := second.raw];
    var ops := [Fresh(FORMAT, first, x + [i]), Fresh(FORMAT, second, x + [j])];
    Case(FORMAT, fs, x, keeper, [first, second], {x, name}, ops)
  }

  lemma ExtensionIs(x: Text, taken: set<Text>, k: int)
    requires IsShortID(x) && |x| < SHORT_ID_MAX && 0 <= k < ALPHABET && x + [k] !in taken
    requires forall d :: 0 <= d < k ==> x + [d] in taken
    ensures Extension(x, taken) == Ok(x + [k])
  {
    var c := x + [k];
    forall e | Extends(e, x) && e !in taken ensures e == c || Earlier(c, e) {
      if |e| == |c| {
        var d := e[|x|];
        assert e == x + [d];
        if d != k { FirstDifference(x, k, [], d, []); }
        assert x + [k] + [] == c && x + [d] + [] == e;
      }
    }
    ExtensionIsExtension(x, taken);
    ExtensionIsUnique(x, taken, Extension(x, taken), Ok(c));
  }

  lemma HeldIDs(x: Text, name: Text, i: int, j: int)
    ensures HeldIn(FORMAT, Collided(x, name, i, j).fs) == {x, name}
  {
    var c := Collided(x, name, i, j);
    RawReads(x, 0);
    RawReads(x, 1);
    RawReads(x, 2);
    var (a, b) := (c.keeper.path, c.losers[0].path);
    assert a in c.fs && b in c.fs && a.short == x && b.short == name;
    forall s ensures s in HeldIn(FORMAT, c.fs) <==> s in {x, name} {
      if s in HeldIn(FORMAT, c.fs) { var p := Holder(FORMAT, c.fs, s); }
    }
  }

  lemma PlanOfTwo(env: Env, a: Rec, b: Rec, x: Text, held: set<Text>, s: Text, t: Text)
    requires Extension(x, held) == Ok(s) && Extension(x, held + {s}) == Ok(t)
    ensures FreshPlan(env, [a, b], x, held) == Ok([Fresh(env, a, s), Fresh(env, b, t)])
  {
    assert [a, b][1..] == [b] && [b][1..] == [];
    assert FreshPlan(env, [], x, held + {s} + {t}) == Ok([]);
    assert FreshPlan(env, [b], x, held + {s}) == Ok([Fresh(env, b, t)] + []);
    assert [Fresh(env, a, s)] + ([Fresh(env, b, t)] + []) == [Fresh(env, a, s), Fresh(env, b, t)];
  }

  lemma ExtensionsAre(x: Text, name: Text, i: int)
    requires IsShortID(x) && |x| < SHORT_ID_MAX && Numbered(x, name, i)
    ensures Extension(x, {x, name}) == Ok(x + [i]) && Extension(x, {x, name} + {x + [i]}) == Ok(x + [i + 1])
  {
    assert forall d :: |x + [d]| == |x| + 1 && (x + [d])[|x|] == d;
    ExtensionIs(x, {x, name}, i);
    ExtensionIs(x, {x, name} + {x + [i]}, i + 1);
  }

  /** The second file has a plain name and the plan starts at the first extension, or it is named after the first
      extension and the plan starts at the second. */
  predicate Numbered(x: Text, name: Text, i: int)
  {
    (name == x && i == 0) || (name == x + [0] && i == 1)
  }

  lemma PlanIs(x: Text, name: Text, i: int, c: Case)
    requires IsShortID(x) && |x| < SHORT_ID_MAX && Numbered(x, name, i) && c == Collided(x, name, i, i + 1)
    ensures FreshPlan(FORMAT, c.losers, x, c.seen) == Ok(c.ops) && c.seen == HeldIn(FORMAT, c.fs)
  {
    HeldIDs(x, name, i, i + 1);
    ExtensionsAre(x, name, i);
    PlanOfTwo(FORMAT, c.losers[0], c.losers[1], x, {x, name}, x + [i], x + [i + 1]);
    assert c.losers == [c.losers[0], c.losers[1]];
  }

  lemma InOrder(x: Text, name: Text, i: int, j: int)
    ensures var c := Collided(x, name, i, j); Sorted([c.keeper] + c.losers, KeeperOrder(FORMAT))
  {
    RawReads(x, 0);
    RawReads(x, 1);
    RawReads(x, 2);
  }

  lemma MembersAre(x: Text, name: Text, i: int, j: int)
    requires IsShortID(x)
    ensures Collided(x, name, i, j).MembersRead()
  {
    var c := Collided(x, name, i, j);
    RawReads(x, 0);
    RawReads(x, 1);
    RawReads(x, 2);
    InOrder(x, name, i, j);
    forall k | 0 <= k < 2 ensures c.LoserAt(k) {}
    forall p ensures c.Listed(p) {
      if p in c.fs && p != c.keeper.path {
        assert p == c.losers[0].path || p == c.losers[1].path;
      }
    }
  }

  lemma LosersAreDifferent(x: Text, name: Text, i: int, j: int, c: Case)
    requires c == Collided(x, name, i, j)
    ensures c.LosersDiffer()
  {
    forall a, b, s | 0 <= a < b < |c.losers| ensures c.Differ(a, b, s) {
      RawReads(x, 1);
      RawReads(x, 2);
      RawsDiffer(s, s, 1, 2);
    }
  }

  lemma AllHaveTheID(x: Text, name: Text, i: int, j: int, c: Case)
    requires c == Collided(x, name, i, j)
    ensures c.NoLookalike() && forall p :: p in c.fs ==> FenceShort(FORMAT, c.fs[p]) == Some(x)
  {
    RawReads(x, 0);
    RawReads(x, 1);
    RawReads(x, 2);
    forall p | p in c.fs ensures FenceShort(FORMAT, c.fs[p]) == Some(x) {}
    forall p, k, s | 0 <= k < |c.losers| ensures !c.Alike(p, k, s) {}
  }

  /** Both collisions are planned as the examples say. */
  lemma IsPlanned(x: Text, name: Text, i: int, c: Case)
    requires IsShortID(x) && |x| < SHORT_ID_MAX && Numbered(x, name, i) && c == Collided(x, name, i, i + 1)
    ensures c.Planned()
  {
    FormatIsSane();
    MembersAre(x, name, i, i + 1);
    PlanIs(x, name, i, c);
    LosersAreDifferent(x, name, i, i + 1, c);
    AllHaveTheID(x, name, i, i + 1, c);
  }

  lemma PlainNames(x: Text, c: Case)
    requires c == Collided(x, x, 0, 1)
    ensures forall k :: 0 <= k < |c.losers| ==> !Extends(c.losers[k].path.short, x)
  {
    assert c.losers[0].path.short == x && c.losers[1].path.short == x;
  }

  /** With plain file names, two losers recover from any crash. */
  lemma PlainNamesRecover(x: Text, c: Case)
    requires IsShortID(x) && |x| < SHORT_ID_MAX && c == Collided(x, x, 0, 1)
    ensures c.Valid()
  {
    IsPlanned(x, x, 0, c);
    HeldIDs(x, x, 0, 1);
    PlainNames(x, c);
    PlainNamesAreSteady(c);
  }

  // ------------------------------------------------------------ the failing input

  lemma OneMoreDigit(x: Text, d: int)
    requires IsShortID(x) && |x| < SHORT_ID_MAX && 0 <= d < ALPHABET
    ensures Extends(x + [d], x)
  {
  }

  lemma OnlyTheFirstIsNamed(x: Text, e: Text, c: Case)
    requires IsShortID(x) && |x| < SHORT_ID_MAX && e == x + [0] && c == Collided(x, e, 1, 2)
    ensures c.Frees(1, e)
  {
    OneMoreDigit(x, 0);
    HeldIDs(x, e, 1, 2);
    AllHaveTheID(x, e, 1, 2, c);
    forall p | p in c.fs && Holds(FORMAT, p, c.fs[p], e) ensures c.AmongFirst(1, p) {
      assert p == c.losers[0].path;
    }
  }

  lemma FirstBeforeThird(x: Text)
    ensures Earlier(x + [0], x + [2])
  {
    FirstDifference(x, 0, [], 2, []);
    assert x + [0] + [] == x + [0] && x + [2] + [] == x + [2];
  }

  /** Moving it frees an id that comes before the last one planned. */
  lemma MoveFreesEarlier(x: Text, c: Case)
    requires IsShortID(x) && |x| < SHORT_ID_MAX && c == Collided(x, x + [0], 1, 2)
    ensures c.FreesEarlier(x + [0])
  {
    OnlyTheFirstIsNamed(x, x + [0], c);
    FirstBeforeThird(x);
    assert c.ops[1].dst.short == x + [2];
  }

  /** The first loser's file is named after the first extension: the collision is planned, but not steady. */
  lemma NamedAheadIsUnsteady(x: Text, c: Case)
    requires IsShortID(x) && |x| < SHORT_ID_MAX && c == Collided(x, x + [0], 1, 2)
    ensures c.Planned() && !c.Steady()
  {
    IsPlanned(x, x + [0], 1, c);
    MoveFreesEarlier(x, c);
  }

  /** What is on disk when the repair stops before its last move. */
  function Stopped(x: Text): Files
  {
    var (keeper, second) := (Member(x, x, 0), Member(x, x, 2));
    map[keeper.path := keeper.raw, second.path := second.raw, Path([], x + [1], [1]) := Raw(x + [1], 1)]
  }

  lemma StopsHere(x: Text, c: Case)
    requires c == Collided(x, x + [0], 1, 2)
    ensures Progress(c, 1, false) == Stopped(x)
  {
    RawReads(x, 1);
    var op := c.ops[0];
    assert op == Op(Path([], x + [0], [1]), Path([], x + [1], [1]), Raw(x + [1], 1));
    assert Done(c.fs, c.ops, 0) == c.fs && Done(c.fs, c.ops, 1) == Moved(c.fs, op);
    assert (x + [0])[|x|] != (x + [1])[|x|];
    forall p ensures Same(Moved(c.fs, op), Stopped(x), p) {}
    assert forall p :: p in Moved(c.fs, op) <==> p in Stopped(x);
  }

  lemma StoppedShorts(x: Text)
    ensures RowShort(FORMAT, Path([], x, [0]), Raw(x, 0)) == x && RowShort(FORMAT, Path([], x, [2]), Raw(x, 2)) == x
    ensures RowShort(FORMAT, Path([], x + [1], [1]), Raw(x + [1], 1)) == x + [1] != x
  {
    RawReads(x, 0);
    RawReads(x, 2);
    RawReads(x + [1], 1);
    assert |x + [1]| != |x|;
  }

  lemma StoppedListing(x: Text)
    ensures Lists(FORMAT, Stopped(x), x, [Member(x, x, 0), Member(x, x, 2)])
  {
    StoppedShorts(x);
    var (fs, a, b) := (Stopped(x), Member(x, x, 0), Member(x, x, 2));
    var rows := [a, b];
    assert rows[0] == a && rows[1] == b && a.path != b.path;
    forall p | p in fs && RowShort(FORMAT, p, fs[p]) == x ensures Rec(p, fs[p]) in rows {
      assert p == a.path || p == b.path;
    }
  }

  function StoppedOccupied(x: Text): Occupied
  {
    map[x := Path([], x, [0]), x + [1] := Path([], x + [1], [1])]
  }

  lemma StoppedOccupancy(x: Text)
    ensures OccupancyOf(FORMAT, Stopped(x), StoppedOccupied(x))
  {
    RawReads(x, 0);
    RawReads(x, 2);
    RawReads(x + [1], 1);
    assert |x + [1]| != |x|;
  }

  /** Stopped before its last move and run again, this repair ends in other files than when it is not stopped. */
  lemma NamedAheadDoesNotRecover(x: Text, c: Case)
    requires IsShortID(x) && |x| < SHORT_ID_MAX && c == Collided(x, x + [0], 1, 2)
    ensures StopsAt(c.fs, c.ops, Stopped(x))
    ensures var rows := [Member(x, x, 0), Member(x, x, 2)];
            var plan := DuplicateIDSpec(FORMAT, Stopped(x), rows, x, StoppedOccupied(x));
            && Lists(FORMAT, Stopped(x), x, rows) && OccupancyOf(FORMAT, Stopped(x), StoppedOccupied(x))
            && plan.Ok? && ApplyAll(Stopped(x), plan.value) != ApplyAll(c.fs, c.ops)
  {
    NamedAheadIsUnsteady(x, c);
    StopsHere(x, c);
    StoppedListing(x);
    StoppedOccupancy(x);
    UnsteadyDoesNotRecover(c, 1, Stopped(x), [Member(x, x, 0), Member(x, x, 2)], StoppedOccupied(x));
  }
}
