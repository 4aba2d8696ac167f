/** A run of two collisions of which each alone recovers from any crash, and which together do not: repairing the first
    frees a name that the second would rather have had. */
module RunExamples {
  import opened Lex
  import opened Results
  import opened Sorting
  import opened ShortIds
  import opened CollisionRepair
  import opened CrashRecovery
  import opened CrashExamples
  import opened RunRecovery

  /** Two ids of one length, the first repaired first. */
  predicate TwoIDs(x: Text, y: Text)
  {
    IsShortID(x) && IsShortID(y) && |x| == |y| < SHORT_ID_MAX && AsciiLess(x, y)
  }

  /** Two files share `x` and two share `y`; the second of `x` is named after the first extension of `y`. */
  function Two(x: Text, y: Text): Files
  {
    var (a, b, c, d) := (Member(x, x, 0), Member(x, y + [0], 1), Member(y, y, 2), Member(y, y, 3));
    map[a.path := a.raw, b.path := b.raw, c.path := c.raw, d.path := d.raw]
  }

  function Held(x: Text, y: Text): set<Text>
  {
    {x, y, y + [0]}
  }

  function First(x: Text, y: Text): Case
  {
    var loser := Member(x, y + [0], 1);
    Case(FORMAT, Two(x, y), x, Member(x, x, 0), [loser], Held(x, y), [Fresh(FORMAT, loser, x + [0])])
  }

  ghost function Second(x: Text, y: Text): Case
  {
    var loser := Member(y, y, 3);
    var seen := Held(x, y) + Shorts(First(x, y).ops);
    Case(FORMAT, Finished(First(x, y)), y, Member(y, y, 2), [loser], seen, [Fresh(FORMAT, loser, y + [1])])
  }

  lemma IDsDiffer(x: Text, y: Text)
    requires TwoIDs(x, y)
    ensures x != y && x + [0] != y + [0] && x + [0] != y + [1] && y + [0] != y + [1]
    ensures forall d :: x + [d] != x && x + [d] != y && y + [d] != x && y + [d] != y
  {
    XsDiffer(x, y);
    assert (x + [0])[..|x|] == x && (y + [0])[..|y|] == y;
    assert (x + [0])[|x|] == 0 && (y + [1])[|y|] == 1 && (y + [0])[|y|] == 0;
    forall d ensures x + [d] != x && x + [d] != y && y + [d] != x && y + [d] != y { assert |x + [d]| == |x| + 1; }
  }

  /** The number in a file's text is the one in its name, and its fence id is `x` up to the second. */
  lemma FilesAre(x: Text, y: Text, p: Path)
    requires TwoIDs(x, y) && p in Two(x, y)
    ensures |p.slug| == 1 && 0 <= p.slug[0] < 4
    ensures Two(x, y)[p] == Raw(if p.slug[0] < 2 then x else y, p.slug[0])
    ensures FenceShort(FORMAT, Two(x, y)[p]) == Some(if p.slug[0] < 2 then x else y)
    ensures p == Path([], [x, y + [0], y, y][p.slug[0]], p.slug)
  {
    var k := p.slug[0];
    RawReads(if k < 2 then x else y, k);
  }

  lemma HeldAre(x: Text, y: Text)
    requires TwoIDs(x, y)
    ensures HeldIn(FORMAT, Two(x, y)) == Held(x, y)
  {
    var fs := Two(x, y);
    forall s ensures s in HeldIn(FORMAT, fs) <==> s in Held(x, y) {
      if s in HeldIn(FORMAT, fs) {
        var p := Holder(FORMAT, fs, s);
        FilesAre(x, y, p);
      }
      if s in Held(x, y) {
        var p := Path([], s, if s == x then [0] else if s == y then [2] else [1]);
        assert p in fs;
      }
    }
  }

  lemma PlanOfOne(env: Env, a: Rec, x: Text, held: set<Text>, s: Text)
    requires Extension(x, held) == Ok(s)
    ensures FreshPlan(env, [a], x, held) == Ok([Fresh(env, a, s)])
  {
    assert [a][1..] == [] && FreshPlan(env, [], x, held + {s}) == Ok([]);
    assert [Fresh(env, a, s)] + [] == [Fresh(env, a, s)];
  }

  lemma SecondSeen(x: Text, y: Text)
    ensures Second(x, y).seen == {x, y, y + [0], x + [0]}
  {
    FirstShorts(x, y);
  }

  lemma FirstShorts(x: Text, y: Text)
    ensures Shorts(First(x, y).ops) == {x + [0]}
  {
    var ops := First(x, y).ops;
    assert ops[0].dst.short == x + [0];
  }

  lemma FirstPlan(x: Text, y: Text, c: Case)
    requires TwoIDs(x, y) && c == First(x, y)
    ensures FreshPlan(FORMAT, c.losers, x, c.seen) == Ok(c.ops)
  {
    IDsDiffer(x, y);
    ExtensionIs(x, c.seen, 0);
    PlanOfOne(FORMAT, c.losers[0], x, c.seen, x + [0]);
  }

  lemma NextIsFree(x: Text, y: Text)
    requires TwoIDs(x, y)
    ensures y + [1] !in {x, y, y + [0], x + [0]}
  {
    IDsDiffer(x, y);
  }

  lemma SecondPlan(x: Text, y: Text, d: Case)
    requires TwoIDs(x, y) && d == Second(x, y)
    ensures FreshPlan(FORMAT, d.losers, y, d.seen) == Ok(d.ops)
  {
    SecondSeen(x, y);
    NextIsFree(x, y);
    ExtensionIs(y, d.seen, 1);
    PlanOfOne(FORMAT, d.losers[0], y, d.seen, y + [1]);
  }

  /** A collision of two files with these numbers. */
  ghost predicate PairOf(x: Text, y: Text, id: Text, k: int, c: Case)
  {
    && TwoIDs(x, y) && c.env == FORMAT && c.fs == Two(x, y) && c.x == id
    && (if k == 0 then id == x else k == 2 && id == y)
    && c.keeper == Member(id, id, k) && c.losers == [Member(id, if k == 0 then y + [0] else y, k + 1)]
  }

  lemma CreatedLater(s: Text, p: Text, q: Text, k: int)
    ensures !KeeperOrder(FORMAT)(Member(s, q, k + 1), Member(s, p, k))
  {
    RawReads(s, k);
    RawReads(s, k + 1);
  }

  lemma PairInOrder(a: Rec, b: Rec, c: Case)
    requires c.env == FORMAT && c.keeper == a && c.losers == [b] && !KeeperOrder(FORMAT)(b, a)
    ensures Sorted([c.keeper] + c.losers, KeeperOrder(c.env))
  {
    assert [c.keeper] + c.losers == [a, b];
  }

  lemma PairAreMembers(x: Text, y: Text, id: Text, k: int, c: Case)
    requires PairOf(x, y, id, k, c)
    ensures c.Member(c.keeper) && c.Member(c.losers[0]) && c.losers[0].path != c.keeper.path
  {
    RawReads(id, k);
    RawReads(id, k + 1);
    assert c.keeper.path in Two(x, y) && c.losers[0].path in Two(x, y);
    FilesAre(x, y, c.keeper.path);
    FilesAre(x, y, c.losers[0].path);
  }

  lemma PairIsAll(x: Text, y: Text, id: Text, k: int, c: Case, p: Path)
    requires PairOf(x, y, id, k, c)
    ensures c.Listed(p)
  {
    if p in c.fs {
      FilesAre(x, y, p);
      XsDiffer(x, y);
      var f := p.slug[0];
      assert p.slug == [f];
      if f == k { assert p == c.keeper.path; }
      if f == k + 1 { assert p == c.losers[0].path; }
    }
  }

  lemma PairIsRead(x: Text, y: Text, id: Text, k: int, c: Case)
    requires PairOf(x, y, id, k, c)
    ensures c.MembersRead()
  {
    CreatedLater(id, id, if k == 0 then y + [0] else y, k);
    PairInOrder(c.keeper, c.losers[0], c);
    PairAreMembers(x, y, id, k, c);
    assert c.LoserAt(0);
    forall p ensures c.Listed(p) { PairIsAll(x, y, id, k, c, p); }
  }

  lemma OtherText(x: Text, y: Text, id: Text, k: int, c: Case, p: Path, s: Text)
    requires PairOf(x, y, id, k, c) && p in c.fs && RowShort(FORMAT, p, c.fs[p]) != id
    ensures c.fs[p] != Render(FORMAT, c.losers[0].raw, s)
  {
    RawReads(id, k + 1);
    FilesAre(x, y, p);
    RawsDiffer(if p.slug[0] < 2 then x else y, s, p.slug[0], k + 1);
  }

  lemma PairHasNoLookalike(x: Text, y: Text, id: Text, k: int, c: Case)
    requires PairOf(x, y, id, k, c)
    ensures c.NoLookalike() && c.LosersDiffer()
  {
    forall p, i, s | 0 <= i < |c.losers| ensures !c.Alike(p, i, s) {
      if p in c.fs && RowShort(FORMAT, p, c.fs[p]) != id { OtherText(x, y, id, k, c, p, s); }
    }
  }

  lemma PairsStand(x: Text, y: Text)
    requires TwoIDs(x, y)
    ensures Stands(FORMAT, First(x, y), Two(x, y)) && Stands(FORMAT, Second(x, y), Two(x, y))
  {
    var (c, d) := (First(x, y), Second(x, y).(fs := Two(x, y)));
    PairIsRead(x, y, x, 0, c);
    PairHasNoLookalike(x, y, x, 0, c);
    FirstPlan(x, y, c);
    PairIsRead(x, y, y, 2, d);
    PairHasNoLookalike(x, y, y, 2, d);
    SecondPlan(x, y, Second(x, y));
  }

  lemma PairsApart(x: Text, y: Text)
    ensures Apart(First(x, y), Second(x, y))
  {
    var (c, d) := (First(x, y), Second(x, y));
    forall i, m, s | 0 <= i < |c.losers| && 0 <= m < |d.losers| ensures Unlike(c, i, d, m, s) {
      RawReads(x, 1);
      RawReads(y, 3);
      RawsDiffer(s, s, 1, 3);
    }
  }

  lemma TwoCover(x: Text, y: Text, fs: Files, cs: seq<Case>, p: Path)
    requires TwoIDs(x, y) && fs == Two(x, y) && |cs| == 2 && cs[0].x == x && cs[1].x == y && p in fs
    ensures Covers(cs, RowShort(FORMAT, p, fs[p]))
  {
    FilesAre(x, y, p);
  }

  lemma TwoChain(env: Env, fs: Files, seen: set<Text>, cs: seq<Case>, c: Case, d: Case)
    requires cs == [c, d] && c.env == env && c.fs == fs && c.seen == seen
    requires d.env == env && d.fs == Finished(c) && d.seen == seen + Shorts(c.ops)
    ensures Chain(env, fs, seen, cs)
  {
    assert cs[1..] == [d] && [d][1..] == [];
    assert Chain(env, Finished(d), d.seen + Shorts(d.ops), []);
    assert Chain(env, d.fs, d.seen, [d]);
  }

  lemma TwoInARow(env: Env, fs: Files, seen: set<Text>, cs: seq<Case>, c: Case, d: Case)
    requires Sane(env) && HeldIn(env, fs) <= seen && cs == [c, d] && c.fs == fs && c.seen == seen
    requires d.fs == Finished(c) && d.seen == seen + Shorts(c.ops) && Stands(env, c, fs) && Stands(env, d, fs)
    requires AsciiLess(c.x, d.x) && Apart(c, d) && forall p :: p in fs ==> Covers(cs, RowShort(env, p, fs[p]))
    ensures Due(env, fs, seen, cs)
  {
    TwoChain(env, fs, seen, cs, c, d);
    forall k | 0 <= k < |cs| ensures Stands(env, cs[k], fs) { assert cs[k] == if k == 0 then c else d; }
    assert RunRecovery.InOrder(cs) by { assert cs[0] == c && cs[1] == d; }
  }

  /** These are the collisions of the run. */
  lemma TwoAreDue(x: Text, y: Text, fs: Files, cs: seq<Case>)
    requires TwoIDs(x, y) && fs == Two(x, y) && cs == [First(x, y), Second(x, y)]
    ensures Due(FORMAT, fs, HeldIn(FORMAT, fs), cs)
  {
    FormatIsSane();
    HeldAre(x, y);
    PairsStand(x, y);
    PairsApart(x, y);
    forall p | p in fs ensures Covers(cs, RowShort(FORMAT, p, fs[p])) { TwoCover(x, y, fs, cs, p); }
    TwoInARow(FORMAT, fs, HeldIn(FORMAT, fs), cs, First(x, y), Second(x, y));
  }

  /** A single loser frees nothing that it might have had itself. */
  lemma OneLoserIsSteady(c: Case)
    requires |c.ops| == 1 && c.seen == HeldIn(c.env, c.fs)
    ensures c.Steady()
  {
    forall e ensures !c.FreesEarlier(e) {
      if e in c.seen && |c.losers| == 1 {
        var p := Holder(c.env, c.fs, e);
        assert !c.AmongFirst(0, p);
      }
    }
  }

  lemma OnlyTheLoser(x: Text, y: Text, e: Text, p: Path)
    requires TwoIDs(x, y) && e == y + [0] && p in Two(x, y) && Holds(FORMAT, p, Two(x, y)[p], e)
    ensures p == Path([], e, [1])
  {
    IDsDiffer(x, y);
    FilesAre(x, y, p);
    assert p.slug == [p.slug[0]];
  }

  lemma NobodyHolds(x: Text, y: Text, d: Case, e: Text, p: Path)
    requires TwoIDs(x, y) && d == Second(x, y) && e == y + [0] && p in d.fs
    ensures !Holds(FORMAT, p, d.fs[p], e)
  {
    var c := First(x, y);
    var op := c.ops[0];
    assert Done(c.fs, c.ops, 0) == c.fs && d.fs == Moved(c.fs, op);
    IDsDiffer(x, y);
    if p == op.dst {
      RawReads(x, 1);
      RawReads(x + [0], 1);
    } else if Holds(FORMAT, p, d.fs[p], e) {
      OnlyTheLoser(x, y, e, p);
    }
  }

  /** But it frees the name that comes before the one planned for the second. */
  lemma SecondIsUnsteady(x: Text, y: Text, d: Case)
    requires TwoIDs(x, y) && d == Second(x, y)
    ensures !d.Steady()
  {
    var e := y + [0];
    SecondSeen(x, y);
    OneMoreDigit(y, 0);
    forall p | p in d.fs ensures !Holds(FORMAT, p, d.fs[p], e) { NobodyHolds(x, y, d, e, p); }
    FirstDifference(y, 0, [], 1, []);
    assert y + [0] + [] == y + [0] && y + [1] + [] == y + [1];
    assert d.FreesEarlier(e);
  }

  /** So the run does not recover from every history of stops, though its first collision is steady and its second
      would be, too, if the run had begun with it. */
  lemma TwoDoNotRecover(x: Text, y: Text, cs: seq<Case>)
    requires TwoIDs(x, y) && cs == [First(x, y), Second(x, y)]
    ensures Due(FORMAT, Two(x, y), HeldIn(FORMAT, Two(x, y)), cs)
    ensures !Recovers(FORMAT, Two(x, y), FinalFiles(Two(x, y), cs))
    ensures cs[0].Steady() && cs[1].(seen := HeldIn(FORMAT, cs[1].fs)).Steady()
  {
    TwoAreDue(x, y, Two(x, y), cs);
    SecondIsUnsteady(x, y, cs[1]);
    RunRecoversExactly(FORMAT, Two(x, y), cs);
    HeldAre(x, y);
    OneLoserIsSteady(cs[0]);
    OneLoserIsSteady(cs[1].(seen := HeldIn(FORMAT, cs[1].fs)));
  }
}
