/** Whatever becomes of a repair run, no ticket is lost: whether or not the run can be continued to the same files. */
module Survival {
  import opened Lex
  import opened Results
  import opened Sorting
  import opened ShortIds
  import opened CollisionRepair
  import opened CrashRecovery
  import opened RunRecovery

  // ------------------------------------------------------------ one collision

  /** The files with id `x`. */
  ghost predicate HasID(env: Env, fs: Files, x: Text, p: Path)
  {
    p in fs && RowShort(env, p, fs[p]) == x
  }

  /** The text is on disk under an id that extends `x`. */
  ghost predicate Elsewhere(env: Env, x: Text, text: Text, now: Files)
  {
    exists q, s :: x < s && Has(now, q, Render(env, text, s))
  }

  /** Every file with id `x` is where it was or elsewhere, every other is where it was, and no file shares its id with
      another that did not before. */
  ghost predicate Kept(env: Env, x: Text, fs: Files, now: Files)
  {
    && (forall p :: p in fs && !HasID(env, fs, x, p) ==> Has(now, p, fs[p]))
    && (forall p :: HasID(env, fs, x, p) ==> Has(now, p, fs[p]) || Elsewhere(env, x, fs[p], now))
    && (forall p :: HasID(env, now, x, p) ==> Has(fs, p, now[p]))
    && (forall p, q :: Collide(env, now, p, q) ==> Has(fs, p, now[p]) && Has(fs, q, now[q]))
  }

  /** Moves a file with id `x` to an id that extends it, where the file is already, or to a name that is new. */
  ghost predicate MovesMember(env: Env, x: Text, fs: Files, op: Op)
  {
    && HasID(env, fs, x, op.src) && op.src != op.dst
    && (exists s :: x < s && op.content == Render(env, fs[op.src], s))
    && (op.dst in fs ==> fs[op.dst] == op.content)
    && (op.dst !in fs ==> op.dst.short !in HeldIn(env, fs))
    && (op.dst !in fs ==> FenceShort(env, op.content) == Some(op.dst.short) && op.dst.short != x)
    && !HasID(env, fs, x, op.dst)
  }

  ghost predicate Moves(env: Env, x: Text, fs: Files, ops: seq<Op>)
  {
    && (forall i :: 0 <= i < |ops| ==> MovesMember(env, x, fs, ops[i]))
    && (forall i, j :: 0 <= i < j < |ops| && ops[j].dst !in fs ==> ops[i].dst.short != ops[j].dst.short)
  }

  /** The losers are files with id `x` that parse. */
  ghost predicate AreMembers(env: Env, fs: Files, x: Text, losers: seq<Rec>)
  {
    forall i :: 0 <= i < |losers| ==>
      Has(fs, losers[i].path, losers[i].raw) && HasID(env, fs, x, losers[i].path) && env.parse(losers[i].raw).Some?
  }

  lemma ResumeMoves(env: Env, fs: Files, x: Text, occ: Occupied, loser: Rec, op: Op)
    requires Sane(env) && Has(fs, loser.path, loser.raw) && HasID(env, fs, x, loser.path)
    requires env.parse(loser.raw).Some? && Resumes(env, fs, loser, x, occ, op)
    ensures MovesMember(env, x, fs, op)
  {
    var s :| Matches(env, fs, loser, x, occ, s) && op == Op(loser.path, occ[s], Render(env, loser.raw, s));
    RenderedFence(env, loser.raw, s);
  }

  lemma MintMoves(env: Env, fs: Files, x: Text, occ: Occupied, loser: Rec, op: Op)
    requires Sane(env) && HeldIn(env, fs) <= occ.Keys && Has(fs, loser.path, loser.raw)
    requires HasID(env, fs, x, loser.path) && env.parse(loser.raw).Some? && Mints(env, loser, x, occ, op)
    ensures MovesMember(env, x, fs, op)
  {
    RenderedFence(env, loser.raw, op.dst.short);
    NameIsHeld(env, fs, loser.path);
    if op.dst in fs { NameIsHeld(env, fs, op.dst); }
  }

  /** Every plan moves members only, each to its own new name or to where it is already. */
  lemma PlanMoves(env: Env, fs: Files, x: Text, occ: Occupied, losers: seq<Rec>, ops: seq<Op>)
    requires Sane(env) && HeldIn(env, fs) <= occ.Keys && AreMembers(env, fs, x, losers)
    requires Plan(env, fs, losers, x, occ) == Ok(ops)
    ensures Moves(env, x, fs, ops)
  {
    forall p | p in fs ensures p.short in occ { NameIsHeld(env, fs, p); }
    PlanIsSafe(env, fs, losers, x, occ, ops);
    forall i | 0 <= i < |ops| ensures MovesMember(env, x, fs, ops[i]) {
      assert OpSafe(env, fs, losers[i], x, occ, ops[i]);
      if Resumes(env, fs, losers[i], x, occ, ops[i]) {
        ResumeMoves(env, fs, x, occ, losers[i], ops[i]);
      } else {
        MintMoves(env, fs, x, occ, losers[i], ops[i]);
      }
    }
    forall i, j | 0 <= i < j < |ops| && ops[j].dst !in fs ensures ops[i].dst.short != ops[j].dst.short {
      assert OpSafe(env, fs, losers[j], x, occ, ops[j]);
      MintedIdsDiffer(env, fs, losers, x, occ, ops, i, j);
    }
  }

  // ------------------------------------------------------------ while it is applied

  ghost predicate MovedTo(ops: seq<Op>, p: Path, cur: Files)
  {
    exists i :: 0 <= i < |ops| && ops[i].src == p && Has(cur, ops[i].dst, ops[i].content)
  }

  ghost predicate IsNew(fs: Files, ops: seq<Op>, p: Path, text: Text)
  {
    p !in fs && exists i :: 0 <= i < |ops| && ops[i].dst == p && ops[i].content == text
  }

  /** Files that the ops may leave when they are stopped. */
  ghost predicate Midway(env: Env, x: Text, fs: Files, ops: seq<Op>, cur: Files)
  {
    && (forall p :: p in fs && !HasID(env, fs, x, p) ==> Has(cur, p, fs[p]))
    && (forall p :: HasID(env, fs, x, p) ==> Has(cur, p, fs[p]) || MovedTo(ops, p, cur))
    && (forall p :: p in cur ==> Has(fs, p, cur[p]) || IsNew(fs, ops, p, cur[p]))
  }

  lemma MidwayWritten(env: Env, x: Text, fs: Files, ops: seq<Op>, cur: Files, k: nat)
    requires Moves(env, x, fs, ops) && Midway(env, x, fs, ops, cur) && k < |ops|
    requires ops[k].dst in cur ==> cur[ops[k].dst] == ops[k].content
    ensures Midway(env, x, fs, ops, Written(cur, ops[k])) && Has(Written(cur, ops[k]), ops[k].dst, ops[k].content)
  {
    var (op, next) := (ops[k], Written(cur, ops[k]));
    assert MovesMember(env, x, fs, op);
    forall p | HasID(env, fs, x, p) ensures Has(next, p, fs[p]) || MovedTo(ops, p, next) {
      if MovedTo(ops, p, cur) {
        var i :| 0 <= i < |ops| && ops[i].src == p && Has(cur, ops[i].dst, ops[i].content);
        assert Has(next, ops[i].dst, ops[i].content);
      }
    }
  }

  lemma MidwayMoved(env: Env, x: Text, fs: Files, ops: seq<Op>, cur: Files, k: nat)
    requires Moves(env, x, fs, ops) && Midway(env, x, fs, ops, cur) && k < |ops|
    requires Has(cur, ops[k].dst, ops[k].content)
    ensures Midway(env, x, fs, ops, cur - {ops[k].src})
  {
    var (op, next) := (ops[k], cur - {ops[k].src});
    assert MovesMember(env, x, fs, op);
    forall p | HasID(env, fs, x, p) ensures Has(next, p, fs[p]) || MovedTo(ops, p, next) {
      if p == op.src {
        assert Has(next, op.dst, op.content);
      } else if MovedTo(ops, p, cur) {
        var i :| 0 <= i < |ops| && ops[i].src == p && Has(cur, ops[i].dst, ops[i].content);
        assert MovesMember(env, x, fs, ops[i]) && ops[i].dst != op.src;
        assert Has(next, ops[i].dst, ops[i].content);
      }
    }
  }

  lemma MidwayOp(env: Env, x: Text, fs: Files, ops: seq<Op>, cur: Files, k: nat)
    requires Moves(env, x, fs, ops) && Midway(env, x, fs, ops, cur) && k < |ops| && ApplyOp(cur, ops[k]).Ok?
    ensures Midway(env, x, fs, ops, ApplyOp(cur, ops[k]).value)
    ensures !AlreadyDone(cur, ops[k]) ==> Midway(env, x, fs, ops, Written(cur, ops[k]))
  {
    assert MovesMember(env, x, fs, ops[k]);
    if !AlreadyDone(cur, ops[k]) {
      MidwayWritten(env, x, fs, ops, cur, k);
      MidwayMoved(env, x, fs, ops, Written(cur, ops[k]), k);
    }
  }

  lemma {:induction false} MidwayStops(
    env: Env, x: Text, fs: Files, ops: seq<Op>, cur: Files, k: nat, rest: seq<Op>, mid: Files)
    requires Moves(env, x, fs, ops) && Midway(env, x, fs, ops, cur) && k <= |ops| && rest == ops[k..]
    requires StopsAt(cur, rest, mid)
    ensures Midway(env, x, fs, ops, mid)
    decreases |ops| - k
  {
    if mid != cur {
      assert rest[0] == ops[k] && rest[1..] == ops[k + 1..];
      MidwayOp(env, x, fs, ops, cur, k);
      if !(mid == Written(cur, ops[k]) && !AlreadyDone(cur, ops[k])) {
        MidwayStops(env, x, fs, ops, ApplyOp(cur, ops[k]).value, k + 1, rest[1..], mid);
      }
    }
  }

  lemma NewIsUnshared(env: Env, x: Text, fs: Files, ops: seq<Op>, cur: Files, p: Path, q: Path)
    requires Moves(env, x, fs, ops) && Midway(env, x, fs, ops, cur) && Collide(env, cur, p, q)
    ensures Has(fs, p, cur[p])
  {
    if !Has(fs, p, cur[p]) {
      var i :| 0 <= i < |ops| && ops[i].dst == p && ops[i].content == cur[p];
      assert MovesMember(env, x, fs, ops[i]);
      if Has(fs, q, cur[q]) {
        RowIsHeld(env, fs, q);
      }
    }
  }

  lemma RowIsHeld(env: Env, fs: Files, q: Path)
    requires q in fs
    ensures RowShort(env, q, fs[q]) in HeldIn(env, fs)
  {
  }

  lemma MidwayKeeps(env: Env, x: Text, fs: Files, ops: seq<Op>, cur: Files)
    requires Moves(env, x, fs, ops) && Midway(env, x, fs, ops, cur)
    ensures Kept(env, x, fs, cur)
  {
    forall p | HasID(env, fs, x, p) ensures Has(cur, p, fs[p]) || Elsewhere(env, x, fs[p], cur) {
      if MovedTo(ops, p, cur) {
        var i :| 0 <= i < |ops| && ops[i].src == p && Has(cur, ops[i].dst, ops[i].content);
        assert MovesMember(env, x, fs, ops[i]);
      }
    }
    forall p, q | Collide(env, cur, p, q) ensures Has(fs, p, cur[p]) && Has(fs, q, cur[q]) {
      NewIsUnshared(env, x, fs, ops, cur, p, q);
      NewIsUnshared(env, x, fs, ops, cur, q, p);
    }
  }

  /** Wherever a plan is stopped, everything is kept. */
  lemma PlanKeeps(env: Env, fs: Files, x: Text, occ: Occupied, losers: seq<Rec>, ops: seq<Op>, mid: Files)
    requires Sane(env) && HeldIn(env, fs) <= occ.Keys && AreMembers(env, fs, x, losers)
    requires Plan(env, fs, losers, x, occ) == Ok(ops) && StopsAt(fs, ops, mid)
    ensures Moves(env, x, fs, ops) && Midway(env, x, fs, ops, mid) && Kept(env, x, fs, mid)
  {
    PlanMoves(env, fs, x, occ, losers, ops);
    assert ops[0..] == ops;
    MidwayStops(env, x, fs, ops, fs, 0, ops, mid);
    MidwayKeeps(env, x, fs, ops, mid);
  }

  // ------------------------------------------------------------ histories of one collision

  /** The files with id `x` parse. */
  ghost predicate Readable(env: Env, x: Text, fs: Files)
  {
    forall p :: HasID(env, fs, x, p) ==> env.parse(fs[p]).Some?
  }

  lemma LosersAreMembers(env: Env, fs: Files, x: Text, rows: seq<Rec>)
    requires AreMembers(env, fs, x, rows)
    ensures AreMembers(env, fs, x, LosersOf(env, rows))
  {
    var (losers, sorted) := (LosersOf(env, rows), StableSort(rows, KeeperOrder(env)));
    SortKeeps(rows, KeeperOrder(env));
    forall i | 0 <= i < |losers|
      ensures Has(fs, losers[i].path, losers[i].raw) && HasID(env, fs, x, losers[i].path)
      ensures env.parse(losers[i].raw).Some?
    {
      assert sorted[i + 1] in multiset(sorted);
      assert losers[i] in rows;
    }
  }

  lemma RunKeepsOne(env: Env, x: Text, fs: Files, mid: Files)
    requires Sane(env) && Readable(env, x, fs) && RepairRun(env, x, fs, mid)
    ensures Kept(env, x, fs, mid)
  {
    var rows, occ, ops :| rows != [] && Lists(env, fs, x, rows) && OccupancyOf(env, fs, occ)
                          && DuplicateIDSpec(env, fs, rows, x, occ) == Ok(ops) && StopsAt(fs, ops, mid);
    LosersAreMembers(env, fs, x, rows);
    OccupancyHolds(env, fs, occ);
    PlanKeeps(env, fs, x, occ, LosersOf(env, rows), ops, mid);
  }

  lemma RenderedIsOther(env: Env, x: Text, text: Text, s: Text, q: Path)
    requires Sane(env) && env.parse(text).Some? && x < s
    ensures RowShort(env, q, Render(env, text, s)) != x
  {
    RenderedFence(env, text, s);
  }

  lemma TextKeptTwice(env: Env, x: Text, fs: Files, mid: Files, now: Files, p: Path)
    requires Sane(env) && Readable(env, x, fs) && Kept(env, x, fs, mid) && Kept(env, x, mid, now)
    requires HasID(env, fs, x, p)
    ensures Has(now, p, fs[p]) || Elsewhere(env, x, fs[p], now)
  {
    if Has(mid, p, fs[p]) {
      assert HasID(env, mid, x, p);
    } else {
      var q, s :| x < s && Has(mid, q, Render(env, fs[p], s));
      RenderedIsOther(env, x, fs[p], s, q);
      assert Has(now, q, Render(env, fs[p], s));
    }
  }

  lemma OtherKeptTwice(env: Env, x: Text, fs: Files, mid: Files, now: Files, p: Path)
    requires Kept(env, x, fs, mid) && Kept(env, x, mid, now) && p in fs && !HasID(env, fs, x, p)
    ensures Has(now, p, fs[p])
  {
    assert Has(mid, p, fs[p]) && !HasID(env, mid, x, p);
  }

  lemma CollideTwice(env: Env, x: Text, fs: Files, mid: Files, now: Files, p: Path, q: Path)
    requires Kept(env, x, fs, mid) && Kept(env, x, mid, now) && Collide(env, now, p, q)
    ensures Has(fs, p, now[p]) && Has(fs, q, now[q])
  {
    assert Collide(env, mid, p, q);
  }

  lemma IDKeptTwice(env: Env, x: Text, fs: Files, mid: Files, now: Files, p: Path)
    requires Kept(env, x, fs, mid) && Kept(env, x, mid, now) && HasID(env, now, x, p)
    ensures Has(fs, p, now[p])
  {
    assert Has(mid, p, now[p]) && HasID(env, mid, x, p);
  }

  /** What is kept twice is kept. */
  lemma KeptTwice(env: Env, x: Text, fs: Files, mid: Files, now: Files)
    requires Sane(env) && Readable(env, x, fs) && Kept(env, x, fs, mid) && Kept(env, x, mid, now)
    ensures Kept(env, x, fs, now)
  {
    forall p | p in fs && !HasID(env, fs, x, p) ensures Has(now, p, fs[p]) {
      OtherKeptTwice(env, x, fs, mid, now, p);
    }
    forall p | HasID(env, fs, x, p) ensures Has(now, p, fs[p]) || Elsewhere(env, x, fs[p], now) {
      TextKeptTwice(env, x, fs, mid, now, p);
    }
    forall p | HasID(env, now, x, p) ensures Has(fs, p, now[p]) { IDKeptTwice(env, x, fs, mid, now, p); }
    forall p, q | Collide(env, now, p, q) ensures Has(fs, p, now[p]) && Has(fs, q, now[q]) {
      CollideTwice(env, x, fs, mid, now, p, q);
    }
  }

  lemma KeptAtFirst(env: Env, x: Text, fs: Files)
    ensures Kept(env, x, fs, fs)
  {
  }

  lemma OneMoreRepair(env: Env, x: Text, fs: Files, mid: Files, now: Files)
    requires Sane(env) && Readable(env, x, fs) && Kept(env, x, fs, mid) && RepairRun(env, x, mid, now)
    ensures Kept(env, x, fs, now)
  {
    ReadableLater(env, x, fs, mid);
    RunKeepsOne(env, x, mid, now);
    KeptTwice(env, x, fs, mid, now);
  }

  /** Nothing is lost. However many repair runs of a collision were stopped, and wherever, every file with its id is
      where it was or on disk under an id that extends it, and every other file is untouched; whether or not the
      repair can still be continued to the same files. */
  lemma {:induction false} NothingIsLost(env: Env, x: Text, h: seq<Files>)
    requires Sane(env) && History(env, x, h) && Readable(env, x, h[0])
    ensures Kept(env, x, h[0], h[|h| - 1])
    decreases |h|
  {
    if |h| == 1 {
      KeptAtFirst(env, x, h[0]);
    } else {
      var (before, n) := (h[..|h| - 1], |h| - 2);
      assert before[0] == h[0] && before[|before| - 1] == h[n];
      NothingIsLost(env, x, before);
      assert RepairRun(env, x, h[n], h[n + 1]);
      OneMoreRepair(env, x, h[0], h[n], h[n + 1]);
    }
  }

  lemma ReadableLater(env: Env, x: Text, fs: Files, mid: Files)
    requires Readable(env, x, fs) && Kept(env, x, fs, mid)
    ensures Readable(env, x, mid)
  {
  }

  // ------------------------------------------------------------ runs over all collisions

  /** The text with its id replaced, perhaps several times. */
  ghost function Rendered(env: Env, text: Text, ids: seq<Text>): Text
    decreases |ids|
  {
    if ids == [] then text else Rendered(env, Render(env, text, ids[0]), ids[1..])
  }

  lemma {:induction false} RenderedOn(env: Env, text: Text, a: seq<Text>, b: seq<Text>)
    ensures Rendered(env, Rendered(env, text, a), b) == Rendered(env, text, a + b)
    decreases |a|
  {
    if a == [] {
      assert a + b == b;
    } else {
      RenderedOn(env, Render(env, text, a[0]), a[1..], b);
      assert (a + b)[0] == a[0] && (a + b)[1..] == a[1..] + b;
    }
  }

  ghost predicate IsAt(env: Env, text: Text, p: Path, now: Files, q: Path, ids: seq<Text>)
  {
    Has(now, q, Rendered(env, text, ids)) && (ids == [] ==> q == p)
  }

  /** The text is where it was, or somewhere under another id. */
  ghost predicate Survives(env: Env, text: Text, p: Path, now: Files)
  {
    exists q, ids :: IsAt(env, text, p, now, q, ids)
  }

  ghost predicate Shared(env: Env, fs: Files, p: Path)
  {
    exists q :: Collide(env, fs, p, q)
  }

  /** Every file survives, those with an id of their own where they were, and no file shares its id that did not. */
  ghost predicate AllKept(env: Env, fs: Files, now: Files)
  {
    && (forall p :: p in fs ==> Survives(env, fs[p], p, now))
    && (forall p :: p in fs && !Shared(env, fs, p) ==> Has(now, p, fs[p]))
    && (forall p, q :: Collide(env, now, p, q) ==> Has(fs, p, now[p]) && Has(fs, q, now[q]))
  }

  /** Files that share their id with another parse. */
  ghost predicate AllReadable(env: Env, fs: Files)
  {
    forall p :: Shared(env, fs, p) ==> env.parse(fs[p]).Some?
  }

  lemma StaysPut(env: Env, text: Text, p: Path, now: Files)
    requires Has(now, p, text)
    ensures Survives(env, text, p, now)
  {
    assert IsAt(env, text, p, now, p, []);
  }

  lemma MovedOnce(env: Env, x: Text, text: Text, p: Path, now: Files)
    requires Elsewhere(env, x, text, now)
    ensures Survives(env, text, p, now)
  {
    var q, s :| x < s && Has(now, q, Render(env, text, s));
    assert [s][0] == s && [s][1..] == [] && Rendered(env, Render(env, text, s), []) == Render(env, text, s);
    assert IsAt(env, text, p, now, q, [s]);
  }

  lemma SurvivesTwice(env: Env, mid: Files, now: Files, text: Text, p: Path)
    requires Survives(env, text, p, mid) && forall q :: q in mid ==> Survives(env, mid[q], q, now)
    ensures Survives(env, text, p, now)
  {
    var q, a :| IsAt(env, text, p, mid, q, a);
    var r, b :| IsAt(env, mid[q], q, now, r, b);
    RenderedOn(env, text, a, b);
    assert IsAt(env, text, p, now, r, a + b);
  }

  lemma SharedBefore(env: Env, fs: Files, mid: Files, p: Path)
    requires AllKept(env, fs, mid) && Shared(env, mid, p)
    ensures Shared(env, fs, p) && mid[p] == fs[p]
  {
    var q :| Collide(env, mid, p, q);
    assert Collide(env, fs, p, q);
  }

  lemma UnsharedKeptTwice(env: Env, fs: Files, mid: Files, now: Files, p: Path)
    requires AllKept(env, fs, mid) && AllKept(env, mid, now) && p in fs && !Shared(env, fs, p)
    ensures Has(now, p, fs[p])
  {
    assert Has(mid, p, fs[p]);
    if Shared(env, mid, p) { SharedBefore(env, fs, mid, p); }
  }

  lemma CollideBeforeBoth(env: Env, fs: Files, mid: Files, now: Files, p: Path, q: Path)
    requires AllKept(env, fs, mid) && AllKept(env, mid, now) && Collide(env, now, p, q)
    ensures Has(fs, p, now[p]) && Has(fs, q, now[q])
  {
    assert Collide(env, mid, p, q);
  }

  lemma AllKeptTwice(env: Env, fs: Files, mid: Files, now: Files)
    requires AllKept(env, fs, mid) && AllKept(env, mid, now)
    ensures AllKept(env, fs, now)
  {
    forall p | p in fs ensures Survives(env, fs[p], p, now) { SurvivesTwice(env, mid, now, fs[p], p); }
    forall p | p in fs && !Shared(env, fs, p) ensures Has(now, p, fs[p]) {
      UnsharedKeptTwice(env, fs, mid, now, p);
    }
    forall p, q | Collide(env, now, p, q) ensures Has(fs, p, now[p]) && Has(fs, q, now[q]) {
      CollideBeforeBoth(env, fs, mid, now, p, q);
    }
  }

  lemma AllReadableLater(env: Env, fs: Files, mid: Files)
    requires AllReadable(env, fs) && AllKept(env, fs, mid)
    ensures AllReadable(env, mid)
  {
    forall p | Shared(env, mid, p) ensures env.parse(mid[p]).Some? { SharedBefore(env, fs, mid, p); }
  }

  /** A collision that is kept keeps all. */
  lemma KeptKeepsAll(env: Env, x: Text, fs: Files, now: Files)
    requires Kept(env, x, fs, now) && forall p :: HasID(env, fs, x, p) ==> Shared(env, fs, p)
    ensures AllKept(env, fs, now)
  {
    forall p | p in fs ensures Survives(env, fs[p], p, now) {
      if Has(now, p, fs[p]) { StaysPut(env, fs[p], p, now); } else { MovedOnce(env, x, fs[p], p, now); }
    }
  }

  lemma AllKeptAtFirst(env: Env, fs: Files)
    ensures AllKept(env, fs, fs)
  {
    forall p | p in fs ensures Survives(env, fs[p], p, fs) { StaysPut(env, fs[p], p, fs); }
  }

  /** The rows of the group are files with its id, at least two of them. */
  ghost predicate Standing(env: Env, fs: Files, g: Group)
  {
    && |g.rows| >= 2 && NoRepeats(g.rows)
    && forall i :: 0 <= i < |g.rows| ==>
      Has(fs, g.rows[i].path, g.rows[i].raw) && HasID(env, fs, g.x, g.rows[i].path)
  }

  lemma IDIsShared(env: Env, fs: Files, g: Group, p: Path)
    requires Standing(env, fs, g) && HasID(env, fs, g.x, p)
    ensures Shared(env, fs, p)
  {
    var (a, b) := (g.rows[0], g.rows[1]);
    assert a != b;
    if p != a.path { assert Collide(env, fs, p, a.path); } else { assert Collide(env, fs, p, b.path); }
  }

  lemma StandingAreMembers(env: Env, fs: Files, g: Group)
    requires AllReadable(env, fs) && Standing(env, fs, g)
    ensures AreMembers(env, fs, g.x, g.rows)
  {
    forall i | 0 <= i < |g.rows| ensures env.parse(g.rows[i].raw).Some? {
      IDIsShared(env, fs, g, g.rows[i].path);
    }
  }

  /** One collision of a run, stopped anywhere. */
  lemma GroupKeeps(env: Env, fs: Files, g: Group, occ: Occupied, losers: seq<Rec>, ops: seq<Op>, mid: Files)
    requires Sane(env) && AllReadable(env, fs) && Standing(env, fs, g) && HeldIn(env, fs) <= occ.Keys
    requires losers == LosersOf(env, g.rows) && Plan(env, fs, losers, g.x, occ) == Ok(ops) && StopsAt(fs, ops, mid)
    ensures Moves(env, g.x, fs, ops) && Midway(env, g.x, fs, ops, mid) && Kept(env, g.x, fs, mid)
    ensures AllKept(env, fs, mid)
  {
    StandingAreMembers(env, fs, g);
    LosersAreMembers(env, fs, g.x, g.rows);
    PlanKeeps(env, fs, g.x, occ, losers, ops, mid);
    forall p | HasID(env, fs, g.x, p) ensures Shared(env, fs, p) { IDIsShared(env, fs, g, p); }
    KeptKeepsAll(env, g.x, fs, mid);
  }

  lemma {:induction false} EndIsStop(fs: Files, ops: seq<Op>)
    requires ApplyAll(fs, ops).Ok?
    ensures StopsAt(fs, ops, ApplyAll(fs, ops).value)
    decreases |ops|
  {
    if ops != [] { EndIsStop(ApplyOp(fs, ops[0]).value, ops[1..]); }
  }

  lemma MapKnowsNext(env: Env, x: Text, fs: Files, ops: seq<Op>, next: Files, occ: Occupied, after: Occupied)
    requires Moves(env, x, fs, ops) && Midway(env, x, fs, ops, next) && HeldIn(env, fs) <= occ.Keys
    requires Claims(occ, ops, after)
    ensures HeldIn(env, next) <= after.Keys
  {
    forall s | s in HeldIn(env, next) ensures s in after {
      var p := Holder(env, next, s);
      if Has(fs, p, next[p]) {
        HolderHolds(env, fs, p, s);
      } else {
        var i :| 0 <= i < |ops| && ops[i].dst == p && ops[i].content == next[p];
        assert MovesMember(env, x, fs, ops[i]);
        assert Goes(ops, s);
      }
    }
  }

  lemma HolderHolds(env: Env, fs: Files, p: Path, s: Text)
    requires p in fs && Holds(env, p, fs[p], s)
    ensures s in HeldIn(env, fs)
  {
  }

  lemma StillStanding(env: Env, x: Text, fs: Files, next: Files, g: Group)
    requires Kept(env, x, fs, next) && Standing(env, fs, g) && g.x != x
    ensures Standing(env, next, g)
  {
    forall i | 0 <= i < |g.rows|
      ensures Has(next, g.rows[i].path, g.rows[i].raw) && HasID(env, next, g.x, g.rows[i].path)
    {
      assert Has(fs, g.rows[i].path, g.rows[i].raw) && HasID(env, fs, g.x, g.rows[i].path);
      assert !HasID(env, fs, x, g.rows[i].path);
    }
  }

  /** What a run relies on: the groups that are left stand, each with its own id, and the map knows every id held. */
  ghost predicate RunStands(env: Env, fs: Files, todo: seq<Group>, occ: Occupied)
  {
    && Sane(env) && AllReadable(env, fs) && HeldIn(env, fs) <= occ.Keys
    && (forall k :: 0 <= k < |todo| ==> Standing(env, fs, todo[k]))
    && (forall k, m :: 0 <= k < m < |todo| ==> todo[k].x != todo[m].x)
  }

  lemma RestStanding(env: Env, fs: Files, todo: seq<Group>, next: Files, groups: seq<Group>)
    requires todo != [] && groups == todo[1..] && Kept(env, todo[0].x, fs, next)
    requires forall k :: 0 <= k < |todo| ==> Standing(env, fs, todo[k])
    requires forall k, m :: 0 <= k < m < |todo| ==> todo[k].x != todo[m].x
    ensures forall k :: 0 <= k < |groups| ==> Standing(env, next, groups[k])
    ensures forall k, m :: 0 <= k < m < |groups| ==> groups[k].x != groups[m].x
  {
    forall k | 0 <= k < |groups| ensures Standing(env, next, groups[k]) {
      assert groups[k] == todo[k + 1];
      StillStanding(env, todo[0].x, fs, next, todo[k + 1]);
    }
    forall k, m | 0 <= k < m < |groups| ensures groups[k].x != groups[m].x {
      assert groups[k] == todo[k + 1] && groups[m] == todo[m + 1];
    }
  }

  /** The first collision of a run, applied to the end. */
  lemma FirstGroupKeeps(env: Env, fs: Files, todo: seq<Group>, occ: Occupied, losers: seq<Rec>, ops: seq<Op>,
                        next: Files, after: Occupied, groups: seq<Group>)
    requires RunStands(env, fs, todo, occ) && todo != [] && groups == todo[1..]
    requires losers == LosersOf(env, todo[0].rows) && Plan(env, fs, losers, todo[0].x, occ) == Ok(ops)
    requires ApplyAll(fs, ops) == Ok(next) && after == OccupiedAfter(env, fs, losers, todo[0].x, occ)
    ensures AllKept(env, fs, next) && RunStands(env, next, groups, after)
  {
    var g := todo[0];
    EndIsStop(fs, ops);
    GroupKeeps(env, fs, g, occ, losers, ops, next);
    AllReadableLater(env, fs, next);
    RestStanding(env, fs, todo, next, groups);
    forall p | p in fs ensures p.short in occ { NameIsHeld(env, fs, p); }
    PlanClaims(env, fs, losers, g.x, occ, ops);
    MapKnowsNext(env, g.x, fs, ops, next, occ, after);
  }

  lemma {:induction false} RunKeepsAll(env: Env, fs: Files, todo: seq<Group>, occ: Occupied, mid: Files)
    requires RunStands(env, fs, todo, occ) && RunStops(env, fs, todo, occ, mid)
    ensures AllKept(env, fs, mid)
    decreases |todo|
  {
    if mid == fs {
      AllKeptAtFirst(env, fs);
    } else {
      var (g, groups) := (todo[0], todo[1..]);
      var losers := LosersOf(env, g.rows);
      var ops := Plan(env, fs, losers, g.x, occ).value;
      if StopsAt(fs, ops, mid) {
        GroupKeeps(env, fs, g, occ, losers, ops, mid);
      } else {
        var (next, after) := (ApplyAll(fs, ops).value, OccupiedAfter(env, fs, losers, g.x, occ));
        FirstGroupKeeps(env, fs, todo, occ, losers, ops, next, after, groups);
        RunKeepsAll(env, next, groups, after, mid);
        AllKeptTwice(env, fs, next, mid);
      }
    }
  }

  lemma ReadsStand(env: Env, fs: Files, todo: seq<Group>, occ: Occupied)
    requires Sane(env) && AllReadable(env, fs) && Reads(env, fs, todo, occ)
    ensures RunStands(env, fs, todo, occ)
  {
    OccupancyHolds(env, fs, occ);
    forall k, m | 0 <= k < m < |todo| ensures todo[k].x != todo[m].x { XsDiffer(todo[k].x, todo[m].x); }
  }

  lemma OneMoreRun(env: Env, fs: Files, mid: Files, now: Files)
    requires Sane(env) && AllReadable(env, fs) && AllKept(env, fs, mid) && StoppedRun(env, mid, now)
    ensures AllKept(env, fs, now)
  {
    AllReadableLater(env, fs, mid);
    var todo, occ :| Reads(env, mid, todo, occ) && RunStops(env, mid, todo, occ, now);
    ReadsStand(env, mid, todo, occ);
    RunKeepsAll(env, mid, todo, occ, now);
    AllKeptTwice(env, fs, mid, now);
  }

  /** No run loses anything. However many repair runs over all collisions were stopped, and wherever, every ticket's
      text is on disk, under its id or another; a file that shared its id with no other is untouched; and no two files
      share an id that did not before. */
  lemma {:induction false} RunsLoseNothing(env: Env, h: seq<Files>)
    requires Sane(env) && RunHistory(env, h) && AllReadable(env, h[0])
    ensures AllKept(env, h[0], h[|h| - 1])
    decreases |h|
  {
    if |h| == 1 {
      AllKeptAtFirst(env, h[0]);
    } else {
      var (before, n) := (h[..|h| - 1], |h| - 2);
      assert before[0] == h[0] && before[|before| - 1] == h[n];
      RunsLoseNothing(env, before);
      assert StoppedRun(env, h[n], h[n + 1]);
      OneMoreRun(env, h[0], h[n], h[n + 1]);
    }
  }
}
