/** Stopping a duplicate-id repair anywhere and repairing again reaches the same files. */
module CrashRecovery {
  import opened Lex
  import opened Results
  import opened Sorting
  import opened ShortIds
  import opened Collision
  import opened CollisionRepair

  // -------------------------------------------------- applying ops to files

  predicate AlreadyDone(fs: Files, op: Op)
  {
    op.src !in fs && op.dst in fs
  }

  function Written(fs: Files, op: Op): Files
  {
    fs[op.dst := op.content]
  }

  function Moved(fs: Files, op: Op): Files
  {
    Written(fs, op) - {op.src}
  }

  /** One op: skip a finished move, refuse a destination that holds other bytes, else write then remove. */
  function ApplyOp(fs: Files, op: Op): Result<Files, Path>
  {
    if op.src == op.dst then Ok(Written(fs, op))
    else if AlreadyDone(fs, op) then Ok(fs)
    else if op.dst in fs && fs[op.dst] != op.content then Err(op.dst)
    else Ok(Moved(fs, op))
  }

  function ApplyAll(fs: Files, ops: seq<Op>): Result<Files, Path>
    decreases |ops|
  {
    if ops == [] then Ok(fs)
    else
      var r := ApplyOp(fs, ops[0]);
      if r.Err? then r else ApplyAll(r.value, ops[1..])
  }

  lemma {:induction false} AppliedFiles(fs: Files, ops: seq<Op>, p: Path)
    requires ApplyAll(fs, ops).Ok? && p in ApplyAll(fs, ops).value
    ensures p in fs || exists i :: 0 <= i < |ops| && ops[i].dst == p
    decreases |ops|
  {
    if ops != [] {
      var next := ApplyOp(fs, ops[0]).value;
      AppliedFiles(next, ops[1..], p);
      if p !in next {
        var i :| 0 <= i < |ops| - 1 && ops[1..][i].dst == p;
        assert ops[i + 1].dst == p;
      }
    }
  }

  /** Once a collision's plan is applied, the map it leaves knows every file name again, so that the next collision of
      the same run is planned as safely. */
  lemma NextCollisionIsSafe(env: Env, fs: Files, losers: seq<Rec>, x: Text, occ: Occupied, ops: seq<Op>)
    requires NamesTaken(fs, occ) && Plan(env, fs, losers, x, occ) == Ok(ops) && ApplyAll(fs, ops).Ok?
    ensures NamesTaken(ApplyAll(fs, ops).value, OccupiedAfter(env, fs, losers, x, occ))
  {
    PlanClaims(env, fs, losers, x, occ, ops);
    var (after, known) := (ApplyAll(fs, ops).value, OccupiedAfter(env, fs, losers, x, occ));
    forall p | p in after ensures p.short in known {
      AppliedFiles(fs, ops, p);
      if p !in fs {
        var i :| 0 <= i < |ops| && ops[i].dst == p;
        assert Goes(ops, p.short);
      }
    }
  }

  /** The states in which a run of `ops` may be found when it stops: before or after any write or remove. */
  ghost predicate StopsAt(fs: Files, ops: seq<Op>, mid: Files)
    decreases |ops|
  {
    || mid == fs
    || (ops != [] && ApplyOp(fs, ops[0]).Ok? &&
        ((mid == Written(fs, ops[0]) && !AlreadyDone(fs, ops[0])) || StopsAt(ApplyOp(fs, ops[0]).value, ops[1..], mid)))
  }

  // ------------------------------------------------- a plan with no resumes

  /** The plan of a first run: every loser gets a fresh extension. */
  function FreshPlan(env: Env, losers: seq<Rec>, x: Text, taken: set<Text>): (r: Planned)
  {
    if losers == [] then Ok([])
    else
      var e := Extension(x, taken);
      if e.Err? then Err(e.error)
      else Prepend(Fresh(env, losers[0], e.value), FreshPlan(env, losers[1..], x, taken + {e.value}))
  }

  /** The `i`th id is the shortest and then least extension not taken before or by the ops before it. */
  ghost predicate LeastLeft(x: Text, taken: set<Text>, ops: seq<Op>, i: nat)
    requires i < |ops|
  {
    IsExtension(x, taken + Shorts(ops[..i]), Ok(ops[i].dst.short))
  }

  /** Each loser moves to its own extension of `x`, none of them taken before. */
  ghost predicate FreshOps(env: Env, losers: seq<Rec>, x: Text, taken: set<Text>, ops: seq<Op>)
  {
    && |ops| == |losers|
    && (forall i :: 0 <= i < |ops| ==> ops[i] == Fresh(env, losers[i], ops[i].dst.short))
    && (forall i :: 0 <= i < |ops| ==> Extends(ops[i].dst.short, x) && ops[i].dst.short !in taken)
    && (forall i, j :: 0 <= i < j < |ops| ==> ops[i].dst.short != ops[j].dst.short)
  }

  lemma {:induction false} FreshPlanIsFresh(env: Env, losers: seq<Rec>, x: Text, taken: set<Text>)
    requires FreshPlan(env, losers, x, taken).Ok?
    ensures FreshOps(env, losers, x, taken, FreshPlan(env, losers, x, taken).value)
  {
    if losers != [] {
      ExtensionIsExtension(x, taken);
      var s := Extension(x, taken).value;
      FreshPlanIsFresh(env, losers[1..], x, taken + {s});
      var rest := FreshPlan(env, losers[1..], x, taken + {s}).value;
      var ops := FreshPlan(env, losers, x, taken).value;
      assert ops == [Fresh(env, losers[0], s)] + rest;
      assert forall i :: 0 < i < |ops| ==> ops[i] == rest[i - 1];
    }
  }

  /** Each loser in turn gets the shortest and then least id that is left, and its file stays in its directory. */
  lemma {:induction false} FreshPlanIsLeast(env: Env, losers: seq<Rec>, x: Text, taken: set<Text>, ops: seq<Op>, i: nat)
    requires FreshPlan(env, losers, x, taken) == Ok(ops) && i < |losers|
    ensures |ops| == |losers| && LeastLeft(x, taken, ops, i)
    ensures ops[i].src == losers[i].path
    ensures ops[i].dst == Path(losers[i].path.dir, ops[i].dst.short, losers[i].path.slug)
  {
    FreshPlanSuffix(env, losers, x, taken, ops, i);
    ExtensionIsExtension(x, taken + Shorts(ops[..i]));
    assert losers[i..][0] == losers[i] && ops[i..][0] == ops[i];
  }

  /** `a` comes no later than `b`. */
  predicate UpTo(a: Text, b: Text)
  {
    a == b || Earlier(a, b)
  }

  lemma EarlierChains(a: Text, b: Text, c: Text)
    requires UpTo(a, b) && Earlier(b, c)
    ensures Earlier(a, c)
  {
    if |a| == |b| == |c| && a != b { Transitive(a, b, c); }
  }

  lemma EarlierTotal(a: Text, b: Text)
    ensures UpTo(a, b) || Earlier(b, a)
    ensures !(UpTo(a, b) && Earlier(b, a))
  {
    Total(a, b);
    Irreflexive(a);
    if Less(a, b) { Asymmetric(a, b); }
  }

  /** As far as extensions of `x` no later than `last` go, the same ids are taken. */
  ghost predicate SameUpTo(x: Text, last: Text, t: set<Text>, u: set<Text>)
  {
    forall e :: Extends(e, x) && UpTo(e, last) ==> (e in t <==> e in u)
  }

  /** What is taken after `last` does not matter to an extension up to `last`. */
  lemma ExtensionUpTo(x: Text, last: Text, t: set<Text>, u: set<Text>)
    requires SameUpTo(x, last, t, u) && Extension(x, u).Ok? && UpTo(Extension(x, u).value, last)
    ensures Extension(x, t) == Extension(x, u)
  {
    ExtensionIsExtension(x, t);
    ExtensionIsExtension(x, u);
    var s := Extension(x, u).value;
    forall e | Extends(e, x) && e !in t ensures e == s || Earlier(s, e) {
      EarlierTotal(e, last);
      if Earlier(last, e) { EarlierChains(s, last, e); }
    }
    assert IsExtension(x, t, Ok(s));
    ExtensionIsUnique(x, t, Extension(x, t), Ok(s));
  }

  lemma {:induction false} FreshPlanUpTo(
    env: Env, losers: seq<Rec>, x: Text, last: Text, t: set<Text>, u: set<Text>, ops: seq<Op>)
    requires SameUpTo(x, last, t, u) && FreshPlan(env, losers, x, u) == Ok(ops)
    requires forall i :: 0 <= i < |ops| ==> UpTo(ops[i].dst.short, last)
    ensures FreshPlan(env, losers, x, t) == Ok(ops)
  {
    if losers != [] {
      var s := Extension(x, u).value;
      assert ops[0].dst.short == s;
      ExtensionUpTo(x, last, t, u);
      FreshPlanUpTo(env, losers[1..], x, last, t + {s}, u + {s}, ops[1..]);
    }
  }

  /** Fresh ids are handed out in ascending order. */
  lemma {:induction false} FreshPlanAscends(env: Env, losers: seq<Rec>, x: Text, taken: set<Text>, ops: seq<Op>, i: nat)
    requires FreshPlan(env, losers, x, taken) == Ok(ops) && i < |ops|
    ensures UpTo(ops[i].dst.short, ops[|ops| - 1].dst.short)
  {
    FreshPlanIsFresh(env, losers, x, taken);
    if i > 0 {
      FreshPlanAscends(env, losers[1..], x, taken + {ops[0].dst.short}, ops[1..], i - 1);
    } else {
      ExtensionIsExtension(x, taken);
      var last := ops[|ops| - 1].dst.short;
      assert Extends(last, x) && last !in taken;
    }
  }

  function Shorts(ops: seq<Op>): set<Text>
  {
    set i | 0 <= i < |ops| :: ops[i].dst.short
  }

  lemma {:induction false} FreshPlanTail(env: Env, losers: seq<Rec>, x: Text, taken: set<Text>, ops: seq<Op>)
    requires FreshPlan(env, losers, x, taken) == Ok(ops) && losers != []
    ensures ops != [] && FreshPlan(env, losers[1..], x, taken + {ops[0].dst.short}) == Ok(ops[1..])
  {
  }

  lemma ShortsUpTo(ops: seq<Op>, j: nat, taken: set<Text>)
    requires 0 < j <= |ops|
    ensures taken + {ops[0].dst.short} + Shorts(ops[1..][..j - 1]) == taken + Shorts(ops[..j])
  {
    ShortsCons(ops[..j]);
    assert ops[..j][1..] == ops[1..][..j - 1];
  }

  /** With the first `j` extensions taken, planning the remaining losers gives the remaining ops. */
  lemma {:induction false} FreshPlanSuffix(
    env: Env, losers: seq<Rec>, x: Text, taken: set<Text>, ops: seq<Op>, j: nat)
    requires FreshPlan(env, losers, x, taken) == Ok(ops) && j <= |losers|
    ensures |ops| == |losers| && FreshPlan(env, losers[j..], x, taken + Shorts(ops[..j])) == Ok(ops[j..])
  {
    FreshPlanIsFresh(env, losers, x, taken);
    if j == 0 {
      assert ops[..0] == [] && ops[0..] == ops && losers[0..] == losers && taken + Shorts([]) == taken;
    } else {
      FreshPlanTail(env, losers, x, taken, ops);
      FreshPlanSuffix(env, losers[1..], x, taken + {ops[0].dst.short}, ops[1..], j - 1);
      assert losers[1..][j - 1..] == losers[j..] && ops[1..][j - 1..] == ops[j..];
      ShortsUpTo(ops, j, taken);
    }
  }

  lemma ShortsCons(ops: seq<Op>)
    requires ops != []
    ensures Shorts(ops) == {ops[0].dst.short} + Shorts(ops[1..])
  {
    forall s | s in Shorts(ops) ensures s in {ops[0].dst.short} + Shorts(ops[1..]) {
      var i :| 0 <= i < |ops| && ops[i].dst.short == s;
      if i > 0 { assert ops[1..][i - 1].dst.short == s; }
    }
    forall s | s in Shorts(ops[1..]) ensures s in Shorts(ops) {
      var i :| 0 <= i < |ops| - 1 && ops[1..][i].dst.short == s;
      assert ops[i + 1].dst.short == s;
    }
  }

  // ---------------------------------------------------------- the situation

  /** A collision on short id `x` before its first repair: the files, the member that keeps the id,
      the losers in keeper order, the ids the run takes for held, and the ops planned for the losers. A run that has
      repaired other collisions before may take ids for held that no file holds any more. */
  datatype Case = Case(
    env: Env, fs: Files, x: Text, keeper: Rec, losers: seq<Rec>, seen: set<Text>, ops: seq<Op>)
  {
    ghost predicate Member(r: Rec)
    {
      r.path in fs && fs[r.path] == r.raw && env.parse(r.raw).Some? && RowShort(env, r.path, r.raw) == x
    }

    ghost predicate LoserAt(i: nat)
      requires i < |losers|
    {
      && Member(losers[i]) && losers[i].path != keeper.path
      && forall j :: i < j < |losers| ==> losers[i].path != losers[j].path
    }

    ghost predicate Listed(p: Path)
    {
      p in fs && RowShort(env, p, fs[p]) == x ==>
        p == keeper.path || exists i :: 0 <= i < |losers| && losers[i].path == p
    }

    /** The members are exactly the files with id `x`, the keeper first. */
    ghost predicate MembersRead()
    {
      && IsShortID(x) && Member(keeper)
      && (forall i {:trigger LoserAt(i)} :: 0 <= i < |losers| ==> LoserAt(i))
      && (forall p {:trigger Listed(p)} :: Listed(p))
      && Sorted([keeper] + losers, KeeperOrder(env))
    }

    ghost predicate Differ(i: nat, j: nat, s: Text)
      requires i < |losers| && j < |losers|
    {
      Render(env, losers[i].raw, s) != Render(env, losers[j].raw, s)
    }

    /** No two losers hold the same text apart from their ids. */
    ghost predicate LosersDiffer()
    {
      forall i, j, s {:trigger Differ(i, j, s)} :: 0 <= i < j < |losers| ==> Differ(i, j, s)
    }

    ghost predicate Alike(p: Path, i: nat, s: Text)
      requires i < |losers|
    {
      p in fs && RowShort(env, p, fs[p]) != x && Holds(env, p, fs[p], s) && StrictFamily(s, x)
        && fs[p] == Render(env, losers[i].raw, s)
    }

    /** No other file in the family of `x` holds what a loser's extension would. */
    ghost predicate NoLookalike()
    {
      forall p, i, s {:trigger Alike(p, i, s)} :: 0 <= i < |losers| ==> !Alike(p, i, s)
    }

    ghost predicate AmongFirst(j: nat, p: Path)
      requires j <= |losers|
    {
      exists i :: 0 <= i < j && losers[i].path == p
    }

    /** An extension of `x` that the run takes for held and that only the first `j` losers hold, or no file. */
    ghost predicate Frees(j: nat, e: Text)
      requires j <= |losers|
    {
      && Extends(e, x) && e in seen
      && forall p {:trigger AmongFirst(j, p)} :: p in fs && Holds(env, p, fs[p], e) ==> AmongFirst(j, p)
    }

    /** Once all losers but the last are moved, `e` is free, and the last would rather have had it. */
    ghost predicate FreesEarlier(e: Text)
    {
      0 < |losers| == |ops| && Frees(|ops| - 1, e) && Earlier(e, ops[|ops| - 1].dst.short)
    }

    /** No id that comes before the last one planned is free, or freed by a move but the last. */
    ghost predicate Steady()
    {
      forall e :: !FreesEarlier(e)
    }

    ghost predicate Planned()
    {
      && Sane(env) && MembersRead() && LosersDiffer() && NoLookalike()
      && HeldIn(env, fs) <= seen && FreshPlan(env, losers, x, seen) == Ok(ops)
    }

    ghost predicate Valid()
    {
      Planned() && Steady()
    }

    /** What re-planning relies on. */
    ghost predicate Ready()
    {
      && Core() && Sane(env) && LosersDiffer() && NoLookalike() && Steady() && IsShortID(x)
      && FreshPlan(env, losers, x, seen) == Ok(ops)
    }

    /** All that matters about loser `i` and the op planned for it. */
    ghost predicate OpFits(i: nat)
      requires i < |losers| == |ops|
    {
      && Member(losers[i]) && ops[i] == Fresh(env, losers[i], ops[i].dst.short)
      && Extends(ops[i].dst.short, x) && ops[i].dst.short !in seen
      && FenceShort(env, ops[i].content) == Some(ops[i].dst.short)
    }

    ghost predicate Core()
    {
      && |losers| == |ops| && Disjoint(fs, ops) && HeldIn(env, fs) <= seen
      && (forall i {:trigger OpFits(i)} :: 0 <= i < |losers| ==> OpFits(i))
      && (forall i, j :: 0 <= i < j < |ops| ==> ops[i].dst.short != ops[j].dst.short)
    }
  }

  /** Every short id that some file holds. */
  ghost function HeldIn(env: Env, fs: Files): set<Text>
  {
    (set p | p in fs :: p.short) + (set p | p in fs && FenceShort(env, fs[p]).Some? :: FenceShort(env, fs[p]).value)
  }

  lemma OccupancyHolds(env: Env, fs: Files, occ: Occupied)
    requires OccupancyOf(env, fs, occ)
    ensures occ.Keys == HeldIn(env, fs)
  {
    forall s | s in HeldIn(env, fs) ensures s in occ {
      var p :| p in fs && Holds(env, p, fs[p], s);
    }
  }

  /** The files once the first `j` ops are complete. */
  ghost function Done(fs: Files, ops: seq<Op>, j: nat): Files
    requires j <= |ops|
  {
    if j == 0 then fs else Moved(Done(fs, ops, j - 1), ops[j - 1])
  }

  /** The files `j` ops on, and with the next one's write done but not its remove when `half`. */
  ghost function Progress(c: Case, j: nat, half: bool): Files
    requires j <= |c.ops| && (half ==> j < |c.ops|)
  {
    if half then Written(Done(c.fs, c.ops, j), c.ops[j]) else Done(c.fs, c.ops, j)
  }

  /** Sources are distinct existing files; destinations are distinct and new. */
  ghost predicate Disjoint(fs: Files, ops: seq<Op>)
  {
    && (forall i :: 0 <= i < |ops| ==> ops[i].src in fs && ops[i].dst !in fs)
    && (forall i, j :: 0 <= i < j < |ops| ==> ops[i].src != ops[j].src && ops[i].dst != ops[j].dst)
  }

  ghost predicate IsSrc(ops: seq<Op>, j: nat, p: Path)
    requires j <= |ops|
  {
    exists i :: 0 <= i < j && ops[i].src == p
  }

  ghost predicate IsDst(ops: seq<Op>, j: nat, p: Path)
    requires j <= |ops|
  {
    exists i :: 0 <= i < j && ops[i].dst == p
  }

  /** What `Done` holds at a path: an original file whose move is not complete, or a completed move's result. */
  lemma {:induction false} DoneAt(fs: Files, ops: seq<Op>, j: nat, p: Path)
    requires Disjoint(fs, ops) && j <= |ops|
    ensures p in Done(fs, ops, j) <==> (p in fs && !IsSrc(ops, j, p)) || IsDst(ops, j, p)
    ensures p in fs && p in Done(fs, ops, j) ==> Done(fs, ops, j)[p] == fs[p]
  {
    if j > 0 {
      DoneAt(fs, ops, j - 1, p);
      assert IsSrc(ops, j, p) <==> (IsSrc(ops, j - 1, p) || ops[j - 1].src == p);
      assert IsDst(ops, j, p) <==> (IsDst(ops, j - 1, p) || ops[j - 1].dst == p);
    }
  }

  lemma {:induction false} DoneDst(fs: Files, ops: seq<Op>, j: nat, i: nat)
    requires Disjoint(fs, ops) && i < j <= |ops|
    ensures ops[i].dst in Done(fs, ops, j) && Done(fs, ops, j)[ops[i].dst] == ops[i].content
  {
    if i < j - 1 {
      DoneDst(fs, ops, j - 1, i);
    }
    assert ops[j - 1].src in fs && ops[i].dst !in fs;
  }

  lemma RenderedFence(env: Env, raw: Text, s: Text)
    requires Sane(env) && env.parse(raw).Some?
    ensures FenceShort(env, Render(env, raw, s)) == Some(s)
  {
    assert env.parse(raw).value.(short := Some(s)).short.Some?;
  }

  lemma PlannedHasCore(c: Case)
    requires c.Planned()
    ensures c.Core()
  {
    FreshPlanIsFresh(c.env, c.losers, c.x, c.seen);
    forall i | 0 <= i < |c.ops| ensures c.OpFits(i) && c.ops[i].src in c.fs && c.ops[i].dst !in c.fs {
      assert c.LoserAt(i);
      RenderedFence(c.env, c.losers[i].raw, c.ops[i].dst.short);
    }
    forall i, j | 0 <= i < j < |c.ops| ensures c.ops[i].src != c.ops[j].src && c.ops[i].dst != c.ops[j].dst {
      assert c.LoserAt(i);
    }
  }

  // ------------------------------------------------ the files part-way through

  /** How many destinations exist. */
  function Started(j: nat, half: bool): nat
  {
    if half then j + 1 else j
  }

  lemma ProgressAt(c: Case, j: nat, half: bool, p: Path)
    requires Disjoint(c.fs, c.ops) && j <= |c.ops| && (half ==> j < |c.ops|)
    ensures p in Progress(c, j, half) <==> (p in c.fs && !IsSrc(c.ops, j, p)) || IsDst(c.ops, Started(j, half), p)
    ensures p in c.fs && p in Progress(c, j, half) ==> Progress(c, j, half)[p] == c.fs[p]
  {
    DoneAt(c.fs, c.ops, j, p);
    if half {
      assert IsDst(c.ops, j + 1, p) <==> (IsDst(c.ops, j, p) || c.ops[j].dst == p);
    }
  }

  lemma ProgressDst(c: Case, j: nat, half: bool, i: nat)
    requires Disjoint(c.fs, c.ops) && j <= |c.ops| && (half ==> j < |c.ops|) && i < Started(j, half)
    ensures c.ops[i].dst in Progress(c, j, half) && Progress(c, j, half)[c.ops[i].dst] == c.ops[i].content
  {
    if i < j { DoneDst(c.fs, c.ops, j, i); }
  }

  /** A file part-way through is an untouched original, or a loser's extension under its own new id. */
  lemma ProgressFile(c: Case, j: nat, half: bool, p: Path) returns (i: nat)
    requires c.Core() && j <= |c.ops| && (half ==> j < |c.ops|) && p in Progress(c, j, half)
    ensures p in c.fs ==> Progress(c, j, half)[p] == c.fs[p] && !IsSrc(c.ops, j, p)
    ensures p !in c.fs ==> i < Started(j, half) && p == c.ops[i].dst && c.OpFits(i)
    ensures p !in c.fs ==> Progress(c, j, half)[p] == c.ops[i].content
  {
    ProgressAt(c, j, half, p);
    i := 0;
    if p in c.fs {
      assert !IsDst(c.ops, Started(j, half), p);
    } else {
      i :| 0 <= i < Started(j, half) && c.ops[i].dst == p;
      ProgressDst(c, j, half, i);
    }
  }

  /** Part-way through, the ids held in the family of `x`, up to the last planned, are the original ones and those
      already written. */
  lemma HeldPartWay(c: Case, j: nat, half: bool)
    requires c.Core() && c.Steady() && j < |c.ops|
    ensures SameUpTo(c.x, c.ops[|c.ops| - 1].dst.short, HeldIn(c.env, Progress(c, j, half)),
              c.seen + Shorts(c.ops[..Started(j, half)]))
  {
    forall e | Extends(e, c.x) && UpTo(e, c.ops[|c.ops| - 1].dst.short)
      ensures e in HeldIn(c.env, Progress(c, j, half)) <==> e in c.seen + Shorts(c.ops[..Started(j, half)])
    {
      if e in HeldIn(c.env, Progress(c, j, half)) {
        HeldBefore(c, j, half, e);
      } else if e in c.seen {
        StillHeld(c, j, half, e);
      } else if e in Shorts(c.ops[..Started(j, half)]) {
        NowHeld(c, j, half, e);
      }
    }
  }

  lemma Holder(env: Env, fs: Files, e: Text) returns (p: Path)
    requires e in HeldIn(env, fs)
    ensures p in fs && Holds(env, p, fs[p], e)
  {
    p :| p in fs && Holds(env, p, fs[p], e);
  }

  lemma HeldBefore(c: Case, j: nat, half: bool, e: Text)
    requires c.Core() && j <= |c.ops| && (half ==> j < |c.ops|) && e in HeldIn(c.env, Progress(c, j, half))
    ensures e in HeldIn(c.env, c.fs) + Shorts(c.ops[..Started(j, half)])
  {
    var p := Holder(c.env, Progress(c, j, half), e);
    var i := ProgressFile(c, j, half, p);
    if p !in c.fs {
      assert c.ops[..Started(j, half)][i].dst.short == e;
    }
  }

  lemma NowHeld(c: Case, j: nat, half: bool, e: Text)
    requires Disjoint(c.fs, c.ops) && j <= |c.ops| && (half ==> j < |c.ops|) && e in Shorts(c.ops[..Started(j, half)])
    ensures e in HeldIn(c.env, Progress(c, j, half))
  {
    var i :| 0 <= i < Started(j, half) && c.ops[..Started(j, half)][i].dst.short == e;
    ProgressDst(c, j, half, i);
  }

  /** Before the last move no id up to the last planned one has been freed. */
  lemma StillHeld(c: Case, j: nat, half: bool, e: Text)
    requires c.Core() && c.Steady() && j < |c.ops| && Extends(e, c.x) && e in c.seen
    requires UpTo(e, c.ops[|c.ops| - 1].dst.short)
    ensures e in HeldIn(c.env, Progress(c, j, half))
  {
    var n := |c.ops| - 1;
    assert c.OpFits(n);
    assert Earlier(e, c.ops[n].dst.short);
    assert !c.FreesEarlier(e);
    var p :| p in c.fs && Holds(c.env, p, c.fs[p], e) && !c.AmongFirst(n, p);
    NotMoved(c, j, p, n);
    ProgressAt(c, j, half, p);
  }

  lemma NotMoved(c: Case, j: nat, p: Path, n: nat)
    requires c.Core() && j <= n <= |c.ops| && !c.AmongFirst(n, p)
    ensures !IsSrc(c.ops, j, p)
  {
    forall i | 0 <= i < j ensures c.ops[i].src != p {
      assert c.OpFits(i);
    }
  }

  /** No file holds, under some id in the family of `x`, what the loser's extension under that id would be. */
  ghost predicate Clean(env: Env, fs: Files, loser: Rec, x: Text)
  {
    forall p, s :: p in fs && Holds(env, p, fs[p], s) && StrictFamily(s, x) ==> fs[p] != Render(env, loser.raw, s)
  }

  lemma CleanPartWay(c: Case, j: nat, half: bool, m: nat)
    requires c.Core() && Sane(c.env) && c.LosersDiffer() && c.NoLookalike()
    requires j <= |c.ops| && (half ==> j < |c.ops|) && Started(j, half) <= m < |c.losers|
    ensures Clean(c.env, Progress(c, j, half), c.losers[m], c.x)
  {
    var now := Progress(c, j, half);
    assert c.OpFits(m);
    forall p, s | p in now && Holds(c.env, p, now[p], s) && StrictFamily(s, c.x)
      ensures now[p] != Render(c.env, c.losers[m].raw, s)
    {
      var i := ProgressFile(c, j, half, p);
      UnlikeLoser(c, j, half, m, p, i, s);
    }
  }

  lemma UnlikeLoser(c: Case, j: nat, half: bool, m: nat, p: Path, i: nat, s: Text)
    requires c.Core() && Sane(c.env) && c.LosersDiffer() && c.NoLookalike()
    requires j <= |c.ops| && (half ==> j < |c.ops|) && m < |c.losers| && p in Progress(c, j, half)
    requires Holds(c.env, p, Progress(c, j, half)[p], s) && StrictFamily(s, c.x)
    requires p in c.fs || (i < Started(j, half) && i < m && c.ops[i].dst == p)
    ensures Progress(c, j, half)[p] != Render(c.env, c.losers[m].raw, s)
  {
    assert c.OpFits(m);
    RenderedFence(c.env, c.losers[m].raw, s);
    if p in c.fs {
      ProgressAt(c, j, half, p);
      assert !c.Alike(p, m, s);
    } else {
      assert c.OpFits(i) && c.Differ(i, m, s);
      ProgressDst(c, j, half, i);
    }
  }

  /** With nothing to resume, planning gives every loser a fresh extension. */
  lemma {:induction false} PlanWithoutResume(env: Env, fs: Files, losers: seq<Rec>, x: Text, occ: Occupied)
    requires forall i :: 0 <= i < |losers| ==> Clean(env, fs, losers[i], x)
    requires forall p, s :: p in fs && Holds(env, p, fs[p], s) ==> s in occ
    requires forall s :: s in occ && occ[s] in fs ==> Holds(env, occ[s], fs[occ[s]], s)
    ensures Plan(env, fs, losers, x, occ) == FreshPlan(env, losers, x, occ.Keys)
  {
    if losers != [] {
      assert Clean(env, fs, losers[0], x);
      assert ResumeOf(env, fs, losers[0], x, occ).None?;
      ExtensionIsExtension(x, occ.Keys);
      if Extension(x, occ.Keys).Ok? {
        var s := Extension(x, occ.Keys).value;
        var next := occ[s := Fresh(env, losers[0], s).dst];
        assert next.Keys == occ.Keys + {s};
        PlanWithoutResume(env, fs, losers[1..], x, next);
      }
    }
  }

  // ------------------------------------------------------------- re-planning

  /** After a crash between a write and its remove, the file just written is recognised, and only that one. */
  lemma ResumeFindsTheWrittenFile(c: Case, j: nat, occ: Occupied)
    requires c.Core() && Sane(c.env) && c.LosersDiffer() && c.NoLookalike() && IsShortID(c.x)
    requires j < |c.ops| && OccupancyOf(c.env, Progress(c, j, true), occ)
    ensures ResumeOf(c.env, Progress(c, j, true), c.losers[j], c.x, occ) == Some(c.ops[j].dst.short)
    ensures c.ops[j].dst.short in occ && occ[c.ops[j].dst.short] == c.ops[j].dst
  {
    var (now, loser, s) := (Progress(c, j, true), c.losers[j], c.ops[j].dst.short);
    ProgressDst(c, j, true, j);
    assert c.OpFits(j);
    assert Holds(c.env, c.ops[j].dst, now[c.ops[j].dst], s);
    OnlyHolder(c, j, occ[s]);
    assert Matches(c.env, now, loser, c.x, occ, s);
    forall t | Matches(c.env, now, loser, c.x, occ, t) ensures t == s {
      OnlyMatch(c, j, occ, t);
    }
    assert IsResume(c.env, now, loser, c.x, occ, Some(s));
  }

  lemma OnlyMatch(c: Case, j: nat, occ: Occupied, t: Text)
    requires c.Core() && Sane(c.env) && c.LosersDiffer() && c.NoLookalike()
    requires j < |c.ops| && Matches(c.env, Progress(c, j, true), c.losers[j], c.x, occ, t)
    requires Holds(c.env, occ[t], Progress(c, j, true)[occ[t]], t)
    ensures t == c.ops[j].dst.short
  {
    var p := occ[t];
    if p == c.ops[j].dst {
      ProgressDst(c, j, true, j);
      assert c.OpFits(j);
    } else {
      NotWritten(c, j, p, t);
    }
  }

  lemma NotWritten(c: Case, j: nat, p: Path, t: Text)
    requires c.Core() && Sane(c.env) && c.LosersDiffer() && c.NoLookalike()
    requires j < |c.ops| && p in Progress(c, j, true) && p != c.ops[j].dst
    requires Holds(c.env, p, Progress(c, j, true)[p], t) && StrictFamily(t, c.x)
    ensures Progress(c, j, true)[p] != Render(c.env, c.losers[j].raw, t)
  {
    var i := WhichFile(c, j, p);
    UnlikeLoser(c, j, true, j, p, i, t);
  }

  lemma WhichFile(c: Case, j: nat, p: Path) returns (i: nat)
    requires c.Core() && j < |c.ops| && p in Progress(c, j, true) && p != c.ops[j].dst
    ensures p in c.fs || (i < j && c.ops[i].dst == p)
  {
    i := ProgressFile(c, j, true, p);
  }

  lemma OnlyHolder(c: Case, j: nat, p: Path)
    requires c.Core() && j < |c.ops|
    requires p in Progress(c, j, true) && Holds(c.env, p, Progress(c, j, true)[p], c.ops[j].dst.short)
    ensures p == c.ops[j].dst
  {
    assert c.OpFits(j);
    assert forall q :: q in c.fs ==> !Holds(c.env, q, c.fs[q], c.ops[j].dst.short);
    var i := ProgressFile(c, j, true, p);
  }

  lemma RestIsFresh(c: Case, j: nat, half: bool, occ: Occupied)
    requires c.Core() && c.Steady() && FreshPlan(c.env, c.losers, c.x, c.seen) == Ok(c.ops)
    requires j <= |c.ops| && (half ==> j < |c.ops|) && OccupancyOf(c.env, Progress(c, j, half), occ)
    requires forall m :: Started(j, half) <= m < |c.losers| ==> Clean(c.env, Progress(c, j, half), c.losers[m], c.x)
    ensures Plan(c.env, Progress(c, j, half), c.losers[Started(j, half)..], c.x, occ) == Ok(c.ops[Started(j, half)..])
  {
    var (now, n) := (Progress(c, j, half), Started(j, half));
    PlanWithoutResume(c.env, now, c.losers[n..], c.x, occ);
    OccupancyHolds(c.env, now, occ);
    FreshPlanSuffix(c.env, c.losers, c.x, c.seen, c.ops, n);
    if j < |c.ops| {
      HeldPartWay(c, j, half);
      AllUpToLast(c);
      FreshPlanUpTo(c.env, c.losers[n..], c.x, c.ops[|c.ops| - 1].dst.short, occ.Keys,
        c.seen + Shorts(c.ops[..n]), c.ops[n..]);
    }
  }

  lemma AllUpToLast(c: Case)
    requires FreshPlan(c.env, c.losers, c.x, c.seen) == Ok(c.ops)
    ensures forall i :: 0 <= i < |c.ops| ==> UpTo(c.ops[i].dst.short, c.ops[|c.ops| - 1].dst.short)
  {
    forall i | 0 <= i < |c.ops| ensures UpTo(c.ops[i].dst.short, c.ops[|c.ops| - 1].dst.short) {
      FreshPlanAscends(c.env, c.losers, c.x, c.seen, c.ops, i);
    }
  }

  lemma {:induction false} PlanResumed(env: Env, fs: Files, losers: seq<Rec>, x: Text, occ: Occupied, ops: seq<Op>)
    requires losers != [] && ops != [] && ops[0] == Fresh(env, losers[0], ops[0].dst.short)
    requires ResumeOf(env, fs, losers[0], x, occ) == Some(ops[0].dst.short)
    requires ops[0].dst.short in occ && occ[ops[0].dst.short] == ops[0].dst
    requires Plan(env, fs, losers[1..], x, occ) == Ok(ops[1..])
    ensures Plan(env, fs, losers, x, occ) == Ok(ops)
  {
    assert ops == [ops[0]] + ops[1..];
  }

  lemma FirstIsFresh(c: Case, j: nat)
    requires c.Core() && j < |c.ops|
    ensures c.ops[j] == Fresh(c.env, c.losers[j], c.ops[j].dst.short)
  {
    assert c.OpFits(j);
  }

  /** Re-planning from any point of an interrupted run gives exactly the ops that were left. */
  lemma ReplanContinues(c: Case, j: nat, half: bool, occ: Occupied)
    requires c.Valid() && j <= |c.ops| && (half ==> j < |c.ops|) && OccupancyOf(c.env, Progress(c, j, half), occ)
    ensures |c.losers| == |c.ops|
    ensures Plan(c.env, Progress(c, j, half), c.losers[j..], c.x, occ) == Ok(c.ops[j..])
  {
    PlannedHasCore(c);
    ReplanReady(c, j, half, occ);
  }

  lemma ReplanReady(c: Case, j: nat, half: bool, occ: Occupied)
    requires c.Ready() && j <= |c.ops| && (half ==> j < |c.ops|) && OccupancyOf(c.env, Progress(c, j, half), occ)
    ensures Plan(c.env, Progress(c, j, half), c.losers[j..], c.x, occ) == Ok(c.ops[j..])
  {
    if half { ReplanHalfReady(c, j, occ); } else { RestIsPlanned(c, j, false, occ, c.losers[j..], c.ops[j..]); }
  }

  lemma ReplanHalfReady(c: Case, j: nat, occ: Occupied)
    requires c.Ready() && j < |c.ops| && OccupancyOf(c.env, Progress(c, j, true), occ)
    ensures Plan(c.env, Progress(c, j, true), c.losers[j..], c.x, occ) == Ok(c.ops[j..])
  {
    var (losers, ops) := (c.losers[j..], c.ops[j..]);
    assert losers[1..] == c.losers[j + 1..] && ops[1..] == c.ops[j + 1..];
    RestIsPlanned(c, j, true, occ, losers[1..], ops[1..]);
    ReplanHalf(c, j, occ, losers, ops);
  }

  lemma RestIsPlanned(c: Case, j: nat, half: bool, occ: Occupied, losers: seq<Rec>, ops: seq<Op>)
    requires c.Ready()
    requires j <= |c.ops| && (half ==> j < |c.ops|) && OccupancyOf(c.env, Progress(c, j, half), occ)
    requires losers == c.losers[Started(j, half)..] && ops == c.ops[Started(j, half)..]
    ensures Plan(c.env, Progress(c, j, half), losers, c.x, occ) == Ok(ops)
  {
    CleanAfter(c, j, half);
    RestIsFresh(c, j, half, occ);
  }

  lemma ReplanHalf(c: Case, j: nat, occ: Occupied, losers: seq<Rec>, ops: seq<Op>)
    requires c.Core() && Sane(c.env) && c.LosersDiffer() && c.NoLookalike() && IsShortID(c.x) && j < |c.ops|
    requires OccupancyOf(c.env, Progress(c, j, true), occ) && losers == c.losers[j..] && ops == c.ops[j..]
    requires Plan(c.env, Progress(c, j, true), losers[1..], c.x, occ) == Ok(ops[1..])
    ensures Plan(c.env, Progress(c, j, true), losers, c.x, occ) == Ok(ops)
  {
    ResumeFindsTheWrittenFile(c, j, occ);
    FirstIsFresh(c, j);
    assert losers[0] == c.losers[j] && ops[0] == c.ops[j];
    PlanResumed(c.env, Progress(c, j, true), losers, c.x, occ, ops);
  }

  lemma CleanAfter(c: Case, j: nat, half: bool)
    requires c.Core() && Sane(c.env) && c.LosersDiffer() && c.NoLookalike() && j <= |c.ops| && (half ==> j < |c.ops|)
    ensures forall m :: Started(j, half) <= m < |c.losers| ==> Clean(c.env, Progress(c, j, half), c.losers[m], c.x)
  {
    forall m | Started(j, half) <= m < |c.losers| ensures Clean(c.env, Progress(c, j, half), c.losers[m], c.x) {
      CleanPartWay(c, j, half, m);
    }
  }

  /** Applying what was left, from any point, completes the same moves. */
  lemma {:induction false} ApplyContinues(c: Case, j: nat, half: bool)
    requires Disjoint(c.fs, c.ops) && j <= |c.ops| && (half ==> j < |c.ops|)
    ensures ApplyAll(Progress(c, j, half), c.ops[j..]) == Ok(Progress(c, |c.ops|, false))
    decreases |c.ops| - j
  {
    if j < |c.ops| {
      OneOp(c, j, half);
      ApplyContinues(c, j + 1, false);
      assert c.ops[j..][1..] == c.ops[j + 1..];
    }
  }

  lemma OneOp(c: Case, j: nat, half: bool)
    requires Disjoint(c.fs, c.ops) && j < |c.ops|
    ensures ApplyOp(Progress(c, j, half), c.ops[j]) == Ok(Progress(c, j + 1, false))
    ensures !AlreadyDone(Progress(c, j, half), c.ops[j])
    ensures Written(Progress(c, j, half), c.ops[j]) == Progress(c, j, true)
  {
    ProgressAt(c, j, half, c.ops[j].src);
    ProgressAt(c, j, half, c.ops[j].dst);
    if half { ProgressDst(c, j, true, j); }
    assert Written(Written(Done(c.fs, c.ops, j), c.ops[j]), c.ops[j]) == Written(Done(c.fs, c.ops, j), c.ops[j]);
  }

  /** Wherever a continued run stops, it stops at a point of the original run. */
  lemma {:induction false} StopsInProgress(c: Case, j: nat, half: bool, mid: Files)
    requires Disjoint(c.fs, c.ops) && j <= |c.ops| && (half ==> j < |c.ops|)
    requires StopsAt(Progress(c, j, half), c.ops[j..], mid)
    ensures exists k, h :: j <= k <= |c.ops| && (h ==> k < |c.ops|) && mid == Progress(c, k, h)
    decreases |c.ops| - j
  {
    if mid != Progress(c, j, half) {
      OneOp(c, j, half);
      assert c.ops[j..][1..] == c.ops[j + 1..];
      if mid == Written(Progress(c, j, half), c.ops[j]) {
        assert mid == Progress(c, j, true);
      } else {
        StopsInProgress(c, j + 1, false, mid);
      }
    }
  }

  // ------------------------------------------------------------- whole runs

  /** `rows` are the files with id `x`, in any order, as the index lists them. */
  ghost predicate Lists(env: Env, fs: Files, x: Text, rows: seq<Rec>)
  {
    && (forall i :: 0 <= i < |rows| ==>
      rows[i].path in fs && fs[rows[i].path] == rows[i].raw && RowShort(env, rows[i].path, rows[i].raw) == x)
    && (forall p :: p in fs && RowShort(env, p, fs[p]) == x ==> Rec(p, fs[p]) in rows)
    && NoRepeats(rows)
  }

  /** Duplicate-id repair of one collision: pick the keeper and plan for the losers. */
  ghost function DuplicateIDSpec(env: Env, fs: Files, rows: seq<Rec>, x: Text, occ: Occupied): (r: Planned)
    requires rows != []
  {
    var members := StableSort(rows, KeeperOrder(env));
    SortKeeps(rows, KeeperOrder(env));
    Plan(env, fs, members[1..], x, occ)
  }

  /** Part-way through, the members are the keeper and the losers whose files are not yet removed. */
  lemma MembersPartWay(c: Case, j: nat, half: bool, r: Rec)
    requires c.Core() && c.MembersRead() && j <= |c.ops| && (half ==> j < |c.ops|)
    requires r.path in Progress(c, j, half) && Progress(c, j, half)[r.path] == r.raw
    requires RowShort(c.env, r.path, r.raw) == c.x
    ensures r in [c.keeper] + c.losers[j..]
  {
    var i := ProgressFile(c, j, half, r.path);
    assert c.Listed(r.path);
    if r.path != c.keeper.path {
      var k :| 0 <= k < |c.losers| && c.losers[k].path == r.path;
      assert c.LoserAt(k) && c.OpFits(k);
      assert k >= j;
      assert c.losers[j..][k - j] == r;
    }
  }

  lemma StaysMember(c: Case, j: nat, r: Rec)
    requires c.Core() && c.MembersRead() && j <= |c.ops| && r in [c.keeper] + c.losers[j..]
    ensures c.Member(r) && !IsSrc(c.ops, j, r.path)
  {
    if r != c.keeper {
      var k :| j <= k < |c.losers| && c.losers[k] == r;
      assert c.LoserAt(k);
    }
    forall i | 0 <= i < j ensures c.ops[i].src != r.path {
      assert c.LoserAt(i) && c.OpFits(i);
    }
  }

  lemma {:induction false} SameElements<T>(a: seq<T>, b: seq<T>)
    requires NoRepeats(a) && NoRepeats(b)
    requires forall x :: x in a <==> x in b
    ensures multiset(a) == multiset(b)
  {
    forall x ensures multiset(a)[x] == multiset(b)[x] {
      OnceEach(a, x);
      OnceEach(b, x);
    }
  }

  lemma {:induction false} OnceEach<T>(a: seq<T>, x: T)
    requires NoRepeats(a)
    ensures multiset(a)[x] == if x in a then 1 else 0
  {
    if a != [] {
      OnceEach(a[1..], x);
      assert a == [a[0]] + a[1..];
    }
  }

  /** However the index lists them, sorting the members puts the keeper first and the remaining losers in order. */
  lemma ListingSorts(c: Case, j: nat, half: bool, rows: seq<Rec>)
    requires c.Planned() && j <= |c.ops| && (half ==> j < |c.ops|) && Lists(c.env, Progress(c, j, half), c.x, rows)
    ensures |c.losers| == |c.ops| && StableSort(rows, KeeperOrder(c.env)) == [c.keeper] + c.losers[j..]
  {
    PlannedHasCore(c);
    ListingIsRest(c, j, half, rows);
    RestSorted(c, j);
    KeeperSortIsDetermined(c.env, rows, [c.keeper] + c.losers[j..]);
  }

  /** Members with distinct paths have one keeper order, whatever order they are given in. */
  lemma KeeperSortIsDetermined(env: Env, rows: seq<Rec>, sorted: seq<Rec>)
    requires Sane(env) && multiset(rows) == multiset(sorted) && Sorted(sorted, KeeperOrder(env))
    requires forall i, k :: 0 <= i < k < |sorted| ==> sorted[i].path != sorted[k].path
    ensures StableSort(rows, KeeperOrder(env)) == sorted
  {
    var less := KeeperOrder(env);
    KeeperOrderIsTotal(env);
    SortKeeps(rows, less);
    SortSorts(rows, less);
    forall a, b | a in sorted && b in sorted && a != b ensures less(a, b) || less(b, a) {
      var i, k :| 0 <= i < |sorted| && 0 <= k < |sorted| && sorted[i] == a && sorted[k] == b;
      assert a.path != b.path by { if i < k {} else {} }
    }
    SortedUnique(sorted, StableSort(rows, less), less);
  }

  lemma RestSorted(c: Case, j: nat)
    requires c.MembersRead() && j <= |c.losers|
    ensures var rest := [c.keeper] + c.losers[j..];
            && Sorted(rest, KeeperOrder(c.env)) && (forall i, k :: 0 <= i < k < |rest| ==> rest[i].path != rest[k].path)
  {
    var (all, rest) := ([c.keeper] + c.losers, [c.keeper] + c.losers[j..]);
    forall i, k | 0 <= i < k < |rest| ensures rest[i].path != rest[k].path && !KeeperOrder(c.env)(rest[k], rest[i]) {
      assert c.LoserAt(k + j - 1);
      assert rest[k] == all[k + j] && rest[i] == all[if i == 0 then 0 else i + j];
      if i > 0 { assert c.LoserAt(i + j - 1); }
    }
  }

  lemma ListingIsRest(c: Case, j: nat, half: bool, rows: seq<Rec>)
    requires c.Core() && c.MembersRead() && j <= |c.ops| && (half ==> j < |c.ops|)
    requires Lists(c.env, Progress(c, j, half), c.x, rows)
    ensures multiset(rows) == multiset([c.keeper] + c.losers[j..])
  {
    var rest := [c.keeper] + c.losers[j..];
    forall r ensures r in rows <==> r in rest {
      if r in rows { MembersPartWay(c, j, half, r); }
      if r in rest {
        StaysMember(c, j, r);
        ProgressAt(c, j, half, r.path);
      }
    }
    RestSorted(c, j);
    SameElements(rows, rest);
  }

  /** A later repair run: it starts from `fs`, lists the members and the occupied ids as they then are,
      plans, applies, and is found stopped at `mid`. */
  ghost predicate RepairRun(env: Env, x: Text, fs: Files, mid: Files)
  {
    exists rows, occ, ops ::
      && rows != [] && Lists(env, fs, x, rows) && OccupancyOf(env, fs, occ)
      && DuplicateIDSpec(env, fs, rows, x, occ) == Ok(ops) && StopsAt(fs, ops, mid)
  }

  ghost predicate PartWay(c: Case, fs: Files, j: nat, half: bool)
  {
    j <= |c.ops| && (half ==> j < |c.ops|) && fs == Progress(c, j, half)
  }

  /** One more run, wherever it starts and wherever it stops, stays on the path of the original run. */
  lemma RunStaysOnPath(c: Case, fs: Files, mid: Files, j: nat, half: bool) returns (k: nat, h: bool)
    requires c.Valid() && PartWay(c, fs, j, half) && RepairRun(c.env, c.x, fs, mid)
    ensures PartWay(c, mid, k, h) && j <= k
  {
    var rows, occ, ops :| rows != [] && Lists(c.env, fs, c.x, rows) && OccupancyOf(c.env, fs, occ)
                          && DuplicateIDSpec(c.env, fs, rows, c.x, occ) == Ok(ops) && StopsAt(fs, ops, mid);
    PlanFromProgress(c, j, half, rows, occ);
    PlannedHasCore(c);
    StopsInProgress(c, j, half, mid);
    k, h :| j <= k <= |c.ops| && (h ==> k < |c.ops|) && mid == Progress(c, k, h);
  }

  lemma PlanFromProgress(c: Case, j: nat, half: bool, rows: seq<Rec>, occ: Occupied)
    requires c.Valid() && j <= |c.ops| && (half ==> j < |c.ops|)
    requires rows != [] && Lists(c.env, Progress(c, j, half), c.x, rows)
    requires OccupancyOf(c.env, Progress(c, j, half), occ)
    ensures DuplicateIDSpec(c.env, Progress(c, j, half), rows, c.x, occ) == Ok(c.ops[j..])
  {
    ListingSorts(c, j, half, rows);
    assert ([c.keeper] + c.losers[j..])[1..] == c.losers[j..];
    ReplanContinues(c, j, half, occ);
  }

  /** A history of repair runs, each starting from the files the one before left. */
  ghost predicate History(env: Env, x: Text, h: seq<Files>)
  {
    h != [] && forall i :: 0 <= i < |h| - 1 ==> RepairRun(env, x, h[i], h[i + 1])
  }

  /** Crash recovery. However many runs were stopped, and wherever: the next run plans without error
      and its completion leaves exactly the files an uninterrupted first run leaves; and meanwhile
      every loser's content is on disk, under its old id or its new one. */
  lemma {:induction false} RecoversFromAnyCrashes(c: Case, h: seq<Files>, rows: seq<Rec>, occ: Occupied)
    requires c.Valid() && History(c.env, c.x, h) && h[0] == c.fs
    requires rows != [] && Lists(c.env, h[|h| - 1], c.x, rows) && OccupancyOf(c.env, h[|h| - 1], occ)
    ensures var plan := DuplicateIDSpec(c.env, h[|h| - 1], rows, c.x, occ);
            && plan.Ok?
            && ApplyAll(c.fs, c.ops).Ok?
            && ApplyAll(h[|h| - 1], plan.value) == ApplyAll(c.fs, c.ops)
    ensures NothingLost(c, h[|h| - 1])
  {
    var j, half := HistoryOnPath(c, h);
    PlanFromProgress(c, j, half, rows, occ);
    PlannedHasCore(c);
    ApplyContinues(c, j, half);
    ApplyContinues(c, 0, false);
    assert c.ops[0..] == c.ops;
    NothingLostPartWay(c, j, half);
  }

  lemma {:induction false} HistoryOnPath(c: Case, h: seq<Files>) returns (j: nat, half: bool)
    requires c.Valid() && History(c.env, c.x, h) && h[0] == c.fs
    ensures PartWay(c, h[|h| - 1], j, half)
    decreases |h|
  {
    if |h| == 1 {
      j, half := 0, false;
    } else {
      j, half := HistoryOnPath(c, h[..|h| - 1]);
      assert RepairRun(c.env, c.x, h[|h| - 2], h[|h| - 1]);
      j, half := RunStaysOnPath(c, h[|h| - 2], h[|h| - 1], j, half);
    }
  }

  ghost predicate NothingLost(c: Case, fs: Files)
  {
    forall i :: 0 <= i < |c.losers| && i < |c.ops| ==>
      (c.losers[i].path in fs && fs[c.losers[i].path] == c.losers[i].raw)
        || (c.ops[i].dst in fs && fs[c.ops[i].dst] == c.ops[i].content)
  }

  lemma NothingLostPartWay(c: Case, j: nat, half: bool)
    requires c.Core() && j <= |c.ops| && (half ==> j < |c.ops|)
    ensures NothingLost(c, Progress(c, j, half))
  {
    forall i | 0 <= i < |c.losers|
      ensures (c.losers[i].path in Progress(c, j, half) && Progress(c, j, half)[c.losers[i].path] == c.losers[i].raw)
           || (c.ops[i].dst in Progress(c, j, half) && Progress(c, j, half)[c.ops[i].dst] == c.ops[i].content)
    {
      assert c.OpFits(i);
      if i < j {
        ProgressDst(c, j, half, i);
      } else {
        ProgressAt(c, j, half, c.losers[i].path);
      }
    }
  }

  // ------------------------------------------------ why names must not be freed

  lemma PlainNamesFreeNothing(c: Case, n: nat, e: Text)
    requires c.Core() && n < |c.ops| && Extends(e, c.x) && e in HeldIn(c.env, c.fs)
    requires forall i :: 0 <= i < |c.losers| ==> !Extends(c.losers[i].path.short, c.x)
    ensures !c.Frees(n, e)
  {
    var p := Holder(c.env, c.fs, e);
    forall i | 0 <= i < n ensures c.losers[i].path != p { assert c.OpFits(i); }
    assert !c.AmongFirst(n, p);
  }

  /** Losers whose file names claim no id in the family free none. */
  lemma PlainNamesAreSteady(c: Case)
    requires c.Planned() && forall i :: 0 <= i < |c.losers| ==> !Extends(c.losers[i].path.short, c.x)
    requires forall e :: e in c.seen && Extends(e, c.x) ==> e in HeldIn(c.env, c.fs)
    ensures c.Steady()
  {
    PlannedHasCore(c);
    SteadyFromCore(c);
  }

  lemma SteadyFromCore(c: Case)
    requires c.Core() && forall i :: 0 <= i < |c.losers| ==> !Extends(c.losers[i].path.short, c.x)
    requires forall e :: e in c.seen && Extends(e, c.x) ==> e in HeldIn(c.env, c.fs)
    ensures c.Steady()
  {
    forall e ensures !c.FreesEarlier(e) {
      if 0 < |c.ops| && Extends(e, c.x) && e in c.seen { PlainNamesFreeNothing(c, |c.ops| - 1, e); }
    }
  }

  /** Every point between two ops is a point where the run may be found stopped. */
  lemma {:induction false} StopsBetween(c: Case, i: nat, j: nat, rest: seq<Op>)
    requires Disjoint(c.fs, c.ops) && i <= j <= |c.ops| && rest == c.ops[i..]
    ensures StopsAt(Done(c.fs, c.ops, i), rest, Done(c.fs, c.ops, j))
    decreases j - i
  {
    if i < j {
      DoneStep(c, i);
      assert rest[0] == c.ops[i];
      assert rest[1..] == c.ops[i + 1..];
      StopsBetween(c, i + 1, j, rest[1..]);
      StopsNext(Done(c.fs, c.ops, i), rest, Done(c.fs, c.ops, i + 1), Done(c.fs, c.ops, j));
    }
  }

  lemma DoneStep(c: Case, i: nat)
    requires Disjoint(c.fs, c.ops) && i < |c.ops|
    ensures ApplyOp(Done(c.fs, c.ops, i), c.ops[i]) == Ok(Done(c.fs, c.ops, i + 1))
  {
    OneOp(c, i, false);
  }

  lemma {:induction false} StopsNext(fs: Files, ops: seq<Op>, next: Files, mid: Files)
    requires ops != [] && ApplyOp(fs, ops[0]) == Ok(next) && StopsAt(next, ops[1..], mid)
    ensures StopsAt(fs, ops, mid)
  {
  }

  lemma NotAmong(c: Case, n: nat, p: Path)
    requires c.Core() && n <= |c.ops| && !IsSrc(c.ops, n, p)
    ensures !c.AmongFirst(n, p)
  {
    forall k | 0 <= k < n ensures c.losers[k].path != p {
      assert c.OpFits(k) && c.ops[k].src != p;
    }
  }

  lemma NotHolder(c: Case, n: nat, e: Text, p: Path)
    requires c.Core() && n < |c.ops| && c.Frees(n, e) && p in Progress(c, n, false)
    ensures !Holds(c.env, p, Progress(c, n, false)[p], e)
  {
    var i := ProgressFile(c, n, false, p);
    if p in c.fs { NotAmong(c, n, p); }
  }

  /** Once all losers but the last are moved, a freed id is held by no file. */
  lemma FreedIsFree(c: Case, n: nat, e: Text)
    requires c.Core() && n < |c.ops| && c.Frees(n, e)
    ensures e !in HeldIn(c.env, Progress(c, n, false))
  {
    forall p | p in Progress(c, n, false) ensures !Holds(c.env, p, Progress(c, n, false)[p], e) {
      NotHolder(c, n, e, p);
    }
  }

  lemma OneLoserPlan(env: Env, now: Files, loser: Rec, x: Text, occ: Occupied)
    requires Clean(env, now, loser, x) && OccupancyOf(env, now, occ)
    ensures var s := Extension(x, HeldIn(env, now));
            Plan(env, now, [loser], x, occ) == if s.Err? then Err(s.error) else Ok([Fresh(env, loser, s.value)])
  {
    PlanWithoutResume(env, now, [loser], x, occ);
    OccupancyHolds(env, now, occ);
    var e := Extension(x, occ.Keys);
    if e.Ok? {
      var rest: seq<Rec> := [loser][1..];
      assert rest == [] && FreshPlan(env, rest, x, occ.Keys + {e.value}) == Ok([]);
      assert [Fresh(env, loser, e.value)] + [] == [Fresh(env, loser, e.value)];
    }
  }

  lemma FreshMove(c: Case, n: nat, now: Files, s: Text)
    requires c.Core() && n == |c.ops| - 1 && now == Progress(c, n, false)
    requires s !in HeldIn(c.env, now) && s != c.ops[n].dst.short
    ensures var r := ApplyAll(now, [Fresh(c.env, c.losers[n], s)]);
            r.Ok? && c.ops[n].dst !in r.value
  {
    var op := Fresh(c.env, c.losers[n], s);
    assert c.OpFits(n);
    assert op.dst in now ==> op.dst.short in set p | p in now :: p.short;
    ProgressAt(c, n, false, c.ops[n].src);
    ProgressAt(c, n, false, c.ops[n].dst);
    assert ApplyOp(now, op) == Ok(Moved(now, op));
    assert [op][1..] == [];
  }

  lemma UnsteadyFree(c: Case, n: nat, now: Files) returns (s: Text)
    requires c.Core() && IsShortID(c.x) && !c.Steady() && n == |c.ops| - 1 && now == Progress(c, n, false)
    ensures Extension(c.x, HeldIn(c.env, now)) == Ok(s) && s !in HeldIn(c.env, now) && s != c.ops[n].dst.short
  {
    var e :| c.FreesEarlier(e);
    FreedIsFree(c, n, e);
    s := FirstFree(c.x, HeldIn(c.env, now), e, c.ops[n].dst.short);
  }

  /** When an id before the last one planned is free, the last loser is planned elsewhere. */
  lemma UnsteadyPlan(c: Case, n: nat, now: Files, occ: Occupied) returns (s: Text)
    requires c.Planned() && c.Core() && !c.Steady() && n == |c.ops| - 1 && now == Progress(c, n, false)
    requires OccupancyOf(c.env, now, occ)
    ensures Plan(c.env, now, [c.losers[n]], c.x, occ) == Ok([Fresh(c.env, c.losers[n], s)])
    ensures s !in HeldIn(c.env, now) && s != c.ops[n].dst.short
  {
    s := UnsteadyFree(c, n, now);
    CleanPartWay(c, n, false, n);
    OneLoserPlan(c.env, now, c.losers[n], c.x, occ);
  }

  /** With `e` free, the first free extension is no later one. */
  lemma FirstFree(x: Text, held: set<Text>, e: Text, last: Text) returns (s: Text)
    requires IsShortID(x) && Extends(e, x) && e !in held && Earlier(e, last)
    ensures Extension(x, held) == Ok(s) && s !in held && s != last
  {
    ExtensionIsExtension(x, held);
    s := Extension(x, held).value;
    EarlierChains(s, e, last);
    EarlierTotal(s, last);
  }

  lemma UnsteadyHasOps(c: Case)
    requires c.Planned() && !c.Steady()
    ensures c.Core() && |c.losers| == |c.ops| > 0
  {
    PlannedHasCore(c);
    var e :| c.FreesEarlier(e);
  }

  lemma UnsteadyMove(c: Case, n: nat, now: Files, occ: Occupied)
    requires c.Planned() && c.Core() && !c.Steady() && n == |c.ops| - 1 && now == Progress(c, n, false)
    requires OccupancyOf(c.env, now, occ)
    ensures var plan := Plan(c.env, now, [c.losers[n]], c.x, occ);
            plan.Ok? && ApplyAll(now, plan.value).Ok? && c.ops[n].dst !in ApplyAll(now, plan.value).value
  {
    var s := UnsteadyPlan(c, n, now, occ);
    FreshMove(c, n, now, s);
  }

  /** The condition is exact: when moving the earlier losers frees an id before the last one planned, a run
      stopped just before its last move is continued to different files. */
  lemma UnsteadyDoesNotRecover(c: Case, n: nat, now: Files, rows: seq<Rec>, occ: Occupied)
    requires c.Planned() && !c.Steady() && n == |c.ops| - 1 && now == Progress(c, n, false)
    requires rows != [] && Lists(c.env, now, c.x, rows) && OccupancyOf(c.env, now, occ)
    ensures StopsAt(c.fs, c.ops, now)
    ensures var plan := DuplicateIDSpec(c.env, now, rows, c.x, occ);
            plan.Ok? && ApplyAll(now, plan.value) != ApplyAll(c.fs, c.ops)
  {
    UnsteadyHasOps(c);
    UnsteadyMove(c, n, now, occ);
    LastLoserIsLeft(c, n, now, rows, occ);
    StopsBeforeLast(c, n, now);
  }

  lemma LastLoserIsLeft(c: Case, n: nat, now: Files, rows: seq<Rec>, occ: Occupied)
    requires c.Planned() && |c.losers| == |c.ops| && n == |c.ops| - 1 && now == Progress(c, n, false)
    requires rows != [] && Lists(c.env, now, c.x, rows)
    ensures DuplicateIDSpec(c.env, now, rows, c.x, occ) == Plan(c.env, now, [c.losers[n]], c.x, occ)
  {
    ListingSorts(c, n, false, rows);
    assert c.losers[n..] == [c.losers[n]];
    assert ([c.keeper] + [c.losers[n]])[1..] == [c.losers[n]];
  }

  /** A run may be found stopped before its last move, and otherwise ends with that move's file. */
  lemma StopsBeforeLast(c: Case, n: nat, now: Files)
    requires c.Core() && n == |c.ops| - 1 && now == Progress(c, n, false)
    ensures StopsAt(c.fs, c.ops, now)
    ensures ApplyAll(c.fs, c.ops).Ok? && c.ops[n].dst in ApplyAll(c.fs, c.ops).value
  {
    assert c.ops[0..] == c.ops;
    StopsBetween(c, 0, n, c.ops);
    ApplyContinues(c, 0, false);
    ProgressDst(c, |c.ops|, false, n);
  }

  // --------------------------------------------------------- applying, on disk

  /** The scope directory. `trace` records the files after every atomic step. */
  class Disk {
    var files: Files
    ghost var trace: seq<Files>

    constructor (files: Files)
      ensures this.files == files && trace == []
    {
      this.files := files;
      trace := [];
    }

    method Write(p: Path, content: Text)
      modifies this
      ensures files == old(files)[p := content] && trace == old(trace) + [files]
    {
      files := files[p := content];
      trace := trace + [files];
    }

    method Remove(p: Path)
      modifies this
      ensures files == old(files) - {p} && trace == old(trace) + [files]
    {
      files := files - {p};
      trace := trace + [files];
    }

    /** One op. The disk passes through its write and then its remove. */
    method ApplyOne(op: Op) returns (touched: seq<Path>, refused: bool)
      modifies this
      ensures ApplyOp(old(files), op) == if refused then Err(op.dst) else Ok(files)
      ensures refused ==> files == old(files)
      ensures old(trace) <= trace
      ensures forall k :: |old(trace)| <= k < |trace| ==>
                          (trace[k] == Written(old(files), op) && !AlreadyDone(old(files), op)) || trace[k] == files
      ensures refused ==> trace == old(trace)
      ensures forall p :: p !in touched ==> Same(old(files), files, p)
    {
      touched, refused := [], false;
      if op.src != op.dst && AlreadyDone(files, op) {
        touched := [op.dst, op.src];
      } else if op.src != op.dst && op.dst in files && files[op.dst] != op.content {
        refused := true;
      } else {
        Write(op.dst, op.content);
        touched := [op.dst];
        if op.src != op.dst {
          Remove(op.src);
          touched := touched + [op.src];
        }
      }
    }

    /** Executes the ops in order. Whatever it changes is reported as touched, and every state the disk
        passes through is one the recovery result speaks about. */
    method Apply(ops: seq<Op>) returns (touched: seq<Path>, refused: Option<Path>)
      modifies this
      ensures ApplyAll(old(files), ops) == if refused.None? then Ok(files) else Err(refused.value)
      ensures old(trace) <= trace
      ensures forall k :: |old(trace)| <= k < |trace| ==> StopsAt(old(files), ops, trace[k])
      ensures forall p :: p !in touched ==> Same(old(files), files, p)
    {
      touched, refused := [], None;
      var i := 0;
      assert ops[0..] == ops;
      while i < |ops|
        invariant 0 <= i <= |ops|
        invariant ApplyAll(old(files), ops) == ApplyAll(files, ops[i..])
        invariant forall mid :: StopsAt(files, ops[i..], mid) ==> StopsAt(old(files), ops, mid)
        invariant old(trace) <= trace
        invariant forall k :: |old(trace)| <= k < |trace| ==> StopsAt(old(files), ops, trace[k])
        invariant forall p :: p !in touched ==> Same(old(files), files, p)
      {
        StopsStep(files, ops, i);
        var more, no := ApplyOne(ops[i]);
        if no {
          refused := Some(ops[i].dst);
          return;
        }
        touched := touched + more;
        i := i + 1;
      }
    }
  }

  ghost predicate Same(a: Files, b: Files, p: Path)
  {
    (p in a <==> p in b) && (p in a ==> a[p] == b[p])
  }

  lemma StopsStep(fs: Files, ops: seq<Op>, i: nat)
    requires i < |ops|
    ensures var r := ApplyOp(fs, ops[i]);
            ApplyAll(fs, ops[i..]) == if r.Err? then r else ApplyAll(r.value, ops[i + 1..])
    ensures ApplyOp(fs, ops[i]).Ok? ==>
              && (!AlreadyDone(fs, ops[i]) ==> StopsAt(fs, ops[i..], Written(fs, ops[i])))
              && StopsAt(fs, ops[i..], ApplyOp(fs, ops[i]).value)
              && forall mid :: StopsAt(ApplyOp(fs, ops[i]).value, ops[i + 1..], mid) ==> StopsAt(fs, ops[i..], mid)
  {
    assert ops[i..][0] == ops[i] && ops[i..][1..] == ops[i + 1..];
    if ApplyOp(fs, ops[i]).Ok? {
      assert StopsAt(ApplyOp(fs, ops[i]).value, ops[i + 1..], ApplyOp(fs, ops[i]).value);
    }
  }
}
