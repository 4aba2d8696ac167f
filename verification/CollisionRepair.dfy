/** Duplicate-id repair and its crash recovery. The scope directory is a map from paths to
    bytes that changes by atomic writes and removes only, and a run may stop after any of them. */
module CollisionRepair {
  import opened Lex
  import opened Results
  import opened Sorting
  import opened ShortIds
  import opened Collision

  /** A ticket file name `<scope>-<short>[-<slug>].md` in a directory; an empty slug is no slug. */
  datatype Path = Path(dir: Text, short: Text, slug: Text)

  /** A parsed ticket: the short id of a legal same-scope fence id, the created value, and all the rest. */
  datatype Doc = Doc(short: Option<Text>, created: Text, rest: Text)

  /** The foreign functions the repair relies on. */
  datatype Env = Env(
    parse: Text -> Option<Doc>,
    serialize: Doc -> Text,
    instant: Text -> Option<int>,
    sha: Hash,
    baseText: Path -> Text,
    pathText: Path -> Text)

  type Files = map<Path, Text>

  datatype Op = Op(src: Path, dst: Path, content: Text)

  /** A member of the collision as read from disk. */
  datatype Rec = Rec(path: Path, raw: Text)

  /** Serialized frontmatter parses back with the id it was given; different files have different path strings. */
  ghost predicate Sane(env: Env)
  {
    && (forall d: Doc :: d.short.Some? ==>
      env.parse(env.serialize(d)).Some? && env.parse(env.serialize(d)).value.short == d.short)
    && (forall p, q :: env.pathText(p) == env.pathText(q) ==> p == q)
  }

  function FenceShort(env: Env, raw: Text): Option<Text>
  {
    var d := env.parse(raw);
    if d.Some? then d.value.short else None
  }

  /** The short id the index gives a file: the fence id when legal, the file name's otherwise. */
  function RowShort(env: Env, p: Path, raw: Text): Text
  {
    var s := FenceShort(env, raw);
    if s.Some? then s.value else p.short
  }

  predicate Holds(env: Env, p: Path, raw: Text, s: Text)
  {
    p.short == s || FenceShort(env, raw) == Some(s)
  }

  /** The file's bytes with its id replaced. */
  function Render(env: Env, raw: Text, s: Text): Text
  {
    var d := env.parse(raw);
    if d.Some? then env.serialize(d.value.(short := Some(s))) else raw
  }

  predicate StrictFamily(s: Text, x: Text)
  {
    s != x && ShortInFamily(s, x)
  }

  // ---------------------------------------------------------- keeper order

  function ToMember(env: Env, r: Rec): Member
  {
    var d := env.parse(r.raw);
    Member(if d.Some? then env.instant(d.value.created) else None, env.baseText(r.path), r.raw, env.pathText(r.path))
  }

  function KeeperOrder(env: Env): (less: (Rec, Rec) -> bool)
    ensures forall a, b :: less(a, b) == KeepBefore(env.sha, ToMember(env, a), ToMember(env, b))
  {
    (a, b) => KeepBefore(env.sha, ToMember(env, a), ToMember(env, b))
  }

  /** On files with distinct paths the keeper order is a strict total order. */
  lemma KeeperOrderIsTotal(env: Env)
    requires Sane(env)
    ensures WeakOrder(KeeperOrder(env))
    ensures forall a: Rec, b: Rec :: a.path != b.path ==> KeeperOrder(env)(a, b) || KeeperOrder(env)(b, a)
  {
    var less := KeeperOrder(env);
    forall a, b | less(a, b) ensures !less(b, a) {
      KeepBeforeAsymmetric(env.sha, ToMember(env, a), ToMember(env, b));
    }
    forall a, b, c | !less(b, a) && !less(c, b) ensures !less(c, a) {
      KeepBeforeTotal(env.sha, ToMember(env, a), ToMember(env, b));
      KeepBeforeTotal(env.sha, ToMember(env, b), ToMember(env, c));
      if less(a, b) && less(b, c) {
        KeepBeforeTransitive(env.sha, ToMember(env, a), ToMember(env, b), ToMember(env, c));
      }
    }
    forall a: Rec, b: Rec | a.path != b.path ensures less(a, b) || less(b, a) {
      KeepBeforeTotal(env.sha, ToMember(env, a), ToMember(env, b));
    }
  }

  /** When a file says it was created; none when it does not parse or the value is no instant. */
  function CreatedAt(env: Env, r: Rec): Option<int>
  {
    match env.parse(r.raw)
    case None => None
    case Some(d) => env.instant(d.created)
  }

  /** `a` keeps the id rather than `b`: it was created no later, where no instant at all comes first; at one instant its
      base name is no greater, at one base name its hash, and at one hash its path. */
  ghost predicate KeptOver(env: Env, a: Rec, b: Rec)
  {
    var (i, j) := (CreatedAt(env, a), CreatedAt(env, b));
    && (j == None ==> i == None)
    && (i != None && j != None ==> i.value <= j.value)
    && (i == j ==> LessEq(env.baseText(a.path), env.baseText(b.path)))
    && (i == j && env.baseText(a.path) == env.baseText(b.path) ==> LessEq(env.sha(a.raw), env.sha(b.raw)))
    && (i == j && env.baseText(a.path) == env.baseText(b.path) && env.sha(a.raw) == env.sha(b.raw) ==>
          LessEq(env.pathText(a.path), env.pathText(b.path)))
  }

  lemma NotBeforeMeansKeptOver(env: Env, a: Rec, b: Rec)
    requires !KeeperOrder(env)(b, a)
    ensures KeptOver(env, a, b)
  {
    Total(env.baseText(a.path), env.baseText(b.path));
    Total(env.sha(a.raw), env.sha(b.raw));
    Total(env.pathText(a.path), env.pathText(b.path));
  }

  /** `kept` and the losers are the rows, and each of them in turn would keep the id rather than those after it. */
  ghost predicate InKeeperOrder(env: Env, rows: seq<Rec>, kept: Rec, losers: seq<Rec>)
  {
    && multiset(rows) == multiset([kept] + losers)
    && forall i, j :: 0 <= i < j < |losers| + 1 ==> KeptOver(env, ([kept] + losers)[i], ([kept] + losers)[j])
  }

  /** The keeper order puts first the file that keeps the id. */
  lemma SortRanks(env: Env, rows: seq<Rec>)
    requires Sane(env) && rows != []
    ensures var members := StableSort(rows, KeeperOrder(env));
            members != [] && InKeeperOrder(env, rows, members[0], members[1..])
  {
    var members := StableSort(rows, KeeperOrder(env));
    SortKeeps(rows, KeeperOrder(env));
    KeeperOrderIsTotal(env);
    SortSorts(rows, KeeperOrder(env));
    assert members == [members[0]] + members[1..];
    forall i, j | 0 <= i < j < |members| ensures KeptOver(env, members[i], members[j]) {
      NotBeforeMeansKeptOver(env, members[i], members[j]);
    }
  }

  // -------------------------------------------------------------- the plan

  type Occupied = map<Text, Path>

  /** `occ` names one holder for each short id that some file holds, by name or by fence. */
  ghost predicate OccupancyOf(env: Env, fs: Files, occ: Occupied)
  {
    && (forall p, s :: p in fs && Holds(env, p, fs[p], s) ==> s in occ)
    && (forall s :: s in occ ==> occ[s] in fs && Holds(env, occ[s], fs[occ[s]], s))
  }

  /** An earlier run already wrote this loser's extension under `s`. */
  predicate Matches(env: Env, fs: Files, loser: Rec, x: Text, occ: Occupied, s: Text)
  {
    s in occ && StrictFamily(s, x) && occ[s] in fs && fs[occ[s]] == Render(env, loser.raw, s)
  }

  /** `sort.Strings` order of short ids: by their ASCII bytes, digits before letters. */
  predicate AsciiLess(a: Text, b: Text)
  {
    Less(ShortBytes(a), ShortBytes(b))
  }

  ghost predicate IsResume(env: Env, fs: Files, loser: Rec, x: Text, occ: Occupied, r: Option<Text>)
  {
    match r
    case Some(s) =>
      && Matches(env, fs, loser, x, occ, s)
      && forall t :: Matches(env, fs, loser, x, occ, t) ==> t == s || Less(ShortBytes(s), ShortBytes(t))
    case None => forall t :: !Matches(env, fs, loser, x, occ, t)
  }

  function Fresh(env: Env, loser: Rec, s: Text): Op
  {
    Op(loser.path, loser.path.(short := s), Render(env, loser.raw, s))
  }

  ghost function ResumeOf(env: Env, fs: Files, loser: Rec, x: Text, occ: Occupied): Option<Text>
  {
    if exists s :: IsResume(env, fs, loser, x, occ, Some(s))
    then var s :| IsResume(env, fs, loser, x, occ, Some(s)); Some(s)
    else None
  }

  type Planned = Result<seq<Op>, ExtendError>

  function Prepend(op: Op, rest: Planned): Planned
  {
    if rest.Err? then rest else Ok([op] + rest.value)
  }

  /** The ops that resolve the losers in order, each by the file an earlier run wrote or by a fresh extension. */
  ghost function Plan(env: Env, fs: Files, losers: seq<Rec>, x: Text, occ: Occupied): (r: Planned)
    decreases |losers|
  {
    if losers == [] then Ok([])
    else
      match ResumeOf(env, fs, losers[0], x, occ)
      case Some(s) =>
        assert IsResume(env, fs, losers[0], x, occ, Some(s));
        Prepend(Op(losers[0].path, occ[s], Render(env, losers[0].raw, s)), Plan(env, fs, losers[1..], x, occ))
      case None =>
        var e := Extension(x, occ.Keys);
        if e.Err? then Err(e.error)
        else
          var op := Fresh(env, losers[0], e.value);
          Prepend(op, Plan(env, fs, losers[1..], x, occ[e.value := op.dst]))
  }

  ghost predicate NamesTaken(fs: Files, occ: Occupied)
  {
    forall p :: p in fs ==> p.short in occ
  }

  /** Completes an earlier run's move: the destination already holds the op's bytes, under an occupied id of the
      family. */
  ghost predicate Resumes(env: Env, fs: Files, loser: Rec, x: Text, occ: Occupied, op: Op)
  {
    exists s :: Matches(env, fs, loser, x, occ, s) && op == Op(loser.path, occ[s], Render(env, loser.raw, s))
  }

  /** Moves the loser to an extension of `x` that nothing holds. */
  ghost predicate Mints(env: Env, loser: Rec, x: Text, occ: Occupied, op: Op)
  {
    op == Fresh(env, loser, op.dst.short) && Extends(op.dst.short, x) && op.dst.short !in occ
  }

  ghost predicate OpSafe(env: Env, fs: Files, loser: Rec, x: Text, occ: Occupied, op: Op)
  {
    Resumes(env, fs, loser, x, occ, op) || Mints(env, loser, x, occ, op)
  }

  /** An id just handed out belongs to no file on disk, so an op that is safe knowing it was safe before. */
  lemma SafeBefore(env: Env, fs: Files, loser: Rec, x: Text, occ: Occupied, s: Text, dst: Path, op: Op)
    requires NamesTaken(fs, occ) && s !in occ && dst.short == s && OpSafe(env, fs, loser, x, occ[s := dst], op)
    ensures OpSafe(env, fs, loser, x, occ, op)
    ensures Mints(env, loser, x, occ, op) ==> Mints(env, loser, x, occ[s := dst], op) && op.dst.short != s
  {
    if Resumes(env, fs, loser, x, occ[s := dst], op) {
      var t :| Matches(env, fs, loser, x, occ[s := dst], t)
        && op == Op(loser.path, occ[s := dst][t], Render(env, loser.raw, t));
      assert t != s;
      assert Matches(env, fs, loser, x, occ, t);
    }
  }

  /** The occupied ids after a plan's first op. */
  function AfterFirst(occ: Occupied, op: Op, resumed: bool): Occupied
  {
    if resumed then occ else occ[op.dst.short := op.dst]
  }

  /** The occupied ids once every loser is planned for: each minted id is recorded with its path. */
  ghost function OccupiedAfter(env: Env, fs: Files, losers: seq<Rec>, x: Text, occ: Occupied): Occupied
    decreases |losers|
  {
    if losers == [] then occ
    else
      match ResumeOf(env, fs, losers[0], x, occ)
      case Some(_) => OccupiedAfter(env, fs, losers[1..], x, occ)
      case None =>
        var e := Extension(x, occ.Keys);
        if e.Err? then occ
        else OccupiedAfter(env, fs, losers[1..], x, occ[e.value := Fresh(env, losers[0], e.value).dst])
  }

  /** A plan is one safe op and the plan of the rest. */
  lemma {:induction false} PlanHead(
    env: Env, fs: Files, losers: seq<Rec>, x: Text, occ: Occupied, ops: seq<Op>) returns (resumed: bool)
    requires Plan(env, fs, losers, x, occ) == Ok(ops) && losers != []
    ensures ops != [] && Plan(env, fs, losers[1..], x, AfterFirst(occ, ops[0], resumed)) == Ok(ops[1..])
    ensures OccupiedAfter(env, fs, losers, x, occ)
              == OccupiedAfter(env, fs, losers[1..], x, AfterFirst(occ, ops[0], resumed))
    ensures if resumed then Resumes(env, fs, losers[0], x, occ, ops[0]) else Mints(env, losers[0], x, occ, ops[0])
  {
    var first := ResumeOf(env, fs, losers[0], x, occ);
    resumed := first.Some?;
    if resumed {
      assert IsResume(env, fs, losers[0], x, occ, first);
    } else {
      ExtensionIsExtension(x, occ.Keys);
    }
  }

  /** One op for each loser in order: it completes a move already begun or goes to an id that was free. */
  lemma {:induction false} PlanIsSafe(env: Env, fs: Files, losers: seq<Rec>, x: Text, occ: Occupied, ops: seq<Op>)
    requires NamesTaken(fs, occ) && Plan(env, fs, losers, x, occ) == Ok(ops)
    ensures |ops| == |losers| && forall i :: 0 <= i < |ops| ==> OpSafe(env, fs, losers[i], x, occ, ops[i])
    decreases |losers|
  {
    if losers != [] {
      var resumed := PlanHead(env, fs, losers, x, occ, ops);
      var next := AfterFirst(occ, ops[0], resumed);
      PlanIsSafe(env, fs, losers[1..], x, next, ops[1..]);
      forall i | 1 <= i < |ops| ensures OpSafe(env, fs, losers[i], x, occ, ops[i]) {
        assert OpSafe(env, fs, losers[1..][i - 1], x, next, ops[1..][i - 1]);
        if !resumed { SafeBefore(env, fs, losers[i], x, occ, ops[0].dst.short, ops[0].dst, ops[i]); }
      }
    }
  }

  /** The occupied ids after the first `k` ops of a plan: what there was, and the ids of the ops so far. */
  lemma {:induction false} Carried(
    env: Env, fs: Files, losers: seq<Rec>, x: Text, occ: Occupied, ops: seq<Op>, k: nat) returns (next: Occupied)
    requires NamesTaken(fs, occ) && Plan(env, fs, losers, x, occ) == Ok(ops) && k <= |losers| == |ops|
    ensures NamesTaken(fs, next) && Plan(env, fs, losers[k..], x, next) == Ok(ops[k..])
    ensures occ.Keys <= next.Keys && forall m :: 0 <= m < k ==> ops[m].dst.short in next
  {
    if k == 0 {
      next := occ;
      assert losers[0..] == losers && ops[0..] == ops;
    } else {
      var was := Carried(env, fs, losers, x, occ, ops, k - 1);
      next := CarriedOne(env, fs, losers[k - 1..], x, was, ops[k - 1..]);
      assert losers[k - 1..][1..] == losers[k..] && ops[k - 1..][1..] == ops[k..];
    }
  }

  lemma {:induction false} CarriedOne(env: Env, fs: Files, losers: seq<Rec>, x: Text, occ: Occupied, ops: seq<Op>)
    returns (next: Occupied)
    requires NamesTaken(fs, occ) && Plan(env, fs, losers, x, occ) == Ok(ops) && losers != []
    ensures ops != [] && NamesTaken(fs, next) && Plan(env, fs, losers[1..], x, next) == Ok(ops[1..])
    ensures occ.Keys <= next.Keys && ops[0].dst.short in next
  {
    var resumed := PlanHead(env, fs, losers, x, occ, ops);
    next := AfterFirst(occ, ops[0], resumed);
    if resumed {
      var s :| Matches(env, fs, losers[0], x, occ, s) && ops[0].dst == occ[s];
    }
  }

  /** No minted id is handed out twice, and none is the destination of an earlier op. */
  lemma {:induction false} MintedIdsDiffer(
    env: Env, fs: Files, losers: seq<Rec>, x: Text, occ: Occupied, ops: seq<Op>, i: nat, j: nat)
    requires NamesTaken(fs, occ) && Plan(env, fs, losers, x, occ) == Ok(ops) && i < j < |losers| == |ops|
    requires Mints(env, losers[j], x, occ, ops[j])
    ensures ops[i].dst.short != ops[j].dst.short
  {
    var now := Carried(env, fs, losers, x, occ, ops, j);
    var resumed := PlanHead(env, fs, losers[j..], x, now, ops[j..]);
    assert losers[j..][0] == losers[j] && ops[j..][0] == ops[j];
    if resumed { ResumedIsNotMinted(env, fs, losers[j], x, now, occ, ops[j]); }
  }

  lemma ResumedIsNotMinted(env: Env, fs: Files, loser: Rec, x: Text, now: Occupied, occ: Occupied, op: Op)
    requires NamesTaken(fs, occ) && Resumes(env, fs, loser, x, now, op)
    ensures !Mints(env, loser, x, occ, op)
  {
  }

  // ------------------------------------------------- the planning loops

  lemma AsciiLessOrders()
    ensures WeakOrder(AsciiLess)
  {
    forall a, b | AsciiLess(a, b) ensures !AsciiLess(b, a) { Asymmetric(ShortBytes(a), ShortBytes(b)); }
    forall a, b, c | !AsciiLess(b, a) && !AsciiLess(c, b) ensures !AsciiLess(c, a) {
      NotLessChains(ShortBytes(a), ShortBytes(b), ShortBytes(c));
    }
  }

  lemma {:induction false} ResumeIsUnique(env: Env, fs: Files, loser: Rec, x: Text, occ: Occupied, r: Option<Text>)
    requires IsResume(env, fs, loser, x, occ, r)
    ensures ResumeOf(env, fs, loser, x, occ) == r
  {
    if r.Some? {
      var s := ResumeOf(env, fs, loser, x, occ).value;
      assert IsResume(env, fs, loser, x, occ, Some(s));
      if s != r.value { Asymmetric(ShortBytes(s), ShortBytes(r.value)); }
    }
  }

  method FamilyInOrder(x: Text, occ: Occupied) returns (candidates: seq<Text>)
    ensures forall s :: s in candidates <==> s in occ && StrictFamily(s, x)
    ensures forall i :: 0 <= i < |candidates| ==> candidates[i] in occ && StrictFamily(candidates[i], x)
    ensures Sorted(candidates, AsciiLess)
  {
    var unsorted := KeysInSomeOrder(set s | s in occ && StrictFamily(s, x));
    SortKeeps(unsorted, AsciiLess);
    AsciiLessOrders();
    SortSorts(unsorted, AsciiLess);
    return StableSort(unsorted, AsciiLess);
  }

  /** Looks through the occupied ids of the loser's family, in string order, for the file an earlier run wrote. */
  method ResumeExtension(env: Env, fs: Files, loser: Rec, x: Text, occ: Occupied) returns (r: Option<Text>)
    ensures r == ResumeOf(env, fs, loser, x, occ)
  {
    var candidates := FamilyInOrder(x, occ);
    var i := 0;
    while i < |candidates|
      invariant 0 <= i <= |candidates|
      invariant forall k :: 0 <= k < i ==> !Matches(env, fs, loser, x, occ, candidates[k])
    {
      var s := candidates[i];
      if occ[s] in fs && fs[occ[s]] == Render(env, loser.raw, s) {
        forall t | Matches(env, fs, loser, x, occ, t) ensures t == s || AsciiLess(s, t) {
          assert t in candidates;
          var k :| 0 <= k < |candidates| && candidates[k] == t;
          FirstOfSorted(candidates, i, k);
        }
        ResumeIsUnique(env, fs, loser, x, occ, Some(s));
        return Some(s);
      }
      i := i + 1;
    }
    forall t ensures !Matches(env, fs, loser, x, occ, t) {
      if t in occ && StrictFamily(t, x) { assert t in candidates; }
    }
    ResumeIsUnique(env, fs, loser, x, occ, None);
    return None;
  }

  lemma FirstOfSorted(candidates: seq<Text>, i: nat, k: nat)
    requires Sorted(candidates, AsciiLess) && i <= k < |candidates|
    requires IsShortID(candidates[i]) && IsShortID(candidates[k])
    ensures candidates[k] == candidates[i] || AsciiLess(candidates[i], candidates[k])
  {
    var (s, t) := (candidates[i], candidates[k]);
    Total(ShortBytes(s), ShortBytes(t));
    if ShortBytes(s) == ShortBytes(t) {
      ShortBytesInjective(s, t);
    } else if i < k {
      assert !AsciiLess(t, s);
    }
  }

  datatype RepairError = TooFewMembers | Unparsed(path: Path) | NoExtension(cause: ExtendError)

  function PrependAll(ops: seq<Op>, rest: Planned): Planned
  {
    if rest.Err? then rest else Ok(ops + rest.value)
  }

  lemma PrependSnoc(ops: seq<Op>, op: Op, rest: Planned)
    ensures PrependAll(ops, Prepend(op, rest)) == PrependAll(ops + [op], rest)
  {
    if rest.Ok? { assert ops + ([op] + rest.value) == (ops + [op]) + rest.value; }
  }

  predicate AllParse(env: Env, rows: seq<Rec>)
  {
    forall i :: 0 <= i < |rows| ==> env.parse(rows[i].raw).Some?
  }

  /** What a repair reports of one loser. */
  datatype Rename = Rename(newShort: Text, src: Path, dst: Path)

  /** The ops move the losers in order, and each rename names the id that its op writes. */
  ghost predicate Reports(env: Env, fs: Files, losers: seq<Rec>, ops: seq<Op>, renames: seq<Rename>)
  {
    && |renames| == |ops| <= |losers|
    && forall i :: 0 <= i < |ops| ==> ReportsOne(env, fs, losers[i], ops[i], renames[i])
  }

  lemma ReportsSnoc(
    env: Env, fs: Files, losers: seq<Rec>, ops: seq<Op>, renames: seq<Rename>, op: Op, rename: Rename)
    requires Reports(env, fs, losers, ops, renames) && |ops| < |losers|
    requires ReportsOne(env, fs, losers[|ops|], op, rename)
    ensures Reports(env, fs, losers, ops + [op], renames + [rename])
  {
  }

  /** The loser's file goes, with nothing but its id changed, to the name with the new id beside it, or to where another
      file holds just that already. */
  ghost predicate ReportsOne(env: Env, fs: Files, loser: Rec, op: Op, rename: Rename)
  {
    && rename.src == op.src == loser.path && rename.dst == op.dst
    && (env.parse(loser.raw).Some? ==>
          var d := env.parse(loser.raw).value;
          op.content == env.serialize(Doc(Some(rename.newShort), d.created, d.rest)))
    && (op.dst == Path(loser.path.dir, rename.newShort, loser.path.slug) || (op.dst in fs && fs[op.dst] == op.content))
  }

  /** Sorts the members, keeps the first, and plans for the others in turn, recording each minted id in the occupied
      map for the collisions that the same run repairs later. */
  method DuplicateID(env: Env, fs: Files, rows: seq<Rec>, x: Text, occupied: Occupied)
    returns (r: Result<seq<Op>, RepairError>, renames: seq<Rename>, occ: Occupied)
    ensures r == Err(TooFewMembers) <==> |rows| < 2
    ensures r.Err? && r.error.Unparsed? <==> |rows| >= 2 && !AllParse(env, rows)
    ensures |rows| >= 2 && AllParse(env, rows) ==>
              var losers := StableSort(rows, KeeperOrder(env))[1..];
              var plan := Plan(env, fs, losers, x, occupied);
              && r == (if plan.Ok? then Ok(plan.value) else Err(NoExtension(plan.error)))
              && occ == OccupiedAfter(env, fs, losers, x, occupied)
    ensures r.Ok? && Sane(env) ==>
              exists kept, losers ::
                InKeeperOrder(env, rows, kept, losers) && |losers| == |r.value|
                && Reports(env, fs, losers, r.value, renames)
    ensures r.Err? && !r.error.NoExtension? ==> occ == occupied
  {
    renames, occ := [], occupied;
    if |rows| < 2 { return Err(TooFewMembers), renames, occ; }
    var k := 0;
    while k < |rows|
      invariant 0 <= k <= |rows| && AllParse(env, rows[..k])
    {
      if env.parse(rows[k].raw).None? { return Err(Unparsed(rows[k].path)), renames, occ; }
      k := k + 1;
    }
    assert rows[..k] == rows;
    SortKeeps(rows, KeeperOrder(env));
    var members := StableSort(rows, KeeperOrder(env));
    var losers := members[1..];
    r, renames, occ := PlanLosers(env, fs, losers, x, occupied);
    if Sane(env) { SortRanks(env, rows); }
  }

  method PlanLosers(env: Env, fs: Files, losers: seq<Rec>, x: Text, occupied: Occupied)
    returns (r: Result<seq<Op>, RepairError>, renames: seq<Rename>, occ: Occupied)
    ensures var plan := Plan(env, fs, losers, x, occupied);
            r == if plan.Ok? then Ok(plan.value) else Err(NoExtension(plan.error))
    ensures occ == OccupiedAfter(env, fs, losers, x, occupied)
    ensures r.Ok? ==> |r.value| == |losers| && Reports(env, fs, losers, r.value, renames)
  {
    occ, renames := occupied, [];
    var ops: seq<Op> := [];
    var i := 0;
    ghost var rest := losers;
    ghost var (plan, goal) := (Plan(env, fs, losers, x, occupied), OccupiedAfter(env, fs, losers, x, occupied));
    assert PrependAll([], plan) == plan by { if plan.Ok? { assert [] + plan.value == plan.value; } }
    while i < |losers|
      invariant 0 <= i <= |losers| && |ops| == i && Reports(env, fs, losers, ops, renames)
      invariant rest == losers[i..]
      invariant plan == PrependAll(ops, Plan(env, fs, rest, x, occ))
      invariant OccupiedAfter(env, fs, rest, x, occ) == goal
    {
      assert rest[0] == losers[i];
      var next := PlanOne(env, fs, losers[i], x, occ);
      PlanStep(env, fs, rest, x, occ, next);
      if next.Err? { return Err(NoExtension(next.error)), renames, occ; }
      var (op, short, resumed) := next.value;
      occ := AfterFirst(occ, op, resumed);
      rest := rest[1..];
      PrependSnoc(ops, op, Plan(env, fs, rest, x, occ));
      ReportsSnoc(env, fs, losers, ops, renames, op, Rename(short, op.src, op.dst));
      ops, renames := ops + [op], renames + [Rename(short, op.src, op.dst)];
      i := i + 1;
    }
    assert ops + [] == ops;
    return Ok(ops), renames, occ;
  }

  type Move = Result<(Op, Text, bool), ExtendError>

  /** The move of one loser: resumed or minted, with the id it writes. */
  ghost predicate IsMove(env: Env, fs: Files, loser: Rec, x: Text, occ: Occupied, m: Move)
  {
    match ResumeOf(env, fs, loser, x, occ)
    case Some(s) => s in occ && m == Ok((Op(loser.path, occ[s], Render(env, loser.raw, s)), s, true))
    case None =>
      var e := Extension(x, occ.Keys);
      m == if e.Err? then Err(e.error) else Ok((Fresh(env, loser, e.value), e.value, false))
  }

  method PlanOne(env: Env, fs: Files, loser: Rec, x: Text, occ: Occupied) returns (m: Move)
    ensures IsMove(env, fs, loser, x, occ, m)
  {
    var resumed := ResumeExtension(env, fs, loser, x, occ);
    if resumed.Some? {
      assert IsResume(env, fs, loser, x, occ, resumed);
      return Ok((Op(loser.path, occ[resumed.value], Render(env, loser.raw, resumed.value)), resumed.value, true));
    }
    var minted := Extend(x, occ.Keys);
    if minted.Err? { return Err(minted.error); }
    return Ok((Fresh(env, loser, minted.value), minted.value, false));
  }

  lemma {:induction false} PlanStep(env: Env, fs: Files, losers: seq<Rec>, x: Text, occ: Occupied, m: Move)
    requires losers != [] && IsMove(env, fs, losers[0], x, occ, m)
    ensures m.Err? ==> Plan(env, fs, losers, x, occ) == Err(m.error) && OccupiedAfter(env, fs, losers, x, occ) == occ
    ensures m.Ok? ==>
              var next := AfterFirst(occ, m.value.0, m.value.2);
              && Plan(env, fs, losers, x, occ) == Prepend(m.value.0, Plan(env, fs, losers[1..], x, next))
              && OccupiedAfter(env, fs, losers, x, occ) == OccupiedAfter(env, fs, losers[1..], x, next)
              && ReportsOne(env, fs, losers[0], m.value.0, Rename(m.value.1, m.value.0.src, m.value.0.dst))
  {
  }

  // ------------------------------------------------- several collisions in one run

  /** The map a plan leaves keeps what it had and adds exactly the ids of the plan's destinations. */
  lemma {:induction false} PlanClaims(env: Env, fs: Files, losers: seq<Rec>, x: Text, occ: Occupied, ops: seq<Op>)
    requires NamesTaken(fs, occ) && Plan(env, fs, losers, x, occ) == Ok(ops)
    ensures var after := OccupiedAfter(env, fs, losers, x, occ);
            && (forall s :: s in occ ==> s in after && after[s] == occ[s])
            && (forall s :: s in after <==> s in occ || Goes(ops, s))
            && (forall s :: s in after && s !in occ ==> after[s].short == s)
    decreases |losers|
  {
    if losers != [] {
      var resumed := PlanHead(env, fs, losers, x, occ, ops);
      var next := AfterFirst(occ, ops[0], resumed);
      PlanClaims(env, fs, losers[1..], x, next, ops[1..]);
      assert ops == [ops[0]] + ops[1..];
      forall s ensures Goes(ops, s) <==> ops[0].dst.short == s || Goes(ops[1..], s) { GoesCons(ops, s); }
    }
  }

  /** Some op has a destination with this id. */
  ghost predicate Goes(ops: seq<Op>, s: Text)
  {
    exists i :: 0 <= i < |ops| && ops[i].dst.short == s
  }

  lemma GoesCons(ops: seq<Op>, s: Text)
    requires ops != []
    ensures Goes(ops, s) <==> ops[0].dst.short == s || Goes(ops[1..], s)
  {
    if i :| 0 <= i < |ops| && ops[i].dst.short == s {
      if i > 0 { assert ops[1..][i - 1].dst.short == s; }
    }
    if i :| 0 <= i < |ops| - 1 && ops[1..][i].dst.short == s { assert ops[i + 1].dst.short == s; }
  }

  /** Whatever a later collision of the same run mints, it is no id that an earlier one minted. */
  lemma LaterMintsDiffer(env: Env, fs: Files, losers: seq<Rec>, x: Text, occ: Occupied, ops: seq<Op>, i: nat,
                         later: Occupied, loser: Rec, y: Text, op: Op)
    requires NamesTaken(fs, occ) && Plan(env, fs, losers, x, occ) == Ok(ops) && i < |ops|
    requires OccupiedAfter(env, fs, losers, x, occ).Keys <= later.Keys && Mints(env, loser, y, later, op)
    ensures op.dst.short != ops[i].dst.short
  {
    PlanClaims(env, fs, losers, x, occ, ops);
  }
}
