/** The derived index as a cache of the ticket files of one scope: reconcile passes with
    modification-time dirty detection, write-throughs, and outside edits at any moment. */
module Cache {
  import opened Lex
  import opened Results

  type Path = Text

  datatype File = File(content: Text, mtime: int)
  datatype Stat = Stat(mtime: int, size: nat)
  datatype Row = Row(stat: Stat, data: Text)

  function StatOf(f: File): Stat
  {
    Stat(f.mtime, |f.content|)
  }

  /** What one listed file has come to in the parse phase. */
  datatype Parsed = Read(data: Text) | Vanished

  /** A reconcile pass. `at` is the clock when it began and becomes the watermark; `present` records what the write
      transaction finds when it looks at each path again. */
  datatype Pass =
    | Idle
    | Listing(at: int, names: set<Path>, listed: map<Path, Stat>)
    | Parsing(
        at: int, listed: map<Path, Stat>, existing: map<Path, Stat>, lastIndex: int,
        parsed: map<Path, Parsed>, present: map<Path, bool>)

  /** A write-through of one path, from its stat at `at` to its upsert, or from finding no file to its delete. */
  datatype Through =
    | NoThrough
    | Gone(path: Path)
    | Statted(path: Path, at: int, stat: Stat)
    | ReadIn(path: Path, at: int, stat: Stat, data: Text)

  datatype State = State(
    now: int, files: map<Path, File>, rows: map<Path, Row>, watermark: int, pass: Pass, through: Through)

  /** How a file's text becomes a row's columns, edges and tags; the path fixes scope, id and archive bit. */
  type Parser = (Path, Text) -> Text

  // --------------------------------------------------------------- the rules

  /** The skip rule: same stat as the stored row, and older than the watermark. */
  predicate Skippable(listed: Stat, existing: map<Path, Stat>, p: Path, lastIndex: int)
  {
    p in existing && existing[p] == listed && listed.mtime < lastIndex
  }

  /** The clobber guard: a stored row with a newer mtime stays. */
  function Upserted(rows: map<Path, Row>, p: Path, row: Row): map<Path, Row>
  {
    if p in rows && rows[p].stat.mtime > row.stat.mtime then rows else rows[p := row]
  }

  /** Upserts of different paths commute; of one path, unless they are stamped alike and the stored row is not newer,
      and then the later upsert wins. */
  lemma UpsertsCommute(rows: map<Path, Row>, p: Path, a: Row, q: Path, b: Row)
    ensures Upserted(Upserted(rows, p, a), q, b) == Upserted(Upserted(rows, q, b), p, a) <==>
       (p != q || a == b || a.stat.mtime != b.stat.mtime || (p in rows && rows[p].stat.mtime > a.stat.mtime))
  {
    var (ab, ba) := (Upserted(Upserted(rows, p, a), q, b), Upserted(Upserted(rows, q, b), p, a));
    if p != q {
      assert ab.Keys == ba.Keys && forall k :: k in ab ==> ab[k] == ba[k];
    } else if a.stat.mtime != b.stat.mtime && !(p in rows && rows[p].stat.mtime > a.stat.mtime) {
      assert ab[p] == ba[p];
    } else if a.stat.mtime == b.stat.mtime && !(p in rows && rows[p].stat.mtime > a.stat.mtime) {
      assert ab[p] == b && ba[p] == a;
    }
  }

  /** The write transaction: upsert what was parsed and still exists, drop what vanished. */
  function Committed(
    rows: map<Path, Row>, present: set<Path>, listed: map<Path, Stat>, existing: map<Path, Stat>,
    upserts: map<Path, Row>): map<Path, Row>
  {
    map p | p in rows.Keys + upserts.Keys && Kept(present, listed, existing, upserts, p) ::
      if p in upserts then Upserted(rows, p, upserts[p])[p] else rows[p]
  }

  predicate Kept(
    present: set<Path>, listed: map<Path, Stat>, existing: map<Path, Stat>, upserts: map<Path, Row>, p: Path)
  {
    p in present || (p !in upserts && (p in listed || p !in existing))
  }

  function Upserts(listed: map<Path, Stat>, parsed: map<Path, Parsed>): map<Path, Row>
  {
    map p | p in parsed && parsed[p].Read? && p in listed :: Row(listed[p], parsed[p].data)
  }

  // --------------------------------------------------------------- the steps

  /** Every listed file that the skip rule does not clear has been read, or was gone. */
  ghost predicate AllParsed(pass: Pass)
    requires pass.Parsing?
  {
    forall p :: p in pass.listed && !Skippable(pass.listed[p], pass.existing, p, pass.lastIndex) ==> p in pass.parsed
  }

  /** The paths the write transaction looks at again: what it is about to store, and indexed rows that were not
      listed. */
  function ToCheck(pass: Pass): set<Path>
    requires pass.Parsing?
  {
    Upserts(pass.listed, pass.parsed).Keys + (pass.existing.Keys - pass.listed.Keys)
  }

  function Present(present: map<Path, bool>): set<Path>
  {
    set p | p in present && present[p]
  }

  /** Besides edits and the steps of passes and write-throughs: either may be given up, on an error or with its
      process. */
  datatype Step =
    | Tick(to: int)
    | Edit(path: Path, content: Text)
    | Delete(path: Path)
    | BeginPass
    | StatOne(path: Path)
    | Snapshot
    | ParseOne(path: Path)
    | CheckOne(path: Path)
    | Commit
    | PassStops
    | ThroughStat(path: Path)
    | ThroughDelete
    | ThroughRead
    | ThroughUpsert
    | ThroughStops

  ghost predicate Enabled(s: State, step: Step)
  {
    match step
    case Tick(to) => s.now <= to
    case Edit(_, _) => true
    case Delete(_) => true
    case BeginPass => s.pass.Idle?
    case StatOne(p) => s.pass.Listing?
    case Snapshot => s.pass.Listing? && s.pass.names == {}
    case ParseOne(p) =>
      && s.pass.Parsing? && p in s.pass.listed && p !in s.pass.parsed
      && !Skippable(s.pass.listed[p], s.pass.existing, p, s.pass.lastIndex)
    case CheckOne(p) => s.pass.Parsing? && AllParsed(s.pass) && p in ToCheck(s.pass) && p !in s.pass.present
    case Commit => s.pass.Parsing? && AllParsed(s.pass) && ToCheck(s.pass) <= s.pass.present.Keys
    case PassStops => true
    case ThroughStat(p) => s.through.NoThrough?
    case ThroughDelete => s.through.Gone?
    case ThroughRead => s.through.Statted?
    case ThroughUpsert => s.through.ReadIn?
    case ThroughStops => true
  }

  function After(parse: Parser, s: State, step: Step): State
  {
    match step
    case Tick(to) => s.(now := to)
    case Edit(p, content) => s.(files := s.files[p := File(content, s.now)])
    case Delete(p) => s.(files := s.files - {p})
    case BeginPass => s.(pass := Listing(s.now, s.files.Keys, map[]))
    case StatOne(p) =>
      if !s.pass.Listing? then s
      else
        var listed := if p in s.files then s.pass.listed[p := StatOf(s.files[p])] else s.pass.listed;
        s.(pass := Listing(s.pass.at, s.pass.names - {p}, listed))
    case Snapshot =>
      if !s.pass.Listing? then s
      else
        var existing := map p | p in s.rows :: s.rows[p].stat;
        s.(pass := Parsing(s.pass.at, s.pass.listed, existing, s.watermark, map[], map[]))
    case ParseOne(p) =>
      if !s.pass.Parsing? then s
      else
        var result := if p in s.files then Read(parse(p, s.files[p].content)) else Vanished;
        s.(pass := s.pass.(parsed := s.pass.parsed[p := result]))
    case CheckOne(p) =>
      if !s.pass.Parsing? then s else s.(pass := s.pass.(present := s.pass.present[p := p in s.files]))
    case Commit =>
      if !s.pass.Parsing? then s
      else
        var upserts := Upserts(s.pass.listed, s.pass.parsed);
        s.(rows := Committed(s.rows, Present(s.pass.present), s.pass.listed, s.pass.existing, upserts),
           watermark := s.pass.at, pass := Idle)
    case PassStops => s.(pass := Idle)
    case ThroughStat(p) =>
      s.(through := if p in s.files then Statted(p, s.now, StatOf(s.files[p])) else Gone(p))
    case ThroughDelete =>
      if !s.through.Gone? then s else s.(rows := s.rows - {s.through.path}, through := NoThrough)
    case ThroughRead =>
      if !s.through.Statted? then s
      else if s.through.path in s.files then
        var data := parse(s.through.path, s.files[s.through.path].content);
        s.(through := ReadIn(s.through.path, s.through.at, s.through.stat, data))
      else s.(through := NoThrough)
    case ThroughUpsert =>
      if !s.through.ReadIn? then s
      else s.(rows := Upserted(s.rows, s.through.path, Row(s.through.stat, s.through.data)), through := NoThrough)
    case ThroughStops => s.(through := NoThrough)
  }

  /** No pass that began after the write-through looked at its file has been committed, or the file was stamped before
      the write-through looked. */
  ghost predicate InTime(s: State)
  {
    s.through.ReadIn? ==> s.watermark <= s.through.at || s.through.stat.mtime < s.through.at
  }

  // ----------------------------------------------------------- the invariant

  /** A file that a pass would skip. */
  predicate Settled(s: State, p: Path)
  {
    p in s.files && p in s.rows && StatOf(s.files[p]) == s.rows[p].stat && s.files[p].mtime < s.watermark
  }

  /** Cache soundness: a row that a pass would skip equals the parse of its file. */
  ghost predicate Sound(parse: Parser, s: State)
  {
    forall p :: Settled(s, p) ==> s.rows[p].data == parse(p, s.files[p].content)
  }

  /** No stamp is ahead of the clock, and a stored stamp is never ahead of its file's. */
  ghost predicate Stamped(s: State)
  {
    && 0 <= s.now && s.watermark <= s.now
    && (forall p :: p in s.files ==> s.files[p].mtime <= s.now)
    && (forall p :: p in s.rows ==> s.rows[p].stat.mtime <= s.now)
    && (forall p :: p in s.rows && p in s.files ==> s.rows[p].stat.mtime <= s.files[p].mtime)
  }

  /** A stat taken at or after `at` still describes the file when the file is older than `at`. */
  ghost predicate StillStat(s: State, at: int, p: Path, stat: Stat)
  {
    && stat.mtime <= s.now
    && (p in s.files ==> stat.mtime <= s.files[p].mtime)
    && (p in s.files && s.files[p].mtime < at ==> stat == StatOf(s.files[p]))
  }

  /** Text read at or after `at` is still the file's when the file is older than `at`. */
  ghost predicate StillRead(parse: Parser, s: State, at: int, p: Path, data: Text)
  {
    p in s.files && s.files[p].mtime < at ==> data == parse(p, s.files[p].content)
  }

  ghost predicate PassFits(parse: Parser, s: State)
  {
    match s.pass
    case Idle => true
    case Listing(at, names, listed) =>
      && at <= s.now
      && (forall p :: p in s.files && s.files[p].mtime < at ==> p in names || p in listed)
      && (forall p :: p in listed ==> StillStat(s, at, p, listed[p]))
    case Parsing(at, listed, existing, lastIndex, parsed, _) =>
      && at <= s.now && lastIndex == s.watermark
      && (forall p :: p in s.files && s.files[p].mtime < at ==> p in listed)
      && (forall p :: p in listed ==> StillStat(s, at, p, listed[p]))
      && (forall p :: p in parsed ==> p in listed)
      && (forall p :: p in parsed && parsed[p].Read? ==> StillRead(parse, s, at, p, parsed[p].data))
      && (forall p :: p in parsed && parsed[p].Vanished? ==> (p in s.files ==> at <= s.files[p].mtime))
  }

  ghost predicate ThroughFits(parse: Parser, s: State)
  {
    match s.through
    case NoThrough => true
    case Gone(_) => true
    case Statted(p, at, stat) => 0 <= at <= s.now && stat.mtime <= at && StillStat(s, at, p, stat)
    case ReadIn(p, at, stat, data) =>
      && 0 <= at <= s.now && stat.mtime <= at && StillStat(s, at, p, stat)
      && StillRead(parse, s, at, p, data) && WasRead(parse, p, data)
  }

  /** The data is the parse of some text. */
  ghost predicate WasRead(parse: Parser, p: Path, data: Text)
  {
    exists a :: data == parse(p, a)
  }

  ghost predicate Inv(parse: Parser, s: State)
  {
    Stamped(s) && Sound(parse, s) && PassFits(parse, s) && ThroughFits(parse, s)
  }

  lemma CommitKeeps(parse: Parser, s: State)
    requires Inv(parse, s) && Enabled(s, Commit)
    ensures Inv(parse, After(parse, s, Commit))
  {
    var t := After(parse, s, Commit);
    forall p | Settled(t, p) ensures t.rows[p].data == parse(p, t.files[p].content) {
      CommitSoundAt(parse, s, p);
    }
  }

  lemma CommitSoundAt(parse: Parser, s: State, p: Path)
    requires Inv(parse, s) && Enabled(s, Commit) && Settled(After(parse, s, Commit), p)
    ensures After(parse, s, Commit).rows[p].data == parse(p, s.files[p].content)
  {
    assert p in s.pass.listed && StillStat(s, s.pass.at, p, s.pass.listed[p]);
    if p in s.pass.parsed { assert s.pass.parsed[p].Read?; }
  }

  lemma TickKeeps(parse: Parser, s: State, to: int)
    requires Inv(parse, s) && s.now <= to
    ensures Inv(parse, s.(now := to))
  {
    StatsOutlive(s, s.(now := to));
  }

  /** An edit is stamped at or after every stat and read taken so far. */
  lemma EditKeeps(parse: Parser, s: State, step: Step)
    requires Inv(parse, s) && (step.Edit? || step.Delete?)
    ensures Inv(parse, After(parse, s, step))
  {
    StatsOutlive(s, After(parse, s, step));
  }

  /** A file is unchanged, gone, or written at a later clock. */
  ghost predicate Later(s: State, t: State, p: Path)
  {
    p in t.files ==> (p in s.files && t.files[p] == s.files[p]) || (s.now <= t.files[p].mtime)
  }

  lemma StatsOutlive(s: State, t: State)
    requires s.now <= t.now && forall p :: Later(s, t, p)
    ensures forall p, at, stat {:trigger StillStat(t, at, p, stat)} :: at <= s.now && StillStat(s, at, p, stat) ==>
              StillStat(t, at, p, stat)
  {
    forall p, at, stat | at <= s.now && StillStat(s, at, p, stat) ensures StillStat(t, at, p, stat) {
      assert Later(s, t, p);
    }
  }

  lemma BeginKeeps(parse: Parser, s: State)
    requires Inv(parse, s) && Enabled(s, BeginPass)
    ensures Inv(parse, After(parse, s, BeginPass))
  {
  }

  lemma StatKeeps(parse: Parser, s: State, p: Path)
    requires Inv(parse, s) && Enabled(s, StatOne(p))
    ensures Inv(parse, After(parse, s, StatOne(p)))
  {
  }

  lemma SnapshotKeeps(parse: Parser, s: State)
    requires Inv(parse, s) && Enabled(s, Snapshot)
    ensures Inv(parse, After(parse, s, Snapshot))
  {
  }

  lemma ParseKeeps(parse: Parser, s: State, p: Path)
    requires Inv(parse, s) && Enabled(s, ParseOne(p))
    ensures Inv(parse, After(parse, s, ParseOne(p)))
  {
  }

  lemma ThroughKeeps(parse: Parser, s: State, step: Step)
    requires Inv(parse, s) && Enabled(s, step) && (step.ThroughStat? || step.ThroughRead?)
    ensures Inv(parse, After(parse, s, step))
  {
  }

  lemma DeleteKeeps(parse: Parser, s: State)
    requires Inv(parse, s) && Enabled(s, ThroughDelete)
    ensures Inv(parse, After(parse, s, ThroughDelete))
  {
    var t := After(parse, s, ThroughDelete);
    assert forall p :: Settled(t, p) ==> Settled(s, p) && t.rows[p] == s.rows[p];
  }

  lemma CheckKeeps(parse: Parser, s: State, p: Path)
    requires Inv(parse, s) && Enabled(s, CheckOne(p))
    ensures Inv(parse, After(parse, s, CheckOne(p)))
  {
  }

  lemma UpsertKeeps(parse: Parser, s: State)
    requires Inv(parse, s) && Enabled(s, ThroughUpsert) && InTime(s)
    ensures Inv(parse, After(parse, s, ThroughUpsert))
  {
  }

  /** Every step keeps the invariant, a store provided that it is in time. */
  lemma StepKeeps(parse: Parser, s: State, step: Step)
    requires Inv(parse, s) && Enabled(s, step) && (step.ThroughUpsert? ==> InTime(s))
    ensures Inv(parse, After(parse, s, step))
  {
    match step
    case Tick(to) => TickKeeps(parse, s, to);
    case Edit(_, _) => EditKeeps(parse, s, step);
    case Delete(_) => EditKeeps(parse, s, step);
    case BeginPass => BeginKeeps(parse, s);
    case StatOne(p) => StatKeeps(parse, s, p);
    case Snapshot => SnapshotKeeps(parse, s);
    case ParseOne(p) => ParseKeeps(parse, s, p);
    case CheckOne(p) => CheckKeeps(parse, s, p);
    case Commit => CommitKeeps(parse, s);
    case ThroughStat(_) => ThroughKeeps(parse, s, step);
    case ThroughDelete => DeleteKeeps(parse, s);
    case ThroughRead => ThroughKeeps(parse, s, step);
    case ThroughUpsert => UpsertKeeps(parse, s);
    case PassStops =>
    case ThroughStops =>
  }

  // -------------------------------------------------------------- whole runs

  ghost predicate Runs(parse: Parser, s: State, steps: seq<Step>)
    decreases |steps|
  {
    steps == [] || (Enabled(s, steps[0]) && Runs(parse, After(parse, s, steps[0]), steps[1..]))
  }

  /** Every store of a write-through in the run is in time. */
  ghost predicate StoresInTime(parse: Parser, s: State, steps: seq<Step>)
    decreases |steps|
  {
    || steps == []
    || ((steps[0].ThroughUpsert? ==> InTime(s)) && StoresInTime(parse, After(parse, s, steps[0]), steps[1..]))
  }

  ghost function Final(parse: Parser, s: State, steps: seq<Step>): State
    decreases |steps|
  {
    if steps == [] then s else Final(parse, After(parse, s, steps[0]), steps[1..])
  }

  /** A new index over existing files. */
  ghost predicate Init(s: State)
  {
    && s.rows == map[] && s.watermark == 0 <= s.now && s.pass.Idle? && s.through.NoThrough?
    && forall p :: p in s.files ==> s.files[p].mtime <= s.now
  }

  lemma {:induction false} RunKeeps(parse: Parser, s: State, steps: seq<Step>)
    requires Inv(parse, s) && Runs(parse, s, steps) && StoresInTime(parse, s, steps)
    ensures Inv(parse, Final(parse, s, steps))
    decreases |steps|
  {
    if steps != [] {
      StepKeeps(parse, s, steps[0]);
      RunKeeps(parse, After(parse, s, steps[0]), steps[1..]);
    }
  }

  /** Cache soundness over every run of edits, passes and write-throughs whose stores are in time. */
  lemma CacheIsSound(parse: Parser, s: State, steps: seq<Step>)
    requires Init(s) && Runs(parse, s, steps) && StoresInTime(parse, s, steps)
    ensures Sound(parse, Final(parse, s, steps))
  {
    RunKeeps(parse, s, steps);
  }

  // ------------------------------------------------------------ what a write-through achieves

  /** A step of a pass, of the clock, or of someone who leaves the file `p` alone. */
  predicate Beside(step: Step, p: Path)
  {
    match step
    case Edit(q, _) => q != p
    case Delete(q) => q != p
    case ThroughStat(_) => false
    case ThroughDelete => false
    case ThroughRead => false
    case ThroughUpsert => false
    case ThroughStops => false
    case _ => true
  }

  ghost predicate AllBeside(steps: seq<Step>, p: Path)
  {
    forall i :: 0 <= i < |steps| ==> Beside(steps[i], p)
  }

  ghost predicate NoCommit(steps: seq<Step>)
  {
    forall i :: 0 <= i < |steps| ==> !steps[i].Commit?
  }

  function FileAt(files: map<Path, File>, p: Path): Option<File>
  {
    if p in files then Some(files[p]) else None
  }

  /** The write-through and its file are as they were, and unless a pass was committed all rows are. */
  ghost predicate Undisturbed(parse: Parser, s: State, u: State, p: Path, quiet: bool)
  {
    Inv(parse, u) && u.through == s.through && FileAt(u.files, p) == FileAt(s.files, p) && (quiet ==> u.rows == s.rows)
  }

  lemma BesideStep(parse: Parser, s: State, step: Step, p: Path)
    requires Inv(parse, s) && Enabled(s, step) && Beside(step, p)
    ensures Undisturbed(parse, s, After(parse, s, step), p, !step.Commit?)
  {
    StepKeeps(parse, s, step);
  }

  /** Steps beside it leave a write-through where it was, and what follows them follows on. */
  lemma {:induction false} BesideRun(
    parse: Parser, s: State, steps: seq<Step>, rest: seq<Step>, p: Path, all: seq<Step>) returns (u: State)
    requires Inv(parse, s) && AllBeside(steps, p) && all == steps + rest && Runs(parse, s, all)
    ensures Runs(parse, u, rest) && Final(parse, s, all) == Final(parse, u, rest)
    ensures Undisturbed(parse, s, u, p, NoCommit(steps))
    decreases |steps|
  {
    if steps == [] {
      assert all == rest;
      u := s;
    } else {
      assert all[0] == steps[0] && all[1..] == steps[1..] + rest;
      BesideStep(parse, s, steps[0], p);
      u := BesideRun(parse, After(parse, s, steps[0]), steps[1..], rest, p, all[1..]);
    }
  }

  /** The rows but for `p`. */
  ghost predicate OthersAsBefore(before: map<Path, Row>, after: map<Path, Row>, p: Path)
  {
    forall q :: q != p ==> At(after, q) == At(before, q)
  }

  /** Look, read and store, with what may happen in between. */
  function WriteThrough(p: Path, a: seq<Step>, b: seq<Step>): seq<Step>
  {
    [ThroughStat(p)] + (a + ([ThroughRead] + (b + [ThroughUpsert])))
  }

  lemma StoreIsRight(parse: Parser, s: State, p: Path, f: File)
    requires Inv(parse, s) && s.through.ReadIn?
    requires s.through == ReadIn(p, s.through.at, StatOf(f), parse(p, f.content))
    requires FileAt(s.files, p) == Some(f)
    ensures var t := After(parse, s, ThroughUpsert);
            && At(t.rows, p) == Some(Row(StatOf(f), parse(p, f.content))) && OthersAsBefore(s.rows, t.rows, p)
            && t.files == s.files && t.through == NoThrough
  {
  }

  lemma ReadIsRight(parse: Parser, s: State, p: Path, f: File)
    requires Inv(parse, s) && s.through.Statted? && s.through == Statted(p, s.through.at, StatOf(f))
    requires FileAt(s.files, p) == Some(f)
    ensures var t := After(parse, s, ThroughRead);
            && Inv(parse, t) && t.through == ReadIn(p, s.through.at, StatOf(f), parse(p, f.content))
            && t.files == s.files && t.rows == s.rows
  {
    StepKeeps(parse, s, ThroughRead);
  }

  lemma LookIsRight(parse: Parser, s: State, p: Path)
    requires Inv(parse, s) && s.through == NoThrough
    ensures var t := After(parse, s, ThroughStat(p));
            && Inv(parse, t) && t.files == s.files && t.rows == s.rows
            && t.through == if p in s.files then Statted(p, s.now, StatOf(s.files[p])) else Gone(p)
  {
    StepKeeps(parse, s, ThroughStat(p));
  }

  /** A write-through of a file stores the row of a full reparse, whatever passes, clocks and other edits do meanwhile;
      and unless a pass is committed meanwhile, it leaves every other row alone. */
  lemma WriteThroughStores(parse: Parser, s: State, p: Path, a: seq<Step>, b: seq<Step>)
    requires Inv(parse, s) && s.through == NoThrough && p in s.files
    requires AllBeside(a, p) && AllBeside(b, p) && Runs(parse, s, WriteThrough(p, a, b))
    ensures var t := Final(parse, s, WriteThrough(p, a, b));
            && FileAt(t.files, p) == FileAt(s.files, p) && At(t.rows, p) == At(Reparse(parse, t.files), p)
            && (NoCommit(a) && NoCommit(b) ==> OthersAsBefore(s.rows, t.rows, p))
  {
    var f := s.files[p];
    var stored := b + [ThroughUpsert];
    var read := a + ([ThroughRead] + stored);
    var steps := [ThroughStat(p)] + read;
    assert steps[0] == ThroughStat(p) && steps[1..] == read;
    LookIsRight(parse, s, p);
    var u := BesideRun(parse, After(parse, s, ThroughStat(p)), a, [ThroughRead] + stored, p, read);
    assert ([ThroughRead] + stored)[0] == ThroughRead && ([ThroughRead] + stored)[1..] == stored;
    ReadIsRight(parse, u, p, f);
    var v := BesideRun(parse, After(parse, u, ThroughRead), b, [ThroughUpsert], p, stored);
    assert [ThroughUpsert][0] == ThroughUpsert && [ThroughUpsert][1..] == [];
    StoreIsRight(parse, v, p, f);
  }

  /** A write-through of a path without a file leaves no row for it. */
  lemma WriteThroughDeletes(parse: Parser, s: State, p: Path, a: seq<Step>)
    requires Inv(parse, s) && s.through == NoThrough && p !in s.files
    requires AllBeside(a, p) && Runs(parse, s, [ThroughStat(p)] + (a + [ThroughDelete]))
    ensures var t := Final(parse, s, [ThroughStat(p)] + (a + [ThroughDelete]));
            && p !in t.files && p !in t.rows && (NoCommit(a) ==> OthersAsBefore(s.rows, t.rows, p))
  {
    var rest := a + [ThroughDelete];
    var steps := [ThroughStat(p)] + rest;
    assert steps[0] == ThroughStat(p) && steps[1..] == rest;
    LookIsRight(parse, s, p);
    var u := BesideRun(parse, After(parse, s, ThroughStat(p)), a, [ThroughDelete], p, rest);
    assert [ThroughDelete][0] == ThroughDelete && [ThroughDelete][1..] == [];
  }

  // ------------------------------------------------------------ a quiet pass

  predicate QuietStep(step: Step)
  {
    !step.Edit? && !step.Delete? && !step.BeginPass? && !step.Commit? && !step.PassStops?
  }

  /** Every file is listed as it is, or still to be listed. */
  ghost predicate ListsFiles(s: State)
  {
    && s.pass.Listing? && s.files.Keys == s.pass.names + s.pass.listed.Keys
    && forall p :: p in s.pass.listed ==> p in s.files && s.pass.listed[p] == StatOf(s.files[p])
  }

  /** A listed file that this pass skips. */
  predicate Skips(pass: Pass, p: Path)
  {
    pass.Parsing? && p in pass.listed && Skippable(pass.listed[p], pass.existing, p, pass.lastIndex)
  }

  /** A write-through of a file in `lost` looked at the file as it is. */
  ghost predicate LooksAtLost(s: State, lost: set<Path>)
  {
    (s.through.Statted? || s.through.ReadIn?) && s.through.path in lost && s.through.path in s.files ==>
      s.through.stat == StatOf(s.files[s.through.path])
  }

  /** What holds during a pass in which nothing is edited, and in which a pending delete may drop the rows of the files
      in `lost`. */
  ghost predicate Quiet(parse: Parser, s: State, lost: set<Path>)
  {
    LooksAtLost(s, lost) &&
    match s.pass
    case Idle => false
    case Listing(_, _, _) =>
      ListsFiles(s) && (s.through.Gone? && Settled(s, s.through.path) ==> s.through.path in lost)
    case Parsing(_, listed, _, _, parsed, present) =>
      && listed.Keys == s.files.Keys
      && (forall p :: p in listed ==> listed[p] == StatOf(s.files[p]))
      && (forall p :: Skips(s.pass, p) ==>
        (p in s.rows ==> s.rows[p].stat == listed[p]) && (p in s.rows || p in lost))
      && (forall p :: p in parsed ==> p in s.files && parsed[p] == Read(parse(p, s.files[p].content)))
      && (forall p :: p in present ==> (present[p] <==> p in s.files))
      && (s.through.Gone? && Skips(s.pass, s.through.path) ==> s.through.path in lost)
  }

  /** Every row, and every row that may still be stored in time, belongs to a file or is one the pass looks at again. */
  ghost predicate Covered(s: State)
  {
    match s.pass
    case Idle => false
    case Listing(_, _, _) =>
      s.through.ReadIn? && InTime(s) ==> s.through.path in s.files.Keys + s.rows.Keys
    case Parsing(_, _, existing, _, _, _) =>
      && s.rows.Keys <= existing.Keys + s.files.Keys
      && (s.through.ReadIn? && InTime(s) ==> s.through.path in existing.Keys + s.files.Keys)
  }

  lemma QuietListing(parse: Parser, s: State, p: Path, lost: set<Path>)
    requires Quiet(parse, s, lost) && Enabled(s, StatOne(p))
    ensures Quiet(parse, After(parse, s, StatOne(p)), lost)
  {
  }

  lemma QuietSnapshot(parse: Parser, s: State, lost: set<Path>)
    requires Quiet(parse, s, lost) && Enabled(s, Snapshot)
    ensures Quiet(parse, After(parse, s, Snapshot), lost)
  {
  }

  lemma QuietParsing(parse: Parser, s: State, step: Step, lost: set<Path>)
    requires Quiet(parse, s, lost) && Enabled(s, step) && (step.ParseOne? || step.CheckOne?)
    ensures Quiet(parse, After(parse, s, step), lost)
  {
  }

  lemma QuietThrough(parse: Parser, s: State, step: Step, lost: set<Path>)
    requires Inv(parse, s) && Quiet(parse, s, lost) && Enabled(s, step) && (step.ThroughStat? || step.ThroughRead?)
    ensures Quiet(parse, After(parse, s, step), lost)
  {
  }

  /** A delete during the pass drops no row that the skip rule relies on, but for those in `lost`. */
  lemma QuietDelete(parse: Parser, s: State, lost: set<Path>)
    requires Quiet(parse, s, lost) && Enabled(s, ThroughDelete)
    ensures Quiet(parse, After(parse, s, ThroughDelete), lost)
  {
  }

  /** A store during the pass replaces a row that the skip rule relies on only by one with the same stat. */
  lemma QuietStore(parse: Parser, s: State, lost: set<Path>)
    requires Inv(parse, s) && Quiet(parse, s, lost) && Enabled(s, ThroughUpsert) && InTime(s)
    ensures Quiet(parse, After(parse, s, ThroughUpsert), lost)
  {
  }

  lemma QuietKeeps(parse: Parser, s: State, step: Step, lost: set<Path>)
    requires Inv(parse, s) && Quiet(parse, s, lost) && Enabled(s, step) && QuietStep(step)
    requires step.ThroughUpsert? ==> InTime(s)
    ensures Quiet(parse, After(parse, s, step), lost) && After(parse, s, step).files == s.files
  {
    match step
    case Tick(_) =>
    case StatOne(p) => QuietListing(parse, s, p, lost);
    case Snapshot => QuietSnapshot(parse, s, lost);
    case ParseOne(_) => QuietParsing(parse, s, step, lost);
    case CheckOne(_) => QuietParsing(parse, s, step, lost);
    case ThroughStat(_) => QuietThrough(parse, s, step, lost);
    case ThroughDelete => QuietDelete(parse, s, lost);
    case ThroughRead => QuietThrough(parse, s, step, lost);
    case ThroughUpsert => QuietStore(parse, s, lost);
    case ThroughStops =>
  }

  /** The index a full reparse of the files would build. */
  function Reparse(parse: Parser, files: map<Path, File>): map<Path, Row>
  {
    map p | p in files :: Row(StatOf(files[p]), parse(p, files[p].content))
  }

  lemma QuietCommitAt(parse: Parser, s: State, p: Path, lost: set<Path>)
    requires Inv(parse, s) && Quiet(parse, s, lost) && Enabled(s, Commit) && p in s.files
    ensures var row := At(After(parse, s, Commit).rows, p);
            row == Some(Row(StatOf(s.files[p]), parse(p, s.files[p].content))) || (row == None && p in lost)
  {
    if p in s.pass.parsed {
      assert s.pass.parsed[p] == Read(parse(p, s.files[p].content));
    }
  }

  lemma CoveredKeeps(parse: Parser, s: State, step: Step)
    requires Covered(s) && Enabled(s, step) && QuietStep(step) && (step.ThroughUpsert? ==> InTime(s))
    ensures Covered(After(parse, s, step))
  {
  }

  lemma QuietCommitGone(parse: Parser, s: State, p: Path, lost: set<Path>)
    requires Quiet(parse, s, lost) && Covered(s) && Enabled(s, Commit) && p !in s.files
    ensures At(After(parse, s, Commit).rows, p) == None
  {
  }

  /** For every file, the rows hold what a full reparse would, or nothing where the row may be lost. */
  ghost predicate Fresh(parse: Parser, files: map<Path, File>, rows: map<Path, Row>, lost: set<Path>)
  {
    forall p :: p in files ==> At(rows, p) == At(Reparse(parse, files), p) || (p in lost && p !in rows)
  }

  lemma QuietCommit(parse: Parser, s: State, lost: set<Path>)
    requires Inv(parse, s) && Quiet(parse, s, lost) && Enabled(s, Commit)
    ensures Fresh(parse, s.files, After(parse, s, Commit).rows, lost)
    ensures Covered(s) && lost == {} ==> After(parse, s, Commit).rows == Reparse(parse, s.files)
  {
    var (rows, all) := (After(parse, s, Commit).rows, Reparse(parse, s.files));
    forall p | p in s.files ensures At(rows, p) == At(all, p) || (p in lost && p !in rows) {
      QuietCommitAt(parse, s, p, lost);
    }
    if Covered(s) && lost == {} {
      forall p ensures At(rows, p) == At(all, p) {
        if p !in s.files { QuietCommitGone(parse, s, p, lost); }
      }
      SameRows(rows, all);
    }
  }

  lemma {:induction false} QuietRun(parse: Parser, s: State, steps: seq<Step>, lost: set<Path>)
    requires Inv(parse, s) && Quiet(parse, s, lost) && Runs(parse, s, steps + [Commit])
    requires StoresInTime(parse, s, steps + [Commit])
    requires forall i :: 0 <= i < |steps| ==> QuietStep(steps[i])
    ensures var t := Final(parse, s, steps + [Commit]);
            && t.files == s.files && Fresh(parse, s.files, t.rows, lost)
            && (Covered(s) && lost == {} ==> t.rows == Reparse(parse, s.files))
    decreases |steps|
  {
    if steps == [] {
      assert (steps + [Commit])[0] == Commit && (steps + [Commit])[1..] == [];
      QuietCommit(parse, s, lost);
    } else {
      assert (steps + [Commit])[0] == steps[0] && (steps + [Commit])[1..] == steps[1..] + [Commit];
      QuietKeeps(parse, s, steps[0], lost);
      StepKeeps(parse, s, steps[0]);
      if Covered(s) { CoveredKeeps(parse, s, steps[0]); }
      QuietRun(parse, After(parse, s, steps[0]), steps[1..], lost);
    }
  }

  /** The states that runs reach whose stores are all in time. */
  ghost predicate Reached(parse: Parser, m: State)
  {
    exists s, history ::
      Init(s) && Runs(parse, s, history) && StoresInTime(parse, s, history) && m == Final(parse, s, history)
  }

  /** A whole pass in which no file is edited and every store is in time. */
  ghost predicate QuietPass(parse: Parser, m: State, during: seq<Step>)
  {
    && m.pass.Idle? && (forall i :: 0 <= i < |during| ==> QuietStep(during[i]))
    && Runs(parse, m, [BeginPass] + during + [Commit]) && StoresInTime(parse, m, [BeginPass] + during + [Commit])
  }

  ghost function AfterPass(parse: Parser, m: State, during: seq<Step>): State
  {
    Final(parse, m, [BeginPass] + during + [Commit])
  }

  /** A write-through may still store, in time, the row of a file that is gone and has no row. */
  ghost predicate Strands(m: State)
  {
    m.through.ReadIn? && InTime(m) && m.through.path !in m.files && m.through.path !in m.rows
  }

  /** A write-through that once found no file is about to delete the row of a file that is there again, and that a pass
      would skip. */
  ghost predicate Drops(m: State)
  {
    m.through.Gone? && Settled(m, m.through.path)
  }

  /** The files whose rows a quiet pass may lose. */
  ghost function LostFrom(m: State): set<Path>
  {
    if Drops(m) then {m.through.path} else {}
  }

  lemma QuietPassFrom(parse: Parser, m: State, during: seq<Step>)
    requires Reached(parse, m) && QuietPass(parse, m, during)
    ensures var t := AfterPass(parse, m, during);
            && t.files == m.files && Fresh(parse, m.files, t.rows, LostFrom(m))
            && (!Strands(m) && !Drops(m) ==> t.rows == Reparse(parse, m.files))
  {
    var s, history :|
      Init(s) && Runs(parse, s, history) && StoresInTime(parse, s, history) && m == Final(parse, s, history);
    RunKeeps(parse, s, history);
    var steps := [BeginPass] + during + [Commit];
    assert steps[0] == BeginPass && steps[1..] == during + [Commit];
    BeginKeeps(parse, m);
    QuietRun(parse, After(parse, m, BeginPass), during, LostFrom(m));
  }

  /** After any history, a pass during which no file is edited leaves, for every file, the row of a full reparse, except
      that for the file of a pending delete it may leave none. */
  lemma QuietPassEqualsReparse(parse: Parser, m: State, during: seq<Step>)
    requires Reached(parse, m) && QuietPass(parse, m, during)
    ensures AfterPass(parse, m, during).files == m.files
    ensures forall p :: p in m.files ==>
              || At(AfterPass(parse, m, during).rows, p) == At(Reparse(parse, m.files), p)
              || (p !in AfterPass(parse, m, during).rows && Drops(m) && p == m.through.path)
  {
    QuietPassFrom(parse, m, during);
  }

  // ------------------------------------------------------ quiet passes that end otherwise

  /** Quiet steps and a commit, from within a pass, that end with a row for `p`, or with none. */
  ghost predicate EndsWith(parse: Parser, s: State, p: Path, has: bool, steps: seq<Step>)
  {
    && (forall i :: 0 <= i < |steps| ==> QuietStep(steps[i]))
    && Runs(parse, s, steps + [Commit]) && StoresInTime(parse, s, steps + [Commit])
    && (p in Final(parse, s, steps + [Commit]).rows <==> has)
  }

  lemma EndsWithBefore(parse: Parser, s: State, p: Path, has: bool, step: Step, next: State, rest: seq<Step>)
    requires Enabled(s, step) && (step.ThroughUpsert? ==> InTime(s)) && QuietStep(step)
    requires next == After(parse, s, step) && EndsWith(parse, next, p, has, rest)
    ensures EndsWith(parse, s, p, has, [step] + rest)
  {
    var steps := [step] + rest + [Commit];
    assert steps[0] == step && steps[1..] == rest + [Commit];
  }

  /** The row of `p` was stored after the pass looked at the index, and no file of that name was listed; or it was
      deleted after the pass looked, and the file is skipped. */
  ghost predicate Overlooked(s: State, p: Path, has: bool)
  {
    && s.pass.Parsing? && s.pass.parsed.Keys <= s.pass.listed.Keys && p !in s.pass.parsed && (p in s.rows <==> has)
    && if has then p !in s.pass.listed && p !in s.pass.existing else Skips(s.pass, p)
  }

  lemma CommitOverlooks(parse: Parser, s: State, p: Path, has: bool, steps: seq<Step>)
    requires Overlooked(s, p, has) && Enabled(s, Commit) && steps == []
    ensures EndsWith(parse, s, p, has, steps)
  {
    assert steps + [Commit] == [Commit] && [Commit][1..] == [];
    assert p !in Upserts(s.pass.listed, s.pass.parsed);
  }

  function Unchecked(pass: Pass): set<Path>
    requires pass.Parsing?
  {
    ToCheck(pass) - pass.present.Keys
  }

  lemma CheckNext(parse: Parser, s: State, p: Path, has: bool, q: Path, next: State)
    requires Overlooked(s, p, has) && AllParsed(s.pass) && q in Unchecked(s.pass)
    requires next == After(parse, s, CheckOne(q))
    ensures Enabled(s, CheckOne(q)) && Overlooked(next, p, has) && AllParsed(next.pass)
    ensures Unchecked(next.pass) == Unchecked(s.pass) - {q}
  {
    assert next.pass.present.Keys == s.pass.present.Keys + {q};
  }

  lemma {:induction false} CheckAll(parse: Parser, s: State, p: Path, has: bool) returns (steps: seq<Step>)
    requires Overlooked(s, p, has) && AllParsed(s.pass)
    ensures EndsWith(parse, s, p, has, steps)
    decreases |Unchecked(s.pass)|
  {
    if q :| q in Unchecked(s.pass) {
      var next := After(parse, s, CheckOne(q));
      CheckNext(parse, s, p, has, q, next);
      var rest := CheckAll(parse, next, p, has);
      EndsWithBefore(parse, s, p, has, CheckOne(q), next, rest);
      steps := [CheckOne(q)] + rest;
    } else {
      steps := [];
      assert forall q :: q in ToCheck(s.pass) ==> q in s.pass.present.Keys || q in Unchecked(s.pass);
      CommitOverlooks(parse, s, p, has, steps);
    }
  }

  /** The listed files still to be read. */
  function Unread(pass: Pass): set<Path>
    requires pass.Parsing?
  {
    set p | p in pass.listed && p !in pass.parsed && !Skippable(pass.listed[p], pass.existing, p, pass.lastIndex)
  }

  lemma ParseNext(parse: Parser, s: State, p: Path, has: bool, q: Path, next: State)
    requires Overlooked(s, p, has) && q in Unread(s.pass) && next == After(parse, s, ParseOne(q))
    ensures Enabled(s, ParseOne(q)) && Overlooked(next, p, has) && Unread(next.pass) == Unread(s.pass) - {q}
  {
    assert next.pass.parsed.Keys == s.pass.parsed.Keys + {q};
  }

  lemma {:induction false} ParseAll(parse: Parser, s: State, p: Path, has: bool) returns (steps: seq<Step>)
    requires Overlooked(s, p, has)
    ensures EndsWith(parse, s, p, has, steps)
    decreases |Unread(s.pass)|
  {
    if q :| q in Unread(s.pass) {
      var next := After(parse, s, ParseOne(q));
      ParseNext(parse, s, p, has, q, next);
      var rest := ParseAll(parse, next, p, has);
      EndsWithBefore(parse, s, p, has, ParseOne(q), next, rest);
      steps := [ParseOne(q)] + rest;
    } else {
      assert AllParsed(s.pass) by {
        assert forall q :: q in s.pass.listed && q !in s.pass.parsed ==>
            q in Unread(s.pass) || Skippable(s.pass.listed[q], s.pass.existing, q, s.pass.lastIndex);
      }
      steps := CheckAll(parse, s, p, has);
    }
  }

  /** A write-through is about to leave a row without a file, or a file without a row. */
  ghost predicate Strays(s: State, has: bool)
  {
    if has then Strands(s) else Drops(s)
  }

  /** The step with which it does. */
  function LastStep(has: bool): Step
  {
    if has then ThroughUpsert else ThroughDelete
  }

  lemma StraysAfterSnapshot(parse: Parser, s: State, has: bool, looked: State, strayed: State)
    requires ListsFiles(s) && s.pass.names == {} && Strays(s, has)
    requires looked == After(parse, s, Snapshot) && strayed == After(parse, looked, LastStep(has))
    ensures Enabled(s, Snapshot) && Enabled(looked, LastStep(has)) && InTime(looked)
    ensures Overlooked(strayed, s.through.path, has)
  {
  }

  /** The row is stored, or deleted, right after the pass has looked at the index. */
  lemma StrayAfterSnapshot(parse: Parser, s: State, has: bool) returns (steps: seq<Step>)
    requires ListsFiles(s) && s.pass.names == {} && Strays(s, has)
    ensures EndsWith(parse, s, s.through.path, has, steps)
  {
    var (p, step) := (s.through.path, LastStep(has));
    var looked := After(parse, s, Snapshot);
    var strayed := After(parse, looked, step);
    StraysAfterSnapshot(parse, s, has, looked, strayed);
    var rest := ParseAll(parse, strayed, p, has);
    EndsWithBefore(parse, looked, p, has, step, strayed, rest);
    EndsWithBefore(parse, s, p, has, Snapshot, looked, [step] + rest);
    steps := [Snapshot] + ([step] + rest);
  }

  lemma ListNext(parse: Parser, s: State, has: bool, q: Path, next: State)
    requires ListsFiles(s) && Strays(s, has) && q in s.pass.names && next == After(parse, s, StatOne(q))
    ensures ListsFiles(next) && Strays(next, has) && next.through == s.through && next.pass.names == s.pass.names - {q}
  {
  }

  lemma {:induction false} ListAll(parse: Parser, s: State, has: bool) returns (steps: seq<Step>)
    requires ListsFiles(s) && Strays(s, has)
    ensures EndsWith(parse, s, s.through.path, has, steps)
    decreases |s.pass.names|
  {
    if q :| q in s.pass.names {
      var next := After(parse, s, StatOne(q));
      ListNext(parse, s, has, q, next);
      var rest := ListAll(parse, next, has);
      EndsWithBefore(parse, s, s.through.path, has, StatOne(q), next, rest);
      steps := [StatOne(q)] + rest;
    } else {
      steps := StrayAfterSnapshot(parse, s, has);
    }
  }

  lemma StrayPass(parse: Parser, m: State, has: bool) returns (during: seq<Step>)
    requires m.pass.Idle? && Strays(m, has)
    ensures QuietPass(parse, m, during) && (m.through.path in AfterPass(parse, m, during).rows <==> has)
  {
    during := ListAll(parse, After(parse, m, BeginPass), has);
    var steps := [BeginPass] + during + [Commit];
    assert steps[0] == BeginPass && steps[1..] == during + [Commit];
  }

  /** The exact condition for the files. Every quiet pass from `m` leaves, for every file, the row of a full reparse if
      and only if no pending delete is of a file that is there again and that a pass would skip. */
  lemma FreshExactly(parse: Parser, m: State)
    requires Reached(parse, m) && m.pass.Idle?
    ensures (forall during :: QuietPass(parse, m, during) ==>
                Fresh(parse, m.files, AfterPass(parse, m, during).rows, {})) <==> !Drops(m)
  {
    if Drops(m) {
      var during := StrayPass(parse, m, false);
      assert m.through.path in m.files;
    } else {
      forall during | QuietPass(parse, m, during) ensures Fresh(parse, m.files, AfterPass(parse, m, during).rows, {}) {
        QuietPassFrom(parse, m, during);
      }
    }
  }

  /** The exact condition for the whole index. Every quiet pass from `m` ends in exactly the rows of a full reparse if
      and only if there is no such delete, and no write-through may still store, in time, the row of a file that is gone
      and has no row. */
  lemma ReparseExactly(parse: Parser, m: State)
    requires Reached(parse, m) && m.pass.Idle?
    ensures (forall during :: QuietPass(parse, m, during) ==>
                AfterPass(parse, m, during).rows == Reparse(parse, m.files)) <==> !Strands(m) && !Drops(m)
  {
    if Strands(m) || Drops(m) {
      var during := StrayPass(parse, m, Strands(m));
      assert m.through.path in Reparse(parse, m.files) <==> m.through.path in m.files;
    } else {
      forall during | QuietPass(parse, m, during)
        ensures AfterPass(parse, m, during).rows == Reparse(parse, m.files)
      {
        QuietPassFrom(parse, m, during);
      }
    }
  }

  // ------------------------------------------------------ runs, state by state

  /** The states a run passes through. */
  ghost predicate Passes(parse: Parser, states: seq<State>, steps: seq<Step>)
  {
    && |states| == |steps| + 1
    && forall i :: 0 <= i < |steps| ==> StepsTo(parse, states[i], steps[i], states[i + 1])
  }

  ghost predicate StepsTo(parse: Parser, s: State, step: Step, t: State)
  {
    Enabled(s, step) && (step.ThroughUpsert? ==> InTime(s)) && t == After(parse, s, step)
  }

  lemma {:induction false} RunBy(parse: Parser, states: seq<State>, steps: seq<Step>)
    requires Passes(parse, states, steps)
    ensures Runs(parse, states[0], steps) && StoresInTime(parse, states[0], steps)
    ensures Final(parse, states[0], steps) == states[|steps|]
    decreases |steps|
  {
    if steps != [] {
      assert StepsTo(parse, states[0], steps[0], states[0 + 1]);
      assert Passes(parse, states[1..], steps[1..]) by {
        forall i | 0 <= i < |steps| - 1 ensures StepsTo(parse, states[1..][i], steps[1..][i], states[1..][i + 1]) {
          assert StepsTo(parse, states[i + 1], steps[i + 1], states[i + 1 + 1]);
        }
      }
      RunBy(parse, states[1..], steps[1..]);
    }
  }

  lemma JoinRuns(parse: Parser, a: seq<State>, x: seq<Step>, b: seq<State>, y: seq<Step>)
    requires Passes(parse, a, x) && Passes(parse, b, y) && a[|x|] == b[0]
    ensures Passes(parse, a + b[1..], x + y)
  {
    var (states, steps) := (a + b[1..], x + y);
    forall i | 0 <= i < |steps| ensures StepsTo(parse, states[i], steps[i], states[i + 1]) {
      if i < |x| {
        assert StepsTo(parse, a[i], x[i], a[i + 1]);
      } else {
        assert StepsTo(parse, b[i - |x|], y[i - |x|], b[i - |x| + 1]);
      }
    }
  }

  // ------------------------------------------------------ when a late store is wrong

  /** A run, all of whose stores are in time, ends with a write-through about to store, and storing it would break the
      cache. */
  ghost predicate Breaks(parse: Parser, s: State, steps: seq<Step>, p: Path, at: int, stat: Stat, mark: int)
  {
    && Init(s) && Runs(parse, s, steps) && StoresInTime(parse, s, steps)
    && var t := Final(parse, s, steps);
    && t.through.ReadIn? && t.through.path == p && t.through.at == at && t.through.stat == stat && t.watermark == mark
    && !Sound(parse, After(parse, t, ThroughUpsert))
  }

  /** Text `a` of any length and text `b` of this size are different tickets. */
  ghost predicate Differ(parse: Parser, p: Path, size: nat, a: Text, b: Text)
  {
    |b| == size && parse(p, a) != parse(p, b)
  }

  lemma BrokenMeansLate(parse: Parser, s: State, steps: seq<Step>, p: Path, at: int, stat: Stat, mark: int)
    requires Breaks(parse, s, steps, p, at, stat, mark)
    ensures 0 <= at == stat.mtime < mark && exists a, b :: Differ(parse, p, stat.size, a, b)
  {
    RunKeeps(parse, s, steps);
    var t := Final(parse, s, steps);
    var u := After(parse, t, ThroughUpsert);
    var q :| Settled(u, q) && u.rows[q].data != parse(q, u.files[q].content);
    assert q == p && u.rows[p] == Row(stat, t.through.data);
    var a :| t.through.data == parse(p, a);
    assert Differ(parse, p, stat.size, a, t.files[p].content);
  }

  /** The file is looked at as `b`, read as `a` and put back to `b`, all in one tick of the clock. */
  ghost function LookedAndRead(parse: Parser, p: Path, at: int, a: Text, b: Text, mark: int): seq<State>
  {
    var s := State(at, map[p := File(b, at)], map[], 0, Idle, NoThrough);
    var looked := s.(through := Statted(p, at, Stat(at, |b|)));
    var read := s.(through := ReadIn(p, at, Stat(at, |b|), parse(p, a)));
    var edited := map[p := File(a, at)];
    [s, looked, looked.(files := edited), read.(files := edited), read, read.(now := mark)]
  }

  lemma LookedAndReadPasses(parse: Parser, p: Path, at: int, a: Text, b: Text, mark: int)
    requires at <= mark
    ensures Passes(parse, LookedAndRead(parse, p, at, a, b, mark),
              [ThroughStat(p), Edit(p, a), ThroughRead, Edit(p, b), Tick(mark)])
  {
    var states := LookedAndRead(parse, p, at, a, b, mark);
    var edited := map[p := File(a, at)];
    assert map[p := File(b, at)][p := File(a, at)] == edited && edited[p := File(b, at)] == map[p := File(b, at)];
    assert StepsTo(parse, states[0], ThroughStat(p), states[1]);
    assert StepsTo(parse, states[1], Edit(p, a), states[2]);
    assert StepsTo(parse, states[2], ThroughRead, states[3]);
    assert StepsTo(parse, states[3], Edit(p, b), states[4]);
    assert StepsTo(parse, states[4], Tick(mark), states[5]);
  }

  /** A whole pass over a single file that is not indexed yet. */
  ghost function PassStates(parse: Parser, s: State, p: Path, f: File): seq<State>
  {
    var listed := map[p := StatOf(f)];
    var parsed := map[p := Read(parse(p, f.content))];
    [s,
     s.(pass := Listing(s.now, {p}, map[])),
     s.(pass := Listing(s.now, {}, listed)),
     s.(pass := Parsing(s.now, listed, map[], s.watermark, map[], map[])),
     s.(pass := Parsing(s.now, listed, map[], s.watermark, parsed, map[])),
     s.(pass := Parsing(s.now, listed, map[], s.watermark, parsed, map[p := true])),
     s.(rows := map[p := Row(StatOf(f), parse(p, f.content))], watermark := s.now)]
  }

  lemma ListOneFile(parse: Parser, s: State, p: Path, f: File)
    requires s.pass.Idle? && s.files == map[p := f] && s.rows == map[]
    ensures var states := PassStates(parse, s, p, f);
            && StepsTo(parse, states[0], BeginPass, states[1])
            && StepsTo(parse, states[1], StatOne(p), states[2])
            && StepsTo(parse, states[2], Snapshot, states[3])
  {
    assert s.files.Keys == {p};
    assert {p} - {p} == {};
    assert s.rows.Keys == {};
  }

  lemma CommitOneFile(parse: Parser, s: State, p: Path, f: File)
    requires s.pass.Idle? && s.files == map[p := f] && s.rows == map[]
    ensures var states := PassStates(parse, s, p, f);
            && StepsTo(parse, states[3], ParseOne(p), states[4])
            && StepsTo(parse, states[4], CheckOne(p), states[5])
            && StepsTo(parse, states[5], Commit, states[6])
  {
    var (listed, parsed) := (map[p := StatOf(f)], map[p := Read(parse(p, f.content))]);
    var row := Row(StatOf(f), parse(p, f.content));
    assert Upserts(listed, parsed) == map[p := row];
    assert Present(map[p := true]) == {p};
    assert Committed(s.rows, {p}, listed, map[], map[p := row]) == map[p := row];
  }

  lemma PassOverOneFile(parse: Parser, s: State, p: Path, f: File)
    requires s.pass.Idle? && s.files == map[p := f] && s.rows == map[]
    ensures Passes(parse, PassStates(parse, s, p, f),
              [BeginPass, StatOne(p), Snapshot, ParseOne(p), CheckOne(p), Commit])
  {
    ListOneFile(parse, s, p, f);
    CommitOneFile(parse, s, p, f);
  }

  lemma LateMeansBroken(parse: Parser, p: Path, at: int, stat: Stat, mark: int, a: Text, b: Text)
    requires 0 <= at == stat.mtime < mark && Differ(parse, p, stat.size, a, b)
    ensures exists s, steps :: Breaks(parse, s, steps, p, at, stat, mark)
  {
    var first := LookedAndRead(parse, p, at, a, b, mark);
    var x := [ThroughStat(p), Edit(p, a), ThroughRead, Edit(p, b), Tick(mark)];
    var y := [BeginPass, StatOne(p), Snapshot, ParseOne(p), CheckOne(p), Commit];
    var f := File(b, at);
    LookedAndReadPasses(parse, p, at, a, b, mark);
    PassOverOneFile(parse, first[5], p, f);
    var second := PassStates(parse, first[5], p, f);
    JoinRuns(parse, first, x, second, y);
    RunBy(parse, first + second[1..], x + y);
    var t := second[6];
    assert (first + second[1..])[|x + y|] == t;
    var u := After(parse, t, ThroughUpsert);
    assert u.rows == map[p := Row(stat, parse(p, a))];
    assert Settled(u, p);
    assert Breaks(parse, first[0], x + y, p, at, stat, mark);
  }

  /** The exact condition on a store. Some run reaches a state in which storing a write-through with this path, look,
      stamp and size, under this watermark, breaks the cache exactly when the file was stamped in the very tick it was
      looked at, a pass that began later has been committed, and not every text parses as those of that size do. */
  lemma StoreBreaksExactly(parse: Parser, p: Path, at: int, stat: Stat, mark: int)
    ensures (exists s, steps :: Breaks(parse, s, steps, p, at, stat, mark)) <==>
       (0 <= at == stat.mtime < mark && exists a, b :: Differ(parse, p, stat.size, a, b))
  {
    if s, steps :| Breaks(parse, s, steps, p, at, stat, mark) {
      BrokenMeansLate(parse, s, steps, p, at, stat, mark);
    }
    if 0 <= at == stat.mtime < mark && exists a, b :: Differ(parse, p, stat.size, a, b) {
      var a, b :| Differ(parse, p, stat.size, a, b);
      LateMeansBroken(parse, p, at, stat, mark, a, b);
    }
  }

  /** A file is looked at and read by a write-through, and then deleted. */
  ghost function ReadAndDeleted(parse: Parser, p: Path, text: Text, others: map<Path, File>): seq<State>
  {
    var s := State(0, others[p := File(text, 0)], map[], 0, Idle, NoThrough);
    var read := ReadIn(p, 0, Stat(0, |text|), parse(p, text));
    [s, s.(through := Statted(p, 0, Stat(0, |text|))), s.(through := read), State(0, others, map[], 0, Idle, read)]
  }

  lemma ReadAndDeletedPasses(parse: Parser, p: Path, text: Text, others: map<Path, File>)
    requires p !in others
    ensures Passes(parse, ReadAndDeleted(parse, p, text, others), [ThroughStat(p), ThroughRead, Delete(p)])
  {
    var states := ReadAndDeleted(parse, p, text, others);
    assert others[p := File(text, 0)] - {p} == others;
    assert StepsTo(parse, states[0], ThroughStat(p), states[1]);
    assert StepsTo(parse, states[1], ThroughRead, states[2]);
    assert StepsTo(parse, states[2], Delete(p), states[3]);
  }

  /** A row that outlives its file. Whatever the other files are, a write-through reads a file, the file is deleted, and
      some quiet pass leaves a row for it. */
  lemma DeletedFileKeepsRow(parse: Parser, p: Path, text: Text, others: map<Path, File>)
    returns (m: State, during: seq<Step>)
    requires p !in others && forall q :: q in others ==> others[q].mtime <= 0
    ensures Reached(parse, m) && m.files == others && QuietPass(parse, m, during)
    ensures p in AfterPass(parse, m, during).rows && p !in AfterPass(parse, m, during).files
  {
    var (states, history) := (ReadAndDeleted(parse, p, text, others), [ThroughStat(p), ThroughRead, Delete(p)]);
    ReadAndDeletedPasses(parse, p, text, others);
    RunBy(parse, states, history);
    m := states[3];
    assert Init(states[0]) && Reached(parse, m);
    during := StrayPass(parse, m, true);
    QuietPassEqualsReparse(parse, m, during);
  }

  /** A write-through finds no file, and the file is written before it deletes the row. */
  ghost function FoundNone(parse: Parser, p: Path, text: Text): seq<State>
  {
    var s := State(0, map[], map[], 0, Idle, NoThrough);
    var written := State(0, map[p := File(text, 0)], map[], 0, Idle, Gone(p));
    [s, s.(through := Gone(p)), written, written.(now := 1)]
  }

  lemma FoundNonePasses(parse: Parser, p: Path, text: Text)
    ensures Passes(parse, FoundNone(parse, p, text), [ThroughStat(p), Edit(p, text), Tick(1)])
  {
    var states := FoundNone(parse, p, text);
    assert StepsTo(parse, states[0], ThroughStat(p), states[1]);
    assert StepsTo(parse, states[1], Edit(p, text), states[2]);
    assert StepsTo(parse, states[2], Tick(1), states[3]);
  }

  /** A file that loses its row. A write-through finds no file, the file is written and indexed by a pass, and some
      quiet pass after that ends without its row. */
  lemma RewrittenFileLosesRow(parse: Parser, p: Path, text: Text) returns (m: State, during: seq<Step>)
    ensures Reached(parse, m) && QuietPass(parse, m, during)
    ensures p in AfterPass(parse, m, during).files && p !in AfterPass(parse, m, during).rows
  {
    var (first, x) := (FoundNone(parse, p, text), [ThroughStat(p), Edit(p, text), Tick(1)]);
    var y := [BeginPass, StatOne(p), Snapshot, ParseOne(p), CheckOne(p), Commit];
    var f := File(text, 0);
    FoundNonePasses(parse, p, text);
    PassOverOneFile(parse, first[3], p, f);
    var second := PassStates(parse, first[3], p, f);
    JoinRuns(parse, first, x, second, y);
    RunBy(parse, first + second[1..], x + y);
    m := second[6];
    assert (first + second[1..])[|x + y|] == m && Init(first[0]);
    during := StrayPass(parse, m, false);
    QuietPassEqualsReparse(parse, m, during);
  }

  // ------------------------------------------------------ the tables, as loops

  /** The index tables of one scope: the ticket rows keyed by path, and the watermark. */
  class Index {
    var rows: map<Path, Row>
    var watermark: int

    constructor ()
      ensures rows == map[] && watermark == 0
    {
      rows, watermark := map[], 0;
    }

    method UpsertTicketWithEdges(p: Path, row: Row)
      modifies this`rows
      ensures rows == Upserted(old(rows), p, row)
    {
      if p in rows && rows[p].stat.mtime > row.stat.mtime { return; }
      rows := rows[p := row];
    }

    method DeleteByPath(p: Path)
      modifies this`rows
      ensures rows == old(rows) - {p}
    {
      rows := rows - {p};
    }

    /** Upserts what was parsed, or deletes it when it has vanished since. */
    method ApplyUpserts(present: set<Path>, upserts: map<Path, Row>)
      modifies this`rows
      ensures forall p :: At(rows, p) == AfterUpsert(old(rows), present, upserts, p)
    {
      var todo := upserts.Keys;
      while todo != {}
        invariant todo <= upserts.Keys
        invariant forall p :: p in todo ==> At(rows, p) == At(old(rows), p)
        invariant forall p :: p !in todo ==> At(rows, p) == AfterUpsert(old(rows), present, upserts, p)
        decreases |todo|
      {
        var p :| p in todo;
        assert At(rows, p) == At(old(rows), p);
        if p in present {
          UpsertTicketWithEdges(p, upserts[p]);
        } else {
          DeleteByPath(p);
        }
        todo := todo - {p};
      }
    }

    /** Deletes rows whose files were not listed and do not exist. */
    method DropVanished(present: set<Path>, listed: map<Path, Stat>, existing: map<Path, Stat>)
      modifies this`rows
      ensures forall p :: At(rows, p) ==
                if p in existing && p !in listed && p !in present then None else At(old(rows), p)
    {
      var todo := existing.Keys;
      while todo != {}
        invariant todo <= existing.Keys
        invariant forall p :: At(rows, p) ==
                    if p in existing && p !in todo && p !in listed && p !in present then None else At(old(rows), p)
        decreases |todo|
      {
        var p :| p in todo;
        if p !in listed && p !in present { DeleteByPath(p); }
        todo := todo - {p};
      }
    }

    /** One scope's write transaction: the order in which paths are visited does not matter. */
    method ApplyScopeWrite(
      at: int, present: set<Path>, listed: map<Path, Stat>, existing: map<Path, Stat>, upserts: map<Path, Row>)
      modifies this
      ensures rows == Committed(old(rows), present, listed, existing, upserts)
      ensures watermark == at
    {
      ApplyUpserts(present, upserts);
      ghost var mid := rows;
      DropVanished(present, listed, existing);
      CommittedAt(old(rows), mid, rows, present, listed, existing, upserts);
      watermark := at;
    }
  }

  lemma CommittedAt(
    before: map<Path, Row>, mid: map<Path, Row>, rows: map<Path, Row>, present: set<Path>, listed: map<Path, Stat>,
    existing: map<Path, Stat>, upserts: map<Path, Row>)
    requires forall p :: At(mid, p) == AfterUpsert(before, present, upserts, p)
    requires forall p :: At(rows, p) == if p in existing && p !in listed && p !in present then None else At(mid, p)
    ensures rows == Committed(before, present, listed, existing, upserts)
  {
    forall p ensures At(rows, p) == At(Committed(before, present, listed, existing, upserts), p) {
      assert At(mid, p) == AfterUpsert(before, present, upserts, p);
    }
    SameRows(rows, Committed(before, present, listed, existing, upserts));
  }

  function At(rows: map<Path, Row>, p: Path): Option<Row>
  {
    if p in rows then Some(rows[p]) else None
  }

  ghost function AfterUpsert(rows: map<Path, Row>, present: set<Path>, upserts: map<Path, Row>, p: Path): Option<Row>
  {
    if p !in upserts then At(rows, p) else if p in present then At(Upserted(rows, p, upserts[p]), p) else None
  }

  lemma SameRows(a: map<Path, Row>, b: map<Path, Row>)
    requires forall p :: At(a, p) == At(b, p)
    ensures a == b
  {
    forall p ensures p in a <==> p in b {
      assert At(a, p) == At(b, p);
    }
    forall p | p in a ensures a[p] == b[p] {
      assert At(a, p) == At(b, p);
    }
  }

  /** The dirty filter of a pass: every listed file but those the skip rule clears. */
  method FilesToParse(listed: map<Path, Stat>, existing: map<Path, Stat>, lastIndex: int) returns (dirty: set<Path>)
    ensures forall p :: p in dirty <==> p in listed && !Skippable(listed[p], existing, p, lastIndex)
  {
    dirty := {};
    var todo := listed.Keys;
    while todo != {}
      invariant todo <= listed.Keys
      invariant forall p :: p in dirty <==> p in listed && p !in todo && !Skippable(listed[p], existing, p, lastIndex)
      decreases |todo|
    {
      var p :| p in todo;
      if p in existing && existing[p].mtime == listed[p].mtime && existing[p].size == listed[p].size
        && listed[p].mtime < lastIndex {
      } else {
        dirty := dirty + {p};
      }
      todo := todo - {p};
    }
  }
}
