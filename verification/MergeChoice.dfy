/** Whose value a merge takes, field by field, from the dates and bytes of the stages. */
module MergeChoice {
  import opened Lex
  import opened Results
  import opened Sorting
  import opened ShortIds
  import opened Collision
  import opened Statuses
  import opened Merge
  import opened MergeLaws

  // ------------------------------------------------------------ who wins

  /** The later author date wins, and at one date the greater hash of the whole stage. */
  ghost predicate Beats(dateA: int, hashA: Text, dateB: int, hashB: Text)
  {
    dateA > dateB || (dateA == dateB && Less(hashB, hashA))
  }

  ghost predicate OursWins(env: Env, meta: Meta, ours: Text, theirs: Text)
  {
    Beats(meta.oursDate, env.sha(ours), meta.theirsDate, env.sha(theirs))
  }

  ghost predicate TheirsWins(env: Env, meta: Meta, ours: Text, theirs: Text)
  {
    Beats(meta.theirsDate, env.sha(theirs), meta.oursDate, env.sha(ours))
  }

  /** One of the two wins, unless they have one date and one hash. */
  lemma OneWins(env: Env, meta: Meta, ours: Text, theirs: Text)
    ensures !(OursWins(env, meta, ours, theirs) && TheirsWins(env, meta, ours, theirs))
    ensures OursWins(env, meta, ours, theirs) || TheirsWins(env, meta, ours, theirs) ||
            (meta.oursDate == meta.theirsDate && env.sha(ours) == env.sha(theirs))
    ensures OursWins(env, meta, ours, theirs) ==> PickOurs(env, meta, ours, theirs)
    ensures TheirsWins(env, meta, ours, theirs) ==> !PickOurs(env, meta, ours, theirs)
    ensures !TheirsWins(env, meta, ours, theirs) ==> PickOurs(env, meta, ours, theirs)
  {
    var (x, y) := (env.sha(ours), env.sha(theirs));
    Total(x, y);
    if Less(x, y) { Asymmetric(x, y); }
  }

  /** The value of the side that alone changed it, or of both, or else of the winner: ours where neither wins. */
  ghost predicate Taken<T(!new)>(base: T, ours: T, theirs: T, merged: T, theirsWins: bool)
  {
    && (theirs == base ==> merged == ours)
    && (ours == base ==> merged == theirs)
    && (ours == theirs ==> merged == ours)
    && (ours != base && theirs != base && !theirsWins ==> merged == ours)
    && (ours != base && theirs != base && theirsWins ==> merged == theirs)
  }

  // ------------------------------------------------------------ identity

  /** Both sides moved off the base to different values, or there is no base value and they differ. */
  ghost predicate Clash(base: Text, ours: Text, theirs: Text)
  {
    ours != theirs && (base == [] || (ours != base && theirs != base))
  }

  /** The base value is kept; only without one do both sides' common value count. */
  ghost predicate Identity(base: Text, ours: Text, theirs: Text, merged: Text, key: Key, warnings: set<Key>)
  {
    && (base != [] ==> merged == base)
    && (base == [] ==> merged == ours == theirs)
    && (key in warnings <==> base != [] && ours == theirs != base)
  }

  // ------------------------------------------------------------ status and its stamp

  /** An inherited pair that both sides replaced by different ones. */
  ghost predicate PairClash(base: Model, ours: Model, theirs: Model)
  {
    && ours.statusConflict != base.statusConflict && theirs.statusConflict != base.statusConflict
    && ours.statusConflict != theirs.statusConflict
  }

  ghost predicate Disputed(base: Model, ours: Model, theirs: Model, schema: Schema)
  {
    && Contested(base, ours, theirs)
    && (IsTerminal(ours.status, schema.custom) || IsTerminal(theirs.status, schema.custom))
  }

  /** A dispute keeps the base status and stamp and notes both statuses in order; otherwise the status is taken as any
      field is, the inherited pair from the side that changed it, and the stamp from whoever moved the status. */
  ghost predicate StatusTaken(base: Model, ours: Model, theirs: Model, schema: Schema, m: Model, theirsWins: bool)
  {
    if Disputed(base, ours, theirs, schema) then
      && m.status == base.status && m.changed == base.changed && |m.statusConflict| == 2
      && multiset(m.statusConflict) == multiset{ours.status, theirs.status}
      && Less(m.statusConflict[0], m.statusConflict[1])
    else
      && Taken(base.status, ours.status, theirs.status, m.status, theirsWins)
      && Taken(base.statusConflict, ours.statusConflict, theirs.statusConflict, m.statusConflict, theirsWins)
      && StampTaken(base, ours, theirs, m.changed, theirsWins)
  }

  ghost predicate StampTaken(base: Model, ours: Model, theirs: Model, changed: Text, theirsWins: bool)
  {
    && (ours.status == base.status && theirs.status == base.status ==> changed == base.changed)
    && (ours.status != base.status && theirs.status == base.status ==> changed == ours.changed)
    && (ours.status == base.status && theirs.status != base.status ==> changed == theirs.changed)
    && (ours.status != base.status && theirs.status != base.status ==>
          changed == if theirsWins then theirs.changed else ours.changed)
  }

  // ------------------------------------------------------------ custom keys

  /** A value as it prints, if there is one. */
  function Printed(o: Option<Value>): Option<Text>
  {
    if o.None? then None else Some(Sprint(o.value))
  }

  lemma KeysTellPrinted(a: Option<Value>, b: Option<Value>)
    ensures StateKey(a) == StateKey(b) <==> Printed(a) == Printed(b)
  {
    if a.Some? { assert StateKey(a)[0] == 1 && StateKey(a)[1..] == Sprint(a.value); }
    if b.Some? { assert StateKey(b)[0] == 1 && StateKey(b)[1..] == Sprint(b.value); }
  }

  /** A declared list merges as a set and is dropped when empty; anything else is taken by how it prints. */
  ghost predicate CustomTaken(base: Model, ours: Model, theirs: Model, schema: Schema, m: Model, k: Text,
                              theirsWins: bool)
  {
    ValueTaken(Lookup(base.custom, k), Lookup(ours.custom, k), Lookup(theirs.custom, k), Lookup(m.custom, k),
      k in schema.stringsFields, theirsWins)
  }

  /** The value is a list with this element. */
  ghost predicate Lists(o: Option<Value>, e: Text)
  {
    o.Some? && o.value.Items? && e in o.value.elems
  }

  /** A list prints as its elements with a blank between each two. */
  lemma {:induction false} JoinsWithBlanks(a: seq<Text>, b: seq<Text>)
    requires a != [] && b != []
    ensures Join(a + b) == Join(a) + [32] + Join(b)
    ensures |a| == 1 ==> Join(a) == a[0]
  {
    if |a| == 1 {
      assert (a + b)[1..] == b;
    } else {
      assert (a + b)[0] == a[0] && (a + b)[1..] == a[1..] + b;
      JoinsWithBlanks(a[1..], b);
      assert a[0] + [32] + (Join(a[1..]) + [32] + Join(b)) == (a[0] + [32] + Join(a[1..])) + [32] + Join(b);
    }
  }

  /** An element stays when both sides keep it, and is there when either side adds it. */
  ghost predicate ListTaken(base: seq<Text>, ours: seq<Text>, theirs: seq<Text>, merged: seq<Text>)
  {
    && NoRepeats(merged)
    && (forall e :: e in merged <==> if e in base then e in ours && e in theirs else e in ours || e in theirs)
    && InOrderOf(base + ours + theirs, merged)
  }

  ghost predicate InOrderOf(all: seq<Text>, list: seq<Text>)
  {
    forall i, j :: 0 <= i < j < |list| ==> ComesBefore(all, list[i], list[j])
  }

  /** The first `x` comes before the first `y`. */
  ghost predicate ComesBefore(list: seq<Text>, x: Text, y: Text)
  {
    exists k :: 0 <= k < |list| && list[k] == x && y !in list[..k]
  }

  lemma {:induction false} SurvivorsInOrder(
    out: seq<Text>, list: seq<Text>, base: seq<Text>, ours: seq<Text>, theirs: seq<Text>, all: seq<Text>, n: nat)
    requires n <= |all| && list == all[n..] && NoRepeats(out)
    requires forall e :: e in out ==> e in all[..n]
    requires forall e :: e in all[..n] && Survives(e, base, ours, theirs) ==> e in out
    requires forall e :: e in out ==> Survives(e, base, ours, theirs)
    requires InOrderOf(all, out)
    ensures InOrderOf(all, AddSurvivors(out, list, base, ours, theirs))
    decreases |list|
  {
    if list != [] {
      var e := list[0];
      assert e == all[n] && all[..n + 1] == all[..n] + [e] && list[1..] == all[n + 1..];
      var next := if Survives(e, base, ours, theirs) && e !in out then out + [e] else out;
      forall i, j | 0 <= i < j < |next| ensures ComesBefore(all, next[i], next[j]) {
        if j == |out| { FirstIsBefore(all, n, next[i], e); }
      }
      SurvivorsInOrder(next, list[1..], base, ours, theirs, all, n + 1);
    }
  }

  lemma FirstIsBefore(all: seq<Text>, n: nat, x: Text, e: Text)
    requires n < |all| && x in all[..n] && e !in all[..n]
    ensures ComesBefore(all, x, e)
  {
    var k :| 0 <= k < n && all[..n][k] == x;
    forall i | 0 <= i < k ensures all[..k][i] != e { assert all[..n][i] == all[i]; }
  }

  lemma ListIsTaken(base: seq<Text>, ours: seq<Text>, theirs: seq<Text>)
    ensures ListTaken(base, ours, theirs, MergedList(base, ours, theirs))
  {
    MergedListIsExact(base, ours, theirs);
    var all := base + ours + theirs;
    assert all[0..] == all;
    SurvivorsInOrder([], all, base, ours, theirs, all, 0);
  }

  // ------------------------------------------------------------ the merge

  /** What a merge of three stages makes of every field. */
  ghost predicate AllTaken(base: Model, ours: Model, theirs: Model, schema: Schema, m: Model, warnings: set<Key>,
                           theirsWins: bool)
  {
    && Identity(base.id, ours.id, theirs.id, m.id, IdKey, warnings)
    && Identity(base.created, ours.created, theirs.created, m.created, CreatedKey, warnings)
    && Taken(base.order, ours.order, theirs.order, m.order, theirsWins)
    && Taken(base.summary, ours.summary, theirs.summary, m.summary, theirsWins)
    && StatusTaken(base, ours, theirs, schema, m, theirsWins)
    && ListTaken(base.depends, ours.depends, theirs.depends, m.depends)
    && ListTaken(base.related, ours.related, theirs.related, m.related)
    && ListTaken(base.tags, ours.tags, theirs.tags, m.tags)
    && ListTaken(base.links, ours.links, theirs.links, m.links)
    && forall k :: CustomTaken(base, ours, theirs, schema, m, k, theirsWins)
  }

  ghost predicate BothKnown(ours: Model, theirs: Model, schema: Schema)
  {
    IsKnown(ours.status, schema.custom) && IsKnown(theirs.status, schema.custom)
  }

  /** Where a merge stops: at a clash of ids, else of creation stamps, else at contested statuses of which one is
      unknown, else, unless there is a dispute to note, at a clash of inherited pairs. */
  ghost predicate StopsAtKey(base: Model, ours: Model, theirs: Model, schema: Schema, r: Result<Outcome, MergeError>)
  {
    if Clash(base.id, ours.id, theirs.id) then r == Err(AtKey(IdKey))
    else if Clash(base.created, ours.created, theirs.created) then r == Err(AtKey(CreatedKey))
    else if Contested(base, ours, theirs) && !BothKnown(ours, theirs, schema) then r == Err(AtKey(StatusKey))
    else if !Disputed(base, ours, theirs, schema) && PairClash(base, ours, theirs) then
      r == Err(AtKey(StatusConflictKey))
    else r.Ok? && if Disputed(base, ours, theirs, schema) then r.value.StatusConflict? else r.value.Merged?
  }

  lemma StatusIsTaken(base: Model, ours: Model, theirs: Model, schema: Schema, pick: bool, m: Model)
    requires var st := MergeStatus(base, ours, theirs, schema, pick);
             && st.Ok? && m.status == st.value.status && m.statusConflict == st.value.statusConflict
             && m.changed == MergeChanged(base, ours, theirs, st.value, pick)
    ensures StatusTaken(base, ours, theirs, schema, m, !pick)
  {
    if Disputed(base, ours, theirs, schema) { PairIsOrdered(ours.status, theirs.status); }
  }

  lemma PairIsOrdered(a: Text, b: Text)
    requires a != b
    ensures multiset(SortedPair(a, b)) == multiset{a, b} && Less(SortedPair(a, b)[0], SortedPair(a, b)[1])
  {
    Total(a, b);
  }

  /** What becomes of one custom key. */
  ghost predicate ValueTaken(
    b: Option<Value>, o: Option<Value>, t: Option<Value>, v: Option<Value>, isList: bool, theirsWins: bool)
  {
    if isList then
      && (v.Some? ==> v.value.Items? && v.value.elems != [])
      && (forall e :: Lists(v, e) <==> if Lists(b, e) then Lists(o, e) && Lists(t, e) else Lists(o, e) || Lists(t, e))
    else if Printed(o) == Printed(t) || Printed(t) == Printed(b) then v == o
    else if Printed(o) == Printed(b) then v == t
    else v == if theirsWins then t else o
  }

  lemma ListValueTaken(b: Option<Value>, o: Option<Value>, t: Option<Value>, v: Option<Value>, w: bool)
    requires var merged := MergedList(ToStrings(b), ToStrings(o), ToStrings(t));
             v == if merged == [] then None else Some(Items(merged))
    ensures ValueTaken(b, o, t, v, true, w)
  {
    MergedListIsExact(ToStrings(b), ToStrings(o), ToStrings(t));
    var merged := MergedList(ToStrings(b), ToStrings(o), ToStrings(t));
    forall e
      ensures Lists(v, e) <==> if Lists(b, e) then Lists(o, e) && Lists(t, e) else Lists(o, e) || Lists(t, e)
    {
      assert Lists(v, e) <==> e in merged;
    }
  }

  lemma OtherValueTaken(b: Option<Value>, o: Option<Value>, t: Option<Value>, pick: bool)
    ensures ValueTaken(b, o, t, MergeScalarOpt(b, o, t, pick), false, !pick)
  {
    KeysTellPrinted(b, o);
    KeysTellPrinted(b, t);
    KeysTellPrinted(o, t);
  }

  lemma CustomIsTaken(base: Model, ours: Model, theirs: Model, schema: Schema, pick: bool, m: Model, k: Text)
    requires m.custom == MergeCustom(base, ours, theirs, schema, pick)
    ensures CustomTaken(base, ours, theirs, schema, m, k, !pick)
  {
    MergedCustomAt(base, ours, theirs, schema, pick, k);
    var (b, o, t) := (Lookup(base.custom, k), Lookup(ours.custom, k), Lookup(theirs.custom, k));
    if k in schema.stringsFields {
      ListValueTaken(b, o, t, Lookup(m.custom, k), !pick);
    } else {
      OtherValueTaken(b, o, t, pick);
    }
  }

  lemma ModelIsTaken(base: Model, ours: Model, theirs: Model, schema: Schema, pick: bool, id: Text, created: Text,
                     st: StatusMerge, m: Model, w: bool)
    requires MergeStatus(base, ours, theirs, schema, pick) == Ok(st) && w == !pick
    requires m == MergedModel(base, ours, theirs, schema, pick, id, created, st)
    ensures Taken(base.order, ours.order, theirs.order, m.order, w)
    ensures Taken(base.summary, ours.summary, theirs.summary, m.summary, w)
    ensures StatusTaken(base, ours, theirs, schema, m, w)
    ensures ListTaken(base.depends, ours.depends, theirs.depends, m.depends)
    ensures ListTaken(base.related, ours.related, theirs.related, m.related)
    ensures ListTaken(base.tags, ours.tags, theirs.tags, m.tags)
    ensures ListTaken(base.links, ours.links, theirs.links, m.links)
    ensures forall k :: CustomTaken(base, ours, theirs, schema, m, k, w)
  {
    StatusIsTaken(base, ours, theirs, schema, pick, m);
    ListIsTaken(base.depends, ours.depends, theirs.depends);
    ListIsTaken(base.related, ours.related, theirs.related);
    ListIsTaken(base.tags, ours.tags, theirs.tags);
    ListIsTaken(base.links, ours.links, theirs.links);
    forall k ensures CustomTaken(base, ours, theirs, schema, m, k, w) {
      CustomIsTaken(base, ours, theirs, schema, pick, m, k);
    }
  }

  lemma ThreeWayStops(base: Model, ours: Model, theirs: Model, schema: Schema, pick: bool)
    ensures StopsAtKey(base, ours, theirs, schema, ThreeWay(base, ours, theirs, schema, pick))
  {
  }

  lemma ImmutableIsIdentity(base: Text, ours: Text, theirs: Text, key: Key, other: set<Key>)
    requires MergeImmutable(base, ours, theirs, key).Ok? && key !in other
    ensures var (merged, warnings) := MergeImmutable(base, ours, theirs, key).value;
            warnings <= {key} && Identity(base, ours, theirs, merged, key, warnings + other)
  {
  }

  lemma ThreeWayTakes(base: Model, ours: Model, theirs: Model, schema: Schema, pick: bool, w: bool, m: Model,
                      warnings: set<Key>)
    requires w == !pick
    requires var r := ThreeWay(base, ours, theirs, schema, pick);
             r.Ok? && m == r.value.model && warnings == r.value.warnings
    ensures AllTaken(base, ours, theirs, schema, m, warnings, w)
  {
    var id := MergeImmutable(base.id, ours.id, theirs.id, IdKey).value;
    var created := MergeImmutable(base.created, ours.created, theirs.created, CreatedKey).value;
    var st := MergeStatus(base, ours, theirs, schema, pick).value;
    ImmutableIsIdentity(base.id, ours.id, theirs.id, IdKey, {});
    ImmutableIsIdentity(base.created, ours.created, theirs.created, CreatedKey, {});
    assert warnings == id.1 + created.1;
    assert Identity(base.id, ours.id, theirs.id, m.id, IdKey, warnings);
    assert Identity(base.created, ours.created, theirs.created, m.created, CreatedKey, warnings);
    ModelIsTaken(base, ours, theirs, schema, pick, id.0, created.0, st, m, w);
  }

  /** The merge of three stages that can be read, from their dates and hashes. */
  lemma MergeTakes(env: Env, b: Text, o: Text, t: Text, schema: Schema, meta: Meta)
    requires b != [] && o != [] && t != []
    requires env.parse(b).Some? && env.parse(o).Some? && env.parse(t).Some?
    ensures var (base, ours, theirs) := (env.parse(b).value, env.parse(o).value, env.parse(t).value);
            var r := MergeFrontmatter(env, Present(b), Present(o), Present(t), Some(schema), meta);
            && StopsAtKey(base, ours, theirs, schema, r)
            && (r.Ok? ==> AllTaken(base, ours, theirs, schema, r.value.model, r.value.warnings,
                                   TheirsWins(env, meta, o, t)))
  {
    var pick := PickOurs(env, meta, o, t);
    OneWins(env, meta, o, t);
    ThreeStages(env, b, o, t, schema, meta);
    ThreeWayIsTaken(env.parse(b).value, env.parse(o).value, env.parse(t).value, schema, pick,
      TheirsWins(env, meta, o, t));
  }

  lemma ThreeStages(env: Env, b: Text, o: Text, t: Text, schema: Schema, meta: Meta)
    requires b != [] && o != [] && t != []
    requires env.parse(b).Some? && env.parse(o).Some? && env.parse(t).Some?
    ensures MergeFrontmatter(env, Present(b), Present(o), Present(t), Some(schema), meta) ==
              ThreeWay(env.parse(b).value, env.parse(o).value, env.parse(t).value, schema, PickOurs(env, meta, o, t))
  {
  }

  lemma ThreeWayIsTaken(base: Model, ours: Model, theirs: Model, schema: Schema, pick: bool, w: bool)
    requires w == !pick
    ensures var r := ThreeWay(base, ours, theirs, schema, pick);
            && StopsAtKey(base, ours, theirs, schema, r)
            && (r.Ok? ==> AllTaken(base, ours, theirs, schema, r.value.model, r.value.warnings, w))
  {
    var r := ThreeWay(base, ours, theirs, schema, pick);
    ThreeWayStops(base, ours, theirs, schema, pick);
    if r.Ok? { ThreeWayTakes(base, ours, theirs, schema, pick, w, r.value.model, r.value.warnings); }
  }

  // ------------------------------------------------------------ deletions and additions

  /** A deletion against an edit names the side that deleted and the status that the other side left. */
  lemma DeletionNamesItsSide(env: Env, b: Text, kept: Text, schema: Schema, meta: Meta)
    requires b != [] && kept != [] && env.parse(b).Some? && env.parse(kept).Some?
    ensures MergeFrontmatter(env, Present(b), Present(kept), Absent, Some(schema), meta) ==
              Ok(DeleteEdit(Theirs, env.parse(kept).value.status))
    ensures MergeFrontmatter(env, Present(b), Absent, Present(kept), Some(schema), meta) ==
              Ok(DeleteEdit(Ours, env.parse(kept).value.status))
  {
  }

  /** `a` is kept rather than `b`: created no later, where no instant comes first, and at one instant with the hash that
      is no greater. */
  ghost predicate KeptOver(env: Env, created: Text, raw: Text, created2: Text, raw2: Text)
  {
    var (i, j) := (env.instant(created), env.instant(created2));
    && (j == None ==> i == None)
    && (i != None && j != None ==> i.value <= j.value)
    && (i == j ==> LessEq(env.sha(raw), env.sha(raw2)))
  }

  /** Two tickets added under one id: the one that is created later, or has the greater hash, is renamed to the shortest
      and then least free extension. */
  lemma AdditionRenamesTheLater(env: Env, o: Text, t: Text, schema: Schema, meta: Meta)
    requires o != [] && t != [] && env.parse(o).Some? && env.parse(t).Some?
    ensures var (ours, theirs) := (env.parse(o).value, env.parse(t).value);
            var r := MergeFrontmatter(env, Absent, Present(o), Present(t), Some(schema), meta);
            && (r.Ok? ==>
                  && r.value.Rename? && r.value.collidedID == ours.id == theirs.id != []
                  && (if r.value.loser == Theirs then KeptOver(env, ours.created, o, theirs.created, t)
                      else KeptOver(env, theirs.created, t, ours.created, o))
                  && env.shortOf(ours.id).Some?
                  && IsExtension(env.shortOf(ours.id).value, meta.occupied, Ok(r.value.newShort)))
            && (r.Err? ==> r == Err(AtKey(IdKey)))
            && (r.Err? ==>
                  (ours.id == [] || ours.id != theirs.id || env.shortOf(ours.id).None?
                   || exists e :: IsExtension(env.shortOf(ours.id).value, meta.occupied, Err(e))))
  {
    var (ours, theirs) := (env.parse(o).value, env.parse(t).value);
    Total(env.sha(o), env.sha(t));
    if env.shortOf(ours.id).Some? {
      var short := env.shortOf(ours.id).value;
      ExtensionIsExtension(short, meta.occupied);
      if Extension(short, meta.occupied).Err? {
        assert IsExtension(short, meta.occupied, Err(Extension(short, meta.occupied).error));
      }
    }
  }

  ghost predicate Unreadable(env: Env, s: Stage)
  {
    s.Present? && (s.data == [] || env.parse(s.data).None?)
  }

  /** Without a schema, with an unreadable stage, or with fewer stages than a conflict has, the merge refuses. */
  lemma MergeRefuses(env: Env, base: Stage, ours: Stage, theirs: Stage, schema: Option<Schema>, meta: Meta)
    ensures var r := MergeFrontmatter(env, base, ours, theirs, schema, meta);
            var unreadable := Unreadable(env, base) || Unreadable(env, ours) || Unreadable(env, theirs);
            && (r == Err(NoSchema) <==> schema == None)
            && (r == Err(BadStage) <==> schema != None && unreadable)
            && (r == Err(BadShape) <==>
                  schema != None && !unreadable && (if base.Absent? then 1 else 0) + (if ours.Absent? then 1 else 0)
                    + (if theirs.Absent? then 1 else 0) >= 2)
  {
  }
}
