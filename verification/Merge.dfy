/** Three-way frontmatter merge over three raw git stages. */
module Merge {
  import opened Lex
  import opened Results
  import opened Sorting
  import opened ShortIds
  import opened Collision
  import opened Statuses

  /** A decoded custom value: something scalar as it prints, or a list. */
  datatype Value = Scalar(text: Text) | Items(elems: seq<Text>)

  datatype Field = Field(key: Text, value: Value)

  datatype Model = Model(
    id: Text, status: Text, changed: Text, order: Text, created: Text, summary: Text,
    depends: seq<Text>, related: seq<Text>, tags: seq<Text>, links: seq<Text>,
    statusConflict: seq<Text>, custom: seq<Field>)

  /** A git stage; a deletion is an absent stage, not an empty one. */
  datatype Stage = Absent | Present(data: Text)

  datatype Side = Ours | Theirs

  datatype Schema = Schema(custom: map<Text, Category>, stringsFields: set<Text>)

  datatype Meta = Meta(oursDate: int, theirsDate: int, occupied: set<Text>)

  /** The foreign functions: fence split with YAML decode, hash, RFC 3339 instants, and the
      short id of a legal full ticket id. */
  datatype Env = Env(
    parse: Text -> Option<Model>, sha: Hash, instant: Text -> Option<int>, shortOf: Text -> Option<Text>)

  datatype Key = IdKey | CreatedKey | StatusKey | StatusConflictKey

  /** Where a fail-closed merge stopped. */
  datatype MergeError = NoSchema | BadStage | BadShape | AtKey(key: Key)

  datatype Outcome =
    | Merged(model: Model, warnings: set<Key>)
    | StatusConflict(model: Model, warnings: set<Key>)
    | Rename(loser: Side, collidedID: Text, newShort: Text)
    | DeleteEdit(deleted: Side, survivingStatus: Text)

  // ------------------------------------------------------------ list merging

  /** A base element stays if both sides keep it; a new one is there if either side adds it. */
  predicate Survives(e: Text, base: seq<Text>, ours: seq<Text>, theirs: seq<Text>)
  {
    if e in base then e in ours && e in theirs else e in ours || e in theirs
  }

  /** Appends, in order and once each, the elements of `list` that survive. */
  function AddSurvivors(out: seq<Text>, list: seq<Text>, base: seq<Text>, ours: seq<Text>, theirs: seq<Text>): seq<Text>
    decreases |list|
  {
    if list == [] then out
    else
      var e := list[0];
      var next := if Survives(e, base, ours, theirs) && e !in out then out + [e] else out;
      AddSurvivors(next, list[1..], base, ours, theirs)
  }

  /** Base order first, then what ours and theirs add. */
  function MergedList(base: seq<Text>, ours: seq<Text>, theirs: seq<Text>): seq<Text>
  {
    AddSurvivors([], base + ours + theirs, base, ours, theirs)
  }

  lemma {:induction false} AddSurvivorsExact(
    out: seq<Text>, list: seq<Text>, base: seq<Text>, ours: seq<Text>, theirs: seq<Text>)
    requires NoRepeats(out)
    ensures var r := AddSurvivors(out, list, base, ours, theirs);
            NoRepeats(r) && forall e :: e in r <==> e in out || (e in list && Survives(e, base, ours, theirs))
    decreases |list|
  {
    if list != [] {
      var e := list[0];
      var next := if Survives(e, base, ours, theirs) && e !in out then out + [e] else out;
      AddSurvivorsExact(next, list[1..], base, ours, theirs);
    }
  }

  /** The merged list holds exactly the survivors, once each. */
  lemma MergedListIsExact(base: seq<Text>, ours: seq<Text>, theirs: seq<Text>)
    ensures NoRepeats(MergedList(base, ours, theirs))
    ensures forall e :: e in MergedList(base, ours, theirs) <==> Survives(e, base, ours, theirs)
  {
    AddSurvivorsExact([], base + ours + theirs, base, ours, theirs);
  }

  /** The three loops as written: base elements both sides keep, then each side's additions. */
  method MergeList(base: seq<Text>, ours: seq<Text>, theirs: seq<Text>) returns (out: seq<Text>)
    ensures out == MergedList(base, ours, theirs)
  {
    out := [];
    var i := 0;
    assert base[0..] == base;
    AddInTurn([], base, ours + theirs, base, ours, theirs);
    while i < |base|
      invariant 0 <= i <= |base|
      invariant AddSurvivors([], base, base, ours, theirs) == AddSurvivors(out, base[i..], base, ours, theirs)
    {
      var e := base[i];
      if e in ours && e in theirs && e !in out { out := out + [e]; }
      assert base[i..][0] == e && base[i..][1..] == base[i + 1..] && e in base;
      i := i + 1;
    }
    AddSurvivorsExact([], base, base, ours, theirs);
    AddInTurn(out, ours, theirs, base, ours, theirs);
    var mid := AddAdditions(out, ours, base, ours, theirs);
    AddSurvivorsExact(out, ours, base, ours, theirs);
    out := AddAdditions(mid, theirs, base, ours, theirs);
    assert base + (ours + theirs) == base + ours + theirs;
  }

  method AddAdditions(
    start: seq<Text>, list: seq<Text>, base: seq<Text>, ours: seq<Text>, theirs: seq<Text>) returns (out: seq<Text>)
    requires forall e :: e in base && Survives(e, base, ours, theirs) ==> e in start
    requires forall i :: 0 <= i < |list| ==> list[i] in ours || list[i] in theirs
    ensures out == AddSurvivors(start, list, base, ours, theirs)
  {
    out := start;
    var i := 0;
    assert list[0..] == list;
    while i < |list|
      invariant 0 <= i <= |list|
      invariant AddSurvivors(start, list, base, ours, theirs) == AddSurvivors(out, list[i..], base, ours, theirs)
      invariant forall e :: e in base && Survives(e, base, ours, theirs) ==> e in out
    {
      var e := list[i];
      if e !in base && e !in out { out := out + [e]; }
      assert list[i..][0] == e && list[i..][1..] == list[i + 1..];
      i := i + 1;
    }
  }

  lemma {:induction false} AddInTurn(
    out: seq<Text>, a: seq<Text>, b: seq<Text>, base: seq<Text>, ours: seq<Text>, theirs: seq<Text>)
    ensures AddSurvivors(out, a + b, base, ours, theirs)
              == AddSurvivors(AddSurvivors(out, a, base, ours, theirs), b, base, ours, theirs)
    decreases |a|
  {
    if a == [] {
      assert a + b == b;
    } else {
      assert (a + b)[0] == a[0] && (a + b)[1..] == a[1..] + b;
      var e := a[0];
      AddInTurn(if Survives(e, base, ours, theirs) && e !in out then out + [e] else out, a[1..], b, base, ours, theirs);
    }
  }

  // ---------------------------------------------------------- scalar merging

  /** Later author date, then greater hash of the whole stage. */
  predicate PickOurs(env: Env, meta: Meta, oursRaw: Text, theirsRaw: Text)
  {
    if meta.oursDate > meta.theirsDate then true
    else if meta.theirsDate > meta.oursDate then false
    else !Less(env.sha(oursRaw), env.sha(theirsRaw))
  }

  function MergeScalar<T(==)>(base: T, ours: T, theirs: T, pickOurs: bool): T
  {
    if ours == theirs then ours
    else if ours == base then theirs
    else if theirs == base then ours
    else if pickOurs then ours
    else theirs
  }

  /** id and created: the base value is the identity; disagreement fails closed. */
  function MergeImmutable(base: Text, ours: Text, theirs: Text, key: Key): Result<(Text, set<Key>), MergeError>
  {
    if base != [] then
      if ours != base && theirs != base then
        if ours == theirs then Ok((base, {key})) else Err(AtKey(key))
      else Ok((base, {}))
    else if ours == theirs then Ok((ours, {}))
    else Err(AtKey(key))
  }

  function MergeInherited(base: seq<Text>, ours: seq<Text>, theirs: seq<Text>): Result<seq<Text>, MergeError>
  {
    if ours == base && theirs == base then Ok(base)
    else if theirs == base then Ok(ours)
    else if ours == base then Ok(theirs)
    else if ours == theirs then Ok(ours)
    else Err(AtKey(StatusConflictKey))
  }

  function SortedPair(a: Text, b: Text): seq<Text>
  {
    if LessEq(a, b) then [a, b] else [b, a]
  }

  datatype StatusMerge = StatusMerge(status: Text, statusConflict: seq<Text>, dispute: bool)

  function MergeStatus(
    base: Model, ours: Model, theirs: Model, schema: Schema, pickOurs: bool): Result<StatusMerge, MergeError>
  {
    var (bs, os, ts) := (base.status, ours.status, theirs.status);
    var inherited := MergeInherited(base.statusConflict, ours.statusConflict, theirs.statusConflict);
    if os != bs && ts != bs && os != ts && (!IsKnown(os, schema.custom) || !IsKnown(ts, schema.custom)) then
      Err(AtKey(StatusKey))
    else if os != bs && ts != bs && os != ts && (IsTerminal(os, schema.custom) || IsTerminal(ts, schema.custom)) then
      Ok(StatusMerge(bs, SortedPair(os, ts), true))
    else if inherited.Err? then Err(inherited.error)
    else Ok(StatusMerge(MergeScalar(bs, os, ts, pickOurs), inherited.value, false))
  }

  /** `changed` follows the status result. */
  function MergeChanged(base: Model, ours: Model, theirs: Model, st: StatusMerge, pickOurs: bool): Text
  {
    var (bs, os, ts) := (base.status, ours.status, theirs.status);
    if st.dispute || (os == bs && ts == bs) then base.changed
    else if ts == bs then ours.changed
    else if os == bs then theirs.changed
    else if os == ts then
      if ours.changed == theirs.changed then ours.changed
      else if pickOurs then ours.changed
      else theirs.changed
    else if st.status == os then ours.changed
    else if st.status == ts then theirs.changed
    else base.changed
  }

  // ---------------------------------------------------------- custom merging

  function Join(list: seq<Text>): Text
  {
    if list == [] then [] else if |list| == 1 then list[0] else list[0] + [32] + Join(list[1..])
  }

  /** How a value prints: a list in brackets, blank-separated. */
  function Sprint(v: Value): Text
  {
    match v
    case Scalar(text) => text
    case Items(elems) => [91] + Join(elems) + [93]
  }

  function StateKey(o: Option<Value>): Text
  {
    if o.None? then [0] else [1] + Sprint(o.value)
  }

  /** The value of a key; a later field overrides an earlier one. */
  function Lookup(fields: seq<Field>, k: Text): Option<Value>
  {
    if fields == [] then None
    else if fields[|fields| - 1].key == k then Some(fields[|fields| - 1].value)
    else Lookup(fields[..|fields| - 1], k)
  }

  function ToStrings(o: Option<Value>): seq<Text>
  {
    if o.Some? && o.value.Items? then o.value.elems else []
  }

  function MergeScalarOpt(
    base: Option<Value>, ours: Option<Value>, theirs: Option<Value>, pickOurs: bool): Option<Value>
  {
    var (sb, so, st) := (StateKey(base), StateKey(ours), StateKey(theirs));
    if so == st then ours
    else if so == sb then theirs
    else if st == sb then ours
    else if pickOurs then ours
    else theirs
  }

  /** The merged value of one custom key: declared string lists merge as sets, all else as scalars. */
  function MergeKey(base: Model, ours: Model, theirs: Model, schema: Schema, pickOurs: bool, k: Text): Option<Value>
  {
    var (b, o, t) := (Lookup(base.custom, k), Lookup(ours.custom, k), Lookup(theirs.custom, k));
    if k in schema.stringsFields then
      var merged := MergedList(ToStrings(b), ToStrings(o), ToStrings(t));
      if merged == [] then None else Some(Items(merged))
    else MergeScalarOpt(b, o, t, pickOurs)
  }

  function KeysOf(fields: seq<Field>, seen: seq<Text>): seq<Text>
    decreases |fields|
  {
    if fields == [] then seen
    else KeysOf(fields[1..], if fields[0].key in seen then seen else seen + [fields[0].key])
  }

  function OrderedCustomKeys(base: Model, ours: Model, theirs: Model): seq<Text>
  {
    KeysOf(base.custom + ours.custom + theirs.custom, [])
  }

  function MergeKeys(
    base: Model, ours: Model, theirs: Model, schema: Schema, pickOurs: bool, keys: seq<Text>): seq<Field>
  {
    if keys == [] then []
    else
      var (n, k) := (|keys| - 1, keys[|keys| - 1]);
      var v := MergeKey(base, ours, theirs, schema, pickOurs, k);
      MergeKeys(base, ours, theirs, schema, pickOurs, keys[..n]) + if v.Some? then [Field(k, v.value)] else []
  }

  function MergeCustom(base: Model, ours: Model, theirs: Model, schema: Schema, pickOurs: bool): seq<Field>
  {
    MergeKeys(base, ours, theirs, schema, pickOurs, OrderedCustomKeys(base, ours, theirs))
  }

  lemma {:induction false} KeysInTurn(a: seq<Field>, b: seq<Field>, seen: seq<Text>)
    ensures KeysOf(a + b, seen) == KeysOf(b, KeysOf(a, seen))
    decreases |a|
  {
    if a == [] {
      assert a + b == b;
    } else {
      assert (a + b)[0] == a[0] && (a + b)[1..] == a[1..] + b;
      KeysInTurn(a[1..], b, if a[0].key in seen then seen else seen + [a[0].key]);
    }
  }

  method AddKeys(fields: seq<Field>, start: seq<Text>) returns (keys: seq<Text>)
    ensures keys == KeysOf(fields, start)
  {
    keys := start;
    var i := 0;
    assert fields[0..] == fields;
    while i < |fields|
      invariant 0 <= i <= |fields| && KeysOf(fields, start) == KeysOf(fields[i..], keys)
    {
      assert fields[i..][0] == fields[i] && fields[i..][1..] == fields[i + 1..];
      if fields[i].key !in keys { keys := keys + [fields[i].key]; }
      i := i + 1;
    }
  }

  /** All custom keys: base order, then ours-only, then theirs-only. */
  method CollectKeys(base: Model, ours: Model, theirs: Model) returns (keys: seq<Text>)
    ensures keys == OrderedCustomKeys(base, ours, theirs)
  {
    keys := AddKeys(base.custom, []);
    keys := AddKeys(ours.custom, keys);
    keys := AddKeys(theirs.custom, keys);
    KeysInTurn(base.custom + ours.custom, theirs.custom, []);
    KeysInTurn(base.custom, ours.custom, []);
  }

  /** The loop over all custom keys. */
  method MergeCustomFields(
    base: Model, ours: Model, theirs: Model, schema: Schema, pickOurs: bool) returns (custom: seq<Field>)
    ensures custom == MergeCustom(base, ours, theirs, schema, pickOurs)
  {
    var keys := CollectKeys(base, ours, theirs);
    custom := [];
    var i := 0;
    while i < |keys|
      invariant 0 <= i <= |keys| && custom == MergeKeys(base, ours, theirs, schema, pickOurs, keys[..i])
    {
      var v := MergeKey(base, ours, theirs, schema, pickOurs, keys[i]);
      MergeKeysSnoc(base, ours, theirs, schema, pickOurs, keys, i);
      if v.Some? { custom := custom + [Field(keys[i], v.value)]; }
      i := i + 1;
    }
    assert keys[..i] == keys;
  }

  lemma {:induction false} MergeKeysSnoc(
    base: Model, ours: Model, theirs: Model, schema: Schema, pickOurs: bool, keys: seq<Text>, i: nat)
    requires i < |keys|
    ensures var v := MergeKey(base, ours, theirs, schema, pickOurs, keys[i]);
            var front := MergeKeys(base, ours, theirs, schema, pickOurs, keys[..i]);
            MergeKeys(base, ours, theirs, schema, pickOurs, keys[..i + 1]) ==
              if v.Some? then front + [Field(keys[i], v.value)] else front
  {
    assert keys[..i + 1][..i] == keys[..i];
  }

  // --------------------------------------------------------------- the merge

  function MergedModel(
    base: Model, ours: Model, theirs: Model, schema: Schema, pickOurs: bool, id: Text, created: Text, st: StatusMerge)
    : Model
  {
    Model(
      id, st.status, MergeChanged(base, ours, theirs, st, pickOurs),
      MergeScalar(base.order, ours.order, theirs.order, pickOurs), created,
      MergeScalar(base.summary, ours.summary, theirs.summary, pickOurs),
      MergedList(base.depends, ours.depends, theirs.depends), MergedList(base.related, ours.related, theirs.related),
      MergedList(base.tags, ours.tags, theirs.tags), MergedList(base.links, ours.links, theirs.links),
      st.statusConflict, MergeCustom(base, ours, theirs, schema, pickOurs))
  }

  function ThreeWay(
    base: Model, ours: Model, theirs: Model, schema: Schema, pickOurs: bool): Result<Outcome, MergeError>
  {
    var id := MergeImmutable(base.id, ours.id, theirs.id, IdKey);
    var created := MergeImmutable(base.created, ours.created, theirs.created, CreatedKey);
    var st := MergeStatus(base, ours, theirs, schema, pickOurs);
    if id.Err? then Err(id.error)
    else if created.Err? then Err(created.error)
    else if st.Err? then Err(st.error)
    else
      var m := MergedModel(base, ours, theirs, schema, pickOurs, id.value.0, created.value.0, st.value);
      var warnings := id.value.1 + created.value.1;
      if st.value.dispute then Ok(StatusConflict(m, warnings)) else Ok(Merged(m, warnings))
  }

  /** Two tickets added under one id: keep one, extend the other's short id. */
  function AddAdd(
    env: Env, ours: Model, theirs: Model, oursRaw: Text, theirsRaw: Text, meta: Meta): Result<Outcome, MergeError>
  {
    if ours.id == [] || theirs.id == [] || ours.id != theirs.id then Err(AtKey(IdKey))
    else
      var a := Member(env.instant(ours.created), [], oursRaw, []);
      var b := Member(env.instant(theirs.created), [], theirsRaw, []);
      var keepOurs := KeepBefore(env.sha, a, b);
      var short := env.shortOf(ours.id);
      if short.None? then Err(AtKey(IdKey))
      else
        var newShort := Extension(short.value, meta.occupied);
        if newShort.Err? then Err(AtKey(IdKey))
        else Ok(Rename(if keepOurs then Theirs else Ours, ours.id, newShort.value))
  }

  function LoadStage(env: Env, s: Stage): Result<Option<Model>, MergeError>
  {
    if s.Absent? then Ok(None)
    else if s.data == [] || env.parse(s.data).None? then Err(BadStage)
    else Ok(env.parse(s.data))
  }

  function MergeFrontmatter(
    env: Env, base: Stage, ours: Stage, theirs: Stage, schema: Option<Schema>, meta: Meta): Result<Outcome, MergeError>
  {
    if schema.None? then Err(NoSchema)
    else
      var (b, o, t) := (LoadStage(env, base), LoadStage(env, ours), LoadStage(env, theirs));
      if b.Err? || o.Err? || t.Err? then Err(BadStage)
      else if base.Absent? && ours.Present? && theirs.Present? then
        AddAdd(env, o.value.value, t.value.value, ours.data, theirs.data, meta)
      else if base.Present? && ours.Present? && theirs.Present? then
        ThreeWay(b.value.value, o.value.value, t.value.value, schema.value, PickOurs(env, meta, ours.data, theirs.data))
      else if base.Present? && ours.Present? then Ok(DeleteEdit(Theirs, o.value.value.status))
      else if base.Present? && theirs.Present? then Ok(DeleteEdit(Ours, t.value.value.status))
      else Err(BadShape)
  }
}
