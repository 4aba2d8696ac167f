/** What the merge guarantees: convergence of two clones, and soundness field by field. */
module MergeLaws {
  import opened Lex
  import opened Results
  import opened Sorting
  import opened ShortIds
  import opened Collision
  import opened Statuses
  import opened Merge

  ghost predicate SameSet(a: seq<Text>, b: seq<Text>)
  {
    forall e :: e in a <==> e in b
  }

  /** The same elements for a declared list, the same text for anything else. */
  ghost predicate SameValue(schema: Schema, k: Text, a: Option<Value>, b: Option<Value>)
  {
    if k in schema.stringsFields then SameSet(ToStrings(a), ToStrings(b)) else StateKey(a) == StateKey(b)
  }

  /** The same custom value, and for a declared list also the same presence. */
  ghost predicate SameCustom(schema: Schema, k: Text, a: Option<Value>, b: Option<Value>)
  {
    SameValue(schema, k, a, b) && (k in schema.stringsFields ==> a.Some? == b.Some?)
  }

  ghost predicate SameModel(schema: Schema, a: Model, b: Model)
  {
    && a.id == b.id && a.status == b.status && a.changed == b.changed && a.order == b.order && a.created == b.created
    && a.summary == b.summary && a.statusConflict == b.statusConflict
    && SameSet(a.depends, b.depends) && SameSet(a.related, b.related)
    && SameSet(a.tags, b.tags) && SameSet(a.links, b.links)
    && forall k :: SameCustom(schema, k, Lookup(a.custom, k), Lookup(b.custom, k))
  }

  function Other(s: Side): Side
  {
    if s.Ours? then Theirs else Ours
  }

  /** The bytes that keep the collided id. */
  function KeptBytes(loser: Side, ours: Stage, theirs: Stage): Stage
  {
    if loser.Ours? then theirs else ours
  }

  /** `r` merged with one labelling of the stages and `q` with the other say the same. */
  ghost predicate Agree(
    schema: Schema, ours: Stage, theirs: Stage, r: Result<Outcome, MergeError>, q: Result<Outcome, MergeError>)
  {
    match (r, q)
    case (Err(e), Err(f)) => e == f
    case (Ok(Merged(a, w)), Ok(Merged(b, v))) => SameModel(schema, a, b) && w == v
    case (Ok(StatusConflict(a, w)), Ok(StatusConflict(b, v))) => SameModel(schema, a, b) && w == v
    case (Ok(Rename(l, i, n)), Ok(Rename(m, j, o))) =>
      i == j && n == o && KeptBytes(l, ours, theirs) == KeptBytes(m, theirs, ours)
    case (Ok(DeleteEdit(d, s)), Ok(DeleteEdit(e, t))) => d == Other(e) && s == t
    case _ => false
  }

  // ------------------------------------------------------------- custom keys

  ghost predicate HasKey(fields: seq<Field>, k: Text)
  {
    exists i :: 0 <= i < |fields| && fields[i].key == k
  }

  lemma {:induction false} KeysOfExact(fields: seq<Field>, seen: seq<Text>)
    requires NoRepeats(seen)
    ensures NoRepeats(KeysOf(fields, seen))
    ensures forall k :: k in KeysOf(fields, seen) <==> k in seen || HasKey(fields, k)
    decreases |fields|
  {
    if fields != [] {
      KeysOfExact(fields[1..], if fields[0].key in seen then seen else seen + [fields[0].key]);
      forall k ensures HasKey(fields, k) <==> fields[0].key == k || HasKey(fields[1..], k) {
        if i :| 0 <= i < |fields| && fields[i].key == k {
          if i > 0 { assert fields[1..][i - 1].key == k; }
        }
        if i :| 0 <= i < |fields| - 1 && fields[1..][i].key == k { assert fields[i + 1].key == k; }
      }
    }
  }

  lemma {:induction false} LookupMiss(fields: seq<Field>, k: Text)
    requires forall i :: 0 <= i < |fields| ==> fields[i].key != k
    ensures Lookup(fields, k) == None
    decreases |fields|
  {
    if fields != [] { LookupMiss(fields[..|fields| - 1], k); }
  }

  lemma {:induction false} LookupSnoc(front: seq<Field>, last: Text, v: Option<Value>, fields: seq<Field>, k: Text)
    requires fields == front + if v.Some? then [Field(last, v.value)] else []
    ensures Lookup(fields, k) == if v.Some? && k == last then v else Lookup(front, k)
  {
    if v.Some? {
      assert fields[..|fields| - 1] == front;
    } else {
      assert fields == front;
    }
  }

  lemma LastIsNew(keys: seq<Text>, n: nat, k: Text)
    requires NoRepeats(keys) && n + 1 == |keys|
    ensures NoRepeats(keys[..n]) && keys[n] !in keys[..n]
    ensures k in keys <==> k in keys[..n] || k == keys[n]
  {
    assert keys == keys[..n] + [keys[n]];
  }

  lemma {:induction false} MergeKeysLookup(
    base: Model, ours: Model, theirs: Model, schema: Schema, pick: bool, keys: seq<Text>, k: Text)
    requires NoRepeats(keys)
    ensures Lookup(MergeKeys(base, ours, theirs, schema, pick, keys), k)
         == if k in keys then MergeKey(base, ours, theirs, schema, pick, k) else None
    decreases |keys|
  {
    if keys != [] {
      var n := |keys| - 1;
      var front := MergeKeys(base, ours, theirs, schema, pick, keys[..n]);
      LastIsNew(keys, n, k);
      MergeKeysLookup(base, ours, theirs, schema, pick, keys[..n], k);
      var v := MergeKey(base, ours, theirs, schema, pick, keys[n]);
      LookupSnoc(front, keys[n], v, MergeKeys(base, ours, theirs, schema, pick, keys), k);
    }
  }

  lemma LookupMisses(all: seq<Field>, a: seq<Field>, b: seq<Field>, c: seq<Field>, k: Text)
    requires all == a + b + c && !HasKey(all, k)
    ensures Lookup(a, k) == None && Lookup(b, k) == None && Lookup(c, k) == None
  {
    forall i | 0 <= i < |a| ensures a[i].key != k { assert all[i] == a[i]; }
    forall i | 0 <= i < |b| ensures b[i].key != k { assert all[|a| + i] == b[i]; }
    forall i | 0 <= i < |c| ensures c[i].key != k { assert all[|a| + |b| + i] == c[i]; }
    LookupMiss(a, k);
    LookupMiss(b, k);
    LookupMiss(c, k);
  }

  /** A key that no side has stays absent. */
  lemma NothingToMerge(base: Model, ours: Model, theirs: Model, schema: Schema, pick: bool, k: Text)
    requires Lookup(base.custom, k) == None && Lookup(ours.custom, k) == None && Lookup(theirs.custom, k) == None
    ensures MergeKey(base, ours, theirs, schema, pick, k) == None
  {
  }

  /** The merged custom fields, read key by key. */
  lemma MergedCustomAt(base: Model, ours: Model, theirs: Model, schema: Schema, pick: bool, k: Text)
    ensures Lookup(MergeCustom(base, ours, theirs, schema, pick), k) == MergeKey(base, ours, theirs, schema, pick, k)
  {
    var all := base.custom + ours.custom + theirs.custom;
    var keys := OrderedCustomKeys(base, ours, theirs);
    KeysOfExact(all, []);
    MergeKeysLookup(base, ours, theirs, schema, pick, keys, k);
    if k !in keys {
      LookupMisses(all, base.custom, ours.custom, theirs.custom, k);
      NothingToMerge(base, ours, theirs, schema, pick, k);
    }
  }

  lemma CustomConverges(base: Model, ours: Model, theirs: Model, schema: Schema, pick: bool, swapped: bool, k: Text)
    requires ours == theirs || swapped == !pick
    ensures SameCustom(schema, k, MergeKey(base, ours, theirs, schema, pick, k),
              MergeKey(base, theirs, ours, schema, swapped, k))
  {
    var (b, o, t) := (ToStrings(Lookup(base.custom, k)), ToStrings(Lookup(ours.custom, k)),
      ToStrings(Lookup(theirs.custom, k)));
    ListConverges(b, o, t);
    if k in schema.stringsFields {
      var (m, n) := (MergedList(b, o, t), MergedList(b, t, o));
      assert m == [] <==> n == [] by {
        if m != [] { assert m[0] in n; }
        if n != [] { assert n[0] in m; }
      }
    }
  }

  lemma ListConverges(base: seq<Text>, ours: seq<Text>, theirs: seq<Text>)
    ensures SameSet(MergedList(base, ours, theirs), MergedList(base, theirs, ours))
  {
    MergedListIsExact(base, ours, theirs);
    MergedListIsExact(base, theirs, ours);
  }

  // ------------------------------------------------------------- convergence

  /** The tie-break is the other side's after a swap, unless both stages are the same text at the same date. */
  lemma PickFlips(env: Env, meta: Meta, oursRaw: Text, theirsRaw: Text)
    requires Injective(env.sha)
    ensures oursRaw == theirsRaw ||
            PickOurs(env, meta, oursRaw, theirsRaw)
              == !PickOurs(env, meta.(oursDate := meta.theirsDate, theirsDate := meta.oursDate), theirsRaw, oursRaw)
  {
    var (x, y) := (env.sha(oursRaw), env.sha(theirsRaw));
    Total(x, y);
    if Less(x, y) { Asymmetric(x, y); }
    if Less(y, x) { Asymmetric(y, x); }
  }

  lemma PairConverges(a: Text, b: Text)
    ensures SortedPair(a, b) == SortedPair(b, a)
  {
    Total(a, b);
    if Less(a, b) { Asymmetric(a, b); }
    if Less(b, a) { Asymmetric(b, a); }
  }

  lemma StatusConverges(base: Model, ours: Model, theirs: Model, schema: Schema, pick: bool, swapped: bool)
    requires ours == theirs || swapped == !pick
    ensures var (r, q) := (MergeStatus(base, ours, theirs, schema, pick),
              MergeStatus(base, theirs, ours, schema, swapped));
            && r == q
            && (r.Ok? ==>
                  MergeChanged(base, ours, theirs, r.value, pick) == MergeChanged(base, theirs, ours, r.value, swapped))
  {
    PairConverges(ours.status, theirs.status);
  }

  lemma ModelConverges(
    base: Model, ours: Model, theirs: Model, schema: Schema, pick: bool, swapped: bool, id: Text, created: Text,
    st: StatusMerge)
    requires ours == theirs || swapped == !pick
    requires MergeChanged(base, ours, theirs, st, pick) == MergeChanged(base, theirs, ours, st, swapped)
    ensures SameModel(schema, MergedModel(base, ours, theirs, schema, pick, id, created, st),
              MergedModel(base, theirs, ours, schema, swapped, id, created, st))
  {
    ListConverges(base.depends, ours.depends, theirs.depends);
    ListConverges(base.related, ours.related, theirs.related);
    ListConverges(base.tags, ours.tags, theirs.tags);
    ListConverges(base.links, ours.links, theirs.links);
    CustomsConverge(base, ours, theirs, schema, pick, swapped);
  }

  lemma CustomsConverge(base: Model, ours: Model, theirs: Model, schema: Schema, pick: bool, swapped: bool)
    requires ours == theirs || swapped == !pick
    ensures forall k :: SameCustom(schema, k, Lookup(MergeCustom(base, ours, theirs, schema, pick), k),
              Lookup(MergeCustom(base, theirs, ours, schema, swapped), k))
  {
    var (c, d) := (MergeCustom(base, ours, theirs, schema, pick), MergeCustom(base, theirs, ours, schema, swapped));
    forall k ensures SameCustom(schema, k, Lookup(c, k), Lookup(d, k)) {
      MergedCustomAt(base, ours, theirs, schema, pick, k);
      MergedCustomAt(base, theirs, ours, schema, swapped, k);
      CustomConverges(base, ours, theirs, schema, pick, swapped, k);
    }
  }

  lemma ThreeWayConverges(
    base: Model, ours: Model, theirs: Model, schema: Schema, pick: bool, swapped: bool, o: Stage, t: Stage)
    requires ours == theirs || swapped == !pick
    ensures Agree(schema, o, t, ThreeWay(base, ours, theirs, schema, pick),
              ThreeWay(base, theirs, ours, schema, swapped))
  {
    StatusConverges(base, ours, theirs, schema, pick, swapped);
    var id := MergeImmutable(base.id, ours.id, theirs.id, IdKey);
    var created := MergeImmutable(base.created, ours.created, theirs.created, CreatedKey);
    var st := MergeStatus(base, ours, theirs, schema, pick);
    assert id == MergeImmutable(base.id, theirs.id, ours.id, IdKey);
    assert created == MergeImmutable(base.created, theirs.created, ours.created, CreatedKey);
    if id.Ok? && created.Ok? && st.Ok? {
      ModelConverges(base, ours, theirs, schema, pick, swapped, id.value.0, created.value.0, st.value);
    }
  }

  lemma AddAddConverges(
    env: Env, ours: Model, theirs: Model, oursRaw: Text, theirsRaw: Text, meta: Meta, swapped: Meta, schema: Schema)
    requires Injective(env.sha) && meta.occupied == swapped.occupied
    ensures Agree(schema, Present(oursRaw), Present(theirsRaw),
                  AddAdd(env, ours, theirs, oursRaw, theirsRaw, meta),
                  AddAdd(env, theirs, ours, theirsRaw, oursRaw, swapped))
  {
    var a := Member(env.instant(ours.created), [], oursRaw, []);
    var b := Member(env.instant(theirs.created), [], theirsRaw, []);
    KeepBeforeTotal(env.sha, a, b);
    if KeepBefore(env.sha, a, b) { KeepBeforeAsymmetric(env.sha, a, b); }
    if KeepBefore(env.sha, b, a) { KeepBeforeAsymmetric(env.sha, b, a); }
  }

  /** Two clones converge: whichever stage git calls ours, the merge has the same outcome, the same
      scalar fields, the same lists as sets, the same custom values, and for an add/add keeps the same
      bytes and mints the same new short id. */
  lemma MergeConverges(env: Env, base: Stage, ours: Stage, theirs: Stage, schema: Schema, meta: Meta)
    requires Injective(env.sha)
    ensures var swapped := meta.(oursDate := meta.theirsDate, theirsDate := meta.oursDate);
            Agree(schema, ours, theirs, MergeFrontmatter(env, base, ours, theirs, Some(schema), meta),
                  MergeFrontmatter(env, base, theirs, ours, Some(schema), swapped))
  {
    var swapped := meta.(oursDate := meta.theirsDate, theirsDate := meta.oursDate);
    if ours.Present? && theirs.Present? && LoadStage(env, base).Ok? && LoadStage(env, ours).Ok?
      && LoadStage(env, theirs).Ok? {
      var (o, t) := (env.parse(ours.data).value, env.parse(theirs.data).value);
      if base.Absent? {
        AddAddConverges(env, o, t, ours.data, theirs.data, meta, swapped, schema);
      } else {
        PickFlips(env, meta, ours.data, theirs.data);
        ThreeWayConverges(env.parse(base.data).value, o, t, schema, PickOurs(env, meta, ours.data, theirs.data),
                          PickOurs(env, swapped, theirs.data, ours.data), ours, theirs);
      }
    }
  }

  // --------------------------------------------------------------- soundness

  ghost predicate IsMerged(r: Result<Outcome, MergeError>)
  {
    r.Ok? && (r.value.Merged? || r.value.StatusConflict?)
  }

  /** Status and its `changed` stamp come together from one stage. */
  lemma StatusComesWhole(base: Model, ours: Model, theirs: Model, schema: Schema, pick: bool)
    requires IsMerged(ThreeWay(base, ours, theirs, schema, pick))
    ensures var m := ThreeWay(base, ours, theirs, schema, pick).value.model;
            exists stage :: stage in {base, ours, theirs} && m.status == stage.status && m.changed == stage.changed
  {
    var m := ThreeWay(base, ours, theirs, schema, pick).value.model;
    assert (m.status, m.changed) in {(base.status, base.changed), (ours.status, ours.changed),
      (theirs.status, theirs.changed)};
    assert base in {base, ours, theirs} && ours in {base, ours, theirs} && theirs in {base, ours, theirs};
  }

  ghost predicate Contested(base: Model, ours: Model, theirs: Model)
  {
    ours.status != base.status && theirs.status != base.status && ours.status != theirs.status
  }

  lemma StatusDispute(base: Model, ours: Model, theirs: Model, schema: Schema, pick: bool)
    ensures var st := MergeStatus(base, ours, theirs, schema, pick);
            var terminal := IsTerminal(ours.status, schema.custom) || IsTerminal(theirs.status, schema.custom);
            && (st.Ok? ==> (st.value.dispute <==> Contested(base, ours, theirs) && terminal))
            && (st.Ok? && st.value.dispute ==>
                  st.value.status == base.status && st.value.statusConflict == SortedPair(ours.status, theirs.status))
  {
  }

  /** A terminal status in dispute is never settled by date: the result is an error or the base status with both
      contenders recorded, and it is a dispute only then. */
  lemma TerminalDisputeIsNeverPicked(base: Model, ours: Model, theirs: Model, schema: Schema, pick: bool)
    ensures var r := ThreeWay(base, ours, theirs, schema, pick);
            var terminal := IsTerminal(ours.status, schema.custom) || IsTerminal(theirs.status, schema.custom);
            r.Ok? ==>
              && (r.value.StatusConflict? <==> Contested(base, ours, theirs) && terminal)
              && (r.value.StatusConflict? ==>
                    && r.value.model.status == base.status
                    && multiset(r.value.model.statusConflict) == multiset{ours.status, theirs.status})
  {
    StatusDispute(base, ours, theirs, schema, pick);
    var r := ThreeWay(base, ours, theirs, schema, pick);
    if r.Ok? {
      var st := MergeStatus(base, ours, theirs, schema, pick).value;
      assert r.value.StatusConflict? == st.dispute;
      assert IsMerged(r) && r.value.model.status == st.status && r.value.model.statusConflict == st.statusConflict;
    }
  }

  /** `m` is what `ours` says, except that identity stays with the base. */
  ghost predicate YieldsTo(base: Model, ours: Model, schema: Schema, m: Model)
  {
    && m.id == base.id && m.created == base.created
    && m.status == ours.status && m.order == ours.order && m.summary == ours.summary
    && m.statusConflict == ours.statusConflict
    && m.changed == (if ours.status == base.status then base.changed else ours.changed)
    && SameSet(m.depends, ours.depends) && SameSet(m.related, ours.related)
    && SameSet(m.tags, ours.tags) && SameSet(m.links, ours.links)
    && forall k :: SameValue(schema, k, Lookup(m.custom, k), Lookup(ours.custom, k))
  }

  /** A side that changed nothing yields to the other. */
  lemma UnchangedSideYields(base: Model, ours: Model, schema: Schema, pick: bool)
    requires base.id != [] && base.created != []
    ensures var r := ThreeWay(base, ours, base, schema, pick);
            r.Ok? && r.value.Merged? && r.value.warnings == {} && YieldsTo(base, ours, schema, r.value.model)
  {
    UnchangedMerge(base, ours, schema, pick);
    ModelYields(base, ours, schema, pick);
  }

  lemma ModelYields(base: Model, ours: Model, schema: Schema, pick: bool)
    ensures var st := StatusMerge(ours.status, ours.statusConflict, false);
            YieldsTo(base, ours, schema, MergedModel(base, ours, base, schema, pick, base.id, base.created, st))
  {
    ListYields(base.depends, ours.depends);
    ListYields(base.related, ours.related);
    ListYields(base.tags, ours.tags);
    ListYields(base.links, ours.links);
    CustomYields(base, ours, schema, pick);
  }

  lemma UnchangedMerge(base: Model, ours: Model, schema: Schema, pick: bool)
    requires base.id != [] && base.created != []
    ensures var st := StatusMerge(ours.status, ours.statusConflict, false);
            var m := MergedModel(base, ours, base, schema, pick, base.id, base.created, st);
            ThreeWay(base, ours, base, schema, pick) == Ok(Merged(m, {}))
  {
    assert MergeStatus(base, ours, base, schema, pick) == Ok(StatusMerge(ours.status, ours.statusConflict, false));
    assert MergeImmutable(base.id, ours.id, base.id, IdKey) == Ok((base.id, {}));
    assert MergeImmutable(base.created, ours.created, base.created, CreatedKey) == Ok((base.created, {}));
    var none: set<Key> := {};
    assert none + none == none;
  }

  lemma ListYields(base: seq<Text>, ours: seq<Text>)
    ensures SameSet(MergedList(base, ours, base), ours)
  {
    MergedListIsExact(base, ours, base);
  }

  lemma CustomYields(base: Model, ours: Model, schema: Schema, pick: bool)
    ensures var c := MergeCustom(base, ours, base, schema, pick);
            forall k :: SameValue(schema, k, Lookup(c, k), Lookup(ours.custom, k))
  {
    var c := MergeCustom(base, ours, base, schema, pick);
    forall k ensures SameValue(schema, k, Lookup(c, k), Lookup(ours.custom, k)) {
      MergedCustomAt(base, ours, base, schema, pick, k);
      ListYields(ToStrings(Lookup(base.custom, k)), ToStrings(Lookup(ours.custom, k)));
    }
  }
}
