/** Re-spacing of tied and of over-long rank keys within one scope. */
module Respacing {
  import opened Lex
  import opened Sorting
  import opened Results
  import opened RankKeys

  const ORDER_LONG_THRESHOLD := 64

  datatype Row = Row(path: Text, fullID: Text, orderKey: Key, parseError: bool)

  /** An in-place rewrite of one file's order key. */
  datatype KeyOp = KeyOp(path: Text, newKey: Key)

  type Outcome = Result<seq<KeyOp>, KeyError>

  predicate RowLess(a: Row, b: Row)
  {
    if a.orderKey != b.orderKey then Less(a.orderKey, b.orderKey) else Less(a.fullID, b.fullID)
  }

  lemma RowLessOrders()
    ensures WeakOrder(RowLess)
  {
    forall a, b | RowLess(a, b) ensures !RowLess(b, a) {
      if a.orderKey != b.orderKey { Asymmetric(a.orderKey, b.orderKey); } else { Asymmetric(a.fullID, b.fullID); }
    }
    forall a, b, c | !RowLess(b, a) && !RowLess(c, b) ensures !RowLess(c, a) {
      NotLessChains(a.orderKey, b.orderKey, c.orderKey);
      NotLessChains(a.fullID, b.fullID, c.fullID);
    }
  }

  // --------------------------------------------------- the re-spacing itself

  predicate KeysInOrder(s: seq<Row>)
  {
    && (forall i :: 0 <= i < |s| ==> IsKey(s[i].orderKey))
    && forall i, j :: 0 <= i < j < |s| ==> LessEq(s[i].orderKey, s[j].orderKey)
  }

  /** Rows with the same key are marked alike. */
  predicate MarkedByKey(s: seq<Row>, marks: seq<bool>)
  {
    |marks| == |s| && forall i, j :: 0 <= i < |s| && 0 <= j < |s| && s[i].orderKey == s[j].orderKey ==>
      marks[i] == marks[j]
  }

  /** The key of the nearest unmarked row at or after `j`, or open. */
  function RightAnchor(s: seq<Row>, marks: seq<bool>, j: nat): (right: Text)
    requires |marks| == |s| && j <= |s|
    decreases |s| - j
  {
    if j == |s| then [] else if !marks[j] then s[j].orderKey else RightAnchor(s, marks, j + 1)
  }

  /** The keys rows `i..` end up with, given the running previous key. */
  function FinalKeys(s: seq<Row>, marks: seq<bool>, i: nat, prev: Text): (r: Result<seq<Key>, KeyError>)
    requires |marks| == |s| && i <= |s|
    ensures r.Ok? ==> |r.value| == |s| - i
    decreases |s| - i
  {
    if i == |s| then Ok([])
    else
      var key := if marks[i] then KeyBetween(prev, RightAnchor(s, marks, i + 1)) else Ok(s[i].orderKey);
      if key.Err? then Err(key.error)
      else
        var rest := FinalKeys(s, marks, i + 1, key.value);
        if rest.Err? then rest else Ok([key.value] + rest.value)
  }

  function OpsOf(s: seq<Row>, keys: seq<Key>): (ops: seq<KeyOp>)
    requires |keys| == |s|
  {
    if s == [] then []
    else (if keys[0] == s[0].orderKey then [] else [KeyOp(s[0].path, keys[0])]) + OpsOf(s[1..], keys[1..])
  }

  function Marks(s: seq<Row>, needs: Row -> bool): (marks: seq<bool>)
    ensures |marks| == |s|
  {
    seq(|s|, i requires 0 <= i < |s| => needs(s[i]))
  }

  function RespaceSpec(valid: seq<Row>, needs: Row -> bool): (r: Outcome)
  {
    var s := StableSort(valid, RowLess);
    var keys := FinalKeys(s, Marks(s, needs), 0, []);
    if keys.Err? then Err(keys.error) else Ok(OpsOf(s, keys.value))
  }

  lemma {:induction false} AnchorIsNearest(s: seq<Row>, marks: seq<bool>, j: nat)
    requires KeysInOrder(s) && |marks| == |s| && j <= |s|
    ensures var right := RightAnchor(s, marks, j);
            && (right == [] <==> forall k :: j <= k < |s| ==> marks[k])
            && (right != [] ==> IsKey(right) && exists k :: j <= k < |s| && !marks[k] && right == s[k].orderKey)
            && (forall k :: j <= k < |s| && !marks[k] ==> right != [] && LessEq(right, s[k].orderKey))
    decreases |s| - j
  {
    if j < |s| && marks[j] {
      AnchorIsNearest(s, marks, j + 1);
    }
  }

  /** The running previous key: when row `i` is to be rewritten, it lies below every later anchor. */
  ghost predicate PrevFits(s: seq<Row>, marks: seq<bool>, i: nat, prev: Text)
    requires |marks| == |s| && i <= |s|
  {
    prev != [] ==>
      && IsKey(prev)
      && (i < |s| && marks[i] ==> forall j :: i <= j < |s| && !marks[j] ==> Less(prev, s[j].orderKey))
      && (i < |s| && !marks[i] ==> LessEq(prev, s[i].orderKey))
      && (i < |s| && !marks[i] && 0 < i && marks[i - 1] ==> Less(prev, s[i].orderKey))
  }

  /** Neighbours: weakly increasing, strictly so where either was rewritten. */
  ghost predicate Step(prev: Key, prevMarked: bool, key: Key, marked: bool)
  {
    LessEq(prev, key) && (prevMarked || marked ==> Less(prev, key))
  }

  ghost predicate RowKeyed(row: Row, marked: bool, key: Key)
  {
    IsKey(key) && (!marked ==> key == row.orderKey)
  }

  /** Rewritten rows lie strictly between their neighbours; the other rows keep their keys.
      `keys` are the keys of rows `i..`. */
  ghost predicate SpacedFrom(s: seq<Row>, marks: seq<bool>, i: nat, keys: seq<Key>)
    requires i <= |s| == |marks| && |keys| == |s| - i
  {
    && (forall k :: i <= k < |s| ==> RowKeyed(s[k], marks[k], keys[k - i]))
    && (forall k :: i < k < |s| ==> Step(keys[k - 1 - i], marks[k - 1], keys[k - i], marks[k]))
  }

  lemma {:induction false} FinalKeysAreSpaced(s: seq<Row>, marks: seq<bool>, i: nat, prev: Text)
    requires KeysInOrder(s) && MarkedByKey(s, marks) && i <= |s| && PrevFits(s, marks, i, prev)
    requires FinalKeys(s, marks, i, prev).Ok?
    ensures var keys := FinalKeys(s, marks, i, prev).value;
            && SpacedFrom(s, marks, i, keys)
            && (i < |s| && prev != [] ==> Step(prev, 0 < i && marks[i - 1], keys[0], marks[i]))
    decreases |s| - i
  {
    if i < |s| {
      var keys := FinalKeys(s, marks, i, prev).value;
      NextPrevFits(s, marks, i, prev);
      FinalKeysAreSpaced(s, marks, i + 1, keys[0]);
      SpacedCons(s, marks, i, keys[0], FinalKeys(s, marks, i + 1, keys[0]).value);
    }
  }

  /** A rewritten row gets the key that is minted between the key its predecessor got and that of the next row that is
      kept; either bound is open where there is no such row. */
  ghost predicate MintedAt(s: seq<Row>, marks: seq<bool>, k: nat, left: Text, key: Key)
    requires k < |s| == |marks|
  {
    marks[k] ==> exists j :: IsAnchor(s, marks, k, j) && KeyBetween(left, KeyAt(s, j)) == Ok(key)
  }

  ghost predicate IsAnchor(s: seq<Row>, marks: seq<bool>, k: nat, j: nat)
    requires k < |s| == |marks|
  {
    k < j <= |s| && (forall l :: k < l < j ==> marks[l]) && (j < |s| ==> !marks[j])
  }

  function KeyAt(s: seq<Row>, j: nat): Text
    requires j <= |s|
  {
    if j == |s| then [] else s[j].orderKey
  }

  lemma {:induction false} AnchorAt(s: seq<Row>, marks: seq<bool>, k: nat, j0: nat) returns (j: nat)
    requires k < j0 <= |s| == |marks| && forall l :: k < l < j0 ==> marks[l]
    ensures IsAnchor(s, marks, k, j) && RightAnchor(s, marks, j0) == KeyAt(s, j)
    decreases |s| - j0
  {
    if j0 == |s| || !marks[j0] { j := j0; } else { j := AnchorAt(s, marks, k, j0 + 1); }
  }

  /** The key to the left of row `k`, where `keys` are those of the rows from `i` on. */
  function LeftOf(prev: Text, keys: seq<Key>, i: nat, k: nat): Text
    requires i <= k <= i + |keys|
  {
    if k == i then prev else keys[k - 1 - i]
  }

  lemma LeftOfRest(prev: Text, key: Key, rest: seq<Key>, keys: seq<Key>, i: nat, k: nat)
    requires keys == [key] + rest && i < k < i + |keys|
    ensures LeftOf(prev, keys, i, k) == LeftOf(key, rest, i + 1, k) && keys[k - i] == rest[k - (i + 1)]
  {
  }

  lemma {:induction false} FinalKeysAreMinted(s: seq<Row>, marks: seq<bool>, i: nat, prev: Text, k: nat)
    requires |marks| == |s| && i <= k < |s| && FinalKeys(s, marks, i, prev).Ok?
    ensures var keys := FinalKeys(s, marks, i, prev).value;
            MintedAt(s, marks, k, LeftOf(prev, keys, i, k), keys[k - i])
    decreases |s| - i
  {
    var keys := FinalKeys(s, marks, i, prev).value;
    if k == i {
      FirstIsMinted(s, marks, i, prev, keys[0]);
    } else {
      FinalKeysAreMinted(s, marks, i + 1, keys[0], k);
      LeftOfRest(prev, keys[0], FinalKeys(s, marks, i + 1, keys[0]).value, keys, i, k);
    }
  }

  lemma FirstIsMinted(s: seq<Row>, marks: seq<bool>, i: nat, prev: Text, key: Key)
    requires i < |s| == |marks| && (marks[i] ==> KeyBetween(prev, RightAnchor(s, marks, i + 1)) == Ok(key))
    ensures MintedAt(s, marks, i, prev, key)
  {
    if marks[i] {
      var j := AnchorAt(s, marks, i, i + 1);
      assert KeyBetween(prev, KeyAt(s, j)) == Ok(key);
    }
  }

  lemma SpacedCons(s: seq<Row>, marks: seq<bool>, i: nat, key: Key, rest: seq<Key>)
    requires i < |s| == |marks| && |rest| == |s| - i - 1 && SpacedFrom(s, marks, i + 1, rest)
    requires IsKey(key) && (!marks[i] ==> key == s[i].orderKey)
    requires i + 1 < |s| ==> Step(key, marks[i], rest[0], marks[i + 1])
    ensures SpacedFrom(s, marks, i, [key] + rest)
  {
    var keys := [key] + rest;
    forall k | i <= k < |s| ensures RowKeyed(s[k], marks[k], keys[k - i]) {
      if k > i { assert keys[k - i] == rest[k - (i + 1)]; }
    }
    forall k | i < k < |s|
      ensures Step(keys[k - 1 - i], marks[k - 1], keys[k - i], marks[k])
    {
      assert keys[k - i] == rest[k - (i + 1)];
      if k > i + 1 { assert keys[k - 1 - i] == rest[k - 1 - (i + 1)]; }
    }
  }

  /** One iteration of the loop keeps `PrevFits`, so a mint always finds its bounds in order. */
  lemma NextPrevFits(s: seq<Row>, marks: seq<bool>, i: nat, prev: Text)
    requires KeysInOrder(s) && MarkedByKey(s, marks) && i < |s| && PrevFits(s, marks, i, prev)
    ensures var key := if marks[i] then KeyBetween(prev, RightAnchor(s, marks, i + 1)) else Ok(s[i].orderKey);
            && (key.Err? <==> marks[i] && prev == SMALLEST)
            && (key.Err? ==> key.error == Exhausted)
            && (key.Ok? ==> && PrevFits(s, marks, i + 1, key.value) && IsKey(key.value)
                            && (prev != [] ==> Step(prev, 0 < i && marks[i - 1], key.value, marks[i])))
  {
    var right := RightAnchor(s, marks, i + 1);
    AnchorIsNearest(s, marks, i + 1);
    if marks[i] {
      KeyBetweenIsCorrect(prev, right);
      if right != [] {
        var k :| i + 1 <= k < |s| && !marks[k] && right == s[k].orderKey;
        assert s[i].orderKey != s[k].orderKey;
        SmallestIsLeast(s[i].orderKey);
        assert right != SMALLEST;
        if prev != [] { assert Less(prev, s[k].orderKey); }
      }
      if KeyBetween(prev, right).Ok? {
        var key := KeyBetween(prev, right).value;
        forall j | i + 1 <= j < |s| && !marks[j] ensures Less(key, s[j].orderKey) {
          if right != s[j].orderKey { Transitive(key, right, s[j].orderKey); }
        }
      }
    } else if i + 1 < |s| && marks[i + 1] {
      assert Less(s[i].orderKey, s[i + 1].orderKey);
      forall j | i + 1 <= j < |s| && !marks[j] ensures Less(s[i].orderKey, s[j].orderKey) {
        if s[i + 1].orderKey != s[j].orderKey { Transitive(s[i].orderKey, s[i + 1].orderKey, s[j].orderKey); }
      }
    }
  }

  /** From neighbours to all pairs. */
  lemma {:induction false} SpacedPairs(s: seq<Row>, marks: seq<bool>, keys: seq<Key>, k: nat, l: nat)
    requires KeysInOrder(s) && MarkedByKey(s, marks) && |keys| == |s| && SpacedFrom(s, marks, 0, keys) && k < l < |s|
    ensures LessEq(keys[k], keys[l])
    ensures marks[k] || marks[l] || s[k].orderKey != s[l].orderKey ==> Less(keys[k], keys[l])
  {
    assert Step(keys[l - 1], marks[l - 1], keys[l], marks[l]);
    if k < l - 1 {
      SpacedPairs(s, marks, keys, k, l - 1);
      if Less(keys[k], keys[l - 1]) && Less(keys[l - 1], keys[l]) {
        Transitive(keys[k], keys[l - 1], keys[l]);
      }
    }
  }

  // ------------------------------------------------------- when it can fail

  /** The running previous key is `SMALLEST` when some row is to be rewritten: the row just
      before it holds `SMALLEST` and keeps it, or the first two rows are both rewritten below
      an anchor that is the successor of `SMALLEST`. */
  ghost predicate Stuck(s: seq<Row>, marks: seq<bool>)
    requires |marks| == |s|
  {
    || StuckBehind(s, marks, 0)
    || (|s| >= 2 && marks[0] && marks[1] && RightAnchor(s, marks, 1) == Increment(SMALLEST).value)
  }

  ghost predicate StuckBehind(s: seq<Row>, marks: seq<bool>, i: nat)
    requires |marks| == |s|
  {
    exists m :: i < m < |s| && marks[m] && !marks[m - 1] && s[m - 1].orderKey == SMALLEST
  }

  lemma StuckBehindNext(s: seq<Row>, marks: seq<bool>, i: nat)
    requires |marks| == |s| && i < |s|
    ensures StuckBehind(s, marks, i) <==>
              StuckBehind(s, marks, i + 1) || (i + 1 < |s| && marks[i + 1] && !marks[i] && s[i].orderKey == SMALLEST)
  {
  }

  lemma {:induction false} FailsBehindSmallest(s: seq<Row>, marks: seq<bool>, i: nat, prev: Key)
    requires KeysInOrder(s) && MarkedByKey(s, marks) && i <= |s| && prev != [] && PrevFits(s, marks, i, prev)
    ensures FinalKeys(s, marks, i, prev).Err? <==> (i < |s| && marks[i] && prev == SMALLEST) || StuckBehind(s, marks, i)
    ensures FinalKeys(s, marks, i, prev).Err? ==> FinalKeys(s, marks, i, prev).error == Exhausted
    decreases |s| - i
  {
    if i < |s| {
      NextPrevFits(s, marks, i, prev);
      var key := if marks[i] then KeyBetween(prev, RightAnchor(s, marks, i + 1)) else Ok(s[i].orderKey);
      if key.Ok? {
        FailsBehindSmallest(s, marks, i + 1, key.value);
        if marks[i] {
          MintsSmallestOnlyBelowItsSuccessor(prev, RightAnchor(s, marks, i + 1));
        }
        StuckBehindNext(s, marks, i);
      }
    }
  }

  /** Re-spacing fails exactly when it is stuck at `SMALLEST`, always with `Exhausted`. */
  lemma FailsExactlyWhenStuck(s: seq<Row>, marks: seq<bool>)
    requires KeysInOrder(s) && MarkedByKey(s, marks)
    ensures FinalKeys(s, marks, 0, []).Err? <==> Stuck(s, marks)
    ensures FinalKeys(s, marks, 0, []).Err? ==> FinalKeys(s, marks, 0, []).error == Exhausted
  {
    if s != [] {
      var right := RightAnchor(s, marks, 1);
      NextPrevFits(s, marks, 0, []);
      var key := if marks[0] then KeyBetween([], right) else Ok(s[0].orderKey);
      FailsBehindSmallest(s, marks, 1, key.value);
      if marks[0] { MintsSmallestOnlyBelowItsSuccessor([], right); }
      StuckBehindNext(s, marks, 0);
    }
  }

  // ------------------------------------------------- the loops, as methods

  ghost function Prepend(keys: seq<Key>, r: Result<seq<Key>, KeyError>): Result<seq<Key>, KeyError>
  {
    if r.Err? then r else Ok(keys + r.value)
  }

  lemma PrependNothing(r: Result<seq<Key>, KeyError>)
    ensures Prepend([], r) == r
  {
    if r.Ok? { assert [] + r.value == r.value; }
  }

  lemma PrependOne(keys: seq<Key>, key: Key, r: Result<seq<Key>, KeyError>)
    ensures Prepend(keys, Prepend([key], r)) == Prepend(keys + [key], r)
  {
    if r.Ok? { assert keys + ([key] + r.value) == (keys + [key]) + r.value; }
  }

  /** The re-spacing loop over one scope's valid rows. */
  method Respace(valid: seq<Row>, needs: Row -> bool) returns (r: Outcome)
    ensures r == RespaceSpec(valid, needs)
  {
    var s := StableSort(valid, RowLess);
    var rewriteAt := Marks(s, needs);
    var ops: seq<KeyOp> := [];
    var prev: Text := [];
    var i := 0;
    ghost var keys: seq<Key> := [];
    PrependNothing(FinalKeys(s, rewriteAt, 0, []));
    while i < |s|
      invariant 0 <= i <= |s| && |keys| == i
      invariant ops == OpsOf(s[..i], keys)
      invariant FinalKeys(s, rewriteAt, 0, []) == Prepend(keys, FinalKeys(s, rewriteAt, i, prev))
    {
      var minted: Result<Key, KeyError> := Ok(s[i].orderKey);
      if rewriteAt[i] {
        var right := NearestAnchor(s, rewriteAt, i + 1);
        minted := KeyBetween(prev, right);
      }
      if minted.Err? { return Err(minted.error); }
      var key := minted.value;
      OpsStep(s, i, keys, key);
      FinalKeysStep(s, rewriteAt, i, prev, key, keys);
      prev := key;
      if key != s[i].orderKey { ops := ops + [KeyOp(s[i].path, key)]; }
      keys := keys + [key];
      i := i + 1;
    }
    assert s[..i] == s && keys + [] == keys;
    return Ok(ops);
  }

  lemma OpsStep(s: seq<Row>, i: nat, keys: seq<Key>, key: Key)
    requires |keys| == i < |s|
    ensures OpsOf(s[..i + 1], keys + [key]) ==
              OpsOf(s[..i], keys) + if key == s[i].orderKey then [] else [KeyOp(s[i].path, key)]
  {
    assert s[..i + 1] == s[..i] + [s[i]];
    OpsSnoc(s[..i], keys, s[i], key);
  }

  /** One iteration moves one key from the keys to come to the keys so far. */
  lemma {:induction false} FinalKeysStep(
    s: seq<Row>, marks: seq<bool>, i: nat, prev: Text, key: Key, keys: seq<Key>)
    requires |marks| == |s| && i < |s|
    requires Ok(key) == if marks[i] then KeyBetween(prev, RightAnchor(s, marks, i + 1)) else Ok(s[i].orderKey)
    ensures Prepend(keys, FinalKeys(s, marks, i, prev)) == Prepend(keys + [key], FinalKeys(s, marks, i + 1, key))
  {
    PrependOne(keys, key, FinalKeys(s, marks, i + 1, key));
  }

  method NearestAnchor(s: seq<Row>, rewriteAt: seq<bool>, from: nat) returns (right: Text)
    requires |rewriteAt| == |s| && from <= |s|
    ensures right == RightAnchor(s, rewriteAt, from)
  {
    var j := from;
    while j < |s|
      invariant from <= j <= |s|
      invariant RightAnchor(s, rewriteAt, from) == RightAnchor(s, rewriteAt, j)
    {
      if !rewriteAt[j] { return s[j].orderKey; }
      j := j + 1;
    }
    return [];
  }

  lemma {:induction false} OpsSnoc(s: seq<Row>, keys: seq<Key>, row: Row, key: Key)
    requires |keys| == |s|
    ensures OpsOf(s + [row], keys + [key]) ==
              OpsOf(s, keys) + if key == row.orderKey then [] else [KeyOp(row.path, key)]
  {
    if s != [] {
      OpsSnoc(s[1..], keys[1..], row, key);
      assert (s + [row])[1..] == s[1..] + [row] && (keys + [key])[1..] == keys[1..] + [key];
    }
  }

  predicate Eligible(r: Row)
  {
    !r.parseError && IsKey(r.orderKey)
  }

  function ValidRows(rows: seq<Row>): (out: seq<Row>)
    ensures forall r :: r in out <==> r in rows && Eligible(r)
  {
    if rows == [] then []
    else (if Eligible(rows[0]) then [rows[0]] else []) + ValidRows(rows[1..])
  }

  function Count(rows: seq<Row>, key: Key): nat
  {
    if rows == [] then 0 else (if rows[0].orderKey == key then 1 else 0) + Count(rows[1..], key)
  }

  function EqualOrderSpec(rows: seq<Row>): Outcome
  {
    var valid := ValidRows(rows);
    RespaceSpec(valid, (r: Row) => Count(valid, r.orderKey) > 1)
  }

  function LongOrderSpec(rows: seq<Row>): Outcome
  {
    RespaceSpec(ValidRows(rows), (r: Row) => |r.orderKey| > ORDER_LONG_THRESHOLD)
  }

  lemma ValidRowsSplit(rows: seq<Row>, out: seq<Row>, i: nat)
    requires i < |rows|
    ensures out + ValidRows(rows[i..]) ==
              (if Eligible(rows[i]) then out + [rows[i]] else out) + ValidRows(rows[i + 1..])
  {
    assert rows[i..][1..] == rows[i + 1..];
  }

  method ValidOrderRows(rows: seq<Row>) returns (out: seq<Row>)
    ensures out == ValidRows(rows)
  {
    out := [];
    var i := 0;
    assert rows[0..] == rows;
    while i < |rows|
      invariant 0 <= i <= |rows| && ValidRows(rows) == out + ValidRows(rows[i..])
    {
      var ok := Valid(rows[i].orderKey);
      ValidRowsSplit(rows, out, i);
      if !rows[i].parseError && ok { out := out + [rows[i]]; }
      i := i + 1;
    }
  }

  function CountIn(counts: map<Key, nat>, k: Key): nat
  {
    if k in counts then counts[k] else 0
  }

  method CountKeys(valid: seq<Row>) returns (counts: map<Key, nat>)
    ensures forall k :: CountIn(counts, k) == Count(valid, k)
  {
    counts := map[];
    var i := 0;
    while i < |valid|
      invariant 0 <= i <= |valid|
      invariant forall k :: CountIn(counts, k) == Count(valid[..i], k)
    {
      var k := valid[i].orderKey;
      CountSnoc(valid[..i], valid[i]);
      assert valid[..i + 1] == valid[..i] + [valid[i]];
      counts := counts[k := CountIn(counts, k) + 1];
      i := i + 1;
    }
    assert valid[..i] == valid;
  }

  /** Marking depends only on what the test says of each row. */
  lemma SameMarks(rows: seq<Row>, p: Row -> bool, q: Row -> bool)
    requires forall r :: p(r) == q(r)
    ensures RespaceSpec(rows, p) == RespaceSpec(rows, q)
  {
    var s := StableSort(rows, RowLess);
    assert Marks(s, p) == Marks(s, q);
  }

  /** Counts how often each key occurs, then re-spaces the tied rows. */
  method EqualOrder(rows: seq<Row>) returns (r: Outcome)
    ensures r == EqualOrderSpec(rows)
  {
    var valid := ValidOrderRows(rows);
    var counts := CountKeys(valid);
    var tied := (row: Row) => CountIn(counts, row.orderKey) > 1;
    r := Respace(valid, tied);
    SameMarks(valid, tied, (row: Row) => Count(valid, row.orderKey) > 1);
  }

  lemma {:induction false} CountSnoc(s: seq<Row>, row: Row)
    ensures forall k :: Count(s + [row], k) == Count(s, k) + if row.orderKey == k then 1 else 0
  {
    if s != [] {
      CountSnoc(s[1..], row);
      assert (s + [row])[1..] == s[1..] + [row];
    }
  }

  method LongOrder(rows: seq<Row>) returns (r: Outcome)
    ensures r == LongOrderSpec(rows)
  {
    var valid := ValidOrderRows(rows);
    var tooLong := (row: Row) => |row.orderKey| > ORDER_LONG_THRESHOLD;
    r := Respace(valid, tooLong);
    SameMarks(valid, tooLong, (row: Row) => |row.orderKey| > ORDER_LONG_THRESHOLD);
  }

  // ----------------------------------------------- what the repair achieves

  function PathOf(r: Row): Text
  {
    r.path
  }

  /** The key a row has once `ops` are applied. */
  function NewKey(row: Row, ops: seq<KeyOp>): Key
  {
    if ops == [] then row.orderKey
    else if ops[0].path == row.path then ops[0].newKey
    else NewKey(row, ops[1..])
  }

  function Rekey(row: Row, ops: seq<KeyOp>): Row
  {
    row.(orderKey := NewKey(row, ops))
  }

  function Applied(rows: seq<Row>, ops: seq<KeyOp>): (out: seq<Row>)
    ensures |out| == |rows| && forall i :: 0 <= i < |rows| ==> out[i] == Rekey(rows[i], ops)
  {
    if rows == [] then [] else [Rekey(rows[0], ops)] + Applied(rows[1..], ops)
  }

  lemma {:induction false} NewKeyElsewhere(row: Row, s: seq<Row>, keys: seq<Key>)
    requires |keys| == |s| && forall k :: 0 <= k < |s| ==> s[k].path != row.path
    ensures NewKey(row, OpsOf(s, keys)) == row.orderKey
  {
    if s != [] {
      NewKeyElsewhere(row, s[1..], keys[1..]);
      if keys[0] != s[0].orderKey {
        assert OpsOf(s, keys)[1..] == OpsOf(s[1..], keys[1..]);
      } else {
        assert OpsOf(s, keys) == OpsOf(s[1..], keys[1..]);
      }
    }
  }

  lemma {:induction false} NewKeyAt(s: seq<Row>, keys: seq<Key>, k: nat)
    requires |keys| == |s| && Distinct(s, PathOf) && k < |s|
    ensures NewKey(s[k], OpsOf(s, keys)) == keys[k]
  {
    assert forall j :: 0 < j < |s| ==> PathOf(s[0]) != PathOf(s[j]);
    var rest := OpsOf(s[1..], keys[1..]);
    if keys[0] != s[0].orderKey {
      assert OpsOf(s, keys)[1..] == rest;
    } else {
      assert OpsOf(s, keys) == rest;
    }
    if k == 0 {
      NewKeyElsewhere(s[0], s[1..], keys[1..]);
    } else {
      NewKeyAt(s[1..], keys[1..], k - 1);
    }
  }

  lemma {:induction false} ValidRowsDistinct(rows: seq<Row>)
    requires Distinct(rows, PathOf)
    ensures Distinct(ValidRows(rows), PathOf)
  {
    if rows != [] {
      var rest := ValidRows(rows[1..]);
      ValidRowsDistinct(rows[1..]);
      forall j | 0 <= j < |rest| ensures PathOf(rest[j]) != PathOf(rows[0]) {
        assert rest[j] in rows[1..];
      }
    }
  }

  lemma SortedValidRows(valid: seq<Row>)
    requires forall i :: 0 <= i < |valid| ==> Eligible(valid[i])
    ensures var s := StableSort(valid, RowLess); KeysInOrder(s) && Sorted(s, RowLess) && |s| == |valid|
  {
    RowLessOrders();
    var s := StableSort(valid, RowLess);
    SortSorts(valid, RowLess);
    SortKeeps(valid, RowLess);
    forall i | 0 <= i < |s| ensures IsKey(s[i].orderKey) {
      assert s[i] in valid;
    }
    forall i, j | 0 <= i < j < |s| ensures LessEq(s[i].orderKey, s[j].orderKey) {
      assert !RowLess(s[j], s[i]);
      Total(s[i].orderKey, s[j].orderKey);
    }
  }

  /** Another row holds the same key. */
  ghost predicate Tied(s: seq<Row>, i: nat)
    requires i < |s|
  {
    exists j :: 0 <= j < |s| && j != i && s[j].orderKey == s[i].orderKey
  }

  lemma {:induction false} CountPositive(s: seq<Row>, k: Key)
    ensures Count(s, k) > 0 <==> exists j :: 0 <= j < |s| && s[j].orderKey == k
  {
    if s != [] {
      CountPositive(s[1..], k);
      if j :| 0 <= j < |s| && s[j].orderKey == k {
        if j > 0 { assert s[1..][j - 1].orderKey == k; }
      }
    }
  }

  lemma {:induction false} CountTied(s: seq<Row>, i: nat)
    requires i < |s|
    ensures Count(s, s[i].orderKey) > 1 <==> Tied(s, i)
  {
    var k := s[i].orderKey;
    CountPositive(s[1..], k);
    if i == 0 {
      if Tied(s, 0) {
        var j :| 0 < j < |s| && s[j].orderKey == k;
        assert s[1..][j - 1].orderKey == k;
      }
    } else {
      CountTied(s[1..], i - 1);
      assert s[1..][i - 1].orderKey == k;
      if j :| 0 <= j < |s| && j != i && s[j].orderKey == k {
        if j > 0 { assert s[1..][j - 1].orderKey == k; }
      }
      if Tied(s[1..], i - 1) {
        var j :| 0 <= j < |s| - 1 && j != i - 1 && s[1..][j].orderKey == k;
        assert s[j + 1].orderKey == k;
      }
    }
  }

  /** `a` has the lesser key, or the same and the lesser id. */
  ghost predicate Precedes(a: Row, b: Row)
  {
    Less(a.orderKey, b.orderKey) || (a.orderKey == b.orderKey && Less(a.fullID, b.fullID))
  }

  lemma SortedPrecedes(a: Row, b: Row)
    requires !RowLess(b, a)
    ensures !Precedes(b, a)
  {
    Irreflexive(a.orderKey);
  }

  /** Two rows end up with different keys, in the sequence of their old keys, and where these tie, of their ids. */
  ghost predicate Apart(a: Row, b: Row, ops: seq<KeyOp>)
  {
    NewKey(a, ops) != NewKey(b, ops) && (Precedes(a, b) ==> Less(NewKey(a, ops), NewKey(b, ops)))
  }

  /** What a re-spacing that rewrites the rows `needs` selects does to one scope's valid rows. */
  ghost predicate Resolved(valid: seq<Row>, needs: Row -> bool, ops: seq<KeyOp>)
  {
    && (forall r :: r in valid ==> RowKeyed(r, needs(r), NewKey(r, ops)))
    && (forall a, b :: a in valid && b in valid && a != b && (needs(a) || needs(b) || a.orderKey != b.orderKey) ==>
      Apart(a, b, ops))
  }

  ghost predicate ByKey(needs: Row -> bool)
  {
    forall a: Row, b: Row :: a.orderKey == b.orderKey ==> needs(a) == needs(b)
  }

  lemma RespaceAt(valid: seq<Row>, needs: Row -> bool, k: nat)
    requires Distinct(valid, PathOf) && ByKey(needs) && RespaceSpec(valid, needs).Ok?
    requires k < |StableSort(valid, RowLess)|
    requires forall i :: 0 <= i < |valid| ==> Eligible(valid[i])
    ensures var s := StableSort(valid, RowLess);
            && KeysInOrder(s) && MarkedByKey(s, Marks(s, needs)) && Sorted(s, RowLess)
            && FinalKeys(s, Marks(s, needs), 0, []).Ok?
            && var keys := FinalKeys(s, Marks(s, needs), 0, []).value;
            && SpacedFrom(s, Marks(s, needs), 0, keys)
            && NewKey(s[k], RespaceSpec(valid, needs).value) == keys[k]
  {
    var s := StableSort(valid, RowLess);
    SortedValidRows(valid);
    SortKeepsDistinct(valid, RowLess, PathOf);
    FinalKeysAreSpaced(s, Marks(s, needs), 0, []);
    NewKeyAt(s, FinalKeys(s, Marks(s, needs), 0, []).value, k);
  }

  lemma RespaceRow(valid: seq<Row>, needs: Row -> bool, r: Row)
    requires Distinct(valid, PathOf) && ByKey(needs) && RespaceSpec(valid, needs).Ok? && r in valid
    requires forall i :: 0 <= i < |valid| ==> Eligible(valid[i])
    ensures RowKeyed(r, needs(r), NewKey(r, RespaceSpec(valid, needs).value))
  {
    var k := Position(valid, r);
    RespaceAt(valid, needs, k);
    var s := StableSort(valid, RowLess);
    assert RowKeyed(s[k], Marks(s, needs)[k], FinalKeys(s, Marks(s, needs), 0, []).value[k - 0]);
  }

  lemma RespaceTwo(valid: seq<Row>, needs: Row -> bool, k: nat, l: nat)
    requires Distinct(valid, PathOf) && ByKey(needs) && RespaceSpec(valid, needs).Ok?
    requires k < l < |StableSort(valid, RowLess)| && forall i :: 0 <= i < |valid| ==> Eligible(valid[i])
    requires var (a, b) := (StableSort(valid, RowLess)[k], StableSort(valid, RowLess)[l]);
             needs(a) || needs(b) || a.orderKey != b.orderKey
    ensures var (s, ops) := (StableSort(valid, RowLess), RespaceSpec(valid, needs).value);
            Apart(s[k], s[l], ops) && Apart(s[l], s[k], ops) && Less(NewKey(s[k], ops), NewKey(s[l], ops))
  {
    var s := StableSort(valid, RowLess);
    RespaceAt(valid, needs, k);
    RespaceAt(valid, needs, l);
    var keys := FinalKeys(s, Marks(s, needs), 0, []).value;
    SpacedPairs(s, Marks(s, needs), keys, k, l);
    Asymmetric(keys[k], keys[l]);
    SortedPrecedes(s[k], s[l]);
  }

  lemma RespacePair(valid: seq<Row>, needs: Row -> bool, a: Row, b: Row)
    requires Distinct(valid, PathOf) && ByKey(needs) && RespaceSpec(valid, needs).Ok? && a in valid && b in valid
    requires a != b
    requires forall i :: 0 <= i < |valid| ==> Eligible(valid[i])
    requires needs(a) || needs(b) || a.orderKey != b.orderKey
    ensures Apart(a, b, RespaceSpec(valid, needs).value)
  {
    var k := Position(valid, a);
    var l := Position(valid, b);
    if k < l { RespaceTwo(valid, needs, k, l); } else { RespaceTwo(valid, needs, l, k); }
  }

  lemma RespaceResolves(valid: seq<Row>, needs: Row -> bool)
    requires Distinct(valid, PathOf) && ByKey(needs) && RespaceSpec(valid, needs).Ok?
    requires forall i :: 0 <= i < |valid| ==> Eligible(valid[i])
    ensures Resolved(valid, needs, RespaceSpec(valid, needs).value)
  {
    var ops := RespaceSpec(valid, needs).value;
    forall r | r in valid ensures RowKeyed(r, needs(r), NewKey(r, ops)) {
      RespaceRow(valid, needs, r);
    }
    forall a, b | a in valid && b in valid && a != b && (needs(a) || needs(b) || a.orderKey != b.orderKey)
      ensures Apart(a, b, ops)
    {
      RespacePair(valid, needs, a, b);
    }
  }

  lemma Position(valid: seq<Row>, r: Row) returns (k: nat)
    requires r in valid
    ensures var s := StableSort(valid, RowLess); k < |s| && s[k] == r
  {
    SortKeeps(valid, RowLess);
    var s := StableSort(valid, RowLess);
    assert r in multiset(s);
    assert r in s;
    k :| 0 <= k < |s| && s[k] == r;
  }

  /** After an equal-order repair all valid rows have pairwise distinct valid keys, in the
      original (order, id) sequence, and a row whose key was not tied keeps it. */
  lemma EqualOrderResolves(rows: seq<Row>)
    requires Distinct(rows, PathOf) && EqualOrderSpec(rows).Ok?
    ensures var (valid, ops) := (ValidRows(rows), EqualOrderSpec(rows).value);
            && (forall i, j :: 0 <= i < |valid| && 0 <= j < |valid| && i != j ==> Apart(valid[i], valid[j], ops))
            && (forall i :: 0 <= i < |valid| ==> RowKeyed(valid[i], Tied(valid, i), NewKey(valid[i], ops)))
  {
    var (valid, ops) := (ValidRows(rows), EqualOrderSpec(rows).value);
    var needs := (r: Row) => Count(valid, r.orderKey) > 1;
    ValidRowsDistinct(rows);
    assert forall i :: 0 <= i < |valid| ==> valid[i] in valid;
    RespaceResolves(valid, needs);
    forall i | 0 <= i < |valid| ensures needs(valid[i]) <==> Tied(valid, i) { CountTied(valid, i); }
    forall i, j | 0 <= i < |valid| && 0 <= j < |valid| && i != j ensures Apart(valid[i], valid[j], ops) {
      assert PathOf(valid[i]) != PathOf(valid[j]) by { if i < j {} else {} }
      if valid[i].orderKey == valid[j].orderKey { assert Tied(valid, i); }
    }
  }

  /** Rows that agree in key and id are re-keyed in the sequence in which they come. */
  lemma EqualOrderIsStable(rows: seq<Row>, i: nat, j: nat)
    requires Distinct(rows, PathOf) && EqualOrderSpec(rows).Ok? && i < j < |ValidRows(rows)|
    requires var valid := ValidRows(rows);
             valid[i].orderKey == valid[j].orderKey && valid[i].fullID == valid[j].fullID
    ensures var (valid, ops) := (ValidRows(rows), EqualOrderSpec(rows).value);
            Less(NewKey(valid[i], ops), NewKey(valid[j], ops))
  {
    var valid := ValidRows(rows);
    ValidRowsDistinct(rows);
    assert forall m :: 0 <= m < |valid| ==> valid[m] in valid;
    Irreflexive(valid[i].fullID);
    var k, l := SortIsStable(valid, RowLess, i, j);
    assert Tied(valid, i);
    CountTied(valid, i);
    RespaceTwo(valid, (r: Row) => Count(valid, r.orderKey) > 1, k, l);
  }

  /** A long-order repair touches only over-long keys, and each of them ends strictly between its neighbours. */
  lemma LongOrderResolves(rows: seq<Row>)
    requires Distinct(rows, PathOf) && LongOrderSpec(rows).Ok?
    ensures Resolved(ValidRows(rows), (r: Row) => |r.orderKey| > ORDER_LONG_THRESHOLD, LongOrderSpec(rows).value)
  {
    var valid := ValidRows(rows);
    ValidRowsDistinct(rows);
    assert forall i :: 0 <= i < |valid| ==> valid[i] in valid;
    RespaceResolves(valid, (r: Row) => |r.orderKey| > ORDER_LONG_THRESHOLD);
  }

  /** A re-spacing of valid rows fails exactly when it gets stuck at `SMALLEST`, and then with `Exhausted`. */
  lemma RespaceFailsExactly(valid: seq<Row>, needs: Row -> bool)
    requires ByKey(needs) && forall i :: 0 <= i < |valid| ==> Eligible(valid[i])
    ensures var s := StableSort(valid, RowLess);
            && (RespaceSpec(valid, needs).Err? <==> Stuck(s, Marks(s, needs)))
            && (RespaceSpec(valid, needs).Err? ==> RespaceSpec(valid, needs).error == Exhausted)
  {
    SortedValidRows(valid);
    var s := StableSort(valid, RowLess);
    FailsExactlyWhenStuck(s, Marks(s, needs));
  }

  /** The tied rows cannot all be re-keyed exactly when the sort leaves one of them stuck behind `SMALLEST`. */
  lemma EqualOrderFailsExactly(rows: seq<Row>)
    ensures var (valid, s) := (ValidRows(rows), StableSort(ValidRows(rows), RowLess));
            && (EqualOrderSpec(rows).Err? <==> Stuck(s, Marks(s, (r: Row) => Count(valid, r.orderKey) > 1)))
            && (EqualOrderSpec(rows).Err? ==> EqualOrderSpec(rows).error == Exhausted)
  {
    var valid := ValidRows(rows);
    assert forall i :: 0 <= i < |valid| ==> valid[i] in valid;
    RespaceFailsExactly(valid, (r: Row) => Count(valid, r.orderKey) > 1);
  }

  /** Two rows tied behind `SMALLEST` cannot be re-keyed, as `SMALLEST` is refused as a bound. */
  lemma TiedBehindSmallest(a: Row, b: Row, c: Row)
    requires Eligible(a) && Eligible(b) && Eligible(c) && !Less(c.fullID, b.fullID)
    requires a.orderKey == SMALLEST != b.orderKey == c.orderKey
    ensures EqualOrderSpec([a, b, c]) == Err(Exhausted)
  {
    var rows := [a, b, c];
    ThreeRows(a, b, c, rows);
    SmallestIsLeast(b.orderKey);
    Irreflexive(b.orderKey);
    Asymmetric(a.orderKey, b.orderKey);
    SortIsStableOnSorted(rows, RowLess);
    EqualOrderFailsExactly(rows);
    var marks := Marks(rows, (r: Row) => Count(rows, r.orderKey) > 1);
    assert marks[1] && !marks[1 - 1] && rows[1 - 1].orderKey == SMALLEST;
  }

  lemma ThreeRows(a: Row, b: Row, c: Row, rows: seq<Row>)
    requires Eligible(a) && Eligible(b) && Eligible(c) && rows == [a, b, c]
    requires a.orderKey != b.orderKey == c.orderKey
    ensures ValidRows(rows) == rows && Count(rows, a.orderKey) == 1 && Count(rows, b.orderKey) == 2
  {
    assert rows[1..] == [b, c] && [b, c][1..] == [c] && [c][1..] == [];
    assert ValidRows([c]) == [c] && ValidRows([b, c]) == [b, c];
    assert Count([c], a.orderKey) == 0 && Count([c], b.orderKey) == 1;
    assert Count([b, c], a.orderKey) == 0 && Count([b, c], b.orderKey) == 2;
  }

  lemma LongOrderFailsExactly(rows: seq<Row>)
    ensures var s := StableSort(ValidRows(rows), RowLess);
            && (LongOrderSpec(rows).Err? <==> Stuck(s, Marks(s, (r: Row) => |r.orderKey| > ORDER_LONG_THRESHOLD)))
            && (LongOrderSpec(rows).Err? ==> LongOrderSpec(rows).error == Exhausted)
  {
    var valid := ValidRows(rows);
    assert forall i :: 0 <= i < |valid| ==> valid[i] in valid;
    RespaceFailsExactly(valid, (r: Row) => |r.orderKey| > ORDER_LONG_THRESHOLD);
  }

  /** Repairing again changes nothing. */
  lemma EqualOrderIdempotent(rows: seq<Row>)
    requires Distinct(rows, PathOf) && EqualOrderSpec(rows).Ok?
    ensures EqualOrderSpec(Applied(rows, EqualOrderSpec(rows).value)) == Ok([])
  {
    var (valid, ops) := (ValidRows(rows), EqualOrderSpec(rows).value);
    var again := Applied(valid, ops);
    forall r | r in rows ensures Eligible(r) <==> Eligible(Rekey(r, ops)) {
      RekeyKeepsEligible(rows, r);
    }
    AppliedValid(rows, ops);
    forall i | 0 <= i < |again| ensures !Tied(again, i) {
      EqualOrderResolves(rows);
      assert forall j :: 0 <= j < |again| && j != i ==> Apart(valid[j], valid[i], ops);
    }
    UntiedIsLeftAlone(again);
  }

  lemma RekeyKeepsEligible(rows: seq<Row>, r: Row)
    requires Distinct(rows, PathOf) && EqualOrderSpec(rows).Ok? && r in rows
    ensures Eligible(r) <==> Eligible(Rekey(r, EqualOrderSpec(rows).value))
  {
    var valid := ValidRows(rows);
    if Eligible(r) {
      ValidRowsDistinct(rows);
      assert r in valid && forall i :: 0 <= i < |valid| ==> valid[i] in valid;
      RespaceRow(valid, (row: Row) => Count(valid, row.orderKey) > 1, r);
    } else {
      UnlistedKeepsKey(rows, r);
    }
  }

  lemma UntiedIsLeftAlone(valid: seq<Row>)
    requires forall i :: 0 <= i < |valid| ==> !Tied(valid, i)
    ensures RespaceSpec(valid, (r: Row) => Count(valid, r.orderKey) > 1) == Ok([])
  {
    var s := StableSort(valid, RowLess);
    var needs := (r: Row) => Count(valid, r.orderKey) > 1;
    SortKeeps(valid, RowLess);
    forall k | 0 <= k < |s| ensures !needs(s[k]) {
      assert s[k] in valid;
      var i :| 0 <= i < |valid| && valid[i] == s[k];
      CountTied(valid, i);
    }
    NothingToDo(s, Marks(s, needs), 0, []);
    assert s[0..] == s;
  }

  lemma UnlistedKeepsKey(rows: seq<Row>, r: Row)
    requires Distinct(rows, PathOf) && EqualOrderSpec(rows).Ok? && r in rows && !Eligible(r)
    ensures NewKey(r, EqualOrderSpec(rows).value) == r.orderKey
  {
    var valid := ValidRows(rows);
    var s := StableSort(valid, RowLess);
    SortKeeps(valid, RowLess);
    forall k | 0 <= k < |s| ensures s[k].path != r.path {
      assert s[k] in rows;
      var i, j :| 0 <= i < |rows| && 0 <= j < |rows| && rows[i] == r && rows[j] == s[k];
      assert PathOf(rows[i]) != PathOf(rows[j]) by { assert i != j; if i < j {} else {} }
    }
    var marks := Marks(s, (row: Row) => Count(valid, row.orderKey) > 1);
    NewKeyElsewhere(r, s, FinalKeys(s, marks, 0, []).value);
  }

  lemma {:induction false} AppliedValid(rows: seq<Row>, ops: seq<KeyOp>)
    requires forall r :: r in rows ==> (Eligible(r) <==> Eligible(Rekey(r, ops)))
    ensures ValidRows(Applied(rows, ops)) == Applied(ValidRows(rows), ops)
  {
    if rows != [] {
      var (rest, head) := (ValidRows(rows[1..]), rows[0]);
      AppliedValid(rows[1..], ops);
      assert Applied(rows, ops) == [Rekey(head, ops)] + Applied(rows[1..], ops);
      ValidRowsCons(Rekey(head, ops), Applied(rows[1..], ops));
      assert head in rows;
      if Eligible(head) { AppliedCons(head, rest, ops); }
    }
  }

  lemma {:induction false} ValidRowsCons(r: Row, rows: seq<Row>)
    ensures ValidRows([r] + rows) == (if Eligible(r) then [r] else []) + ValidRows(rows)
  {
    assert ([r] + rows)[1..] == rows;
  }

  lemma {:induction false} AppliedCons(r: Row, rows: seq<Row>, ops: seq<KeyOp>)
    ensures Applied([r] + rows, ops) == [Rekey(r, ops)] + Applied(rows, ops)
  {
    assert ([r] + rows)[1..] == rows;
  }

  lemma {:induction false} NothingToDo(s: seq<Row>, marks: seq<bool>, i: nat, prev: Text)
    requires |marks| == |s| && i <= |s| && forall k :: 0 <= k < |s| ==> !marks[k]
    ensures FinalKeys(s, marks, i, prev).Ok?
    ensures OpsOf(s[i..], FinalKeys(s, marks, i, prev).value) == []
    decreases |s| - i
  {
    if i < |s| {
      NothingToDo(s, marks, i + 1, s[i].orderKey);
      assert s[i..][1..] == s[i + 1..];
      var rest := FinalKeys(s, marks, i + 1, s[i].orderKey).value;
      assert ([s[i].orderKey] + rest)[1..] == rest;
    }
    assert i == 0 ==> s[0..] == s;
  }
}
