/** Short-id grammar and its deterministic extension on collision.
    A short id is written in alphabet coordinates: 0..22 are the letters, 23..30 the digits,
    in the fixed enumeration order of the alphabet; any other number is an illegal byte. */
module ShortIds {
  import opened Lex
  import opened Results
  import opened Numerals

  const SHORT_ID_MIN := 4
  const SHORT_ID_MAX := 8
  const LETTERS := 23
  const ALPHABET := 31

  predicate IsShortID(s: Text)
  {
    SHORT_ID_MIN <= |s| <= SHORT_ID_MAX && 0 <= s[0] < LETTERS && InBase(s, ALPHABET)
  }

  predicate ShortInFamily(short: Text, base: Text)
  {
    IsShortID(short) && IsShortID(base) && base <= short
  }

  /** The ASCII byte of an alphabet index: a-h, j, k, m, n, p-z, then 2-9. */
  function ShortByte(d: int): int
  {
    if d < 8 then 97 + d
    else if d < 10 then 98 + d
    else if d < 12 then 99 + d
    else if d < LETTERS then 100 + d
    else 27 + d
  }

  function ShortBytes(s: Text): Text
  {
    seq(|s|, i requires 0 <= i < |s| => ShortByte(s[i]))
  }

  /** The alphabet in its order: the letters but `i`, `l` and `o`, then the digits from `2` on. */
  lemma AlphabetIs(c: int)
    ensures (exists d :: 0 <= d < ALPHABET && ShortByte(d) == c) <==>
              || ('a' as int <= c <= 'z' as int && c != 'i' as int && c != 'l' as int && c != 'o' as int)
              || '2' as int <= c <= '9' as int
    ensures forall d, e :: 0 <= d < e < ALPHABET ==>
              if e < LETTERS || LETTERS <= d then ShortByte(d) < ShortByte(e) else ShortByte(e) < ShortByte(d)
  {
    if 'a' as int <= c < 'i' as int { assert ShortByte(c - 97) == c; }
    if 'i' as int < c < 'l' as int { assert ShortByte(c - 98) == c; }
    if 'l' as int < c < 'o' as int { assert ShortByte(c - 99) == c; }
    if 'o' as int < c <= 'z' as int { assert ShortByte(c - 100) == c; }
    if '2' as int <= c <= '9' as int { assert ShortByte(c - 27) == c; }
  }

  lemma ShortBytesInjective(a: Text, b: Text)
    requires InBase(a, ALPHABET) && InBase(b, ALPHABET) && ShortBytes(a) == ShortBytes(b)
    ensures a == b
  {
    forall i | 0 <= i < |a| ensures a[i] == b[i] {
      assert ShortBytes(a)[i] == ShortBytes(b)[i];
    }
  }

  datatype ExtendError = IllegalPrefix | NoFreeId

  /** `c` extends `prefix` by at least one character. */
  predicate Extends(c: Text, prefix: Text)
  {
    IsShortID(c) && prefix < c
  }

  /** Shorter first, then earlier in the enumeration order. */
  predicate Earlier(a: Text, b: Text)
  {
    |a| < |b| || (|a| == |b| && Less(a, b))
  }

  /** What `Extend` promises. */
  ghost predicate IsExtension(prefix: Text, occupied: set<Text>, r: Result<Text, ExtendError>)
  {
    match r
    case Ok(c) =>
      && IsShortID(prefix) && Extends(c, prefix) && c !in occupied
      && forall e :: Extends(e, prefix) && e !in occupied ==> e == c || Earlier(c, e)
    case Err(NoFreeId) =>
      IsShortID(prefix) && forall e :: Extends(e, prefix) ==> e in occupied
    case Err(IllegalPrefix) =>
      !IsShortID(prefix)
  }

  lemma ExtensionIsUnique(prefix: Text, occupied: set<Text>, r: Result<Text, ExtendError>, q: Result<Text, ExtendError>)
    requires IsExtension(prefix, occupied, r) && IsExtension(prefix, occupied, q)
    ensures r == q
  {
    if r.Ok? && q.Ok? && r.value != q.value {
      assert Earlier(r.value, q.value) && Earlier(q.value, r.value);
      Asymmetric(r.value, q.value);
    }
  }

  /** Steps the odometer in place; the answer is false when it has wrapped to zeros. */
  method IncOdometer(digits: array<int>) returns (more: bool)
    requires InBase(digits[..], ALPHABET)
    modifies digits
    ensures more <==> IncrementRun(old(digits[..]), ALPHABET).Some?
    ensures more ==> digits[..] == IncrementRun(old(digits[..]), ALPHABET).value
    ensures !more ==> digits[..] == Run(0, digits.Length)
  {
    var n := digits.Length;
    var i := n - 1;
    while i >= 0
      invariant -1 <= i < n
      invariant forall k :: i < k < n ==> old(digits[k]) == ALPHABET - 1 && digits[k] == 0
      invariant forall k :: 0 <= k <= i ==> digits[k] == old(digits[k])
    {
      digits[i] := digits[i] + 1;
      if digits[i] < ALPHABET {
        CarriedAt(old(digits[..]), digits[..], i);
        return true;
      }
      digits[i] := 0;
      i := i - 1;
    }
    IncrementNines(n, ALPHABET);
    assert old(digits[..]) == Run(ALPHABET - 1, n);
    return false;
  }

  lemma CarriedAt(was: Text, now: Text, i: nat)
    requires |was| == |now| && i < |was| && now[i] == was[i] + 1 < ALPHABET && now[..i] == was[..i]
    requires forall k :: i < k < |was| ==> was[k] == ALPHABET - 1 && now[k] == 0
    ensures IncrementRun(was, ALPHABET) == Some(now)
  {
    var m := |was| - 1 - i;
    CarryAt(was[..i], was[i], m, ALPHABET);
    assert was == was[..i] + [was[i]] + Run(ALPHABET - 1, m);
    assert now == was[..i] + [was[i] + 1] + Run(0, m);
  }

  /** Every extension by a run below `ds` is taken. */
  ghost predicate TakenBelow(prefix: Text, occupied: set<Text>, ds: Text)
  {
    forall z :: InBase(z, ALPHABET) && |z| == |ds| && Less(z, ds) ==> prefix + z in occupied
  }

  /** Every extension of `prefix` shorter than `target` is taken. */
  ghost predicate TakenShorter(prefix: Text, occupied: set<Text>, target: int)
  {
    forall e :: Extends(e, prefix) && |e| < target ==> e in occupied
  }

  lemma NextRunTaken(prefix: Text, occupied: set<Text>, ds: Text)
    requires InBase(ds, ALPHABET) && TakenBelow(prefix, occupied, ds) && prefix + ds in occupied
    requires IncrementRun(ds, ALPHABET).Some?
    ensures TakenBelow(prefix, occupied, IncrementRun(ds, ALPHABET).value)
  {
    var next := IncrementRun(ds, ALPHABET).value;
    forall z | InBase(z, ALPHABET) && |z| == |next| && Less(z, next) ensures prefix + z in occupied {
      Total(z, ds);
      if Less(ds, z) {
        IncrementRunAdjacent(ds, z, ALPHABET);
        Asymmetric(z, next);
      }
    }
  }

  lemma AllRunsTaken(prefix: Text, occupied: set<Text>, ds: Text)
    requires IsShortID(prefix) && InBase(ds, ALPHABET) && |ds| > 0
    requires TakenBelow(prefix, occupied, ds) && prefix + ds in occupied && IncrementRun(ds, ALPHABET).None?
    requires TakenShorter(prefix, occupied, |prefix| + |ds|)
    ensures TakenShorter(prefix, occupied, |prefix| + |ds| + 1)
  {
    forall e | Extends(e, prefix) && |e| == |prefix| + |ds| ensures e in occupied {
      var z := e[|prefix|..];
      assert e == prefix + z;
      Total(z, ds);
      if Less(ds, z) { IncrementRunAdjacent(ds, z, ALPHABET); }
    }
  }

  /** The nested enumeration: lengths ascending, and at each length an odometer over the alphabet. */
  method Extend(prefix: Text, occupied: set<Text>) returns (r: Result<Text, ExtendError>)
    ensures IsExtension(prefix, occupied, r)
    ensures r == Extension(prefix, occupied)
  {
    r := Enumerate(prefix, occupied);
    ExtensionIsExtension(prefix, occupied);
    ExtensionIsUnique(prefix, occupied, r, Extension(prefix, occupied));
  }

  method Enumerate(prefix: Text, occupied: set<Text>) returns (r: Result<Text, ExtendError>)
    ensures IsExtension(prefix, occupied, r)
  {
    if !IsShortID(prefix) { return Err(IllegalPrefix); }
    var target := |prefix| + 1;
    while target <= SHORT_ID_MAX
      invariant |prefix| < target <= SHORT_ID_MAX + 1
      invariant TakenShorter(prefix, occupied, target)
    {
      var found := EnumerateLength(prefix, occupied, target);
      if found.Some? { return Ok(found.value); }
      target := target + 1;
    }
    return Err(NoFreeId);
  }

  /** The odometer over the alphabet at one length. */
  method EnumerateLength(prefix: Text, occupied: set<Text>, target: int) returns (found: Option<Text>)
    requires IsShortID(prefix) && |prefix| < target <= SHORT_ID_MAX && TakenShorter(prefix, occupied, target)
    ensures found.Some? ==> IsExtension(prefix, occupied, Ok(found.value))
    ensures found.None? ==> TakenShorter(prefix, occupied, target + 1)
  {
    var n := target - |prefix|;
    var odometer := new int[n](_ => 0);
    assert odometer[..] == Run(0, n);
    NothingBelowZeros(prefix, occupied, n);
    var more := true;
    while more
      invariant fresh(odometer) && InBase(odometer[..], ALPHABET)
      invariant more ==> TakenBelow(prefix, occupied, odometer[..])
      invariant !more ==> TakenShorter(prefix, occupied, target + 1)
      decreases more, Pow(ALPHABET, n) - Value(odometer[..], ALPHABET)
    {
      ghost var ds := odometer[..];
      var candidate := prefix + odometer[..];
      if candidate !in occupied {
        FoundIsEarliest(prefix, occupied, ds);
        return Some(candidate);
      }
      OdometerStep(prefix, occupied, ds, target);
      more := IncOdometer(odometer);
    }
    found := None;
  }

  /** What trying one taken candidate establishes about the next, or about the whole length. */
  lemma OdometerStep(prefix: Text, occupied: set<Text>, ds: Text, target: int)
    requires IsShortID(prefix) && InBase(ds, ALPHABET) && |ds| > 0 && target == |prefix| + |ds|
    requires TakenShorter(prefix, occupied, target) && TakenBelow(prefix, occupied, ds) && prefix + ds in occupied
    ensures var next := IncrementRun(ds, ALPHABET);
            && (next.Some? ==>
                  && InBase(next.value, ALPHABET) && TakenBelow(prefix, occupied, next.value)
                  && Value(ds, ALPHABET) < Value(next.value, ALPHABET) < Pow(ALPHABET, |ds|))
            && (next.None? ==> TakenShorter(prefix, occupied, target + 1))
  {
    var next := IncrementRun(ds, ALPHABET);
    if next.Some? {
      NextRunTaken(prefix, occupied, ds);
      IncrementAddsOne(ds, ALPHABET);
      ValueBounded(next.value, ALPHABET);
    } else {
      AllRunsTaken(prefix, occupied, ds);
    }
  }

  lemma NothingBelowZeros(prefix: Text, occupied: set<Text>, n: nat)
    ensures TakenBelow(prefix, occupied, Run(0, n))
  {
    forall z | InBase(z, ALPHABET) && |z| == n ensures !Less(z, Run(0, n)) {
      ZerosAreLeast(z, ALPHABET);
      if z == Run(0, n) { Irreflexive(z); } else { Asymmetric(Run(0, n), z); }
    }
  }

  lemma FoundIsEarliest(prefix: Text, occupied: set<Text>, ds: Text)
    requires IsShortID(prefix) && InBase(ds, ALPHABET) && 0 < |ds| <= SHORT_ID_MAX - |prefix|
    requires TakenBelow(prefix, occupied, ds) && TakenShorter(prefix, occupied, |prefix| + |ds|)
    requires prefix + ds !in occupied
    ensures IsExtension(prefix, occupied, Ok(prefix + ds))
  {
    var c := prefix + ds;
    forall e | Extends(e, prefix) && e !in occupied ensures e == c || Earlier(c, e) {
      if |e| == |c| {
        var z := e[|prefix|..];
        assert e == prefix + z;
        Total(z, ds);
        CommonPrefix(prefix, ds, z);
      }
    }
  }

  // ------------------------------------------- the same answer as a function

  /** The least free extension of `prefix` by `n` characters, the first of them at least `d`. */
  function LeastFree(prefix: Text, occupied: set<Text>, n: nat, d: nat): (r: Option<Text>)
    requires d <= ALPHABET
    decreases n, ALPHABET - d
  {
    if n == 0 then (if prefix in occupied then None else Some(prefix))
    else if d == ALPHABET then None
    else
      var r := LeastFree(prefix + [d], occupied, n - 1, 0);
      if r.Some? then r else LeastFree(prefix, occupied, n, d + 1)
  }

  ghost predicate RunFrom(z: Text, n: nat, d: nat)
  {
    |z| == n && InBase(z, ALPHABET) && (n > 0 ==> z[0] >= d)
  }

  ghost predicate IsLeastFree(prefix: Text, occupied: set<Text>, n: nat, d: nat, r: Option<Text>)
  {
    match r
    case Some(c) =>
      && |prefix| <= |c| && prefix == c[..|prefix|] && RunFrom(c[|prefix|..], n, d) && c !in occupied
      && forall z :: RunFrom(z, n, d) && prefix + z !in occupied ==> LessEq(c, prefix + z)
    case None =>
      forall z :: RunFrom(z, n, d) ==> prefix + z in occupied
  }

  lemma {:induction false} LeastFreeIsLeast(prefix: Text, occupied: set<Text>, n: nat, d: nat)
    requires d <= ALPHABET
    ensures IsLeastFree(prefix, occupied, n, d, LeastFree(prefix, occupied, n, d))
    decreases n, ALPHABET - d
  {
    if n == 0 {
      forall z | RunFrom(z, 0, d) ensures prefix + z == prefix { assert z == []; }
    } else if d < ALPHABET {
      var first := LeastFree(prefix + [d], occupied, n - 1, 0);
      LeastFreeIsLeast(prefix + [d], occupied, n - 1, 0);
      if first.Some? {
        FoundUnderDigit(prefix, occupied, n, d, first.value);
      } else {
        LeastFreeIsLeast(prefix, occupied, n, d + 1);
        NoneUnderDigit(prefix, occupied, n, d, LeastFree(prefix, occupied, n, d + 1));
      }
    }
  }

  lemma FoundUnderDigit(prefix: Text, occupied: set<Text>, n: nat, d: nat, c: Text)
    requires 0 < n && d < ALPHABET && IsLeastFree(prefix + [d], occupied, n - 1, 0, Some(c))
    ensures IsLeastFree(prefix, occupied, n, d, Some(c))
  {
    var rest := c[|prefix| + 1..];
    assert c == prefix + [d] + rest && c[|prefix|..] == [d] + rest;
    forall z | RunFrom(z, n, d) && prefix + z !in occupied ensures LessEq(c, prefix + z) {
      assert prefix + z == prefix + [z[0]] + z[1..];
      if z[0] == d {
        assert RunFrom(z[1..], n - 1, 0);
      } else {
        FirstDifference(prefix, d, rest, z[0], z[1..]);
      }
    }
  }

  lemma NoneUnderDigit(prefix: Text, occupied: set<Text>, n: nat, d: nat, r: Option<Text>)
    requires 0 < n && d < ALPHABET && IsLeastFree(prefix + [d], occupied, n - 1, 0, None)
    requires IsLeastFree(prefix, occupied, n, d + 1, r)
    ensures IsLeastFree(prefix, occupied, n, d, r)
  {
    forall z | RunFrom(z, n, d) && !RunFrom(z, n, d + 1) ensures prefix + z in occupied {
      assert RunFrom(z[1..], n - 1, 0) && prefix + z == prefix + [d] + z[1..];
    }
  }

  /** Lengths ascending from `|prefix| + n`. */
  function FirstFreeLength(prefix: Text, occupied: set<Text>, n: nat): Result<Text, ExtendError>
    decreases SHORT_ID_MAX + 1 - |prefix| - n
  {
    if |prefix| + n > SHORT_ID_MAX then Err(NoFreeId)
    else
      var r := LeastFree(prefix, occupied, n, 0);
      if r.Some? then Ok(r.value) else FirstFreeLength(prefix, occupied, n + 1)
  }

  function Extension(prefix: Text, occupied: set<Text>): Result<Text, ExtendError>
  {
    if IsShortID(prefix) then FirstFreeLength(prefix, occupied, 1) else Err(IllegalPrefix)
  }

  lemma RunOfExtension(prefix: Text, n: nat, e: Text)
    requires Extends(e, prefix) && |e| == |prefix| + n
    ensures RunFrom(e[|prefix|..], n, 0) && e == prefix + e[|prefix|..]
  {
  }

  lemma FoundAtLength(prefix: Text, occupied: set<Text>, n: nat, c: Text)
    requires IsShortID(prefix) && 0 < n && |prefix| + n <= SHORT_ID_MAX && TakenShorter(prefix, occupied, |prefix| + n)
    requires IsLeastFree(prefix, occupied, n, 0, Some(c))
    ensures IsExtension(prefix, occupied, Ok(c))
  {
    forall e | Extends(e, prefix) && e !in occupied ensures e == c || Earlier(c, e) {
      if |e| == |prefix| + n { RunOfExtension(prefix, n, e); }
    }
  }

  lemma NoneAtLength(prefix: Text, occupied: set<Text>, n: nat)
    requires TakenShorter(prefix, occupied, |prefix| + n) && IsLeastFree(prefix, occupied, n, 0, None)
    ensures TakenShorter(prefix, occupied, |prefix| + n + 1)
  {
    forall e | Extends(e, prefix) && |e| == |prefix| + n ensures e in occupied { RunOfExtension(prefix, n, e); }
  }

  lemma {:induction false} FirstFreeLengthIsExtension(prefix: Text, occupied: set<Text>, n: nat)
    requires IsShortID(prefix) && 0 < n && TakenShorter(prefix, occupied, |prefix| + n)
    ensures IsExtension(prefix, occupied, FirstFreeLength(prefix, occupied, n))
    decreases SHORT_ID_MAX + 1 - |prefix| - n
  {
    if |prefix| + n <= SHORT_ID_MAX {
      LeastFreeIsLeast(prefix, occupied, n, 0);
      var r := LeastFree(prefix, occupied, n, 0);
      if r.Some? {
        FoundAtLength(prefix, occupied, n, r.value);
      } else {
        NoneAtLength(prefix, occupied, n);
        FirstFreeLengthIsExtension(prefix, occupied, n + 1);
      }
    }
  }

  lemma ExtensionIsExtension(prefix: Text, occupied: set<Text>)
    ensures IsExtension(prefix, occupied, Extension(prefix, occupied))
  {
    if IsShortID(prefix) { FirstFreeLengthIsExtension(prefix, occupied, 1); }
  }
}
