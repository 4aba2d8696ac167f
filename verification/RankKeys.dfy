/** Fractional rank keys: variable-length signed integer parts with a base-62 fraction.
    A key is written in digit coordinates: digit d stands for the d-th character of the
    62-character alphabet, so a head character is a digit of at least 10, and any other
    number stands for a byte outside the alphabet. */
module RankKeys {
  import opened Lex
  import opened Numerals
  import opened Results

  const BASE := 62
  /** Digit of 'A', the first head. */
  const FIRST_HEAD := 10
  /** Digit of 'a', the first positive head. */
  const ZERO_HEAD := 36

  type Key = Text

  datatype KeyError = InvalidKey | EqualKeys | UnorderedBounds | Exhausted

  // ---------------------------------------------------------------- grammar

  predicate Digits(s: Text)
  {
    InBase(s, BASE)
  }

  /** Number of digits in an integer part, its head included. */
  function IntegerLength(head: int): (n: Option<nat>)
    ensures n.Some? <==> FIRST_HEAD <= head < BASE
    ensures n.Some? ==> 2 <= n.value <= 27
  {
    if head < FIRST_HEAD || BASE <= head then None
    else if head < ZERO_HEAD then Some(37 - head)
    else Some(head - 34)
  }

  const INTEGER_ZERO: Key := [ZERO_HEAD, 0]
  const SMALLEST: Key := [FIRST_HEAD] + Run(0, 26)
  const GREATEST: Key := [BASE - 1] + Run(BASE - 1, 26)

  predicate IntegerPart(x: Text)
  {
    x != [] && Digits(x) && IntegerLength(x[0]) == Some(|x|)
  }

  predicate Fraction(f: Text)
  {
    Digits(f) && (f != [] ==> f[|f| - 1] != 0)
  }

  /** The stored grammar: an integer part followed by a fraction with no trailing zero. */
  predicate IsKey(key: Text)
  {
    key != [] && IntegerLength(key[0]).Some? &&
    var n := IntegerLength(key[0]).value;
    n <= |key| && IntegerPart(key[..n]) && Fraction(key[n..])
  }

  function IntOf(key: Key): (x: Text)
    requires IsKey(key)
    ensures IntegerPart(x)
  {
    key[..IntegerLength(key[0]).value]
  }

  function FracOf(key: Key): (f: Text)
    requires IsKey(key)
    ensures Fraction(f)
    ensures key == IntOf(key) + f
  {
    key[IntegerLength(key[0]).value..]
  }

  lemma Assemble(x: Text, f: Text)
    requires IntegerPart(x) && Fraction(f)
    ensures IsKey(x + f) && IntOf(x + f) == x && FracOf(x + f) == f
  {
    assert (x + f)[0] == x[0] && (x + f)[..|x|] == x && (x + f)[|x|..] == f;
  }

  lemma KeyDigits(key: Text)
    ensures IsKey(key) ==> Digits(key)
  {
    if IsKey(key) {
      var n := IntegerLength(key[0]).value;
      forall i | 0 <= i < |key| ensures 0 <= key[i] < BASE {
        assert if i < n then key[i] == key[..n][i] else key[i] == key[n..][i - n];
      }
    }
  }

  method Valid(key: Text) returns (ok: bool)
    ensures ok <==> IsKey(key)
  {
    KeyDigits(key);
    if key == [] { return false; }
    var i := 0;
    while i < |key|
      invariant 0 <= i <= |key|
      invariant Digits(key[..i])
    {
      if key[i] < 0 || BASE <= key[i] {
        return false;
      }
      assert key[..i + 1] == key[..i] + [key[i]];
      i := i + 1;
    }
    assert key[..i] == key;
    var intLen := IntegerLength(key[0]);
    if intLen.None? || intLen.value > |key| { return false; }
    var frac := key[intLen.value..];
    assert Digits(frac) && Digits(key[..intLen.value]);
    if |frac| > 0 && frac[|frac| - 1] == 0 { return false; }
    return true;
  }

  // ------------------------------------------------- integer parts in order

  /** The next integer part: carry, or move to the least part under the next head. */
  function Increment(x: Text): (r: Option<Text>)
    requires IntegerPart(x)
  {
    var run := IncrementRun(x[1..], BASE);
    if run.Some? then Some([x[0]] + run.value)
    else if x[0] == BASE - 1 then None
    else Some([x[0] + 1] + Run(0, IntegerLength(x[0] + 1).value - 1))
  }

  /** The previous integer part: borrow, or move to the greatest part under the previous head. */
  function Decrement(x: Text): (r: Option<Text>)
    requires IntegerPart(x)
  {
    var run := DecrementRun(x[1..], BASE);
    if run.Some? then Some([x[0]] + run.value)
    else if x[0] == FIRST_HEAD then None
    else Some([x[0] - 1] + Run(BASE - 1, IntegerLength(x[0] - 1).value - 1))
  }

  /** Two different integer parts already differ inside both of them, so whatever
      fractions follow cannot change their order. */
  lemma IntegerPartsDecide(x: Text, f: Text, y: Text, g: Text)
    requires IntegerPart(x) && IntegerPart(y) && Less(x, y)
    ensures Less(x + f, y + g)
  {
    if x[0] == y[0] {
      SameLengthDecides(x, f, y, g);
    }
  }

  lemma {:induction false} SameLengthDecides(x: Text, f: Text, y: Text, g: Text)
    requires |x| == |y| && Less(x, y)
    ensures Less(x + f, y + g)
  {
    assert (x + f)[1..] == x[1..] + f && (y + g)[1..] == y[1..] + g;
    if x[0] == y[0] {
      SameLengthDecides(x[1..], f, y[1..], g);
    }
  }

  /** Neighbouring integer parts, one step of Increment and Decrement apart. */
  ghost predicate StepUp(x: Text, y: Text)
  {
    && IntegerPart(x) && IntegerPart(y) && Less(x, y) && |y| <= |x| + 1 && |x| <= |y| + 1
    && Increment(x) == Some(y) && Decrement(y) == Some(x)
  }

  /** A carry that stays under one head. */
  lemma StepWithinHead(h: int, ds: Text, es: Text)
    requires IntegerPart([h] + ds) && IntegerPart([h] + es) && Less(ds, es)
    requires IncrementRun(ds, BASE) == Some(es) && DecrementRun(es, BASE) == Some(ds)
    ensures StepUp([h] + ds, [h] + es)
  {
    assert ([h] + ds)[1..] == ds && ([h] + es)[1..] == es;
  }

  /** A carry from the last part under one head to the first part under the next. */
  lemma StepAcrossHeads(h: int)
    requires FIRST_HEAD <= h < BASE - 1
    ensures StepUp([h] + Run(BASE - 1, IntegerLength(h).value - 1), [h + 1] + Run(0, IntegerLength(h + 1).value - 1))
  {
    var (m, n) := (IntegerLength(h).value - 1, IntegerLength(h + 1).value - 1);
    var (x, y) := ([h] + Run(BASE - 1, m), [h + 1] + Run(0, n));
    assert x[1..] == Run(BASE - 1, m) && y[1..] == Run(0, n);
    IncrementNines(m, BASE);
    DecrementZeros(n, BASE);
  }

  /** Increment is the order successor over all integer parts and fails at the greatest only. */
  lemma IncrementIsSuccessor(x: Text)
    requires IntegerPart(x)
    ensures Increment(x).None? <==> x == GREATEST
    ensures Increment(x).Some? ==> StepUp(x, Increment(x).value)
  {
    var ds := x[1..];
    IncrementRunIsLeastAbove(ds, BASE);
    assert x == [x[0]] + ds && GREATEST[1..] == Run(BASE - 1, 26);
    if IncrementRun(ds, BASE).Some? {
      StepWithinHead(x[0], ds, IncrementRun(ds, BASE).value);
      IncrementNines(26, BASE);
    } else if x[0] != BASE - 1 {
      StepAcrossHeads(x[0]);
    } else {
      assert x == GREATEST;
    }
  }

  lemma DecrementWithinHead(x: Text, es: Text)
    requires IntegerPart(x) && DecrementRun(x[1..], BASE) == Some(es)
    ensures Decrement(x) == Some([x[0]] + es) && StepUp([x[0]] + es, x) && x != SMALLEST
  {
    var ds := x[1..];
    DecrementRunUndone(ds, BASE);
    IncrementRunIsLeastAbove(es, BASE);
    assert x == [x[0]] + ds;
    StepWithinHead(x[0], es, ds);
    DecrementZeros(26, BASE);
    assert SMALLEST[1..] == Run(0, 26);
  }

  /** Decrement is the order predecessor and fails at the smallest only. */
  lemma DecrementIsPredecessor(x: Text)
    requires IntegerPart(x)
    ensures Decrement(x).None? <==> x == SMALLEST
    ensures Decrement(x).Some? ==> StepUp(Decrement(x).value, x)
  {
    var ds := x[1..];
    if DecrementRun(ds, BASE).Some? {
      DecrementWithinHead(x, DecrementRun(ds, BASE).value);
    } else {
      DecrementRunUndone(ds, BASE);
      assert x == [x[0]] + ds && SMALLEST[1..] == Run(0, 26);
      if x[0] != FIRST_HEAD {
        StepAcrossHeads(x[0] - 1);
      } else {
        assert x == SMALLEST;
      }
    }
  }

  /** No integer part lies strictly between a part and its increment. */
  lemma IncrementAdjacent(x: Text, z: Text)
    requires IntegerPart(x) && IntegerPart(z) && Less(x, z)
    ensures Increment(x).Some? && LessEq(Increment(x).value, z)
  {
    assert x == [x[0]] + x[1..] && z == [z[0]] + z[1..];
    if x[0] == z[0] {
      IncrementRunAdjacent(x[1..], z[1..], BASE);
    } else if IncrementRun(x[1..], BASE).None? {
      ZerosAreLeast(z[1..], BASE);
    }
  }

  /** Increment and Decrement are mutual inverses, and the pair is exactly adjacency in string order. */
  lemma AdjacentBothWays(x: Text, y: Text)
    requires IntegerPart(x) && IntegerPart(y)
    ensures Increment(x) == Some(y) <==> Decrement(y) == Some(x)
    ensures Increment(x) == Some(y) <==>
            Less(x, y) && forall z :: IntegerPart(z) && Less(x, z) ==> LessEq(y, z)
  {
    IncrementIsSuccessor(x);
    DecrementIsPredecessor(y);
    if Increment(x) == Some(y) {
      forall z | IntegerPart(z) && Less(x, z) ensures LessEq(y, z) {
        IncrementAdjacent(x, z);
      }
    } else if Less(x, y) {
      IncrementAdjacent(x, y);
      var inc := Increment(x).value;
      assert IntegerPart(inc) && Less(x, inc) && Less(inc, y);
      Asymmetric(inc, y);
    }
  }

  // ---------------------------------------------- the alphabet is ascending

  /** The ASCII byte of a digit: '0'-'9', then 'A'-'Z', then 'a'-'z'. */
  function Ascii(d: int): int
  {
    if d < 10 then 48 + d else if d < ZERO_HEAD then 55 + d else 61 + d
  }

  /** The alphabet: `0` to `9`, `A` to `Z`, `a` to `z`. */
  lemma AlphabetIs(d: int)
    ensures 0 <= d < 10 ==> Ascii(d) == '0' as int + d && '0' as int <= Ascii(d) <= '9' as int
    ensures 10 <= d < 36 ==> Ascii(d) == 'A' as int + (d - 10) && 'A' as int <= Ascii(d) <= 'Z' as int
    ensures 36 <= d < BASE ==> Ascii(d) == 'a' as int + (d - 36) && 'a' as int <= Ascii(d) <= 'z' as int
  {
  }

  function Encode(s: Text): Text
  {
    seq(|s|, i requires 0 <= i < |s| => Ascii(s[i]))
  }

  /** Byte order of the stored strings is digit order. */
  lemma {:induction false} EncodingKeepsOrder(a: Text, b: Text)
    requires Digits(a) && Digits(b)
    ensures Less(Encode(a), Encode(b)) <==> Less(a, b)
  {
    if a != [] && b != [] && a[0] == b[0] {
      EncodingKeepsOrder(a[1..], b[1..]);
      assert Encode(a)[1..] == Encode(a[1..]) && Encode(b)[1..] == Encode(b[1..]);
    }
  }

  // -------------------------------------------- carry and borrow as loops

  /** Grows or shrinks a carried run of one digit to the length the new head asks for. */
  function WidenHead(newHead: int, oldHead: int, trailing: Text, pad: int): (x: Text)
    requires FIRST_HEAD <= newHead < BASE && FIRST_HEAD <= oldHead < BASE
    requires newHead == oldHead + 1 || newHead == oldHead - 1
    requires |trailing| == IntegerLength(oldHead).value - 1 && trailing == Run(pad, |trailing|)
    ensures x == [newHead] + Run(pad, IntegerLength(newHead).value - 1)
  {
    var delta := IntegerLength(newHead).value - IntegerLength(oldHead).value;
    if delta > 0 then [newHead] + trailing + [pad]
    else if delta < 0 then [newHead] + trailing[1..]
    else [newHead] + trailing
  }

  /** The digits around position `i`. */
  lemma SplitAt(x: Text, i: nat, d: int, trailing: Text)
    requires 1 <= i < |x|
    ensures x[1..] == x[1..i] + [x[i]] + x[i + 1..]
    ensures [x[0]] + (x[1..i] + [d] + trailing) == [x[0]] + x[1..i] + [d] + trailing
  {
  }

  lemma RunCons(d: int, n: nat)
    ensures [d] + Run(d, n) == Run(d, n + 1)
  {
    var (a, b) := ([d] + Run(d, n), Run(d, n + 1));
    forall k | 0 <= k < n + 1 ensures a[k] == b[k] {}
  }

  lemma OneMoreDigit(x: Text, i: nat, d: int)
    requires i < |x| && x[i] == d && x[i + 1..] == Run(d, |x| - 1 - i)
    ensures x[i..] == Run(d, |x| - i)
  {
    assert x[i..] == [x[i]] + x[i + 1..];
    RunCons(d, |x| - 1 - i);
  }

  /** The carry loop, right to left, computes the successor. */
  method IncrementInteger(x: Text) returns (r: Option<Text>)
    requires IntegerPart(x)
    ensures r == Increment(x)
  {
    var head, trailing := x[0], [];
    var i := |x| - 1;
    while i >= 1
      invariant 0 <= i < |x|
      invariant trailing == Run(0, |x| - 1 - i)
      invariant x[i + 1..] == Run(BASE - 1, |x| - 1 - i)
    {
      var d := x[i] + 1;
      if d != BASE {
        CarryAt(x[1..i], x[i], |x| - 1 - i, BASE);
        SplitAt(x, i, d, trailing);
        return Some([head] + x[1..i] + [d] + trailing);
      }
      trailing := [0] + trailing;
      OneMoreDigit(x, i, BASE - 1);
      RunCons(0, |x| - 1 - i);
      i := i - 1;
    }
    assert x[1..] == Run(BASE - 1, |x| - 1);
    IncrementNines(|x| - 1, BASE);
    if head == BASE - 1 { return None; }
    return Some(WidenHead(head + 1, head, trailing, 0));
  }

  /** The borrow loop computes the predecessor. */
  method DecrementInteger(x: Text) returns (r: Option<Text>)
    requires IntegerPart(x)
    ensures r == Decrement(x)
  {
    var head, trailing := x[0], [];
    var i := |x| - 1;
    while i >= 1
      invariant 0 <= i < |x|
      invariant trailing == Run(BASE - 1, |x| - 1 - i)
      invariant x[i + 1..] == Run(0, |x| - 1 - i)
    {
      var d := x[i] - 1;
      if d >= 0 {
        BorrowAt(x[1..i], x[i], |x| - 1 - i, BASE);
        SplitAt(x, i, d, trailing);
        return Some([head] + x[1..i] + [d] + trailing);
      }
      trailing := [BASE - 1] + trailing;
      OneMoreDigit(x, i, 0);
      RunCons(BASE - 1, |x| - 1 - i);
      i := i - 1;
    }
    assert x[1..] == Run(0, |x| - 1);
    DecrementZeros(|x| - 1, BASE);
    if head == FIRST_HEAD { return None; }
    return Some(WidenHead(head - 1, head, trailing, BASE - 1));
  }

  // --------------------------------------------------------------- midpoint

  function SliceFrom(s: Text, n: nat): Text
  {
    if n >= |s| then [] else s[n..]
  }

  ghost predicate Gap(a: Text, b: Text)
  {
    Fraction(a) && Fraction(b) && (b != [] ==> Less(a, b))
  }

  function DigitAt(a: Text, n: nat): int
  {
    if n < |a| then a[n] else 0
  }

  /** Dropping a shared leading digit keeps a gap open. */
  lemma GapStep(a: Text, b: Text)
    requires Gap(a, b) && b != [] && DigitAt(a, 0) == b[0]
    ensures b[1..] != [] && Gap(SliceFrom(a, 1), b[1..])
  {
    if a != [] {
      assert Less(a[1..], b[1..]);
    }
  }

  /** A fraction strictly between `a` and `b`, one digit at a time; an empty `b` is an open bound. */
  function Midpoint(a: Text, b: Text): (m: Text)
    requires Gap(a, b)
    decreases |a| + |b|
  {
    var digitA := DigitAt(a, 0);
    if b != [] && digitA == b[0] then
      GapStep(a, b);
      [digitA] + Midpoint(SliceFrom(a, 1), b[1..])
    else
      var digitB := if b == [] then BASE else b[0];
      if digitB - digitA > 1 then [(digitA + digitB + 1) / 2]
      else if |b| > 1 then b[..1]
      else [digitA] + Midpoint(SliceFrom(a, 1), [])
  }

  /** What `Midpoint` must deliver: a non-empty fraction inside the gap, at most one digit longer than the bounds. */
  ghost predicate Inside(a: Text, m: Text, b: Text)
  {
    && Fraction(m) && m != [] && Less(a, m) && (b != [] ==> Less(m, b))
    && |m| <= 1 + if |a| < |b| then |b| else |a|
  }

  /** A common leading digit, or a leading digit already below `b`, leaves the rest to decide. */
  lemma InsideUnderDigit(a: Text, d: int, t: Text, b: Text)
    requires Gap(a, b) && d == DigitAt(a, 0) && 0 <= d < BASE
    requires (b != [] && b[0] == d && Inside(SliceFrom(a, 1), t, b[1..]) && b[1..] != [])
          || ((b == [] ==> a != []) && (b != [] ==> d < b[0]) && Inside(SliceFrom(a, 1), t, []))
    ensures Inside(a, [d] + t, b)
  {
    var m := [d] + t;
    assert m[1..] == t && m[|m| - 1] == t[|t| - 1];
    assert Digits(m);
    assert Less(a, m);
  }

  lemma {:induction false} MidpointBetween(a: Text, b: Text)
    requires Gap(a, b)
    ensures Inside(a, Midpoint(a, b), b)
    decreases |a| + |b|
  {
    var digitA := DigitAt(a, 0);
    var digitB := if b == [] then BASE else b[0];
    if b != [] && digitA == b[0] {
      GapStep(a, b);
      MidpointBetween(SliceFrom(a, 1), b[1..]);
      InsideUnderDigit(a, digitA, Midpoint(SliceFrom(a, 1), b[1..]), b);
    } else if digitB - digitA > 1 {
    } else if |b| > 1 {
    } else {
      MidpointBetween(SliceFrom(a, 1), []);
      InsideUnderDigit(a, digitA, Midpoint(SliceFrom(a, 1), []), b);
    }
  }

  /** One more shared digit moves from the gap to the result. */
  lemma SkipOne(a: Text, b: Text, n: nat)
    requires n < |b| && Gap(SliceFrom(a, n), b[n..]) && DigitAt(a, n) == b[n]
    ensures n + 1 < |b| && Gap(SliceFrom(a, n + 1), b[n + 1..])
    ensures Midpoint(SliceFrom(a, n), b[n..]) == [b[n]] + Midpoint(SliceFrom(a, n + 1), b[n + 1..])
  {
    GapStep(SliceFrom(a, n), b[n..]);
    assert SliceFrom(SliceFrom(a, n), 1) == SliceFrom(a, n + 1) && b[n..][1..] == b[n + 1..];
  }

  ghost predicate Shared(a: Text, b: Text, n: nat)
  {
    n <= |b| && forall i :: 0 <= i < n ==> DigitAt(a, i) == b[i]
  }

  /** The midpoint is the first `n` digits of `b` followed by the midpoint of what is left. */
  ghost predicate Skips(a: Text, b: Text, n: nat)
    requires Gap(a, b)
  {
    n < |b| && Gap(SliceFrom(a, n), b[n..]) && Midpoint(a, b) == b[..n] + Midpoint(SliceFrom(a, n), b[n..])
  }

  lemma SkipsOneMore(a: Text, b: Text, n: nat)
    requires Gap(a, b) && Skips(a, b, n) && DigitAt(a, n) == b[n]
    ensures Skips(a, b, n + 1)
  {
    SkipOne(a, b, n);
    MoveDigit(b, n, Midpoint(SliceFrom(a, n + 1), b[n + 1..]));
  }

  lemma MoveDigit(b: Text, n: nat, m: Text)
    requires n < |b|
    ensures b[..n] + ([b[n]] + m) == b[..n + 1] + m
  {
  }

  /** Skipping `n` shared digits at once is `n` single steps, and never uses up `b`. */
  lemma {:induction false} MidpointSkips(a: Text, b: Text, n: nat)
    requires Gap(a, b) && b != [] && Shared(a, b, n)
    ensures Skips(a, b, n)
  {
    if n == 0 {
      assert SliceFrom(a, 0) == a && b[0..] == b && b[..0] == [];
    } else {
      MidpointSkips(a, b, n - 1);
      SkipsOneMore(a, b, n - 1);
    }
  }

  /** The recursion as written, which counts all the shared digits in a loop before it splits. */
  method MidpointFraction(a: Text, b: Text) returns (m: Text)
    requires Gap(a, b)
    ensures m == Midpoint(a, b)
    decreases |a| + |b|
  {
    if b != [] {
      var n := 0;
      while n < |b| && DigitAt(a, n) == b[n]
        invariant Shared(a, b, n)
      {
        n := n + 1;
      }
      MidpointSkips(a, b, n);
      if n > 0 {
        m := MidpointFraction(SliceFrom(a, n), b[n..]);
        return b[..n] + m;
      }
      assert DigitAt(a, 0) != b[0];
    }
    var digitA := DigitAt(a, 0);
    var digitB := if b == [] then BASE else b[0];
    if digitB - digitA > 1 {
      return [(digitA + digitB + 1) / 2];
    }
    if |b| > 1 {
      return b[..1];
    }
    m := MidpointFraction(SliceFrom(a, 1), []);
    return [digitA] + m;
  }

  // ------------------------------------------------------------- KeyBetween


  /** `SMALLEST` is a legal stored key with nothing before it, so it is refused as a bound. */
  function ValidateBound(key: Text): (e: Option<KeyError>)
    ensures e.None? <==> IsKey(key) && key != SMALLEST
    ensures e == Some(Exhausted) <==> key == SMALLEST
  {
    if !IsKey(key) then Some(InvalidKey)
    else if key == SMALLEST then Some(Exhausted)
    else None
  }

  /** The new key between two bounds; an empty bound is open. */
  function KeyBetween(left: Text, right: Text): (r: Result<Key, KeyError>)
  {
    if left != [] && ValidateBound(left).Some? then Err(ValidateBound(left).value)
    else if right != [] && ValidateBound(right).Some? then Err(ValidateBound(right).value)
    else if left != [] && left == right then Err(EqualKeys)
    else if left != [] && right != [] && Less(right, left) then Err(UnorderedBounds)
    else if left == [] && right == [] then Ok(INTEGER_ZERO)
    else if left == [] then
      var (ib, fb) := (IntOf(right), FracOf(right));
      if ib == SMALLEST then Ok(ib + Midpoint([], fb))
      else if Less(ib, right) then Ok(ib)
      else
        var dec := Decrement(ib);
        if dec.None? then Err(Exhausted) else Ok(dec.value)
    else if right == [] then
      var (ia, fa) := (IntOf(left), FracOf(left));
      var inc := Increment(ia);
      if inc.None? then Ok(ia + Midpoint(fa, [])) else Ok(inc.value)
    else
      var (ia, fa, ib, fb) := (IntOf(left), FracOf(left), IntOf(right), FracOf(right));
      if ia == ib then
        FractionGap(left, right);
        Ok(ia + Midpoint(fa, fb))
      else
        var inc := Increment(ia);
        if inc.None? then Err(Exhausted)
        else if Less(inc.value, right) then Ok(inc.value)
        else Ok(ia + Midpoint(fa, []))
  }

  lemma FractionGap(left: Key, right: Key)
    requires IsKey(left) && IsKey(right) && left != right && !Less(right, left) && IntOf(left) == IntOf(right)
    ensures Gap(FracOf(left), FracOf(right)) && FracOf(right) != []
  {
    Total(left, right);
    CommonPrefix(IntOf(left), FracOf(left), FracOf(right));
  }

  ghost predicate UsableBound(key: Text)
  {
    key == [] || (IsKey(key) && key != SMALLEST)
  }

  ghost predicate StrictlyBetween(left: Text, k: Text, right: Text)
  {
    (left != [] ==> Less(left, k)) && (right != [] ==> Less(k, right))
  }

  ghost predicate ShortEnough(left: Text, k: Text, right: Text)
  {
    |k| <= 2 || |k| <= |left| + 1 || |k| <= |right| + 1
  }

  lemma BelowRight(right: Key)
    requires IsKey(right) && right != SMALLEST
    ensures var r := KeyBetween([], right);
            r.Ok? && IsKey(r.value) && Less(r.value, right) && |r.value| <= |right| + 1
    ensures KeyBetween([], right).value == SMALLEST <==> right == Increment(SMALLEST).value
  {
    var (ib, fb) := (IntOf(right), FracOf(right));
    Assemble(ib, []);
    assert ib + [] == ib;
    IncrementIsSuccessor(SMALLEST);
    DecrementIsPredecessor(ib);
    Irreflexive(ib);
    if ib == SMALLEST {
      MidpointBetween([], fb);
      Assemble(ib, Midpoint([], fb));
      CommonPrefix(ib, Midpoint([], fb), fb);
    } else if fb == [] {
      Assemble(Decrement(ib).value, []);
      assert Decrement(ib).value + [] == Decrement(ib).value;
    } else {
      PrefixFirst(ib, fb);
    }
  }

  lemma AboveLeft(left: Key)
    requires IsKey(left) && left != SMALLEST
    ensures var r := KeyBetween(left, []);
            r.Ok? && IsKey(r.value) && Less(left, r.value) && |r.value| <= |left| + 1
    ensures IntOf(left) != GREATEST ==> FracOf(KeyBetween(left, []).value) == []
  {
    var (ia, fa) := (IntOf(left), FracOf(left));
    IncrementIsSuccessor(ia);
    if Increment(ia).None? {
      MidpointBetween(fa, []);
      Assemble(ia, Midpoint(fa, []));
      CommonPrefix(ia, fa, Midpoint(fa, []));
    } else {
      var inc := Increment(ia).value;
      IntegerPartsDecide(ia, fa, inc, []);
      Assemble(inc, []);
      assert inc + [] == inc;
    }
  }

  ghost predicate BetweenWell(left: Key, right: Key, r: Result<Key, KeyError>)
  {
    r.Ok? && IsKey(r.value) && StrictlyBetween(left, r.value, right) && ShortEnough(left, r.value, right)
  }

  lemma BetweenInOneInteger(left: Key, right: Key)
    requires IsKey(left) && left != SMALLEST && IsKey(right) && right != SMALLEST && Less(left, right)
    requires IntOf(left) == IntOf(right)
    ensures BetweenWell(left, right, KeyBetween(left, right))
  {
    Asymmetric(left, right);
    var (ia, fa, fb) := (IntOf(left), FracOf(left), FracOf(right));
    FractionGap(left, right);
    var m := Midpoint(fa, fb);
    MidpointBetween(fa, fb);
    Assemble(ia, m);
    CommonPrefix(ia, fa, m);
    CommonPrefix(ia, m, fb);
  }

  lemma IntegersInOrder(left: Key, right: Key)
    requires IsKey(left) && IsKey(right) && Less(left, right) && IntOf(left) != IntOf(right)
    ensures Less(IntOf(left), IntOf(right))
  {
    Asymmetric(left, right);
    Total(IntOf(left), IntOf(right));
    if Less(IntOf(right), IntOf(left)) { IntegerPartsDecide(IntOf(right), FracOf(right), IntOf(left), FracOf(left)); }
  }

  lemma BetweenIntegers(left: Key, right: Key)
    requires IsKey(left) && left != SMALLEST && IsKey(right) && right != SMALLEST && Less(left, right)
    requires Less(IntOf(left), IntOf(right))
    ensures BetweenWell(left, right, KeyBetween(left, right))
  {
    Asymmetric(left, right);
    var (ia, fa, ib, fb) := (IntOf(left), FracOf(left), IntOf(right), FracOf(right));
    Asymmetric(ia, ib);
    IncrementAdjacent(ia, ib);
    IncrementIsSuccessor(ia);
    var inc := Increment(ia).value;
    IntegerPartsDecide(ia, fa, inc, []);
    Assemble(inc, []);
    assert inc + [] == inc;
    if !Less(inc, right) {
      var m := Midpoint(fa, []);
      MidpointBetween(fa, []);
      Assemble(ia, m);
      CommonPrefix(ia, fa, m);
      IntegerPartsDecide(ia, m, ib, fb);
    }
  }

  lemma BetweenBoth(left: Key, right: Key)
    requires IsKey(left) && left != SMALLEST && IsKey(right) && right != SMALLEST && Less(left, right)
    ensures BetweenWell(left, right, KeyBetween(left, right))
  {
    if IntOf(left) == IntOf(right) {
      BetweenInOneInteger(left, right);
    } else {
      IntegersInOrder(left, right);
      BetweenIntegers(left, right);
    }
  }

  /** The contract of `KeyBetween` over all inputs: it answers exactly when both bounds are
      usable and in order, the answer is a valid key strictly between them and at most one
      digit longer than the longer bound, and every error names what is wrong with the bounds. */
  lemma KeyBetweenIsCorrect(left: Text, right: Text)
    ensures var r := KeyBetween(left, right);
            && (r.Ok? <==> UsableBound(left) && UsableBound(right) && (left != [] && right != [] ==> Less(left, right)))
            && (r.Ok? ==> IsKey(r.value) && StrictlyBetween(left, r.value, right) && ShortEnough(left, r.value, right))
            && (r == Err(Exhausted) ==> left == SMALLEST || right == SMALLEST)
            && (r == Err(InvalidKey) ==> (left != [] && !IsKey(left)) || (right != [] && !IsKey(right)))
            && (r == Err(EqualKeys) ==> left == right && left != [])
            && (r == Err(UnorderedBounds) ==> Less(right, left) && right != [])
  {
    if UsableBound(left) && UsableBound(right) {
      if left == [] && right == [] {
        Assemble(INTEGER_ZERO, []);
        assert INTEGER_ZERO + [] == INTEGER_ZERO;
      } else if left == [] {
        BelowRight(right);
      } else if right == [] {
        AboveLeft(left);
      } else {
        Total(left, right);
        Irreflexive(left);
        if Less(left, right) {
          Asymmetric(left, right);
          BetweenBoth(left, right);
        } else if Less(right, left) {
          Asymmetric(right, left);
        }
      }
    }
  }

  /** A minted key is `SMALLEST`, and so unusable as a bound, in one situation only. */
  lemma MintsSmallestOnlyBelowItsSuccessor(left: Text, right: Text)
    requires KeyBetween(left, right).Ok?
    ensures KeyBetween(left, right).value == SMALLEST <==> left == [] && right == Increment(SMALLEST).value
  {
    KeyBetweenIsCorrect(left, right);
    if left == [] {
      if right != [] { BelowRight(right); }
    } else {
      SmallestIsLeast(left);
    }
  }

  lemma SmallestIsLeast(key: Key)
    requires IsKey(key)
    ensures key == SMALLEST || Less(SMALLEST, key)
    ensures !Less(key, SMALLEST)
  {
    var (x, f) := (IntOf(key), FracOf(key));
    assert SMALLEST[1..] == Run(0, 26);
    if x[0] == FIRST_HEAD {
      ZerosAreLeast(x[1..], BASE);
      assert x == [x[0]] + x[1..];
      if x != SMALLEST {
        SameLengthDecides(SMALLEST, [], x, f);
        assert SMALLEST + [] == SMALLEST;
      } else if f != [] {
        PrefixFirst(x, f);
      }
    }
    Irreflexive(key);
    if Less(SMALLEST, key) { Asymmetric(SMALLEST, key); }
  }
}
