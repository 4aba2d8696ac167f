/** Which of the keys between two bounds is minted: an integer part where there is one, else the shortest fraction,
    halfway in its last digit. */
module KeyChoice {
  import opened Lex
  import opened Results
  import opened RankKeys

  // ------------------------------------------------------------ fractions

  /** `f` is a fraction strictly inside the gap. */
  ghost predicate InGap(a: Text, f: Text, b: Text)
  {
    Fraction(f) && f != [] && Less(a, f) && (b != [] ==> Less(f, b))
  }

  ghost predicate Shortest(a: Text, m: Text, b: Text)
  {
    forall f :: InGap(a, f, b) ==> |m| <= |f|
  }

  /** The digit that the upper bound allows next after these digits. */
  function DigitBound(b: Text, front: Text): int
  {
    if front < b then b[|front|] else BASE
  }

  /** All digits but the last are those of `a`, and the last is halfway between the next digits of the bounds, rounded
      up; or these are neighbours, and it is the upper one, of a bound that goes on. */
  ghost predicate Halfway(a: Text, m: Text, b: Text)
  {
    m != [] &&
    var n := |m| - 1;
    var (x, y, d) := (DigitAt(a, n), DigitBound(b, m[..n]), m[n]);
    && (forall i :: 0 <= i < n ==> m[i] == DigitAt(a, i))
    && if y - x > 1 then x + y <= 2 * d <= x + y + 1 else d == y == x + 1 && m < b
  }

  lemma TailInGap(a: Text, f: Text, b: Text)
    requires Gap(a, b) && InGap(a, f, b) && f[0] == DigitAt(a, 0)
    ensures f[1..] != [] && Less(SliceFrom(a, 1), f[1..])
  {
    if a != [] { assert Less(a[1..], f[1..]); }
  }

  lemma FirstDigit(a: Text, f: Text, b: Text, d: int)
    requires Gap(a, b) && InGap(a, f, b) && d == DigitAt(a, 0)
    requires if b == [] then d == BASE - 1 else b[0] == d || b == [d + 1]
    ensures f[0] == d
  {
    assert d <= f[0] < BASE;
    if b != [] && f[0] == b[0] { assert Less(f[1..], b[1..]); }
  }

  lemma ShortestUnderDigit(a: Text, t: Text, b: Text, c: Text, d: int)
    requires Gap(a, b) && d == DigitAt(a, 0) && Shortest(SliceFrom(a, 1), t, c)
    requires (b != [] && b[0] == d && c == b[1..] && c != [])
          || (c == [] && if b == [] then d == BASE - 1 else b == [d + 1])
    ensures Shortest(a, [d] + t, b)
  {
    forall f | InGap(a, f, b) ensures |t| + 1 <= |f| {
      FirstDigit(a, f, b, d);
      TailInGap(a, f, b);
      assert f[1..][|f| - 2] == f[|f| - 1];
      assert InGap(SliceFrom(a, 1), f[1..], c);
    }
  }

  lemma {:induction false} MidpointIsShortest(a: Text, b: Text)
    requires Gap(a, b)
    ensures Shortest(a, Midpoint(a, b), b)
    decreases |a| + |b|
  {
    var digitA := DigitAt(a, 0);
    var digitB := if b == [] then BASE else b[0];
    if b != [] && digitA == b[0] {
      GapStep(a, b);
      MidpointIsShortest(SliceFrom(a, 1), b[1..]);
      ShortestUnderDigit(a, Midpoint(SliceFrom(a, 1), b[1..]), b, b[1..], digitA);
    } else if digitB - digitA > 1 {
    } else if |b| > 1 {
    } else {
      MidpointIsShortest(SliceFrom(a, 1), []);
      ShortestUnderDigit(a, Midpoint(SliceFrom(a, 1), []), b, [], digitA);
    }
  }

  lemma HalfwayUnderDigit(a: Text, t: Text, b: Text, c: Text, d: int)
    requires d == DigitAt(a, 0) && Halfway(SliceFrom(a, 1), t, c)
    requires (b != [] && b[0] == d && c == b[1..] && c != []) || (c == [] && (b != [] ==> b[0] != d))
    ensures Halfway(a, [d] + t, b)
  {
    var m := [d] + t;
    var n := |t| - 1;
    assert m[..n + 1] == [d] + t[..n];
    assert forall i :: 0 <= i < n + 1 ==> m[i] == DigitAt(a, i);
    if c != [] {
      assert b == [d] + c;
      assert t[..n] < c <==> m[..n + 1] < b;
      assert t < c <==> m < b;
    }
  }

  lemma {:induction false} MidpointIsHalfway(a: Text, b: Text)
    requires Gap(a, b)
    ensures Halfway(a, Midpoint(a, b), b)
    decreases |a| + |b|
  {
    var digitA := DigitAt(a, 0);
    var digitB := if b == [] then BASE else b[0];
    if b != [] && digitA == b[0] {
      GapStep(a, b);
      MidpointIsHalfway(SliceFrom(a, 1), b[1..]);
      HalfwayUnderDigit(a, Midpoint(SliceFrom(a, 1), b[1..]), b, b[1..], digitA);
    } else if digitB - digitA > 1 {
    } else if |b| > 1 {
    } else {
      MidpointIsHalfway(SliceFrom(a, 1), []);
      HalfwayUnderDigit(a, Midpoint(SliceFrom(a, 1), []), b, [], digitA);
    }
  }

  /** The fraction that is minted between two others. */
  ghost predicate Central(a: Text, m: Text, b: Text)
  {
    InGap(a, m, b) && Shortest(a, m, b) && Halfway(a, m, b)
  }

  lemma MidpointIsCentral(a: Text, b: Text)
    requires Gap(a, b)
    ensures Central(a, Midpoint(a, b), b)
  {
    MidpointBetween(a, b);
    MidpointIsShortest(a, b);
    MidpointIsHalfway(a, b);
  }

  /** There is only one such fraction. */
  lemma CentralIsUnique(a: Text, m: Text, k: Text, b: Text)
    requires Central(a, m, b) && Central(a, k, b)
    ensures m == k
  {
    var n := |m| - 1;
    assert |k| == n + 1;
    assert forall i :: 0 <= i < n ==> m[i] == DigitAt(a, i) == k[i];
    assert m[..n] == k[..n];
    assert m == m[..n] + [m[n]] && k == k[..n] + [k[n]];
  }

  // ------------------------------------------------------------ integer parts

  ghost predicate IntegerBetween(left: Text, z: Text, right: Text)
  {
    IntegerPart(z) && StrictlyBetween(left, z, right)
  }

  lemma AboveKey(left: Key, z: Text)
    requires IsKey(left) && IntegerPart(z)
    ensures Less(left, z) <==> Less(IntOf(left), z)
  {
    var (x, f) := (IntOf(left), FracOf(left));
    assert z + [] == z;
    Total(x, z);
    if Less(x, z) {
      IntegerPartsDecide(x, f, z, []);
    } else {
      if x != z { IntegerPartsDecide(z, [], x, f); } else if f != [] { PrefixFirst(x, f); }
      NotBothWays(z, left);
      NotBothWays(z, x);
    }
  }

  lemma NotBothWays(a: Text, b: Text)
    ensures !(Less(a, b) && Less(b, a)) && (a == b ==> !Less(a, b))
  {
    Irreflexive(a);
    if Less(a, b) { Asymmetric(a, b); }
  }

  lemma BelowKey(right: Key, z: Text)
    requires IsKey(right) && IntegerPart(z)
    ensures Less(z, right) <==> Less(z, IntOf(right)) || (z == IntOf(right) && FracOf(right) != [])
  {
    var (x, f) := (IntOf(right), FracOf(right));
    assert z + [] == z;
    Total(x, z);
    if Less(z, x) {
      IntegerPartsDecide(z, [], x, f);
    } else if z == x {
      if f != [] { PrefixFirst(x, f); } else { assert right == x; }
      NotBothWays(z, right);
    } else {
      IntegerPartsDecide(x, f, z, []);
      NotBothWays(right, z);
      NotBothWays(z, x);
    }
  }

  lemma AboveIncrement(left: Key, z: Text)
    requires IsKey(left) && IntegerPart(z) && Less(left, z)
    ensures Increment(IntOf(left)).Some? && LessEq(Increment(IntOf(left)).value, z)
  {
    AboveKey(left, z);
    IncrementAdjacent(IntOf(left), z);
  }

  lemma IncrementAbove(left: Key)
    requires IsKey(left) && Increment(IntOf(left)).Some?
    ensures IntegerPart(Increment(IntOf(left)).value) && Less(left, Increment(IntOf(left)).value)
  {
    IncrementIsSuccessor(IntOf(left));
    AboveKey(left, Increment(IntOf(left)).value);
  }

  /** Above a left bound, the least integer part is minted if there is one in between, and its own is kept if not. */
  ghost predicate LeastAbove(left: Key, k: Key, right: Text)
    requires IsKey(left) && IsKey(k) && (right != [] ==> IsKey(right))
  {
    if exists z :: IntegerBetween(left, z, right)
    then IntegerBetween(left, k, right) && forall z :: IntegerBetween(left, z, right) ==> LessEq(k, z)
    else IntOf(k) == IntOf(left) && Central(FracOf(left), FracOf(k),
           if right != [] && IntOf(right) == IntOf(left) then FracOf(right) else [])
  }

  lemma IncrementIsLeast(left: Key, right: Text)
    requires IsKey(left) && Increment(IntOf(left)).Some?
    requires var inc := Increment(IntOf(left)).value; right == [] || Less(inc, right)
    ensures var inc := Increment(IntOf(left)).value;
            IntegerBetween(left, inc, right) && forall z :: IntegerBetween(left, z, right) ==> LessEq(inc, z)
  {
    IncrementAbove(left);
    forall z | IntegerBetween(left, z, right) ensures LessEq(Increment(IntOf(left)).value, z) {
      AboveIncrement(left, z);
    }
  }

  lemma NoneAboveIncrement(left: Key, right: Text)
    requires IsKey(left) && (right != [] ==> IsKey(right))
    requires Increment(IntOf(left)).None? || (right != [] && !Less(Increment(IntOf(left)).value, right))
    ensures forall z :: !IntegerBetween(left, z, right)
  {
    forall z ensures !IntegerBetween(left, z, right) {
      if IntegerBetween(left, z, right) {
        AboveIncrement(left, z);
        NoneAboveAt(left, right, z);
      }
    }
  }

  lemma NoneAboveAt(left: Key, right: Text, z: Text)
    requires IsKey(left) && right != [] && Increment(IntOf(left)).Some?
    requires LessEq(Increment(IntOf(left)).value, z) && Less(z, right)
    ensures Less(Increment(IntOf(left)).value, right)
  {
    var inc := Increment(IntOf(left)).value;
    if inc != z { Transitive(inc, z, right); }
  }

  lemma FractionMinted(left: Key, right: Text, b: Text)
    requires IsKey(left) && Gap(FracOf(left), b)
    ensures var k := IntOf(left) + Midpoint(FracOf(left), b);
            IsKey(k) && IntOf(k) == IntOf(left) && Central(FracOf(left), FracOf(k), b)
  {
    MidpointIsCentral(FracOf(left), b);
    Assemble(IntOf(left), Midpoint(FracOf(left), b));
  }

  lemma SameIntegerHasNone(left: Key, right: Key)
    requires IsKey(left) && IsKey(right) && IntOf(left) == IntOf(right)
    ensures forall z :: !IntegerBetween(left, z, right)
  {
    forall z | IntegerPart(z) ensures !(Less(left, z) && Less(z, right)) {
      AboveKey(left, z);
      BelowKey(right, z);
      NotBothWays(z, IntOf(left));
    }
  }

  lemma ChoiceAbove(left: Key, right: Text)
    requires IsKey(left) && left != SMALLEST && UsableBound(right) && (right != [] ==> Less(left, right))
    ensures var r := KeyBetween(left, right); r.Ok? && IsKey(r.value) && LeastAbove(left, r.value, right)
  {
    KeyBetweenIsCorrect(left, right);
    NotBothWays(left, right);
    if right != [] && IntOf(left) == IntOf(right) {
      SameIntegerHasNone(left, right);
      FractionGap(left, right);
      FractionMinted(left, right, FracOf(right));
    } else {
      var inc := Increment(IntOf(left));
      if inc.Some? && (right == [] || Less(inc.value, right)) {
        IncrementIsLeast(left, right);
      } else {
        NoneAboveIncrement(left, right);
        FractionMinted(left, right, []);
      }
    }
  }

  /** Below a right bound, the greatest integer part is minted, unless only the smallest is left to put a fraction
      on. */
  ghost predicate GreatestBelow(k: Key, right: Key)
    requires IsKey(k) && IsKey(right)
  {
    if IntOf(right) == SMALLEST
    then IntOf(k) == SMALLEST && Central([], FracOf(k), FracOf(right))
    else IntegerBetween([], k, right) && forall z :: IntegerBetween([], z, right) ==> LessEq(z, k)
  }

  lemma DecrementIsGreatest(right: Key, z: Text)
    requires IsKey(right) && IntOf(right) != SMALLEST && FracOf(right) == [] && IntegerPart(z) && Less(z, right)
    ensures Decrement(IntOf(right)).Some? && LessEq(z, Decrement(IntOf(right)).value)
  {
    var x := IntOf(right);
    DecrementIsPredecessor(x);
    var dec := Decrement(x).value;
    BelowKey(right, z);
    Total(dec, z);
    if Less(dec, z) {
      AdjacentBothWays(dec, x);
      NotBothWays(x, z);
    }
  }

  lemma ChoiceBelow(right: Key)
    requires IsKey(right) && right != SMALLEST
    ensures var r := KeyBetween([], right); r.Ok? && IsKey(r.value) && GreatestBelow(r.value, right)
  {
    var (x, f) := (IntOf(right), FracOf(right));
    BelowRight(right);
    BelowKey(right, x);
    NotBothWays(x, x);
    if x == SMALLEST {
      assert SMALLEST + [] == SMALLEST;
      MidpointIsCentral([], f);
      Assemble(x, Midpoint([], f));
    } else if f != [] {
      forall z | IntegerBetween([], z, right) ensures LessEq(z, x) { BelowKey(right, z); }
    } else {
      DecrementIsPredecessor(x);
      forall z | IntegerBetween([], z, right) ensures LessEq(z, Decrement(x).value) { DecrementIsGreatest(right, z); }
    }
  }

  /** Exactly which key is minted, for all bounds that one can be minted between. */
  lemma KeyBetweenChooses(left: Text, right: Text)
    requires UsableBound(left) && UsableBound(right) && (left != [] && right != [] ==> Less(left, right))
    ensures KeyBetween(left, right).Ok? && IsKey(KeyBetween(left, right).value)
    ensures left == [] && right == [] ==> Encode(KeyBetween(left, right).value) == ['a' as int, '0' as int]
    ensures left != [] ==> LeastAbove(left, KeyBetween(left, right).value, right)
    ensures left == [] && right != [] ==> GreatestBelow(KeyBetween(left, right).value, right)
  {
    if left != [] {
      ChoiceAbove(left, right);
    } else if right != [] {
      ChoiceBelow(right);
    } else {
      KeyBetweenIsCorrect(left, right);
    }
  }
}
