/** Byte-wise string order, the order Go's `<` puts on strings. */
module Lex {

  /** A Go string or byte slice: its bytes in order. */
  type Text = seq<int>

  predicate Less(a: Text, b: Text)
  {
    b != [] && (a == [] || a[0] < b[0] || (a[0] == b[0] && Less(a[1..], b[1..])))
  }

  predicate LessEq(a: Text, b: Text)
  {
    a == b || Less(a, b)
  }

  lemma Irreflexive(a: Text)
    ensures !Less(a, a)
  {
  }

  lemma Transitive(a: Text, b: Text, c: Text)
    requires Less(a, b) && Less(b, c)
    ensures Less(a, c)
  {
  }

  lemma Asymmetric(a: Text, b: Text)
    requires Less(a, b)
    ensures !Less(b, a) && a != b
  {
    if Less(b, a) {
      Transitive(a, b, a);
      Irreflexive(a);
    }
    Irreflexive(a);
  }

  lemma Total(a: Text, b: Text)
    ensures a == b || Less(a, b) || Less(b, a)
  {
    if a != [] && b != [] && a[0] == b[0] {
      Total(a[1..], b[1..]);
      assert a == [a[0]] + a[1..] && b == [b[0]] + b[1..];
    }
  }

  /** A common prefix does not affect the comparison. */
  lemma {:induction false} CommonPrefix(p: Text, a: Text, b: Text)
    ensures Less(p + a, p + b) == Less(a, b)
  {
    if p == [] {
      assert p + a == a && p + b == b;
    } else {
      assert (p + a)[1..] == p[1..] + a && (p + b)[1..] == p[1..] + b;
      CommonPrefix(p[1..], a, b);
    }
  }

  /** A difference at one position decides, whatever follows on either side. */
  lemma FirstDifference(p: Text, x: int, s: Text, y: int, t: Text)
    requires x < y
    ensures Less(p + [x] + s, p + [y] + t)
  {
    assert p + [x] + s == p + ([x] + s) && p + [y] + t == p + ([y] + t);
    CommonPrefix(p, [x] + s, [y] + t);
  }

  /** A proper extension sorts after its prefix. */
  lemma PrefixFirst(a: Text, s: Text)
    requires s != []
    ensures Less(a, a + s)
  {
    CommonPrefix(a, [], s);
    assert a + [] == a;
  }

  lemma NotLessChains(a: Text, b: Text, c: Text)
    ensures !Less(b, a) && !Less(c, b) ==> !Less(c, a) && (a == c ==> a == b)
  {
    if !Less(b, a) && !Less(c, b) {
      Total(a, b);
      Total(b, c);
      if Less(a, b) { Asymmetric(a, b); }
      if Less(b, c) { Asymmetric(b, c); }
      if Less(a, b) && Less(b, c) { Transitive(a, b, c); Asymmetric(a, c); }
    }
  }
}
