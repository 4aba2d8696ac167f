/** Fixed-length digit runs in a base: successor and predecessor by carry and borrow. */
module Numerals {
  import opened Lex
  import opened Results

  predicate InBase(s: Text, base: int)
  {
    forall i :: 0 <= i < |s| ==> 0 <= s[i] < base
  }

  function Run(d: int, n: nat): (s: Text)
    ensures |s| == n && forall i :: 0 <= i < n ==> s[i] == d
  {
    seq(n, _ => d)
  }

  /** The digit run after `ds` among runs of its length, most significant digit first. */
  function IncrementRun(ds: Text, base: int): (r: Option<Text>)
    ensures r.Some? ==> |r.value| == |ds|
  {
    if ds == [] then None
    else
      var rest := IncrementRun(ds[1..], base);
      if rest.Some? then Some([ds[0]] + rest.value)
      else if ds[0] + 1 < base then Some([ds[0] + 1] + Run(0, |ds| - 1))
      else None
  }

  function DecrementRun(ds: Text, base: int): (r: Option<Text>)
    ensures r.Some? ==> |r.value| == |ds|
  {
    if ds == [] then None
    else
      var rest := DecrementRun(ds[1..], base);
      if rest.Some? then Some([ds[0]] + rest.value)
      else if ds[0] > 0 then Some([ds[0] - 1] + Run(base - 1, |ds| - 1))
      else None
  }

  lemma {:induction false} RunTail(d: int, n: nat)
    requires n > 0
    ensures Run(d, n)[0] == d && Run(d, n)[1..] == Run(d, n - 1)
  {
    var (all, tail) := (Run(d, n), Run(d, n - 1));
    assert |all[1..]| == |tail|;
    forall k | 0 <= k < n - 1 ensures all[1..][k] == tail[k] {
      assert all[1..][k] == all[k + 1];
    }
  }

  lemma {:induction false} IncrementRunIsLeastAbove(ds: Text, base: int)
    requires InBase(ds, base)
    ensures var r := IncrementRun(ds, base);
            && (r.Some? ==> InBase(r.value, base) && Less(ds, r.value))
            && (r.None? <==> ds == Run(base - 1, |ds|))
            && (r.Some? ==> DecrementRun(r.value, base) == Some(ds))
  {
    if ds != [] {
      var rest := ds[1..];
      IncrementRunIsLeastAbove(rest, base);
      assert ds == [ds[0]] + rest;
      var r := IncrementRun(ds, base);
      if IncrementRun(rest, base).Some? {
        assert r.value[1..] == IncrementRun(rest, base).value;
        RunTail(base - 1, |ds|);
      } else if ds[0] + 1 < base {
        assert r.value[1..] == Run(0, |ds| - 1);
        DecrementZeros(|ds| - 1, base);
      } else {
        RunTail(base - 1, |ds|);
        assert ds == [base - 1] + rest && Run(base - 1, |ds|) == [base - 1] + Run(base - 1, |ds|)[1..];
      }
    }
  }

  lemma {:induction false} DecrementZeros(n: nat, base: int)
    ensures DecrementRun(Run(0, n), base).None?
  {
    if n > 0 {
      RunTail(0, n);
      DecrementZeros(n - 1, base);
    }
  }

  lemma {:induction false} IncrementNines(n: nat, base: int)
    ensures IncrementRun(Run(base - 1, n), base).None?
  {
    if n > 0 {
      RunTail(base - 1, n);
      IncrementNines(n - 1, base);
    }
  }

  lemma {:induction false} DecrementRunUndone(ds: Text, base: int)
    requires InBase(ds, base)
    ensures var r := DecrementRun(ds, base);
            && (r.Some? ==> InBase(r.value, base) && IncrementRun(r.value, base) == Some(ds))
            && (r.None? <==> ds == Run(0, |ds|))
  {
    if ds != [] {
      var rest := ds[1..];
      DecrementRunUndone(rest, base);
      assert ds == [ds[0]] + rest;
      var r := DecrementRun(ds, base);
      if DecrementRun(rest, base).Some? {
        assert r.value[1..] == DecrementRun(rest, base).value;
        assert ds != Run(0, |ds|) by {
          assert rest != Run(0, |rest|);
          assert Run(0, |ds|)[1..] == Run(0, |rest|);
        }
      } else if ds[0] > 0 {
        assert r.value[1..] == Run(base - 1, |ds| - 1);
        IncrementNines(|ds| - 1, base);
      } else {
        assert ds == Run(0, |ds|);
      }
    }
  }

  /** Nothing of the same length fits between a run and its successor. */
  lemma {:induction false} IncrementRunAdjacent(ds: Text, z: Text, base: int)
    requires InBase(ds, base) && InBase(z, base) && |ds| == |z| && Less(ds, z)
    ensures IncrementRun(ds, base).Some? && LessEq(IncrementRun(ds, base).value, z)
  {
    IncrementRunIsLeastAbove(ds, base);
    if ds[0] == z[0] {
      IncrementRunAdjacent(ds[1..], z[1..], base);
      assert z == [z[0]] + z[1..];
    } else if IncrementRun(ds[1..], base).None? {
      ZerosAreLeast(z[1..], base);
      assert z == [z[0]] + z[1..];
    }
  }

  lemma {:induction false} ZerosAreLeast(z: Text, base: int)
    requires InBase(z, base)
    ensures LessEq(Run(0, |z|), z)
  {
    if z != [] {
      ZerosAreLeast(z[1..], base);
      assert Run(0, |z|)[1..] == Run(0, |z| - 1);
      assert z == [z[0]] + z[1..];
    }
  }

  lemma {:induction false} CarryAt(p: Text, d: int, k: nat, base: int)
    requires d + 1 < base
    ensures IncrementRun(p + [d] + Run(base - 1, k), base) == Some(p + [d + 1] + Run(0, k))
  {
    var ds := p + [d] + Run(base - 1, k);
    if p == [] {
      assert ds[1..] == Run(base - 1, k);
      IncrementNines(k, base);
      assert p + [d + 1] + Run(0, k) == [d + 1] + Run(0, k);
    } else {
      assert ds[1..] == p[1..] + [d] + Run(base - 1, k);
      CarryAt(p[1..], d, k, base);
      assert [p[0]] + (p[1..] + [d + 1] + Run(0, k)) == p + [d + 1] + Run(0, k);
    }
  }

  lemma {:induction false} BorrowAt(p: Text, d: int, k: nat, base: int)
    requires 0 < d
    ensures DecrementRun(p + [d] + Run(0, k), base) == Some(p + [d - 1] + Run(base - 1, k))
  {
    var ds := p + [d] + Run(0, k);
    if p == [] {
      assert ds[1..] == Run(0, k);
      DecrementZeros(k, base);
      assert p + [d - 1] + Run(base - 1, k) == [d - 1] + Run(base - 1, k);
    } else {
      assert ds[1..] == p[1..] + [d] + Run(0, k);
      BorrowAt(p[1..], d, k, base);
      assert [p[0]] + (p[1..] + [d - 1] + Run(base - 1, k)) == p + [d - 1] + Run(base - 1, k);
    }
  }

  // ------------------------------------------------------ counting the runs

  function Pow(base: nat, n: nat): nat
  {
    if n == 0 then 1 else base * Pow(base, n - 1)
  }

  /** The number a run denotes, most significant digit first. */
  function Value(ds: Text, base: nat): (v: nat)
    requires InBase(ds, base)
  {
    if ds == [] then 0 else ds[0] * Pow(base, |ds| - 1) + Value(ds[1..], base)
  }

  lemma TimesMonotone(a: nat, b: nat, p: nat)
    requires a <= b
    ensures a * p <= b * p
  {
  }

  lemma {:induction false} ValueBounded(ds: Text, base: nat)
    requires InBase(ds, base)
    ensures Value(ds, base) < Pow(base, |ds|)
  {
    if ds != [] {
      ValueBounded(ds[1..], base);
      var p := Pow(base, |ds| - 1);
      TimesMonotone(ds[0], base - 1, p);
      Distribute(base - 1, p);
    }
  }

  lemma Distribute(a: int, p: int)
    ensures (a + 1) * p == a * p + p
  {
  }

  /** A run of one digit has `d` times the place value of its head more than its tail. */
  lemma {:induction false} ValueOfRun(d: int, n: nat, base: nat)
    requires n > 0 && 0 <= d < base
    ensures Value(Run(d, n), base) == d * Pow(base, n - 1) + Value(Run(d, n - 1), base)
  {
    RunTail(d, n);
  }

  lemma {:induction false} ValueOfExtremes(n: nat, base: nat)
    requires base > 0
    ensures Value(Run(0, n), base) == 0 && Value(Run(base - 1, n), base) == Pow(base, n) - 1
  {
    if n > 0 {
      ValueOfExtremes(n - 1, base);
      ValueOfRun(0, n, base);
      ValueOfRun(base - 1, n, base);
      Distribute(base - 1, Pow(base, n - 1));
      assert 0 * Pow(base, n - 1) == 0;
    }
  }

  /** Each increment adds one and fails only at the greatest value, so counting through the runs of one length comes to
      an end. */
  lemma {:induction false} IncrementAddsOne(ds: Text, base: nat)
    requires InBase(ds, base)
    ensures var r := IncrementRun(ds, base);
            && (r.Some? ==> InBase(r.value, base) && Value(r.value, base) == Value(ds, base) + 1)
            && (r.None? <==> Value(ds, base) == Pow(base, |ds|) - 1)
  {
    var r := IncrementRun(ds, base);
    IncrementRunIsLeastAbove(ds, base);
    if ds != [] { ValueOfExtremes(|ds|, base); }
    if r.Some? {
      NextValue(ds, base, r.value);
      ValueBounded(r.value, base);
    }
  }

  lemma {:induction false} NextValue(ds: Text, base: nat, r: Text)
    requires InBase(ds, base) && IncrementRun(ds, base) == Some(r) && InBase(r, base)
    ensures Value(r, base) == Value(ds, base) + 1
  {
    var rest := ds[1..];
    IncrementRunIsLeastAbove(rest, base);
    if IncrementRun(rest, base).Some? {
      NextValue(rest, base, IncrementRun(rest, base).value);
      assert r[1..] == IncrementRun(rest, base).value;
    } else {
      ValueOfExtremes(|rest|, base);
      assert r[1..] == Run(0, |rest|);
      var p := Pow(base, |rest|);
      Distribute(ds[0], p);
    }
  }
}
