/** Go's `sort.SliceStable` over a strict weak order, as a stable insertion sort. */
module Sorting {

  /** `less` never holds both ways round, and what is not less chains. */
  ghost predicate WeakOrder<T(!new)>(less: (T, T) -> bool)
  {
    && (forall x, y :: less(x, y) ==> !less(y, x))
    && (forall x, y, z :: !less(y, x) && !less(z, y) ==> !less(z, x))
  }

  ghost predicate Sorted<T>(s: seq<T>, less: (T, T) -> bool)
  {
    forall i, j :: 0 <= i < j < |s| ==> !less(s[j], s[i])
  }

  function Insert<T>(x: T, s: seq<T>, less: (T, T) -> bool): seq<T>
  {
    if s == [] then [x]
    else if less(s[0], x) then [s[0]] + Insert(x, s[1..], less)
    else [x] + s
  }

  /** Stable: an element goes before the later elements it does not exceed. */
  function StableSort<T>(s: seq<T>, less: (T, T) -> bool): seq<T>
  {
    if s == [] then [] else Insert(s[0], StableSort(s[1..], less), less)
  }

  lemma {:induction false} InsertKeeps<T>(x: T, s: seq<T>, less: (T, T) -> bool)
    ensures multiset(Insert(x, s, less)) == multiset([x]) + multiset(s)
    ensures |Insert(x, s, less)| == |s| + 1
  {
    if s != [] && less(s[0], x) {
      InsertKeeps(x, s[1..], less);
      assert s == [s[0]] + s[1..];
    }
  }

  lemma {:induction false} SortKeeps<T>(s: seq<T>, less: (T, T) -> bool)
    ensures multiset(StableSort(s, less)) == multiset(s)
    ensures |StableSort(s, less)| == |s|
    ensures forall x :: x in s <==> x in StableSort(s, less)
    ensures forall i :: 0 <= i < |s| ==> StableSort(s, less)[i] in s
  {
    if s != [] {
      SortKeeps(s[1..], less);
      InsertKeeps(s[0], StableSort(s[1..], less), less);
      assert s == [s[0]] + s[1..];
    }
    forall x ensures x in s <==> x in StableSort(s, less) {
      assert x in s <==> x in multiset(s);
      assert x in StableSort(s, less) <==> x in multiset(StableSort(s, less));
    }
    forall i | 0 <= i < |s| ensures StableSort(s, less)[i] in s {
      assert StableSort(s, less)[i] in multiset(StableSort(s, less));
    }
  }

  lemma {:induction false} InsertSorts<T(!new)>(x: T, s: seq<T>, less: (T, T) -> bool)
    requires WeakOrder(less) && Sorted(s, less)
    ensures Sorted(Insert(x, s, less), less)
  {
    if s != [] {
      var rest := Insert(x, s[1..], less);
      InsertSorts(x, s[1..], less);
      InsertKeeps(x, s[1..], less);
      if less(s[0], x) {
        forall j | 0 <= j < |rest| ensures !less(rest[j], s[0]) {
          assert rest[j] in multiset(rest);
        }
      }
    }
  }

  lemma {:induction false} SortSorts<T(!new)>(s: seq<T>, less: (T, T) -> bool)
    requires WeakOrder(less)
    ensures Sorted(StableSort(s, less), less)
  {
    if s != [] {
      SortSorts(s[1..], less);
      InsertSorts(s[0], StableSort(s[1..], less), less);
    }
  }

  /** Where the other elements are once `x` is inserted at `p`. */
  function Past(q: nat, p: nat): nat
  {
    if q < p then q else q + 1
  }

  lemma {:induction false} InsertAt<T>(x: T, s: seq<T>, less: (T, T) -> bool) returns (p: nat)
    ensures var r := Insert(x, s, less);
            && p <= |s| && |r| == |s| + 1 && r[p] == x && (forall q :: 0 <= q < |s| ==> r[Past(q, p)] == s[q])
    ensures forall q :: 0 <= q < p ==> less(s[q], x)
  {
    InsertKeeps(x, s, less);
    p := 0;
    if s != [] && less(s[0], x) {
      var before := InsertAt(x, s[1..], less);
      p := before + 1;
      OneFurther(s, Insert(x, s[1..], less), Insert(x, s, less), x, before, p);
    }
  }

  lemma OneFurther<T>(s: seq<T>, rest: seq<T>, r: seq<T>, x: T, before: nat, p: nat)
    requires s != [] && |rest| == |s| && before < |rest| && rest[before] == x && p == before + 1 && r == [s[0]] + rest
    requires forall q :: 0 <= q < |s| - 1 ==> rest[Past(q, before)] == s[1..][q]
    ensures r[p] == x && forall q :: 0 <= q < |s| ==> r[Past(q, p)] == s[q]
  {
    forall q | 0 <= q < |s| ensures r[Past(q, p)] == s[q] {
      if q > 0 {
        assert rest[Past(q - 1, before)] == s[1..][q - 1];
        assert r[Past(q, p)] == rest[Past(q - 1, before)];
      }
    }
  }

  lemma SortedTail<T>(s: seq<T>, less: (T, T) -> bool, j: nat) returns (l: nat)
    requires 0 < j < |s|
    ensures l < |StableSort(s[1..], less)| && StableSort(s[1..], less)[l] == s[j]
  {
    SortKeeps(s[1..], less);
    assert s[1..][j - 1] == s[j];
    assert s[j] in s[1..];
    l :| 0 <= l < |StableSort(s[1..], less)| && StableSort(s[1..], less)[l] == s[j];
  }

  /** Two elements of which the later does not come first stay in sequence. */
  lemma {:induction false} SortIsStable<T>(s: seq<T>, less: (T, T) -> bool, i: nat, j: nat) returns (k: nat, l: nat)
    requires i < j < |s| && !less(s[j], s[i])
    ensures k < l < |StableSort(s, less)| && StableSort(s, less)[k] == s[i] && StableSort(s, less)[l] == s[j]
  {
    var rest := StableSort(s[1..], less);
    var p := InsertAt(s[0], rest, less);
    if i == 0 {
      l := SortedTail(s, less, j);
      k, l := p, Past(l, p);
    } else {
      k, l := SortIsStable(s[1..], less, i - 1, j - 1);
      k, l := Past(k, p), Past(l, p);
    }
  }

  /** Sorting what is already in order changes nothing. */
  lemma {:induction false} SortIsStableOnSorted<T(!new)>(s: seq<T>, less: (T, T) -> bool)
    requires Sorted(s, less)
    ensures StableSort(s, less) == s
  {
    if s != [] {
      SortIsStableOnSorted(s[1..], less);
    }
  }

  lemma {:induction false} SortedUnique<T(!new)>(a: seq<T>, b: seq<T>, less: (T, T) -> bool)
    requires Sorted(a, less) && Sorted(b, less) && multiset(a) == multiset(b)
    requires forall x, y :: x in a && y in a && x != y ==> less(x, y) || less(y, x)
    ensures a == b
  {
    SameSize(a, b);
    if a != [] {
      assert a[0] == b[0] by {
        assert a[0] in multiset(b) && b[0] in multiset(a) by { assert a[0] in multiset(a) && b[0] in multiset(b); }
        assert a[0] in b && b[0] in a;
      }
      TailMultiset(a);
      TailMultiset(b);
      SortedUnique(a[1..], b[1..], less);
      assert a == [a[0]] + a[1..] && b == [b[0]] + b[1..];
    }
  }

  lemma SameSize<T>(a: seq<T>, b: seq<T>)
    requires multiset(a) == multiset(b)
    ensures |a| == |b|
  {
    assert |multiset(a)| == |a| && |multiset(b)| == |b|;
  }

  lemma TailMultiset<T>(s: seq<T>)
    requires s != []
    ensures multiset(s[1..]) == multiset(s) - multiset{s[0]}
  {
    assert s == [s[0]] + s[1..];
  }

  /** No element occurs twice. */
  ghost predicate NoRepeats<T>(s: seq<T>)
  {
    forall i, j :: 0 <= i < j < |s| ==> s[i] != s[j]
  }

  /** No two elements have the same key. */
  ghost predicate Distinct<T, K>(s: seq<T>, key: T -> K)
  {
    forall i, j :: 0 <= i < j < |s| ==> key(s[i]) != key(s[j])
  }

  lemma DistinctSkip<T, K>(x: T, s: seq<T>, key: T -> K)
    requires s != [] && Distinct([x] + s, key)
    ensures Distinct([x] + s[1..], key) && forall y :: y == x || y in s[1..] ==> key(y) != key(s[0])
  {
    var (all, fewer) := ([x] + s, [x] + s[1..]);
    forall i, j | 0 <= i < j < |fewer| ensures key(fewer[i]) != key(fewer[j]) {
      assert all[j + 1] == fewer[j] && all[if i == 0 then 0 else i + 1] == fewer[i];
    }
    assert all[0] == x && all[1] == s[0];
    forall y | y in s[1..] ensures key(y) != key(s[0]) {
      var k :| 0 <= k < |s| - 1 && s[1..][k] == y;
      assert all[k + 2] == y;
    }
  }

  lemma DistinctCons<T, K>(x: T, s: seq<T>, key: T -> K)
    requires Distinct(s, key) && forall y :: y in s ==> key(y) != key(x)
    ensures Distinct([x] + s, key)
  {
    var all := [x] + s;
    forall i, j | 0 <= i < j < |all| ensures key(all[i]) != key(all[j]) {
      assert all[j] == s[j - 1] && s[j - 1] in s;
      if i > 0 { assert all[i] == s[i - 1]; }
    }
  }

  lemma {:induction false} InsertKeepsDistinct<T, K>(x: T, s: seq<T>, less: (T, T) -> bool, key: T -> K)
    requires Distinct([x] + s, key)
    ensures Distinct(Insert(x, s, less), key)
  {
    if s != [] && less(s[0], x) {
      var rest := Insert(x, s[1..], less);
      DistinctSkip(x, s, key);
      InsertKeepsDistinct(x, s[1..], less, key);
      InsertKeeps(x, s[1..], less);
      forall y | y in rest ensures key(y) != key(s[0]) { assert y in multiset(rest); }
      DistinctCons(s[0], rest, key);
    }
  }

  lemma {:induction false} SortKeepsDistinct<T, K>(s: seq<T>, less: (T, T) -> bool, key: T -> K)
    requires Distinct(s, key)
    ensures Distinct(StableSort(s, less), key)
  {
    if s != [] {
      var rest := StableSort(s[1..], less);
      SortKeepsDistinct(s[1..], less, key);
      SortKeeps(s[1..], less);
      assert Distinct([s[0]] + rest, key) by {
        forall i, j | 0 <= i < j < |rest| + 1 ensures key(([s[0]] + rest)[i]) != key(([s[0]] + rest)[j]) {
          assert rest[j - 1] in s[1..];
        }
      }
      InsertKeepsDistinct(s[0], rest, less, key);
    }
  }

  lemma SortKeepsNoRepeats<T>(s: seq<T>, less: (T, T) -> bool)
    requires NoRepeats(s)
    ensures NoRepeats(StableSort(s, less))
  {
    var same := (x: T) => x;
    SortKeepsDistinct(s, less, same);
    assert Distinct(StableSort(s, less), same);
  }

  /** How many elements pass a test. */
  function CountIf<T>(s: seq<T>, test: T -> bool): nat
  {
    if s == [] then 0 else (if test(s[0]) then 1 else 0) + CountIf(s[1..], test)
  }

  lemma {:induction false} CountSnoc<T>(s: seq<T>, x: T, test: T -> bool)
    ensures CountIf(s + [x], test) == CountIf(s, test) + if test(x) then 1 else 0
  {
    if s == [] {
      assert (s + [x])[1..] == [];
    } else {
      CountSnoc(s[1..], x, test);
      assert (s + [x])[1..] == s[1..] + [x];
    }
  }

  lemma {:induction false} InsertKeepsCount<T>(x: T, s: seq<T>, less: (T, T) -> bool, test: T -> bool)
    ensures CountIf(Insert(x, s, less), test) == CountIf(s, test) + if test(x) then 1 else 0
  {
    if s != [] && less(s[0], x) {
      InsertKeepsCount(x, s[1..], less, test);
      assert Insert(x, s, less)[1..] == Insert(x, s[1..], less);
    } else {
      assert Insert(x, s, less)[1..] == s;
    }
  }

  lemma {:induction false} SortKeepsCount<T>(s: seq<T>, less: (T, T) -> bool, test: T -> bool)
    ensures CountIf(StableSort(s, less), test) == CountIf(s, test)
  {
    if s != [] {
      SortKeepsCount(s[1..], less, test);
      InsertKeepsCount(s[0], StableSort(s[1..], less), less, test);
    }
  }

  /** Iterating a Go map: its keys in some order. */
  method KeysInSomeOrder<T(==)>(s: set<T>) returns (q: seq<T>)
    ensures forall x :: x in q <==> x in s
  {
    q := [];
    var rest := s;
    while rest != {}
      invariant rest <= s && forall x :: x in q <==> x in s - rest
      decreases |rest|
    {
      var x :| x in rest;
      q, rest := q + [x], rest - {x};
    }
  }
}
