/** The lock protocol: scope locks in name order, then at most one git-root lock at a time. */
module Locks {
  import opened Lex
  import opened Results
  import opened Sorting

  /** Scope name to canonical directory. */
  type Registry = map<Text, Text>

  // ------------------------------------------------------------ the order of one batch

  /** Names in ascending order, no two with one directory. */
  ghost predicate Ascends(dirs: Registry, plan: seq<Text>)
  {
    && (forall i :: 0 <= i < |plan| ==> plan[i] in dirs)
    && (forall i, j :: 0 <= i < j < |plan| ==> Less(plan[i], plan[j]) && dirs[plan[i]] != dirs[plan[j]])
  }

  /** The plan has a name of `n`'s directory, and one not above `n`. */
  ghost predicate Covers(dirs: Registry, plan: seq<Text>, n: Text)
  {
    n in dirs && exists m :: m in plan && m in dirs && dirs[m] == dirs[n] && !Less(n, m)
  }

  /** Names in ascending order, one for each directory: the least of the directory's names. */
  ghost predicate IsPlan(dirs: Registry, plan: seq<Text>)
  {
    Ascends(dirs, plan) && forall n :: n in dirs ==> Covers(dirs, plan, n)
  }

  lemma NameOrder()
    ensures WeakOrder(Less)
  {
    forall x, y | Less(x, y) ensures !Less(y, x) { Asymmetric(x, y); }
    forall x, y, z | !Less(y, x) && !Less(z, y) ensures !Less(z, x) { NotLessChains(x, y, z); }
  }

  /** The loop's plan: every planned name is at or below the names still to come. */
  ghost predicate Planned(dirs: Registry, names: seq<Text>, k: nat, plan: seq<Text>, seen: set<Text>)
  {
    && Ascends(dirs, plan)
    && k <= |names|
    && (forall i, j :: 0 <= i < |plan| && k <= j < |names| ==> !Less(names[j], plan[i]))
    && (forall i :: 0 <= i < |plan| ==> dirs[plan[i]] in seen)
    && (forall d :: d in seen ==> exists m :: m in plan && m in dirs && dirs[m] == d)
    && (forall j :: 0 <= j < k ==> Covers(dirs, plan, names[j]))
  }

  lemma SkipName(dirs: Registry, names: seq<Text>, k: nat, plan: seq<Text>, seen: set<Text>)
    requires k < |names| && names[k] in dirs && Planned(dirs, names, k, plan, seen) && dirs[names[k]] in seen
    ensures Planned(dirs, names, k + 1, plan, seen)
  {
    var m :| m in plan && m in dirs && dirs[m] == dirs[names[k]];
    var i :| 0 <= i < |plan| && plan[i] == m;
    assert !Less(names[k], plan[i]);
  }

  lemma AscendsWith(dirs: Registry, plan: seq<Text>, n: Text)
    requires Ascends(dirs, plan) && n in dirs
    requires forall i :: 0 <= i < |plan| ==> !Less(n, plan[i]) && dirs[plan[i]] != dirs[n]
    ensures Ascends(dirs, plan + [n])
  {
    forall i | 0 <= i < |plan| ensures Less(plan[i], n) { Total(plan[i], n); }
  }

  lemma CoversWith(dirs: Registry, plan: seq<Text>, n: Text, x: Text)
    requires n in dirs && (x == n || Covers(dirs, plan, x))
    ensures Covers(dirs, plan + [n], x)
  {
    Irreflexive(n);
    assert (plan + [n])[|plan|] == n;
    if x == n {
      assert n in plan + [n];
    } else {
      var m :| m in plan && m in dirs && dirs[m] == dirs[x] && !Less(x, m);
      assert m in plan + [n];
    }
  }

  lemma PlanName(dirs: Registry, names: seq<Text>, k: nat, plan: seq<Text>, seen: set<Text>)
    requires k < |names| && names[k] in dirs && Sorted(names, Less) && Planned(dirs, names, k, plan, seen)
    requires dirs[names[k]] !in seen
    ensures Planned(dirs, names, k + 1, plan + [names[k]], seen + {dirs[names[k]]})
  {
    var (n, plan2) := (names[k], plan + [names[k]]);
    AscendsWith(dirs, plan, n);
    forall j | 0 <= j < k + 1 ensures Covers(dirs, plan2, names[j]) { CoversWith(dirs, plan, n, names[j]); }
    forall d | d in seen + {dirs[n]} ensures exists m :: m in plan2 && m in dirs && dirs[m] == d {
      if d == dirs[n] {
        assert plan2[|plan|] == n;
      } else {
        var m :| m in plan && m in dirs && dirs[m] == d;
        assert m in plan2;
      }
    }
  }

  /** The names whose directories `LockScopes` locks, in the order it locks them. */
  method LockScopes(dirs: Registry) returns (plan: seq<Text>)
    ensures IsPlan(dirs, plan)
  {
    var names := SortedNames(dirs);
    var seen: set<Text> := {};
    plan := [];
    var k := 0;
    while k < |names|
      invariant Planned(dirs, names, k, plan, seen)
    {
      assert names[k] in names;
      var key := dirs[names[k]];
      if key in seen {
        SkipName(dirs, names, k, plan, seen);
      } else {
        PlanName(dirs, names, k, plan, seen);
        seen, plan := seen + {key}, plan + [names[k]];
      }
      k := k + 1;
    }
    forall n | n in dirs ensures Covers(dirs, plan, n) {
      assert n in names;
    }
  }

  method SortedNames(dirs: Registry) returns (names: seq<Text>)
    ensures Sorted(names, Less) && forall n :: n in names <==> n in dirs
  {
    names := KeysInSomeOrder(dirs.Keys);
    NameOrder();
    SortKeeps(names, Less);
    SortSorts(names, Less);
    names := StableSort(names, Less);
  }

  // ------------------------------------------------------------ processes

  datatype Lock = Dir(key: Text) | Root(root: Text)

  /** Scopes still to lock, scopes locked, a git root asked for, and the git root locked. */
  datatype Proc = Proc(todo: seq<Text>, taken: seq<Text>, asked: Option<Text>, root: Option<Text>)

  const Idle := Proc([], [], None, None)

  type State = map<int, Proc>

  ghost predicate Holds(reg: Registry, p: Proc, l: Lock)
  {
    match l
    case Dir(k) => exists n :: n in p.taken && n in reg && reg[n] == k
    case Root(r) => p.root == Some(r)
  }

  ghost predicate Wants(reg: Registry, p: Proc, l: Lock)
  {
    if p.todo != [] then p.todo[0] in reg && l == Dir(reg[p.todo[0]])
    else p.asked.Some? && l == Root(p.asked.value)
  }

  ghost predicate Free(reg: Registry, s: State, l: Lock)
  {
    forall q :: q in s ==> !Holds(reg, s[q], l)
  }

  /** A batch of scope locks begins. */
  ghost predicate Begins(reg: Registry, p: Proc, q: Proc)
  {
    p == Idle && q == Proc(q.todo, [], None, None) && exists dirs: Registry :: Within(dirs, reg) && IsPlan(dirs, q.todo)
  }

  ghost predicate TakesDir(reg: Registry, s: State, p: Proc, q: Proc)
  {
    && p.todo != []
    && p.todo[0] in reg
    && Free(reg, s, Dir(reg[p.todo[0]]))
    && q == p.(todo := p.todo[1..], taken := p.taken + [p.todo[0]])
  }

  ghost predicate AsksRoot(p: Proc, q: Proc)
  {
    p.todo == [] && p.asked == None && p.root == None && q.asked.Some? && q == p.(asked := q.asked)
  }

  ghost predicate TakesRoot(reg: Registry, s: State, p: Proc, q: Proc)
  {
    p.todo == [] && p.asked.Some? && Free(reg, s, Root(p.asked.value)) && q == p.(asked := None, root := p.asked)
  }

  /** The last scope lock taken is dropped first. */
  ghost predicate DropsDir(p: Proc, q: Proc)
  {
    p.todo == [] && p.asked == None && p.root == None && p.taken != [] && q == p.(taken := p.taken[..|p.taken| - 1])
  }

  /** One process moves: a batch begins, a lock is asked for, granted or dropped, or an attempt is abandoned. */
  ghost predicate Moves(reg: Registry, s: State, p: Proc, q: Proc)
  {
    || Begins(reg, p, q)
    || TakesDir(reg, s, p, q)
    || AsksRoot(p, q)
    || TakesRoot(reg, s, p, q)
    || (p.root.Some? && q == p.(root := None))
    || q == p.(todo := [], asked := None)
    || DropsDir(p, q)
  }

  ghost predicate Within(dirs: Registry, reg: Registry)
  {
    forall n :: n in dirs ==> n in reg && dirs[n] == reg[n]
  }

  ghost predicate Next(reg: Registry, s: State, t: State)
  {
    exists i :: i in s && i in t && Moves(reg, s, s[i], t[i]) && t == s[i := t[i]]
  }

  ghost predicate Run(reg: Registry, run: seq<State>)
  {
    && run != []
    && (forall i :: i in run[0] ==> run[0][i] == Idle)
    && forall k :: 0 < k < |run| ==> Next(reg, run[k - 1], run[k])
  }

  // ------------------------------------------------------------ what every step keeps

  ghost predicate Orderly(reg: Registry, p: Proc)
  {
    && Ascends(reg, p.todo)
    && (forall n :: n in p.taken ==> n in reg)
    && (forall n, j :: n in p.taken && 0 <= j < |p.todo| ==> Less(n, p.todo[j]) && reg[n] != reg[p.todo[j]])
    && (p.asked.Some? || p.root.Some? ==> p.todo == [])
    && (p.root.Some? ==> p.asked == None)
  }

  /** Every process is orderly, and no lock has two holders. */
  ghost predicate Inv(reg: Registry, s: State)
  {
    && (forall i :: i in s ==> Orderly(reg, s[i]))
    && forall i, j, l :: i in s && j in s && i != j ==> !(Holds(reg, s[i], l) && Holds(reg, s[j], l))
  }

  lemma OrderlyBegin(reg: Registry, p: Proc, q: Proc)
    requires Begins(reg, p, q)
    ensures Orderly(reg, q)
  {
    var dirs: Registry :| Within(dirs, reg) && IsPlan(dirs, q.todo);
    AscendsWithin(dirs, reg, q.todo);
  }

  /** A plan over some scopes of the registry ascends in the registry. */
  lemma AscendsWithin(dirs: Registry, reg: Registry, plan: seq<Text>)
    requires Within(dirs, reg) && Ascends(dirs, plan)
    ensures Ascends(reg, plan)
  {
    forall i | 0 <= i < |plan| ensures plan[i] in reg && reg[plan[i]] == dirs[plan[i]] {
      assert plan[i] in dirs;
    }
  }

  lemma OrderlyTake(reg: Registry, s: State, p: Proc, q: Proc)
    requires Orderly(reg, p) && TakesDir(reg, s, p, q)
    ensures Orderly(reg, q)
  {
  }

  lemma OrderlyStep(reg: Registry, s: State, p: Proc, q: Proc)
    requires Orderly(reg, p) && Moves(reg, s, p, q)
    ensures Orderly(reg, q)
  {
    if Begins(reg, p, q) {
      OrderlyBegin(reg, p, q);
    } else if TakesDir(reg, s, p, q) {
      OrderlyTake(reg, s, p, q);
    }
  }

  /** A step adds at most one lock to a process, and one that was free. */
  lemma NewLockWasFree(reg: Registry, s: State, p: Proc, q: Proc, l: Lock)
    requires Moves(reg, s, p, q) && Holds(reg, q, l)
    ensures Holds(reg, p, l) || Free(reg, s, l)
  {
    if l.Dir? {
      var n :| n in q.taken && n in reg && reg[n] == l.key;
      if n in p.taken {
        assert Holds(reg, p, l);
      }
    }
  }

  lemma StepKeeps(reg: Registry, s: State, t: State)
    requires Inv(reg, s) && Next(reg, s, t)
    ensures Inv(reg, t)
  {
    var m :| m in s && m in t && Moves(reg, s, s[m], t[m]) && t == s[m := t[m]];
    OrderlyStep(reg, s, s[m], t[m]);
    forall i, j, l | i in t && j in t && i != j && Holds(reg, t[i], l) && Holds(reg, t[j], l) ensures false {
      if i == m {
        NewLockWasFree(reg, s, s[m], t[m], l);
      } else if j == m {
        NewLockWasFree(reg, s, s[m], t[m], l);
      }
    }
  }

  lemma {:induction false} RunKeeps(reg: Registry, run: seq<State>, k: nat)
    requires Run(reg, run) && k < |run|
    ensures Inv(reg, run[k])
  {
    if k > 0 {
      RunKeeps(reg, run, k - 1);
      StepKeeps(reg, run[k - 1], run[k]);
    }
  }

  // ------------------------------------------------------------ waiting

  ghost predicate Waits(reg: Registry, s: State, i: int, j: int)
  {
    i in s && j in s && exists l :: Wants(reg, s[i], l) && Holds(reg, s[j], l)
  }

  /** Each process of the round waits for the next, and the last for the first. */
  ghost predicate WaitCycle(reg: Registry, s: State, w: seq<int>)
  {
    |w| >= 2 && w[0] == w[|w| - 1] && forall k :: 0 < k < |w| ==> Waits(reg, s, w[k - 1], w[k])
  }

  /** The names of one directory stand together in name order. Distinct directories for distinct names are a special
      case. */
  ghost predicate Contiguous(reg: Registry)
  {
    forall a, b, c :: a in reg && b in reg && c in reg && Less(a, b) && Less(b, c) && reg[a] == reg[c] ==>
      reg[b] == reg[a]
  }

  lemma DisjointIsContiguous(reg: Registry)
    requires forall a, b :: a in reg && b in reg && a != b ==> reg[a] != reg[b]
    ensures Contiguous(reg)
  {
    forall a, b, c | Less(a, b) && Less(b, c) ensures a != c {
      Transitive(a, b, c);
      Irreflexive(a);
    }
  }

  /** Some name of the first directory is below some name of the second. */
  ghost predicate Before(reg: Registry, k: Text, m: Text)
  {
    k != m && exists a, b :: Names(reg, a, k) && Names(reg, b, m) && Less(a, b)
  }

  predicate Names(reg: Registry, a: Text, k: Text)
  {
    a in reg && reg[a] == k
  }

  lemma NotBetween(reg: Registry, a: Text, b: Text, c: Text, k: Text, m: Text)
    requires Contiguous(reg) && Names(reg, a, k) && Names(reg, b, m) && Names(reg, c, k) && k != m
    ensures !(Less(a, b) && Less(b, c))
  {
  }

  lemma BeforeIsAll(reg: Registry, k: Text, m: Text, a: Text, b: Text)
    requires Contiguous(reg) && Before(reg, k, m) && Names(reg, a, k) && Names(reg, b, m)
    ensures Less(a, b)
  {
    var c, d :| Names(reg, c, k) && Names(reg, d, m) && Less(c, d);
    NotBetween(reg, b, c, d, m, k);
    Total(c, b);
    NotBetween(reg, c, b, a, k, m);
    Total(a, b);
  }

  lemma BeforeChains(reg: Registry, k: Text, m: Text, n: Text)
    requires Contiguous(reg) && Before(reg, k, m) && Before(reg, m, n)
    ensures Before(reg, k, n)
  {
    var a, b :| Names(reg, a, k) && Names(reg, b, m) && Less(a, b);
    var c, d :| Names(reg, c, m) && Names(reg, d, n) && Less(c, d);
    BeforeIsAll(reg, k, m, a, c);
    if k == n { NotBetween(reg, a, c, d, k, m); }
    Transitive(a, c, d);
  }

  /** A waiting process waits for a directory after every one it holds; one that holds a root waits for nothing. */
  lemma WaitsUpward(reg: Registry, p: Proc, held: Lock, wanted: Lock)
    requires Orderly(reg, p) && Holds(reg, p, held) && Wants(reg, p, wanted)
    ensures held.Dir? && (wanted.Dir? ==> Before(reg, held.key, wanted.key))
  {
    if held.Dir? && wanted.Dir? {
      var n :| n in p.taken && n in reg && reg[n] == held.key;
      assert Names(reg, n, held.key) && Names(reg, p.todo[0], wanted.key) && Less(n, p.todo[0]);
    }
  }

  /** The first process wants the lock and the second holds it. */
  ghost predicate Link(reg: Registry, s: State, i: int, j: int, l: Lock)
  {
    i in s && j in s && Wants(reg, s[i], l) && Holds(reg, s[j], l)
  }

  /** The lock each process of a round wants. */
  ghost predicate Round(reg: Registry, s: State, w: seq<int>, locks: seq<Lock>)
  {
    && |w| == |locks| + 1 && |locks| >= 1 && w[0] == w[|locks|]
    && forall k :: 0 <= k < |locks| ==> Link(reg, s, w[k], w[k + 1], locks[k])
  }

  lemma {:induction false} RoundOf(reg: Registry, s: State, w: seq<int>, k: nat) returns (locks: seq<Lock>)
    requires WaitCycle(reg, s, w) && k < |w|
    ensures |locks| == k && forall i :: 0 <= i < k ==> Link(reg, s, w[i], w[i + 1], locks[i])
  {
    if k == 0 {
      locks := [];
    } else {
      var some := RoundOf(reg, s, w, k - 1);
      assert Waits(reg, s, w[k - 1], w[k]);
      var l :| Wants(reg, s[w[k - 1]], l) && Holds(reg, s[w[k]], l);
      locks := some + [l];
    }
  }

  /** Going round, each lock but a root lock is before the next. */
  lemma RoundStep(reg: Registry, s: State, w: seq<int>, locks: seq<Lock>, k: nat, next: nat)
    requires Inv(reg, s) && Round(reg, s, w, locks) && k < |locks| && next == (if k + 1 < |locks| then k + 1 else 0)
    ensures locks[k].Dir? && (locks[next].Dir? ==> Before(reg, locks[k].key, locks[next].key))
  {
    assert w[k + 1] == w[next];
    assert Link(reg, s, w[k], w[k + 1], locks[k]) && Link(reg, s, w[next], w[next + 1], locks[next]);
    WaitsUpward(reg, s[w[next]], locks[k], locks[next]);
  }

  lemma {:induction false} RoundClimbs(reg: Registry, s: State, w: seq<int>, locks: seq<Lock>, k: nat)
    requires Contiguous(reg) && Inv(reg, s) && Round(reg, s, w, locks) && 0 < k < |locks|
    ensures locks[0].Dir? && locks[k].Dir? && Before(reg, locks[0].key, locks[k].key)
  {
    RoundStep(reg, s, w, locks, k - 1, k);
    RoundStep(reg, s, w, locks, k, if k + 1 < |locks| then k + 1 else 0);
    if k > 1 {
      RoundClimbs(reg, s, w, locks, k - 1);
      BeforeChains(reg, locks[0].key, locks[k - 1].key, locks[k].key);
    }
  }

  lemma NoRound(reg: Registry, s: State, w: seq<int>, locks: seq<Lock>)
    requires Contiguous(reg) && Inv(reg, s)
    ensures !Round(reg, s, w, locks)
  {
    if Round(reg, s, w, locks) {
      var n := |locks| - 1;
      RoundStep(reg, s, w, locks, n, 0);
      if n > 0 {
        RoundClimbs(reg, s, w, locks, n);
        BeforeChains(reg, locks[0].key, locks[n].key, locks[0].key);
      }
    }
  }

  lemma NoWaitCycle(reg: Registry, s: State, w: seq<int>)
    requires Contiguous(reg) && Inv(reg, s)
    ensures !WaitCycle(reg, s, w)
  {
    if WaitCycle(reg, s, w) {
      var locks := RoundOf(reg, s, w, |w| - 1);
      NoRound(reg, s, w, locks);
    }
  }

  // ------------------------------------------------------------ no deadlock

  /** Over every run no lock is ever held twice and no processes wait for one another in a round. */
  lemma DeadlockFree(reg: Registry, run: seq<State>, k: nat, w: seq<int>)
    requires Contiguous(reg) && Run(reg, run) && k < |run|
    ensures !WaitCycle(reg, run[k], w)
    ensures forall i, j, l :: i in run[k] && j in run[k] && i != j ==>
              !(Holds(reg, run[k][i], l) && Holds(reg, run[k][j], l))
  {
    RunKeeps(reg, run, k);
    NoWaitCycle(reg, run[k], w);
  }

  ghost predicate Blocked(reg: Registry, s: State, i: int)
  {
    exists j :: Waits(reg, s, i, j)
  }

  /** A chain of waiting processes, each waiting for the next. */
  ghost predicate WaitChain(reg: Registry, s: State, w: seq<int>)
  {
    && w != []
    && (forall k :: 0 <= k < |w| ==> w[k] in s)
    && forall k :: 0 < k < |w| ==> Waits(reg, s, w[k - 1], w[k])
  }

  lemma LastIsNew(reg: Registry, s: State, w: seq<int>, k: nat)
    requires Contiguous(reg) && Inv(reg, s) && WaitChain(reg, s, w) && k < |w| - 1
    ensures w[k] != w[|w| - 1]
  {
    var v := w[k..];
    assert forall m :: 0 <= m < |v| ==> v[m] == w[k + m];
    forall m | 0 < m < |v| ensures Waits(reg, s, v[m - 1], v[m]) {
      assert Waits(reg, s, w[k + m - 1], w[k + m]);
    }
    NoWaitCycle(reg, s, v);
  }

  lemma FewerNotPassed(all: set<int>, done: set<int>, last: int)
    requires last in all && last !in done
    ensures |all - (done + {last})| < |all - done|
  {
    assert all - done == (all - (done + {last})) + {last};
  }

  lemma LongerChain(reg: Registry, s: State, w: seq<int>, j: int)
    requires WaitChain(reg, s, w) && Waits(reg, s, w[|w| - 1], j)
    ensures WaitChain(reg, s, w + [j]) && (w + [j])[0] == w[0]
  {
  }

  /** The processes of a chain before its last. */
  ghost predicate Passed(w: seq<int>, done: set<int>)
  {
    w != [] && forall i :: i in done ==> i in w[..|w| - 1]
  }

  lemma PassedLonger(w: seq<int>, done: set<int>, j: int)
    requires Passed(w, done)
    ensures Passed(w + [j], done + {w[|w| - 1]})
  {
    assert (w + [j])[..|w|] == w && w == w[..|w| - 1] + [w[|w| - 1]];
  }

  lemma LastNotPassed(reg: Registry, s: State, w: seq<int>, done: set<int>)
    requires Contiguous(reg) && Inv(reg, s) && WaitChain(reg, s, w) && Passed(w, done)
    ensures w[|w| - 1] in s && w[|w| - 1] !in done
  {
    var (front, last) := (w[..|w| - 1], w[|w| - 1]);
    forall k | 0 <= k < |front| ensures front[k] != last { LastIsNew(reg, s, w, k); }
    assert last !in front;
  }

  /** Following the waiting from any process leads to one that is not blocked. */
  lemma {:induction false} SomeoneRuns(reg: Registry, s: State, w: seq<int>, done: set<int>) returns (runner: seq<int>)
    requires Contiguous(reg) && Inv(reg, s) && WaitChain(reg, s, w) && Passed(w, done)
    ensures WaitChain(reg, s, runner) && runner[0] == w[0] && !Blocked(reg, s, runner[|runner| - 1])
    decreases |s.Keys - done|
  {
    var last := w[|w| - 1];
    if j :| Waits(reg, s, last, j) {
      LongerChain(reg, s, w, j);
      PassedLonger(w, done, j);
      LastNotPassed(reg, s, w, done);
      FewerNotPassed(s.Keys, done, last);
      runner := SomeoneRuns(reg, s, w + [j], done + {last});
    } else {
      runner := w;
    }
  }

  lemma WantedIsFree(reg: Registry, s: State, i: int, l: Lock)
    requires Inv(reg, s) && i in s && !Blocked(reg, s, i) && Wants(reg, s[i], l)
    ensures Free(reg, s, l)
  {
    forall j | j in s ensures !Holds(reg, s[j], l) {
      if Holds(reg, s[j], l) { assert Waits(reg, s, i, j); }
    }
  }

  /** A process that is not blocked gets the lock it wants in its next step. */
  lemma UnblockedTakes(reg: Registry, s: State, i: int, l: Lock) returns (t: State)
    requires Inv(reg, s) && i in s && !Blocked(reg, s, i) && Wants(reg, s[i], l)
    ensures Next(reg, s, t) && Holds(reg, t[i], l)
  {
    WantedIsFree(reg, s, i, l);
    var p := s[i];
    var q := if p.todo != [] then p.(todo := p.todo[1..], taken := p.taken + [p.todo[0]])
             else p.(asked := None, root := p.asked);
    t := s[i := q];
    if p.todo != [] {
      assert TakesDir(reg, s, p, q);
      assert q.taken[|p.taken|] == p.todo[0] && p.todo[0] in q.taken;
    } else {
      assert TakesRoot(reg, s, p, q);
    }
    assert Moves(reg, s, s[i], t[i]);
  }

  lemma RunOn(reg: Registry, run: seq<State>, t: State)
    requires Run(reg, run) && Next(reg, run[|run| - 1], t)
    ensures Run(reg, run + [t])
  {
  }

  lemma BeginStep(reg: Registry, s: State, i: int, a: Text, b: Text)
    requires i in s && s[i] == Idle && a in reg && b in reg && Less(a, b) && reg[a] != reg[b]
    ensures Next(reg, s, s[i := Proc([a, b], [], None, None)])
  {
    PairPlan(reg, a, b);
    var t := s[i := Proc([a, b], [], None, None)];
    assert Moves(reg, s, s[i], t[i]);
  }

  lemma TakeStep(reg: Registry, s: State, i: int, a: Text, b: Text)
    requires i in s && s[i] == Proc([a, b], [], None, None) && a in reg && Free(reg, s, Dir(reg[a]))
    ensures Next(reg, s, s[i := Proc([b], [a], None, None)])
  {
    var t := s[i := Proc([b], [a], None, None)];
    assert [a, b][1..] == [b] && [] + [a] == [a];
    assert Moves(reg, s, s[i], t[i]);
  }

  lemma Crossed(reg: Registry, s: State, i: int, j: int, a: Text, b: Text)
    requires i in s && j in s && s[i].todo == [a] && s[j].taken == [b] && a in reg && b in reg && reg[a] == reg[b]
    ensures Waits(reg, s, i, j)
  {
    assert Wants(reg, s[i], Dir(reg[a]));
    assert b in s[j].taken && Holds(reg, s[j], Dir(reg[a]));
  }

  lemma BothBegin(reg: Registry, a: Text, b: Text, c: Text) returns (run: seq<State>)
    requires a in reg && b in reg && c in reg && Less(a, b) && Less(b, c) && reg[a] == reg[c] != reg[b]
    ensures Run(reg, run) && run[|run| - 1] == map[0 := Proc([a, b], [], None, None), 1 := Proc([b, c], [], None, None)]
  {
    var s0: State := map[0 := Idle, 1 := Idle];
    var s1 := s0[0 := Proc([a, b], [], None, None)];
    var s2 := s1[1 := Proc([b, c], [], None, None)];
    BeginStep(reg, s0, 0, a, b);
    BeginStep(reg, s1, 1, b, c);
    run := [s0, s1, s2];
  }

  lemma BothTake(reg: Registry, begun: seq<State>, a: Text, b: Text, c: Text) returns (run: seq<State>)
    requires Run(reg, begun)
    requires begun[|begun| - 1] == map[0 := Proc([a, b], [], None, None), 1 := Proc([b, c], [], None, None)]
    requires a in reg && b in reg && reg[a] != reg[b]
    ensures Run(reg, run) && run[|run| - 1] == map[0 := Proc([b], [a], None, None), 1 := Proc([c], [b], None, None)]
  {
    var s2 := begun[|begun| - 1];
    var s3 := s2[0 := Proc([b], [a], None, None)];
    var s4 := s3[1 := Proc([c], [b], None, None)];
    assert Free(reg, s2, Dir(reg[a]));
    TakeStep(reg, s2, 0, a, b);
    RunOn(reg, begun, s3);
    assert Free(reg, s3, Dir(reg[b]));
    TakeStep(reg, s3, 1, b, c);
    RunOn(reg, begun + [s3], s4);
    run := begun + [s3] + [s4];
  }

  /** Two processes whose directories interleave can each take one lock and then wait for the other's. */
  lemma InterleavedDirectoriesDeadlock(reg: Registry, a: Text, b: Text, c: Text) returns (run: seq<State>)
    requires a in reg && b in reg && c in reg && Less(a, b) && Less(b, c) && reg[a] == reg[c] != reg[b]
    ensures Run(reg, run) && WaitCycle(reg, run[|run| - 1], [0, 1, 0])
  {
    run := BothBegin(reg, a, b, c);
    run := BothTake(reg, run, a, b, c);
    Crossed(reg, run[|run| - 1], 0, 1, b, b);
    Crossed(reg, run[|run| - 1], 1, 0, c, a);
  }

  lemma PairPlan(reg: Registry, a: Text, b: Text)
    requires a in reg && b in reg && Less(a, b) && reg[a] != reg[b]
    ensures exists dirs: Registry :: Within(dirs, reg) && IsPlan(dirs, [a, b])
  {
    var dirs: Registry := map[a := reg[a], b := reg[b]];
    var plan := [a, b];
    Irreflexive(a);
    Irreflexive(b);
    assert a in plan && b in plan && Covers(dirs, plan, a) && Covers(dirs, plan, b);
    assert Within(dirs, reg) && IsPlan(dirs, plan);
  }

  /** The protocol is free of deadlock exactly when the names of each directory stand together. */
  lemma DeadlockFreeExactly(reg: Registry)
    ensures Contiguous(reg) <==> forall run, k: nat, w :: Run(reg, run) && k < |run| ==> !WaitCycle(reg, run[k], w)
  {
    if Contiguous(reg) {
      forall run, k: nat, w | Run(reg, run) && k < |run| ensures !WaitCycle(reg, run[k], w) {
        DeadlockFree(reg, run, k, w);
      }
    } else {
      var a, b, c :| a in reg && b in reg && c in reg && Less(a, b) && Less(b, c) && reg[a] == reg[c]
        && reg[b] != reg[a];
      var run := InterleavedDirectoriesDeadlock(reg, a, b, c);
      assert WaitCycle(reg, run[|run| - 1], [0, 1, 0]);
    }
  }
}
