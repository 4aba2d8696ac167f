/** Text as lines: where a line ends, and the first line with some property. */
module Lines {
  import opened Results

  /** The offset of the first newline from `i` on, or the length when there is none. */
  function BreakFrom(s: string, i: nat): (b: nat)
    requires i <= |s|
    ensures i <= b <= |s| && (b < |s| ==> s[b] == '\n') && forall k :: i <= k < b ==> s[k] != '\n'
    decreases |s| - i
  {
    if i == |s| || s[i] == '\n' then i else BreakFrom(s, i + 1)
  }

  /** The line that starts at `i`, without its newline. */
  function LineAt(s: string, i: nat): string
    requires i <= |s|
  {
    s[i..BreakFrom(s, i)]
  }

  /** Where the next line starts. */
  function Next(s: string, i: nat): (n: nat)
    requires i < |s|
    ensures i < n <= |s|
  {
    if BreakFrom(s, i) < |s| then BreakFrom(s, i) + 1 else |s|
  }

  /** The offset of the first line, from `i` on, for which `wanted` holds. */
  function Scan(s: string, i: nat, wanted: string -> bool): Option<nat>
    requires i <= |s|
    decreases |s| - i
  {
    if i == |s| then None
    else if wanted(LineAt(s, i)) then Some(i)
    else Scan(s, Next(s, i), wanted)
  }

  lemma {:induction false} ScanSkips(s: string, i: nat, n: nat, wanted: string -> bool)
    requires i < |s| && !wanted(LineAt(s, i)) && n == Next(s, i)
    ensures Scan(s, i, wanted) == Scan(s, n, wanted)
  {
  }

  /** From `i` to `n`: newline-terminated lines, none of them wanted. */
  predicate Clean(s: string, i: nat, n: nat, wanted: string -> bool)
    requires i <= n <= |s|
    decreases n - i
  {
    i == n || (BreakFrom(s, i) < n && !wanted(LineAt(s, i)) && Clean(s, BreakFrom(s, i) + 1, n, wanted))
  }

  /** What a scan returns is a wanted line with only unwanted lines above it. */
  lemma {:induction false} ScanIsFirst(s: string, i: nat, wanted: string -> bool, n: nat)
    requires i <= |s| && Scan(s, i, wanted) == Some(n)
    ensures i <= n < |s| && Clean(s, i, n, wanted) && wanted(LineAt(s, n))
    decreases |s| - i
  {
    if !wanted(LineAt(s, i)) { ScanIsFirst(s, Next(s, i), wanted, n); }
  }

  /** And a wanted line with only unwanted lines above it is what the scan returns. */
  lemma {:induction false} FirstIsScanned(s: string, i: nat, wanted: string -> bool, n: nat)
    requires i <= n < |s| && Clean(s, i, n, wanted) && wanted(LineAt(s, n))
    ensures Scan(s, i, wanted) == Some(n)
    decreases n - i
  {
    if i < n { FirstIsScanned(s, BreakFrom(s, i) + 1, wanted, n); }
  }

  /** Newline-terminated lines that are not clean hold the first wanted line, whatever follows them. */
  lemma {:induction false} FoundWithin(s: string, i: nat, m: nat, wanted: string -> bool)
    requires i < m <= |s| && s[m - 1] == '\n' && !Clean(s, i, m, wanted)
    ensures Scan(s, i, wanted).Some? && Scan(s, i, wanted).value < m
    decreases m - i
  {
    if !wanted(LineAt(s, i)) { FoundWithin(s, BreakFrom(s, i) + 1, m, wanted); }
  }

  /** The lines of `t` are the lines of `s` where `t` is a piece of `s`. */
  ghost predicate PieceAt(s: string, a: nat, t: string)
  {
    a + |t| <= |s| && s[a..a + |t|] == t
  }

  lemma {:induction false} SameBreak(s: string, a: nat, t: string, i: nat, j: nat)
    requires PieceAt(s, a, t) && i <= |t| && j == a + i
    ensures BreakFrom(t, i) < |t| ==> BreakFrom(s, j) == a + BreakFrom(t, i) && LineAt(s, j) == LineAt(t, i)
    ensures BreakFrom(t, i) == |t| ==> BreakFrom(s, j) >= a + |t|
  {
    assert forall k :: 0 <= k < |t| ==> t[k] == s[a + k];
    var (b, c) := (BreakFrom(t, i), BreakFrom(s, j));
    assert forall k :: j <= k < a + b ==> s[k] == t[k - a];
    if b < |t| {
      assert s[a + b] == '\n';
      assert s[j..a + b] == t[i..b];
    }
  }

  /** A piece is clean inside the text exactly when it is clean alone. */
  lemma {:induction false} CleanPiece(s: string, a: nat, t: string, i: nat, j: nat, wanted: string -> bool)
    requires PieceAt(s, a, t) && i <= |t| && j == a + i
    ensures Clean(s, j, a + |t|, wanted) <==> Clean(t, i, |t|, wanted)
    decreases |t| - i
  {
    SameBreak(s, a, t, i, j);
    if BreakFrom(t, i) < |t| { CleanPiece(s, a, t, BreakFrom(t, i) + 1, BreakFrom(s, j) + 1, wanted); }
  }

  lemma {:induction false} CleanSlice(s: string, a: nat, n: nat, t: string, wanted: string -> bool)
    requires a <= n <= |s| && t == s[a..n]
    ensures Clean(s, a, n, wanted) <==> Clean(t, 0, |t|, wanted)
  {
    CleanPiece(s, a, t, 0, a, wanted);
    assert a + |t| == n;
  }

  /** The text, newline-terminated unless empty. */
  function Ended(s: string): (t: string)
    ensures t == "" || t[|t| - 1] == '\n'
    ensures t == s || t == s + "\n"
  {
    if s == "" || s[|s| - 1] == '\n' then s else s + "\n"
  }

  predicate OneLine(l: string)
  {
    forall k :: 0 <= k < |l| ==> l[k] != '\n'
  }

  /** A piece without newlines that starts a line and is followed by a newline is that line. */
  lemma {:induction false} LineIs(s: string, a: nat, l: string)
    requires PieceAt(s, a, l) && OneLine(l) && a + |l| < |s| && s[a + |l|] == '\n'
    ensures BreakFrom(s, a) == a + |l| && LineAt(s, a) == l && Next(s, a) == a + |l| + 1
  {
    assert forall k :: a <= k < a + |l| ==> s[k] == l[k - a];
  }
}
