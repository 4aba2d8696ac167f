/** The frontmatter fence: splitting a file into the fence's interior and the body, and putting it back together. */
module Fences {
  import opened Results
  import opened Lines

  function TrimCR(line: string): string
  {
    if line != "" && line[|line| - 1] == '\r' then line[..|line| - 1] else line
  }

  predicate IsFence(line: string)
  {
    TrimCR(line) == "---"
  }

  datatype Parts = Parts(interior: string, body: string)

  /** The interior of the leading fence and the text after it; none without an opening and a closing line. */
  function SplitOf(data: string): Option<Parts>
  {
    var b := BreakFrom(data, 0);
    if b == |data| || !IsFence(LineAt(data, 0)) then None
    else
      match Scan(data, b + 1, IsFence)
      case None => None
      case Some(n) =>
        ScanIsFirst(data, b + 1, IsFence, n);
        Some(Parts(data[b + 1..n], data[Next(data, n)..]))
  }

  function FirstLine(data: string): (r: (string, string, bool))
  {
    var b := BreakFrom(data, 0);
    if b < |data| then (data[..b], data[b + 1..], true) else (data, "", false)
  }

  lemma {:induction false} FirstLineOf(data: string, pos: nat)
    requires pos < |data|
    ensures FirstLine(data[pos..]).0 == LineAt(data, pos)
    ensures FirstLine(data[pos..]).1 == data[Next(data, pos)..]
    ensures pos + (|data[pos..]| - |FirstLine(data[pos..]).1|) == Next(data, pos)
  {
    var t := data[pos..];
    SameBreak(data, pos, t, 0, pos);
    assert LineAt(t, 0) == t[..BreakFrom(t, 0)];
    if BreakFrom(t, 0) < |t| {
      assert t[BreakFrom(t, 0) + 1..] == data[pos + BreakFrom(t, 0) + 1..];
    }
  }

  /** Where the text after the opening line starts, if the first line opens a fence. */
  lemma {:induction false} Opening(data: string)
    ensures var (first, rest, ok) := FirstLine(data);
            && (!ok || !IsFence(first) ==> SplitOf(data) == None)
            && (ok && IsFence(first) ==>
                  var start := |data| - |rest|;
                  && start == BreakFrom(data, 0) + 1 && rest == data[start..]
                  && (Scan(data, start, IsFence) == None ==> SplitOf(data) == None))
  {
    assert LineAt(data, 0) == data[..BreakFrom(data, 0)];
  }

  lemma {:induction false} Closing(data: string, start: nat, pos: nat)
    requires BreakFrom(data, 0) < |data| && IsFence(LineAt(data, 0)) && start == BreakFrom(data, 0) + 1
    requires Scan(data, start, IsFence) == Some(pos)
    ensures start <= pos < |data| && SplitOf(data) == Some(Parts(data[start..pos], data[Next(data, pos)..]))
  {
    ScanIsFirst(data, start, IsFence, pos);
  }

  method Split(data: string) returns (interior: string, body: string, present: bool)
    ensures present <==> SplitOf(data).Some?
    ensures present ==> SplitOf(data) == Some(Parts(interior, body))
    ensures !present ==> interior == "" && body == data
  {
    var (first, rest, ok) := FirstLine(data);
    Opening(data);
    if !ok || !IsFence(first) { return "", data, false; }
    var start := |data| - |rest|;
    var pos := ScanFence(data, start, rest);
    if pos == |data| { return "", data, false; }
    assert first == LineAt(data, 0);
    Closing(data, start, pos);
    FirstLineOf(data, pos);
    var (_, after, _) := FirstLine(data[pos..]);
    return data[start..pos], after, true;
  }

  /** The scan for the closing line; the length of the text when there is none. */
  method ScanFence(data: string, start: nat, rest: string) returns (pos: nat)
    requires start <= |data| && rest == data[start..]
    ensures pos <= |data|
    ensures Scan(data, start, IsFence) == if pos < |data| then Some(pos) else None
  {
    pos := start;
    var remaining := rest;
    ghost var goal := Scan(data, start, IsFence);
    while remaining != ""
      invariant start <= pos <= |data| && remaining == data[pos..]
      invariant Scan(data, pos, IsFence) == goal
      decreases |data| - pos
    {
      FirstLineOf(data, pos);
      var (line, after, _) := FirstLine(remaining);
      if IsFence(line) { return; }
      var next := pos + (|remaining| - |after|);
      ScanSkips(data, pos, next, IsFence);
      pos, remaining := next, after;
    }
  }

  function Compose(interior: string, body: string): string
  {
    "---\n" + interior + "---\n" + body
  }

  // ------------------------------------------------------------ what a split is

  predicate FenceLine(l: string)
  {
    l == "---\n" || l == "---\r\n"
  }

  lemma {:induction false} FenceSpellings(line: string)
    ensures IsFence(line) <==> line == "---" || line == "---\r"
  {
    if TrimCR(line) != line { assert line == TrimCR(line) + "\r"; }
  }

  /** An opening fence line, whole lines that are no fences, and a closing fence line that may end the file. */
  ghost predicate IsSplit(data: string, open: string, close: string, p: Parts)
  {
    && data == open + p.interior + close + p.body
    && FenceLine(open)
    && Clean(p.interior, 0, |p.interior|, IsFence)
    && (FenceLine(close) || (IsFence(close) && p.body == ""))
  }

  /** The last line of a text, without a newline. */
  lemma {:induction false} LastLine(s: string, a: nat)
    requires a <= |s| && OneLine(s[a..])
    ensures LineAt(s, a) == s[a..] && BreakFrom(s, a) == |s|
  {
    assert forall k :: a <= k < |s| ==> s[k] == s[a..][k - a];
  }

  lemma {:induction false} OpeningLine(data: string, open: string)
    requires FenceLine(open) && open <= data
    ensures BreakFrom(data, 0) == |open| - 1 < |data| && IsFence(LineAt(data, 0))
  {
    var l := open[..|open| - 1];
    assert open == l + "\n";
    FenceSpellings(l);
    assert data[0..0 + |l|] == l && data[|l|] == open[|l|];
    LineIs(data, 0, l);
  }

  lemma {:induction false} EndedFence(data: string, n: nat, close: string)
    requires PieceAt(data, n, close) && FenceLine(close)
    ensures n < |data| && IsFence(LineAt(data, n)) && Next(data, n) == n + |close|
  {
    var l := close[..|close| - 1];
    FenceSpellings(l);
    assert close[|close| - 1] == '\n';
    assert forall k :: 0 <= k < |close| ==> data[n + k] == close[k];
    assert data[n..n + |l|] == l;
    LineIs(data, n, l);
  }

  lemma {:induction false} ClosingLine(data: string, n: nat, close: string)
    requires PieceAt(data, n, close)
    requires FenceLine(close) || (IsFence(close) && n + |close| == |data|)
    ensures n < |data| && IsFence(LineAt(data, n)) && Next(data, n) == n + |close|
  {
    FenceSpellings(close);
    if FenceLine(close) {
      EndedFence(data, n, close);
    } else {
      assert data[n..] == close;
      LastLine(data, n);
    }
  }

  lemma {:induction false} JoinedPieces(open: string, i: string, close: string, b: string, data: string)
    requires data == open + i + close + b
    ensures open <= data && PieceAt(data, |open|, i)
    ensures |open| + |i| + |close| <= |data| && data[|open| + |i|..|open| + |i| + |close|] == close
    ensures data[|open| + |i| + |close|..] == b && |data| == |open| + |i| + |close| + |b|
  {
  }

  /** The text from `a` to `n` is the interior when a fence line opens before it and another closes after it. */
  lemma {:induction false} SplitBetween(data: string, a: nat, n: nat, t: string)
    requires a == BreakFrom(data, 0) + 1 && a <= n < |data| && IsFence(LineAt(data, 0)) && IsFence(LineAt(data, n))
    requires t == data[a..n] && Clean(t, 0, |t|, IsFence)
    ensures SplitOf(data) == Some(Parts(t, data[Next(data, n)..]))
  {
    assert Scan(data, a, IsFence) == Some(n) by {
      CleanSlice(data, a, n, t, IsFence);
      FirstIsScanned(data, a, IsFence, n);
    }
    Closing(data, a, n);
  }

  /** Any file of that shape is split at its fences. */
  lemma {:induction false} SplitFinds(data: string, open: string, close: string, p: Parts)
    requires IsSplit(data, open, close, p)
    ensures SplitOf(data) == Some(p)
  {
    var (a, n) := (|open|, |open| + |p.interior|);
    JoinedPieces(open, p.interior, close, p.body, data);
    OpeningLine(data, open);
    ClosingLine(data, n, close);
    assert data[a..n] == p.interior && data[Next(data, n)..] == p.body;
    SplitBetween(data, a, n, p.interior);
  }

  lemma {:induction false} FenceLineAt(data: string, n: nat)
    requires n < |data| && IsFence(LineAt(data, n))
    ensures BreakFrom(data, n) < |data| ==> FenceLine(data[n..Next(data, n)])
    ensures BreakFrom(data, n) == |data| ==> IsFence(data[n..Next(data, n)]) && Next(data, n) == |data|
  {
    var l := LineAt(data, n);
    FenceSpellings(l);
    if BreakFrom(data, n) < |data| { assert data[n..Next(data, n)] == l + "\n"; }
  }

  lemma {:induction false} Cut(data: string, a: nat, n: nat, m: nat)
    requires a <= n <= m <= |data|
    ensures data == data[..a] + data[a..n] + data[n..m] + data[m..]
  {
  }

  /** A split file has that shape. */
  lemma {:induction false} SplitHas(data: string) returns (open: string, close: string)
    requires SplitOf(data).Some?
    ensures IsSplit(data, open, close, SplitOf(data).value)
  {
    var p := SplitOf(data).value;
    var a := BreakFrom(data, 0) + 1;
    var n := Scan(data, a, IsFence).value;
    ScanIsFirst(data, a, IsFence, n);
    open, close := data[..a], data[n..Next(data, n)];
    Cut(data, a, n, Next(data, n));
    CleanSlice(data, a, n, p.interior, IsFence);
    FenceLineAt(data, 0);
    assert data[0..a] == open;
    FenceLineAt(data, n);
  }

  /** A composed file splits back into its parts exactly when the interior is whole lines without a fence line. */
  lemma {:induction false} ComposeRoundTrip(interior: string, body: string)
    ensures SplitOf(Compose(interior, body)) == Some(Parts(interior, body)) <==> Clean(interior, 0, |interior|, IsFence)
  {
    var data := Compose(interior, body);
    if Clean(interior, 0, |interior|, IsFence) {
      SplitFinds(data, "---\n", "---\n", Parts(interior, body));
    }
    if SplitOf(data) == Some(Parts(interior, body)) {
      var open, close := SplitHas(data);
    }
  }

  // ------------------------------------------------------------ replacing the body

  /** The fence of a file, newline-terminated. */
  function EndFence(fence: string): string
  {
    if fence != "" && fence[|fence| - 1] == '\n' then fence else fence + "\n"
  }

  /** What stands before the body. */
  function FenceOf(data: string): string
    requires SplitOf(data).Some?
  {
    var p := SplitOf(data).value;
    assert |p.body| <= |data|;
    data[..|data| - |p.body|]
  }

  lemma {:induction false} FencePieces(data: string, open: string, close: string, p: Parts)
    requires IsSplit(data, open, close, p) && SplitOf(data) == Some(p)
    ensures FenceOf(data) == open + p.interior + close
  {
    var f := open + p.interior + close;
    assert data == f + p.body;
  }

  /** Whatever text follows the fence, the split returns the same interior, that text, and the same fence again. */
  lemma {:induction false} FenceIsKept(data: string, text: string)
    requires SplitOf(data).Some?
    ensures SplitOf(EndFence(FenceOf(data)) + text) == Some(Parts(SplitOf(data).value.interior, text))
    ensures FenceOf(EndFence(FenceOf(data)) + text) == EndFence(FenceOf(data))
  {
    var p := SplitOf(data).value;
    var open, close := SplitHas(data);
    FencePieces(data, open, close, p);
    var closed := if FenceLine(close) then close else close + "\n";
    FenceSpellings(close);
    assert EndFence(FenceOf(data)) == open + p.interior + closed by { EndJoined(open + p.interior, close); }
    var q := Parts(p.interior, text);
    var data2 := open + p.interior + closed + text;
    SplitFinds(data2, open, closed, q);
    FencePieces(data2, open, closed, q);
  }

  lemma {:induction false} EndJoined(a: string, close: string)
    requires FenceLine(close) || IsFence(close)
    ensures EndFence(a + close) == a + (if FenceLine(close) then close else close + "\n")
  {
    FenceSpellings(close);
    var f := a + close;
    assert f[|f| - 1] == close[|close| - 1];
    if !FenceLine(close) { assert f + "\n" == a + (close + "\n"); }
  }
}
