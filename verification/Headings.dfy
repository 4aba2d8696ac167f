/** The first level-one heading of a body, and titles written as such headings. */
module Headings {
  import opened Results
  import opened Lines
  import opened Fences

  /** The characters the pattern's `\s` stands for. */
  predicate PatternSpace(c: char)
  {
    c == '\t' || c == '\n' || c == '\U{0C}' || c == '\r' || c == ' '
  }

  /** The Unicode white space that trimming removes. */
  predicate UnicodeSpace(c: char)
  {
    || '\U{09}' <= c <= '\U{0D}' || c == ' ' || c == '\U{85}' || c == '\U{A0}' || c == '\U{1680}'
    || '\U{2000}' <= c <= '\U{200A}' || c == '\U{2028}' || c == '\U{2029}' || c == '\U{202F}'
    || c == '\U{205F}' || c == '\U{3000}'
  }

  /** The pattern `^#\s+.+`: after the `#`, spaces up to `k` and then some character that is no newline. */
  predicate MatchesPattern(line: string)
  {
    && |line| > 0 && line[0] == '#'
    && exists k :: 2 <= k < |line| && line[k] != '\n' && forall i :: 1 <= i < k ==> PatternSpace(line[i])
  }

  // ------------------------------------------------------------ trimming

  function TrimLeft(s: string): string
  {
    if s != "" && UnicodeSpace(s[0]) then TrimLeft(s[1..]) else s
  }

  function TrimRight(s: string): string
  {
    if s != "" && UnicodeSpace(s[|s| - 1]) then TrimRight(s[..|s| - 1]) else s
  }

  function Trim(s: string): string
  {
    TrimRight(TrimLeft(s))
  }

  /** No white space at either end. */
  predicate Trimmed(s: string)
  {
    s == "" || (!UnicodeSpace(s[0]) && !UnicodeSpace(s[|s| - 1]))
  }

  lemma {:induction false} TrimLeftIs(s: string)
    ensures |TrimLeft(s)| <= |s| && TrimLeft(s) == s[|s| - |TrimLeft(s)|..]
    ensures TrimLeft(s) == "" || !UnicodeSpace(TrimLeft(s)[0])
  {
    if s != "" && UnicodeSpace(s[0]) { TrimLeftIs(s[1..]); }
  }

  lemma {:induction false} TrimRightIs(s: string)
    ensures |TrimRight(s)| <= |s| && TrimRight(s) == s[..|TrimRight(s)|]
    ensures TrimRight(s) == "" || !UnicodeSpace(TrimRight(s)[|TrimRight(s)| - 1])
  {
    if s != "" && UnicodeSpace(s[|s| - 1]) { TrimRightIs(s[..|s| - 1]); }
  }

  /** Trimming leaves a piece of the text without white space at its ends. */
  lemma {:induction false} TrimIsTrimmed(s: string)
    ensures Trimmed(Trim(s)) && |Trim(s)| <= |s|
    ensures forall k :: 0 <= k < |Trim(s)| ==> Trim(s)[k] in s
  {
    var l := TrimLeft(s);
    var t := TrimRight(l);
    TrimLeftIs(s);
    TrimRightIs(l);
    if t != "" { assert t[0] == l[0]; }
    forall k | 0 <= k < |t| ensures t[k] in s {
      assert t[k] == l[k] == s[|s| - |l| + k];
    }
  }

  lemma {:induction false} TrimKeeps(t: string)
    requires Trimmed(t)
    ensures Trim(t) == t
  {
  }

  /** One space in front of a trimmed text is all that is removed. */
  lemma {:induction false} TrimAfterSpace(t: string)
    requires Trimmed(t)
    ensures Trim(" " + t) == t
  {
    var s := " " + t;
    assert s[1..] == t;
    assert TrimLeft(s) == TrimLeft(t);
    TrimKeeps(t);
  }

  // ------------------------------------------------------------ headings

  function HeadingText(line: string): string
  {
    if line != "" && line[0] == '#' then Trim(line[1..]) else Trim(line)
  }

  /** A heading with actual text. */
  predicate IsHeading(line: string)
  {
    MatchesPattern(TrimCR(line)) && HeadingText(TrimCR(line)) != ""
  }

  datatype H1 = H1(prefix: string, heading: string, rest: string)

  /** The text above the first heading, the heading's text, and the text below it; all in `rest` without a heading. */
  function SplitH1Of(body: string): H1
  {
    match Scan(body, 0, IsHeading)
    case None => H1("", "", body)
    case Some(n) =>
      ScanIsFirst(body, 0, IsHeading, n);
      H1(body[..n], HeadingText(TrimCR(LineAt(body, n))), body[Next(body, n)..])
  }

  /** The heading text of one line, empty when the line is no heading. */
  method ReadHeading(line: string) returns (text: string)
    ensures text != "" <==> IsHeading(line)
    ensures text != "" ==> text == HeadingText(TrimCR(line))
  {
    var trimmed := TrimCR(line);
    text := if MatchesPattern(trimmed) then HeadingText(trimmed) else "";
  }

  method SplitH1Parts(body: string) returns (prefix: string, heading: string, rest: string)
    ensures H1(prefix, heading, rest) == SplitH1Of(body)
  {
    var remaining, offset := body, 0;
    ghost var goal := Scan(body, 0, IsHeading);
    while remaining != ""
      invariant offset <= |body| && remaining == body[offset..]
      invariant Scan(body, offset, IsHeading) == goal
      decreases |body| - offset
    {
      FirstLineOf(body, offset);
      var (line, after, _) := FirstLine(remaining);
      var next := offset + (|remaining| - |after|);
      remaining := after;
      var text := ReadHeading(line);
      if text != "" { return body[..offset], text, remaining; }
      ScanSkips(body, offset, next, IsHeading);
      offset := next;
    }
    return "", "", body;
  }

  // ------------------------------------------------------------ titles

  /** A single-line title: text without line breaks and without white space at its ends. */
  predicate IsTitle(t: string)
  {
    t != "" && Trimmed(t) && '\n' !in t && '\r' !in t
  }

  datatype TitleError = EmptyTitle | SeveralLines

  function NormalizeTitle(raw: string): (r: Result<string, TitleError>)
  {
    var s := Trim(raw);
    if s == "" then Err(EmptyTitle)
    else if '\r' in s || '\n' in s then Err(SeveralLines)
    else
      var parts := SplitH1Of(s);
      Ok(if parts.heading != "" && parts.rest == "" then parts.heading else s)
  }

  /** On one line, the heading is the whole text or there is none. */
  lemma {:induction false} OneLineHeading(s: string)
    requires s != "" && '\n' !in s && '\r' !in s
    ensures IsHeading(s) ==> SplitH1Of(s) == H1("", HeadingText(s), "")
    ensures !IsHeading(s) ==> SplitH1Of(s) == H1("", "", s)
  {
    assert s[0..] == s && forall k :: 0 <= k < |s| ==> s[k] in s;
    LastLine(s, 0);
    assert TrimCR(s) == s;
    assert Next(s, 0) == |s| && Scan(s, |s|, IsHeading) == None;
    assert s[..0] == "" && s[|s|..] == "";
  }

  lemma {:induction false} HeadingIsTitle(s: string)
    requires s != "" && '\n' !in s && '\r' !in s && IsHeading(s)
    ensures IsTitle(HeadingText(s)) && |HeadingText(s)| < |s|
  {
    assert s[|s| - 1] in s;
    assert TrimCR(s) == s;
    TrimIsTrimmed(s[1..]);
  }

  /** A raw title is refused exactly when it is blank or has several lines once trimmed; otherwise a title comes out. */
  lemma {:induction false} NormalizedIsTitle(raw: string)
    ensures NormalizeTitle(raw).Ok? <==> Trim(raw) != "" && '\n' !in Trim(raw) && '\r' !in Trim(raw)
    ensures NormalizeTitle(raw).Ok? ==> IsTitle(NormalizeTitle(raw).value)
  {
    var s := Trim(raw);
    TrimIsTrimmed(raw);
    if s != "" && '\n' !in s && '\r' !in s {
      OneLineHeading(s);
      if IsHeading(s) { HeadingIsTitle(s); }
    }
  }

  /** A title is left alone exactly when it does not itself read as a heading. */
  lemma {:induction false} TitleIsNormal(t: string)
    requires IsTitle(t)
    ensures NormalizeTitle(t) == Ok(t) <==> !IsHeading(t)
    ensures IsHeading(t) ==> NormalizeTitle(t).Ok? && |NormalizeTitle(t).value| < |t|
  {
    TrimKeeps(t);
    OneLineHeading(t);
    if IsHeading(t) { HeadingIsTitle(t); }
  }

  lemma {:induction false} MatchesAtOnce(l: string)
    requires |l| >= 3 && l[0] == '#' && l[1] == ' ' && l[2] != '\n'
    ensures MatchesPattern(l)
  {
    assert forall i :: 1 <= i < 2 ==> PatternSpace(l[i]);
  }

  /** A line is a heading exactly when a `#` is followed by a blank, tab, form feed or carriage return, and something
      other than white space comes after that. */
  lemma {:induction false} HeadingExactly(l: string)
    requires OneLine(l) && TrimCR(l) == l
    ensures IsHeading(l) <==>
              |l| >= 2 && l[0] == '#' && (l[1] == ' ' || l[1] == '\t' || l[1] == '\U{0C}' || l[1] == '\r')
              && exists k :: 2 <= k < |l| && !UnicodeSpace(l[k])
  {
    PatternOnOneLine(l);
    if |l| >= 3 && l[0] == '#' && PatternSpace(l[1]) {
      TrimIsEmpty(l[1..]);
      SpacesFrom(l, l[1..]);
    }
  }

  lemma {:induction false} PatternOnOneLine(l: string)
    requires OneLine(l)
    ensures MatchesPattern(l) <==> |l| >= 3 && l[0] == '#' && PatternSpace(l[1])
  {
    if |l| >= 3 && l[0] == '#' && PatternSpace(l[1]) {
      assert l[2] != '\n' && forall i :: 1 <= i < 2 ==> PatternSpace(l[i]);
    }
  }

  lemma {:induction false} SpacesFrom(l: string, s: string)
    requires |l| >= 2 && s == l[1..] && UnicodeSpace(l[1])
    ensures AllSpace(s) <==> forall k :: 2 <= k < |l| ==> UnicodeSpace(l[k])
  {
    assert forall k :: 0 <= k < |s| ==> s[k] == l[k + 1];
    if AllSpace(s) {
      forall k | 2 <= k < |l| ensures UnicodeSpace(l[k]) { assert s[k - 1] == l[k]; }
    }
  }

  lemma {:induction false} TrimIsEmpty(s: string)
    ensures Trim(s) == "" <==> AllSpace(s)
  {
    if AllSpace(s) {
      assert s + "" == s;
      TrimLeftPadded(s, "");
    } else {
      var k :| 0 <= k < |s| && !UnicodeSpace(s[k]);
      KeepsLeft(s, k);
      var l := TrimLeft(s);
      var m :| 0 <= m < |l| && !UnicodeSpace(l[m]);
      KeepsRight(l, m);
    }
  }

  lemma {:induction false} KeepsLeft(s: string, k: nat)
    requires k < |s| && !UnicodeSpace(s[k])
    ensures exists m :: 0 <= m < |TrimLeft(s)| && !UnicodeSpace(TrimLeft(s)[m])
  {
    if UnicodeSpace(s[0]) {
      assert s[1..][k - 1] == s[k];
      KeepsLeft(s[1..], k - 1);
      assert TrimLeft(s) == TrimLeft(s[1..]);
    } else {
      assert TrimLeft(s) == s && !UnicodeSpace(TrimLeft(s)[k]);
    }
  }

  lemma {:induction false} KeepsRight(s: string, k: nat)
    requires k < |s| && !UnicodeSpace(s[k])
    ensures TrimRight(s) != ""
    decreases |s|
  {
    if UnicodeSpace(s[|s| - 1]) { KeepsRight(s[..|s| - 1], k); }
  }

  /** A title written after `# ` is a heading with that text. */
  lemma {:induction false} HeadingLine(t: string, l: string)
    requires IsTitle(t) && l == "# " + t
    ensures OneLine(l) && TrimCR(l) == l && IsHeading(l) && HeadingText(l) == t
  {
    assert forall k :: 0 <= k < |t| ==> t[k] in t;
    assert l[0] == '#' && l[1] == ' ' && l[2] == t[0] && l[|l| - 1] == t[|t| - 1];
    assert forall k :: 2 <= k < |l| ==> l[k] == t[k - 2];
    MatchesAtOnce(l);
    AfterHash(t, l);
  }

  lemma {:induction false} AfterHash(t: string, l: string)
    requires IsTitle(t) && l == "# " + t
    ensures HeadingText(l) == t
  {
    assert l[1..] == " " + t;
    TrimAfterSpace(t);
  }

  lemma {:induction false} PastedHeading(t: string)
    requires IsTitle(t)
    ensures NormalizeTitle("# " + t) == Ok(t)
  {
    var l := "# " + t;
    HeadingLine(t, l);
    assert forall c :: c in l ==> c in t || c == '#' || c == ' ';
    assert l[|l| - 1] == t[|t| - 1];
    TrimKeeps(l);
    assert TrimCR(l) == l;
    OneLineHeading(l);
  }

  predicate AllSpace(s: string)
  {
    forall k :: 0 <= k < |s| ==> UnicodeSpace(s[k])
  }

  lemma {:induction false} TrimLeftPadded(a: string, s: string)
    requires AllSpace(a)
    ensures TrimLeft(a + s) == TrimLeft(s)
  {
    if a != [] {
      assert (a + s)[0] == a[0] && (a + s)[1..] == a[1..] + s;
      TrimLeftPadded(a[1..], s);
    } else {
      assert a + s == s;
    }
  }

  lemma {:induction false} TrimRightPadded(s: string, b: string)
    requires AllSpace(b)
    ensures TrimRight(s + b) == TrimRight(s)
    decreases |b|
  {
    if b != [] {
      var n := |b| - 1;
      assert (s + b)[|s + b| - 1] == b[n] && (s + b)[..|s + b| - 1] == s + b[..n];
      TrimRightPadded(s, b[..n]);
    } else {
      assert s + b == s;
    }
  }

  /** White space around a title is removed. */
  lemma {:induction false} TrimPadded(a: string, t: string, b: string)
    requires AllSpace(a) && AllSpace(b) && Trimmed(t) && t != ""
    ensures Trim(a + t + b) == t
  {
    assert a + t + b == a + (t + b);
    TrimLeftPadded(a, t + b);
    assert (t + b)[0] == t[0];
    TrimRightPadded(t, b);
  }

  /** A title is what is left of the raw text without the white space around it, or, if that is a heading, the heading's
      text: the `#`, the spaces behind it and the white space around gone. */
  lemma {:induction false} PaddedTitle(a: string, t: string, b: string)
    requires AllSpace(a) && AllSpace(b) && IsTitle(t)
    ensures NormalizeTitle(a + t + b) == NormalizeTitle(t)
  {
    TrimPadded(a, t, b);
    TrimKeeps(t);
  }

  lemma {:induction false} PastedTitle(s: string, t: string)
    requires IsTitle(t) && s != "" && forall k :: 0 <= k < |s| ==> s[k] == ' ' || s[k] == '\t'
    ensures NormalizeTitle("#" + s + t) == Ok(t)
  {
    var l := "#" + s + t;
    HashedText(s, t, l);
    HashedIsHeading(s, t, l);
    TrimKeeps(l);
    OneLineHeading(l);
  }

  lemma {:induction false} HashedText(s: string, t: string, l: string)
    requires IsTitle(t) && l == "#" + s + t && s != "" && forall k :: 0 <= k < |s| ==> s[k] == ' ' || s[k] == '\t'
    ensures Trimmed(l) && l != "" && '\n' !in l && '\r' !in l && TrimCR(l) == l
  {
    assert forall c :: c in l ==> c == '#' || c in s || c in t;
    assert l[|l| - 1] == t[|t| - 1];
  }

  lemma {:induction false} HashedIsHeading(s: string, t: string, l: string)
    requires IsTitle(t) && l == "#" + s + t && s != "" && forall k :: 0 <= k < |s| ==> s[k] == ' ' || s[k] == '\t'
    requires '\n' !in l && TrimCR(l) == l
    ensures IsHeading(l) && HeadingText(l) == t
  {
    assert l[1..] == s + t + "";
    TrimPadded(s, t, "");
    var k := |s| + 1;
    assert l[k] in l && forall i :: 1 <= i < k ==> l[i] == s[i - 1];
    assert MatchesPattern(l);
  }

  /** Normalising twice is not normalising once: a heading inside a heading loses one `#` each time. */
  lemma {:induction false} NormalizingIsNotIdempotent()
    ensures NormalizeTitle("# # a") == Ok("# a") && NormalizeTitle("# a") == Ok("a")
  {
    assert "# # a" == "# " + "# a" && "# a" == "# " + "a";
    PastedHeading("a");
    PastedHeading("# a");
  }
}
