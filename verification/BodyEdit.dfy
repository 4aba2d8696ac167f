/** Replacing the heading and the body behind a file's fence. */
module BodyEdit {
  import opened Results
  import opened Lines
  import opened Fences
  import opened Headings

  // ------------------------------------------------------------ newlines

  function CRLFToLF(s: string): string
  {
    if s == "" then ""
    else if |s| >= 2 && s[0] == '\r' && s[1] == '\n' then "\n" + CRLFToLF(s[2..])
    else [s[0]] + CRLFToLF(s[1..])
  }

  function CRToLF(s: string): string
  {
    if s == "" then "" else [if s[0] == '\r' then '\n' else s[0]] + CRToLF(s[1..])
  }

  function PosixLF(s: string): string
  {
    CRToLF(CRLFToLF(s))
  }

  /** One pass: each of the three line endings is one newline. */
  function OneNewlineEach(s: string): string
  {
    if s == "" then ""
    else if s[0] == '\r' then "\n" + OneNewlineEach(if |s| >= 2 && s[1] == '\n' then s[2..] else s[1..])
    else [s[0]] + OneNewlineEach(s[1..])
  }

  lemma {:induction false} CRToLFCons(c: char, s: string)
    ensures CRToLF([c] + s) == [if c == '\r' then '\n' else c] + CRToLF(s)
  {
    assert ([c] + s)[1..] == s;
  }

  /** The two replacements together turn every line ending into one newline. */
  lemma {:induction false} PosixIsOnePass(s: string)
    ensures PosixLF(s) == OneNewlineEach(s)
    decreases |s|
  {
    if s == "" {
    } else if |s| >= 2 && s[0] == '\r' && s[1] == '\n' {
      PosixIsOnePass(s[2..]);
      CRToLFCons('\n', CRLFToLF(s[2..]));
    } else {
      PosixIsOnePass(s[1..]);
      CRToLFCons(s[0], CRLFToLF(s[1..]));
    }
  }

  lemma {:induction false} PosixHasNoCR(s: string)
    ensures '\r' !in PosixLF(s)
  {
    NoCRLeft(CRLFToLF(s));
  }

  lemma {:induction false} NoCRLeft(s: string)
    ensures '\r' !in CRToLF(s)
  {
    if s != "" { NoCRLeft(s[1..]); }
  }

  lemma {:induction false} PosixKeeps(s: string)
    requires '\r' !in s
    ensures CRLFToLF(s) == s && CRToLF(s) == s
  {
    if s != "" {
      assert s[0] in s && s == [s[0]] + s[1..];
      PosixKeeps(s[1..]);
    }
  }

  // ------------------------------------------------------------ replacing

  /** What follows the fence: the lead, the heading line, and the body. */
  function TailOf(title: string, lead: string, body: string): string
  {
    Ended(PosixLF(lead)) + ("# " + title) + "\n" + Ended(PosixLF(body))
  }

  method Replace(fence: string, title: string, lead0: string, body0: string) returns (b: string)
    ensures b == EndFence(fence) + TailOf(title, lead0, body0)
  {
    var lead, body := PosixLF(lead0), PosixLF(body0);
    b := fence;
    if !(fence != "" && fence[|fence| - 1] == '\n') { b := b + "\n"; }
    ghost var f := b;
    var tail := lead;
    if lead != "" && lead[|lead| - 1] != '\n' { tail := tail + "\n"; }
    tail := tail + "# ";
    tail := tail + title;
    assert tail == Ended(lead) + ("# " + title);
    tail := tail + "\n";
    tail := tail + body;
    if body != "" && body[|body| - 1] != '\n' {
      tail := tail + "\n";
      assert tail == Ended(lead) + ("# " + title) + "\n" + (body + "\n");
    }
    b := b + tail;
  }

  lemma {:induction false} TailPieces(lead: string, line: string, body: string, tail: string)
    requires tail == lead + line + "\n" + body
    ensures PieceAt(tail, 0, lead) && PieceAt(tail, |lead|, line)
    ensures |lead| + |line| < |tail| && tail[|lead| + |line|] == '\n' && tail[|lead| + |line| + 1..] == body
  {
  }

  /** No line of the normalised lead is a heading. */
  predicate HasNoHeading(lead: string)
  {
    var l := Ended(PosixLF(lead));
    Clean(l, 0, |l|, IsHeading)
  }

  /** The parts a reader should find again. */
  function NormalParts(title: string, lead: string, body: string): H1
  {
    H1(Ended(PosixLF(lead)), title, Ended(PosixLF(body)))
  }

  lemma {:induction false} ReadsBack(l: string, h: string, b: string, tail: string, title: string)
    requires IsTitle(title) && h == "# " + title && tail == l + h + "\n" + b && Clean(l, 0, |l|, IsHeading)
    ensures SplitH1Of(tail) == H1(l, title, b)
  {
    TailPieces(l, h, b, tail);
    HeadingLine(title, h);
    LineIs(tail, |l|, h);
    CleanSlice(tail, 0, |l|, l, IsHeading);
    FirstIsScanned(tail, 0, IsHeading, |l|);
    assert tail[..|l|] == l;
  }

  lemma {:induction false} ReadsShorter(l: string, h: string, b: string, tail: string)
    requires tail == l + h + "\n" + b && !Clean(l, 0, |l|, IsHeading) && l != "" && l[|l| - 1] == '\n'
    ensures |SplitH1Of(tail).prefix| < |l|
  {
    TailPieces(l, h, b, tail);
    CleanSlice(tail, 0, |l|, l, IsHeading);
    assert tail[|l| - 1] == l[|l| - 1];
    FoundWithin(tail, 0, |l|, IsHeading);
  }

  /** When no less is read as prefix than was written, there is no heading in it. */
  lemma {:induction false} ReadsNoLess(l: string, h: string, b: string, tail: string)
    requires tail == l + h + "\n" + b && Ended(l) == l && |l| <= |SplitH1Of(tail).prefix|
    ensures Clean(l, 0, |l|, IsHeading)
  {
    if l != "" && !Clean(l, 0, |l|, IsHeading) { ReadsShorter(l, h, b, tail); }
  }

  /** When there is a heading in it, that one is found. */
  lemma {:induction false} ReadsSome(l: string, h: string, b: string, tail: string)
    requires tail == l + h + "\n" + b && l != "" && l[|l| - 1] == '\n' && !Clean(l, 0, |l|, IsHeading)
    ensures SplitH1Of(tail).heading != ""
  {
    TailPieces(l, h, b, tail);
    CleanSlice(tail, 0, |l|, l, IsHeading);
    assert tail[|l| - 1] == l[|l| - 1];
    FoundWithin(tail, 0, |l|, IsHeading);
    ScanIsFirst(tail, 0, IsHeading, Scan(tail, 0, IsHeading).value);
  }

  /** The tail is read back as its parts exactly when no line of the normalised lead is a heading. */
  lemma {:induction false} TailReadsBack(title: string, lead: string, body: string)
    requires IsTitle(title)
    ensures SplitH1Of(TailOf(title, lead, body)) == NormalParts(title, lead, body) <==> HasNoHeading(lead)
  {
    var (l, b) := (Ended(PosixLF(lead)), Ended(PosixLF(body)));
    if HasNoHeading(lead) {
      ReadsBack(l, "# " + title, b, TailOf(title, lead, body), title);
    } else {
      ReadsShorter(l, "# " + title, b, TailOf(title, lead, body));
    }
  }

  // ------------------------------------------------------------ splicing a file

  datatype SpliceError = BadTitle(error: TitleError) | NoFence

  /** The edit of one file: the title is normalised, the fence kept, and everything behind it replaced. */
  function Splice(data: string, rawTitle: string, lead: string, body: string): (r: Result<string, SpliceError>)
  {
    match NormalizeTitle(rawTitle)
    case Err(e) => Err(BadTitle(e))
    case Ok(t) =>
      if SplitOf(data) == None then Err(NoFence)
      else Ok(EndFence(FenceOf(data)) + TailOf(t, lead, body))
  }

  /** What an editor reads from a file with a fence. */
  function PartsOf(data: string): H1
    requires SplitOf(data).Some?
  {
    SplitH1Of(SplitOf(data).value.body)
  }

  /** A spliced file keeps the fence and its interior, and reads back as the new lead, title and body exactly when the
      lead has no heading. */
  lemma {:induction false} SpliceRoundTrip(data: string, rawTitle: string, lead: string, body: string, out: string)
    requires Splice(data, rawTitle, lead, body) == Ok(out)
    ensures SplitOf(data).Some? && SplitOf(out).Some?
    ensures SplitOf(out).value.interior == SplitOf(data).value.interior && FenceOf(out) == EndFence(FenceOf(data))
    ensures PartsOf(out) == NormalParts(NormalizeTitle(rawTitle).value, lead, body) <==> HasNoHeading(lead)
  {
    var t := NormalizeTitle(rawTitle).value;
    NormalizedIsTitle(rawTitle);
    TailReadsBack(t, lead, body);
    FenceIsKept(data, TailOf(t, lead, body));
  }

  // ------------------------------------------------------------ splicing a file's own parts

  /** Splicing what an editor reads from the file. */
  function SpliceOwn(data: string): Result<string, SpliceError>
    requires SplitOf(data).Some?
  {
    Splice(data, PartsOf(data).heading, PartsOf(data).prefix, PartsOf(data).rest)
  }

  /** There is a heading, its line is `# ` and the heading's text, and that text does not itself read as a heading. */
  predicate PlainHeading(body: string)
  {
    var h := SplitH1Of(body);
    h.heading != "" && body == h.prefix + ("# " + h.heading) + "\n" + h.rest && !IsHeading(h.heading)
  }

  /** Newlines only, and one at the end. */
  predicate PosixText(body: string)
  {
    '\r' !in body && Ended(body) == body
  }

  lemma {:induction false} PosixShortens(s: string)
    ensures |PosixLF(s)| <= |s|
    ensures s != "" && s[|s| - 1] == '\n' ==> PosixLF(s) != "" && Ended(PosixLF(s)) == PosixLF(s)
    decreases |s|
  {
    PosixIsOnePass(s);
    if s != "" {
      var rest := if |s| >= 2 && s[0] == '\r' && s[1] == '\n' then s[2..] else s[1..];
      PosixShortens(rest);
      PosixIsOnePass(rest);
      if rest != "" { assert rest[|rest| - 1] == s[|s| - 1]; }
    }
  }

  lemma {:induction false} CleanEnds(s: string, i: nat, n: nat, wanted: string -> bool)
    requires i < n <= |s| && Clean(s, i, n, wanted)
    ensures s[n - 1] == '\n'
    decreases n - i
  {
    if BreakFrom(s, i) + 1 < n { CleanEnds(s, BreakFrom(s, i) + 1, n, wanted); }
  }

  /** The parts of a body with a heading: whole lines, and a trimmed text on one line. */
  lemma {:induction false} OwnParts(body: string)
    requires SplitH1Of(body).heading != ""
    ensures var h := SplitH1Of(body);
            && Ended(h.prefix) == h.prefix
            && Trimmed(h.heading) && (forall c :: c in h.heading ==> c in body && c != '\n')
  {
    var n := Scan(body, 0, IsHeading).value;
    ScanIsFirst(body, 0, IsHeading, n);
    WholeLines(body, n);
    var line := LineAt(body, n);
    HeadingPiece(line);
    LineInside(body, n, line);
  }

  lemma {:induction false} WholeLines(body: string, n: nat)
    requires n <= |body| && Clean(body, 0, n, IsHeading)
    ensures Ended(body[..n]) == body[..n]
  {
    if n > 0 {
      CleanEnds(body, 0, n, IsHeading);
      assert body[..n][n - 1] == '\n';
    }
  }

  lemma {:induction false} LineInside(s: string, n: nat, line: string)
    requires n <= |s| && line == LineAt(s, n)
    ensures forall c :: c in line ==> c in s && c != '\n'
  {
    forall k | 0 <= k < |line| ensures line[k] in s && line[k] != '\n' { assert line[k] == s[n + k]; }
  }

  lemma {:induction false} HeadingPiece(line: string)
    ensures Trimmed(HeadingText(TrimCR(line))) && forall c :: c in HeadingText(TrimCR(line)) ==> c in line
  {
    var l := TrimCR(line);
    TrimIsTrimmed(if l != "" && l[0] == '#' then l[1..] else l);
  }

  lemma {:induction false} FenceEnds(data: string)
    requires SplitOf(data).Some? && SplitOf(data).value.body != ""
    ensures EndFence(FenceOf(data)) == FenceOf(data) && data == FenceOf(data) + SplitOf(data).value.body
  {
    var p := SplitOf(data).value;
    var open, close := SplitHas(data);
    FencePieces(data, open, close, p);
    assert FenceOf(data)[|FenceOf(data)| - 1] == close[|close| - 1];
  }

  lemma {:induction false} EndedShortens(s: string)
    requires Ended(s) == s
    ensures |Ended(PosixLF(s))| <= |s|
  {
    PosixShortens(s);
  }

  /** A tail written from its own parts reads back as they are written. */
  lemma {:induction false} OwnTailReadsBack(b: string, t: string, h: H1, l: string, r: string, line: string)
    requires IsTitle(t) && h == SplitH1Of(b) && Ended(l) == l && |l| <= |h.prefix|
    requires line == "# " + t && b == l + line + "\n" + r
    ensures h == H1(l, t, r)
  {
    ReadsNoLess(l, line, r, b);
    ReadsBack(l, line, r, b, t);
  }

  /** So it is plain, in newlines and ended. */
  lemma {:induction false} OwnTailIsPlain(b: string, t: string, h: H1)
    requires IsTitle(t) && h == SplitH1Of(b) && h.heading != "" && NormalizeTitle(h.heading) == Ok(t)
    requires b == TailOf(t, h.prefix, h.rest)
    ensures PlainHeading(b) && PosixText(b)
  {
    var (l, r) := (Ended(PosixLF(h.prefix)), Ended(PosixLF(h.rest)));
    OwnParts(b);
    EndedShortens(h.prefix);
    OwnTailReadsBack(b, t, h, l, r, "# " + t);
    TitleIsNormal(t);
    PosixHasNoCR(h.prefix);
    PosixHasNoCR(h.rest);
    TailIsPosix(l, t, r, b);
  }

  lemma {:induction false} TailIsPosix(l: string, t: string, r: string, b: string)
    requires b == l + ("# " + t) + "\n" + r && '\r' !in l && '\r' !in r && '\r' !in t && Ended(r) == r
    ensures PosixText(b)
  {
    assert b[|b| - 1] == if r == "" then '\n' else r[|r| - 1];
  }

  /** The pieces of a text in newlines are in newlines, and its last piece ends with it. */
  lemma {:induction false} PosixPieces(b: string, l: string, m: string, r: string)
    requires b == l + m + "\n" + r && PosixText(b)
    ensures '\r' !in l && '\r' !in r && Ended(r) == r
  {
    var head := l + m + "\n";
    assert b == head + r;
    assert b[..|l|] == l && b[|head|..] == r;
    if r != "" { assert r[|r| - 1] == b[|b| - 1]; }
  }

  lemma {:induction false} PlainTailIsOwn(b: string, h: H1)
    requires h == SplitH1Of(b) && PlainHeading(b) && PosixText(b)
    ensures NormalizeTitle(h.heading) == Ok(h.heading) && b == TailOf(h.heading, h.prefix, h.rest)
  {
    OwnParts(b);
    assert IsTitle(h.heading);
    TitleIsNormal(h.heading);
    PosixPieces(b, h.prefix, "# " + h.heading, h.rest);
    PosixKeeps(h.prefix);
    PosixKeeps(h.rest);
  }

  /** The files that splicing their own parts leaves alone: exactly those with a plain heading, newlines only, and one
      at the end. */
  lemma {:induction false} SpliceOwnExactly(data: string)
    requires SplitOf(data).Some?
    ensures SpliceOwn(data) == Ok(data) <==>
              PlainHeading(SplitOf(data).value.body) && PosixText(SplitOf(data).value.body)
  {
    var b := SplitOf(data).value.body;
    var h := SplitH1Of(b);
    if SpliceOwn(data) == Ok(data) {
      var t := NormalizeTitle(h.heading).value;
      NormalizedIsTitle(h.heading);
      FenceEnds(data);
      SameTail(FenceOf(data), TailOf(t, h.prefix, h.rest), b);
      OwnTailIsPlain(b, t, h);
    }
    if PlainHeading(b) && PosixText(b) {
      PlainTailIsOwn(b, h);
      FenceEnds(data);
    }
  }

  lemma {:induction false} SameTail(f: string, a: string, b: string)
    requires f + a == f + b
    ensures a == b
  {
    assert (f + a)[|f|..] == a && (f + b)[|f|..] == b;
  }

  /** What is written behind the fence has a heading, newlines only, and one at the end. */
  lemma {:induction false} TailHasHeading(t: string, lead: string, body: string)
    requires IsTitle(t)
    ensures SplitH1Of(TailOf(t, lead, body)).heading != "" && PosixText(TailOf(t, lead, body))
  {
    var (l, b, tail) := (Ended(PosixLF(lead)), Ended(PosixLF(body)), TailOf(t, lead, body));
    PosixHasNoCR(lead);
    PosixHasNoCR(body);
    TailIsPosix(l, t, b, tail);
    var line := "# " + t;
    assert tail == l + line + "\n" + b;
    if Clean(l, 0, |l|, IsHeading) { ReadsBack(l, line, b, tail, t); } else { ReadsSome(l, line, b, tail); }
  }

  /** Splicing the parts of a spliced file again changes nothing exactly when its first heading is plain; and when the
      lead has no heading, exactly when the title does not itself read as a heading. */
  lemma {:induction false} RespliceIsIdentity(data: string, rawTitle: string, lead: string, body: string, out: string)
    requires Splice(data, rawTitle, lead, body) == Ok(out)
    ensures SplitOf(out).Some?
    ensures SpliceOwn(out) == Ok(out) <==> PlainHeading(SplitOf(out).value.body)
    ensures HasNoHeading(lead) ==> (SpliceOwn(out) == Ok(out) <==> !IsHeading(NormalizeTitle(rawTitle).value))
  {
    var t := NormalizeTitle(rawTitle).value;
    NormalizedIsTitle(rawTitle);
    FenceIsKept(data, TailOf(t, lead, body));
    TailHasHeading(t, lead, body);
    SpliceOwnExactly(out);
    if HasNoHeading(lead) { TailReadsBack(t, lead, body); }
  }

  lemma {:induction false} FirstLineIsHeading(tail: string, line: string, rest: string)
    requires tail == line + "\n" + rest && OneLine(line) && IsHeading(line)
    ensures SplitH1Of(tail) == H1("", HeadingText(TrimCR(line)), rest)
  {
    assert tail[0..0 + |line|] == line && tail[|line|] == '\n' && tail[|line| + 1..] == rest;
    LineIs(tail, 0, line);
  }

  /** A heading line such as `#  a`, which is not written as a title would be. */
  predicate OddHeading(line: string)
  {
    IsHeading(line) && OneLine(line) && '\r' !in line && |line| > 2 + |HeadingText(TrimCR(line))|
  }

  lemma {:induction false} SpacedHeading(line: string)
    requires line == "#  a"
    ensures OddHeading(line) && HeadingText(TrimCR(line)) == "a"
  {
    MatchesAtOnce(line);
    assert line[1..] == "  a" && "  a"[1..] == " " + "a";
    TrimAfterSpace("a");
  }

  lemma {:induction false} OddIsNotPlain(tail: string, line: string, rest: string)
    requires tail == line + "\n" + rest && OddHeading(line)
    ensures !PlainHeading(tail)
  {
    FirstLineIsHeading(tail, line, rest);
    var h := HeadingText(TrimCR(line));
    assert |"" + ("# " + h) + "\n" + rest| < |tail|;
  }

  lemma {:induction false} TailBehindLine(t: string, lead: string, rest: string, tail: string)
    requires lead != "" && OneLine(lead) && '\r' !in lead && rest == "# " + t + "\n" && tail == TailOf(t, lead, "")
    ensures tail == lead + "\n" + rest
  {
    PosixKeeps(lead);
    assert lead[|lead| - 1] != '\n';
    var l := lead + "\n";
    assert Ended(PosixLF(lead)) == l && Ended(PosixLF("")) == "";
    assert tail == l + ("# " + t) + "\n" + "" == l + ("# " + t) + "\n";
  }

  /** A lead that is such a line: whatever the file and the title, the spliced file reads back as other parts, and
      splicing those changes it. */
  lemma {:induction false} HeadingInLead(data: string, title: string, lead: string, out: string)
    requires Splice(data, title, lead, "") == Ok(out) && OddHeading(lead)
    ensures SplitOf(out).Some? && PartsOf(out).heading == HeadingText(TrimCR(lead)) && SpliceOwn(out) != Ok(out)
  {
    var t := NormalizeTitle(title).value;
    var (tail, rest) := (TailOf(t, lead, ""), "# " + t + "\n");
    TailBehindLine(t, lead, rest, tail);
    FirstLineIsHeading(tail, lead, rest);
    OddIsNotPlain(tail, lead, rest);
    FenceIsKept(data, tail);
    RespliceIsIdentity(data, title, lead, "", out);
  }
}
