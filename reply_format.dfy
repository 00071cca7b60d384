/** The reply format that the system prompt asks the model for
    (main.py:118-121):

      COMMIT_MESSAGE:
      <commit message text>
      DIFF:
      <unified git diff patch>
      COMMANDS:
      <command1>
      <command2>

    Render writes a reply in that format, and RoundTrip shows that
    ParseModelResponse gives the three parts back, provided that no part
    contains a section marker (for a command: starts with one).
    EmptyCommitCaptured and EmptyDiffCaptured show that the proviso on
    the commands cannot be dropped, for either marker. */
module ReplyFormat {
  import opened Text
  import opened Parser

  /** `a` and `b` on consecutive lines. */
  function Above(a: string, b: string): string {
    a + "\n" + b
  }

  function Render(m: string, d: string, cs: seq<string>): string {
    Above(CommitMarker, Above(m, Above(DiffMarker, Above(d, Above(CommandsMarker, JoinLines(cs))))))
  }

  /** The part does not contain a marker that opens or closes a later section. */
  ghost predicate MarkerFree(s: string) {
    !Contains(s, DiffMarker) && !Contains(s, CommandsMarker)
  }

  /** A command line that does not start with a marker that closes a
      section (it may contain one further on). */
  predicate PlainCommand(c: string) {
    !StartsWith(c, DiffMarker) && !StartsWith(c, CommandsMarker)
  }

  /** The parts come out of a reply unchanged. */
  ghost predicate Renderable(m: string, d: string, cs: seq<string>) {
    Stripped(m) && Stripped(d) && MarkerFree(m) && MarkerFree(d) &&
    forall i :: 0 <= i < |cs| ==> cs[i] != [] && Stripped(cs[i]) && NoLineBreak(cs[i]) && PlainCommand(cs[i])
  }

  // ---------------------------------------------------------------------------
  // Facts about the markers.

  lemma MarkerFacts()
    ensures '\n' !in DiffMarker && '\n' !in CommandsMarker
    ensures !IsSpace(DiffMarker[0]) && !IsSpace(CommandsMarker[0])
    ensures !Contains(CommitMarker, DiffMarker) && !Contains(CommitMarker, CommandsMarker)
    ensures !Contains(DiffMarker, CommandsMarker) && !Contains(CommandsMarker, DiffMarker)
  {
    MissingChar(CommitMarker, DiffMarker, 0);
    MissingChar(CommitMarker, CommandsMarker, 5);
    MissingChar(DiffMarker, CommandsMarker, 0);
    MissingChar(CommandsMarker, DiffMarker, 1);
  }

  /** No line of `a + "\n" + b` starts with `x` when `a` lacks `x` and no line
      of `b` starts with it. */
  lemma NoLineStarts(a: string, b: string, x: string)
    requires x != [] && '\n' !in x && !Contains(a, x)
    requires !StartsWith(b, x) && !Contains(b, "\n" + x)
    ensures !StartsWith(a + "\n" + b, x) && !Contains(a + "\n" + b, "\n" + x)
  {
    AbsentLineStart(a, x);
    NoLineStartAcross(a, b, x);
    NoStartAcross(a, b, x);
  }

  /** No line of the command block starts with a marker. */
  lemma CommandBlockFree(cs: seq<string>, x: string)
    requires x == DiffMarker || x == CommandsMarker
    requires forall i :: 0 <= i < |cs| ==> NoLineBreak(cs[i]) && PlainCommand(cs[i])
    ensures !StartsWith(JoinLines(cs), x) && !Contains(JoinLines(cs), "\n" + x)
  {
    MarkerFacts();
    forall i | 0 <= i < |cs| ensures '\n' !in cs[i] && !StartsWith(cs[i], x) {
      forall k | 0 <= k < |cs[i]| ensures cs[i][k] != '\n' {
        assert !IsLineBreak(cs[i][k]);
      }
    }
    JoinNoLineStart(cs, x);
  }

  // ---------------------------------------------------------------------------
  // One section of the layout.

  /** The shape of `z + open + "\n" + body + "\n" + y` around the section. */
  lemma LayoutShape(t: string, pre: string, rest: string, z: string, open: string, body: string, y: string)
    requires t == z + Above(open, Above(body, y))
    requires pre == z + (open + "\n") && rest == Above(body, y)
    ensures t == pre + rest && |pre| == |z| + |open| + 1 && t[|z| + |open|] == '\n'
    ensures body != [] ==> rest[..|body|] == body && t[|pre|] == body[0]
    ensures body == [] ==> rest == "\n" + y && t[|pre|] == '\n'
    ensures body == [] && y != [] ==> t[|pre| + 1] == y[0]
  {
    assert t == pre + rest;
    assert t[|z| + |open|] == pre[|z| + |open|];
  }

  /** In `z + open + "\n" + body + "\n" + y`, where `open` first occurs after
      `z` and `y` starts with `x`, the section opened by `open` and closed by
      "\n" + `x` is `body`. */
  lemma SectionLayout(z: string, open: string, body: string, y: string, x: string)
    requires FindFrom(z + Above(open, Above(body, y)), open, 0) == At(|z|)
    requires x != [] && '\n' !in x && !IsSpace(x[0]) && StartsWith(y, x)
    requires Stripped(body) && !Contains(body, x)
    requires body == [] ==> !Contains(y, "\n" + x)
    ensures Section(z + Above(open, Above(body, y)), open, "\n" + x) == body
  {
    var t := z + Above(open, Above(body, y));
    var pre := z + (open + "\n");
    var rest := Above(body, y);
    LayoutShape(t, pre, rest, z, open, body, y);
    if body != [] {
      var close, w := "\n" + x, |pre|;
      var k := w + |body|;
      FilledText(t, pre, rest, body, y, x, close, w, k);
      FilledSection(t, open, close, body, |z|, w, k);
    } else {
      EmptySection(t, pre, rest, open, y, x, |z|);
    }
  }

  /** `close` first follows `w` at `k`, and `body` lies between them. */
  ghost predicate FoundBody(t: string, close: string, w: nat, k: nat, body: string) {
    w <= k <= |t| && FindFrom(t, close, w) == At(k) && t[w..k] == body
  }

  /** Where the section's body ends in `pre + body + "\n" + y`. */
  lemma FilledText(t: string, pre: string, rest: string, body: string, y: string, x: string, close: string, w: nat, k: nat)
    requires t == pre + rest && rest == Above(body, y) && rest[..|body|] == body
    requires '\n' !in x && StartsWith(y, x) && !Contains(body, x)
    requires close == "\n" + x && w == |pre| && k == |pre| + |body|
    ensures FoundBody(t, close, w, k, body)
  {
    SliceShift(t, pre, rest, 0, |body|);
    AbsentLineStart(body, x);
    FirstLineStart(body, y, x);
    FoundShift(t, pre, rest, close, 0, |body|);
  }

  /** The section whose body starts at `w`, right after the line of `open`. */
  lemma FilledSection(t: string, open: string, close: string, body: string, p: nat, w: nat, k: nat)
    requires FindFrom(t, open, 0) == At(p) && w == p + |open| + 1 && w < |t|
    requires t[p + |open|] == '\n' && !IsSpace(t[w])
    requires FoundBody(t, close, w, k, body) && Stripped(body)
    ensures Section(t, open, close) == body
  {
    SkipSpaceStep(t, p + |open|);
    SkipSpaceStop(t, w);
    SectionFrom(t, open, close, p, w, k);
    StripStripped(body);
  }

  lemma EmptySection(t: string, pre: string, rest: string, open: string, y: string, x: string, p: nat)
    requires t == pre + rest && |pre| == p + |open| + 1 && t[p + |open|] == '\n'
    requires rest == "\n" + y && t[|pre|] == '\n' && y != [] && t[|pre| + 1] == y[0]
    requires FindFrom(t, open, 0) == At(p)
    requires x != [] && !IsSpace(x[0]) && StartsWith(y, x) && !Contains(y, "\n" + x)
    ensures Section(t, open, "\n" + x) == []
  {
    var close := "\n" + x;
    var e := p + |open|;
    assert y[0] == x[0];
    SkipSpaceStep(t, e);
    SkipSpaceStep(t, e + 1);
    SkipSpaceStop(t, e + 2);
    NotFound(y, close);
    MissingShift(rest, "\n", y, close, 0);
    MissingShift(t, pre, rest, close, 1);
    SectionUnclosed(t, open, close, p, |pre| + 1);
  }

  // ---------------------------------------------------------------------------
  // The round trip.

  lemma RoundTripCommit(m: string, d: string, cs: seq<string>)
    requires Renderable(m, d, cs)
    ensures ParseModelResponse(Render(m, d, cs)).commitMsg == m
  {
    MarkerFacts();
    var j := JoinLines(cs);
    var s4 := Above(CommandsMarker, j);
    var s3 := Above(d, s4);
    var s2 := Above(DiffMarker, s3);
    var t := Render(m, d, cs);
    assert t == [] + Above(CommitMarker, Above(m, s2));
    StartsWithPrefix(CommitMarker, "\n" + Above(m, s2));
    assert t == CommitMarker + ("\n" + Above(m, s2));
    FindFromIs(t, CommitMarker, 0, 0);
    StartsWithPrefix(DiffMarker, "\n" + s3);
    assert s2 == DiffMarker + ("\n" + s3);
    if m == [] {
      CommandBlockFree(cs, DiffMarker);
      NoLineStarts(CommandsMarker, j, DiffMarker);
      NoLineStarts(d, s4, DiffMarker);
      NoNewlineNoLineStart(DiffMarker, DiffMarker);
      NoLineStartAcross(DiffMarker, s3, DiffMarker);
    }
    SectionLayout([], CommitMarker, m, s2, DiffMarker);
  }

  lemma RoundTripDiff(m: string, d: string, cs: seq<string>)
    requires Renderable(m, d, cs)
    ensures ParseModelResponse(Render(m, d, cs)).diffText == d
  {
    MarkerFacts();
    var j := JoinLines(cs);
    var s4 := Above(CommandsMarker, j);
    var s2 := Above(DiffMarker, Above(d, s4));
    var t := Render(m, d, cs);
    var z := CommitMarker + "\n" + m + "\n";
    assert t == Above(CommitMarker, m) + "\n" + s2;
    assert t == z + s2;
    StartsWithPrefix(DiffMarker, "\n" + Above(d, s4));
    assert s2 == DiffMarker + ("\n" + Above(d, s4));
    NoPlainAcross(CommitMarker, m, DiffMarker);
    FirstAfterNewline(Above(CommitMarker, m), s2, DiffMarker);
    StartsWithPrefix(CommandsMarker, "\n" + j);
    assert s4 == CommandsMarker + ("\n" + j);
    if d == [] {
      CommandBlockFree(cs, CommandsMarker);
      NoNewlineNoLineStart(CommandsMarker, CommandsMarker);
      NoLineStartAcross(CommandsMarker, j, CommandsMarker);
    }
    SectionLayout(z, DiffMarker, d, s4, CommandsMarker);
  }

  /** The reply split before its `COMMANDS:` line. */
  lemma RenderBeforeCommands(m: string, d: string, cs: seq<string>)
    ensures Render(m, d, cs) ==
      Above(Above(Above(CommitMarker, m), DiffMarker), d) + "\n" + (CommandsMarker + ("\n" + JoinLines(cs)))
  {
  }

  /** Where the `COMMANDS:` line of such a text is, and what follows it. */
  lemma CommandsStart(t: string, a: string, j: string)
    requires t == a + "\n" + (CommandsMarker + ("\n" + j))
    requires !Contains(a, CommandsMarker)
    ensures FindFrom(t, CommandsMarker, 0) == At(|a| + 1)
    ensures t[|a| + 1 + |CommandsMarker|..] == "\n" + j
  {
    MarkerFacts();
    StartsWithPrefix(CommandsMarker, "\n" + j);
    FirstAfterNewline(a, CommandsMarker + ("\n" + j), CommandsMarker);
    Regroup(a, CommandsMarker, "\n" + j);
    SuffixShift(t, a + "\n" + CommandsMarker, "\n" + j);
  }

  lemma Regroup(a: string, b: string, c: string)
    ensures a + "\n" + (b + c) == (a + "\n" + b) + c
  {
  }

  /** A `COMMANDS:` line after text without one is followed by the command
      block. */
  lemma CommandsLayout(t: string, a: string, j: string, cs: seq<string>)
    requires t == a + "\n" + (CommandsMarker + ("\n" + j))
    requires !Contains(a, CommandsMarker) && j == JoinLines(cs)
    requires forall i :: 0 <= i < |cs| ==> cs[i] != [] && Stripped(cs[i]) && NoLineBreak(cs[i])
    ensures CommandList(t) == cs
  {
    CommandsStart(t, a, j);
    CommandsAt(t, |a| + 1);
    CleanSplitBreak('\n', j);
    SplitJoin(cs);
    CleanKeeps(cs);
  }

  lemma RoundTripCommands(m: string, d: string, cs: seq<string>)
    requires Renderable(m, d, cs)
    ensures ParseModelResponse(Render(m, d, cs)).commands == cs
  {
    MarkerFacts();
    NoPlainAcross(CommitMarker, m, CommandsMarker);
    NoPlainAcross(Above(CommitMarker, m), DiffMarker, CommandsMarker);
    NoPlainAcross(Above(Above(CommitMarker, m), DiffMarker), d, CommandsMarker);
    RenderBeforeCommands(m, d, cs);
    CommandsLayout(Render(m, d, cs), Above(Above(Above(CommitMarker, m), DiffMarker), d), JoinLines(cs), cs);
  }

  /** Parsing a reply in the requested format gives back its parts. */
  lemma RoundTrip(m: string, d: string, cs: seq<string>)
    requires Renderable(m, d, cs)
    ensures ParseModelResponse(Render(m, d, cs)) == Response(m, d, cs)
  {
    RoundTripCommit(m, d, cs);
    RoundTripDiff(m, d, cs);
    RoundTripCommands(m, d, cs);
  }

  /** With an empty commit message the greedy `\s*` runs past the "\nDIFF:"
      that closes the section, so a later command line starting with `DIFF:`
      closes it instead and the commit message is not empty. */
  lemma EmptyCommitCaptured()
    ensures ParseModelResponse(Render([], [], [DiffMarker])).commitMsg != []
  {
    var t := Render([], [], [DiffMarker]);
    RenderSample();
    SampleShape(t);
    FindFromIs(t, CommitMarker, 0, 0);
    SkipSpaceStep(t, 15);
    SkipSpaceStep(t, 16);
    SkipSpaceStop(t, 17);
    FindFound(t, DiffClose, 17, 33);
    var k := FindFrom(t, DiffClose, 17).pos;
    SectionFrom(t, CommitMarker, DiffClose, 0, 17, k);
    FilledNotBlank(t, 17, k);
  }

  /** The reply with no commit message and no diff and one command `DIFF:`. */
  lemma RenderSample()
    ensures Render([], [], [DiffMarker]) == "COMMIT_MESSAGE:\n\nDIFF:\n\nCOMMANDS:\nDIFF:"
  {
  }

  lemma SampleShape(t: string)
    requires t == "COMMIT_MESSAGE:\n\nDIFF:\n\nCOMMANDS:\nDIFF:"
    ensures |t| == 39 && OccursAt(t, CommitMarker, 0) && OccursAt(t, DiffClose, 33)
    ensures t[15] == '\n' && t[16] == '\n' && t[17] == 'D'
  {
    assert t[..15] == CommitMarker;
    assert t[33..39] == DiffClose;
  }

  /** Likewise for the diff: with an empty diff the greedy `\s*` after `DIFF:`
      runs past the "\nCOMMANDS:" that closes the section, so a later command
      line starting with `COMMANDS:` closes it instead and the diff is not
      empty. */
  lemma EmptyDiffCaptured()
    ensures ParseModelResponse(Render("x", [], [CommandsMarker])).diffText != []
  {
    var t := Render("x", [], [CommandsMarker]);
    DiffSample();
    DiffSampleShape(t);
    SkipSpaceStep(t, 23);
    SkipSpaceStep(t, 24);
    SkipSpaceStop(t, 25);
    FindFound(t, CommandsClose, 25, 34);
    var k := FindFrom(t, CommandsClose, 25).pos;
    SectionFrom(t, DiffMarker, CommandsClose, 18, 25, k);
    FilledNotBlank(t, 25, k);
  }

  /** The reply with commit message "x", no diff and one command `COMMANDS:`. */
  lemma DiffSample()
    ensures Render("x", [], [CommandsMarker]) == "COMMIT_MESSAGE:\nx\nDIFF:\n\nCOMMANDS:\nCOMMANDS:"
  {
  }

  lemma DiffSampleShape(t: string)
    requires t == "COMMIT_MESSAGE:\nx\nDIFF:\n\nCOMMANDS:\nCOMMANDS:"
    ensures |t| == 44 && FindFrom(t, DiffMarker, 0) == At(18) && OccursAt(t, CommandsClose, 34)
    ensures t[23] == '\n' && t[24] == '\n' && t[25] == 'C'
  {
    DiffSampleStart(t);
    DiffSampleClose(t);
  }

  /** The first `DIFF:` of the sample follows its second line. */
  lemma DiffSampleStart(t: string)
    requires t == "COMMIT_MESSAGE:\nx\nDIFF:\n\nCOMMANDS:\nCOMMANDS:"
    ensures FindFrom(t, DiffMarker, 0) == At(18)
  {
    var a, b := "COMMIT_MESSAGE:\nx", "DIFF:\n\nCOMMANDS:\nCOMMANDS:";
    DiffSampleSplit(t, a, b);
    DiffSampleParts(a, b);
    FirstAfterNewline(a, b, DiffMarker);
  }

  lemma DiffSampleSplit(t: string, a: string, b: string)
    requires t == "COMMIT_MESSAGE:\nx\nDIFF:\n\nCOMMANDS:\nCOMMANDS:"
    requires a == "COMMIT_MESSAGE:\nx" && b == "DIFF:\n\nCOMMANDS:\nCOMMANDS:"
    ensures t == a + "\n" + b && |a| == 17
  {
  }

  lemma DiffSampleParts(a: string, b: string)
    requires a == "COMMIT_MESSAGE:\nx" && b == "DIFF:\n\nCOMMANDS:\nCOMMANDS:"
    ensures '\n' !in DiffMarker && !Contains(a, DiffMarker) && StartsWith(b, DiffMarker)
  {
    MissingChar(a, DiffMarker, 0);
    assert b[..5] == DiffMarker;
  }

  lemma DiffSampleClose(t: string)
    requires t == "COMMIT_MESSAGE:\nx\nDIFF:\n\nCOMMANDS:\nCOMMANDS:"
    ensures |t| == 44 && OccursAt(t, CommandsClose, 34)
  {
    assert t[34..44] == CommandsClose;
  }

  /** A stretch that starts with a non-space character does not strip to
      nothing. */
  lemma FilledNotBlank(t: string, w: nat, k: nat)
    requires w < k <= |t| && !IsSpace(t[w])
    ensures Strip(t[w..k]) != []
  {
    assert t[w..k][0] == t[w];
  }
}
