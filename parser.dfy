/** The parser of the model's reply (`parse_model_response`): three regular
    expression searches followed by `str.strip` and `str.splitlines`.

    The patterns are
      COMMIT_MESSAGE:\s*([\s\S]*?)\nDIFF:
      DIFF:\s*([\s\S]*?)\nCOMMANDS:
      COMMANDS:\s*([\s\S]*)
    and each is searched for over the whole reply. The first two are modelled
    by the backtracking search of Python's `re` engine (Search); the lemmas
    SectionMissing and SectionAt describe their result directly. */
module Parser {
  import opened Text

  const CommitMarker: string := "COMMIT_MESSAGE:"
  const DiffMarker: string := "DIFF:"
  const CommandsMarker: string := "COMMANDS:"
  /** The terminators of the two lazy groups. */
  const DiffClose: string := "\n" + DiffMarker
  const CommandsClose: string := "\n" + CommandsMarker

  /** What parse_model_response returns: (commit_msg, diff_text, commands). */
  datatype Response = Response(commitMsg: string, diffText: string, commands: seq<string>)

  // ---------------------------------------------------------------------------
  // The regular-expression engine on `OPEN\s*([\s\S]*?)CLOSE`.

  /** Once `\s*` has consumed `t[lo..j]`, the lazy group ends at the first
      occurrence of `close` at or after `j`; failing that, the greedy `\s*`
      gives back one character and the group is tried again from `j - 1`. */
  function Backtrack(t: string, close: string, lo: nat, j: nat): (g: Option<string>)
    requires lo <= j <= |t|
    ensures g.Some? ==> FindFrom(t, close, lo).At?
    decreases j
  {
    var k := FindFrom(t, close, j);
    if k.At? then Some(t[j..k.pos])
    else if j == lo then None
    else Backtrack(t, close, lo, j - 1)
  }

  /** One attempt of the pattern with the match starting at `s`; the group
      text if it matches there. */
  function MatchAt(t: string, open: string, close: string, s: nat): Option<string>
    requires s <= |t|
  {
    if OccursAt(t, open, s) then
      var e := s + |open|;
      Backtrack(t, close, e, SkipSpace(t, e))
    else None
  }

  /** `re.search`: the attempt at the leftmost start position that matches. */
  function Search(t: string, open: string, close: string, s: nat): Option<string>
    requires s <= |t|
    decreases |t| - s
  {
    match MatchAt(t, open, close, s)
    case Some(g) => Some(g)
    case None => if s == |t| then None else Search(t, open, close, s + 1)
  }

  /** `m.group(1).strip()` if the pattern matched, else the empty string. */
  function Section(t: string, open: string, close: string): (r: string)
    ensures Stripped(r)
  {
    StripGroup(Search(t, open, close, 0))
  }

  function StripGroup(g: Option<string>): (r: string)
    ensures Stripped(r)
  {
    match g
    case Some(x) => Strip(x)
    case None => []
  }

  /** The stripped text from `w` to the first `close` after it, or empty. */
  function UpToClose(t: string, close: string, w: nat): string
    requires w <= |t|
  {
    var k := FindFrom(t, close, w);
    if k.Missing? then [] else Strip(t[w..k.pos])
  }

  /** The group of `COMMANDS:\s*([\s\S]*)`, split into lines, each stripped,
      blank lines dropped. The pattern matches at the first `COMMANDS:`, since
      its group accepts every rest of the text. */
  function CommandList(t: string): (cs: seq<string>)
    ensures forall i :: 0 <= i < |cs| ==> cs[i] != [] && Stripped(cs[i])
  {
    var p := FindFrom(t, CommandsMarker, 0);
    if p.Missing? then []
    else CleanLines(SplitLines(t[SkipSpace(t, p.pos + |CommandsMarker|)..]))
  }

  /** parse_model_response */
  function ParseModelResponse(t: string): (r: Response)
    ensures Stripped(r.commitMsg) && Stripped(r.diffText)
    ensures forall i :: 0 <= i < |r.commands| ==> r.commands[i] != [] && Stripped(r.commands[i])
  {
    Response(Section(t, CommitMarker, DiffClose),
             Section(t, DiffMarker, CommandsClose),
             CommandList(t))
  }

  // ---------------------------------------------------------------------------
  // The search equals the reference description.

  /** When the lazy group finds no `close` from `j` on, backtracking can only
      succeed with an empty group, and does so exactly when some `close`
      starts at or after `lo`. */
  lemma {:induction false} BacktrackMiss(t: string, close: string, lo: nat, j: nat)
    requires lo <= j <= |t| && FindFrom(t, close, j) == Missing
    ensures Backtrack(t, close, lo, j) == if FindFrom(t, close, lo).At? then Some([]) else None
    decreases j
  {
    if j > lo {
      var r := FindFrom(t, close, j - 1);
      if r.At? {
        var k := r.pos;
        assert OccursAt(t, close, k);
        assert k == j - 1;
        FindFound(t, close, lo, k);
        assert Backtrack(t, close, lo, j) == Backtrack(t, close, lo, j - 1) == Some(t[k..k]);
        assert t[k..k] == [];
      } else {
        BacktrackMiss(t, close, lo, j - 1);
      }
    }
  }

  lemma BacktrackNone(t: string, close: string, lo: nat, j: nat)
    requires lo <= j <= |t| && FindFrom(t, close, lo) == Missing
    ensures Backtrack(t, close, lo, j) == None
  {
    assert FindFrom(t, close, j) == Missing;
    BacktrackMiss(t, close, lo, j);
  }

  /** Start positions without `open` are skipped. */
  lemma {:induction false} SearchBefore(t: string, open: string, close: string, s: nat, p: nat)
    requires s <= p <= |t|
    requires forall j :: s <= j < p ==> !OccursAt(t, open, j)
    ensures Search(t, open, close, s) == Search(t, open, close, p)
    decreases p - s
  {
    if s < p {
      assert !OccursAt(t, open, s);
      SearchBefore(t, open, close, s + 1, p);
    }
  }

  /** No attempt succeeds once no `close` is left after its `open`. */
  lemma {:induction false} SearchNone(t: string, open: string, close: string, s: nat, lo: nat)
    requires s <= |t| && lo <= s + |open| && FindFrom(t, close, lo) == Missing
    ensures Search(t, open, close, s) == None
    decreases |t| - s
  {
    if OccursAt(t, open, s) {
      var e := s + |open|;
      assert FindFrom(t, close, e) == Missing;
      BacktrackNone(t, close, e, SkipSpace(t, e));
    }
    if s < |t| {
      SearchNone(t, open, close, s + 1, lo);
    }
  }

  /** Described without the regular-expression engine: with no `open` in
      the text the section is empty; otherwise the whitespace after the first
      `open` is skipped and the section is the stripped text from there to the
      first `close`, or empty when no `close` follows. */
  lemma SectionMissing(t: string, open: string, close: string)
    requires FindFrom(t, open, 0) == Missing
    ensures Section(t, open, close) == []
  {
    SearchBefore(t, open, close, 0, |t|);
    assert !OccursAt(t, open, |t|);
  }

  lemma SectionAt(t: string, open: string, close: string, p: nat)
    requires FindFrom(t, open, 0) == At(p)
    ensures Section(t, open, close) == UpToClose(t, close, SkipSpace(t, p + |open|))
  {
    SearchBefore(t, open, close, 0, p);
    SearchAtFirst(t, open, close, p);
  }

  /** The section when the skipped whitespace ends at `w` and the first
      `close` after it is at `k`. */
  lemma SectionFrom(t: string, open: string, close: string, p: nat, w: nat, k: nat)
    requires FindFrom(t, open, 0) == At(p) && SkipSpace(t, p + |open|) == w
    requires FindFrom(t, close, w) == At(k)
    ensures Section(t, open, close) == Strip(t[w..k])
  {
    SectionAt(t, open, close, p);
  }

  /** The section when no `close` follows the skipped whitespace at `w`. */
  lemma SectionUnclosed(t: string, open: string, close: string, p: nat, w: nat)
    requires FindFrom(t, open, 0) == At(p) && SkipSpace(t, p + |open|) == w
    requires FindFrom(t, close, w) == Missing
    ensures Section(t, open, close) == []
  {
    SectionAt(t, open, close, p);
  }

  /** The natural reading of the pattern takes the stripped text from the end
      of the first `open` (at `e`) to the first `close` after it. It agrees
      with the regular expression, which by SectionAt reads from the end of
      the whitespace that `\s*` skips, unless that `close` begins inside the
      skipped whitespace; then the section ends at a later `close` (see
      ReplyFormat.EmptyCommitCaptured). */
  lemma UpToCloseSkip(t: string, close: string, e: nat)
    requires e <= |t|
    requires FindFrom(t, close, e).At? ==> SkipSpace(t, e) <= FindFrom(t, close, e).pos
    ensures UpToClose(t, close, e) == UpToClose(t, close, SkipSpace(t, e))
  {
    var w := SkipSpace(t, e);
    var r := FindFrom(t, close, e);
    if r.At? {
      FindFromLater(t, close, e, w, r.pos);
      StripFromSkip(t, e, r.pos);
    } else {
      assert FindFrom(t, close, w) == Missing;
    }
  }

  /** The search at the first `open`, at `p`. */
  lemma SearchAtFirst(t: string, open: string, close: string, p: nat)
    requires OccursAt(t, open, p)
    ensures StripGroup(Search(t, open, close, p)) == UpToClose(t, close, SkipSpace(t, p + |open|))
  {
    var e := p + |open|;
    var w := SkipSpace(t, e);
    assert MatchAt(t, open, close, p) == Backtrack(t, close, e, w);
    if FindFrom(t, close, w).Missing? {
      BacktrackMiss(t, close, e, w);
      if FindFrom(t, close, e).Missing? {
        if p < |t| {
          SearchNone(t, open, close, p + 1, e);
        }
      } else {
        assert Search(t, open, close, p) == Some([]);
      }
    }
  }

  /** The whitespace that `\s*` skips after `COMMANDS:` does not change the
      commands: they are the clean lines of everything after the first
      `COMMANDS:` (and there are none without one). */
  lemma CommandsAt(t: string, p: nat)
    requires FindFrom(t, CommandsMarker, 0) == At(p)
    ensures CommandList(t) == CleanLines(SplitLines(t[p + |CommandsMarker|..]))
  {
    var e := p + |CommandsMarker|;
    var w := SkipSpace(t, e);
    var ws := t[e..w];
    assert t[e..] == ws + t[w..];
    assert AllSpace(ws) by {
      forall x | 0 <= x < |ws| ensures IsSpace(ws[x]) {
        assert ws[x] == t[e + x];
      }
    }
    CleanSplitSkipsLeading(ws, t[w..]);
  }
}
