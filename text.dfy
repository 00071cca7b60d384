/** Character classes and string operations of the Python runtime that the
    response parser relies on: `str.isspace`, the regular-expression class `\s`,
    `str.strip`, `str.splitlines`, `"\n".join` and substring search. */
module Text {

  datatype Option<T> = None | Some(value: T)

  /** Where a search found its pattern. */
  datatype Find = Missing | At(pos: nat)

  /** Python's `str.isspace()` for one character; for `str` patterns the
      regular-expression class `\s` matches exactly these characters too. */
  predicate IsSpace(c: char) {
    ('\t' <= c <= '\r') || ('\U{1C}' <= c <= '\U{1F}') || c == ' ' ||
    c == '\U{85}' || c == '\U{A0}' || c == '\U{1680}' ||
    ('\U{2000}' <= c <= '\U{200A}') || c == '\U{2028}' || c == '\U{2029}' ||
    c == '\U{202F}' || c == '\U{205F}' || c == '\U{3000}'
  }

  /** The characters at which `str.splitlines()` ends a line
      ("\r\n" is one boundary, see SplitLines). */
  predicate IsLineBreak(c: char) {
    c == '\n' || c == '\r' || c == '\U{B}' || c == '\U{C}' ||
    c == '\U{1C}' || c == '\U{1D}' || c == '\U{1E}' ||
    c == '\U{85}' || c == '\U{2028}' || c == '\U{2029}'
  }

  ghost predicate AllSpace(s: string) {
    forall i :: 0 <= i < |s| ==> IsSpace(s[i])
  }

  /** `s.strip() == s` */
  ghost predicate Stripped(s: string) {
    s == [] || (!IsSpace(s[0]) && !IsSpace(s[|s| - 1]))
  }

  ghost predicate NoLineBreak(s: string) {
    forall i :: 0 <= i < |s| ==> !IsLineBreak(s[i])
  }

  /** The first index at or after `i` that does not hold whitespace (or |s|). */
  function SkipSpace(s: string, i: nat): (j: nat)
    requires i <= |s|
    ensures i <= j <= |s|
    ensures forall k :: i <= k < j ==> IsSpace(s[k])
    ensures j < |s| ==> !IsSpace(s[j])
    decreases |s| - i
  {
    if i < |s| && IsSpace(s[i]) then SkipSpace(s, i + 1) else i
  }

  /** The end of `s[..j]` once trailing whitespace is removed. */
  function TrimEnd(s: string, j: nat): (k: nat)
    requires j <= |s|
    ensures k <= j
    ensures forall x :: k <= x < j ==> IsSpace(s[x])
    ensures 0 < k ==> !IsSpace(s[k - 1])
  {
    if 0 < j && IsSpace(s[j - 1]) then TrimEnd(s, j - 1) else j
  }

  /** Python's `s.strip()` with no argument. */
  function Strip(s: string): (r: string)
    ensures Stripped(r)
    ensures |r| <= |s|
    ensures r == [] <==> AllSpace(s)
  {
    var i := SkipSpace(s, 0);
    var k := TrimEnd(s, |s|);
    if i < k then s[i..k] else []
  }

  /** Strip is characterised by its result: whatever lies between two
      whitespace-only margins and is itself stripped. */
  lemma StripUnique(s: string, front: string, r: string, back: string)
    requires s == front + r + back
    requires AllSpace(front) && AllSpace(back) && Stripped(r)
    ensures Strip(s) == r
  {
    var i := SkipSpace(s, 0);
    var k := TrimEnd(s, |s|);
    if r == [] {
      assert AllSpace(s) by {
        forall x | 0 <= x < |s| ensures IsSpace(s[x]) {
          if x < |front| { assert s[x] == front[x]; } else { assert s[x] == back[x - |front|]; }
        }
      }
    } else {
      assert s[|front|] == r[0];
      assert s[|front| + |r| - 1] == r[|r| - 1];
      assert forall x :: 0 <= x < |front| ==> s[x] == front[x];
      assert forall x :: |front| + |r| <= x < |s| ==> s[x] == back[x - |front| - |r|];
      assert i == |front|;
      assert k == |front| + |r|;
      assert s[i..k] == r;
    }
  }

  lemma StripStripped(s: string)
    requires Stripped(s)
    ensures Strip(s) == s
  {
    StripUnique(s, [], s, []);
    assert s == [] + s + [];
  }

  lemma {:induction false} SkipSpaceShift(a: string, b: string, i: nat)
    requires i <= |b|
    ensures SkipSpace(a + b, |a| + i) == |a| + SkipSpace(b, i)
    decreases |b| - i
  {
    if i < |b| {
      assert (a + b)[|a| + i] == b[i];
      if IsSpace(b[i]) {
        SkipSpaceShift(a, b, i + 1);
      }
    }
  }

  lemma {:induction false} TrimEndShift(a: string, b: string, j: nat)
    requires j <= |b| && 0 < TrimEnd(b, j)
    ensures TrimEnd(a + b, |a| + j) == |a| + TrimEnd(b, j)
  {
    assert (a + b)[|a| + j - 1] == b[j - 1];
    if IsSpace(b[j - 1]) {
      TrimEndShift(a, b, j - 1);
    }
  }

  lemma SliceShift(t: string, a: string, b: string, i: nat, k: nat)
    requires t == a + b && i <= k <= |b|
    ensures t[|a| + i..|a| + k] == b[i..k]
  {
    forall x | 0 <= x < k - i
      ensures t[|a| + i..|a| + k][x] == b[i..k][x]
    {
      assert t[|a| + i + x] == b[i + x];
    }
  }

  lemma SkipSpaceStep(s: string, i: nat)
    requires i < |s| && IsSpace(s[i])
    ensures SkipSpace(s, i) == SkipSpace(s, i + 1)
  {
  }

  lemma SkipSpaceStop(s: string, i: nat)
    requires i <= |s| && (i < |s| ==> !IsSpace(s[i]))
    ensures SkipSpace(s, i) == i
  {
  }

  /** One leading whitespace character does not change the result of Strip. */
  lemma StripConsIndices(c: char, s: string)
    requires IsSpace(c)
    ensures SkipSpace([c] + s, 0) == 1 + SkipSpace(s, 0)
    ensures 0 < TrimEnd(s, |s|) ==> TrimEnd([c] + s, |s| + 1) == 1 + TrimEnd(s, |s|)
    ensures TrimEnd(s, |s|) == 0 ==> SkipSpace(s, 0) == |s|
  {
    var u := [c] + s;
    assert u[0] == c;
    assert SkipSpace(u, 0) == SkipSpace(u, 1);
    SkipSpaceShift([c], s, 0);
    if 0 < TrimEnd(s, |s|) {
      TrimEndShift([c], s, |s|);
    }
  }

  lemma StripCons(c: char, s: string)
    requires IsSpace(c)
    ensures Strip([c] + s) == Strip(s)
  {
    StripConsIndices(c, s);
    if 0 < TrimEnd(s, |s|) {
      StripConsFilled(c, s, [c] + s);
    } else {
      StripConsBlank(c, s, [c] + s);
    }
  }

  lemma StripConsFilled(c: char, s: string, u: string)
    requires u == [c] + s && 0 < TrimEnd(s, |s|)
    requires SkipSpace(u, 0) == 1 + SkipSpace(s, 0)
    requires TrimEnd(u, |s| + 1) == 1 + TrimEnd(s, |s|)
    ensures Strip(u) == Strip(s)
  {
    var i, k := SkipSpace(s, 0), TrimEnd(s, |s|);
    assert i < k;
    SliceShift(u, [c], s, i, k);
    assert |u| == |s| + 1;
    assert Strip(u) == u[1 + i..1 + k];
  }

  lemma StripConsBlank(c: char, s: string, u: string)
    requires u == [c] + s && IsSpace(c) && TrimEnd(s, |s|) == 0
    ensures Strip(u) == Strip(s)
  {
    assert Strip(s) == [];
    assert AllSpace(u) by {
      forall x | 0 <= x < |u| ensures IsSpace(u[x]) {
        if 0 < x {
          assert u[x] == s[x - 1];
        }
      }
    }
  }

  /** The whitespace that SkipSpace passes over does not change Strip. */
  lemma StripFromSkip(t: string, e: nat, k: nat)
    requires e <= |t| && SkipSpace(t, e) <= k <= |t|
    ensures Strip(t[e..k]) == Strip(t[SkipSpace(t, e)..k])
  {
    var w := SkipSpace(t, e);
    var ws := t[e..w];
    assert t[e..k] == ws + t[w..k];
    assert AllSpace(ws) by {
      forall x | 0 <= x < |ws| ensures IsSpace(ws[x]) {
        assert ws[x] == t[e + x];
      }
    }
    StripSkipsLeading(ws, t[w..k]);
  }

  /** Leading whitespace does not change the result of Strip. */
  lemma {:induction false} StripSkipsLeading(ws: string, s: string)
    requires AllSpace(ws)
    ensures Strip(ws + s) == Strip(s)
    decreases |ws|
  {
    if ws == [] {
      assert ws + s == s;
    } else {
      var rest := ws[1..] + s;
      assert ws + s == [ws[0]] + rest;
      assert IsSpace(ws[0]);
      StripCons(ws[0], rest);
      assert AllSpace(ws[1..]) by {
        forall i | 0 <= i < |ws| - 1 ensures IsSpace(ws[1..][i]) {
          assert ws[1..][i] == ws[i + 1];
        }
      }
      StripSkipsLeading(ws[1..], s);
    }
  }

  /** `t[i..]` starts with `p`. */
  predicate OccursAt(t: string, p: string, i: nat) {
    i + |p| <= |t| && t[i..i + |p|] == p
  }

  ghost predicate Contains(t: string, p: string) {
    exists i: nat :: OccursAt(t, p, i)
  }

  predicate StartsWith(t: string, p: string) {
    OccursAt(t, p, 0)
  }

  /** The first index at or after `i` where `p` occurs in `t` (`t.find(p, i)`). */
  function FindFrom(t: string, p: string, i: nat): (r: Find)
    ensures r.At? ==> i <= r.pos && OccursAt(t, p, r.pos)
    ensures r.At? ==> forall j :: i <= j < r.pos ==> !OccursAt(t, p, j)
    ensures r.Missing? ==> forall j: nat :: i <= j ==> !OccursAt(t, p, j)
    decreases |t| - i
  {
    if |t| < i + |p| then Missing
    else if OccursAt(t, p, i) then At(i)
    else FindFrom(t, p, i + 1)
  }

  /** FindFrom is characterised by its result. */
  lemma FindFromIs(t: string, p: string, i: nat, k: nat)
    requires i <= k && OccursAt(t, p, k)
    requires forall j :: i <= j < k ==> !OccursAt(t, p, j)
    ensures FindFrom(t, p, i) == At(k)
  {
  }

  /** Starting the search later, but not past the first occurrence, finds
      the same occurrence. */
  lemma FindFromLater(t: string, p: string, i: nat, j: nat, k: nat)
    requires i <= j <= k && FindFrom(t, p, i) == At(k)
    ensures FindFrom(t, p, j) == At(k)
  {
    FindFromIs(t, p, j, k);
  }

  /** The first line break at or after `i` in `s` (or |s|). */
  function LineEnd(s: string, i: nat): (j: nat)
    requires i <= |s|
    ensures i <= j <= |s|
    ensures forall k :: i <= k < j ==> !IsLineBreak(s[k])
    ensures j < |s| ==> IsLineBreak(s[j])
    decreases |s| - i
  {
    if i < |s| && !IsLineBreak(s[i]) then LineEnd(s, i + 1) else i
  }

  /** Where the line after the break at `i` starts ("\r\n" is one break). */
  function NextLine(s: string, i: nat): (n: nat)
    requires i < |s|
    ensures i < n <= |s|
  {
    if s[i] == '\r' && i + 1 < |s| && s[i + 1] == '\n' then i + 2 else i + 1
  }

  /** Python's `s.splitlines()`: no trailing empty line, "\r\n" one boundary. */
  function SplitLines(s: string): (lines: seq<string>)
    ensures forall i :: 0 <= i < |lines| ==> NoLineBreak(lines[i])
    decreases |s|
  {
    if s == [] then []
    else
      var i := LineEnd(s, 0);
      if i == |s| then [s]
      else
        [s[..i]] + SplitLines(s[NextLine(s, i)..])
  }

  /** `"\n".join(lines)` */
  function JoinLines(lines: seq<string>): string {
    if |lines| == 0 then ""
    else if |lines| == 1 then lines[0]
    else lines[0] + "\n" + JoinLines(lines[1..])
  }

  /** `[l.strip() for l in lines if l.strip()]` */
  function CleanLines(lines: seq<string>): (r: seq<string>)
    ensures |r| <= |lines|
    ensures forall i :: 0 <= i < |r| ==> r[i] != [] && Stripped(r[i])
  {
    if lines == [] then []
    else
      var head := Strip(lines[0]);
      (if head != [] then [head] else []) + CleanLines(lines[1..])
  }

  // ---------------------------------------------------------------------------
  // Facts about where a pattern can occur once a string is cut at a "\n".

  /** Positions past a prefix only see the suffix. */
  lemma OccursShift(a: string, b: string, p: string, i: nat)
    ensures OccursAt(a + b, p, |a| + i) == OccursAt(b, p, i)
  {
    if OccursAt(b, p, i) {
      assert (a + b)[|a| + i..|a| + i + |p|] == b[i..i + |p|];
    }
    if OccursAt(a + b, p, |a| + i) {
      assert (a + b)[|a| + i..|a| + i + |p|] == b[i..i + |p|];
    }
  }

  /** An occurrence at or after `i` makes the search from `i` succeed. */
  lemma FindFound(t: string, p: string, i: nat, k: nat)
    requires i <= k && OccursAt(t, p, k)
    ensures FindFrom(t, p, i).At?
  {
  }

  lemma FindFromMissing(t: string, p: string, i: nat)
    requires forall j: nat :: i <= j ==> !OccursAt(t, p, j)
    ensures FindFrom(t, p, i) == Missing
  {
  }

  lemma MissingShift(t: string, a: string, b: string, p: string, i: nat)
    requires t == a + b && FindFrom(b, p, i) == Missing
    ensures FindFrom(t, p, |a| + i) == Missing
  {
    forall j: nat | |a| + i <= j ensures !OccursAt(a + b, p, j) {
      OccursShift(a, b, p, j - |a|);
    }
    FindFromMissing(a + b, p, |a| + i);
  }

  lemma AbsentShift(a: string, b: string, p: string, i: nat, k: nat)
    requires forall j :: i <= j < k ==> !OccursAt(b, p, j)
    ensures forall j :: |a| + i <= j < |a| + k ==> !OccursAt(a + b, p, j)
  {
    forall j | |a| + i <= j < |a| + k ensures !OccursAt(a + b, p, j) {
      OccursShift(a, b, p, j - |a|);
    }
  }

  lemma FoundShift(t: string, a: string, b: string, p: string, i: nat, k: nat)
    requires t == a + b && FindFrom(b, p, i) == At(k)
    ensures FindFrom(t, p, |a| + i) == At(|a| + k)
  {
    OccursShift(a, b, p, k);
    AbsentShift(a, b, p, i, k);
    FindFromIs(a + b, p, |a| + i, |a| + k);
  }

  lemma SuffixShift(t: string, a: string, b: string)
    requires t == a + b
    ensures t[|a|..] == b
  {
  }

  lemma NotFound(t: string, p: string)
    requires !Contains(t, p)
    ensures FindFrom(t, p, 0) == Missing
  {
  }

  lemma StartsWithPrefix(a: string, b: string)
    ensures StartsWith(a + b, a)
  {
    assert (a + b)[..|a|] == a;
  }

  /** A string without `x` has no line starting with `x`. */
  lemma AbsentLineStart(s: string, x: string)
    requires !Contains(s, x)
    ensures !Contains(s, "\n" + x)
  {
    forall j: nat ensures !OccursAt(s, "\n" + x, j) {
      LineStartAt(s, x, j);
      assert !OccursAt(s, x, j + 1);
    }
  }

  lemma MissingChar(s: string, x: string, i: nat)
    requires i < |x| && x[i] !in s
    ensures !Contains(s, x)
  {
  }

  lemma LineStartAt(s: string, x: string, j: nat)
    ensures OccursAt(s, "\n" + x, j) ==> OccursAt(s, x, j + 1)
  {
    if OccursAt(s, "\n" + x, j) {
      assert s[j + 1..j + 1 + |x|] == s[j..j + 1 + |x|][1..];
    }
  }

  lemma LineStartFrom(s: string, x: string, j: nat)
    requires j < |s| && s[j] == '\n' && OccursAt(s, x, j + 1)
    ensures OccursAt(s, "\n" + x, j)
  {
    assert s[j..j + 1 + |x|] == [s[j]] + s[j + 1..j + 1 + |x|];
  }

  lemma NoNewlineNoLineStart(s: string, x: string)
    requires '\n' !in s
    ensures !Contains(s, "\n" + x)
  {
    forall j: nat ensures !OccursAt(s, "\n" + x, j) {
      if j + 1 + |x| <= |s| {
        assert s[j..j + 1 + |x|][0] == s[j];
      }
    }
  }

  /** Up to the "\n" after `a`, a "\n"-free pattern can only occur inside `a`. */
  lemma PlainBefore(a: string, b: string, x: string, j: nat)
    requires '\n' !in x && !Contains(a, x) && j <= |a|
    ensures !OccursAt(a + "\n" + b, x, j)
  {
    var t := a + "\n" + b;
    if j + |x| <= |t| {
      if j + |x| <= |a| {
        assert t[j..j + |x|] == a[j..j + |x|];
        assert !OccursAt(a, x, j);
      } else {
        assert t[j..j + |x|][|a| - j] == t[|a|] == '\n';
        assert x[|a| - j] != '\n';
      }
    }
  }

  /** Before the "\n" after `a`, a line can only start with `x` inside `a`. */
  lemma LineStartBefore(a: string, b: string, x: string, j: nat)
    requires '\n' !in x && !Contains(a, "\n" + x) && j < |a|
    ensures !OccursAt(a + "\n" + b, "\n" + x, j)
  {
    var t := a + "\n" + b;
    var y := "\n" + x;
    if j + |y| <= |t| {
      if j + |y| <= |a| {
        assert t[j..j + |y|] == a[j..j + |y|];
        assert !OccursAt(a, y, j);
      } else {
        assert t[j..j + |y|][|a| - j] == t[|a|] == '\n';
        assert y[|a| - j] == x[|a| - j - 1] != '\n';
      }
    }
  }

  /** An occurrence of a "\n"-free pattern in `a + "\n" + b` lies in `a` or in `b`. */
  lemma NoPlainAcross(a: string, b: string, x: string)
    requires '\n' !in x && !Contains(a, x) && !Contains(b, x)
    ensures !Contains(a + "\n" + b, x)
  {
    var t := a + "\n" + b;
    forall j: nat ensures !OccursAt(t, x, j) {
      if j <= |a| {
        PlainBefore(a, b, x, j);
      } else {
        assert t == (a + "\n") + b;
        OccursShift(a + "\n", b, x, j - |a| - 1);
      }
    }
  }

  /** `a + "\n" + b` has no line starting with `x` when neither part has one
      and `b` itself does not start with `x`. */
  lemma NoLineStartAcross(a: string, b: string, x: string)
    requires '\n' !in x && !Contains(a, "\n" + x)
    requires !StartsWith(b, x) && !Contains(b, "\n" + x)
    ensures !Contains(a + "\n" + b, "\n" + x)
  {
    var t := a + "\n" + b;
    var y := "\n" + x;
    forall j: nat ensures !OccursAt(t, y, j) {
      if j < |a| {
        LineStartBefore(a, b, x, j);
      } else if j == |a| {
        LineStartAt(t, x, j);
        assert t == (a + "\n") + b;
        OccursShift(a + "\n", b, x, 0);
      } else {
        assert t == (a + "\n") + b;
        OccursShift(a + "\n", b, y, j - |a| - 1);
      }
    }
  }

  lemma NoStartAcross(a: string, b: string, x: string)
    requires '\n' !in x && !Contains(a, x)
    ensures !StartsWith(a + "\n" + b, x)
  {
    PlainBefore(a, b, x, 0);
  }

  /** When `b` starts with `x`, so does the line after `a`. */
  lemma NewlineStart(a: string, b: string, x: string)
    requires StartsWith(b, x)
    ensures OccursAt(a + "\n" + b, x, |a| + 1) && OccursAt(a + "\n" + b, "\n" + x, |a|)
  {
    var t := a + "\n" + b;
    assert t == (a + "\n") + b;
    OccursShift(a + "\n", b, x, 0);
    LineStartFrom(t, x, |a|);
  }

  /** In `a + "\n" + b`, the first line starting with `x` is the one after `a`
      when `b` starts with `x` and no line of `a` does. */
  lemma FirstLineStart(a: string, b: string, x: string)
    requires '\n' !in x && !Contains(a, "\n" + x) && StartsWith(b, x)
    ensures FindFrom(a + "\n" + b, "\n" + x, 0) == At(|a|)
  {
    var t := a + "\n" + b;
    NewlineStart(a, b, x);
    forall j | 0 <= j < |a| ensures !OccursAt(t, "\n" + x, j) {
      LineStartBefore(a, b, x, j);
    }
    FindFromIs(t, "\n" + x, 0, |a|);
  }

  /** In `a + "\n" + b`, the first occurrence of a "\n"-free `x` is at the
      start of `b` when `b` starts with `x` and `a` does not contain it. */
  lemma FirstAfterNewline(a: string, b: string, x: string)
    requires '\n' !in x && !Contains(a, x) && StartsWith(b, x)
    ensures FindFrom(a + "\n" + b, x, 0) == At(|a| + 1)
  {
    var t := a + "\n" + b;
    NewlineStart(a, b, x);
    forall j | 0 <= j < |a| + 1 ensures !OccursAt(t, x, j) {
      PlainBefore(a, b, x, j);
    }
    FindFromIs(t, x, 0, |a| + 1);
  }

  /** No line of `"\n".join(cs)` starts with `x` unless some element does. */
  lemma {:induction false} JoinNoLineStart(cs: seq<string>, x: string)
    requires x != [] && '\n' !in x
    requires forall i :: 0 <= i < |cs| ==> '\n' !in cs[i] && !StartsWith(cs[i], x)
    ensures !StartsWith(JoinLines(cs), x) && !Contains(JoinLines(cs), "\n" + x)
  {
    if |cs| == 0 {
      NoNewlineNoLineStart("", x);
    } else if |cs| == 1 {
      NoNewlineNoLineStart(cs[0], x);
    } else {
      JoinNoLineStart(cs[1..], x);
      var rest := JoinLines(cs[1..]);
      assert JoinLines(cs) == cs[0] + "\n" + rest;
      NoNewlineNoLineStart(cs[0], x);
      NoLineStartAcross(cs[0], rest, x);
      var t := JoinLines(cs);
      if |x| <= |cs[0]| {
        assert t[..|x|] == cs[0][..|x|];
      } else if |x| <= |t| {
        assert t[..|x|][|cs[0]|] == t[|cs[0]|] == '\n';
      }
    }
  }

  // ---------------------------------------------------------------------------
  // Line splitting.

  lemma LineEndIs(s: string, i: nat, j: nat)
    requires i <= j <= |s|
    requires forall k :: i <= k < j ==> !IsLineBreak(s[k])
    requires j < |s| ==> IsLineBreak(s[j])
    ensures LineEnd(s, i) == j
  {
  }

  /** Joining break-free, non-empty lines and splitting them again gives them back. */
  lemma {:induction false} SplitJoin(cs: seq<string>)
    requires forall i :: 0 <= i < |cs| ==> cs[i] != [] && NoLineBreak(cs[i])
    ensures SplitLines(JoinLines(cs)) == cs
  {
    if |cs| == 0 {
    } else if |cs| == 1 {
      LineEndIs(cs[0], 0, |cs[0]|);
    } else {
      var c := cs[0];
      var rest := JoinLines(cs[1..]);
      var s := c + "\n" + rest;
      assert JoinLines(cs) == s;
      assert forall k :: 0 <= k < |c| ==> s[k] == c[k];
      assert s[|c|] == '\n';
      LineEndIs(s, 0, |c|);
      assert s[..|c|] == c;
      assert s[|c| + 1..] == rest;
      SplitJoin(cs[1..]);
      assert cs == [c] + cs[1..];
    }
  }

  /** Already stripped, non-empty lines pass the clean-up unchanged. */
  lemma {:induction false} CleanKeeps(cs: seq<string>)
    requires forall i :: 0 <= i < |cs| ==> cs[i] != [] && Stripped(cs[i])
    ensures CleanLines(cs) == cs
  {
    if cs != [] {
      StripStripped(cs[0]);
      CleanKeeps(cs[1..]);
      assert cs == [cs[0]] + cs[1..];
    }
  }

  lemma CleanCons(x: string, ls: seq<string>)
    ensures CleanLines([x] + ls) == (if Strip(x) != [] then [Strip(x)] else []) + CleanLines(ls)
  {
    assert ([x] + ls)[0] == x;
    assert ([x] + ls)[1..] == ls;
  }

  lemma {:induction false} LineEndShift(a: string, b: string, i: nat)
    requires i <= |b|
    ensures LineEnd(a + b, |a| + i) == |a| + LineEnd(b, i)
    decreases |b| - i
  {
    if i < |b| {
      assert (a + b)[|a| + i] == b[i];
      if !IsLineBreak(b[i]) {
        LineEndShift(a, b, i + 1);
      }
    }
  }

  lemma SplitLinesStep(s: string)
    requires s != [] && LineEnd(s, 0) < |s|
    ensures SplitLines(s) == [s[..LineEnd(s, 0)]] + SplitLines(s[NextLine(s, LineEnd(s, 0))..])
  {
  }

  lemma SplitLinesLast(s: string)
    requires s != [] && LineEnd(s, 0) == |s|
    ensures SplitLines(s) == [s]
  {
  }

  lemma CleanSplitBreak(c: char, s: string)
    requires IsLineBreak(c)
    ensures CleanLines(SplitLines([c] + s)) == CleanLines(SplitLines(s))
  {
    var u := [c] + s;
    assert u[0] == c;
    assert LineEnd(u, 0) == 0;
    assert u[..0] == [];
    SplitLinesStep(u);
    if c == '\r' && |s| > 0 && s[0] == '\n' {
      assert u[2..] == s[1..];
      assert LineEnd(s, 0) == 0;
      assert s[..0] == [];
      SplitLinesStep(s);
      CleanCons([], SplitLines(s[1..]));
    } else {
      assert u[1..] == s;
      CleanCons([], SplitLines(s));
    }
  }

  lemma CleanSplitBlank(c: char, s: string)
    requires IsSpace(c) && !IsLineBreak(c)
    ensures CleanLines(SplitLines([c] + s)) == CleanLines(SplitLines(s))
  {
    var u := [c] + s;
    assert u[0] == c;
    LineEndShift([c], s, 0);
    assert LineEnd(u, 0) == 1 + LineEnd(s, 0);
    if s == [] {
      SplitLinesLast(u);
      CleanCons(u, []);
    } else {
      var i := LineEnd(s, 0);
      if i == |s| {
        SplitLinesLast(u);
        SplitLinesLast(s);
        StripCons(c, s);
        CleanCons(u, []);
        CleanCons(s, []);
      } else {
        CleanSplitLine(c, s, i);
      }
    }
  }

  lemma CleanSplitLineIndices(c: char, s: string, i: nat)
    requires s != [] && i == LineEnd(s, 0) && i < |s|
    requires LineEnd([c] + s, 0) == i + 1
    ensures NextLine([c] + s, i + 1) == NextLine(s, i) + 1
    ensures ([c] + s)[..i + 1] == [c] + s[..i]
    ensures ([c] + s)[NextLine(s, i) + 1..] == s[NextLine(s, i)..]
  {
    var u := [c] + s;
    assert u[i + 1] == s[i];
    assert i + 2 < |u| ==> u[i + 2] == s[i + 1];
  }

  lemma CleanSplitLine(c: char, s: string, i: nat)
    requires IsSpace(c) && !IsLineBreak(c)
    requires s != [] && i == LineEnd(s, 0) && i < |s|
    requires LineEnd([c] + s, 0) == i + 1
    ensures CleanLines(SplitLines([c] + s)) == CleanLines(SplitLines(s))
  {
    var u := [c] + s;
    var n := NextLine(s, i);
    CleanSplitLineIndices(c, s, i);
    SplitLinesStep(s);
    SplitLinesStep(u);
    var rest := SplitLines(s[n..]);
    assert SplitLines(u) == [[c] + s[..i]] + rest;
    assert SplitLines(s) == [s[..i]] + rest;
    StripCons(c, s[..i]);
    CleanCons([c] + s[..i], rest);
    CleanCons(s[..i], rest);
  }

  /** One leading whitespace character does not change the cleaned lines. */
  lemma CleanSplitCons(c: char, s: string)
    requires IsSpace(c)
    ensures CleanLines(SplitLines([c] + s)) == CleanLines(SplitLines(s))
  {
    if IsLineBreak(c) {
      CleanSplitBreak(c, s);
    } else {
      CleanSplitBlank(c, s);
    }
  }

  /** Leading whitespace (line breaks included) does not change the cleaned lines. */
  lemma {:induction false} CleanSplitSkipsLeading(ws: string, s: string)
    requires AllSpace(ws)
    ensures CleanLines(SplitLines(ws + s)) == CleanLines(SplitLines(s))
    decreases |ws|
  {
    if ws == [] {
      assert ws + s == s;
    } else {
      var rest := ws[1..] + s;
      assert ws + s == [ws[0]] + rest;
      assert IsSpace(ws[0]);
      CleanSplitCons(ws[0], rest);
      assert AllSpace(ws[1..]) by {
        forall i | 0 <= i < |ws| - 1 ensures IsSpace(ws[1..][i]) {
          assert ws[1..][i] == ws[i + 1];
        }
      }
      CleanSplitSkipsLeading(ws[1..], s);
    }
  }
}
