/** `gather_files` (main.py:13-33): every path under the root is visited;
    directories, anything with a `.git` path component and files whose read
    raises are skipped, and the rest are stored under their path relative to
    the root. The directory walk and the reads are a parameter: the sequence
    of visited paths, each with its components, whether it is a file and how
    reading it ended. */
module Gather {
  /** How `path.read_text(...)` ended. */
  datatype ReadResult = Content(text: string) | Unreadable

  /** One path yielded by `rglob('*')`: its components relative to the
      root, whether it is a file, and the result of reading it. */
  datatype Entry = Entry(parts: seq<string>, isFile: bool, read: ReadResult)

  const GitDir: string := ".git"

  /** An entry that ends up in the map: a readable file without a `.git`
      component in its path. `rootParts` are the root's own components,
      which `path.parts` includes. */
  predicate Kept(rootParts: seq<string>, e: Entry) {
    e.isFile && GitDir !in rootParts + e.parts && e.read.Content?
  }

  /** `str(path.relative_to(root))`: the components joined by "/". */
  function Key(e: Entry): string {
    JoinPath(e.parts)
  }

  function JoinPath(parts: seq<string>): string {
    if |parts| == 0 then ""
    else if |parts| == 1 then parts[0]
    else parts[0] + "/" + JoinPath(parts[1..])
  }

  /** The map after the walk has visited `es`, in order. */
  function Snapshot(rootParts: seq<string>, es: seq<Entry>): map<string, string>
    decreases |es|
  {
    if es == [] then map[]
    else
      var files := Snapshot(rootParts, es[..|es| - 1]);
      var e := es[|es| - 1];
      if Kept(rootParts, e) then files[Key(e) := e.read.text] else files
  }

  /** gather_files */
  method GatherFiles(rootParts: seq<string>, entries: seq<Entry>) returns (files: map<string, string>)
    ensures files == Snapshot(rootParts, entries)
  {
    files := map[];
    for i := 0 to |entries|
      invariant files == Snapshot(rootParts, entries[..i])
    {
      assert entries[..i + 1][..i] == entries[..i];
      var e := entries[i];
      if !e.isFile {
        continue;
      }
      if GitDir in rootParts + e.parts {
        continue;
      }
      match e.read {
        case Unreadable =>
          continue;
        case Content(text) =>
          files := files[Key(e) := text];
      }
    }
    assert entries[..|entries|] == entries;
  }

  /** A path is a key exactly when some kept entry has it. */
  lemma {:induction false} SnapshotKeys(rootParts: seq<string>, es: seq<Entry>, k: string)
    ensures k in Snapshot(rootParts, es) <==>
      exists i :: 0 <= i < |es| && Kept(rootParts, es[i]) && Key(es[i]) == k
    decreases |es|
  {
    if es != [] {
      var init := es[..|es| - 1];
      SnapshotKeys(rootParts, init, k);
      if k in Snapshot(rootParts, es) {
        if k in Snapshot(rootParts, init) {
          var i :| 0 <= i < |init| && Kept(rootParts, init[i]) && Key(init[i]) == k;
          assert es[i] == init[i];
        } else {
          assert Kept(rootParts, es[|es| - 1]) && Key(es[|es| - 1]) == k;
        }
      }
      if exists i :: 0 <= i < |es| && Kept(rootParts, es[i]) && Key(es[i]) == k {
        var i :| 0 <= i < |es| && Kept(rootParts, es[i]) && Key(es[i]) == k;
        if i < |init| {
          assert init[i] == es[i];
        }
      }
    }
  }

  /** The content stored under a path is that of the last kept entry with
      that path. */
  lemma {:induction false} SnapshotValue(rootParts: seq<string>, es: seq<Entry>, i: nat)
    requires i < |es| && Kept(rootParts, es[i])
    requires forall j :: i < j < |es| && Kept(rootParts, es[j]) ==> Key(es[j]) != Key(es[i])
    ensures Key(es[i]) in Snapshot(rootParts, es)
    ensures Snapshot(rootParts, es)[Key(es[i])] == es[i].read.text
    decreases |es|
  {
    var init := es[..|es| - 1];
    if i < |init| {
      assert init[i] == es[i];
      forall j | i < j < |init| && Kept(rootParts, init[j]) ensures Key(init[j]) != Key(init[i]) {
        assert init[j] == es[j];
      }
      SnapshotValue(rootParts, init, i);
    }
  }

  /** Only the exact component `.git` excludes a path: `.github` is kept. */
  lemma GitComponentOnly()
    ensures Kept([], Entry([".github", "ci.yml"], true, Content("")))
    ensures !Kept([], Entry([".git", "config"], true, Content("")))
  {
    assert ".github" != GitDir by {
      assert |".github"| != |GitDir|;
    }
    assert "ci.yml" != GitDir by {
      assert "ci.yml"[0] != GitDir[0];
    }
    assert [".git", "config"][0] == GitDir;
  }
}
