# AI-Developer round loop, modelled in Dafny

`main.py` runs a model-driven improvement loop over a project directory. Each
round does the following:

1. It gathers the project files into a map from relative path to contents.
2. It asks a language model for a reply in a fixed format
   (`COMMIT_MESSAGE:` / `DIFF:` / `COMMANDS:`).
3. It parses the reply into a commit message, a unified diff and a list of
   shell commands.
4. It applies a non-empty diff with `patch`, and exits if that fails.
5. It runs the commands and writes their outcomes to
   `command_output_iteration_<n>.json`.
6. It runs `git add .` and `git commit` with the parsed message.

A round whose diff and commands are both empty ends the loop with no commit.
At most `--max-iterations` rounds run.

This project models that logic and proves what it promises. The outside
collaborators are parameters of the model:

- the directory walk of each round;
- the language model, as a function from the round and the gathered
  snapshot to the reply;
- the `patch` tool, as a predicate on the round and the diff;
- the shell, as a function from the round and a command to its outcome.

Modules, one per piece of the script:

- `Text` (text.dfy): Python's `str.isspace`/`\s` character class,
  `str.strip`, `str.splitlines`, `"\n".join`, substring search.
- `Parser` (parser.dfy): `parse_model_response`. The two lazy patterns
  `OPEN\s*([\s\S]*?)\nCLOSE` are modelled as the backtracking search Python's
  `re` performs. This covers the leftmost start, the greedy `\s*` giving back
  one character at a time, and the lazy group ending at the first
  terminator. Lemmas then give the result directly in terms of first
  occurrences and `Strip`.
- `ReplyFormat` (reply_format.dfy): the reply format the system prompt
  prescribes. It holds the round trip through the parser, and a reply that
  shows why the round trip needs its hypothesis.
- `Patch` (patch.dfy): the `apply_patch` decision.
- `Runner` (runner.dfy): the `run_commands` loop and the log file name.
- `Gather` (gather.dfy): the `gather_files` filter and the map it builds.
- `Controller` (controller.dfy): the round loop of `main`. It produces a
  trace of `Apply`, `Run` and `Commit` events and an outcome: `Completed`,
  `StoppedNoChange(n)` or `PatchFailed(n)`.

The natural reading of the pattern `COMMIT_MESSAGE:\s*([\s\S]*?)\nDIFF:` is
"the stripped text from the end of `COMMIT_MESSAGE:` to the first
`\nDIFF:` after it". The regular expression does not behave exactly like
that, and the model follows the regular expression. Its greedy `\s*` first
skips all the whitespace after the marker, and only then looks for the
terminator. So when that `\nDIFF:` begins inside the skipped whitespace
(the section is empty), the section ends at a later `\nDIFF:` instead,
or is empty if there is none.

- `Parser.SectionAt` states the behaviour as written.
- `Parser.UpToCloseSkip` proves that the two readings agree in every
  other case.
- `ReplyFormat.EmptyCommitCaptured` and `ReplyFormat.EmptyDiffCaptured` show replies where they differ.

## Model

| member | source | states |
|---|---|---|
| Text.Strip | main.py:90 | `strip()`: the result has no leading or trailing whitespace, is no longer than the input, and is empty exactly when the input is all whitespace |
| Text.StripUnique | main.py:90 | the stripped text is whatever lies between two whitespace-only margins and is itself stripped |
| Text.StripSkipsLeading | main.py:90 | leading whitespace does not change the stripped text |
| Text.StripFromSkip | main.py:90 | stripping from `e` gives the same text as stripping from the end of the whitespace that starts at `e` |
| Text.FindFrom | main.py:86-88 | the found position holds the pattern, no earlier position at or after the start does, and Missing means no occurrence at or after the start |
| Text.FindFromLater | main.py:86-87 | starting the search later, but not past the first occurrence, finds the same occurrence |
| Text.SplitLines | main.py:94 | `splitlines()`: no resulting line contains a line break |
| Text.SplitJoin | main.py:94 | splitting `"\n".join(cs)` gives `cs` back when its lines are non-empty and break-free |
| Text.CleanLines | main.py:94 | the comprehension keeps no more lines than it is given, each non-empty and stripped |
| Text.CleanKeeps | main.py:94 | lines that are already stripped and non-empty pass the comprehension unchanged |
| Text.CleanSplitSkipsLeading | main.py:88 | whitespace (line breaks included) that `\s*` consumes after `COMMANDS:` does not change the resulting commands |
| Parser.Backtrack | main.py:86-87 | the lazy group can match only if some terminator occurs after the marker |
| Parser.MatchAt | main.py:86-87 | one attempt of the pattern at start `s`: the marker must occur there, then `Backtrack` runs; how this turns into a section is described by Parser.SectionAt and Parser.SectionMissing |
| Parser.Search | main.py:86-87 | `re.search`: the first start position, from `s` on, where `MatchAt` succeeds; described by Parser.SearchBefore, Parser.SearchNone, Parser.SearchAtFirst and, in terms of first occurrences, Parser.SectionAt and Parser.SectionMissing |
| Parser.BacktrackMiss | main.py:86-87 | when no terminator follows the greedy whitespace, backtracking yields an empty group exactly when a terminator starts inside that whitespace, and no match otherwise |
| Parser.SearchBefore | main.py:86-87 | `re.search` skips start positions where the marker does not occur |
| Parser.SearchNone | main.py:86-87 | no attempt matches once no terminator is left after the marker |
| Parser.SearchAtFirst | main.py:86-92 | the attempt at the first marker decides the stripped group |
| Parser.Section | main.py:89-92 | a section is always stripped |
| Parser.CommandList | main.py:93-94 | every command is non-empty and has no surrounding whitespace |
| Parser.ParseModelResponse | main.py:78-95 | parsing is total: commit message and diff are stripped, and every command is non-empty and stripped |
| Parser.SectionMissing | main.py:83-92 | a section is empty when its opening marker does not occur |
| Parser.SectionAt | main.py:86-92 | after the first opening marker, the whitespace is skipped; the section is the stripped text from there to the first terminator, or empty when none follows |
| Parser.SectionFrom | main.py:86-92 | with the skipped whitespace ending at `w` and the first terminator after it at `k`, the section is `strip(t[w..k])` |
| Parser.SectionUnclosed | main.py:86-92 | with no terminator after the skipped whitespace the section is empty |
| Parser.UpToCloseSkip | main.py:86-92 | reading from the end of the marker and reading from the end of the skipped whitespace give the same section, unless the first terminator begins inside that whitespace; with SectionAt, the section is then the natural reading of the pattern |
| Parser.CommandsAt | main.py:88-94 | the commands are the stripped non-empty lines, in order, of everything after the first `COMMANDS:` |
| ReplyFormat.Render | main.py:119-121 | a reply in the prompted format: the three markers, each followed on the next line by its part, the commands joined by line breaks; parsing it back is described by ReplyFormat.RoundTrip |
| ReplyFormat.RoundTripCommit | main.py:119-121 | the commit message of a reply in the prompted format is the one written into it |
| ReplyFormat.RoundTripDiff | main.py:119-121 | the diff of a reply in the prompted format is the one written into it |
| ReplyFormat.RoundTripCommands | main.py:119-121 | the commands of a reply in the prompted format are the ones written into it, in order |
| ReplyFormat.RoundTrip | main.py:119-121 | parsing a reply in the prompted format gives back exactly its commit message, diff and commands, when the commit message and diff are stripped and contain neither `DIFF:` nor `COMMANDS:`, and the commands are non-empty, stripped single lines that do not start with either marker |
| ReplyFormat.EmptyCommitCaptured | main.py:86 | with an empty commit message and a command line `DIFF:`, the parsed commit message is not empty, so the round trip needs its hypothesis that no command starts with `DIFF:` |
| ReplyFormat.EmptyDiffCaptured | main.py:87 | with an empty diff and a command line `COMMANDS:`, the parsed diff is not empty, so the round trip needs its hypothesis that no command starts with `COMMANDS:` |
| Patch.ToolInput | main.py:41-44 | the patch tool is not run exactly when the diff is blank, and otherwise receives the diff unchanged |
| Patch.ApplyPatch | main.py:36-48 | a blank diff succeeds; any other diff succeeds exactly when the tool reports success |
| Runner.RecordOf | main.py:61-71 | each record carries the command, and holds the return code and output exactly when `subprocess.run` returned, or the exception text when it raised |
| Runner.LogOf | main.py:57-71 | record `i` of the log is the outcome of command `i`, and there is one record per command |
| Runner.LogPath | main.py:72 | the log file name `command_output_iteration_<n>.json` of iteration `n`; described by Runner.LogPathRoundTrip and Runner.LogPathInjective |
| Runner.RunCommands | main.py:51-75 | the loop logs every command in order, whatever earlier commands did, and returns the path belonging to the iteration |
| Runner.NatToStringRoundTrip | main.py:72 | the decimal digits of a number read back as that number |
| Runner.IntToStringRoundTrip | main.py:72 | the f-string rendering of an integer, sign included, reads back as that integer |
| Runner.LogPathRoundTrip | main.py:72 | the iteration can be read back from the log file name |
| Runner.LogPathInjective | main.py:72 | different iterations write different log files |
| Gather.Kept | main.py:21-30 | whether an entry ends up in the map: a file whose reading succeeded and whose full path, the root's own components included, has no `.git` component; described by Gather.SnapshotKeys |
| Gather.Snapshot | main.py:13-33 | the map `gather_files` returns, built entry by entry from the kept entries, a later one overwriting an earlier one under the same key; described by Gather.SnapshotKeys and Gather.SnapshotValue |
| Gather.GatherFiles | main.py:13-33 | the loop builds the map of the kept entries, a later entry with the same key overwriting an earlier one |
| Gather.SnapshotKeys | main.py:21-32 | a path is a key exactly when some readable file without a `.git` component has it |
| Gather.SnapshotValue | main.py:27-32 | the content stored under a path is that of the last kept file with that path |
| Gather.GitComponentOnly | main.py:23 | only the exact component `.git` excludes a file: `.github/ci.yml` is kept and `.git/config` is not |
| Controller.RoundOf | main.py:144-164 | the events and verdict of one round from its parsed reply and that round's `patch` and shell; described by Controller.RoundEvents |
| Controller.Round | main.py:112-164 | round `i`: gather from that round's walk, ask the model, parse, then `RoundOf`; described by Controller.RoundEvents |
| Controller.RunFrom | main.py:109-164 | the session from round `i` to round `last`: each round's events, stopping at the first round that does not go on; described by Controller.RunFromStep, Controller.CompletedIff, Controller.EndsIff and Controller.SessionCommits |
| Controller.Main | main.py:109-164 | the session of `main`, rounds `1` to `max_iterations`; described by Controller.CompletedIff, Controller.EndsIff and Controller.MainCommits |
| Controller.ActOn | main.py:144-164 | the diff, run and commit steps of a round produce that round's events and verdict |
| Controller.PlayRound | main.py:112-164 | one iteration of the loop gathers, asks, parses and acts, producing exactly `Controller.Round` for that iteration |
| Controller.RunSession | main.py:109-164 | the loop produces exactly the trace and outcome of `Controller.Main`, stopping at the `sys.exit` and the `break` |
| Controller.ResumedAppend | main.py:109-164 | appending two event lists in turn to a trace is the same as appending their concatenation (associativity of `+` on traces), which lets a session be split after any round |
| Controller.RunFromStep | main.py:109-164 | after a round that goes on, the session continues with the next round; otherwise it ends in that round with that round's events |
| Controller.CommitsAppend | main.py:159-161 | the commits of two traces in sequence are those of the first then the second |
| Controller.RoundEvents | main.py:144-164 | a round fails exactly when a non-empty diff does not apply, and stops exactly when diff and commands are empty; `patch` only sees non-blank diffs; commands run only after the diff step succeeded or was skipped; a round that goes on commits once with the parsed message unchanged, even an empty one, and other rounds commit nothing |
| Controller.VerdictOf | main.py:145-164 | the verdict of a parsed reply: failure exactly on a rejected non-empty diff, no change exactly on empty diff and commands |
| Controller.AppliesOf | main.py:145-146 | the only `Apply` event is the first one, with the parsed diff, which is not blank |
| Controller.RunsOf | main.py:153-154 | commands run exactly when the round goes on and has commands, and only after the diff applied or was empty |
| Controller.CommitsOf | main.py:159-161 | a round that goes on makes exactly one commit with the parsed message; the others make none |
| Controller.RoundCommits | main.py:159-161 | the commits of round `i` are its parsed message if it goes on, and nothing otherwise |
| Controller.NonBlank | main.py:41 | a non-empty stripped diff is never blank, so `apply_patch` hands it to the tool |
| Controller.CompletedIff | main.py:109-164 | a run completes exactly when every round goes on |
| Controller.EndsIff | main.py:145-164 | a run ends in round `n` by a failed patch, or by a round without changes, exactly when `n` is within the rounds, every earlier round went on, and round `n` ended that way |
| Controller.ContinuedStep | main.py:109 | a round that goes on passes the "every round goes on" property to the rounds after it |
| Controller.ContinuedBlocked | main.py:147-164 | a round that does not go on breaks the "every round goes on" property |
| Controller.EndOfSame | main.py:147-164 | two endings are the same exactly when they happen in the same round for the same reason |
| Controller.SessionCommits | main.py:109-161 | the commits of a run are the parsed messages of the rounds that went on, in order, and the run never goes past the last round |
| Controller.MessagesLength | main.py:109 | the messages of rounds `lo` to `hi - 1` are `hi - lo` in number |
| Controller.MainCommits | main.py:109-161 | `main` makes at most `max_iterations` commits, one per round that went on, carrying that round's parsed message |

## Left out

- The OpenAI request and the reading of its reply (main.py:136-141). The reply is the `model` parameter of `Controller.Env`, a function of the round and the gathered snapshot.
- Argument parsing and the API-key check (main.py:99-107). `max_iterations` is a parameter; the `sys.exit(1)` for a missing key is outside the loop.
- The `patch`, shell and `git` processes (main.py:44, 60, 160-161). `patch` is a predicate on the round and the diff, and the shell a function from the round and a command to its outcome. Their answers may differ from round to round, since earlier rounds change the working tree, but the working tree itself is not modelled. `git add` and `git commit` appear only as `Commit` events.
- The exit status of `git add` and `git commit` is ignored by the source, so the model gives them no outcome.
- A missing `patch` or `git` binary makes `subprocess.run` raise an exception that the source does not catch (main.py:44, 160-161); the model's patch tool always answers and its `git` steps always happen.
- Directory walking and file reading (main.py:20, 27). The walk is the `walk` parameter, a sequence of entries per round, each with its path components, whether it is a file and how reading it ended.
- Writing the JSON log (main.py:73-74) and the JSON dump of the file map in the prompt (main.py:127). The log is returned as a sequence of records.
- The prompt strings (main.py:115-130). Only the reply format they prescribe is modelled, in `ReplyFormat.Render`.
- Unicode beyond code point classes: whitespace and line breaks are Python's code point tables for `str.isspace` and `str.splitlines`. Decoding with `errors='ignore'` is outside the model.
- The write `files[log_path] = ...` at main.py:156 is never read, because the map is gathered again at the start of the next round. The log's effect on later rounds is through the walk.
- Within one round the shell is a function of the command: running the same command twice in a round gives the same outcome, and effects of one command on the next command of that round are not modelled.
- `subprocess.run` with `text=True` raises when the output of a command that did run cannot be decoded; the model does not say why `Raised` happened, and the record is an error record either way, as in the source.
- The messages printed to stdout and stderr (main.py:47, 106, 110, 148, 163).
- ReplyFormat.RoundTrip: it requires that no command starts with `DIFF:` or `COMMANDS:` (a command may contain them further on). Both halves of this hypothesis are needed: `ReplyFormat.EmptyCommitCaptured` gives a reply whose only command starts with `DIFF:` and whose empty commit message does not survive, and `ReplyFormat.EmptyDiffCaptured` one whose only command starts with `COMMANDS:` and whose empty diff does not survive. The commit message and the diff may contain `COMMIT_MESSAGE:` but neither of the other two markers.
