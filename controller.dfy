/** The round loop of `main` (main.py:109-164). In each round the project is
    gathered, the model is asked for a reply, the reply is parsed, a non-empty
    diff is applied (a failure ends the program), non-empty commands are run
    and logged, and the round ends with `git add .` and `git commit` unless
    both the diff and the commands were empty, which ends the loop.

    The collaborators are parameters (Env): the directory walk of each round,
    the model's reply to a snapshot of the project, and the patch tool and
    the shell, whose answers may depend on the round because earlier rounds
    change the working tree. A run is described by the sequence of observable events it
    produces and by how it ended. */
module Controller {
  import opened Text
  import opened Parser
  import opened Patch
  import opened Runner
  import opened Gather

  datatype Env = Env(
    walk: nat -> seq<Entry>,
    model: (nat, map<string, string>) -> string,
    patchTool: (nat, string) -> bool,
    shell: (nat, string) -> ExecOutcome)

  /** Apply: `patch` is run on the diff. Run: the commands were run and
      their log written to `logPath`. Commit: `git add .` and
      `git commit -m message`. */
  datatype Event =
    | Apply(diff: string)
    | Run(commands: seq<string>, log: seq<CommandRecord>, logPath: string)
    | Commit(message: string)

  datatype Verdict = Continue | NoChange | Failed

  datatype RoundResult = RoundResult(events: seq<Event>, verdict: Verdict)

  /** Completed: all rounds ran. StoppedNoChange(n): the loop broke in round
      `n`. PatchFailed(n): the program exited in round `n`. */
  datatype Outcome = Completed | StoppedNoChange(round: nat) | PatchFailed(round: nat)

  datatype Session = Session(trace: seq<Event>, outcome: Outcome)

  /** The reply of the model in round `i`, given the project as gathered
      from the root `.` (which has no path components of its own). */
  function Reply(env: Env, i: nat): string {
    env.model(i, Snapshot([], env.walk(i)))
  }

  function Parsed(env: Env, i: nat): Response {
    ParseModelResponse(Reply(env, i))
  }

  /** The patch tool and the shell as they answer in round `i`. */
  function ToolAt(env: Env, i: nat): string -> bool {
    d => env.patchTool(i, d)
  }

  function ShellAt(env: Env, i: nat): string -> ExecOutcome {
    c => env.shell(i, c)
  }

  /** One round of the loop. */
  function Round(env: Env, i: nat): RoundResult {
    RoundOf(Parsed(env, i), i, ToolAt(env, i), ShellAt(env, i))
  }

  /** The round once the reply `r` has been parsed. */
  function RoundOf(r: Response, i: nat, patchTool: string -> bool, shell: string -> ExecOutcome): RoundResult {
    var d, cs := r.diffText, r.commands;
    if d != [] && !ApplyPatch(d, patchTool) then RoundResult([Apply(d)], Failed)
    else if d == [] && cs == [] then RoundResult([], NoChange)
    else
      var applied := if d != [] then [Apply(d)] else [];
      var ran := if cs != [] then [Run(cs, LogOf(cs, shell), LogPath(i))] else [];
      RoundResult(applied + ran + [Commit(r.commitMsg)], Continue)
  }

  /** Rounds `i` to `last`. */
  function RunFrom(env: Env, i: nat, last: int): Session
    decreases if i <= last then last - i + 1 else 0
  {
    if i > last then Session([], Completed)
    else
      var rr := Round(env, i);
      match rr.verdict
      case Continue =>
        var rest := RunFrom(env, i + 1, last);
        Session(rr.events + rest.trace, rest.outcome)
      case _ => Session(rr.events, EndOf(rr.verdict, i))
  }

  /** `for iteration in range(1, max_iterations + 1)` */
  function Main(env: Env, maxIterations: int): Session {
    RunFrom(env, 1, maxIterations)
  }

  // ---------------------------------------------------------------------------
  // The loop itself.

  /** The body of the loop for `iteration`. */
  method PlayRound(env: Env, iteration: nat) returns (events: seq<Event>, verdict: Verdict)
    ensures RoundResult(events, verdict) == Round(env, iteration)
  {
    var files := GatherFiles([], env.walk(iteration));
    var reply := env.model(iteration, files);
    var r := ParseModelResponse(reply);
    events, verdict := ActOn(r, iteration, ToolAt(env, iteration), ShellAt(env, iteration));
  }

  /** Apply the diff, run the commands and commit, as the parsed reply asks. */
  method ActOn(r: Response, iteration: nat, patchTool: string -> bool, shell: string -> ExecOutcome)
    returns (events: seq<Event>, verdict: Verdict)
    ensures RoundResult(events, verdict) == RoundOf(r, iteration, patchTool, shell)
  {
    events := [];
    if r.diffText != [] {
      var success := ApplyPatch(r.diffText, patchTool);
      events := events + [Apply(r.diffText)];
      if !success {
        verdict := Failed;
        return;
      }
    }
    if r.commands != [] {
      var logPath, log := RunCommands(r.commands, iteration, shell);
      events := events + [Run(r.commands, log, logPath)];
    }
    if r.diffText != [] || r.commands != [] {
      events := events + [Commit(r.commitMsg)];
      verdict := Continue;
    } else {
      verdict := NoChange;
    }
  }

  /** The loop of `main`; `PatchFailed` is the `sys.exit(1)` and
      `StoppedNoChange` the `break`. */
  method RunSession(env: Env, maxIterations: int) returns (trace: seq<Event>, outcome: Outcome)
    ensures Session(trace, outcome) == Main(env, maxIterations)
  {
    trace := [];
    var iteration: nat := 1;
    while iteration <= maxIterations
      invariant 1 <= iteration
      invariant Main(env, maxIterations) == Resumed(trace, RunFrom(env, iteration, maxIterations))
      decreases maxIterations - iteration
    {
      var events, verdict := PlayRound(env, iteration);
      RunFromStep(env, iteration, maxIterations);
      ResumedAppend(trace, events, RunFrom(env, iteration + 1, maxIterations));
      trace := trace + events;
      if verdict == Failed {
        outcome := PatchFailed(iteration);
        return;
      } else if verdict == NoChange {
        outcome := StoppedNoChange(iteration);
        return;
      }
      iteration := iteration + 1;
    }
    assert trace + [] == trace;
    outcome := Completed;
  }

  /** `s` after the events of `trace`. */
  function Resumed(trace: seq<Event>, s: Session): Session {
    Session(trace + s.trace, s.outcome)
  }

  lemma ResumedAppend(trace: seq<Event>, events: seq<Event>, s: Session)
    ensures Resumed(trace, Resumed(events, s)) == Resumed(trace + events, s)
  {
    assert trace + (events + s.trace) == (trace + events) + s.trace;
  }

  /** One round of RunFrom. */
  lemma RunFromStep(env: Env, i: nat, last: int)
    requires i <= last
    ensures Round(env, i).verdict == Continue ==>
      RunFrom(env, i, last) == Resumed(Round(env, i).events, RunFrom(env, i + 1, last))
    ensures Round(env, i).verdict != Continue ==>
      RunFrom(env, i, last) == Session(Round(env, i).events, EndOf(Round(env, i).verdict, i))
  {
  }

  // ---------------------------------------------------------------------------
  // What a round does.

  /** The commit messages of the `Commit` events, in order. */
  function Commits(trace: seq<Event>): seq<string> {
    if trace == [] then []
    else (if trace[0].Commit? then [trace[0].message] else []) + Commits(trace[1..])
  }

  lemma {:induction false} CommitsAppend(a: seq<Event>, b: seq<Event>)
    ensures Commits(a + b) == Commits(a) + Commits(b)
  {
    if a == [] {
      assert a + b == b;
    } else {
      assert (a + b)[0] == a[0];
      assert (a + b)[1..] == a[1..] + b;
      CommitsAppend(a[1..], b);
    }
  }

  ghost predicate HasRun(events: seq<Event>) {
    exists k :: 0 <= k < |events| && events[k].Run?
  }

  /** A round fails exactly when a non-empty diff does not apply, and stops
      the loop exactly when the diff and the commands are both empty. The
      patch tool is only given a diff that is not blank; commands run only
      once the diff applied or there was none; a round that goes on makes
      exactly one commit, with the parsed commit message unchanged (even an
      empty one), and the others make none. */
  lemma RoundEvents(env: Env, i: nat)
    ensures var r, rr := Parsed(env, i), Round(env, i);
      && (rr.verdict == Failed <==> r.diffText != [] && !env.patchTool(i, r.diffText))
      && (rr.verdict == NoChange <==> r.diffText == [] && r.commands == [])
      && (forall k :: 0 <= k < |rr.events| && rr.events[k].Apply? ==>
            k == 0 && rr.events[k].diff == r.diffText && !AllSpace(r.diffText))
      && (HasRun(rr.events) <==> rr.verdict == Continue && r.commands != [])
      && (HasRun(rr.events) ==> r.diffText == [] || env.patchTool(i, r.diffText))
      && Commits(rr.events) == (if rr.verdict == Continue then [r.commitMsg] else [])
  {
    var r := Parsed(env, i);
    VerdictOf(r, i, ToolAt(env, i), ShellAt(env, i));
    AppliesOf(r, i, ToolAt(env, i), ShellAt(env, i));
    RunsOf(r, i, ToolAt(env, i), ShellAt(env, i));
    CommitsOf(r, i, ToolAt(env, i), ShellAt(env, i));
  }

  lemma RoundCommits(env: Env, i: nat)
    ensures Commits(Round(env, i).events) ==
      if Round(env, i).verdict == Continue then [Parsed(env, i).commitMsg] else []
  {
    CommitsOf(Parsed(env, i), i, ToolAt(env, i), ShellAt(env, i));
  }

  lemma VerdictOf(r: Response, i: nat, patchTool: string -> bool, shell: string -> ExecOutcome)
    requires Stripped(r.diffText)
    ensures var rr := RoundOf(r, i, patchTool, shell);
      && (rr.verdict == Failed <==> r.diffText != [] && !patchTool(r.diffText))
      && (rr.verdict == NoChange <==> r.diffText == [] && r.commands == [])
  {
    if r.diffText != [] {
      NonBlank(r.diffText);
    }
  }

  /** A non-empty stripped text is not blank. */
  lemma NonBlank(s: string)
    requires Stripped(s) && s != []
    ensures !AllSpace(s)
  {
    assert !IsSpace(s[0]);
  }

  lemma AppliesOf(r: Response, i: nat, patchTool: string -> bool, shell: string -> ExecOutcome)
    requires Stripped(r.diffText)
    ensures var rr := RoundOf(r, i, patchTool, shell);
      forall k :: 0 <= k < |rr.events| && rr.events[k].Apply? ==>
        k == 0 && rr.events[k].diff == r.diffText && !AllSpace(r.diffText)
  {
    if r.diffText != [] {
      NonBlank(r.diffText);
    }
  }

  lemma RunsOf(r: Response, i: nat, patchTool: string -> bool, shell: string -> ExecOutcome)
    requires Stripped(r.diffText)
    ensures var rr := RoundOf(r, i, patchTool, shell);
      && (HasRun(rr.events) <==> rr.verdict == Continue && r.commands != [])
      && (HasRun(rr.events) ==> r.diffText == [] || patchTool(r.diffText))
  {
    var rr := RoundOf(r, i, patchTool, shell);
    var d := r.diffText;
    if d != [] {
      NonBlank(d);
    }
    if rr.verdict == Continue && r.commands != [] {
      var applied := if d != [] then [Apply(d)] else [];
      assert rr.events[|applied|].Run?;
    }
  }

  lemma CommitsOf(r: Response, i: nat, patchTool: string -> bool, shell: string -> ExecOutcome)
    ensures var rr := RoundOf(r, i, patchTool, shell);
      Commits(rr.events) == if rr.verdict == Continue then [r.commitMsg] else []
  {
    var rr := RoundOf(r, i, patchTool, shell);
    var d, cs := r.diffText, r.commands;
    if rr.verdict == Continue {
      var applied := if d != [] then [Apply(d)] else [];
      var ran := if cs != [] then [Run(cs, LogOf(cs, shell), LogPath(i))] else [];
      CommitsAppend(applied + ran, [Commit(r.commitMsg)]);
      CommitsAppend(applied, ran);
      assert Commits([Commit(r.commitMsg)]) == [r.commitMsg];
    } else {
      assert Commits(rr.events) == [];
    }
  }

  // ---------------------------------------------------------------------------
  // How a run ends.

  /** Rounds `lo` to `hi - 1` all go on. */
  ghost predicate Continued(env: Env, lo: nat, hi: int) {
    forall j: nat :: lo <= j < hi ==> Round(env, j).verdict == Continue
  }

  /** How a run ends when round `n` does not go on. */
  function EndOf(v: Verdict, n: nat): Outcome {
    if v == NoChange then StoppedNoChange(n) else PatchFailed(n)
  }

  lemma ContinuedStep(env: Env, i: nat, n: int)
    requires Round(env, i).verdict == Continue
    ensures Continued(env, i, n) <==> Continued(env, i + 1, n)
  {
    if Continued(env, i + 1, n) {
      forall j: nat | i <= j < n ensures Round(env, j).verdict == Continue {
        if j > i {
          assert i + 1 <= j < n;
        }
      }
    }
  }

  lemma ContinuedBlocked(env: Env, i: nat, n: int)
    requires Round(env, i).verdict != Continue && i < n
    ensures !Continued(env, i, n)
  {
    assert i <= i < n && Round(env, i).verdict != Continue;
  }

  /** A run completes exactly when every round goes on. */
  lemma {:induction false} CompletedIff(env: Env, i: nat, last: int)
    ensures RunFrom(env, i, last).outcome == Completed <==> Continued(env, i, last + 1)
    decreases if i <= last then last - i + 1 else 0
  {
    if i <= last {
      RunFromStep(env, i, last);
      if Round(env, i).verdict == Continue {
        CompletedIff(env, i + 1, last);
        ContinuedStep(env, i, last + 1);
      } else {
        ContinuedBlocked(env, i, last + 1);
      }
    }
  }

  /** A run ends in round `n`, by a failed patch or by a round without
      changes, exactly when `n` is within the rounds, every earlier round went
      on, and round `n` ended that way. */
  lemma {:induction false} EndsIff(env: Env, i: nat, last: int, n: nat, v: Verdict)
    requires v != Continue
    ensures RunFrom(env, i, last).outcome == EndOf(v, n) ==>
      i <= n <= last && Continued(env, i, n) && Round(env, n).verdict == v
    ensures i <= n <= last && Continued(env, i, n) && Round(env, n).verdict == v ==>
      RunFrom(env, i, last).outcome == EndOf(v, n)
    decreases if i <= last then last - i + 1 else 0
  {
    if i <= last {
      RunFromStep(env, i, last);
      var w := Round(env, i).verdict;
      if w == Continue {
        EndsIff(env, i + 1, last, n, v);
        ContinuedStep(env, i, n);
        assert RunFrom(env, i, last).outcome == RunFrom(env, i + 1, last).outcome;
      } else {
        assert RunFrom(env, i, last).outcome == EndOf(w, i);
        EndOfSame(w, i, v, n);
        if i < n {
          ContinuedBlocked(env, i, n);
        }
      }
    }
  }

  lemma EndOfSame(w: Verdict, i: nat, v: Verdict, n: nat)
    requires w != Continue && v != Continue
    ensures EndOf(w, i) == EndOf(v, n) <==> w == v && i == n
  {
  }

  /** The round after the last one that ran. */
  function EndRound(o: Outcome, last: int): int {
    match o
    case Completed => last + 1
    case StoppedNoChange(n) => n
    case PatchFailed(n) => n
  }

  /** The parsed commit messages of rounds `lo` to `hi - 1`. */
  function MessagesFrom(env: Env, lo: nat, hi: int): seq<string>
    decreases if lo < hi then hi - lo else 0
  {
    if lo >= hi then [] else [Parsed(env, lo).commitMsg] + MessagesFrom(env, lo + 1, hi)
  }

  /** The commits of a run are one per round that went on, in order, each
      with that round's parsed commit message, and the run stops at round
      `last` at the latest. */
  lemma {:induction false} SessionCommits(env: Env, i: nat, last: int)
    ensures var s := RunFrom(env, i, last);
      Commits(s.trace) == MessagesFrom(env, i, EndRound(s.outcome, last)) &&
      (if i <= last then i <= EndRound(s.outcome, last) <= last + 1 else EndRound(s.outcome, last) == last + 1)
    decreases if i <= last then last - i + 1 else 0
  {
    if i <= last {
      RunFromStep(env, i, last);
      RoundCommits(env, i);
      var rr := Round(env, i);
      if rr.verdict == Continue {
        var rest := RunFrom(env, i + 1, last);
        SessionCommits(env, i + 1, last);
        CommitsAppend(rr.events, rest.trace);
        var e := EndRound(rest.outcome, last);
        assert i < e;
        assert MessagesFrom(env, i, e) == [Parsed(env, i).commitMsg] + MessagesFrom(env, i + 1, e);
      } else {
        assert MessagesFrom(env, i, i) == [];
      }
    }
  }

  lemma {:induction false} MessagesLength(env: Env, lo: nat, hi: int)
    ensures |MessagesFrom(env, lo, hi)| == if lo < hi then hi - lo else 0
    decreases if lo < hi then hi - lo else 0
  {
    if lo < hi {
      MessagesLength(env, lo + 1, hi);
    }
  }

  /** `main` makes at most `max_iterations` commits, one per round that went
      on, each carrying that round's parsed commit message. */
  lemma MainCommits(env: Env, maxIterations: int)
    ensures var s := Main(env, maxIterations);
      Commits(s.trace) == MessagesFrom(env, 1, EndRound(s.outcome, maxIterations)) &&
      |Commits(s.trace)| <= (if maxIterations < 0 then 0 else maxIterations)
  {
    var s := Main(env, maxIterations);
    SessionCommits(env, 1, maxIterations);
    MessagesLength(env, 1, EndRound(s.outcome, maxIterations));
  }
}
