/** `run_commands` (main.py:51-75): every command is run in turn by the
    shell, and one record per command is appended to the log, whether
    `subprocess.run` returned (the command succeeded or failed) or raised.
    The log is written to a file whose name depends only on the iteration
    number. The shell is a parameter: it maps a command to how its run
    ended. */
module Runner {
  /** How one `subprocess.run(cmd, shell=True, capture_output=True, text=True)`
      ended: it returned the exit status and the decoded output, or it raised
      an exception (the shell could not be started, or the output of a
      command that did run could not be decoded as text). */
  datatype ExecOutcome =
    | Exited(returncode: int, stdout: string, stderr: string)
    | Raised(error: string)

  /** One element of `output_log`: `{command, returncode, stdout, stderr}`
      or `{command, error}`. */
  datatype CommandRecord =
    | Finished(command: string, returncode: int, stdout: string, stderr: string)
    | Errored(command: string, error: string)

  function RecordOf(cmd: string, o: ExecOutcome): (r: CommandRecord)
    ensures r.command == cmd
    ensures r.Finished? <==> o.Exited?
    ensures r.Finished? ==> r.returncode == o.returncode && r.stdout == o.stdout && r.stderr == o.stderr
    ensures r.Errored? ==> r.error == o.error
  {
    match o
    case Exited(code, out, err) => Finished(cmd, code, out, err)
    case Raised(e) => Errored(cmd, e)
  }

  /** The log of running `cmds`: record `i` is the outcome of `cmds[i]`. */
  ghost predicate IsLogOf(log: seq<CommandRecord>, cmds: seq<string>, exec: string -> ExecOutcome) {
    |log| == |cmds| && forall i :: 0 <= i < |cmds| ==> log[i] == RecordOf(cmds[i], exec(cmds[i]))
  }

  /** The same log, computed command by command. */
  function LogOf(cmds: seq<string>, exec: string -> ExecOutcome): (log: seq<CommandRecord>)
    ensures IsLogOf(log, cmds, exec)
  {
    if cmds == [] then []
    else [RecordOf(cmds[0], exec(cmds[0]))] + LogOf(cmds[1..], exec)
  }

  /** run_commands. Returns the log path and the log written there. */
  method RunCommands(cmds: seq<string>, iteration: int, exec: string -> ExecOutcome)
    returns (logPath: string, log: seq<CommandRecord>)
    ensures IsLogOf(log, cmds, exec) && log == LogOf(cmds, exec)
    ensures forall i :: 0 <= i < |cmds| ==> log[i].command == cmds[i]
    ensures logPath == LogPath(iteration)
  {
    log := [];
    for k := 0 to |cmds|
      invariant IsLogOf(log, cmds[..k], exec)
    {
      var cmd := cmds[k];
      var outcome := exec(cmd);
      match outcome {
        case Exited(code, out, err) =>
          log := log + [Finished(cmd, code, out, err)];
        case Raised(e) =>
          log := log + [Errored(cmd, e)];
      }
    }
    assert cmds[..|cmds|] == cmds;
    logPath := LogPath(iteration);
  }

  // ---------------------------------------------------------------------------
  // The log file name.

  function DigitChar(d: nat): (c: char)
    requires d < 10
    ensures '0' <= c <= '9'
  {
    (('0' as int) + d) as char
  }

  /** The decimal digits of `n`, as `str` writes them. */
  function NatToString(n: nat): (s: string)
    ensures |s| >= 1
    decreases n
  {
    if n < 10 then [DigitChar(n)] else NatToString(n / 10) + [DigitChar(n % 10)]
  }

  /** `str(i)` of a Python integer. */
  function IntToString(i: int): (s: string)
    ensures |s| >= 1
  {
    if i < 0 then "-" + NatToString(-i) else NatToString(i)
  }

  const LogPrefix: string := "command_output_iteration_"
  const LogSuffix: string := ".json"

  /** `f'command_output_iteration_{iteration}.json'` */
  function LogPath(iteration: int): string {
    LogPrefix + IntToString(iteration) + LogSuffix
  }

  /** The number a string of decimal digits denotes. */
  function DigitsValue(s: string): nat {
    if s == [] then 0
    else
      var c := s[|s| - 1];
      DigitsValue(s[..|s| - 1]) * 10 + (if '0' <= c <= '9' then c as int - '0' as int else 0)
  }

  /** The integer `int(s)` reads back from `str(i)`. */
  function ParseInt(s: string): int {
    if |s| > 0 && s[0] == '-' then -(DigitsValue(s[1..]) as int) else DigitsValue(s)
  }

  lemma {:induction false} NatToStringRoundTrip(n: nat)
    ensures DigitsValue(NatToString(n)) == n
    ensures '0' <= NatToString(n)[0] <= '9'
    decreases n
  {
    var s := NatToString(n);
    if n >= 10 {
      NatToStringRoundTrip(n / 10);
      assert s[..|s| - 1] == NatToString(n / 10);
    } else {
      assert s[..|s| - 1] == [];
    }
  }

  lemma IntToStringRoundTrip(i: int)
    ensures ParseInt(IntToString(i)) == i
  {
    var s := IntToString(i);
    if i < 0 {
      var n := NatToString(-i);
      NatToStringRoundTrip(-i);
      assert s == "-" + n;
      assert s[0] == '-' && s[1..] == n;
      assert ParseInt(s) == -(DigitsValue(n) as int);
    } else {
      NatToStringRoundTrip(i);
      assert s[0] != '-';
      assert ParseInt(s) == DigitsValue(s);
    }
  }

  /** The iteration number written in a log file name. */
  function LogIteration(path: string): int {
    if |path| < |LogPrefix| + |LogSuffix| then 0
    else ParseInt(path[|LogPrefix|..|path| - |LogSuffix|])
  }

  /** The iteration can be read back from the log file name. */
  lemma LogPathRoundTrip(i: int)
    ensures LogIteration(LogPath(i)) == i
  {
    var p := LogPath(i);
    assert p[|LogPrefix|..|p| - |LogSuffix|] == IntToString(i);
    IntToStringRoundTrip(i);
  }

  /** Different iterations write different log files, so a log is never
      overwritten by a later iteration. */
  lemma LogPathInjective(i: int, j: int)
    requires LogPath(i) == LogPath(j)
    ensures i == j
  {
    LogPathRoundTrip(i);
    LogPathRoundTrip(j);
  }
}
