/**
  The server-group supervisor of the control panel: the `ServerState` flag
  and the operations that start, stop and restart the group. Every call into
  the operating system (spawning `wt`, listing processes through PowerShell,
  `taskkill`) is an input: the operation receives the answer the OS gives and
  returns, besides the new state, the log of calls it made with their answers.
 */
module Supervisor {
  import opened Text
  import opened Terminal

  datatype Option<T> = None | Some(value: T) {
    /** `Option::unwrap_or`. */
    function GetOr(default: T): T {
      match this
      case Some(v) => v
      case None => default
    }
  }

  /** The fields of `config-panel.toml`. */
  datatype Config = Config(projectPath: string, release: Option<bool>)

  /** `ServerState`: whether the panel believes the group is up. */
  datatype ServerState = ServerState(running: bool)

  /** The state the panel starts in. */
  const Initial: ServerState := ServerState(false)

  /** What spawning `wt` returned. */
  datatype SpawnResult = Spawned | SpawnError(message: string)

  /** What running the PowerShell process listing returned. */
  datatype EnumResult =
    | EnumRunError(message: string)  // PowerShell could not be run
    | EnumFailed                     // it ran and exited unsuccessfully
    | EnumOutput(stdout: string)     // it succeeded; its standard output

  /** What one `taskkill` returned. */
  datatype KillResult =
    | Killed                         // it ran and succeeded
    | KillRefused(stderr: string)    // it ran and exited unsuccessfully
    | KillRunError(message: string)  // it could not be run

  /**
    The answer `taskkill` gives to the kill attempt on the PID at position
    `i` of the listing.
   */
  type KillOracle = (nat, string) -> KillResult

  /** One call into the operating system, with the answer it got. */
  datatype OsCall =
    | Spawn(program: string, args: seq<string>, spawned: SpawnResult)
    | Enumerate(program: string, args: seq<string>, listed: EnumResult)
    | Kill(program: string, args: seq<string>, killed: KillResult)

  /** The messages `start_servers` ends with. */
  datatype StartReport = AlreadyRunning | Started | LaunchFailed(message: string)

  /** The messages `stop_servers` ends with; `failed` lists the PIDs warned about. */
  datatype StopReport =
    | NothingRunning
    | ListingNotRun(message: string)
    | ListingFailed
    | NoneFound
    | AllStopped
    | SomeNotStopped(failed: seq<string>)

  /** The result of one operation: the new state, the calls made, and the report. */
  datatype Outcome<R> = Outcome(state: ServerState, calls: seq<OsCall>, report: R)

  /** The PowerShell pipeline that prints the PIDs of windows titled with the prefix. */
  const ListingScript: string :=
    "Get-Process | Where-Object {$_.MainWindowTitle -like '*" + WindowTitlePrefix + "*'} | ForEach-Object {$_.Id}"

  function SpawnCall(projectPath: string, release: bool, spawned: SpawnResult): OsCall {
    Spawn("wt", Tokens(CommandLine(Servers, projectPath, release)), spawned)
  }

  function ListCall(listed: EnumResult): OsCall {
    Enumerate("powershell", ["-Command", ListingScript], listed)
  }

  function KillCall(pid: string, killed: KillResult): OsCall {
    Kill("taskkill", ["/F", "/PID", pid], killed)
  }

  /**
    `start_servers`. `projectPath` is the path `main` read at startup;
    `reread` is the configuration `start_servers` reads again on entry, of
    which only the release flag is used.
   */
  function Start(s: ServerState, projectPath: string, reread: Config, spawned: SpawnResult)
    : (o: Outcome<StartReport>)
    ensures s.running ==> o == Outcome(s, [], AlreadyRunning)
    ensures !s.running ==> o.calls == [SpawnCall(projectPath, reread.release.GetOr(false), spawned)]
    ensures !s.running ==> (o.state.running <==> spawned.Spawned?)
    ensures o.report == Started <==> !s.running && o.state.running
  {
    if s.running then Outcome(s, [], AlreadyRunning)
    else
      var call := SpawnCall(projectPath, reread.release.GetOr(false), spawned);
      match spawned
      case Spawned => Outcome(ServerState(true), [call], Started)
      case SpawnError(message) => Outcome(s, [call], LaunchFailed(message))
  }

  /** The kill attempts made so far and the PIDs whose attempt failed. */
  datatype KillTally = KillTally(calls: seq<OsCall>, failed: seq<string>)

  /**
    Reference for the kill loop of `stop_servers`: one `taskkill` per PID
    that is not blank, in listing order, whatever the earlier ones answered.
   */
  function KillPass(pids: seq<string>, kill: KillOracle): KillTally
    decreases |pids|
  {
    if |pids| == 0 then KillTally([], [])
    else
      var n := |pids| - 1;
      var before := KillPass(pids[..n], kill);
      if |Trim(pids[n])| == 0 then before
      else
        var answer := kill(n, pids[n]);
        KillTally(before.calls + [KillCall(pids[n], answer)],
                  before.failed + (if answer.Killed? then [] else [pids[n]]))
  }

  /** The kill pass over one more PID: that PID is skipped or attempted, after the ones before it. */
  lemma KillPassNext(pids: seq<string>, i: nat, kill: KillOracle)
    requires i < |pids|
    ensures var before := KillPass(pids[..i], kill);
            var answer := kill(i, pids[i]);
            KillPass(pids[..i + 1], kill)
              == if |Trim(pids[i])| == 0 then before
                 else KillTally(before.calls + [KillCall(pids[i], answer)],
                                before.failed + (if answer.Killed? then [] else [pids[i]]))
  {
    assert pids[..i + 1][..i] == pids[..i];
  }

  /** The loop of `stop_servers` over the listed PIDs, with its `all_killed` flag. */
  method KillEach(pids: seq<string>, kill: KillOracle)
    returns (calls: seq<OsCall>, failed: seq<string>, allKilled: bool)
    ensures KillTally(calls, failed) == KillPass(pids, kill)
    ensures allKilled <==> |failed| == 0
  {
    calls, failed, allKilled := [], [], true;
    for i := 0 to |pids|
      invariant KillTally(calls, failed) == KillPass(pids[..i], kill)
      invariant allKilled <==> |failed| == 0
    {
      KillPassNext(pids, i, kill);
      var pid := pids[i];
      if |Trim(pid)| > 0 {
        var answer := kill(i, pid);
        calls := calls + [KillCall(pid, answer)];
        if !answer.Killed? {
          failed := failed + [pid];
          allKilled := false;
        }
      }
    }
    assert pids[..|pids|] == pids;
  }

  /** Some kill attempt on a PID of `pids` was not answered with success. */
  predicate AnyKillFails(pids: seq<string>, kill: KillOracle) {
    exists i :: 0 <= i < |pids| && !kill(i, pids[i]).Killed?
  }

  /**
    When every PID is a `split_whitespace` token, no PID is skipped: there is
    exactly one attempt per PID, in listing order, whatever the earlier
    attempts answered.
   */
  lemma {:induction false} KillPassAttemptsAll(pids: seq<string>, kill: KillOracle)
    requires forall i :: 0 <= i < |pids| ==> IsWord(pids[i])
    ensures |KillPass(pids, kill).calls| == |pids|
    ensures forall i :: 0 <= i < |pids| ==> KillPass(pids, kill).calls[i] == KillCall(pids[i], kill(i, pids[i]))
    decreases |pids|
  {
    if |pids| > 0 {
      var n := |pids| - 1;
      var prefix := pids[..n];
      KillPassAttemptsAll(prefix, kill);
      TrimWord(pids[n]);
      var tally := KillPass(pids, kill);
      forall i | 0 <= i < |pids|
        ensures tally.calls[i] == KillCall(pids[i], kill(i, pids[i]))
      {
        if i < n {
          assert prefix[i] == pids[i];
        }
      }
    }
  }

  /** One step of the kill pass over a PID that is a token. */
  lemma KillPassStep(pids: seq<string>, kill: KillOracle)
    requires |pids| > 0 && IsWord(pids[|pids| - 1])
    ensures var n := |pids| - 1;
            var before := KillPass(pids[..n], kill);
            KillPass(pids, kill).failed
              == before.failed + (if kill(n, pids[n]).Killed? then [] else [pids[n]])
  {
    TrimWord(pids[|pids| - 1]);
  }

  /** No PID is reported as not stopped exactly when every attempt succeeded. */
  lemma {:induction false} KillPassAllKilled(pids: seq<string>, kill: KillOracle)
    requires forall i :: 0 <= i < |pids| ==> IsWord(pids[i])
    ensures |KillPass(pids, kill).failed| == 0 <==> !AnyKillFails(pids, kill)
    decreases |pids|
  {
    if |pids| > 0 {
      var n := |pids| - 1;
      var prefix := pids[..n];
      KillPassAllKilled(prefix, kill);
      KillPassStep(pids, kill);
      if AnyKillFails(prefix, kill) {
        var i :| 0 <= i < |prefix| && !kill(i, prefix[i]).Killed?;
        assert pids[i] == prefix[i];
      }
      if AnyKillFails(pids, kill) && kill(n, pids[n]).Killed? {
        var i :| 0 <= i < |pids| && !kill(i, pids[i]).Killed?;
        assert i < n && prefix[i] == pids[i];
      }
    }
  }

  /** Each PID whose attempt failed is reported as not stopped. */
  lemma {:induction false} FailureReported(pids: seq<string>, kill: KillOracle, i: nat)
    requires forall j :: 0 <= j < |pids| ==> IsWord(pids[j])
    requires i < |pids| && !kill(i, pids[i]).Killed?
    ensures pids[i] in KillPass(pids, kill).failed
    decreases |pids|
  {
    var n := |pids| - 1;
    var prefix := pids[..n];
    var before := KillPass(prefix, kill).failed;
    var added := if kill(n, pids[n]).Killed? then [] else [pids[n]];
    KillPassStep(pids, kill);
    if i < n {
      assert prefix[i] == pids[i];
      FailureReported(prefix, kill, i);
      assert pids[i] in before;
    } else {
      assert pids[i] in added;
    }
    assert pids[i] in before + added;
  }

  /** Each PID reported as not stopped is one whose attempt failed. */
  lemma {:induction false} KillPassFailedAreFailures(pids: seq<string>, kill: KillOracle)
    requires forall i :: 0 <= i < |pids| ==> IsWord(pids[i])
    ensures forall p :: p in KillPass(pids, kill).failed ==>
              exists i :: 0 <= i < |pids| && pids[i] == p && !kill(i, pids[i]).Killed?
    decreases |pids|
  {
    if |pids| > 0 {
      var n := |pids| - 1;
      var prefix := pids[..n];
      KillPassFailedAreFailures(prefix, kill);
      KillPassStep(pids, kill);
      var before := KillPass(prefix, kill);
      forall p | p in KillPass(pids, kill).failed
        ensures exists i :: 0 <= i < |pids| && pids[i] == p && !kill(i, pids[i]).Killed?
      {
        if p in before.failed {
          var i :| 0 <= i < |prefix| && prefix[i] == p && !kill(i, prefix[i]).Killed?;
          assert pids[i] == p;
        } else {
          assert p == pids[n] && !kill(n, pids[n]).Killed?;
        }
      }
    }
  }

  /**
    `stop_servers`. The PowerShell listing is made only when the group is
    believed up; whatever it and the kills answer, the group ends believed
    down.
   */
  function Stop(s: ServerState, listed: EnumResult, kill: KillOracle): (o: Outcome<StopReport>)
    ensures !o.state.running
    ensures !s.running ==> o.calls == [] && o.report == NothingRunning
    ensures s.running ==> |o.calls| > 0 && o.calls[0] == ListCall(listed)
    ensures s.running && !listed.EnumOutput? ==> |o.calls| == 1
    ensures s.running && listed.EnumOutput? ==> o.calls[1..] == KillPass(Tokens(listed.stdout), kill).calls
    ensures o.report.SomeNotStopped? <==>
              s.running && listed.EnumOutput? && AnyKillFails(Tokens(listed.stdout), kill)
  {
    if !s.running then Outcome(s, [], NothingRunning)
    else
      var stopped := ServerState(false);
      var list := ListCall(listed);
      match listed
      case EnumRunError(message) => Outcome(stopped, [list], ListingNotRun(message))
      case EnumFailed => Outcome(stopped, [list], ListingFailed)
      case EnumOutput(stdout) =>
        var pids := Tokens(stdout);
        KillPassAllKilled(pids, kill);
        if |pids| == 0 then Outcome(stopped, [list], NoneFound)
        else
          var tally := KillPass(pids, kill);
          Outcome(stopped, [list] + tally.calls,
                  if |tally.failed| == 0 then AllStopped else SomeNotStopped(tally.failed))
  }

  /**
    Every PID token of the listing gets exactly one `taskkill`, in listing
    order, after the listing itself; a failed kill does not hold back the
    ones after it.
   */
  lemma StopKillsEachToken(s: ServerState, stdout: string, kill: KillOracle)
    requires s.running
    ensures var o := Stop(s, EnumOutput(stdout), kill);
            var pids := Tokens(stdout);
            && |o.calls| == 1 + |pids|
            && o.calls[0] == ListCall(EnumOutput(stdout))
            && forall i :: 0 <= i < |pids| ==> o.calls[1 + i] == KillCall(pids[i], kill(i, pids[i]))
  {
    KillPassAttemptsAll(Tokens(stdout), kill);
  }

  /**
    What a stop of a running group reports for each answer of the listing:
    the listing's own failure, nothing found when its output is blank, all
    stopped when every kill succeeded, and otherwise a warning that names
    only PIDs whose kill failed.
   */
  lemma StopReports(s: ServerState, listed: EnumResult, kill: KillOracle)
    requires s.running
    ensures var r := Stop(s, listed, kill).report;
            && (listed.EnumRunError? ==> r == ListingNotRun(listed.message))
            && (listed.EnumFailed? ==> r == ListingFailed)
            && (listed.EnumOutput? ==> (r == NoneFound <==> AllWhitespace(listed.stdout)))
            && (listed.EnumOutput? ==>
                  (r == AllStopped <==> !AllWhitespace(listed.stdout) && !AnyKillFails(Tokens(listed.stdout), kill)))
  {
    if listed.EnumOutput? {
      TokensEmpty(listed.stdout);
    }
  }

  /**
    The PIDs a stop warns about are exactly the listed PIDs whose kill
    failed: each of them, and no other.
   */
  lemma StopWarnsExactlyFailures(s: ServerState, listed: EnumResult, kill: KillOracle)
    ensures var r := Stop(s, listed, kill).report;
            r.SomeNotStopped? ==>
              && listed.EnumOutput?
              && |r.failed| > 0
              && forall p :: p in r.failed <==>
                   exists i :: 0 <= i < |Tokens(listed.stdout)| && Tokens(listed.stdout)[i] == p
                               && !kill(i, Tokens(listed.stdout)[i]).Killed?
  {
    if s.running && listed.EnumOutput? {
      var pids := Tokens(listed.stdout);
      KillPassFailedAreFailures(pids, kill);
      forall p, i | 0 <= i < |pids| && pids[i] == p && !kill(i, pids[i]).Killed?
        ensures p in KillPass(pids, kill).failed
      {
        FailureReported(pids, kill, i);
      }
    }
  }

  /**
    A worked case: two PIDs are listed, the kill of the first fails and the
    kill of the second succeeds. The first is reported as not stopped, and
    the group is still taken as down.
   */
  lemma PartialKillStillStops(first: string, second: string, kill: KillOracle)
    requires IsWord(first) && IsWord(second)
    requires !kill(0, first).Killed? && kill(1, second).Killed?
    ensures var o := Stop(ServerState(true), EnumOutput(Join([first, second], " ")), kill);
            && o.report == SomeNotStopped([first])
            && !o.state.running
            && |o.calls| == 3
  {
    var stdout := Join([first, second], " ");
    TokensOfJoin([first, second]);
    var pids := Tokens(stdout);
    assert pids == [first, second];
    KillPassOfTwo(first, second, kill);
    var tally := KillPass(pids, kill);
    assert Stop(ServerState(true), EnumOutput(stdout), kill)
        == Outcome(ServerState(false), [ListCall(EnumOutput(stdout))] + tally.calls, SomeNotStopped(tally.failed));
  }

  lemma KillPassOfTwo(first: string, second: string, kill: KillOracle)
    requires IsWord(first) && IsWord(second)
    requires !kill(0, first).Killed? && kill(1, second).Killed?
    ensures KillPass([first, second], kill).failed == [first]
    ensures |KillPass([first, second], kill).calls| == 2
  {
    var pids := [first, second];
    assert pids[..1] == [first] && [first][..0] == [];
    KillPassStep([first], kill);
    assert KillPass([first], kill).failed == [first];
    KillPassStep(pids, kill);
    assert KillPass(pids, kill).failed == [first] + [];
    KillPassAttemptsAll(pids, kill);
  }

  /** The report of `restart_servers`: what its stop and its start said. */
  datatype RestartReport = RestartReport(stop: StopReport, start: StartReport)

  /** `restart_servers`: stop, then start. */
  function Restart(s: ServerState, projectPath: string, reread: Config,
                   listed: EnumResult, kill: KillOracle, spawned: SpawnResult)
    : (o: Outcome<RestartReport>)
    ensures o.state.running <==> spawned.Spawned?
    ensures o.calls == Stop(s, listed, kill).calls + [SpawnCall(projectPath, reread.release.GetOr(false), spawned)]
  {
    var stop := Stop(s, listed, kill);
    var start := Start(stop.state, projectPath, reread, spawned);
    Outcome(start.state, stop.calls + start.calls, RestartReport(stop.report, start.report))
  }

  /**
    Whether a line typed at the exit prompt agrees to stop the servers:
    `get_user_input` trims it and `exit_control_panel` trims and lower-cases
    it again before comparing with "y".
   */
  predicate Confirms(line: string) {
    Lower(Trim(Trim(line))) == "y"
  }

  /** Exactly "y" and "Y", surrounded by any whitespace, confirm. */
  lemma ConfirmsExactly(line: string)
    ensures Confirms(line) <==> Trim(line) == "y" || Trim(line) == "Y"
  {
    TrimIdempotent(line);
    LowerIsY(Trim(line));
  }

  /** How `exit_control_panel` leaves the group. */
  datatype ExitReport = LeftStopped | LeftRunning | StoppedFirst(stop: StopReport)

  /**
    `exit_control_panel`: when the group is believed up, asks whether to stop
    it, and stops it on "y".
   */
  function Exit(s: ServerState, answer: string, listed: EnumResult, kill: KillOracle)
    : (o: Outcome<ExitReport>)
    ensures s.running && Confirms(answer) ==> !o.state.running && o.calls == Stop(s, listed, kill).calls
    ensures !(s.running && Confirms(answer)) ==> o.state == s && o.calls == []
    ensures o.state.running ==> s.running && !Confirms(answer)
  {
    if !s.running then Outcome(s, [], LeftStopped)
    else if Confirms(answer) then
      var stop := Stop(s, listed, kill);
      Outcome(stop.state, stop.calls, StoppedFirst(stop.report))
    else Outcome(s, [], LeftRunning)
  }

  /** What the start half of option 5 reports. */
  datatype LaunchStartReport =
    | StartSkipped                   // believed up: no need to start again
    | StartAttempted(start: StartReport)

  /**
    The start half of `start_servers_and_launch_launcher`: when the group is
    believed up it says there is no need to start it again, and otherwise it
    runs `start_servers`. Its state and calls are those of option 1 in every
    case; only the message for a group already up differs.
   */
  function StartForLauncher(s: ServerState, projectPath: string, reread: Config, spawned: SpawnResult)
    : (o: Outcome<LaunchStartReport>)
    ensures s.running ==> o == Outcome(s, [], StartSkipped)
    ensures !s.running ==> o.report == StartAttempted(Start(s, projectPath, reread, spawned).report)
    ensures o.state == Start(s, projectPath, reread, spawned).state
    ensures o.calls == Start(s, projectPath, reread, spawned).calls
  {
    if s.running then Outcome(s, [], StartSkipped)
    else
      var o := Start(s, projectPath, reread, spawned);
      Outcome(o.state, o.calls, StartAttempted(o.report))
  }
}
