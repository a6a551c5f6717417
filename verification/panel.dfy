/**
  The control panel's main loop: it reads a menu choice, runs the matching
  supervisor operation, and goes round again until the user picks Exit. A
  session is modelled as the sequence of turns the user and the operating
  system would play; each turn carries the line typed at the menu and the
  answers the OS gives to whatever that choice asks of it.
 */
module Panel {
  import opened Text
  import opened Supervisor

  /** The five menu entries, and anything else typed at the prompt. */
  datatype Choice = StartAll | RestartAll | StopAll | ExitPanel | StartAndLaunch | Invalid

  /** The text a menu entry is selected by. */
  function Key(c: Choice): string
    requires c != Invalid
  {
    match c
    case StartAll => "1"
    case RestartAll => "2"
    case StopAll => "3"
    case ExitPanel => "4"
    case StartAndLaunch => "5"
  }

  /** The entry a key selects; a key that is none of "1" to "5" selects nothing. */
  function ChoiceOfKey(key: string): Choice {
    if key == "1" then StartAll
    else if key == "2" then RestartAll
    else if key == "3" then StopAll
    else if key == "4" then ExitPanel
    else if key == "5" then StartAndLaunch
    else Invalid
  }

  /** Each entry is selected by its own key and by nothing else. */
  lemma KeyOfChoice(key: string, c: Choice)
    requires c != Invalid
    ensures ChoiceOfKey(key) == c <==> key == Key(c)
  {
  }

  /**
    The entry a line typed at the menu selects: `get_user_input` trims the
    line and `main` trims it again before matching it against "1" to "5".
   */
  function ParseChoice(line: string): Choice {
    ChoiceOfKey(Trim(Trim(line)))
  }

  /**
    A line selects an entry exactly when, stripped of surrounding whitespace,
    it is that entry's key; so each entry is reached by its own key.
   */
  lemma ChoiceByKey(line: string, c: Choice)
    requires c != Invalid
    ensures ParseChoice(line) == c <==> Trim(line) == Key(c)
  {
    TrimIdempotent(line);
    KeyOfChoice(Trim(line), c);
  }

  /** Every menu entry is selected by its key typed as it is. */
  lemma KeySelects(c: Choice)
    requires c != Invalid
    ensures ParseChoice(Key(c)) == c
  {
    TrimWord(Key(c));
    ChoiceByKey(Key(c), c);
  }

  /**
    What one pass round the loop is given: the line typed at the menu, the
    configuration `get_config` reads, and the OS's answers to the spawn, the
    listing, the kills and the exit prompt. A choice uses only the answers it
    asks for.
   */
  datatype Turn = Turn(line: string, reread: Config, spawned: SpawnResult,
                       listed: EnumResult, kills: seq<KillResult>, answer: string)

  /**
    The `taskkill` answers a turn scripts: the PID at position `i` of the
    listing gets `kills[i]`; a PID past the end of the script is refused.
   */
  function KillsOf(t: Turn): KillOracle {
    (i: nat, pid: string) => if i < |t.kills| then t.kills[i] else KillRefused("")
  }

  /** What a pass round the loop reported. */
  datatype PanelReport =
    | StartDone(start: StartReport)
    | RestartDone(restart: RestartReport)
    | StopDone(stop: StopReport)
    | ExitDone(exit: ExitReport)
    | LaunchDone(launch: LaunchStartReport)
    | InvalidChoice

  function ChoiceOf(t: Turn): Choice {
    ParseChoice(t.line)
  }

  /** The operation behind menu entry `c`, fed the OS answers of turn `t`. */
  function Perform(s: ServerState, projectPath: string, c: Choice, t: Turn): (o: Outcome<PanelReport>)
    ensures c == Invalid ==> o == Outcome(s, [], InvalidChoice)
    ensures o.report.ExitDone? <==> c == ExitPanel
  {
    match c
    case StartAll =>
      var o := Start(s, projectPath, t.reread, t.spawned);
      Outcome(o.state, o.calls, StartDone(o.report))
    case RestartAll =>
      var o := Restart(s, projectPath, t.reread, t.listed, KillsOf(t), t.spawned);
      Outcome(o.state, o.calls, RestartDone(o.report))
    case StopAll =>
      var o := Stop(s, t.listed, KillsOf(t));
      Outcome(o.state, o.calls, StopDone(o.report))
    case ExitPanel =>
      var o := Exit(s, t.answer, t.listed, KillsOf(t));
      Outcome(o.state, o.calls, ExitDone(o.report))
    case StartAndLaunch =>
      var o := StartForLauncher(s, projectPath, t.reread, t.spawned);
      Outcome(o.state, o.calls, LaunchDone(o.report))
    case Invalid => Outcome(s, [], InvalidChoice)
  }

  /**
    What each entry does to the flag: a stop always leaves the group down, a
    restart leaves it up exactly when its spawn succeeded, both start entries
    leave a running group alone and otherwise spawn `wt` once and come up
    exactly when that spawn succeeded, and Exit leaves the group up exactly
    when it was up and the stop was declined.
   */
  lemma PerformEffects(s: ServerState, projectPath: string, c: Choice, t: Turn)
    ensures var o := Perform(s, projectPath, c, t);
            && (c == StopAll ==> !o.state.running)
            && (c == RestartAll ==> (o.state.running <==> t.spawned.Spawned?))
            && ((c == StartAll || c == StartAndLaunch) ==>
                  && (s.running ==> o.state == s && o.calls == [])
                  && (!s.running ==> o.calls == [SpawnCall(projectPath, t.reread.release.GetOr(false), t.spawned)])
                  && (!s.running ==> (o.state.running <==> t.spawned.Spawned?)))
            && (c == ExitPanel ==> (o.state.running <==> s.running && !Confirms(t.answer)))
  {
  }

  /** One pass round the loop of `main`: the `match` on the trimmed choice. */
  function Dispatch(s: ServerState, projectPath: string, t: Turn): Outcome<PanelReport> {
    Perform(s, projectPath, ChoiceOf(t), t)
  }

  /**
    A line that is none of the keys "1" to "5", once trimmed, is answered
    with "Invalid choice" and changes nothing.
   */
  lemma InvalidLineChangesNothing(s: ServerState, projectPath: string, t: Turn)
    requires forall c :: c != Invalid ==> Trim(t.line) != Key(c)
    ensures Dispatch(s, projectPath, t) == Outcome(s, [], InvalidChoice)
  {
    var c := ChoiceOf(t);
    if c != Invalid {
      ChoiceByKey(t.line, c);
      assert false;
    }
  }

  /** The loop ends after a pass exactly when the line typed was "4", trimmed (the key of Exit). */
  lemma ExitOnlyOnFour(s: ServerState, projectPath: string, t: Turn)
    ensures Dispatch(s, projectPath, t).report.ExitDone? <==> Trim(t.line) == Key(ExitPanel)
  {
    ChoiceByKey(t.line, ExitPanel);
  }

  /**
    How many entries of a run of menu choices the loop of `main` reads: up to
    and including the first Exit, or all of them when none is Exit.
   */
  function TurnsRead(cs: seq<Choice>): (k: nat)
    ensures k <= |cs|
    ensures ExitPanel in cs <==> 0 < k && cs[k - 1] == ExitPanel
    ensures ExitPanel !in cs ==> k == |cs|
    ensures forall i :: 0 <= i < k - 1 ==> cs[i] != ExitPanel
    decreases |cs|
  {
    if |cs| == 0 then 0
    else if cs[0] == ExitPanel then 1
    else
      assert cs == [cs[0]] + cs[1..];
      1 + TurnsRead(cs[1..])
  }

  /** Choices after the first Exit are never read. */
  lemma {:induction false} TurnsReadStopsAtExit(cs: seq<Choice>, more: seq<Choice>)
    requires ExitPanel in cs
    ensures TurnsRead(cs + more) == TurnsRead(cs)
    decreases |cs|
  {
    assert (cs + more)[0] == cs[0];
    if cs[0] != ExitPanel {
      assert (cs + more)[1..] == cs[1..] + more;
      assert cs == [cs[0]] + cs[1..];
      TurnsReadStopsAtExit(cs[1..], more);
    }
  }

  /** The state and call log after a run of passes round the loop. */
  datatype Trace = Trace(state: ServerState, calls: seq<OsCall>)

  /** Every turn of `turns` dispatched in order, with no Exit test. */
  function Run(s: ServerState, projectPath: string, turns: seq<Turn>): Trace
    decreases |turns|
  {
    if |turns| == 0 then Trace(s, [])
    else
      var before := Run(s, projectPath, turns[..|turns| - 1]);
      var o := Dispatch(before.state, projectPath, turns[|turns| - 1]);
      Trace(o.state, before.calls + o.calls)
  }

  /** `f` applied to each element of `xs`, in order. */
  function Map<A, B>(f: A -> B, xs: seq<A>): (ys: seq<B>)
    ensures |ys| == |xs|
    ensures forall i :: 0 <= i < |xs| ==> ys[i] == f(xs[i])
  {
    seq(|xs|, i requires 0 <= i < |xs| => f(xs[i]))
  }

  lemma MapAppend<A, B>(f: A -> B, xs: seq<A>, ys: seq<A>)
    ensures Map(f, xs + ys) == Map(f, xs) + Map(f, ys)
  {
  }

  /** The menu entry each turn selects, in order. */
  function ChoicesOf(turns: seq<Turn>): seq<Choice> {
    Map(ChoiceOf, turns)
  }

  /** Where a session ended: the state, every OS call made, how many turns it read, and whether it exited. */
  datatype SessionEnd = SessionEnd(state: ServerState, calls: seq<OsCall>, consumed: nat, quit: bool)

  /**
    The loop of `main` over a sequence of turns: it dispatches turn after turn
    and leaves right after the first Exit; turns after it are never read.
   */
  function Session(s: ServerState, projectPath: string, turns: seq<Turn>): (r: SessionEnd)
    ensures r.consumed <= |turns|
    ensures r.quit <==> ExitPanel in ChoicesOf(turns)
    ensures !r.quit ==> r.consumed == |turns|
  {
    var cs := ChoicesOf(turns);
    var k := TurnsRead(cs);
    var trace := Run(s, projectPath, turns[..k]);
    SessionEnd(trace.state, trace.calls, k, 0 < k && cs[k - 1] == ExitPanel)
  }

  /**
    A session reads its turns up to and including the first that selects
    Exit, and no further.
   */
  lemma SessionStopsAtFirstExit(s: ServerState, projectPath: string, turns: seq<Turn>)
    ensures var r := Session(s, projectPath, turns);
            && (r.quit ==> 0 < r.consumed && ChoiceOf(turns[r.consumed - 1]) == ExitPanel)
            && forall i :: 0 <= i < r.consumed - 1 ==> ChoiceOf(turns[i]) != ExitPanel
  {
    var cs := ChoicesOf(turns);
    var k: int := TurnsRead(cs);
    forall i | 0 <= i < k - 1
      ensures ChoiceOf(turns[i]) != ExitPanel
    {
      assert cs[i] != ExitPanel;
    }
    if ExitPanel in cs {
      assert cs[k - 1] == ExitPanel;
    }
  }

  /** The turns after the first Exit make no difference to a session. */
  lemma SessionIgnoresAfterExit(s: ServerState, projectPath: string, turns: seq<Turn>, more: seq<Turn>)
    requires Session(s, projectPath, turns).quit
    ensures Session(s, projectPath, turns + more) == Session(s, projectPath, turns)
  {
    var cs, ds := ChoicesOf(turns), ChoicesOf(more);
    MapAppend(ChoiceOf, turns, more);
    assert ChoicesOf(turns + more) == cs + ds;
    assert ExitPanel in cs;
    assert ExitPanel in cs + ds;
    TurnsReadStopsAtExit(cs, ds);
    var k := TurnsRead(cs);
    PrefixOfAppend(turns, more, k);
  }

  lemma PrefixOfAppend<T>(xs: seq<T>, ys: seq<T>, k: nat)
    requires k <= |xs|
    ensures (xs + ys)[..k] == xs[..k]
  {
  }

  /**
    What a logged OS call tells the panel about the group: a spawn says it is
    up exactly when `wt` was spawned, a listing means a stop is under way and
    the group will be taken as down, and a kill changes nothing further.
   */
  function Effect(up: bool, c: OsCall): bool {
    match c
    case Spawn(_, _, spawned) => spawned.Spawned?
    case Enumerate(_, _, _) => false
    case Kill(_, _, _) => up
  }

  /** Replays a call log, starting from `up`. */
  function Believed(up: bool, calls: seq<OsCall>): bool
    decreases |calls|
  {
    if |calls| == 0 then up
    else Effect(Believed(up, calls[..|calls| - 1]), calls[|calls| - 1])
  }

  lemma {:induction false} BelievedAppend(up: bool, a: seq<OsCall>, b: seq<OsCall>)
    ensures Believed(up, a + b) == Believed(Believed(up, a), b)
    decreases |b|
  {
    if |b| == 0 {
      assert a + b == a;
    } else {
      var n := |b| - 1;
      assert (a + b)[..|a + b| - 1] == a + b[..n];
      BelievedAppend(up, a, b[..n]);
    }
  }

  lemma {:induction false} KillPassOnlyKills(pids: seq<string>, kill: KillOracle)
    ensures forall i :: 0 <= i < |KillPass(pids, kill).calls| ==> KillPass(pids, kill).calls[i].Kill?
    decreases |pids|
  {
    if |pids| > 0 {
      KillPassOnlyKills(pids[..|pids| - 1], kill);
    }
  }

  lemma {:induction false} BelievedKills(up: bool, calls: seq<OsCall>)
    requires forall i :: 0 <= i < |calls| ==> calls[i].Kill?
    ensures Believed(up, calls) == up
    decreases |calls|
  {
    if |calls| > 0 {
      BelievedKills(up, calls[..|calls| - 1]);
    }
  }

  /** A stop's calls, replayed, leave the group taken as down. */
  lemma StopJustified(s: ServerState, listed: EnumResult, kill: KillOracle)
    ensures Believed(s.running, Stop(s, listed, kill).calls) == Stop(s, listed, kill).state.running
  {
    var o := Stop(s, listed, kill);
    if s.running {
      assert o.calls == [o.calls[0]] + o.calls[1..];
      BelievedAppend(s.running, [o.calls[0]], o.calls[1..]);
      assert Believed(s.running, [o.calls[0]]) == false;
      if listed.EnumOutput? {
        KillPassOnlyKills(Tokens(listed.stdout), kill);
        BelievedKills(false, o.calls[1..]);
      }
    }
  }

  /** A start's calls, replayed, agree with the state it leaves. */
  lemma StartJustified(s: ServerState, projectPath: string, reread: Config, spawned: SpawnResult)
    ensures Believed(s.running, Start(s, projectPath, reread, spawned).calls)
            == Start(s, projectPath, reread, spawned).state.running
  {
    var o := Start(s, projectPath, reread, spawned);
    if !s.running {
      assert Believed(s.running, o.calls) == Effect(s.running, o.calls[0]);
    }
  }

  /** A restart's calls, replayed, agree with the state it leaves. */
  lemma RestartJustified(s: ServerState, projectPath: string, reread: Config,
                         listed: EnumResult, kill: KillOracle, spawned: SpawnResult)
    ensures Believed(s.running, Restart(s, projectPath, reread, listed, kill, spawned).calls)
            == Restart(s, projectPath, reread, listed, kill, spawned).state.running
  {
    var stop := Stop(s, listed, kill);
    var start := Start(stop.state, projectPath, reread, spawned);
    StopJustified(s, listed, kill);
    StartJustified(stop.state, projectPath, reread, spawned);
    BelievedAppend(s.running, stop.calls, start.calls);
  }

  /**
    The flag `main` keeps agrees, after every pass round the loop, with what
    the calls that pass made say about the group.
   */
  lemma PerformJustified(s: ServerState, projectPath: string, c: Choice, t: Turn)
    ensures Believed(s.running, Perform(s, projectPath, c, t).calls) == Perform(s, projectPath, c, t).state.running
  {
    var p := Perform(s, projectPath, c, t);
    match c
    case StartAll =>
      var o := Start(s, projectPath, t.reread, t.spawned);
      assert p == Outcome(o.state, o.calls, StartDone(o.report));
      StartJustified(s, projectPath, t.reread, t.spawned);
    case RestartAll =>
      var o := Restart(s, projectPath, t.reread, t.listed, KillsOf(t), t.spawned);
      assert p == Outcome(o.state, o.calls, RestartDone(o.report));
      RestartJustified(s, projectPath, t.reread, t.listed, KillsOf(t), t.spawned);
    case StopAll =>
      var o := Stop(s, t.listed, KillsOf(t));
      assert p == Outcome(o.state, o.calls, StopDone(o.report));
      StopJustified(s, t.listed, KillsOf(t));
    case ExitPanel =>
      var o := Exit(s, t.answer, t.listed, KillsOf(t));
      assert p == Outcome(o.state, o.calls, ExitDone(o.report));
      StopJustified(s, t.listed, KillsOf(t));
    case StartAndLaunch =>
      var o := StartForLauncher(s, projectPath, t.reread, t.spawned);
      assert p == Outcome(o.state, o.calls, LaunchDone(o.report));
      StartJustified(s, projectPath, t.reread, t.spawned);
    case Invalid =>
  }

  /** Over any run of passes, the flag agrees with the call log those passes made. */
  lemma {:induction false} RunJustified(s: ServerState, projectPath: string, turns: seq<Turn>)
    ensures Believed(s.running, Run(s, projectPath, turns).calls) == Run(s, projectPath, turns).state.running
    decreases |turns|
  {
    if |turns| > 0 {
      var n := |turns| - 1;
      var before := Run(s, projectPath, turns[..n]);
      var o := Dispatch(before.state, projectPath, turns[n]);
      assert Run(s, projectPath, turns) == Trace(o.state, before.calls + o.calls);
      RunJustified(s, projectPath, turns[..n]);
      PerformJustified(before.state, projectPath, ChoiceOf(turns[n]), turns[n]);
      BelievedAppend(s.running, before.calls, o.calls);
    }
  }

  /**
    Over a whole session, the flag agrees with the call log: replaying every
    call the session made from the flag it started with gives the flag it
    ends with.
   */
  lemma SessionJustified(s: ServerState, projectPath: string, turns: seq<Turn>)
    ensures Believed(s.running, Session(s, projectPath, turns).calls) == Session(s, projectPath, turns).state.running
  {
    RunJustified(s, projectPath, turns[..TurnsRead(ChoicesOf(turns))]);
  }

  /** Whether `wt` was spawned at position `i` of the log, with no listing after it. */
  predicate UpSince(calls: seq<OsCall>, i: int) {
    && 0 <= i < |calls|
    && calls[i].Spawn? && calls[i].spawned.Spawned?
    && forall j :: i < j < |calls| ==> !calls[j].Enumerate? && !(calls[j].Spawn? && !calls[j].spawned.Spawned?)
  }

  /**
    Replayed from "down", a log says "up" exactly when it holds a successful
    spawn of `wt` followed by no listing and no failed spawn.
   */
  lemma {:induction false} BelievedMeans(calls: seq<OsCall>)
    ensures Believed(false, calls) <==> exists i :: UpSince(calls, i)
    decreases |calls|
  {
    if |calls| > 0 {
      var n := |calls| - 1;
      var prefix := calls[..n];
      BelievedMeans(prefix);
      var c := calls[n];
      if c.Kill? {
        if Believed(false, calls) {
          var i :| UpSince(prefix, i);
          assert UpSince(calls, i);
        }
        if exists i :: UpSince(calls, i) {
          var i :| UpSince(calls, i);
          assert i < n;
          assert UpSince(prefix, i);
        }
      } else if c.Spawn? && c.spawned.Spawned? {
        assert UpSince(calls, n);
      } else {
        forall i | 0 <= i < |calls|
          ensures !UpSince(calls, i)
        {
          assert calls[n] == c;
        }
      }
    }
  }

  /**
    A session started as `main` starts it, with the group taken as down, ends
    with the group taken as up exactly when its log holds a successful spawn
    of `wt` that no later listing or failed spawn followed.
   */
  lemma SessionFromInitial(projectPath: string, turns: seq<Turn>)
    ensures var r := Session(Initial, projectPath, turns);
            r.state.running <==> exists i :: UpSince(r.calls, i)
  {
    SessionJustified(Initial, projectPath, turns);
    BelievedMeans(Session(Initial, projectPath, turns).calls);
  }
}
