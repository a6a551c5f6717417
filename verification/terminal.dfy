/**
  The Windows Terminal command line `start_servers` builds: one tab per
  server, each titled with the group prefix and running the server through
  `cargo run` in the project directory. The line is handed to `wt` split on
  whitespace, so the model describes both the string and the argument list
  that results from splitting it.
 */
module Terminal {
  import opened Text

  /** `get_window_title_prefix`: the tag every server tab's title starts with. */
  const WindowTitlePrefix: string := "WW_"

  /** The managed group, in start order. */
  const Servers: seq<string> := [
    "wicked-waifus-config-server",
    "wicked-waifus-login-server",
    "wicked-waifus-gateway-server",
    "wicked-waifus-game-server"
  ]

  /** What separates the tabs after the first one. */
  const NewTab: string := " ; new-tab "

  /** The window title of a server's tab. */
  function Title(name: string): string {
    WindowTitlePrefix + name
  }

  function ReleaseFlag(release: bool): string {
    if release then "--release" else ""
  }

  /** The `cmd /c` command a tab runs for one server. */
  function ServerCommand(projectPath: string, release: bool, name: string): string {
    "cd /d " + projectPath + " && cargo run " + ReleaseFlag(release) + " --bin " + name + " && pause"
  }

  /** One tab: a title and the command run in it. */
  function Tab(title: string, command: string): string {
    "--title \"" + title + "\" cmd /c \"" + command + "\""
  }

  /** The part of the command line for the server at position `index`. */
  function Segment(index: nat, name: string, projectPath: string, release: bool): string {
    (if index == 0 then "" else NewTab) + Tab(Title(name), ServerCommand(projectPath, release, name))
  }

  /** Reference: the segments of all servers, in order. */
  function CommandLine(servers: seq<string>, projectPath: string, release: bool): string
    decreases |servers|
  {
    if |servers| == 0 then ""
    else
      var n := |servers| - 1;
      CommandLine(servers[..n], projectPath, release) + Segment(n, servers[n], projectPath, release)
  }

  /** The loop of `start_servers` that accumulates `wt_command_string`. */
  method BuildCommandLine(servers: seq<string>, projectPath: string, release: bool)
    returns (line: string)
    ensures line == CommandLine(servers, projectPath, release)
  {
    line := "";
    for i := 0 to |servers|
      invariant line == CommandLine(servers[..i], projectPath, release)
    {
      var title := Title(servers[i]);
      var cmd := ServerCommand(projectPath, release, servers[i]);
      assert servers[..i + 1][..i] == servers[..i];
      ghost var before := line;
      if i == 0 {
        line := line + Tab(title, cmd);
      } else {
        line := line + NewTab + Tab(title, cmd);
        assert line == before + (NewTab + Tab(title, cmd));
      }
      assert line == before + Segment(i, servers[i], projectPath, release);
    }
    assert servers[..|servers|] == servers;
  }

  function Quote(s: string): string {
    "\"" + s + "\""
  }

  /** The arguments that open a tab after the first: `; new-tab`. */
  function NewTabArgs(index: nat): seq<string> {
    if index == 0 then [] else [";", "new-tab"]
  }

  /** The arguments up to the project path: the title and `cmd /c "cd /d`. */
  function HeadArgs(name: string): seq<string> {
    ["--title", Quote(Title(name)), "cmd", "/c", "\"cd", "/d"]
  }

  /** The arguments after the project path: the `cargo run` invocation. */
  function TailArgs(name: string, release: bool): seq<string> {
    ["&&", "cargo", "run"] + ((if release then ["--release"] else []) + ["--bin", name, "&&", "pause\""])
  }

  /**
    The arguments `wt` receives for one segment: the `new-tab` subcommand
    (all but the first), the quoted title, and the command's words, with the
    project path split wherever it holds whitespace.
   */
  function SegmentArgs(index: nat, name: string, projectPath: string, release: bool): seq<string> {
    NewTabArgs(index) + (HeadArgs(name) + (Tokens(projectPath) + TailArgs(name, release)))
  }

  /** The argument lists of all segments, in order. */
  function Args(servers: seq<string>, projectPath: string, release: bool): seq<string>
    decreases |servers|
  {
    if |servers| == 0 then []
    else
      var n := |servers| - 1;
      Args(servers[..n], projectPath, release) + SegmentArgs(n, servers[n], projectPath, release)
  }

  /** Splitting words separated by single spaces, with a space at either end. */
  lemma TokensOfSpaced(ws: seq<string>)
    requires |ws| > 0 && forall i :: 0 <= i < |ws| ==> IsWord(ws[i])
    ensures Tokens(" " + Join(ws, " ") + " ") == ws
    ensures Tokens(" " + Join(ws, " ")) == ws
    ensures Tokens(Join(ws, " ") + " ") == ws
  {
    var j := Join(ws, " ");
    TokensOfJoin(ws);
    SpaceBefore(j);
    SpaceAfter(j);
    SpaceAfter(" " + j);
  }

  /** A leading space adds no token. */
  lemma SpaceBefore(s: string)
    ensures Tokens(" " + s) == Tokens(s)
  {
    TokensOfBlank(" ");
    TokensAppend(" ", s);
    assert [] + Tokens(s) == Tokens(s);
  }

  /** A trailing space adds no token. */
  lemma SpaceAfter(s: string)
    ensures Tokens(s + " ") == Tokens(s)
  {
    TokensOfBlank(" ");
    TokensAppend(s, " ");
    assert Tokens(s) + [] == Tokens(s);
  }

  /**
    The literal pieces of a tab between which its variable parts sit, each
    starting or ending at a space.
   */
  const TitleFlag: string := "--title "
  const CmdCd: string := " cmd /c \"cd /d "
  const CargoRun: string := " && cargo run "
  const BinFlag: string := " --bin "
  const Pause: string := " && pause\""

  /** Four pieces whose seams all touch whitespace split piece by piece. */
  lemma TokensOfFour(a: string, b: string, c: string, d: string)
    requires |a| > 0 && IsWhitespace(a[|a| - 1])
    requires |c| > 0 && IsWhitespace(c[0]) && IsWhitespace(c[|c| - 1])
    ensures Tokens(a + (b + (c + d))) == Tokens(a) + (Tokens(b) + (Tokens(c) + Tokens(d)))
  {
    TokensAppend(c, d);
    assert (c + d)[0] == c[0];
    TokensAppend(b, c + d);
    TokensAppend(a, b + (c + d));
  }

  /** The words of the command from `&& cargo run` on. */
  lemma CommandTailTokens(name: string, release: bool)
    requires IsWord(name)
    ensures Tokens(CargoRun + (ReleaseFlag(release) + (BinFlag + (name + Pause)))) == TailArgs(name, release)
  {
    CargoRunTokens();
    ReleaseFlagTokens(release);
    BinTokens();
    NameThenPauseTokens(name);
    var flag := ReleaseFlag(release);
    var rest := name + Pause;
    TokensOfFour(CargoRun, flag, BinFlag, rest);
    BinThenName(name);
  }

  /** `--bin` followed by the name and the closing `&& pause"`. */
  lemma BinThenName(name: string)
    ensures ["--bin"] + [name, "&&", "pause\""] == ["--bin", name, "&&", "pause\""]
  {
  }

  lemma CargoRunTokens()
    ensures Tokens(CargoRun) == ["&&", "cargo", "run"]
  {
    assert CargoRun == " " + Join(["&&", "cargo", "run"], " ") + " ";
    TokensOfSpaced(["&&", "cargo", "run"]);
  }

  lemma ReleaseFlagTokens(release: bool)
    ensures Tokens(ReleaseFlag(release)) == if release then ["--release"] else []
  {
    if release {
      TokensOfWord("--release");
    }
  }

  lemma BinTokens()
    ensures Tokens(BinFlag) == ["--bin"]
  {
    assert BinFlag == " " + Join(["--bin"], " ") + " ";
    TokensOfSpaced(["--bin"]);
  }

  lemma NameThenPauseTokens(name: string)
    requires IsWord(name)
    ensures Tokens(name + Pause) == [name, "&&", "pause\""]
  {
    assert Pause == " " + Join(["&&", "pause\""], " ");
    TokensOfSpaced(["&&", "pause\""]);
    TokensOfWord(name);
    TokensAppend(name, Pause);
  }

  lemma TitleFlagTokens()
    ensures Tokens(TitleFlag) == ["--title"]
  {
    assert TitleFlag == Join(["--title"], " ") + " ";
    TokensOfSpaced(["--title"]);
  }

  lemma CmdTokens()
    ensures Tokens(CmdCd) == ["cmd", "/c", "\"cd", "/d"]
  {
    assert CmdCd == " " + Join(["cmd", "/c", "\"cd", "/d"], " ") + " ";
    TokensOfSpaced(["cmd", "/c", "\"cd", "/d"]);
  }

  lemma NewTabTokens()
    ensures Tokens(NewTab) == [";", "new-tab"]
  {
    assert NewTab == " " + Join([";", "new-tab"], " ") + " ";
    TokensOfSpaced([";", "new-tab"]);
  }

  lemma QuotedTitleTokens(name: string)
    requires IsWord(name)
    ensures Tokens(Quote(Title(name))) == [Quote(Title(name))]
  {
    var title := Quote(Title(name));
    assert title == ['"'] + WindowTitlePrefix + name + ['"'];
    TokensOfWord(title);
  }

  /** Seven pieces joined left to right are the same pieces joined right to left. */
  lemma Regroup(a: string, b: string, c: string, d: string, e: string, f: string, g: string)
    ensures a + b + c + d + e + f + g == a + (b + (c + (d + (e + (f + g)))))
  {
  }

  lemma CommandRegroup(name: string, projectPath: string, release: bool)
    ensures " cmd /c \"" + (ServerCommand(projectPath, release, name) + "\"")
         == CmdCd + (projectPath + (CargoRun + (ReleaseFlag(release) + (BinFlag + (name + Pause)))))
  {
    Regroup("cd /d ", projectPath, CargoRun, ReleaseFlag(release), BinFlag, name, " && pause");
    assert " && pause" + "\"" == Pause;
    assert " cmd /c \"" + "cd /d " == CmdCd;
    var x := projectPath + (CargoRun + (ReleaseFlag(release) + (BinFlag + (name + " && pause"))));
    assert x + "\"" == projectPath + (CargoRun + (ReleaseFlag(release) + (BinFlag + (name + Pause))));
  }

  /** A tab's text, regrouped at the whitespace between its words. */
  lemma TabShape(name: string, projectPath: string, release: bool)
    ensures Tab(Title(name), ServerCommand(projectPath, release, name))
         == TitleFlag + (Quote(Title(name)) + (CmdCd + (projectPath
            + (CargoRun + (ReleaseFlag(release) + (BinFlag + (name + Pause)))))))
  {
    var title, command := Title(name), ServerCommand(projectPath, release, name);
    assert Tab(title, command) == TitleFlag + (Quote(title) + (" cmd /c \"" + (command + "\"")));
    CommandRegroup(name, projectPath, release);
  }

  /** The head arguments, as the three pieces of a tab split them, regrouped. */
  lemma HeadArgsSplit(name: string, rest: seq<string>)
    ensures ["--title"] + ([Quote(Title(name))] + (["cmd", "/c", "\"cd", "/d"] + rest)) == HeadArgs(name) + rest
  {
  }

  /** What splitting one tab on whitespace yields. */
  lemma TabTokens(name: string, projectPath: string, release: bool)
    requires IsWord(name)
    ensures Tokens(Tab(Title(name), ServerCommand(projectPath, release, name)))
         == HeadArgs(name) + (Tokens(projectPath) + TailArgs(name, release))
  {
    var rest := CargoRun + (ReleaseFlag(release) + (BinFlag + (name + Pause)));
    TabShape(name, projectPath, release);
    CommandTailTokens(name, release);
    assert rest[0] == CargoRun[0];
    TokensAppend(projectPath, rest);
    TitleFlagTokens();
    QuotedTitleTokens(name);
    CmdTokens();
    TokensOfFour(TitleFlag, Quote(Title(name)), CmdCd, projectPath + rest);
    HeadArgsSplit(name, Tokens(projectPath) + TailArgs(name, release));
  }

  /** What splitting one segment on whitespace yields. */
  lemma SegmentTokens(index: nat, name: string, projectPath: string, release: bool)
    requires IsWord(name)
    ensures Tokens(Segment(index, name, projectPath, release)) == SegmentArgs(index, name, projectPath, release)
  {
    var tab := Tab(Title(name), ServerCommand(projectPath, release, name));
    TabTokens(name, projectPath, release);
    if index != 0 {
      NewTabTokens();
      TokensAppend(NewTab, tab);
    } else {
      assert "" + tab == tab;
    }
  }

  /**
    The argument list `wt` receives is the concatenation of the segments'
    arguments, in server order, provided no server name holds whitespace.
   */
  lemma {:induction false} CommandLineTokens(servers: seq<string>, projectPath: string, release: bool)
    requires forall i :: 0 <= i < |servers| ==> IsWord(servers[i])
    ensures Tokens(CommandLine(servers, projectPath, release)) == Args(servers, projectPath, release)
    decreases |servers|
  {
    if |servers| > 0 {
      var n := |servers| - 1;
      CommandLineTokens(servers[..n], projectPath, release);
      SegmentTokens(n, servers[n], projectPath, release);
      var prefix := CommandLine(servers[..n], projectPath, release);
      var segment := Segment(n, servers[n], projectPath, release);
      if n == 0 {
        assert prefix == "";
      } else {
        assert segment[0] == ' ';
      }
      TokensAppend(prefix, segment);
    }
  }

  /** How many times `t` occurs in `ts`. */
  function Count(ts: seq<string>, t: string): nat
    decreases |ts|
  {
    if |ts| == 0 then 0 else (if ts[0] == t then 1 else 0) + Count(ts[1..], t)
  }

  lemma {:induction false} CountAppend(a: seq<string>, b: seq<string>, t: string)
    ensures Count(a + b, t) == Count(a, t) + Count(b, t)
    decreases |a|
  {
    if |a| > 0 {
      assert (a + b)[1..] == a[1..] + b;
      CountAppend(a[1..], b, t);
    } else {
      assert a + b == b;
    }
  }

  lemma {:induction false} CountAbsent(ts: seq<string>, t: string)
    requires t !in ts
    ensures Count(ts, t) == 0
    decreases |ts|
  {
    if |ts| > 0 {
      CountAbsent(ts[1..], t);
    }
  }

  /** The values given to the `--title` flags of an argument list, in order. */
  function Labels(ts: seq<string>): seq<string>
    decreases |ts|
  {
    if |ts| < 2 then []
    else (if ts[0] == "--title" then [ts[1]] else []) + Labels(ts[1..])
  }

  lemma {:induction false} LabelsAppend(a: seq<string>, b: seq<string>)
    requires |a| == 0 || a[|a| - 1] != "--title"
    ensures Labels(a + b) == Labels(a) + Labels(b)
    decreases |a|
  {
    if |a| == 0 {
      assert a + b == b;
    } else if |a| == 1 {
      if |b| > 0 {
        assert (a + b)[1..] == b;
      }
    } else {
      assert (a + b)[1..] == a[1..] + b;
      LabelsAppend(a[1..], b);
    }
  }

  lemma {:induction false} LabelsAbsent(ts: seq<string>)
    requires "--title" !in ts
    ensures Labels(ts) == []
    decreases |ts|
  {
    if |ts| >= 2 {
      LabelsAbsent(ts[1..]);
    }
  }

  /** A server name or project path word that could be mistaken for part of the tab syntax. */
  predicate Clashes(w: string) {
    w == ";" || w == "--release" || w == "--title"
  }

  /** Neither the names nor the words of the project path are tab syntax. */
  predicate PlainInputs(servers: seq<string>, projectPath: string) {
    && (forall i :: 0 <= i < |servers| ==> !Clashes(servers[i]))
    && (forall i :: 0 <= i < |Tokens(projectPath)| ==> !Clashes(Tokens(projectPath)[i]))
  }

  lemma CountOne(t: string, u: string)
    ensures Count([t], u) == if t == u then 1 else 0
  {
    assert [t][1..] == [];
  }

  lemma CountOfParts(a: seq<string>, b: seq<string>, c: seq<string>, d: seq<string>, t: string)
    ensures Count(a + (b + (c + d)), t) == Count(a, t) + Count(b, t) + Count(c, t) + Count(d, t)
  {
    CountAppend(c, d, t);
    CountAppend(b, c + d, t);
    CountAppend(a, b + (c + d), t);
  }

  lemma LabelsOfParts(a: seq<string>, b: seq<string>, c: seq<string>, d: seq<string>)
    requires |a| == 0 || a[|a| - 1] != "--title"
    requires |b| == 0 || b[|b| - 1] != "--title"
    requires |c| == 0 || c[|c| - 1] != "--title"
    ensures Labels(a + (b + (c + d))) == Labels(a) + (Labels(b) + (Labels(c) + Labels(d)))
  {
    LabelsAppend(c, d);
    LabelsAppend(b, c + d);
    LabelsAppend(a, b + (c + d));
  }

  lemma NewTabArgsFacts(index: nat)
    ensures Count(NewTabArgs(index), ";") == if index == 0 then 0 else 1
    ensures Count(NewTabArgs(index), "--release") == 0
    ensures Labels(NewTabArgs(index)) == []
    ensures |NewTabArgs(index)| == 0 || NewTabArgs(index)[|NewTabArgs(index)| - 1] != "--title"
  {
    if index != 0 {
      assert NewTabArgs(index) == [";"] + ["new-tab"];
      CountOne(";", ";");
      CountOne("new-tab", ";");
      CountAppend([";"], ["new-tab"], ";");
    }
    CountAbsent(NewTabArgs(index), "--release");
    LabelsAbsent(NewTabArgs(index));
  }

  lemma HeadArgsFacts(name: string)
    ensures Count(HeadArgs(name), ";") == 0
    ensures Count(HeadArgs(name), "--release") == 0
    ensures Labels(HeadArgs(name)) == [Quote(Title(name))]
    ensures HeadArgs(name)[|HeadArgs(name)| - 1] != "--title"
  {
    var q := Quote(Title(name));
    assert q[0] == '"';
    CountAbsent(HeadArgs(name), ";");
    CountAbsent(HeadArgs(name), "--release");
    assert HeadArgs(name) == ["--title", q] + ["cmd", "/c", "\"cd", "/d"];
    assert Labels(["--title", q]) == [q] by {
      assert ["--title", q][1..] == [q];
    }
    LabelsAbsent(["cmd", "/c", "\"cd", "/d"]);
    LabelsAppend(["--title", q], ["cmd", "/c", "\"cd", "/d"]);
  }

  lemma PathArgsFacts(projectPath: string)
    requires forall i :: 0 <= i < |Tokens(projectPath)| ==> !Clashes(Tokens(projectPath)[i])
    ensures Count(Tokens(projectPath), ";") == 0
    ensures Count(Tokens(projectPath), "--release") == 0
    ensures Labels(Tokens(projectPath)) == []
    ensures |Tokens(projectPath)| == 0 || Tokens(projectPath)[|Tokens(projectPath)| - 1] != "--title"
  {
    var path := Tokens(projectPath);
    CountAbsent(path, ";");
    CountAbsent(path, "--release");
    LabelsAbsent(path);
  }

  lemma TailArgsFacts(name: string, release: bool)
    requires !Clashes(name)
    ensures Count(TailArgs(name, release), ";") == 0
    ensures Count(TailArgs(name, release), "--release") == if release then 1 else 0
    ensures Labels(TailArgs(name, release)) == []
  {
    var flag: seq<string> := if release then ["--release"] else [];
    var rest := ["--bin", name, "&&", "pause\""];
    CountAbsent(TailArgs(name, release), ";");
    CountAbsent(["&&", "cargo", "run"], "--release");
    CountAbsent(rest, "--release");
    if release {
      CountOne("--release", "--release");
    }
    CountAppend(flag, rest, "--release");
    CountAppend(["&&", "cargo", "run"], flag + rest, "--release");
    LabelsAbsent(TailArgs(name, release));
  }

  /** Every tab's command ends with `pause"`, whatever the name. */
  lemma TailLast(name: string, release: bool)
    ensures TailArgs(name, release)[|TailArgs(name, release)| - 1] == "pause\""
  {
  }

  lemma SegmentCounts(index: nat, name: string, projectPath: string, release: bool)
    requires !Clashes(name)
    requires forall i :: 0 <= i < |Tokens(projectPath)| ==> !Clashes(Tokens(projectPath)[i])
    ensures Count(SegmentArgs(index, name, projectPath, release), ";") == if index == 0 then 0 else 1
    ensures Count(SegmentArgs(index, name, projectPath, release), "--release") == if release then 1 else 0
  {
    NewTabArgsFacts(index);
    HeadArgsFacts(name);
    PathArgsFacts(projectPath);
    TailArgsFacts(name, release);
    CountOfParts(NewTabArgs(index), HeadArgs(name), Tokens(projectPath), TailArgs(name, release), ";");
    CountOfParts(NewTabArgs(index), HeadArgs(name), Tokens(projectPath), TailArgs(name, release), "--release");
  }

  lemma SegmentLabels(index: nat, name: string, projectPath: string, release: bool)
    requires !Clashes(name)
    requires forall i :: 0 <= i < |Tokens(projectPath)| ==> !Clashes(Tokens(projectPath)[i])
    ensures Labels(SegmentArgs(index, name, projectPath, release)) == [Quote(Title(name))]
  {
    NewTabArgsFacts(index);
    HeadArgsFacts(name);
    PathArgsFacts(projectPath);
    TailArgsFacts(name, release);
    LabelsOfParts(NewTabArgs(index), HeadArgs(name), Tokens(projectPath), TailArgs(name, release));
  }

  lemma SegmentLast(index: nat, name: string, projectPath: string, release: bool)
    ensures SegmentArgs(index, name, projectPath, release)[|SegmentArgs(index, name, projectPath, release)| - 1] == "pause\""
  {
    TailLast(name, release);
    var tail := TailArgs(name, release);
    var whole := SegmentArgs(index, name, projectPath, release);
    assert whole == (NewTabArgs(index) + (HeadArgs(name) + Tokens(projectPath))) + tail;
    assert whole[|whole| - 1] == tail[|tail| - 1];
  }

  /**
    Counting over the group's argument list: one `;` separator fewer than
    there are servers, and `--release` once per server exactly when a
    release build is asked for.
   */
  lemma {:induction false} ArgsCounts(servers: seq<string>, projectPath: string, release: bool)
    requires PlainInputs(servers, projectPath)
    ensures Count(Args(servers, projectPath, release), ";") == if |servers| == 0 then 0 else |servers| - 1
    ensures Count(Args(servers, projectPath, release), "--release") == if release then |servers| else 0
    decreases |servers|
  {
    if |servers| > 0 {
      var n := |servers| - 1;
      var prefix := Args(servers[..n], projectPath, release);
      var segment := SegmentArgs(n, servers[n], projectPath, release);
      PlainPrefix(servers, n, projectPath);
      ArgsCounts(servers[..n], projectPath, release);
      SegmentCounts(n, servers[n], projectPath, release);
      CountAppend(prefix, segment, ";");
      CountAppend(prefix, segment, "--release");
    }
  }

  /** `labels` are the quoted window titles of `servers`, one each, in order. */
  predicate TitlesOf(labels: seq<string>, servers: seq<string>) {
    |labels| == |servers| && forall i :: 0 <= i < |servers| ==> labels[i] == Quote(Title(servers[i]))
  }

  /** The group's argument list ends with the last tab's `pause"`. */
  lemma {:induction false} ArgsLast(servers: seq<string>, projectPath: string, release: bool)
    requires |servers| > 0
    ensures Args(servers, projectPath, release)[|Args(servers, projectPath, release)| - 1] == "pause\""
  {
    var n := |servers| - 1;
    SegmentLast(n, servers[n], projectPath, release);
    var segment := SegmentArgs(n, servers[n], projectPath, release);
    var whole := Args(servers, projectPath, release);
    assert whole[|whole| - 1] == segment[|segment| - 1];
  }

  lemma PlainPrefix(servers: seq<string>, n: nat, projectPath: string)
    requires PlainInputs(servers, projectPath) && n <= |servers|
    ensures PlainInputs(servers[..n], projectPath)
  {
  }

  lemma TitlesOfSnoc(labels: seq<string>, servers: seq<string>)
    requires |servers| > 0
    requires TitlesOf(labels, servers[..|servers| - 1])
    ensures TitlesOf(labels + [Quote(Title(servers[|servers| - 1]))], servers)
  {
    var n := |servers| - 1;
    var all := labels + [Quote(Title(servers[n]))];
    forall i | 0 <= i < |servers|
      ensures all[i] == Quote(Title(servers[i]))
    {
      if i < n {
        assert servers[..n][i] == servers[i];
      }
    }
  }

  /** The tab titles in the group's argument list are `"WW_<name>"`, in server order. */
  lemma {:induction false} ArgsLabels(servers: seq<string>, projectPath: string, release: bool)
    requires PlainInputs(servers, projectPath)
    ensures TitlesOf(Labels(Args(servers, projectPath, release)), servers)
    decreases |servers|
  {
    if |servers| > 0 {
      var n := |servers| - 1;
      var prefix := Args(servers[..n], projectPath, release);
      var segment := SegmentArgs(n, servers[n], projectPath, release);
      PlainPrefix(servers, n, projectPath);
      ArgsLabels(servers[..n], projectPath, release);
      SegmentLabels(n, servers[n], projectPath, release);
      if n == 0 {
        assert prefix + segment == segment;
      } else {
        ArgsLast(servers[..n], projectPath, release);
        LabelsAppend(prefix, segment);
      }
      TitlesOfSnoc(Labels(prefix), servers);
    }
  }

  // One lemma per name: each keeps a single string literal in the solver's view.
  lemma ConfigServerPlain()
    ensures IsWord(Servers[0]) && !Clashes(Servers[0])
  {
  }

  lemma LoginServerPlain()
    ensures IsWord(Servers[1]) && !Clashes(Servers[1])
  {
  }

  lemma GatewayServerPlain()
    ensures IsWord(Servers[2]) && !Clashes(Servers[2])
  {
  }

  lemma GameServerPlain()
    ensures IsWord(Servers[3]) && !Clashes(Servers[3])
  {
  }

  /** The configured names are words and none of them is tab syntax. */
  lemma ServersPlain()
    ensures forall i :: 0 <= i < |Servers| ==> IsWord(Servers[i]) && !Clashes(Servers[i])
  {
    ConfigServerPlain();
    LoginServerPlain();
    GatewayServerPlain();
    GameServerPlain();
  }

  /**
    What `wt` receives for the configured group: three `;` separators,
    `--release` four times or never, and the four titles in order.
   */
  lemma GroupArgs(projectPath: string, release: bool)
    requires forall i :: 0 <= i < |Tokens(projectPath)| ==> !Clashes(Tokens(projectPath)[i])
    ensures var args := Tokens(CommandLine(Servers, projectPath, release));
      && Count(args, ";") == 3
      && Count(args, "--release") == (if release then 4 else 0)
      && TitlesOf(Labels(args), Servers)
  {
    ServersPlain();
    CommandLineTokens(Servers, projectPath, release);
    ArgsCounts(Servers, projectPath, release);
    ArgsLabels(Servers, projectPath, release);
  }
}
