# Server-group supervisor of the Wicked Waifus control panel, in Dafny

The control panel is a small Windows console program. It starts, stops and
restarts a fixed group of four game servers (config, login, gateway and game
server). It keeps a single flag, `ServerState.running`, which records whether
it believes the group is up. It has no handle on the processes it started:

- **Start** opens one Windows Terminal (`wt`) window with a tab per server.
  Each tab is titled `WW_<server>`.
- **Stop** asks PowerShell for the PIDs of every process whose main window
  title matches `*WW_*` under PowerShell's `-like`, which ignores case
  (src/main.rs:152-155). It then runs `taskkill /F /PID` on each of them.

This project models that supervisor and the menu loop that drives it. Every
call into the operating system becomes an input: the spawn of `wt`, the
PowerShell listing and each `taskkill`. An operation receives the answers
the OS gives. It returns the new state, its report, and the log of the calls
it made together with their answers.

Modules:

- `Text` (`text.dfy`): the parts of Rust's `str` that the program relies on.
  - `split_whitespace`, as `Tokens`.
  - `trim`, `trim_start` and `trim_end`.
  - Lower-casing, for the exit prompt.
- `Terminal` (`terminal.dfy`): the string `start_servers` builds for `wt`,
  and the argument list `wt` receives once that string is split on
  whitespace.
- `Supervisor` (`supervisor.dfy`):
  - `ServerState` and `Config`.
  - The OS answers.
  - `start_servers`, `stop_servers` with its kill loop, `restart_servers`,
    `exit_control_panel`, and the start half of
    `start_servers_and_launch_launcher`.
- `Panel` (`panel.dfy`):
  - The `match` in `main` on the trimmed menu line.
  - The loop over many turns.
  - A replay of the call log which shows that the `running` flag always
    agrees with the calls that were made.

## Model

| member | source | states |
|---|---|---|
| Text.IsWhitespace | src/main.rs:171 | the character class `split_whitespace` and `trim` split on: Unicode's White_Space property, U+0009 to U+000D, U+0020, U+0085, U+00A0, U+1680, U+2000 to U+200A, U+2028, U+2029, U+202F, U+205F and U+3000 |
| Text.WhitespaceListed | src/main.rs:171 | a character is whitespace exactly when it is one of the 25 White_Space code points listed one by one |
| Text.Tokens | src/main.rs:131 | every piece `split_whitespace` yields is non-empty and free of whitespace |
| Text.TokensKeepText | src/main.rs:171 | concatenating the pieces gives back exactly the non-whitespace characters of the input, in order: splitting loses and invents nothing |
| Text.TokensOfJoin | src/main.rs:131 | words joined with single spaces split back into exactly those words (round trip) |
| Text.TokensAppend | src/main.rs:131 | splitting distributes over concatenation when the seam touches whitespace |
| Text.TokensEmpty | src/main.rs:171-177 | the listing yields no PID exactly when its output is all whitespace, which is when the stop reports that nothing was found |
| Text.TrimStart | src/main.rs:81 | the result is a suffix of the input, everything dropped is whitespace, and the result does not start with whitespace |
| Text.TrimEnd | src/main.rs:81 | the result is a prefix of the input, everything dropped is whitespace, and the result does not end with whitespace |
| Text.Trim | src/main.rs:81 | the result has no whitespace at either end, is no longer than the input, and is empty exactly when the input is all whitespace |
| Text.TrimSurrounds | src/main.rs:81 | the input is the trimmed text with a run of whitespace before and after it: trimming removes the outer whitespace runs and nothing else |
| Text.TrimIdempotent | src/main.rs:61 | trimming an already trimmed line changes nothing, so the second trim in `main` and in the exit prompt is harmless |
| Text.TrimWord | src/main.rs:181 | a `split_whitespace` token is never blank after trimming, so the blank-PID skip in the kill loop never fires |
| Text.Lower | src/main.rs:232 | the result has the input's length, and each character is the input's character with an ASCII capital replaced by its small letter |
| Text.LowerIsY | src/main.rs:232 | a string lower-cases to "y" exactly when it is "y" or "Y" |
| Terminal.BuildCommandLine | src/main.rs:107-127 | the loop over the servers builds the reference command line: one tab segment per server in array order, only the first without the " ; new-tab " prefix |
| Terminal.SegmentTokens | src/main.rs:110-126 | one segment splits into: `;` `new-tab` (not for the first), `--title`, the quoted title, `cmd` `/c` `"cd` `/d`, the words of the project path, `&&` `cargo` `run`, `--release` when release is set, `--bin` and the name, `&&` `pause"` |
| Terminal.CommandLineTokens | src/main.rs:109-131 | the split command line is the segments' argument lists concatenated in server order |
| Terminal.ArgsCounts | src/main.rs:112-125 | when no server name and no word of the project path is `;`, `--release` or `--title`: the arguments hold n-1 `;` separators for n servers, and `--release` once per server when release is set and never otherwise |
| Terminal.ArgsLabels | src/main.rs:110-125 | when no server name and no word of the project path is `;`, `--release` or `--title`: the values following each `--title` are, in order, the quoted titles "WW_" + name of the servers, one per server |
| Terminal.ArgsLast | src/main.rs:112 | for any project path and at least one server, the argument list ends with the last tab's `pause"` |
| Terminal.ServersPlain | src/main.rs:100-105 | each of the four server names is a single word and none is `;`, `--release` or `--title` |
| Terminal.GroupArgs | src/main.rs:100-131 | for the four servers: exactly 3 `;` separators, `--release` 4 times or not at all, and the tab titles WW_ + each server in array order |
| Supervisor.Start | src/main.rs:89-143 | when already running: no call and no change. Otherwise: exactly one spawn of `wt` with the split command line, built from the path read at startup and the release flag read again on entry (unset means debug), and running becomes true exactly when the spawn succeeds. "Started" is reported exactly when the state went from stopped to running |
| Supervisor.KillEach | src/main.rs:179-205 | the kill loop makes the reference attempts (`KillPass`) and collects the PIDs whose kill failed; `all_killed` is true exactly when none failed |
| Supervisor.KillPassAttemptsAll | src/main.rs:180-205 | for listed tokens there is exactly one `taskkill /F /PID` per PID, in listing order, each logged with its own answer; a failure does not hold back later attempts |
| Supervisor.KillPassAllKilled | src/main.rs:190-203 | no PID is reported as not stopped exactly when no kill attempt failed, whether refused or not run |
| Supervisor.KillPassFailedAreFailures | src/main.rs:190-203 | every PID reported as not stopped is a listed PID whose attempt failed |
| Supervisor.FailureReported | src/main.rs:190-203 | conversely, every listed PID whose attempt failed is reported as not stopped |
| Supervisor.Stop | src/main.rs:145-221 | always ends stopped. When not running it makes no call. When running the first call is the PowerShell listing, a failed listing is the only call, and after a listing with output the calls are the kill pass over its tokens. "Some not stopped" is reported exactly when some kill failed |
| Supervisor.StopReports | src/main.rs:162-219 | for a running group: a listing that could not be run and one that failed each give their own report; a listing with output reports nothing found exactly when the output is blank, and all stopped exactly when it is not blank and no kill failed |
| Supervisor.StopWarnsExactlyFailures | src/main.rs:190-211 | "some not stopped" only follows a listing with output and names at least one PID; a PID is named exactly when it is a listed PID whose kill failed |
| Supervisor.StopKillsEachToken | src/main.rs:158-205 | when running, a stop makes exactly 1 + (number of tokens) calls: the listing, then one kill per token in order |
| Supervisor.PartialKillStillStops | src/main.rs:187-213 | two PIDs listed, the first kill fails and the second succeeds: the first PID is reported, three calls are made, and the group is still taken as down |
| Supervisor.Restart | src/main.rs:223-226 | from any state, running afterwards exactly when the spawn succeeded; the calls are the stop's calls followed by one spawn |
| Supervisor.ConfirmsExactly | src/main.rs:228-233 | the exit prompt agrees to stop exactly when the trimmed answer is "y" or "Y" |
| Supervisor.Exit | src/main.rs:228-237 | stops, with the stop's calls, exactly when running and the answer confirms; otherwise no call and no change |
| Supervisor.StartForLauncher | src/main.rs:239-246 | when the group is believed up: only the "no need to start them again" report, with no call and no change. Otherwise the report is option 1's start report. In every case the new state and the calls are those of option 1's start |
| Panel.KeyOfChoice | src/main.rs:61-70 | a key selects a menu entry exactly when it is that entry's key "1" to "5" |
| Panel.ChoiceByKey | src/main.rs:60-61 | a line selects an entry exactly when its trim is that entry's key |
| Panel.KeySelects | src/main.rs:61-69 | each entry is reached by typing its key |
| Panel.Perform | src/main.rs:61-71 | an invalid choice changes nothing and makes no call; the pass reports Exit exactly for entry 4 |
| Panel.PerformEffects | src/main.rs:62-69 | entry 3 leaves the group down; entry 2 leaves it up exactly when its spawn succeeded; entries 1 and 5 leave a running group untouched with no call, and otherwise make one `wt` spawn and come up exactly when it succeeds; entry 4 leaves the group up exactly when it was up and the stop was declined |
| Panel.InvalidLineChangesNothing | src/main.rs:70 | a line whose trim is none of "1" to "5" leaves state and OS untouched |
| Panel.ExitOnlyOnFour | src/main.rs:65-68 | a pass ends the loop exactly when the trimmed line is "4" |
| Panel.TurnsRead | src/main.rs:45-72 | the loop reads entries up to and including the first Exit, or all of them when none is Exit |
| Panel.TurnsReadStopsAtExit | src/main.rs:65-68 | entries after the first Exit do not change how many are read |
| Panel.Session | src/main.rs:41-72 | a session reads no more turns than it is given; it ended on Exit exactly when some turn selects Exit, and otherwise it read every turn |
| Panel.SessionStopsAtFirstExit | src/main.rs:45-72 | the last turn read by a session that quit selects Exit, and no earlier turn does |
| Panel.SessionIgnoresAfterExit | src/main.rs:65-68 | turns after the first Exit make no difference to a session |
| Panel.StartJustified | src/main.rs:89-143 | replaying a start's call log from the old flag gives the new flag |
| Panel.StopJustified | src/main.rs:145-221 | replaying a stop's call log from the old flag gives the new flag (down) |
| Panel.RestartJustified | src/main.rs:223-226 | replaying a restart's call log from the old flag gives the new flag |
| Panel.PerformJustified | src/main.rs:61-71 | for every menu entry, replaying the pass's call log from the old flag gives the new flag |
| Panel.RunJustified | src/main.rs:45-72 | the same holds over any number of passes |
| Panel.SessionJustified | src/main.rs:45-72 | the same holds over a whole session |
| Panel.BelievedMeans | src/main.rs:130-220 | replayed from "down", a log says "up" exactly when it holds a successful spawn of `wt` with no listing and no failed spawn after it |
| Panel.SessionFromInitial | src/main.rs:41-72 | in a session started as `main` starts it, the flag ends true exactly when the log holds a successful spawn of `wt` that no later listing or failed spawn followed |

## How the OS is modelled

- The spawn of `wt` answers `Spawned` or `SpawnError(message)`.
- The PowerShell listing answers one of three ways:
  - `EnumRunError(message)`: PowerShell could not be run.
  - `EnumFailed`: a non-success exit status.
  - `EnumOutput(stdout)`: success, with the decoded standard output.
- `taskkill` is an oracle. It is given the PID and its position in the
  listing, and answers one of three ways:
  - `Killed`.
  - `KillRefused(stderr)`: a non-success exit status.
  - `KillRunError(message)`.
- In a panel session, each turn scripts the kill answers as a sequence, one
  per listed position. A PID past the end of that script is refused.
- `get_config`'s result, the line typed at the menu and the answer to the
  exit prompt are inputs of the turn.

## Left out

- `get_config` (src/main.rs:19-35): file I/O, a TOML parse and
  `process::exit`. The configuration is an input. `start_servers` re-reads
  it on every call, so each turn carries the configuration that read would
  return.
- Stdin and the menu and message printing (src/main.rs:47-58, 75-82 and the
  `println!` calls): the lines typed are inputs, and the messages become
  report values.
- The real spawn, PowerShell and `taskkill` calls: these are OS calls, and
  they become the answers described above.
- `from_utf8_lossy` decoding of the listing and of `taskkill`'s stderr: the
  listing is taken as already decoded text.
- `thread::sleep` (src/main.rs:96, 137, 243): timing only, with no effect on
  the state.
- The launcher half of `start_servers_and_launch_launcher`
  (src/main.rs:248-275): `current_exe`, a filesystem existence check, UAC
  elevation, and `process::exit` when PowerShell cannot be run. It never
  touches `running`. The model covers the start half only.
- How `wt` re-parses the split argument list: only the string built and its
  split are modelled.
- Text.Lower: lower-cases ASCII letters only, while Rust's `to_lowercase`
  covers all of Unicode. The exit prompt only compares the result with "y",
  and the only strings whose Unicode lower-case is "y" are "y" and "Y". So
  `Confirms` is exact.
- Supervisor.StartForLauncher: option 1 reads the configuration again even
  when the group is believed up, and a failed read ends the program; option 5
  does not read it in that case. The configuration read is not modelled, so
  that difference in reachable exits is not stated.
- Terminal.ArgsCounts: stated only for server names and project paths with no
  word equal to `;`, `--release` or `--title`. A path word `;` adds a
  separator of its own, so one server with the path `;` gives one `;`, not 0.
- Terminal.ArgsLabels: stated under the same condition. A path word
  `--title` adds a label of its own.
- Terminal.GroupArgs: stated only for project paths with no word equal to
  `;`, `--release` or `--title`. Such a word would add its own separators,
  flags or titles to what `wt` sees.

Three facts about the code that the model keeps:

- Stop never kills the terminal host process by its image name. It kills
  only the PIDs the listing returns.
- Restart has no settling delay of its own between stop and start. The
  only sleep is inside start, after a successful spawn.
- The code's stop reports success only as the `all_killed` flag. It prints
  a warning for each PID whose kill failed, and the model's
  `SomeNotStopped(failed)` carries the PIDs it warns about.
