/** The build executor of `internal/services/build_service.go`: the two
    ways of running a job (a shell command split into fields, or the
    Claude CLI), the registry of active processes, the rows it saves and
    the log events it writes, and cancellation.

    The service state is a value: the `activeBuilds` map, the `builds`
    table and the `build_logs` table in insertion order. Each map or table
    operation is atomic. The executing goroutine holds its own copy of the
    build and saves that whole copy, so a transition takes the copy and
    returns the updated one. The operating system enters only through the
    outcome of spawning (`Spawn`), the interleaved output lines, and the
    outcome of waiting (`WaitResult`); the clock through time parameters. */
module BuildService {
  import opened Wrappers
  import opened Json
  import opened Text
  import opened BuildModel
  import Numbers
  import Paths
  import ClaudeArgs

  /** What the `exec.Cmd` is built from. */
  datatype Command = Command(name: string, args: seq<string>, dir: string, env: seq<string>)

  /** `cmd.Process`: nil until `Start` succeeds. */
  datatype Process = NoProcess | Process(pid: int)

  /** An `activeBuilds` entry. */
  datatype Handle = Handle(cmd: Command, process: Process)

  /** A `logBuildEvent` call; the id and timestamp are stamped on insertion
      (`BuildModel.LogBeforeCreate`). A nil metadata map is empty. */
  datatype LogEvent = LogEvent(buildId: Uuid, level: string, message: string, metadata: map<string, Json>)

  datatype Service = Service(active: map<Uuid, Handle>, builds: map<Uuid, Build>, logs: seq<LogEvent>)

  /** The outcome of `StdoutPipe`, `StderrPipe` and `Start`, in that order. */
  datatype Spawn = StdoutPipeFailed(reason: string) | StderrPipeFailed(reason: string) | StartFailed(reason: string) | Started(pid: int)

  /** The outcome of `cmd.Wait`. `ExitError` carries what `ExitCode()`
      returns, which is -1 for a process ended by a signal, such as one
      killed by `CancelBuild`. */
  datatype WaitResult = Exited0 | ExitError(code: int, message: string) | OtherError(message: string)

  /** One line read from stdout or stderr, without its newline. */
  datatype OutLine = OutLine(isErr: bool, text: string)

  /** `executeBuild` or `executeClaudeCLI`; whether MCP servers are
      configured and the config path come from the home directory and are
      inputs. */
  datatype Flavour = Shell | Claude(options: ClaudeArgs.ClaudeOptions, cliPath: string, hasMcp: bool, mcpPath: string)

  // ----- primitive steps -----------------------------------------------------

  /** `database.DB.Save(build)`: the whole row is written. */
  function Save(s: Service, b: Build): Service {
    s.(builds := s.builds[b.id := b])
  }

  function Log(s: Service, id: Uuid, level: string, message: string, metadata: map<string, Json>): Service {
    s.(logs := s.logs + [LogEvent(id, level, message, metadata)])
  }

  /** `failBuild`: failed with exit code 1, the message as error, completed
      at `now`; saved, then logged at level "error". */
  function FailBuild(s: Service, b: Build, message: string, now: Time): (r: Launched)
    ensures !r.running && IsCompleted(r.build) && r.build.status == Failed && r.build.exitCode == Some(1)
    ensures r.build.error == Some(message) && r.build.completedAt == Some(now)
    ensures r.build.(status := b.status, completedAt := b.completedAt, error := b.error, exitCode := b.exitCode) == b
    ensures r.service.active == s.active && r.service.builds == s.builds[b.id := r.build]
    ensures r.service.logs == s.logs + [LogEvent(b.id, "error", message, map[])]
  {
    var failed := b.(status := Failed, completedAt := Some(now), error := Some(message), exitCode := Some(1));
    Launched(Log(Save(s, failed), b.id, "error", message, map[]), failed, false)
  }

  // ----- launching -----------------------------------------------------------

  /** The state after the launch phase, the executor's copy of the build,
      and whether a process is running. */
  datatype Launched = Launched(service: Service, build: Build, running: bool)

  function StartLog(f: Flavour, b: Build): LogEvent {
    match f
    case Shell =>
      LogEvent(b.id, "info", "Build started",
               map["command" := JStr(b.command), "working_dir" := JStr(b.workingDir)])
    case Claude(o, _, _, _) =>
      LogEvent(b.id, "info", "Claude CLI build started",
               map["user_input" := JStr(b.command), "working_dir" := JStr(b.workingDir),
                   "session_id" := JStr(o.sessionId), "resume" := JBool(o.resume)])
  }

  /** The program and its arguments: the fields of the shell command, or
      the Claude CLI (default "claude") with `buildClaudeCLIArgs`' vector.
      `None` is an empty shell command. */
  function CommandLine(f: Flavour, b: Build): Option<seq<string>> {
    match f
    case Shell =>
      var parts := Fields(b.command);
      if |parts| == 0 then None else Some(parts)
    case Claude(o, path, hasMcp, mcpPath) =>
      Some([if path == "" then "claude" else path] + ClaudeArgs.BuildClaudeCLIArgs(b.command, o, hasMcp, mcpPath))
  }

  /** A shell command is empty exactly when it is all white space;
      otherwise the program is its first field and the arguments the
      rest. */
  lemma ShellCommandLine(b: Build)
    ensures CommandLine(Shell, b).None? <==> AllSpace(b.command)
    ensures CommandLine(Shell, b).Some? ==> CommandLine(Shell, b).value == Fields(b.command)
  {
  }

  /** The process environment: the server's own, then the three job
      variables. */
  function Env(baseEnv: seq<string>, b: Build): seq<string> {
    baseEnv + ["USER_ID=" + b.userId, "PROJECT_ID=" + b.projectId, "WORKING_DIR=" + b.workingDir]
  }

  function SpawnFailure(f: Flavour, spawn: Spawn): string
    requires !spawn.Started?
  {
    match spawn
    case StdoutPipeFailed(e) => "Failed to create stdout pipe: " + e
    case StderrPipeFailed(e) => "Failed to create stderr pipe: " + e
    case StartFailed(e) => (if f.Shell? then "Failed to start command: " else "Failed to start Claude CLI: ") + e
  }

  function PidMessage(f: Flavour, pid: int): string {
    (if f.Shell? then "Process started with PID: " else "Claude CLI process started with PID: ")
    + Numbers.IntToString(pid)
  }

  /** The launch phase of `executeBuild` / `executeClaudeCLI`, up to and
      including recording the process id. The build is marked running and
      saved before anything is spawned; the registry entry is added before
      the pipes are made and is not removed when they or `Start` fail. */
  function Launch(s: Service, b: Build, f: Flavour, baseEnv: seq<string>, spawn: Spawn,
                  startAt: Time, failAt: Time): (r: Launched)
    ensures r.build.id == b.id && r.build.startedAt == Some(startAt)
    ensures r.service.builds == s.builds[b.id := r.build]
    ensures r.running <==> CommandLine(f, b).Some? && spawn.Started?
  {
    var b1 := Begin(b, startAt);
    var s1 := Save(s, b1).(logs := s.logs + [StartLog(f, b1)]);
    var r := match CommandLine(f, b)
      case None => FailBuild(s1, b1, "Empty command", failAt)
      case Some(line) => Register(s1, b1, f, MakeCommand(line, b, baseEnv), spawn, failAt);
    Overwrite(s.builds, b.id, b1, r.build);
    r
  }

  /** A second write under the same key replaces the first. */
  lemma Overwrite<K, V>(m: map<K, V>, k: K, a: V, b: V)
    ensures m[k := a][k := b] == m[k := b]
  {
  }

  /** The launch phase from registering the command on: the entry is added
      with no process, then either the pid is recorded or the build fails. */
  function Register(s: Service, b: Build, f: Flavour, cmd: Command, spawn: Spawn, failAt: Time): (r: Launched)
    ensures r.build.id == b.id && r.build.startedAt == b.startedAt
    ensures r.service.builds == s.builds[b.id := r.build]
    ensures r.running <==> spawn.Started?
  {
    var s2 := s.(active := s.active[b.id := Handle(cmd, NoProcess)]);
    if spawn.Started? then
      var b2 := b.(processId := Some(spawn.pid));
      var s3 := Save(s2.(active := s2.active[b.id := Handle(cmd, Process(spawn.pid))]), b2);
      Launched(Log(s3, b.id, "info", PidMessage(f, spawn.pid), map[]), b2, true)
    else
      FailBuild(s2, b, SpawnFailure(f, spawn), failAt)
  }

  /** The copy marked running at `now`. */
  function Begin(b: Build, now: Time): Build {
    b.(status := Running, startedAt := Some(now))
  }

  function MakeCommand(line: seq<string>, b: Build, baseEnv: seq<string>): Command
    requires |line| > 0
  {
    Command(line[0], line[1..], b.workingDir, Env(baseEnv, b))
  }

  /** An empty shell command fails the build at once (exit code 1, error
      "Empty command", no process id) without registering it; the log holds
      the start event and the error. */
  lemma LaunchEmptyCommand(s: Service, b: Build, f: Flavour, baseEnv: seq<string>, spawn: Spawn, startAt: Time, failAt: Time)
    requires CommandLine(f, b).None?
    ensures var r := Launch(s, b, f, baseEnv, spawn, startAt, failAt);
            r.build == Begin(b, startAt).(status := Failed, completedAt := Some(failAt),
                                          error := Some("Empty command"), exitCode := Some(1)) &&
            r.service.active == s.active &&
            r.service.logs == s.logs + [StartLog(f, Begin(b, startAt)),
                                        LogEvent(b.id, "error", "Empty command", map[])]
  {
  }

  /** A pipe or start failure fails the build with exit code 1 and the
      failure as error, and no process id, but leaves the registry entry,
      whose process is nil. */
  lemma LaunchSpawnFailed(s: Service, b: Build, f: Flavour, baseEnv: seq<string>, spawn: Spawn, startAt: Time, failAt: Time)
    requires CommandLine(f, b).Some? && !spawn.Started?
    ensures var r := Launch(s, b, f, baseEnv, spawn, startAt, failAt);
            r.build == Begin(b, startAt).(status := Failed, completedAt := Some(failAt),
                                          error := Some(SpawnFailure(f, spawn)), exitCode := Some(1)) &&
            r.service.active == s.active[b.id := Handle(MakeCommand(CommandLine(f, b).value, b, baseEnv), NoProcess)] &&
            r.service.logs == s.logs + [StartLog(f, Begin(b, startAt)),
                                        LogEvent(b.id, "error", SpawnFailure(f, spawn), map[])]
  {
  }

  /** A started process is registered under the build's id with its pid,
      and the build, still running, records that pid. */
  lemma LaunchStarted(s: Service, b: Build, f: Flavour, baseEnv: seq<string>, pid: int, startAt: Time, failAt: Time)
    requires CommandLine(f, b).Some?
    ensures var r := Launch(s, b, f, baseEnv, Started(pid), startAt, failAt);
            r.build == Begin(b, startAt).(processId := Some(pid)) &&
            r.service.active == s.active[b.id := Handle(MakeCommand(CommandLine(f, b).value, b, baseEnv), Process(pid))] &&
            r.service.logs == s.logs + [StartLog(f, Begin(b, startAt)),
                                        LogEvent(b.id, "info", PidMessage(f, pid), map[])]
  {
    var b1 := Begin(b, startAt);
    var s1 := Save(s, b1).(logs := s.logs + [StartLog(f, b1)]);
    var cmd := MakeCommand(CommandLine(f, b).value, b, baseEnv);
    RegisterStarted(s1, b1, f, cmd, pid, failAt);
  }

  lemma RegisterStarted(s: Service, b: Build, f: Flavour, cmd: Command, pid: int, failAt: Time)
    ensures var r := Register(s, b, f, cmd, Started(pid), failAt);
            r.build == b.(processId := Some(pid)) &&
            r.service.active == s.active[b.id := Handle(cmd, Process(pid))] &&
            r.service.logs == s.logs + [LogEvent(b.id, "info", PidMessage(f, pid), map[])]
  {
    assert s.active[b.id := Handle(cmd, NoProcess)][b.id := Handle(cmd, Process(pid))] ==
           s.active[b.id := Handle(cmd, Process(pid))];
  }

  // ----- output ---------------------------------------------------------------

  /** The log events for one stdout line of the Claude CLI: a line that
      decodes to a JSON object (or `null`) is logged as
      "Claude response: <line>" with the object as metadata, followed by
      "Session ID captured: <id>" when its `session_id` is a string; any
      other line is logged as it is. */
  function ClaudeStdoutLogs(decode: string -> Decoded, id: Uuid, line: string): (r: seq<LogEvent>)
    ensures 1 <= |r| <= 2 && forall k :: 0 <= k < |r| ==> r[k].buildId == id && r[k].level == "info"
    ensures decode(line).Invalid? <==> r == [LogEvent(id, "info", line, map[])]
    ensures !decode(line).Invalid? ==> r[0] == LogEvent(id, "info", "Claude response: " + line, FieldsOf(decode(line)))
    ensures |r| == 2 <==> !decode(line).Invalid? && StringField(FieldsOf(decode(line)), "session_id").Some?
    ensures |r| == 2 ==> r[1].message == "Session ID captured: " + StringField(FieldsOf(decode(line)), "session_id").value
  {
    match decode(line)
    case Invalid => [LogEvent(id, "info", line, map[])]
    case NullValue =>
      assert |"Claude response: " + line| > |line|;
      [LogEvent(id, "info", "Claude response: " + line, map[])]
    case Object(fields) =>
      var first := LogEvent(id, "info", "Claude response: " + line, fields);
      assert first != LogEvent(id, "info", line, map[]) by {
        assert |first.message| > |line|;
      }
      match StringField(fields, "session_id")
      case Some(sid) => [first, LogEvent(id, "info", "Session ID captured: " + sid, map[])]
      case None => [first]
  }

  /** The events one output line produces: stderr lines at level "error",
      stdout lines at "info" (classified for the Claude CLI). */
  function LineLogs(f: Flavour, decode: string -> Decoded, id: Uuid, l: OutLine): seq<LogEvent> {
    if l.isErr then [LogEvent(id, "error", l.text, map[])]
    else if f.Shell? then [LogEvent(id, "info", l.text, map[])]
    else ClaudeStdoutLogs(decode, id, l.text)
  }

  function StreamLogs(f: Flavour, decode: string -> Decoded, id: Uuid, lines: seq<OutLine>): seq<LogEvent>
    decreases |lines|
  {
    if |lines| == 0 then [] else LineLogs(f, decode, id, lines[0]) + StreamLogs(f, decode, id, lines[1..])
  }

  function Texts(lines: seq<OutLine>): seq<string> {
    seq(|lines|, k requires 0 <= k < |lines| => lines[k].text)
  }

  lemma TextsCons(lines: seq<OutLine>)
    requires |lines| > 0
    ensures Texts(lines) == [lines[0].text] + Texts(lines[1..])
  {
  }

  /** The output buffer: every line followed by a newline, in the order
      read. */
  function OutputOf(lines: seq<OutLine>): string
    decreases |lines|
  {
    if |lines| == 0 then "" else lines[0].text + "\n" + OutputOf(lines[1..])
  }

  /** Splitting the stored output at newlines gives back the lines read,
      followed by the empty piece after the last newline. */
  lemma {:induction false} OutputOfLines(lines: seq<OutLine>)
    requires forall k :: 0 <= k < |lines| ==> '\n' !in lines[k].text
    ensures Split(OutputOf(lines), '\n') == Texts(lines) + [""]
    decreases |lines|
  {
    if |lines| == 0 {
      SplitSingle("", '\n');
    } else {
      var t := lines[0].text;
      var rest := OutputOf(lines[1..]);
      assert OutputOf(lines) == t + ['\n'] + rest;
      assert '\n' !in t;
      SplitLine(t, rest, '\n');
      assert forall k :: 0 <= k < |lines[1..]| ==> '\n' !in lines[1..][k].text by {
        forall k | 0 <= k < |lines[1..]| ensures '\n' !in lines[1..][k].text {
          assert lines[1..][k] == lines[k + 1];
        }
      }
      OutputOfLines(lines[1..]);
      TextsCons(lines);
      assert [t] + (Texts(lines[1..]) + [""]) == Texts(lines) + [""];
    }
  }

  // ----- finishing -----------------------------------------------------------

  function FinalMessage(f: Flavour, wait: WaitResult): (string, string) {
    match wait
    case Exited0 =>
      ("info", if f.Shell? then "Build completed successfully" else "Claude CLI build completed successfully")
    case ExitError(code, m) =>
      ("error", (if f.Shell? then "Build failed with exit code " else "Claude CLI build failed with exit code ")
                + Numbers.IntToString(code) + ": " + m)
    case OtherError(m) =>
      ("error", (if f.Shell? then "Build failed with exit code " else "Claude CLI build failed with exit code ")
                + "1: " + m)
  }

  /** The phase after `Start`: the output lines are logged as they are
      read, `Wait` returns, the registry entry is removed, and the
      executor's copy, now completed at `now` with the whole output, is
      saved, overwriting whatever the row holds. */
  function Finish(s: Service, b: Build, f: Flavour, decode: string -> Decoded, lines: seq<OutLine>,
                  wait: WaitResult, now: Time): (r: Service)
    ensures r.active == s.active - {b.id}
    ensures b.id in r.builds && r.builds == s.builds[b.id := r.builds[b.id]]
    ensures var row := r.builds[b.id];
            row.completedAt == Some(now) && row.output == OutputOf(lines) &&
            (row.status == Completed <==> wait.Exited0?) &&
            (wait.Exited0? ==> row.exitCode == Some(0) && row.error == b.error) &&
            (wait.ExitError? ==> row.status == Failed && row.exitCode == Some(wait.code) && row.error == Some(wait.message)) &&
            (wait.OtherError? ==> row.status == Failed && row.exitCode == Some(1) && row.error == Some(wait.message)) &&
            row.(status := b.status, exitCode := b.exitCode, error := b.error, completedAt := b.completedAt,
                 output := b.output) == b
    ensures r.logs == s.logs + StreamLogs(f, decode, b.id, lines) +
                      [LogEvent(b.id, FinalMessage(f, wait).0, FinalMessage(f, wait).1, map[])]
  {
    var s1 := s.(logs := s.logs + StreamLogs(f, decode, b.id, lines), active := s.active - {b.id});
    var b1 := b.(completedAt := Some(now), output := OutputOf(lines));
    var b2 :=
      match wait
      case Exited0 => b1.(status := Completed, exitCode := Some(0))
      case ExitError(code, m) => b1.(status := Failed, exitCode := Some(code), error := Some(m))
      case OtherError(m) => b1.(status := Failed, exitCode := Some(1), error := Some(m));
    var fm := FinalMessage(f, wait);
    Log(Save(s1, b2), b.id, fm.0, fm.1, map[])
  }

  // ----- cancelling ----------------------------------------------------------

  datatype CancelOutcome =
    | NotRunning   // "build not found or not running"; nothing changes
    | NilProcess   // the entry's process was never started: `cmd.Process.Kill()` dereferences nil
    | KillFailed   // "failed to kill process"
    | LookupFailed // the row could not be read
    | Killed       // killed, and the row saved as cancelled

  datatype CancelResult = CancelResult(service: Service, outcome: CancelOutcome)

  /** `CancelBuild`: only a registered build with a started process can be
      cancelled; then the process is killed (`killOk` is whether `Kill`
      succeeds), the row read afresh is saved as cancelled at `now`, and a
      "warn" event is logged. The registry entry stays. */
  function CancelBuild(s: Service, id: Uuid, killOk: bool, now: Time): (r: CancelResult)
    ensures r.outcome.NotRunning? <==> id !in s.active
    ensures r.outcome.NilProcess? <==> id in s.active && s.active[id].process.NoProcess?
    ensures r.outcome.Killed? <==>
              id in s.active && s.active[id].process.Process? && killOk && id in s.builds
    ensures !r.outcome.Killed? ==> r.service == s
    ensures r.outcome.Killed? ==>
              r.service == Log(Save(s, s.builds[id].(status := BuildStatus.Cancelled, completedAt := Some(now))),
                               id, "warn", "Build cancelled by user", map[])
    ensures r.service.active == s.active
  {
    if id !in s.active then CancelResult(s, NotRunning)
    else if s.active[id].process.NoProcess? then CancelResult(s, NilProcess)
    else if !killOk then CancelResult(s, KillFailed)
    else if id !in s.builds then CancelResult(s, LookupFailed)
    else
      var row := s.builds[id].(status := BuildStatus.Cancelled, completedAt := Some(now));
      CancelResult(Log(Save(s, row), id, "warn", "Build cancelled by user", map[]), Killed)
  }

  // ----- the registry invariant ------------------------------------------------

  /** Every registered build has a row that is running, failed or
      cancelled, never pending or completed; an entry whose process never
      started belongs to a failed build; a started entry's pid is the
      row's. Every row is stored under its own id, as the primary key. */
  predicate Consistent(s: Service) {
    (forall id :: id in s.builds ==> s.builds[id].id == id) &&
    forall id :: id in s.active ==>
      id in s.builds &&
      s.builds[id].status in {Running, Failed, BuildStatus.Cancelled} &&
      (s.active[id].process.NoProcess? ==> s.builds[id].status == Failed) &&
      (s.active[id].process.Process? ==> s.builds[id].processId == Some(s.active[id].process.pid))
  }

  lemma LaunchConsistent(s: Service, b: Build, f: Flavour, baseEnv: seq<string>, spawn: Spawn, startAt: Time, failAt: Time)
    requires Consistent(s) && b.id !in s.active
    ensures Consistent(Launch(s, b, f, baseEnv, spawn, startAt, failAt).service)
  {
    var r := Launch(s, b, f, baseEnv, spawn, startAt, failAt);
    if CommandLine(f, b).None? {
      LaunchEmptyCommand(s, b, f, baseEnv, spawn, startAt, failAt);
      ConsistentUpdate(s, r.service, r.build, None);
    } else if spawn.Started? {
      LaunchStarted(s, b, f, baseEnv, spawn.pid, startAt, failAt);
      ConsistentUpdate(s, r.service, r.build, Some(r.service.active[b.id]));
    } else {
      LaunchSpawnFailed(s, b, f, baseEnv, spawn, startAt, failAt);
      ConsistentUpdate(s, r.service, r.build, Some(r.service.active[b.id]));
    }
  }

  /** Writing one row, and possibly a registry entry that agrees with it,
      for an id not yet registered keeps the state consistent. */
  lemma ConsistentUpdate(s: Service, t: Service, row: Build, h: Option<Handle>)
    requires Consistent(s) && row.id !in s.active
    requires t.builds == s.builds[row.id := row]
    requires t.active == if h.Some? then s.active[row.id := h.value] else s.active
    requires h.Some? ==> row.status in {Running, Failed, BuildStatus.Cancelled} &&
                         (h.value.process.NoProcess? ==> row.status == Failed) &&
                         (h.value.process.Process? ==> row.processId == Some(h.value.process.pid))
    ensures Consistent(t)
  {
    forall id | id in t.active
      ensures id in t.builds && t.builds[id].status in {Running, Failed, BuildStatus.Cancelled}
      ensures t.active[id].process.NoProcess? ==> t.builds[id].status == Failed
      ensures t.active[id].process.Process? ==> t.builds[id].processId == Some(t.active[id].process.pid)
    {
      if id != row.id {
        assert id in s.active;
        assert t.active[id] == s.active[id] && t.builds[id] == s.builds[id];
      }
    }
  }

  lemma FinishConsistent(s: Service, b: Build, f: Flavour, decode: string -> Decoded, lines: seq<OutLine>, wait: WaitResult, now: Time)
    requires Consistent(s)
    ensures Consistent(Finish(s, b, f, decode, lines, wait, now))
  {
  }

  lemma CancelConsistent(s: Service, id: Uuid, killOk: bool, now: Time)
    requires Consistent(s)
    ensures Consistent(CancelBuild(s, id, killOk, now).service)
  {
    var r := CancelBuild(s, id, killOk, now);
    if r.outcome.Killed? {
      var row := s.builds[id].(status := BuildStatus.Cancelled, completedAt := Some(now));
      assert r.service.builds == s.builds[id := row];
      forall k | k in r.service.active
        ensures k in r.service.builds && r.service.builds[k].status in {Running, Failed, BuildStatus.Cancelled}
        ensures r.service.active[k].process.NoProcess? ==> r.service.builds[k].status == Failed
        ensures r.service.active[k].process.Process? ==>
                  r.service.builds[k].processId == Some(r.service.active[k].process.pid)
      {
        if k == id {
          assert r.service.builds[k] == s.builds[id].(status := BuildStatus.Cancelled, completedAt := Some(now));
        } else {
          assert r.service.builds[k] == s.builds[k];
        }
      }
    }
  }

  // ----- properties of whole runs -------------------------------------------

  /** A process that never started leaves its entry behind for good:
      cancelling the build then dereferences the nil process, and does so
      on every later attempt. */
  lemma LeakedEntryCannotBeCancelled(s: Service, b: Build, f: Flavour, baseEnv: seq<string>, spawn: Spawn,
                                     startAt: Time, failAt: Time, killOk: bool, now: Time)
    requires CommandLine(f, b).Some? && !spawn.Started?
    ensures var l := Launch(s, b, f, baseEnv, spawn, startAt, failAt);
            CancelBuild(l.service, b.id, killOk, now).outcome == NilProcess
  {
    LaunchSpawnFailed(s, b, f, baseEnv, spawn, startAt, failAt);
  }

  /** Cancelling is not final: the executor, reaping the killed process
      (exit code -1), saves its own copy over the cancelled row, so the
      build ends failed with exit code -1 and the cancellation's time is
      replaced by the executor's. */
  lemma CancelIsOverwritten(s: Service, b: Build, f: Flavour, decode: string -> Decoded, baseEnv: seq<string>,
                            pid: int, startAt: Time, cancelAt: Time, lines: seq<OutLine>, message: string, endAt: Time)
    requires CommandLine(f, b).Some?
    ensures var l := Launch(s, b, f, baseEnv, Started(pid), startAt, startAt);
            var c := CancelBuild(l.service, b.id, true, cancelAt);
            var row := Finish(c.service, l.build, f, decode, lines, ExitError(-1, message), endAt).builds[b.id];
            c.outcome == Killed && c.service.builds[b.id].status == BuildStatus.Cancelled &&
            row.status == Failed && row.exitCode == Some(-1) && row.completedAt == Some(endAt)
  {
    LaunchStarted(s, b, f, baseEnv, pid, startAt, startAt);
  }

  /** Because the entry survives a cancellation, a second cancel before
      the executor reaps the process succeeds again and logs a second
      warning. */
  lemma SecondCancelSucceeds(s: Service, id: Uuid, t1: Time, t2: Time)
    requires CancelBuild(s, id, true, t1).outcome == Killed
    ensures var c := CancelBuild(s, id, true, t1);
            var d := CancelBuild(c.service, id, true, t2);
            d.outcome == Killed && |d.service.logs| == |s.logs| + 2 &&
            d.service.logs[|s.logs|].level == "warn" && d.service.logs[|s.logs| + 1].level == "warn"
  {
  }

  /** A build run to the end without interference is no longer registered
      and is recorded completed or failed; its logs are the start event,
      the pid, the output and the final event. */
  lemma UndisturbedRun(s: Service, b: Build, f: Flavour, decode: string -> Decoded, baseEnv: seq<string>,
                       pid: int, startAt: Time, lines: seq<OutLine>, wait: WaitResult, endAt: Time)
    requires CommandLine(f, b).Some? && b.id !in s.active
    ensures var l := Launch(s, b, f, baseEnv, Started(pid), startAt, startAt);
            var r := Finish(l.service, l.build, f, decode, lines, wait, endAt);
            r.active == s.active && r.builds[b.id].status in {Completed, Failed} &&
            r.builds[b.id].processId == Some(pid) && r.builds[b.id].startedAt == Some(startAt) &&
            r.builds[b.id].completedAt == Some(endAt) &&
            r.logs[|s.logs|] == StartLog(f, b.(status := Running, startedAt := Some(startAt)))
  {
    var l := Launch(s, b, f, baseEnv, Started(pid), startAt, startAt);
    LaunchStarted(s, b, f, baseEnv, pid, startAt, startAt);
    FinishRun(l.service, l.build, f, decode, lines, wait, endAt, s.active, |s.logs|);
  }

  /** Finishing a build whose entry was added to `base` removes just that
      entry, completes the row and keeps the earlier log. */
  lemma FinishRun(t: Service, row: Build, f: Flavour, decode: string -> Decoded, lines: seq<OutLine>,
                  wait: WaitResult, endAt: Time, base: map<Uuid, Handle>, n: nat)
    requires row.id !in base && row.id in t.active && t.active == base[row.id := t.active[row.id]]
    requires n < |t.logs|
    ensures var r := Finish(t, row, f, decode, lines, wait, endAt);
            r.active == base && r.builds[row.id].status in {Completed, Failed} &&
            r.builds[row.id].processId == row.processId && r.builds[row.id].startedAt == row.startedAt &&
            r.builds[row.id].completedAt == Some(endAt) && r.logs[n] == t.logs[n]
  {
    FinishKeeps(t, row, f, decode, lines, wait, endAt);
    RemoveAdded(base, row.id, t.active[row.id]);
  }

  lemma RemoveAdded<K, V>(m: map<K, V>, k: K, v: V)
    requires k !in m
    ensures m[k := v] - {k} == m
  {
  }

  /** Finishing keeps the row's identity, process id and start time. */
  lemma FinishKeeps(s: Service, b: Build, f: Flavour, decode: string -> Decoded, lines: seq<OutLine>,
                    wait: WaitResult, now: Time)
    ensures var row := Finish(s, b, f, decode, lines, wait, now).builds[b.id];
            row.id == b.id && row.processId == b.processId && row.startedAt == b.startedAt &&
            row.status in {Completed, Failed} && |Finish(s, b, f, decode, lines, wait, now).logs| > |s.logs|
  {
  }

  // ----- starting --------------------------------------------------------------

  /** `getWorkingDirectory`: `/tmp/borderless-coding/builds/<user>/<project>`,
      then `/<session>` when there is one, joined as `filepath.Join` does. */
  function WorkingDirectory(userId: Uuid, projectId: Uuid, sessionId: Option<Uuid>): string {
    var base := JoinAll(["/tmp", "borderless-coding", "builds", userId, projectId]);
    if sessionId.Some? then JoinAll([base, sessionId.value]) else base
  }

  /** `filepath.Join`: the non-empty elements joined by "/" and cleaned;
      "" when every element is empty. */
  function JoinAll(elems: seq<string>): string {
    var parts := NonEmpty(elems);
    if |parts| == 0 then "" else Paths.Clean(Join(parts, "/"))
  }

  function NonEmpty(elems: seq<string>): (r: seq<string>)
    ensures forall k :: 0 <= k < |r| ==> r[k] != ""
    ensures (forall k :: 0 <= k < |elems| ==> elems[k] != "") ==> r == elems
    decreases |elems|
  {
    if |elems| == 0 then []
    else (if elems[0] == "" then [] else [elems[0]]) + NonEmpty(elems[1..])
  }

  /** For identifiers that are single path names (as UUID texts are), the
      working directory is the absolute path of exactly those segments, so
      different users, projects or sessions never share one. */
  lemma WorkingDirectoryPath(userId: Uuid, projectId: Uuid, sessionId: Option<Uuid>)
    requires Paths.IsName(userId) && Paths.IsName(projectId)
    requires sessionId.Some? ==> Paths.IsName(sessionId.value)
    ensures var segs := ["tmp", "borderless-coding", "builds", userId, projectId] +
                        (if sessionId.Some? then [sessionId.value] else []);
            WorkingDirectory(userId, projectId, sessionId) == Paths.Render(true, segs) &&
            Paths.Key(WorkingDirectory(userId, projectId, sessionId)) == segs
  {
    var base := ["tmp", "borderless-coding", "builds", userId, projectId];
    BaseDirectory(userId, projectId);
    if sessionId.Some? {
      SessionDirectory(base, sessionId.value);
      Paths.KeyOfRender(base + [sessionId.value]);
    } else {
      assert base + [] == base;
      Paths.KeyOfRender(base);
    }
  }

  lemma BaseDirectory(userId: Uuid, projectId: Uuid)
    requires Paths.IsName(userId) && Paths.IsName(projectId)
    ensures var base := ["tmp", "borderless-coding", "builds", userId, projectId];
            Paths.AllNames(base) &&
            JoinAll(["/tmp", "borderless-coding", "builds", userId, projectId]) == Paths.Render(true, base)
  {
    var base := ["tmp", "borderless-coding", "builds", userId, projectId];
    assert Paths.AllNames(base) by {
      assert Paths.IsName("tmp") && Paths.IsName("borderless-coding") && Paths.IsName("builds");
    }
    RootedJoin(base);
    var t := "/" + base[0];
    assert t == "/tmp" by {
      assert |t| == 4 && t[0] == '/' && t[1] == 't' && t[2] == 'm' && t[3] == 'p';
    }
    assert [t] + base[1..] == ["/tmp", "borderless-coding", "builds", userId, projectId];
  }

  /** Joining a name under a clean absolute directory appends it. */
  lemma SessionDirectory(base: seq<string>, sid: string)
    requires |base| > 0 && Paths.AllNames(base) && Paths.IsName(sid)
    ensures JoinAll([Paths.Render(true, base), sid]) == Paths.Render(true, base + [sid])
  {
    var dir := Paths.Render(true, base);
    var segs := base + [sid];
    assert Paths.AllNames(segs);
    Paths.JoinAppend(base, [sid], "/");
    assert dir != "" && sid != "";
    assert NonEmpty([dir, sid]) == [dir, sid];
    assert Join([dir, sid], "/") == Paths.Render(true, segs);
    Paths.CleanRooted(Paths.Render(true, segs));
    Paths.KeyOfRender(segs);
  }

  /** Joining "/tmp" with further names yields the rooted rendering of
      those names, which is already clean. */
  lemma RootedJoin(base: seq<string>)
    requires |base| == 5 && base[0] == "tmp" && Paths.AllNames(base)
    ensures JoinAll(["/" + base[0]] + base[1..]) == Paths.Render(true, base)
  {
    var elems := ["/" + base[0]] + base[1..];
    assert NonEmpty(elems) == elems;
    assert elems[1..] == base[1..];
    assert Join(base, "/") == base[0] + "/" + Join(base[1..], "/");
    assert Join(elems, "/") == "/" + base[0] + "/" + Join(base[1..], "/");
    assert Join(elems, "/") == "/" + Join(base, "/");
    Paths.CleanRooted(Paths.Render(true, base));
    Paths.KeyOfRender(base);
  }

  /** `StartBuild` / `StartBuildWithClaudeCLI` up to handing the build to
      the executor: the working directory is created (`mkdirOk`), then a
      pending row is inserted with a fresh id (`createOk` is whether the
      insert succeeds); nothing is registered. */
  function StartBuild(s: Service, userId: Uuid, projectId: Uuid, sessionId: Option<Uuid>, command: string,
                      mkdirOk: bool, createOk: bool, newId: Uuid, now: Time): (r: Result<(Service, Build), string>)
    ensures r.Failure? <==> !mkdirOk || !createOk
    ensures !mkdirOk ==> r == Failure("failed to create working directory")
    ensures mkdirOk && !createOk ==> r == Failure("failed to create build record")
    ensures r.Success? ==>
              var (s1, b) := r.value;
              s1 == Save(s, b) && b.status == Pending && b.command == command &&
              b.workingDir == WorkingDirectory(userId, projectId, sessionId) &&
              b.id == newId && b.createdAt == now && b.startedAt.None? && b.processId.None? &&
              b.userId == userId && b.projectId == projectId && b.sessionId == sessionId
  {
    if !mkdirOk then Failure("failed to create working directory")
    else if !createOk then Failure("failed to create build record")
    else
      var blank := Build(NilUuid, userId, projectId, sessionId, command, WorkingDirectory(userId, projectId, sessionId),
                         Pending, "", None, None, None, None, None, map[], 0, 0);
      var b := BeforeCreate(blank, newId, now);
      Success((Save(s, b), b))
  }

  // ----- the request's context ---------------------------------------------------

  /** What `Wait` reports for a job started under the HTTP request's
      context, as both build handlers start it: the handler answers as
      soon as the job is handed over, the context is then cancelled, and
      `exec.CommandContext` kills a process still running at that point,
      which `Wait` reports as a signal exit, code -1. `natural` is the
      result the process would have had on its own. */
  function RequestBoundWait(natural: WaitResult, outlivesRequest: bool): WaitResult {
    if outlivesRequest then ExitError(-1, "signal: killed") else natural
  }

  /** As written: every build still running when its request ends is
      recorded failed with exit code -1, even one that would have
      succeeded. */
  lemma RequestEndFailsBuild(s: Service, b: Build, f: Flavour, decode: string -> Decoded, lines: seq<OutLine>,
                             natural: WaitResult, now: Time)
    ensures var row := Finish(s, b, f, decode, lines, RequestBoundWait(natural, true), now).builds[b.id];
            row.status == Failed && row.exitCode == Some(-1)
  {
  }

  /** Corrected: a job started under a context of its own
      (`context.Background()`) is reported as the process ends, whether or
      not it outlives the request. */
  function DetachedWait(natural: WaitResult, outlivesRequest: bool): (r: WaitResult)
  {
    natural
  }

  lemma DetachedBuildKeepsOutcome(s: Service, b: Build, f: Flavour, decode: string -> Decoded, lines: seq<OutLine>,
                                  natural: WaitResult, outlivesRequest: bool, now: Time)
    ensures var row := Finish(s, b, f, decode, lines, DetachedWait(natural, outlivesRequest), now).builds[b.id];
            (row.status == Completed <==> natural.Exited0?) &&
            (natural.ExitError? ==> row.exitCode == Some(natural.code))
  {
  }

  // ----- corrected registry handling ----------------------------------------------

  /** The registry entry of a job whose pipes or `Start` failed is
      removed again, so no entry ever holds a nil process. */
  function RegisterReleasing(s: Service, b: Build, f: Flavour, cmd: Command, spawn: Spawn, failAt: Time): (r: Launched)
    ensures r.build.id == b.id && r.build.startedAt == b.startedAt
    ensures r.service.builds == s.builds[b.id := r.build]
    ensures r.running <==> spawn.Started?
    ensures !spawn.Started? ==> r.service.active == s.active - {b.id}
  {
    if spawn.Started? then Register(s, b, f, cmd, spawn, failAt)
    else
      var r := FailBuild(s, b, SpawnFailure(f, spawn), failAt);
      r.(service := r.service.(active := s.active - {b.id}))
  }

  function LaunchReleasing(s: Service, b: Build, f: Flavour, baseEnv: seq<string>, spawn: Spawn,
                           startAt: Time, failAt: Time): (r: Launched)
    ensures r.build.id == b.id && r.build.startedAt == Some(startAt)
    ensures r.service.builds == s.builds[b.id := r.build]
    ensures r.running <==> CommandLine(f, b).Some? && spawn.Started?
  {
    var b1 := Begin(b, startAt);
    var s1 := Save(s, b1).(logs := s.logs + [StartLog(f, b1)]);
    var r := match CommandLine(f, b)
      case None => FailBuild(s1, b1, "Empty command", failAt)
      case Some(line) => RegisterReleasing(s1, b1, f, MakeCommand(line, b, baseEnv), spawn, failAt);
    Overwrite(s.builds, b.id, b1, r.build);
    r
  }

  /** Consistent, and every entry holds a started process. */
  predicate Released(s: Service) {
    Consistent(s) && forall id :: id in s.active ==> s.active[id].process.Process?
  }

  /** The corrected launch keeps the registry free of nil processes, so
      `CancelBuild` can never dereference one. */
  lemma ReleasingNeverLeaks(s: Service, b: Build, f: Flavour, baseEnv: seq<string>, spawn: Spawn,
                            startAt: Time, failAt: Time, killOk: bool, now: Time)
    requires Released(s) && b.id !in s.active
    ensures var l := LaunchReleasing(s, b, f, baseEnv, spawn, startAt, failAt);
            Released(l.service) && CancelBuild(l.service, b.id, killOk, now).outcome != NilProcess
  {
    var l := LaunchReleasing(s, b, f, baseEnv, spawn, startAt, failAt);
    var h := LaunchReleasingEntry(s, b, f, baseEnv, spawn, startAt, failAt);
    RemoveAbsent(s.active, b.id);
    ConsistentUpdate(s, l.service, l.build, h);
    forall id | id in l.service.active
      ensures l.service.active[id].process.Process?
    {
      if id != b.id {
        assert l.service.active[id] == s.active[id];
      }
    }
  }

  /** The corrected launch adds an entry only for a started process, and
      that entry agrees with the row. */
  lemma LaunchReleasingEntry(s: Service, b: Build, f: Flavour, baseEnv: seq<string>, spawn: Spawn,
                             startAt: Time, failAt: Time) returns (h: Option<Handle>)
    ensures var l := LaunchReleasing(s, b, f, baseEnv, spawn, startAt, failAt);
            (h.Some? ==> l.service.active == s.active[b.id := h.value]) &&
            (h.None? ==> l.service.active == s.active || l.service.active == s.active - {b.id}) &&
            (h.Some? ==> h.value.process.Process? && l.build.status == Running &&
                         l.build.processId == Some(h.value.process.pid))
  {
    var b1 := Begin(b, startAt);
    var s1 := Save(s, b1).(logs := s.logs + [StartLog(f, b1)]);
    if CommandLine(f, b).Some? && spawn.Started? {
      var cmd := MakeCommand(CommandLine(f, b).value, b, baseEnv);
      RegisterStarted(s1, b1, f, cmd, spawn.pid, failAt);
      h := Some(Handle(cmd, Process(spawn.pid)));
    } else {
      h := None;
    }
  }

  lemma RemoveAbsent<K, V>(m: map<K, V>, k: K)
    requires k !in m
    ensures m - {k} == m
  {
  }

  /** Corrected: the executor leaves a row that was cancelled while it
      waited as cancelled, with the cancellation's time, and stores only
      the output; otherwise it finishes as before. */
  function FinishKeepingCancel(s: Service, b: Build, f: Flavour, decode: string -> Decoded, lines: seq<OutLine>,
                               wait: WaitResult, now: Time): (r: Service)
    ensures r.active == s.active - {b.id}
    ensures r.logs == Finish(s, b, f, decode, lines, wait, now).logs
    ensures !(b.id in s.builds && s.builds[b.id].status == BuildStatus.Cancelled) ==>
              r == Finish(s, b, f, decode, lines, wait, now)
  {
    var done := Finish(s, b, f, decode, lines, wait, now);
    if b.id in s.builds && s.builds[b.id].status == BuildStatus.Cancelled then
      done.(builds := done.builds[b.id := s.builds[b.id].(output := OutputOf(lines))])
    else done
  }

  /** With the corrected executor a cancellation is final: the build
      killed by `CancelBuild` stays cancelled, completed at the time of the
      cancellation, whatever `Wait` then reports. */
  lemma CancelStaysCancelled(s: Service, b: Build, f: Flavour, decode: string -> Decoded, baseEnv: seq<string>,
                             pid: int, startAt: Time, cancelAt: Time, lines: seq<OutLine>, wait: WaitResult,
                             endAt: Time)
    requires CommandLine(f, b).Some?
    ensures var l := Launch(s, b, f, baseEnv, Started(pid), startAt, startAt);
            var c := CancelBuild(l.service, b.id, true, cancelAt);
            var row := FinishKeepingCancel(c.service, l.build, f, decode, lines, wait, endAt).builds[b.id];
            c.outcome == Killed && row.status == BuildStatus.Cancelled && row.completedAt == Some(cancelAt) &&
            row.output == OutputOf(lines) && row.processId == Some(pid)
  {
    LaunchStarted(s, b, f, baseEnv, pid, startAt, startAt);
    var l := Launch(s, b, f, baseEnv, Started(pid), startAt, startAt);
    assert b.id in l.service.active && l.service.active[b.id].process == Process(pid);
    assert b.id in l.service.builds && l.service.builds[b.id] == l.build && l.build.id == b.id;
    KilledThenFinished(l.service, l.build, f, decode, lines, wait, cancelAt, endAt);
  }

  /** A build killed by `CancelBuild` and then reaped by the corrected
      executor keeps the cancelled row, with the output added. */
  lemma KilledThenFinished(t: Service, b: Build, f: Flavour, decode: string -> Decoded, lines: seq<OutLine>,
                           wait: WaitResult, cancelAt: Time, endAt: Time)
    requires b.id in t.active && t.active[b.id].process.Process?
    requires b.id in t.builds && t.builds[b.id].id == b.id
    ensures var c := CancelBuild(t, b.id, true, cancelAt);
            var r := FinishKeepingCancel(c.service, b, f, decode, lines, wait, endAt);
            c.outcome == Killed && b.id in r.builds &&
            r.builds[b.id] == t.builds[b.id].(status := BuildStatus.Cancelled, completedAt := Some(cancelAt),
                                              output := OutputOf(lines))
  {
    var c := CancelBuild(t, b.id, true, cancelAt);
    assert c.service.builds[b.id] == t.builds[b.id].(status := BuildStatus.Cancelled, completedAt := Some(cancelAt));
  }

  lemma FinishKeepingCancelConsistent(s: Service, b: Build, f: Flavour, decode: string -> Decoded,
                                      lines: seq<OutLine>, wait: WaitResult, now: Time)
    requires Consistent(s)
    ensures Consistent(FinishKeepingCancel(s, b, f, decode, lines, wait, now))
  {
    FinishConsistent(s, b, f, decode, lines, wait, now);
  }
}
