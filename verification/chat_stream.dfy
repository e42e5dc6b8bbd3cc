/** The streaming chat endpoint (`StreamClaudeChat`): choosing and syncing
    the project's working directory, the loop that turns the Claude CLI's
    output lines into server-sent events while accumulating the assistant's
    text, and the finalisation that saves, commits, zips and uploads the
    work. The goroutines and the `select` are replaced by a given sequence
    of signals, in the order the loop would receive them. */
module ChatStream {
  import opened Wrappers
  import opened Text
  import opened Json
  import opened BuildModel
  import Paths
  import Folder
  import Sse

  // ----- object storage paths ---------------------------------------------

  /** `parseMinIOPath`: split "bucket/key" at the first '/'; a path
      without one yields two empty strings. Go indexes bytes, and '/' is a
      single byte in UTF-8, so splitting the characters is the same. */
  function ParseMinIOPath(p: string): (r: (string, string))
    ensures '/' in p ==> '/' !in r.0 && r.0 + "/" + r.1 == p
    ensures '/' !in p ==> r == ("", "")
  {
    var i := IndexOf(p, '/');
    if i < 0 then ("", "")
    else
      assert p[..i] + "/" + p[i + 1..] == p[..i] + p[i..];
      assert p[..i] + p[i..] == p;
      (p[..i], p[i + 1..])
  }

  /** Composing and parsing are inverse when the bucket has no '/'. */
  lemma ParseComposed(bucket: string, key: string)
    requires '/' !in bucket
    ensures ParseMinIOPath(bucket + "/" + key) == (bucket, key)
  {
    var p := bucket + "/" + key;
    assert p == bucket + ("/" + key);
    IndexOfShift(bucket, "/" + key, '/');
    assert IndexOf("/" + key, '/') == 0;
    assert p[..|bucket|] == bucket;
    assert p[|bucket| + 1..] == key;
  }

  datatype StorageType = GitRemote | LocalFs | NetworkFs | Unset

  /** The project's storage row, as far as the chat uses it. */
  datatype StorageLocation = StorageLocation(id: Uuid, kind: StorageType,
                                             localPath: Option<string>,
                                             networkPath: Option<string>)

  /** The row variable when the lookup finds nothing: all zero. */
  const NoLocation: StorageLocation := StorageLocation(NilUuid, Unset, None, None)

  function Loaded(row: Option<StorageLocation>): StorageLocation {
    if row.Some? then row.value else NoLocation
  }

  predicate HasNetworkPath(loc: StorageLocation) {
    loc.networkPath.Some? && loc.networkPath.value != ""
  }

  function SessionObject(userId: Uuid, projectId: Uuid, sessionId: Uuid): string {
    "users/" + userId + "/projects/" + projectId + "/sessions/" + sessionId + ".zip"
  }

  /** `getOrComposeNetworkPath`: the location's own network path when it
      has a non-empty one, otherwise the session's archive in the
      configured bucket. */
  function GetOrComposeNetworkPath(loc: Option<StorageLocation>, bucket: string,
                                   userId: Uuid, projectId: Uuid, sessionId: Uuid): (r: string)
    ensures loc.Some? && HasNetworkPath(loc.value) ==> r == loc.value.networkPath.value
    ensures !(loc.Some? && HasNetworkPath(loc.value)) ==> r == bucket + "/" + SessionObject(userId, projectId, sessionId)
    ensures r != ""
  {
    if loc.Some? && HasNetworkPath(loc.value) then loc.value.networkPath.value
    else bucket + "/" + SessionObject(userId, projectId, sessionId)
  }

  /** A composed path reads back as the configured bucket and the
      session's object. */
  lemma ComposedParses(bucket: string, userId: Uuid, projectId: Uuid, sessionId: Uuid)
    requires '/' !in bucket
    ensures ParseMinIOPath(GetOrComposeNetworkPath(Some(NoLocation), bucket, userId, projectId, sessionId))
            == (bucket, SessionObject(userId, projectId, sessionId))
  {
    ParseComposed(bucket, SessionObject(userId, projectId, sessionId));
  }

  // ----- the working directory ---------------------------------------------

  function FallbackDir(userId: Uuid, projectId: Uuid): string {
    "/tmp/borderless-coding/chat/" + userId + "/" + projectId
  }

  /** The directory the CLI runs in and the directories `os.MkdirAll` is
      asked to create, in order (their errors are ignored). */
  datatype WorkDirChoice = WorkDirChoice(dir: string, made: seq<string>)

  /** A stored local path when there is one and it is non-empty (created
      only for local-filesystem storage), otherwise the per-user temporary
      directory, always created. */
  function ChooseWorkDir(row: Option<StorageLocation>, userId: Uuid, projectId: Uuid): (r: WorkDirChoice)
    ensures r.dir != ""
    ensures row.Some? && row.value.localPath.Some? && row.value.localPath.value != "" ==>
              r.dir == row.value.localPath.value &&
              (r.made == [] <==> row.value.kind != LocalFs)
    ensures !(row.Some? && row.value.localPath.Some? && row.value.localPath.value != "") ==>
              r.dir == FallbackDir(userId, projectId) && |r.made| > 0 && r.made[|r.made| - 1] == r.dir
    ensures forall k :: 0 <= k < |r.made| ==> r.made[k] == r.dir || r.made[k] == ""
  {
    var local := row.Some? && row.value.localPath.Some?;
    var dir := if local then row.value.localPath.value else "";
    var made := if local && row.value.kind == LocalFs then [dir] else [];
    if dir == "" then
      var fallback := FallbackDir(userId, projectId);
      assert |fallback| > 0;
      WorkDirChoice(fallback, made + [fallback])
    else WorkDirChoice(dir, made)
  }

  // ----- syncing the working directory ------------------------------------

  /** The archives the endpoint can read: the key store by bucket and
      key (None when the download fails) and local files by path (None
      when `os.Stat` fails). Inside, None is an archive that cannot be
      opened. */
  datatype Stores = Stores(download: (string, string) -> Option<Option<seq<Folder.ZipEntry>>>,
                           local: string -> Option<Option<seq<Folder.ZipEntry>>>)

  datatype SyncResult = Synced(fs: Folder.Fs) | Refused(status: int, message: string)

  function TemplatePath(configured: string): (r: string)
    ensures configured != "" ==> r == configured
    ensures r != ""
  {
    if configured == "" then "project_template.zip" else configured
  }

  /** Extract the stored archive into the working directory when the
      location has a network path, otherwise the project template when that
      file exists. `cwd` is the server's working directory and `template`
      the configured template path. */
  function Sync(fs: Folder.Fs, cwd: seq<string>, workDir: string, loc: StorageLocation,
                template: string, stores: Stores): (r: SyncResult)
    ensures r.Refused? ==> (r.status == 500 <==> !HasNetworkPath(loc)) && (r.status == 400 || r.status == 500)
    ensures HasNetworkPath(loc) && r.Synced? ==>
              var (b, o) := ParseMinIOPath(loc.networkPath.value);
              b != "" && o != "" && stores.download(b, o).Some? &&
              r == Synced(Folder.UnZipFile(fs, cwd, workDir, stores.download(b, o).value).fs)
    ensures HasNetworkPath(loc) && '/' !in loc.networkPath.value ==> r == Refused(400, "invalid network path")
    ensures !HasNetworkPath(loc) && stores.local(TemplatePath(template)).None? ==> r == Synced(fs)
  {
    if HasNetworkPath(loc) then
      var (bucket, key) := ParseMinIOPath(loc.networkPath.value);
      if bucket == "" || key == "" then Refused(400, "invalid network path")
      else match stores.download(bucket, key)
        case None => Refused(400, "failed to download remote archive")
        case Some(archive) =>
          var o := Folder.UnZipFile(fs, cwd, workDir, archive);
          if o.err.Some? then Refused(400, "invalid zip archive")
          else Synced(o.fs)
    else
      match stores.local(TemplatePath(template))
      case None => Synced(fs)
      case Some(archive) =>
        var o := Folder.UnZipFile(fs, cwd, workDir, archive);
        if o.err.Some? then Refused(500, "failed to initialize template")
        else Synced(o.fs)
  }

  /** Syncing writes only inside the working directory (and the
      directories leading to it), whichever archive it extracts, when no
      symbolic link lies along or below that directory. */
  lemma SyncStaysInside(fs: Folder.Fs, cwd: seq<string>, workDir: string, loc: StorageLocation,
                        template: string, stores: Stores)
    requires Paths.AllNames(cwd) && Folder.LinkFree(fs, Paths.Resolve(cwd, workDir))
    ensures var r := Sync(fs, cwd, workDir, loc, template, stores);
            var d := Paths.Resolve(cwd, workDir);
            r.Synced? ==>
              (forall k :: k in fs ==> k in r.fs) &&
              (forall k :: k in r.fs ==> (k in fs && r.fs[k] == fs[k]) || Folder.Below(d, k) ||
                                         (Paths.IsPrefix(k, d) && r.fs[k] == Folder.Dir))
  {
    if HasNetworkPath(loc) {
      var (bucket, key) := ParseMinIOPath(loc.networkPath.value);
      if bucket != "" && key != "" && stores.download(bucket, key).Some? {
        Folder.UnzipStaysInside(fs, cwd, workDir, stores.download(bucket, key).value, false);
      }
    } else if stores.local(TemplatePath(template)).Some? {
      Folder.UnzipStaysInside(fs, cwd, workDir, stores.local(TemplatePath(template)).value, false);
    }
  }

  // ----- the Claude CLI -----------------------------------------------------

  function ClaudePath(configured: string): (r: string)
    ensures r != "" && (configured != "" ==> r == configured)
  {
    if configured == "" then "claude" else configured
  }

  // ----- the event loop -----------------------------------------------------

  /** What the loop receives: an output line (from stderr when `isErr`),
      one reader finishing, a keepalive tick, or the client going away. */
  datatype Signal = Line(isErr: bool, text: string) | Done | Tick | ClientGone

  datatype Event =
    | ClaudeError(error: string)
    | ClaudeResponse(payload: Decoded)
    | ClaudeOutput(data: string)
    | UploadError(reason: string)
    | Keepalive
    | Complete

  function EventType(e: Event): string {
    match e
    case ClaudeError(_) => "claude_error"
    case ClaudeResponse(_) => "claude_response"
    case ClaudeOutput(_) => "claude_output"
    case UploadError(_) => "upload_error"
    case Keepalive => "keepalive"
    case Complete => "complete"
  }

  /** Keepalive and complete are written with the literal data "{}". */
  predicate HasData(e: Event) {
    !(e.Keepalive? || e.Complete?)
  }

  /** The events one line produces and the text it adds to the
      assistant's message. */
  datatype Step = Step(events: seq<Event>, added: string)

  /** The text field of a decoded response, when it is a string. */
  function TextOf(d: Decoded): (r: string)
    requires !d.Invalid?
    ensures StringField(FieldsOf(d), "text").Some? ==> r == StringField(FieldsOf(d), "text").value
    ensures StringField(FieldsOf(d), "text").None? ==> r == ""
  {
    match StringField(FieldsOf(d), "text")
    case Some(t) => t
    case None => ""
  }

  /** An empty line is skipped; a stderr line is reported as an error and
      never becomes part of the message; a stdout line that decodes as a
      JSON key (or null) is forwarded as a response and contributes its
      "text" string; any other stdout line is forwarded as raw output and
      contributes itself and a newline. */
  function LineStep(decode: string -> Decoded, isErr: bool, text: string): (r: Step)
    ensures |r.events| <= 1 && (r.events == [] <==> text == "")
    ensures r.events == [] ==> r.added == ""
    ensures isErr ==> r.added == "" && (text != "" ==> r.events == [ClaudeError(text)])
    ensures r.events != [] ==> (r.events[0].ClaudeError? <==> isErr)
    ensures !isErr && text != "" && !decode(text).Invalid? ==>
              r.events == [ClaudeResponse(decode(text))] && r.added == TextOf(decode(text))
    ensures !isErr && text != "" && decode(text).Invalid? ==>
              r.events == [ClaudeOutput(text)] && r.added == text + "\n"
  {
    if text == "" then Step([], "")
    else if isErr then Step([ClaudeError(text)], "")
    else
      var d := decode(text);
      if !d.Invalid? then Step([ClaudeResponse(d)], TextOf(d))
      else Step([ClaudeOutput(text)], text + "\n")
  }

  /** `runGitCommit`'s view of the directory and of `git add`. */
  datatype StatResult = Exists | Missing | StatFailed

  datatype GitRun = GitRun(commands: seq<seq<string>>, failed: bool)

  const DefaultCommitMessage: string := "update via chat"

  /** `git init` only when `.git` is reported missing (not when the stat
      fails otherwise), then `git add .`, then a best-effort commit with
      the message (a default one when empty); only a failing `git add` is
      an error, and it stops before the commit. */
  function RunGitCommit(gitDir: StatResult, addSucceeds: bool, message: string): (r: GitRun)
    ensures r.failed <==> !addSucceeds
    ensures (["git", "init"] in r.commands) <==> gitDir == Missing
    ensures ["git", "add", "."] in r.commands
    ensures !r.failed ==> (|r.commands| > 0 && r.commands[|r.commands| - 1] ==
              ["git", "commit", "-m", if message == "" then DefaultCommitMessage else message])
    ensures r.failed ==> forall k :: 0 <= k < |r.commands| ==> r.commands[k] in {["git", "init"], ["git", "add", "."]}
  {
    var init := if gitDir == Missing then [["git", "init"]] else [];
    var add := init + [["git", "add", "."]];
    assert add[|add| - 1] == ["git", "add", "."];
    if !addSucceeds then GitRun(add, true)
    else
      var commit := ["git", "commit", "-m", if message == "" then DefaultCommitMessage else message];
      assert commit != ["git", "init"];
      GitRun(add + [commit], false)
  }

  /** The request's fixed facts and the outcomes of the side effects the
      finalisation performs. */
  datatype Context = Context(userId: Uuid, projectId: Uuid, sessionId: Uuid, message: string,
                             workDir: string, loc: StorageLocation, bucket: string,
                             gitDir: StatResult, gitAdd: bool, zipped: bool,
                             upload: (string, string) -> bool)

  /** What finalisation leaves behind: the assistant message saved (if
      any), the git commands run, the network path persisted to the
      storage row (if any) and the directory removed. */
  datatype Finish = Finish(saved: Option<string>, git: GitRun, written: Option<string>, removed: string)

  datatype Final = Final(events: seq<Event>, finish: Finish)

  function CompleteCount(evs: seq<Event>): nat
    decreases |evs|
  {
    if |evs| == 0 then 0 else (if evs[0].Complete? then 1 else 0) + CompleteCount(evs[1..])
  }

  /** After both readers are done: save the message only when non-empty,
      commit, zip the working directory and upload it to the stored or
      composed path, report a failed zip or upload as `upload_error`, write
      a composed path back only after a successful upload to a location
      that had none, remove the working directory and send exactly one
      `complete`, last. The write-back is an update keyed by the row's ID,
      so when the lookup found no row (the nil ID of `NoLocation`) it
      matches nothing and no path is persisted. */
  function Finalise(ctx: Context, accum: string): (r: Final)
    ensures r.finish.saved.Some? <==> accum != ""
    ensures r.finish.saved.Some? ==> r.finish.saved.value == accum
    ensures r.finish.git == RunGitCommit(ctx.gitDir, ctx.gitAdd, ctx.message)
    ensures r.finish.removed == ctx.workDir
    ensures |r.events| > 0 && r.events[|r.events| - 1] == Complete && CompleteCount(r.events) == 1
    ensures var path := GetOrComposeNetworkPath(Some(ctx.loc), ctx.bucket, ctx.userId, ctx.projectId, ctx.sessionId);
            var uploaded := ctx.zipped && ctx.upload(ParseMinIOPath(path).0, ParseMinIOPath(path).1);
            (r.events == [Complete] <==> uploaded) &&
            (!uploaded ==> r.events[0].UploadError?) &&
            (r.finish.written.Some? <==> uploaded && !HasNetworkPath(ctx.loc) && ctx.loc.id != NilUuid) &&
            (r.finish.written.Some? ==> r.finish.written.value == path)
  {
    var saved := if accum != "" then Some(accum) else None;
    var git := RunGitCommit(ctx.gitDir, ctx.gitAdd, ctx.message);
    var path := GetOrComposeNetworkPath(Some(ctx.loc), ctx.bucket, ctx.userId, ctx.projectId, ctx.sessionId);
    var (bucket, key) := ParseMinIOPath(path);
    if !ctx.zipped then
      Final([UploadError("zip failed"), Complete], Finish(saved, git, None, ctx.workDir))
    else if !ctx.upload(bucket, key) then
      Final([UploadError("upload failed"), Complete], Finish(saved, git, None, ctx.workDir))
    else
      var persisted := !HasNetworkPath(ctx.loc) && ctx.loc.id != NilUuid;
      Final([Complete], Finish(saved, git, if persisted then Some(path) else None, ctx.workDir))
  }

  /** A path written back is the session's archive in the configured
      bucket, and it reads back as that bucket and key. */
  lemma WrittenPathParses(ctx: Context, accum: string)
    requires '/' !in ctx.bucket
    ensures var w := Finalise(ctx, accum).finish.written;
            w.Some? ==> ParseMinIOPath(w.value) == (ctx.bucket, SessionObject(ctx.userId, ctx.projectId, ctx.sessionId))
  {
    ParseComposed(ctx.bucket, SessionObject(ctx.userId, ctx.projectId, ctx.sessionId));
  }

  /** The loop's output: the events sent, the accumulated assistant text,
      and what finalisation did, if it ran. */
  datatype ChatRun = ChatRun(events: seq<Event>, accum: string, finish: Option<Finish>)

  function Prepend(evs: seq<Event>, r: ChatRun): ChatRun {
    r.(events := evs + r.events)
  }

  /** The loop from `closed` readers done and `accum` accumulated. The
      second `Done` finalises and ends the stream; the client going away
      kills the CLI and ends it with nothing more; a stream whose signals
      run out has not ended. */
  function Run(decode: string -> Decoded, ctx: Context, signals: seq<Signal>, closed: nat, accum: string): ChatRun
    decreases |signals|
  {
    if |signals| == 0 then ChatRun([], accum, None)
    else match signals[0]
      case Line(isErr, text) =>
        var s := LineStep(decode, isErr, text);
        Prepend(s.events, Run(decode, ctx, signals[1..], closed, accum + s.added))
      case Tick => Prepend([Keepalive], Run(decode, ctx, signals[1..], closed, accum))
      case ClientGone => ChatRun([], accum, None)
      case Done =>
        if closed + 1 >= 2 then
          var f := Finalise(ctx, accum);
          ChatRun(f.events, accum, Some(f.finish))
        else Run(decode, ctx, signals[1..], closed + 1, accum)
  }

  /** The stream as the handler starts it: no reader done, nothing said. */
  function Stream(decode: string -> Decoded, ctx: Context, signals: seq<Signal>): ChatRun {
    Run(decode, ctx, signals, 0, "")
  }

  // ----- properties of the loop -----------------------------------------

  /** The signals before the client goes away. */
  function BeforeGone(signals: seq<Signal>): (r: seq<Signal>)
    ensures |r| <= |signals|
    ensures forall k :: 0 <= k < |r| ==> r[k] == signals[k] && !r[k].ClientGone?
    decreases |signals|
  {
    if |signals| == 0 || signals[0].ClientGone? then [] else [signals[0]] + BeforeGone(signals[1..])
  }

  function DoneCount(signals: seq<Signal>): nat
    decreases |signals|
  {
    if |signals| == 0 then 0 else (if signals[0].Done? then 1 else 0) + DoneCount(signals[1..])
  }

  /** Finalisation runs exactly when both readers finish before the
      client goes away. */
  lemma {:induction false} FinalisesIffBothDone(decode: string -> Decoded, ctx: Context, signals: seq<Signal>,
                                                closed: nat, accum: string)
    requires closed <= 1
    ensures Run(decode, ctx, signals, closed, accum).finish.Some? <==> closed + DoneCount(BeforeGone(signals)) >= 2
    decreases |signals|
  {
    if |signals| > 0 && !signals[0].ClientGone? {
      var rest := signals[1..];
      assert BeforeGone(signals) == [signals[0]] + BeforeGone(rest);
      assert DoneCount(BeforeGone(signals)) == (if signals[0].Done? then 1 else 0) + DoneCount(BeforeGone(rest));
      if signals[0].Line? {
        var s := LineStep(decode, signals[0].isErr, signals[0].text);
        FinalisesIffBothDone(decode, ctx, rest, closed, accum + s.added);
      } else if signals[0].Tick? {
        FinalisesIffBothDone(decode, ctx, rest, closed, accum);
      } else if closed == 0 {
        FinalisesIffBothDone(decode, ctx, rest, 1, accum);
      }
    }
  }

  lemma {:induction false} CompleteCountAppend(a: seq<Event>, b: seq<Event>)
    ensures CompleteCount(a + b) == CompleteCount(a) + CompleteCount(b)
    decreases |a|
  {
    if |a| > 0 {
      assert (a + b)[0] == a[0] && (a + b)[1..] == a[1..] + b;
      CompleteCountAppend(a[1..], b);
    } else {
      assert a + b == b;
    }
  }

  /** Events without `complete` in front keep the count and the last
      event. */
  lemma QuietPrefix(here: seq<Event>, evs: seq<Event>, finished: bool)
    requires CompleteCount(here) == 0
    requires CompleteCount(evs) == (if finished then 1 else 0)
    requires finished ==> |evs| > 0 && evs[|evs| - 1] == Complete
    ensures CompleteCount(here + evs) == (if finished then 1 else 0)
    ensures finished ==> |here + evs| > 0 && (here + evs)[|here + evs| - 1] == Complete
  {
    CompleteCountAppend(here, evs);
  }

  /** The stream sends `complete` once when it finalises, as its last
      event, and never otherwise; a zip or upload failure does not
      prevent it. */
  lemma {:induction false} CompleteOnce(decode: string -> Decoded, ctx: Context, signals: seq<Signal>,
                                        closed: nat, accum: string)
    ensures var r := Run(decode, ctx, signals, closed, accum);
            CompleteCount(r.events) == (if r.finish.Some? then 1 else 0) &&
            (r.finish.Some? ==> |r.events| > 0 && r.events[|r.events| - 1] == Complete)
    decreases |signals|
  {
    if |signals| > 0 {
      var rest := signals[1..];
      if signals[0].Line? {
        var s := LineStep(decode, signals[0].isErr, signals[0].text);
        var r := Run(decode, ctx, rest, closed, accum + s.added);
        CompleteOnce(decode, ctx, rest, closed, accum + s.added);
        assert CompleteCount(s.events) == 0 by {
          if |s.events| == 1 { assert CompleteCount(s.events[1..]) == 0; }
        }
        QuietPrefix(s.events, r.events, r.finish.Some?);
        assert Run(decode, ctx, signals, closed, accum) == Prepend(s.events, r);
      } else if signals[0].Tick? {
        var r := Run(decode, ctx, rest, closed, accum);
        CompleteOnce(decode, ctx, rest, closed, accum);
        assert CompleteCount([Keepalive]) == 0 by { assert [Keepalive][1..] == []; }
        QuietPrefix([Keepalive], r.events, r.finish.Some?);
        assert Run(decode, ctx, signals, closed, accum) == Prepend([Keepalive], r);
      } else if signals[0].Done? && closed + 1 < 2 {
        CompleteOnce(decode, ctx, rest, closed + 1, accum);
      }
    }
  }

  /** The stream without its stderr lines. */
  function WithoutStderr(signals: seq<Signal>): seq<Signal>
    decreases |signals|
  {
    if |signals| == 0 then []
    else if signals[0].Line? && signals[0].isErr then WithoutStderr(signals[1..])
    else [signals[0]] + WithoutStderr(signals[1..])
  }

  /** Stderr lines never reach the assistant's message nor change when the
      stream ends or what finalisation does. */
  lemma {:induction false} StderrNotAccumulated(decode: string -> Decoded, ctx: Context, signals: seq<Signal>,
                                               closed: nat, accum: string)
    ensures var r := Run(decode, ctx, signals, closed, accum);
            var q := Run(decode, ctx, WithoutStderr(signals), closed, accum);
            r.accum == q.accum && r.finish == q.finish
    decreases |signals|
  {
    if |signals| > 0 {
      var rest := signals[1..];
      if signals[0].Line? && signals[0].isErr {
        assert LineStep(decode, true, signals[0].text).added == "";
        assert accum + "" == accum;
        StderrNotAccumulated(decode, ctx, rest, closed, accum);
      } else {
        var w := [signals[0]] + WithoutStderr(rest);
        assert WithoutStderr(signals) == w && w[0] == signals[0] && w[1..] == WithoutStderr(rest);
        if signals[0].Line? {
          StderrNotAccumulated(decode, ctx, rest, closed, accum + LineStep(decode, false, signals[0].text).added);
        } else if signals[0].Tick? {
          StderrNotAccumulated(decode, ctx, rest, closed, accum);
        } else if signals[0].Done? && closed + 1 < 2 {
          StderrNotAccumulated(decode, ctx, rest, closed + 1, accum);
        }
      }
    }
  }

  /** The stream without its empty lines. */
  function WithoutEmpty(signals: seq<Signal>): seq<Signal>
    decreases |signals|
  {
    if |signals| == 0 then []
    else if signals[0].Line? && signals[0].text == "" then WithoutEmpty(signals[1..])
    else [signals[0]] + WithoutEmpty(signals[1..])
  }

  /** Empty lines, from either stream, change nothing at all. */
  lemma {:induction false} EmptyLinesIgnored(decode: string -> Decoded, ctx: Context, signals: seq<Signal>,
                                            closed: nat, accum: string)
    ensures Run(decode, ctx, signals, closed, accum) == Run(decode, ctx, WithoutEmpty(signals), closed, accum)
    decreases |signals|
  {
    if |signals| > 0 {
      var rest := signals[1..];
      if signals[0].Line? && signals[0].text == "" {
        var r := Run(decode, ctx, rest, closed, accum);
        assert LineStep(decode, signals[0].isErr, "") == Step([], "");
        assert accum + "" == accum;
        assert Prepend([], r) == r by { assert [] + r.events == r.events; }
        EmptyLinesIgnored(decode, ctx, rest, closed, accum);
      } else {
        var w := [signals[0]] + WithoutEmpty(rest);
        assert WithoutEmpty(signals) == w && w[0] == signals[0] && w[1..] == WithoutEmpty(rest);
        if signals[0].Line? {
          EmptyLinesIgnored(decode, ctx, rest, closed, accum + LineStep(decode, signals[0].isErr, signals[0].text).added);
        } else if signals[0].Tick? {
          EmptyLinesIgnored(decode, ctx, rest, closed, accum);
        } else if signals[0].Done? && closed + 1 < 2 {
          EmptyLinesIgnored(decode, ctx, rest, closed + 1, accum);
        }
      }
    }
  }

  /** The message accumulated so far is never lost: it is a prefix of
      the final one. */
  lemma {:induction false} AccumulationGrows(decode: string -> Decoded, ctx: Context, signals: seq<Signal>,
                                            closed: nat, accum: string)
    ensures var r := Run(decode, ctx, signals, closed, accum);
            |accum| <= |r.accum| && r.accum[..|accum|] == accum
    decreases |signals|
  {
    if |signals| > 0 {
      var rest := signals[1..];
      if signals[0].Line? {
        var a := accum + LineStep(decode, signals[0].isErr, signals[0].text).added;
        AccumulationGrows(decode, ctx, rest, closed, a);
        var r := Run(decode, ctx, rest, closed, a);
        assert r.accum[..|accum|] == a[..|accum|];
      } else if signals[0].Tick? {
        AccumulationGrows(decode, ctx, rest, closed, accum);
      } else if signals[0].Done? && closed + 1 < 2 {
        AccumulationGrows(decode, ctx, rest, closed + 1, accum);
      }
    }
  }

  // ----- on the wire ---------------------------------------------------------

  lemma EventTypeOneLine(e: Event)
    ensures Sse.OneLine(EventType(e)) && EventType(e) != ""
  {
  }

  /** The frames the loop writes, given `json.Marshal` of each event's
      data. The handler ignores marshalling errors, and marshalling a
      decoded object or a map of strings cannot fail, so every event is
      written, and the client receives each of them, in order, with its
      type, and "{}" as the data of keepalive and complete. */
  lemma ClientReads(encode: Event -> string, evs: seq<Event>)
    requires forall e :: Sse.OneLine(encode(e))
    ensures var got := Sse.Read(Sse.Frames(Sse.Send(EventType, HasData, e => Some(encode(e)), evs)));
            |got| == |evs| &&
            forall k :: 0 <= k < |evs| ==>
              got[k].eventType == EventType(evs[k]) &&
              got[k].data == (if HasData(evs[k]) then encode(evs[k]) else "{}")
  {
    var enc: Event -> Option<string> := e => Some(encode(e));
    forall e: Event
      ensures Sse.OneLine(EventType(e)) && EventType(e) != ""
    {
      EventTypeOneLine(e);
    }
    assert forall e :: enc(e).Some? ==> Sse.OneLine(enc(e).value);
    Sse.SendReads(EventType, HasData, enc, evs);
    Sse.DeliveredAll(EventType, HasData, enc, evs);
  }
}
