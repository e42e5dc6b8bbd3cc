# borderless-server core in Dafny

A model of the core of borderless-server, the Go back end of a web-based
coding workspace. Users own projects. A project has chat sessions, in which
the Claude CLI works on a checked-out copy of the project. The model covers
these parts:

- **Builds** (`BuildModel`, `BuildService`, `BuildStream`). A build row is
  inserted as pending, then executed as a child process. The service keeps an
  in-memory registry of running commands. Each line the process writes
  becomes a log row. The row is finished, failed or cancelled. A client
  follows a build over a Server-Sent Events stream.
- **Claude CLI argument vectors** (`ClaudeArgs`). These are the vectors that
  `buildClaudeCLIArgs` and the chat handler pass to the CLI. They are read
  back through a grammar of the CLI's options.
- **Chat stream** (`ChatStream`). The loop that runs the CLI for one chat
  message: it syncs the working directory from object storage or the
  project template, forwards the output as events, and then saves the
  message, commits, zips and uploads the working directory.
- **Archive helpers** (`Folder`, over the lexical path algebra of `Paths`).
  These are `UnZipFile`, `ZipFolder` and `CopyDir`, over a file system
  modelled as a map from absolute path elements to entries.
- **SSE framing** (`Sse`). The `event:`/`data:` framing both handlers write,
  read back with the parsing rules of section 9.2.6 of the WHATWG HTML
  Living Standard.
- **JWT service and authentication middleware** (`Jwt`, `Middleware`). The
  signature check and claims parsing are one function parameter, `parse`.
- **Projects** (`Projects`, `ProjectHandler`). Creation, update, soft delete
  and slugs, plus the HTTP handlers' request shaping, paging and preview
  checks.
- **Other records.** The auth records (`AuthModels`), chat sessions
  (`ChatSessions`) and configuration loading (`Config`).
- **Go library behaviour the core relies on.** `strings` (`Text`),
  `strconv` (`Numbers`), query parsing (`Query`), a JSON value type (`Json`)
  and `Option`/`Result` (`Wrappers`).

**What becomes a parameter.** Everything the Go code gets from outside is a
parameter of the model:

- the clock: a `now: Time` in nanoseconds;
- generated UUIDs;
- the process outcome: spawn result, output lines, `Wait` result;
- database success flags;
- the environment as a map;
- the JSON decoder;
- the JWT parse/sign pair;
- the file system as a map.

**How the two streaming loops are modelled.** The loops run over a given
sequence of signals. Each signal is one step of the Go `select`:

- a log or output line arrives;
- a channel closes;
- a keepalive tick;
- the client goes away.

## Model

| member | source | states |
|---|---|---|
| BuildModel.CompletedIffTerminal | internal/models/build.go:75-77 | `IsCompleted` holds exactly for success, failed and cancelled, never for a running build |
| BuildModel.StatusNamesDistinct | internal/models/build.go:10-19 | the five status texts stored in the database are pairwise distinct |
| BuildModel.Sub | internal/models/build.go:80-93 | the result always lies in the 64-bit range, and is the exact difference whenever that fits |
| BuildModel.Duration | internal/models/build.go:80-93 | there is no duration exactly when the build never started |
| BuildModel.DurationClock | internal/models/build.go:80-93 | a completed build's duration ignores the clock; a running build's duration never decreases as the clock advances |
| BuildModel.AssignId | internal/models/build.go:53-61 | a nil ID is replaced by the generated one and any other ID is kept |
| BuildModel.AssignIdStable | internal/models/build.go:53-61 | an assigned ID survives every later hook run, whatever ID that run generates |
| BuildModel.BeforeCreate | internal/models/build.go:53-61 | the ID rule applies; created and updated times are both the insertion time; no other field changes |
| BuildModel.BeforeUpdate | internal/models/build.go:64-67 | only the update time changes |
| BuildModel.CreatedThenUpdated | internal/models/build.go:53-67 | a created then updated row keeps its ID and creation time, and under a monotone clock its update time is not before its creation time |
| BuildModel.LogBeforeCreate | internal/models/build.go:114-121 | a log row gets the ID rule, and its timestamp is the insertion time, never the caller's |
| BuildModel.InsertLogs | internal/models/build.go:114-121 | logs inserted one by one keep build, level, message and metadata, and each carries the clock reading of its own insertion |
| BuildModel.InsertedLogsOrdered | internal/models/build.go:114-121 | under a clock that does not run backwards, inserted logs are ordered by timestamp |
| BuildService.StartBuild | internal/services/build_service.go:66-92 | fails exactly when the mkdir or the insert fails, each with its own message; otherwise a pending, unstarted row with the fresh ID, the command, the owners and the working directory is saved |
| BuildService.WorkingDirectoryPath | internal/services/build_service.go:333-339 | for single-name identifiers the working directory renders exactly those path elements, so different users, projects or sessions never share one |
| BuildService.BaseDirectory | internal/services/build_service.go:333-339 | the base directory is the rooted, already clean path /tmp/borderless-coding/builds/<user>/<project> |
| BuildService.ShellCommandLine | internal/services/build_service.go:109-116 | a command is empty exactly when it is all white space; otherwise the program is the first field and the arguments are the rest |
| BuildService.Launch | internal/services/build_service.go:95-158 | the launched row keeps its ID and records the start time; only that row is written; the build runs exactly when the command line is non-empty and the spawn started |
| BuildService.Register | internal/services/build_service.go:130-158 | the row keeps its ID and start time; only that row is written; the build runs exactly when the spawn started |
| BuildService.LaunchEmptyCommand | internal/services/build_service.go:109-113 | an empty command fails at once with exit code 1 and error "Empty command"; the registry is untouched; the log gets the start event and the error |
| BuildService.LaunchSpawnFailed | internal/services/build_service.go:135-151 | a pipe or start failure fails the build with exit code 1 and no pid, but leaves an entry with a nil process |
| BuildService.LaunchStarted | internal/services/build_service.go:154-158 | a started process is registered under the build's ID with its pid, and the running row records that pid |
| BuildService.RegisterStarted | internal/services/build_service.go:130-158 | registering a started process adds exactly that entry and one info log carrying the pid |
| BuildService.ClaudeStdoutLogs | internal/services/build_service.go:452-469 | a stdout line that decodes to an object is logged as a Claude response with the object as metadata, followed by "Session ID captured" exactly when it carries a string session_id |
| BuildService.OutputOfLines | internal/services/build_service.go:161-186 | splitting the stored output at newlines gives back the lines read, then one empty piece |
| BuildService.Finish | internal/services/build_service.go:190-223 | the lines are logged; the entry is removed; the executor's copy is saved over the row, completed at `now`, success exactly on exit 0, with the exit code of an exit error |
| BuildService.CancelBuild | internal/services/build_service.go:240-268 | only a registered build with a started process and a successful kill is cancelled: its row is saved cancelled at `now` and a warn event is logged; an unregistered build, a nil process and a failed kill leave the state unchanged; the registry is never changed |
| BuildService.LaunchConsistent | internal/services/build_service.go:95-158 | launching an unregistered build keeps every registry entry in agreement with its row |
| BuildService.FinishConsistent | internal/services/build_service.go:190-223 | finishing keeps registry and rows consistent |
| BuildService.CancelConsistent | internal/services/build_service.go:240-268 | cancelling keeps registry and rows consistent |
| BuildService.LeakedEntryCannotBeCancelled | internal/services/build_service.go:240-268 | after a failed start the entry with a nil process stays, and cancelling the build reaches that nil process |
| BuildService.CancelIsOverwritten | internal/services/build_service.go:198-223 | the executor reaping a cancelled build saves over it: the build ends failed with exit code -1 and the cancellation time is lost |
| BuildService.SecondCancelSucceeds | internal/services/build_service.go:240-268 | the entry survives a cancellation, so a second cancel before reaping succeeds again and logs a second warning |
| BuildService.UndisturbedRun | internal/services/build_service.go:95-224 | a build run to the end leaves the registry as it was and is completed or failed at the end time, with its pid and start time; its first new log is the start event |
| BuildService.FinishRun | internal/services/build_service.go:190-195 | finishing removes exactly the entry launching added and keeps the earlier log |
| BuildService.FinishKeeps | internal/services/build_service.go:198-223 | finishing keeps the row's ID, pid and start time |
| BuildService.RequestEndFailsBuild | internal/services/build_service.go:119 | with the command bound to the request context, a build still running when the request ends is recorded failed with exit code -1 |
| BuildService.DetachedBuildKeepsOutcome | internal/services/build_service.go:402 | under a detached context the recorded outcome is the process's own: completed exactly on exit 0, and an exit error's code is kept |
| BuildService.RegisterReleasing | internal/services/build_service.go:130-151 | the corrected launch removes the entry again when pipes or start fail |
| BuildService.LaunchReleasing | internal/services/build_service.go:95-158 | the corrected launch keeps ID and start time, writes only this row, and is running exactly when there is a command and the spawn started |
| BuildService.ReleasingNeverLeaks | internal/services/build_service.go:240-268 | with the corrected launch no registry entry ever holds a nil process |
| BuildService.LaunchReleasingEntry | internal/services/build_service.go:130-158 | the corrected launch adds an entry only for a started process, and the entry agrees with the row |
| BuildService.FinishKeepingCancel | internal/services/build_service.go:198-223 | the corrected executor leaves a row cancelled during `Wait` cancelled, with its time, and stores only the output |
| BuildService.CancelStaysCancelled | internal/services/build_service.go:255-263 | with the corrected executor a cancellation is final, whatever `Wait` then reports |
| BuildService.KilledThenFinished | internal/services/build_service.go:190-223 | a build killed by cancel and then reaped keeps the cancelled row, with the output added |
| BuildService.FinishKeepingCancelConsistent | internal/services/build_service.go:190-223 | the corrected executor keeps registry and rows consistent |
| BuildStream.StartOptions | internal/handlers/build_handler.go:133-142 | absent options become model "sonnet"; an empty working directory becomes the build's own |
| BuildStream.NoOptionsArgs | internal/handlers/build_handler.go:133-142 | a request without options runs the CLI on sonnet with no resume, permission or tool flags |
| BuildStream.BuildsLimit | internal/handlers/build_handler.go:210-214 | the page size is the parsed value when the parameter parses to a number in 1..100, and 20 when it is absent, does not parse or is out of range |
| BuildStream.BuildsLimitRoundTrip | internal/handlers/build_handler.go:235-239 | every 64-bit number written as `limit` reads back as itself when in 1..100 and as 20 otherwise |
| BuildStream.LogsLimit | internal/handlers/build_handler.go:260-264 | the page size is the parsed value when the parameter parses to a number in 1..1000, and 100 when it is absent, does not parse or is out of range |
| BuildStream.LogsLimitRoundTrip | internal/handlers/build_handler.go:260-264 | every 64-bit number reads back as itself when in 1..1000 and as 100 otherwise |
| BuildStream.EventTypesDistinct | internal/handlers/build_handler.go:325-352 | events of different kinds have different type names |
| BuildStream.ClassifyLog | internal/handlers/build_handler.go:325-352 | an info log mentioning "Claude response:" whose text from the first '{' decodes becomes `claude_response`, plus `session_created` when it names a session; every other log is `build_log` |
| BuildStream.StatusFirst | internal/handlers/build_handler.go:306-311 | `build_status` is the first event exactly when the build exists, and it appears nowhere else |
| BuildStream.LoopNoStatus | internal/handlers/build_handler.go:314-364 | the loop itself never sends `build_status` |
| BuildStream.LoopFollows | internal/handlers/build_handler.go:314-364 | in the loop's output every `session_created` directly follows a `claude_response`, and none opens it |
| BuildStream.StreamFollows | internal/handlers/build_handler.go:336-340 | the whole stream sends `session_created` only right after a `claude_response` |
| BuildStream.CompleteIffClosed | internal/handlers/build_handler.go:316-322 | `build_complete` is sent exactly when the channel closes before the client leaves, and then it is the last event |
| BuildStream.LoopAppend | internal/handlers/build_handler.go:314-364 | nothing after the end of the stream is sent; before it, signals are handled one at a time |
| BuildStream.Reclassified | internal/handlers/build_handler.go:325-340 | a stdout line logged as a Claude response reaches the client as `claude_response` with the same decoded object, then `session_created` exactly when the service captured a session |
| BuildStream.ReclassifiedObjectLine | internal/handlers/build_handler.go:327-330 | this holds for every line that opens with '{', as the CLI's stream-json lines do |
| BuildStream.EventTypeOneLine | internal/handlers/build_handler.go:437-450 | every build event type is a non-empty single line |
| BuildStream.ClientReads | internal/handlers/build_handler.go:437-450 | given an encoder that writes one line, a client parsing the stream receives exactly the events sent, each with its type and data |
| Sse.SplitWritten | internal/handlers/build_handler.go:446-447 | a written frame followed by more text splits into its three lines and the lines of the rest |
| Sse.ReadFrame | internal/handlers/build_handler.go:446-447 | one frame's lines, read from cleared buffers, dispatch its event and leave the buffers clear |
| Sse.ReadFrames | internal/handlers/build_handler.go:437-450 | reading the written frames yields one event per encodable event, in order; an event whose data fails to marshal is not seen at all |
| Sse.ExpectedSend | internal/handlers/build_handler.go:437-450 | the frames written are those the delivered events describe |
| Sse.SendReads | internal/handlers/build_handler.go:437-450 | with single-line type names and an encoder without raw line breaks, the client receives exactly the delivered events |
| Sse.DeliveredAll | internal/handlers/build_handler.go:437-450 | when every event encodes, each one is delivered with its type, and the data `{}` stands for nil data |
| ChatStream.ParseMinIOPath | internal/handlers/chat_handler.go:778-785 | the path is split at its first '/' and the bucket has no '/'; a path without '/' yields two empty strings |
| ChatStream.ParseComposed | internal/handlers/chat_handler.go:778-785 | parsing a composed "bucket/key" gives back the bucket and the key when the bucket has no '/' |
| ChatStream.GetOrComposeNetworkPath | internal/handlers/chat_handler.go:787-797 | the location's own non-empty network path, else the session's archive under the configured bucket |
| ChatStream.ComposedParses | internal/handlers/chat_handler.go:787-797 | a composed path reads back as the configured bucket and the session's object name |
| ChatStream.ChooseWorkDir | internal/handlers/chat_handler.go:573-587 | a non-empty stored local path, created only for local storage, else the per-user temporary directory, always created |
| ChatStream.TemplatePath | internal/handlers/chat_handler.go:612-615 | the configured template when set, else the built-in default, never empty |
| ChatStream.Sync | internal/handlers/chat_handler.go:589-622 | with a network path the stored archive is downloaded and extracted, and a path without '/' is a 400; without one a missing template leaves the directory alone; refusals are 400 with a network path and 500 without |
| ChatStream.SyncStaysInside | internal/handlers/chat_handler.go:589-622 | syncing writes only inside the working directory and the directories leading to it, when no symbolic link lies along or below it |
| ChatStream.ClaudePath | internal/handlers/chat_handler.go:639-642 | the configured CLI path when set, else a non-empty default |
| ChatStream.LineStep | internal/handlers/chat_handler.go:694-717 | an empty line is skipped; a stderr line becomes `claude_error` and never enters the message; a stdout line is forwarded as a response and contributes its text, or as raw output |
| ChatStream.RunGitCommit | internal/handlers/chat_handler.go:799-820 | `git init` runs only when `.git` is missing; only a failing `git add` is an error; an empty message gets the default one |
| ChatStream.Finalise | internal/handlers/chat_handler.go:723-763 | the message is saved only when non-empty; a failed zip or upload is reported as `upload_error`; a path is persisted exactly when the upload succeeded, no path was stored, and a storage row exists for the update to match; `complete` comes last |
| ChatStream.WrittenPathParses | internal/handlers/chat_handler.go:751-754 | a written-back path is the session's archive in the configured bucket and parses back to that bucket and key |
| ChatStream.FinalisesIffBothDone | internal/handlers/chat_handler.go:719-772 | finalisation runs exactly when both readers finish before the client leaves |
| ChatStream.CompleteOnce | internal/handlers/chat_handler.go:760-762 | `complete` is sent once, last, exactly when the stream finalises, even after an upload failure |
| ChatStream.StderrNotAccumulated | internal/handlers/chat_handler.go:697-703 | stderr lines never reach the saved message, and change neither when the stream ends nor what finalisation does |
| ChatStream.EmptyLinesIgnored | internal/handlers/chat_handler.go:694-696 | empty lines from either reader change nothing at all |
| ChatStream.AccumulationGrows | internal/handlers/chat_handler.go:704-717 | the message accumulated so far is a prefix of the final one |
| ChatStream.EventTypeOneLine | internal/handlers/chat_handler.go:698-767 | every chat event type is a non-empty single line |
| ChatStream.ClientReads | internal/handlers/chat_handler.go:686-772 | given single-line encodings, the client receives every event sent, in order, with its type and data |
| ClaudeArgs.ParseBuildArgs | internal/services/build_service.go:524-598 | the CLI reads the vector as exactly the options asked for: resume only with a session ID, the stream-json format, the model only for a new session, the MCP config, the permission and tool options, then the command as the prompt |
| ClaudeArgs.BuildArgsPrintLast | internal/services/build_service.go:593-595 | a non-empty command is the last argument, right after `--print --` |
| ClaudeArgs.BuildArgsResumeFirst | internal/services/build_service.go:528-530 | a resumed session's vector starts with `--resume <id>` |
| ClaudeArgs.ParseTools | internal/services/build_service.go:560-590 | the tool options set exactly the skip switch and the allowed and disallowed lists the options ask for |
| ClaudeArgs.ParsePlan | internal/services/build_service.go:583-588 | plan mode adds the plan-mode tools to the allowed list, and no other mode adds anything |
| ClaudeArgs.ResumeWithoutSessionId | internal/services/build_service.go:528-551 | asking to resume without a session ID asks for neither a session nor a model, so the CLI starts fresh on its own default |
| ClaudeArgs.ChatSwitches | internal/handlers/chat_handler.go:638 | the first five chat arguments set the output format and three switches |
| ClaudeArgs.ChatPromptIffNotOptionLike | internal/handlers/chat_handler.go:638 | as written, the message becomes the prompt exactly when it does not look like an option |
| ClaudeArgs.GuardedChatPrompt | internal/handlers/chat_handler.go:638 | with `--` before it, every message is the whole prompt and the switches are read as before |
| Folder.MkdirAll | pkg/utils/folder.go:38 | creates every missing prefix as a directory; fails when an existing prefix is not a directory |
| Folder.CreateFile | pkg/utils/folder.go:66-87 | fails on a directory; otherwise stores the content, creating or truncating |
| Folder.TargetsRendered | pkg/utils/folder.go:41-50 | every member's target is the rendering of its resolved elements |
| Folder.UnzipStaysInside | pkg/utils/folder.go:31-91 | extraction adds or changes only entries below the destination, apart from the directories along the destination itself |
| Folder.ExtractInside | pkg/utils/folder.go:59-87 | a member landing inside creates its directory, or its parents and file, at its target |
| Folder.EscapeEndsSilently | pkg/utils/folder.go:55-57 | as written, an escaping member silently ends extraction: the result is that of the archive cut short before it |
| Folder.EscapeReported | pkg/utils/folder.go:55-57 | corrected, the first escaping member stops extraction with an illegal-path error, unless an earlier member already failed |
| Folder.ZipSlipIsSilent | pkg/utils/folder.go:55-57 | "../evil" extracted into "out" from "/srv" escapes to "/srv/evil"; as written nothing is written and no error is returned; corrected, the error is reported |
| Folder.ZipFolder | pkg/utils/folder.go:94-160 | one entry per walked path that is neither a symlink nor junk, named by its relative path, with the file's content |
| Folder.ZipFolderNames | pkg/utils/folder.go:136-141 | directory names end in '/' and only files are deflated |
| Folder.HeaderName | pkg/utils/folder.go:136-141 | an entry name has no backslash, is not rooted, and its elements are the relative path |
| Folder.HeaderTarget | pkg/utils/folder.go:49-57 | the member written for a relative path lands at destination plus that path, inside |
| Folder.UnzipOfZipFolder | pkg/utils/folder.go:31-160 | unzipping `ZipFolder`'s archive into an empty destination reproduces the tree without symlinks and junk files, with their contents, and nothing else below |
| Folder.CopyDirCopies | pkg/utils/folder.go:163-219 | every entry that is not skipped is copied with its content, and every copied entry comes from the tree, is kept, and is outside `.git` |
| Folder.CopyWalkMirrors | pkg/utils/folder.go:180-217 | copying along the walk never fails, keeps the mirror, keeps existing entries and adds every kept entry |
| Folder.CopyStep | pkg/utils/folder.go:196-217 | copying one kept entry succeeds, keeps the mirror and adds its path |
| Paths.AbsResolves | pkg/utils/folder.go:41 | `filepath.Abs` renders the elements the lexical resolution computes |
| Paths.ResolveJoin | pkg/utils/folder.go:49-50 | joining a name under the destination and resolving it continues from the destination's elements |
| Paths.NoDoubleSlash | pkg/utils/folder.go:55 | under the destination "/" the guard's prefix "//" begins no rendered path |
| Paths.InsideIffPrefix | pkg/utils/folder.go:55-57 | on clean absolute paths the guard accepts exactly the extensions of the destination, except that under "/" only "/" itself passes |
| Text.Fields | internal/services/build_service.go:109 | `strings.Fields` returns the maximal runs of non-space characters |
| Text.FieldsOfJoin | internal/services/build_service.go:109-116 | `strings.Fields` inverts joining words with single spaces |
| Text.IndexOf | internal/handlers/build_handler.go:327 | the index of the first occurrence, or -1 when there is none |
| Text.ToLower | internal/services/project_service.go:231 | ASCII upper-case letters map to lower case and every other character is kept |
| Json.StringField | internal/services/build_service.go:463 | the value is present and is a string |
| Numbers.Atoi | internal/handlers/build_handler.go:210-214 | an accepted text is non-empty and its value fits in 64 bits |
| Numbers.AtoiOfIntToString | internal/handlers/build_handler.go:210-214 | `Atoi` reads back every 64-bit integer `%d` prints |
| Numbers.ParseBool | config/config.go:191-198 | accepts exactly the twelve spellings of `strconv.ParseBool` |
| Numbers.ParseBoolSpellings | config/config.go:191-198 | `FormatBool` output reads back, as do the other accepted spellings; mixed case and "yes" are refused |
| Query.Limit | internal/handlers/project_handler.go:253-264 | the parsed value when it lies in 1..max, otherwise the default |
| Query.Offset | internal/handlers/project_handler.go:253-264 | the parsed value unless it fails to parse or is negative, then 0 |
| Query.LimitRoundTrip | internal/handlers/project_handler.go:405-409 | every in-range size survives being written and read back |
| Query.LimitIdempotent | internal/handlers/chat_handler.go:235-246 | clamping a clamped value changes nothing |
| Query.LimitOutOfRange | internal/handlers/build_handler.go:260-264 | an out-of-range number falls back to the default, however it is spelled |
| Query.OffsetRoundTrip | internal/handlers/project_handler.go:253-264 | every non-negative 64-bit offset reads back as itself |
| Jwt.NumericDate | internal/services/jwt_service.go:34 | the instant is truncated to whole seconds |
| Jwt.IssueClaims | internal/services/jwt_service.go:29-44 | user, session and subject name the user and the issuer is fixed; issue and not-before are `now` truncated to the second; expiry is issue plus the lifetime |
| Jwt.AccessClaims | internal/services/jwt_service.go:29-44 | access tokens live 15 minutes |
| Jwt.RefreshClaims | internal/services/jwt_service.go:47-62 | refresh tokens live 30 days |
| Jwt.ExtractTokenFromHeader | internal/services/jwt_service.go:85-96 | the text after an exact, case-sensitive "Bearer "; any other header is an error |
| Jwt.ExtractRoundTrip | internal/services/jwt_service.go:85-96 | every token, the empty one too, comes back out of its header |
| Jwt.LowerCaseBearerRefused | internal/services/jwt_service.go:85-96 | the scheme "bearer " is refused |
| Jwt.ValidateToken | internal/services/jwt_service.go:65-82 | non-HMAC methods are refused before the signature is checked; then the times are validated |
| Jwt.RefreshTokenPair | internal/services/jwt_service.go:99-118 | a valid refresh token yields a fresh pair for its user and session issued at `now`; an invalid one yields nothing |
| Jwt.RefreshKeepsIdentity | internal/services/jwt_service.go:99-118 | refreshing a live refresh token gives access and refresh claims for the same user and session, and the new refresh token validates |
| Jwt.IsTokenExpired | internal/services/jwt_service.go:131-138 | a token that fails validation counts as expired; otherwise it is expired when the clock is past its expiry |
| Jwt.ExpiredIffInvalid | internal/services/jwt_service.go:131-138 | read on one clock, a token is expired exactly when it does not validate |
| Jwt.AccessTokenLifetime | internal/services/jwt_service.go:29-44 | an access token validates from its issue until 15 minutes later, and never after; its claims name its user and session |
| Projects.BeforeCreate | internal/models/project.go:47-56 | the ID rule applies; both times are stamped with the insertion time; no other field changes |
| Projects.WithDefaults | internal/services/project_service.go:46-54 | a missing meta becomes empty, an empty bucket becomes the default bucket, an empty prefix names the owner and the given ID; every other field is kept |
| Projects.CreateChecks | internal/services/project_service.go:23-43 | an empty name, a nil owner, an unknown owner, and a name the owner already uses on a live project are each refused; otherwise the checks pass |
| Projects.ColumnDefaults | internal/models/project.go:26-31 | an empty visibility becomes "private" and a zero version becomes 1; every other field and every non-zero value is kept |
| Projects.Insert | internal/services/project_service.go:56 | the insert succeeds exactly when the ID is not taken, and then adds just that row, with an empty visibility stored as "private" and a zero version as 1, and hands the caller the stored row |
| Projects.CreateProject | internal/services/project_service.go:22-57 | as written, the prefix names the ID the caller passed, before the hook assigns one |
| Projects.NilIdPrefix | internal/services/project_service.go:53 | with a nil ID the stored prefix names the nil UUID instead of the project |
| Projects.PrefixForInjective | internal/services/project_service.go:53 | different IDs give different prefixes |
| Projects.CreateProjectAssigned | internal/services/project_service.go:22-57 | corrected, the created row's prefix names its own assigned ID |
| Projects.CreateKeepsNamesUnique | internal/services/project_service.go:36-43 | creating keeps live names unique per owner |
| Projects.UpdateProject | internal/services/project_service.go:90-113 | only a live project is updated; a new name must not belong to another live project of the owner; the version becomes the stored one plus one |
| Projects.UpdateKeepsNamesUnique | internal/services/project_service.go:101-107 | updating keeps live names unique per owner |
| Projects.DeleteProject | internal/services/project_service.go:116-126 | a live project is soft-deleted and nothing else changes; a missing or deleted one is an error |
| Projects.DeleteFreesName | internal/services/project_service.go:116-126 | a deleted project's name is free again for its owner |
| Projects.CollapseHyphens | internal/services/project_service.go:236-238 | after collapsing no "--" remains |
| Projects.SlugShape | internal/services/project_service.go:229-244 | a slug has no upper-case ASCII, no spaces or underscores, no doubled hyphen and no hyphen at either end |
| Projects.SlugFixed | internal/services/project_service.go:229-244 | slugging a slug changes nothing |
| Projects.SlugIdempotent | internal/services/project_service.go:229-244 | generating a slug twice gives the same slug as once |
| ProjectHandler.SignedInUser | internal/handlers/project_handler.go:242-251 | succeeds exactly when the context holds a UUID user ID, and returns that ID |
| ProjectHandler.ProjectFromRequest | internal/handlers/project_handler.go:70-84 | the path's owner and the request's name, a nil ID and a zero version, not deleted; the request's visibility when given, and never an empty one |
| ProjectHandler.CreateProject | internal/handlers/project_handler.go:57-96 | through the service as written: an empty name is refused; a created row belongs to the path's owner, keeps the requested name, is private unless the request says otherwise, and starts at version 1 |
| ProjectHandler.HandlerPrefixNamesNil | internal/handlers/project_handler.go:70-86 | a request without a root prefix gets a stored prefix naming the nil UUID, not the new project |
| ProjectHandler.CreateProjectCorrected | internal/handlers/project_handler.go:57-96 | through the corrected service: the same refusals, owner, name, visibility and version, and an empty root prefix names the created project |
| ProjectHandler.UpdatesOf | internal/handlers/project_handler.go:185-200 | there is an update column for each field the request carries, and none for the others |
| ProjectHandler.UpdateTouchesOnlyGiven | internal/handlers/project_handler.go:171-219 | an update changes exactly the given fields and bumps the version; an absent field keeps its value |
| ProjectHandler.Page | internal/handlers/project_handler.go:253-264 | the offset is never negative and the limit lies in 1..100 |
| ProjectHandler.PageClamps | internal/handlers/project_handler.go:253-264 | a bare, empty, negative or oversized request gets the first page of ten; in-range values are taken as given |
| ProjectHandler.Filter | internal/handlers/project_handler.go:269-273 | an absent or empty filter is no filter |
| ProjectHandler.ListProjects | internal/handlers/project_handler.go:240-290 | the listing is always scoped to the signed-in user, whatever the query says |
| ProjectHandler.ListScopedToCaller | internal/handlers/project_handler.go:267 | a request the middleware let through lists the token user's projects and no one else's |
| ProjectHandler.SearchProjects | internal/handlers/project_handler.go:398-432 | an empty query is refused; the limit is clamped to 1..50; an owner ID that does not parse is dropped |
| ProjectHandler.SearchIgnoresBadOwner | internal/handlers/project_handler.go:412-416 | a malformed owner filter widens the search to every owner |
| ProjectHandler.ParseMinIOPathLocal | internal/handlers/project_handler.go:598-605 | the same split as the chat handler's `parseMinIOPath` |
| ProjectHandler.PreviewUrlInjective | internal/handlers/project_handler.go:582 | different projects publish at different URLs |
| ProjectHandler.PreviewChecks | internal/handlers/project_handler.go:455-499 | the preview proceeds only for a signed-in owner of a live project with a parsable ID and a stored "bucket/object" path, split into both parts; every refusal is 400, 401, 403, 404 or 500 |
| ProjectHandler.PreviewOfStoredProject | internal/handlers/project_handler.go:457-499 | for a stored project the owner gets the plan, a non-owner 403, and an empty object name 400 |
| Middleware.SignIn | internal/middleware/auth.go:41-43 | the context gains the user ID, the session ID and the claims |
| Middleware.Authenticate | internal/middleware/auth.go:17-47 | an empty header, a non-bearer header and an invalid token are each refused with 401; a valid token signs the request in |
| Middleware.OptionalAuthenticate | internal/middleware/auth.go:50-77 | never refuses a request |
| Middleware.OptionalAgreesWithAuth | internal/middleware/auth.go:17-77 | where the mandatory middleware passes, the optional one signs in identically; otherwise it passes the context on untouched |
| Middleware.IssuedTokenAuthenticates | internal/middleware/auth.go:17-47 | a token the service issued, presented before it expires, signs the request in as its user |
| Middleware.HasRole | internal/middleware/auth.go:114-125 | the nested loops find a match exactly when some required role is among the user's roles |
| Middleware.RequireRole | internal/middleware/auth.go:80-135 | passes, with the context unchanged, exactly when the context's UUID user is a live user whose role metadata holds one of the roles; no user is a 401; every refusal is 401, 403 or 500 |
| Middleware.RoleGate | internal/middleware/auth.go:114-129 | an empty role list refuses everyone; a held role passes any list naming it; extra roles never take access away |
| Middleware.SignedInHasUuid | internal/middleware/auth.go:89-92 | a request signed in by `AuthMiddleware` never reaches the gate's 500 path |
| Middleware.Cors | internal/middleware/auth.go:183-217 | the origin is echoed when listed or containing "localhost"; credentials, headers and methods are always allowed; OPTIONS ends with 204 |
| Middleware.CorsEchoesLookalike | internal/middleware/auth.go:202-204 | an origin such as https://localhost.example.net is echoed with credentials allowed |
| Middleware.CorsRefusesForeign | internal/middleware/auth.go:202-204 | a foreign origin without "localhost", and an absent origin, is not echoed |
| Middleware.CorsEchoesListed | internal/middleware/auth.go:188-192 | every listed origin is echoed |
| Config.Getenv | config/config.go:175-180 | an unset variable reads as "" |
| Config.GetEnv | config/config.go:175-180 | a variable set to "" counts as unset and gives the default |
| Config.GetEnvAsInt | config/config.go:182-189 | a value `strconv.Atoi` refuses falls back to the default |
| Config.GetEnvAsBool | config/config.go:191-198 | a value `strconv.ParseBool` refuses falls back to the default |
| Config.GetEnvOverride | config/config.go:175-180 | a non-empty value overrides the default; unsetting it or setting it to "" restores the default |
| Config.GetEnvAsIntRoundTrip | config/config.go:182-189 | every 64-bit integer written in decimal reads back; non-numbers leave the default |
| Config.GetEnvAsBoolRoundTrip | config/config.go:191-198 | a formatted boolean reads back; "yes" leaves the default |
| Config.Redact | config/config.go:121-130 | empty stays empty; a secret of one to four characters becomes exactly four stars; a longer one becomes four stars and its last four |
| Config.RedactHides | config/config.go:121-130 | the redacted form depends only on emptiness, length above four, and the last four characters |
| Config.NormalizePem | config/config.go:241-248 | the empty text stays empty, nothing grows, and no escaped line feed or escaped CR LF pair is left |
| Config.NormalizePemJoinedLf | config/config.go:241-248 | backslash-free lines joined with escaped line feeds come back joined with real line feeds |
| Config.NormalizePemJoinedCrLf | config/config.go:241-248 | backslash-free lines joined with escaped CR LF pairs come back joined with bare line feeds |
| Config.NormalizePemIdempotent | config/config.go:241-248 | normalising twice changes nothing more |
| Config.NormalizePemExample | config/config.go:241-248 | a one-line key gets its line breaks back, without carriage returns |
| Config.NormalizePemPlain | config/config.go:241-248 | text without a backslash passes through unchanged |
| Config.EscapesGone | config/config.go:241-248 | no escaped line feed is left after normalising |
| Config.LoadKey | config/config.go:201-218 | nothing without a working directory; else the normalised variable when set, else the file, else "" |
| Config.LoadConfig | config/config.go:63-119 | the CLI path, template, storage path, bucket and JWT secret are never empty |
| Config.Defaults | config/config.go:73-115 | an empty environment without key files gives every documented default |
| Config.HandlerFallbacksAgree | config/config.go:107-115 | the handlers' fallbacks for the CLI path and template never change a loaded value, and the bucket default matches the project service's |
| AuthModels.PhoneBeforeCreate | internal/models/auth.go:48-55 | the ID rule and the creation time; nothing else changes |
| AuthModels.VerifiedByTimestamp | internal/models/auth.go:58-60 | a phone is verified exactly when a verification time is recorded, and the creation hook does not change that |
| AuthModels.ProviderNamesDistinct | internal/models/auth.go:13-16 | the provider texts are distinct |
| AuthModels.IdentityBeforeCreate | internal/models/auth.go:83-90 | the ID rule and the creation time; nothing else changes |
| AuthModels.PasswordByHash | internal/models/auth.go:109-111 | a password exists exactly when a non-empty hash is stored, whatever the salt and time |
| AuthModels.PurposeNamesDistinct | internal/models/auth.go:21-27 | the token purpose texts are distinct |
| AuthModels.TokenBeforeCreate | internal/models/auth.go:136-143 | the ID rule and the creation time; nothing else changes |
| AuthModels.TokenValidity | internal/models/auth.go:146-158 | a token is valid up to and including its expiry, never once consumed, and valid earlier if valid now |
| AuthModels.SessionBeforeCreate | internal/models/auth.go:181-188 | the ID rule and the creation time; nothing else changes |
| AuthModels.Revoke | internal/models/auth.go:206-209 | records the revocation time, replacing an earlier one; nothing else changes |
| AuthModels.SessionStates | internal/models/auth.go:191-203 | valid exactly when not expired, not revoked and not at the end instant; invalidity and expiry persist as time passes |
| AuthModels.RevokeEndsSession | internal/models/auth.go:191-209 | a revoked session is never valid; revoking does not change expiry; the last revocation wins |
| AuthModels.BoundaryDiffers | internal/models/auth.go:146-193 | at the same end instant a token is still valid while a session is not |
| AuthModels.AuditBeforeCreate | internal/models/auth.go:232-239 | the ID rule and the creation time; nothing else changes |
| AuthModels.HooksKeepIds | internal/models/auth.go:48-239 | every creation hook keeps an assigned ID on a second save |
| ChatSessions.BeforeCreate | internal/models/chat_session.go:34-42 | the ID rule; both times stamped; nothing else changes |
| ChatSessions.BeforeUpdate | internal/models/chat_session.go:45-48 | only the update time changes |
| ChatSessions.Archive | internal/models/chat_session.go:56-59 | the session is archived at `now`; nothing else changes |
| ChatSessions.Unarchive | internal/models/chat_session.go:62-64 | the session is not archived; nothing else changes |
| ChatSessions.ArchiveRoundTrip | internal/models/chat_session.go:51-64 | archive and unarchive undo each other, and each is idempotent up to the time |
| ChatSessions.CreatedThenUpdated | internal/models/chat_session.go:34-48 | a created then updated session keeps its ID, its creation time and its archive state |

## Left out

- Folder.UnZipFile: symbolic links are not followed. The guard is lexical on `filepath.Abs`, the file system map stores a link as an opaque entry, and `UnzipStaysInside` and `SyncStaysInside` require that no link lies along or below the destination. A link planted there lets the operating system write outside it; the model does not show that.
- Folder.CopyDir: symbolic links in the destination are not followed either, for the same reason.
- Folder.UnZipFile: file modes from the archive's headers are not modelled. `io.Copy` and CRC failures while extracting a member (folder.go:59-87) are not modelled; a file write either stores the content or fails on a directory.
- Folder.ZipFolder: errors that `filepath.Walk` reports mid-walk are not modelled, in `ZipFolder` or in `CopyDir`; the walk is a given sequence of paths. Compression is not modelled beyond which entries are deflated.
- Projects.GenerateSlug: lower-cases ASCII letters only. Go's `strings.ToLower` also maps non-ASCII letters. The same holds for Text.ToLower.
- Config.Redact: counts characters where Go's `len` counts bytes, so for secrets with multi-byte characters the two differ.
- ClaudeArgs.ParseBuildArgs: the CLI's own option grammar is not part of the server. `ClaudeArgs.Classify` and `Parse` are an assumed reading of it: value options take the next argument, switches take none, `--` ends the options, and an unknown option is rejected. Every argv property is stated under that assumption.
- Request context: the model's executor gets the process outcome as a parameter. Cancelling `c.Request.Context()` is modelled only as the `outlivesRequest` flag of the finding below. The chat handler also binds the CLI to the request (chat_handler.go:643); there the stream lives exactly as long as the request, so the model's `client goes away` signal covers it.
- Clock: the three `time.Now` reads in jwt_service.go (34-36 and 52-54) are one `now` parameter. The model therefore assumes the issue, not-before and expiry times come from the same instant.
- Jwt.GetTokenExpiration (jwt_service.go:121-128) is not modelled; `IsTokenExpired` reads the expiry from the validated claims directly.
- JWT signing and parsing (HMAC and the claims' JSON) are the `parse`/`sign` parameters. Only the method check and the time checks are modelled.
- Library stand-ins: JSON encoding and decoding are function parameters; UUID generation and parsing are parameters; `os.Getenv` is a map lookup.
- Database errors: `StartBuild`'s insert (build_service.go:84-86) is modelled as the `createOk` flag. The other handlers' database errors are not modelled, and the GORM queries are plain map operations.
- Concurrency: the two reader goroutines in `executeBuild` append to an unsynchronised `outputBuffer` (build_service.go:161-185). The model reads stdout and stderr as one given interleaving and does not show the data race.
- Concurrency: in the chat loop, lines produced while the loop is blocked elsewhere can be dropped by the `select` (chat_handler.go:666-721). The model handles every line it is given.
- Concurrency: `updateChan` can be closed twice (build_handler.go:294 and 369). The model has one close signal.
- BuildService.Finish: the 64 KiB line limit of Go's default `bufio.Scanner` (build_service.go:168, 180, 451 and 477) is not modelled. A longer line makes `Scan` stop, so that reader ends without logging the line or anything after it, and a process still writing to the unread pipe can block once the pipe fills. The model reads every line it is given in full; the same holds for BuildService.StreamLogs and BuildService.ClaudeStdoutLogs.
- ChatStream.LineStep: the same 64 KiB scanner limit (chat_handler.go:671 and 678) is not modelled. A longer line ends that reader and counts it as done; the CLI can then block on its unread pipe, and the stream runs on keepalives until the client leaves. The model treats every given line as read in full.
- BuildService.Save: GORM's `Save` runs the `BeforeUpdate` hook (build.go:64-67), which stamps `UpdatedAt`. The model's `Save` stores the row as given and leaves `updatedAt` as it was. So the contracts of BuildService.Finish, BuildService.CancelBuild, BuildService.FailBuild and BuildService.StartBuild say nothing about the stored `updatedAt` (build_service.go:146-223 and 255-263).
- Polling: `monitorBuildLogs` orders logs by UUID when it polls (build_handler.go:403-405), not by time. The model takes the signals as a given sequence; the poll interval and the keepalive tickers are signals too.
- Project storage: `Project` in project.go has no `StorageLocation`. The model keeps locations in a map from project ID, as the handlers query them.
- Preview: `BuildPreview`'s steps after the checks are not modelled. These are the temporary files, the download, `UnZipFile`, `npm` and the copy and database update (project_handler.go:501-593). `cfg.StaticFolderPath` (project_handler.go:559-560) does not exist in `Config`.
- Config: the `godotenv` merge of a `.env` file (config.go:67) is folded into the environment map. `Config.String`'s formatting beyond `redact` is not modelled.
- Middleware: `RequireActiveUser`, `RateLimitMiddleware` and `SecurityHeadersMiddleware` are not modelled. The first reads the database in the same way as `RequireRole`; the other two are not part of the core.
- MCP detection: `hasMCPServers` and `getMCPConfigPath` (build_service.go:601-640) read files. Their answers are parameters of the argv model.
- Handlers' CRUD endpoints for chat sessions, messages, builds and users are not modelled beyond the paging they share.
- Middleware.Cors: echoes every origin containing "localhost". This is the code's behaviour and the model states it (`CorsEchoesLookalike`); it is not corrected.
- Paths.InsideIffPrefix: under the destination "/" the guard admits only "/" itself. This is how the code behaves, and the model keeps it.

## Findings

| source | as written | input that shows it | evidently intended | confidence | as-written member | corrected member |
|---|---|---|---|---|---|---|
| pkg/utils/folder.go:55-57 | a member whose target escapes the destination makes `UnZipFile` return `nil`, which ends extraction silently | member "../evil" extracted into "out" from "/srv": target "/srv/evil"; nothing written, no error | refuse the archive with an illegal-path error | not executed | Folder.UnZipFile, Folder.ZipSlipIsSilent, Folder.EscapeEndsSilently | Folder.UnZipFileStrict, Folder.EscapeReported |
| internal/services/project_service.go:53 | the default storage prefix is built from `project.ID` before `BeforeCreate` (internal/models/project.go:48-50) assigns it | a project with a nil ID: prefix "users/<owner>/projects/00000000-0000-0000-0000-000000000000/" | the prefix names the project's own ID | not executed | Projects.CreateProject, Projects.NilIdPrefix, ProjectHandler.HandlerPrefixNamesNil | Projects.CreateProjectAssigned, ProjectHandler.CreateProjectCorrected |
| internal/services/build_service.go:129-151 | the registry entry added before the pipes and `Start` is not removed when they fail, and `CancelBuild` (line 250) calls `Kill` on its nil process | a build whose `Start` fails, then cancelled | remove the entry when the process never started | not executed | BuildService.Launch, BuildService.LeakedEntryCannotBeCancelled | BuildService.LaunchReleasing, BuildService.ReleasingNeverLeaks |
| internal/services/build_service.go:190-223 | the executor saves its own copy of the row after `Wait`, overwriting the cancellation `CancelBuild` (lines 255-263) saved | cancel a running build, then the killed process is reaped: the row ends failed with exit code -1 | a cancelled build stays cancelled | not executed | BuildService.CancelIsOverwritten | BuildService.FinishKeepingCancel, BuildService.CancelStaysCancelled |
| internal/services/build_service.go:119 | the command is bound to the HTTP request's context (build_handler.go:82 and 145; also build_service.go:402), which ends when the handler returns | any build still running when `StartBuild` has responded is killed and recorded failed with exit code -1 | the build runs under a context of its own | not executed | BuildService.RequestBoundWait, BuildService.RequestEndFailsBuild | BuildService.DetachedWait, BuildService.DetachedBuildKeepsOutcome |
| internal/handlers/chat_handler.go:638 | the chat message is passed as a bare argument after the switches | the message "--help" is read as an option, not as the prompt | pass `--` before the message | not executed; plausible only, as it depends on the assumed CLI grammar | ClaudeArgs.ChatArgs, ClaudeArgs.ChatPromptIffNotOptionLike | ClaudeArgs.GuardedChatArgs, ClaudeArgs.GuardedChatPrompt |
