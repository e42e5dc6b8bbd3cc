/** The build endpoints' own decisions: the Claude options a client may
    leave out, the page sizes of the list endpoints, and `StreamBuildOutput`,
    which turns stored build logs into typed server-sent events. The
    monitoring goroutine and the channel between them are replaced by the
    sequence of signals the streaming loop receives. */
module BuildStream {
  import opened Wrappers
  import opened Json
  import opened Text
  import opened BuildModel
  import Numbers
  import Query
  import Sse
  import ClaudeArgs
  import BuildService

  // ----- starting a Claude build -------------------------------------------

  /** `StartBuildWithClaude`: absent options become `{Model: "sonnet"}`;
      an empty working directory becomes the build's own. */
  function StartOptions(given: Option<ClaudeArgs.ClaudeOptions>, userId: Uuid, projectId: Uuid,
                        sessionId: Option<Uuid>): (r: ClaudeArgs.ClaudeOptions)
    ensures given.None? ==>
              r == ClaudeArgs.ClaudeOptions("", "", BuildService.WorkingDirectory(userId, projectId, sessionId),
                                            false, None, "", [], "sonnet")
    ensures given.Some? && given.value.cwd != "" ==> r == given.value
    ensures given.Some? ==> r.(cwd := given.value.cwd) == given.value
    ensures given.Some? && given.value.cwd == "" ==> r.cwd == BuildService.WorkingDirectory(userId, projectId, sessionId)
  {
    var o := if given.Some? then given.value
             else ClaudeArgs.ClaudeOptions("", "", "", false, None, "", [], "sonnet");
    if o.cwd == "" then o.(cwd := BuildService.WorkingDirectory(userId, projectId, sessionId)) else o
  }

  /** A client that sends no options runs the CLI with the sonnet model
      and no resume, permission or tool flags. */
  lemma NoOptionsArgs(command: string, userId: Uuid, projectId: Uuid, sessionId: Option<Uuid>,
                      hasMcp: bool, mcpPath: string)
    ensures ClaudeArgs.BuildClaudeCLIArgs(command, StartOptions(None, userId, projectId, sessionId), hasMcp, mcpPath) ==
            ClaudeArgs.BaseArgs + (ClaudeArgs.McpArgs(hasMcp, mcpPath) + (["--model", "sonnet"] + ClaudeArgs.PrintArgs(command)))
  {
    var o := StartOptions(None, userId, projectId, sessionId);
    var tail := ClaudeArgs.PrintArgs(command);
    assert o.model == "sonnet" && !o.resume && o.permissionMode == "" && o.tools.None?;
    assert ClaudeArgs.ResumeArgs(o) == [];
    assert ClaudeArgs.ModelArgs(o) == ["--model", "sonnet"];
    assert ClaudeArgs.PermissionArgs(o) == [];
    assert ClaudeArgs.ToolArgs(o) == [];
    assert ClaudeArgs.PermissionArgs(o) + (ClaudeArgs.ToolArgs(o) + tail) == tail;
  }

  // ----- page sizes ----------------------------------------------------------

  /** `GetUserBuilds` and `GetProjectBuilds`: 20 unless `limit` is in 1..100. */
  function BuildsLimit(q: Option<string>): (r: int)
    ensures 1 <= r <= 100
    ensures r != 20 ==> q.Some? && Numbers.Atoi(q.value) == Some(r)
    ensures q.Some? && Numbers.Atoi(q.value).Some? && 1 <= Numbers.Atoi(q.value).value <= 100 ==>
              r == Numbers.Atoi(q.value).value
    ensures q.None? || Numbers.Atoi(q.value).None? || !(1 <= Numbers.Atoi(q.value).value <= 100) ==> r == 20
  {
    assert Numbers.IntToString(20) == "20";
    Query.LimitRoundTrip(20, 100, 20);
    Query.Limit(Query.DefaultQuery(q, "20"), 100, 20)
  }

  /** `GetBuildLogs`: 100 unless `limit` is in 1..1000. */
  function LogsLimit(q: Option<string>): (r: int)
    ensures 1 <= r <= 1000
    ensures r != 100 ==> q.Some? && Numbers.Atoi(q.value) == Some(r)
    ensures q.Some? && Numbers.Atoi(q.value).Some? && 1 <= Numbers.Atoi(q.value).value <= 1000 ==>
              r == Numbers.Atoi(q.value).value
    ensures q.None? || Numbers.Atoi(q.value).None? || !(1 <= Numbers.Atoi(q.value).value <= 1000) ==> r == 100
  {
    assert Numbers.IntToString(100) == "100";
    Query.LimitRoundTrip(100, 1000, 100);
    Query.Limit(Query.DefaultQuery(q, "100"), 1000, 100)
  }

  lemma BuildsLimitRoundTrip(n: int)
    requires Numbers.MinInt <= n <= Numbers.MaxInt
    ensures BuildsLimit(Some(Numbers.IntToString(n))) == (if 1 <= n <= 100 then n else 20)
  {
    if 1 <= n <= 100 {
      Query.LimitRoundTrip(n, 100, 20);
    } else {
      Query.LimitOutOfRange(n, 100, 20);
    }
  }

  lemma LogsLimitRoundTrip(n: int)
    requires Numbers.MinInt <= n <= Numbers.MaxInt
    ensures LogsLimit(Some(Numbers.IntToString(n))) == (if 1 <= n <= 1000 then n else 100)
  {
    if 1 <= n <= 1000 {
      Query.LimitRoundTrip(n, 1000, 100);
    } else {
      Query.LimitOutOfRange(n, 1000, 100);
    }
  }

  // ----- events --------------------------------------------------------------

  /** One `sendSSEEvent` call of the stream: the build row, a log row,
      the decoded Claude response (a nil map for the JSON `null`), the
      captured session id, a keepalive or the closing event; the last two
      carry nil data. */
  datatype Event =
    | Status(build: Build)
    | LogLine(log: BuildLog)
    | Response(decoded: Decoded)
    | SessionCreated(sessionId: string)
    | Keepalive
    | Complete

  /** The event type written on the "event:" line. */
  function EventType(e: Event): string {
    match e
    case Status(_) => "build_status"
    case LogLine(_) => "build_log"
    case Response(_) => "claude_response"
    case SessionCreated(_) => "session_created"
    case Keepalive => "keepalive"
    case Complete => "build_complete"
  }

  predicate HasData(e: Event) {
    !e.Keepalive? && !e.Complete?
  }

  /** Different kinds of event are told apart by their type alone. */
  lemma EventTypesDistinct(a: Event, b: Event)
    ensures EventType(a) == EventType(b) <==>
            (a.Status? && b.Status?) || (a.LogLine? && b.LogLine?) || (a.Response? && b.Response?) ||
            (a.SessionCreated? && b.SessionCreated?) || (a.Keepalive? && b.Keepalive?) || (a.Complete? && b.Complete?)
  {
  }

  /** The log carries a Claude response: level "info", the text
      "Claude response:" in the message, and from the first '{' on text
      that decodes to a JSON object (or `null`). */
  predicate IsResponse(decode: string -> Decoded, l: BuildLog) {
    l.level == "info" && ContainsSub(l.message, "Claude response:") &&
    '{' in l.message && !decode(l.message[IndexOf(l.message, '{')..]).Invalid?
  }

  function ResponseOf(decode: string -> Decoded, l: BuildLog): Decoded
    requires '{' in l.message
  {
    decode(l.message[IndexOf(l.message, '{')..])
  }

  /** The session id of a decoded response: its `session_id` when that is
      a string. */
  function SessionIdOf(d: Decoded): Option<string> {
    if d.Invalid? then None else StringField(FieldsOf(d), "session_id")
  }

  /** The events for one log. */
  function ClassifyLog(decode: string -> Decoded, l: BuildLog): (r: seq<Event>)
    ensures 1 <= |r| <= 2
    ensures forall k :: 0 <= k < |r| ==> r[k].Response? || r[k].LogLine? || r[k].SessionCreated?
    ensures r[0].Response? <==> IsResponse(decode, l)
    ensures !IsResponse(decode, l) ==> r == [LogLine(l)]
    ensures IsResponse(decode, l) ==> r[0] == Response(ResponseOf(decode, l))
    ensures |r| == 2 <==> IsResponse(decode, l) && SessionIdOf(ResponseOf(decode, l)).Some?
    ensures |r| == 2 ==> r[1] == SessionCreated(SessionIdOf(ResponseOf(decode, l)).value)
  {
    if l.level == "info" && ContainsSub(l.message, "Claude response:") then
      var start := IndexOf(l.message, '{');
      if start != -1 then
        var d := decode(l.message[start..]);
        if !d.Invalid? then
          match StringField(FieldsOf(d), "session_id")
          case Some(sid) => [Response(d), SessionCreated(sid)]
          case None => [Response(d)]
        else [LogLine(l)]
      else [LogLine(l)]
    else [LogLine(l)]
  }

  /** What the streaming loop receives: a log from the monitor, the
      channel closing, the client going away, or 30 seconds of silence. */
  datatype Signal = Arrived(log: BuildLog) | Closed | ClientGone | Silence

  /** The streaming loop over the signals it receives, in order; input
      that ends without `Closed` or `ClientGone` is a stream still open. */
  function Loop(decode: string -> Decoded, signals: seq<Signal>): seq<Event>
    decreases |signals|
  {
    if |signals| == 0 then []
    else
      match signals[0]
      case Arrived(l) => ClassifyLog(decode, l) + Loop(decode, signals[1..])
      case Closed => [Complete]
      case ClientGone => []
      case Silence => [Keepalive] + Loop(decode, signals[1..])
  }

  datatype StreamResult = InvalidBuildId | Streamed(events: seq<Event>)

  /** `StreamBuildOutput`: an id that does not parse is refused; otherwise
      the build's status when the build exists, then the loop. */
  function StreamBuildOutput(buildId: Option<Uuid>, found: Option<Build>, decode: string -> Decoded,
                             signals: seq<Signal>): StreamResult
  {
    if buildId.None? then InvalidBuildId
    else
      var status := if found.Some? then [Status(found.value)] else [];
      Streamed(status + Loop(decode, signals))
  }

  // ----- properties of the stream ----------------------------------------------

  predicate NoStatus(r: seq<Event>) {
    forall k :: 0 <= k < |r| ==> !r[k].Status?
  }

  /** The loop never reports the build's status. */
  lemma {:induction false} LoopNoStatus(decode: string -> Decoded, signals: seq<Signal>)
    ensures NoStatus(Loop(decode, signals))
    decreases |signals|
  {
    if |signals| > 0 {
      var rest := Loop(decode, signals[1..]);
      if signals[0].Arrived? {
        LoopNoStatus(decode, signals[1..]);
        var here := ClassifyLog(decode, signals[0].log);
        assert Loop(decode, signals) == here + rest;
        NoStatusAppend(here, rest);
      } else if signals[0].Silence? {
        LoopNoStatus(decode, signals[1..]);
        assert Loop(decode, signals) == [Keepalive] + rest;
        NoStatusAppend([Keepalive], rest);
      }
    }
  }

  lemma NoStatusAppend(a: seq<Event>, b: seq<Event>)
    requires NoStatus(a) && NoStatus(b)
    ensures NoStatus(a + b)
  {
    var ab := a + b;
    forall k | |a| <= k < |ab|
      ensures !ab[k].Status?
    {
      assert ab[k] == b[k - |a|];
    }
  }

  /** The build's status comes first exactly when the build exists, and
      nowhere else. */
  lemma StatusFirst(buildId: Uuid, found: Option<Build>, decode: string -> Decoded, signals: seq<Signal>)
    ensures var evs := StreamBuildOutput(Some(buildId), found, decode, signals).events;
            (found.Some? <==> |evs| > 0 && evs[0].Status?) &&
            (found.Some? ==> evs[0] == Status(found.value)) &&
            (forall k :: 0 < k < |evs| ==> !evs[k].Status?)
  {
    var loop := Loop(decode, signals);
    LoopNoStatus(decode, signals);
    var evs := StreamBuildOutput(Some(buildId), found, decode, signals).events;
    if found.Some? {
      assert evs == [Status(found.value)] + loop;
      forall k | 0 < k < |evs|
        ensures !evs[k].Status?
      {
        assert evs[k] == loop[k - 1];
      }
    } else {
      assert evs == loop;
    }
  }

  /** A `session_created` event always comes right after the
      `claude_response` whose session id it carries. */
  predicate SessionsFollowResponses(evs: seq<Event>) {
    forall k :: 0 <= k < |evs| && evs[k].SessionCreated? ==>
      k > 0 && evs[k - 1].Response? && SessionIdOf(evs[k - 1].decoded) == Some(evs[k].sessionId)
  }

  lemma ClassifyFollows(decode: string -> Decoded, l: BuildLog)
    ensures SessionsFollowResponses(ClassifyLog(decode, l))
    ensures !ClassifyLog(decode, l)[0].SessionCreated?
  {
  }

  lemma {:induction false} FollowsAppend(a: seq<Event>, b: seq<Event>)
    requires SessionsFollowResponses(a) && SessionsFollowResponses(b)
    requires |b| > 0 ==> !b[0].SessionCreated?
    ensures SessionsFollowResponses(a + b)
  {
    var ab := a + b;
    forall k | 0 <= k < |ab| && ab[k].SessionCreated?
      ensures k > 0 && ab[k - 1].Response? && SessionIdOf(ab[k - 1].decoded) == Some(ab[k].sessionId)
    {
      if k < |a| {
        assert ab[k] == a[k] && ab[k - 1] == a[k - 1];
      } else {
        assert ab[k] == b[k - |a|];
        assert ab[k - 1] == b[k - |a| - 1];
      }
    }
  }

  lemma {:induction false} LoopFollows(decode: string -> Decoded, signals: seq<Signal>)
    ensures SessionsFollowResponses(Loop(decode, signals))
    ensures |Loop(decode, signals)| > 0 ==> !Loop(decode, signals)[0].SessionCreated?
    decreases |signals|
  {
    if |signals| > 0 {
      var rest := Loop(decode, signals[1..]);
      match signals[0]
      case Arrived(l) =>
        LoopFollows(decode, signals[1..]);
        ClassifyFollows(decode, l);
        FollowsAppend(ClassifyLog(decode, l), rest);
      case Closed =>
      case ClientGone =>
      case Silence =>
        LoopFollows(decode, signals[1..]);
        FollowsAppend([Keepalive], rest);
    }
  }

  lemma StreamFollows(buildId: Uuid, found: Option<Build>, decode: string -> Decoded, signals: seq<Signal>)
    ensures SessionsFollowResponses(StreamBuildOutput(Some(buildId), found, decode, signals).events)
  {
    LoopFollows(decode, signals);
    var status := if found.Some? then [Status(found.value)] else [];
    FollowsAppend(status, Loop(decode, signals));
  }

  /** The channel closes before the client leaves. */
  predicate ClosesFirst(signals: seq<Signal>)
    decreases |signals|
  {
    |signals| > 0 && (signals[0].Closed? || (!signals[0].ClientGone? && ClosesFirst(signals[1..])))
  }

  /** `build_complete` is last exactly when `closes`, and nowhere else. */
  predicate CompletePlaced(r: seq<Event>, closes: bool) {
    ((|r| > 0 && r[|r| - 1] == Complete) <==> closes) &&
    forall k :: 0 <= k < |r| - 1 ==> !r[k].Complete?
  }

  /** `build_complete` is sent exactly when the channel closes before the
      client leaves, and then it is the last event. */
  lemma {:induction false} CompleteIffClosed(decode: string -> Decoded, signals: seq<Signal>)
    ensures CompletePlaced(Loop(decode, signals), ClosesFirst(signals))
    decreases |signals|
  {
    if |signals| > 0 {
      var rest := Loop(decode, signals[1..]);
      if signals[0].Arrived? {
        CompleteIffClosed(decode, signals[1..]);
        var here := ClassifyLog(decode, signals[0].log);
        assert Loop(decode, signals) == here + rest;
        CompletePrefix(here, rest, ClosesFirst(signals[1..]));
      } else if signals[0].Silence? {
        CompleteIffClosed(decode, signals[1..]);
        assert Loop(decode, signals) == [Keepalive] + rest;
        CompletePrefix([Keepalive], rest, ClosesFirst(signals[1..]));
      }
    }
  }

  /** Events other than `build_complete` in front of the rest keep where
      the rest's closing event is. */
  lemma CompletePrefix(here: seq<Event>, rest: seq<Event>, closes: bool)
    requires |here| > 0 && forall k :: 0 <= k < |here| ==> !here[k].Complete?
    requires CompletePlaced(rest, closes)
    ensures CompletePlaced(here + rest, closes)
  {
    var r := here + rest;
    if |rest| > 0 {
      assert r[|r| - 1] == rest[|rest| - 1];
    }
    forall k | 0 <= k < |r| - 1
      ensures !r[k].Complete?
    {
      if k >= |here| {
        assert r[k] == rest[k - |here|];
      }
    }
  }

  /** The signals contain an end of the stream. */
  predicate Ends(signals: seq<Signal>) {
    exists k :: 0 <= k < |signals| && (signals[k].Closed? || signals[k].ClientGone?)
  }

  lemma EndsCons(a: seq<Signal>)
    requires |a| > 0
    ensures Ends(a) <==> a[0].Closed? || a[0].ClientGone? || Ends(a[1..])
  {
    var tail := a[1..];
    if Ends(tail) {
      var k :| 0 <= k < |tail| && (tail[k].Closed? || tail[k].ClientGone?);
      assert a[k + 1] == tail[k];
    }
    if Ends(a) && !(a[0].Closed? || a[0].ClientGone?) {
      var k :| 0 <= k < |a| && (a[k].Closed? || a[k].ClientGone?);
      assert tail[k - 1] == a[k];
    }
  }

  /** Nothing after the end of the stream is sent, and before it the loop
      handles the signals one at a time. */
  lemma {:induction false} LoopAppend(decode: string -> Decoded, a: seq<Signal>, b: seq<Signal>)
    ensures Loop(decode, a + b) == if Ends(a) then Loop(decode, a) else Loop(decode, a) + Loop(decode, b)
    decreases |a|
  {
    if |a| == 0 {
      assert a + b == b;
      assert !Ends(a);
    } else {
      var tail := a[1..];
      assert (a + b)[0] == a[0] && (a + b)[1..] == tail + b;
      EndsCons(a);
      if a[0].Arrived? {
        LoopAppend(decode, tail, b);
        var here := ClassifyLog(decode, a[0].log);
        assert Loop(decode, a) == here + Loop(decode, tail);
        assert Loop(decode, a + b) == here + Loop(decode, tail + b);
        PrefixKeeps(here, Loop(decode, tail), Loop(decode, tail + b), Loop(decode, b), Ends(tail));
      } else if a[0].Silence? {
        LoopAppend(decode, tail, b);
        assert Loop(decode, a) == [Keepalive] + Loop(decode, tail);
        assert Loop(decode, a + b) == [Keepalive] + Loop(decode, tail + b);
        PrefixKeeps([Keepalive], Loop(decode, tail), Loop(decode, tail + b), Loop(decode, b), Ends(tail));
      }
    }
  }

  lemma PrefixKeeps(here: seq<Event>, x: seq<Event>, y: seq<Event>, later: seq<Event>, ends: bool)
    requires y == if ends then x else x + later
    ensures here + y == if ends then here + x else here + x + later
  {
    if !ends {
      assert here + (x + later) == here + x + later;
    }
  }

  // ----- the service's logs, read back --------------------------------------

  /** `logBuildEvent` as a row: the id and the timestamp are assigned on
      insertion. */
  function Stored(e: BuildService.LogEvent, newId: Uuid, now: Time): BuildLog {
    LogBeforeCreate(BuildLog(NilUuid, e.buildId, e.level, e.message, 0, e.metadata), newId, now)
  }

  const ResponsePrefix: string := "Claude response: "

  lemma ResponsePrefixMatches(line: string)
    ensures ContainsSub(ResponsePrefix + line, "Claude response:")
    ensures '{' !in ResponsePrefix
  {
    var s := ResponsePrefix + line;
    assert s[0..|"Claude response:"|] == "Claude response:";
    ContainsSubAt(s, "Claude response:", 0);
  }

  /** A stdout line the service logged as a Claude response is sent to
      the client as a `claude_response` carrying the same decoded object,
      followed by `session_created` exactly when the service captured a
      session id, provided the text from the line's first '{' decodes as
      the whole line does. */
  lemma Reclassified(decode: string -> Decoded, id: Uuid, line: string, newId: Uuid, now: Time)
    requires !decode(line).Invalid? && '{' in line
    requires decode(line[IndexOf(line, '{')..]) == decode(line)
    ensures var logged := BuildService.ClaudeStdoutLogs(decode, id, line);
            var sent := ClassifyLog(decode, Stored(logged[0], newId, now));
            sent[0] == Response(decode(line)) && (|sent| == 2 <==> |logged| == 2)
  {
    var logged := BuildService.ClaudeStdoutLogs(decode, id, line);
    var l := Stored(logged[0], newId, now);
    assert l.level == "info" && l.message == ResponsePrefix + line;
    PrefixedObject(l.message, line);
    assert IsResponse(decode, l) && ResponseOf(decode, l) == decode(line);
  }

  /** Prefixing a line keeps the text from its first '{' on. */
  lemma PrefixedObject(message: string, line: string)
    requires message == ResponsePrefix + line && '{' in line
    ensures ContainsSub(message, "Claude response:") && '{' in message
    ensures message[IndexOf(message, '{')..] == line[IndexOf(line, '{')..]
  {
    ResponsePrefixMatches(line);
    IndexOfShift(ResponsePrefix, line, '{');
    var i := IndexOf(line, '{');
    assert message[|ResponsePrefix| + i..] == line[i..];
  }

  /** In particular for the stream-json lines the CLI prints, which open
      with '{'. */
  lemma ReclassifiedObjectLine(decode: string -> Decoded, id: Uuid, line: string, newId: Uuid, now: Time)
    requires !decode(line).Invalid? && |line| > 0 && line[0] == '{'
    ensures var logged := BuildService.ClaudeStdoutLogs(decode, id, line);
            var sent := ClassifyLog(decode, Stored(logged[0], newId, now));
            sent[0] == Response(decode(line)) && (|sent| == 2 <==> |logged| == 2)
  {
    assert IndexOf(line, '{') == 0;
    assert line[0..] == line;
    Reclassified(decode, id, line, newId, now);
  }

  // ----- on the wire ---------------------------------------------------------

  /** `json.Marshal` writes no raw line breaks. */
  ghost predicate SingleLineEncoder(encode: Event -> Option<string>) {
    forall e :: encode(e).Some? ==> Sse.OneLine(encode(e).value)
  }

  lemma EventTypeOneLine(e: Event)
    ensures Sse.OneLine(EventType(e)) && EventType(e) != ""
  {
  }

  /** `sendSSEEvent` for each event, given `json.Marshal` of its data: the
      client reads back, in order and with their types, the events
      without data (as "{}") and those whose data could be marshalled;
      an event whose data cannot be marshalled is not written at all. */
  lemma ClientReads(encode: Event -> Option<string>, evs: seq<Event>)
    requires SingleLineEncoder(encode)
    ensures Sse.Read(Sse.Frames(Sse.Send(EventType, HasData, encode, evs))) ==
            Sse.Delivered(EventType, HasData, encode, evs)
  {
    forall e: Event
      ensures Sse.OneLine(EventType(e)) && EventType(e) != ""
    {
      EventTypeOneLine(e);
    }
    Sse.SendReads(EventType, HasData, encode, evs);
  }
}
