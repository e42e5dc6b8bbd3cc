/** Server-sent event framing as the handlers write it, and the reading a
    client applies to the stream: the event-stream interpretation of
    section 9.2.6 of the WHATWG HTML Living Standard ("Interpreting an
    event stream"). The round-trip lemma says a client receives exactly
    the events written, in order, with their types and data. */
module Sse {
  import opened Wrappers
  import opened Text

  /** The data of an event: none (written as "{}"), JSON text produced by
      `json.Marshal`, or a value `json.Marshal` rejects. */
  datatype Payload = NoData | Encoded(json: string) | Unencodable

  /** `sendSSEEvent`: an "event:" line, a "data:" line and a blank line;
      nothing at all when the data cannot be encoded. */
  function Frame(eventType: string, p: Payload): string {
    match p
    case NoData => "event: " + eventType + "\n" + "data: {}\n\n"
    case Encoded(j) => "event: " + eventType + "\n" + "data: " + j + "\n\n"
    case Unencodable => ""
  }

  datatype Written = Written(eventType: string, payload: Payload)

  function Frames(ws: seq<Written>): string
    decreases |ws|
  {
    if |ws| == 0 then "" else Frame(ws[0].eventType, ws[0].payload) + Frames(ws[1..])
  }

  // ----- the client's reading -------------------------------------------------

  /** An event as the client's `EventSource` dispatches it. */
  datatype Dispatched = Dispatched(eventType: string, data: string)

  /** The event type buffer, the data buffer and the events dispatched so
      far; the last-event-id buffer and the reconnection time do not affect
      what is dispatched and are not kept. */
  datatype Reader = Reader(eventType: string, data: string, events: seq<Dispatched>)

  const Start: Reader := Reader("", "", [])

  /** The type an event is dispatched with: "message" when none was set. */
  function TypeName(t: string): string {
    if t == "" then "message" else t
  }

  /** The data line's text of an encodable payload. */
  function DataText(p: Payload): string
    requires !p.Unencodable?
  {
    if p.NoData? then "{}" else p.json
  }

  /** A field line: the name before the first colon and the value after
      it, less one leading space; a line without a colon is a name with an
      empty value. */
  function FieldName(line: string): string {
    var i := IndexOf(line, ':');
    if i < 0 then line else line[..i]
  }

  function FieldValue(line: string): string {
    var i := IndexOf(line, ':');
    if i < 0 then ""
    else
      var v := line[i + 1..];
      if |v| > 0 && v[0] == ' ' then v[1..] else v
  }

  /** A blank line dispatches: nothing when the data buffer is empty;
      otherwise an event of the buffered type ("message" when none) whose
      data is the buffer less its final newline. Both buffers are then
      cleared. */
  function Dispatch(r: Reader): Reader {
    if r.data == "" then Reader("", "", r.events)
    else
      Reader("", "", r.events + [Dispatched(TypeName(r.eventType), r.data[..|r.data| - 1])])
  }

  function ProcessLine(r: Reader, line: string): Reader {
    if line == "" then Dispatch(r)
    else if line[0] == ':' then r
    else if FieldName(line) == "event" then r.(eventType := FieldValue(line))
    else if FieldName(line) == "data" then r.(data := r.data + FieldValue(line) + "\n")
    else r
  }

  function ProcessLines(r: Reader, lines: seq<string>): Reader
    decreases |lines|
  {
    if |lines| == 0 then r else ProcessLines(ProcessLine(r, lines[0]), lines[1..])
  }

  /** The complete lines of a stream: text after the last line feed is an
      unfinished line and is not processed. */
  function Lines(stream: string): seq<string> {
    var parts := Split(stream, '\n');
    parts[..|parts| - 1]
  }

  function Read(stream: string): seq<Dispatched> {
    ProcessLines(Start, Lines(stream)).events
  }

  // ----- the round trip ---------------------------------------------------------

  /** What the client receives for each written event: nothing for data
      that could not be encoded; otherwise the type ("message" if empty)
      and the data text. */
  function Expected(ws: seq<Written>): seq<Dispatched>
    decreases |ws|
  {
    if |ws| == 0 then []
    else if ws[0].payload.Unencodable? then Expected(ws[1..])
    else [Dispatched(TypeName(ws[0].eventType), DataText(ws[0].payload))] + Expected(ws[1..])
  }

  /** Text that stays on one line under every line-ending convention of
      the standard. */
  predicate OneLine(s: string) {
    '\n' !in s && '\r' !in s
  }

  predicate WellFormed(ws: seq<Written>) {
    forall k :: 0 <= k < |ws| ==> OneLine(ws[k].eventType) && (ws[k].payload.Encoded? ==> OneLine(ws[k].payload.json))
  }

  /** The three lines of one frame. */
  function FrameLines(ws: seq<Written>): seq<string>
    decreases |ws|
  {
    if |ws| == 0 then []
    else if ws[0].payload.Unencodable? then FrameLines(ws[1..])
    else ["event: " + ws[0].eventType, "data: " + DataText(ws[0].payload), ""] + FrameLines(ws[1..])
  }

  /** One frame followed by more text splits into its three lines and the
      lines of the rest. */
  lemma SplitFrame(e: string, d: string, rest: string)
    requires '\n' !in e && '\n' !in d
    ensures Split(e + "\n" + d + "\n\n" + rest, '\n') == [e, d, ""] + Split(rest, '\n')
  {
    var s3 := "" + ['\n'] + rest;
    var s2 := d + ['\n'] + s3;
    assert e + "\n" + d + "\n\n" + rest == e + ['\n'] + s2;
    SplitLine(e, s2, '\n');
    SplitLine(d, s3, '\n');
    SplitLine("", rest, '\n');
  }

  lemma WellFormedTail(ws: seq<Written>)
    requires |ws| > 0 && WellFormed(ws)
    ensures WellFormed(ws[1..])
  {
    forall k | 0 <= k < |ws[1..]|
      ensures OneLine(ws[1..][k].eventType) && (ws[1..][k].payload.Encoded? ==> OneLine(ws[1..][k].payload.json))
    {
      assert ws[1..][k] == ws[k + 1];
    }
  }

  /** An encodable frame followed by more text splits into its three
      lines and the lines of the rest. */
  lemma SplitWritten(w: Written, rest: string)
    requires !w.payload.Unencodable? && OneLine(w.eventType)
    requires w.payload.Encoded? ==> OneLine(w.payload.json)
    ensures Split(Frame(w.eventType, w.payload) + rest, '\n') ==
            ["event: " + w.eventType, "data: " + DataText(w.payload), ""] + Split(rest, '\n')
  {
    var e := "event: " + w.eventType;
    var d := "data: " + DataText(w.payload);
    assert '\n' !in e && '\n' !in d;
    assert Frame(w.eventType, w.payload) == e + "\n" + d + "\n\n";
    assert Frame(w.eventType, w.payload) + rest == e + "\n" + d + "\n\n" + rest;
    SplitFrame(e, d, rest);
  }

  lemma {:induction false} SplitFrames(ws: seq<Written>)
    requires WellFormed(ws)
    ensures Split(Frames(ws), '\n') == FrameLines(ws) + [""]
    decreases |ws|
  {
    if |ws| == 0 {
      assert Split("", '\n') == [""];
    } else {
      var w := ws[0];
      var rest := Frames(ws[1..]);
      var later := FrameLines(ws[1..]);
      WellFormedTail(ws);
      SplitFrames(ws[1..]);
      assert Frames(ws) == Frame(w.eventType, w.payload) + rest;
      if w.payload.Unencodable? {
        assert Frame(w.eventType, w.payload) + rest == rest;
        assert FrameLines(ws) == later;
      } else {
        var group := ["event: " + w.eventType, "data: " + DataText(w.payload), ""];
        assert OneLine(ws[0].eventType);
        SplitWritten(w, rest);
        assert FrameLines(ws) == group + later;
        assert group + (later + [""]) == group + later + [""];
      }
    }
  }

  lemma {:induction false} ProcessLinesAppend(r: Reader, a: seq<string>, b: seq<string>)
    ensures ProcessLines(r, a + b) == ProcessLines(ProcessLines(r, a), b)
    decreases |a|
  {
    if |a| == 0 {
      assert a + b == b;
    } else {
      assert (a + b)[1..] == a[1..] + b;
      ProcessLinesAppend(ProcessLine(r, a[0]), a[1..], b);
    }
  }

  lemma FieldOf(name: string, v: string)
    requires name == "event" || name == "data"
    ensures FieldName(name + ": " + v) == name
    ensures FieldValue(name + ": " + v) == v
  {
    var line := name + ": " + v;
    assert ':' !in name;
    assert line == name + [':'] + (" " + v);
    IndexOfAbsentAppend(name, " " + v, ':');
    assert line[..|name|] == name;
    assert line[|name| + 1..] == " " + v;
  }

  lemma EventLine(r: Reader, t: string)
    ensures ProcessLine(r, "event: " + t) == r.(eventType := t)
  {
    var l := "event: " + t;
    assert l == "event" + ": " + t;
    FieldOf("event", t);
    assert l != "" && l[0] != ':';
    assert FieldName(l) == "event" && FieldValue(l) == t;
  }

  lemma DataLine(t: string, buffer: string, events: seq<Dispatched>, data: string)
    ensures ProcessLine(Reader(t, buffer, events), "data: " + data) == Reader(t, buffer + data + "\n", events)
  {
    var l := "data: " + data;
    assert l == "data" + ": " + data;
    FieldOf("data", data);
    assert l != "" && l[0] != ':';
    assert FieldName(l) == "data" && FieldValue(l) == data;
    assert "data" != "event";
  }

  lemma ProcessLinesCons(r: Reader, l: string, ls: seq<string>)
    ensures ProcessLines(r, [l] + ls) == ProcessLines(ProcessLine(r, l), ls)
  {
    assert ([l] + ls)[0] == l && ([l] + ls)[1..] == ls;
  }

  /** One frame's lines, read from cleared buffers, dispatch its event and
      clear the buffers again. */
  lemma ReadFrame(events: seq<Dispatched>, t: string, data: string)
    ensures ProcessLines(Reader("", "", events), ["event: " + t, "data: " + data, ""]) ==
            Reader("", "", events + [Dispatched(TypeName(t), data)])
  {
    var l1 := "event: " + t;
    var l2 := "data: " + data;
    var buffer := "" + data + "\n";
    var r0 := Reader("", "", events);
    var r1 := Reader(t, "", events);
    var r2 := Reader(t, buffer, events);
    var r3 := Reader("", "", events + [Dispatched(TypeName(t), data)]);
    EventLine(r0, t);
    DataLine(t, "", events, data);
    assert buffer[..|buffer| - 1] == data;
    assert ProcessLine(r2, "") == r3;
    assert [l1, l2, ""] == [l1] + [l2, ""] && [l2, ""] == [l2] + [""] && [""] == [""] + [];
    ProcessLinesCons(r0, l1, [l2, ""]);
    ProcessLinesCons(r1, l2, [""]);
    ProcessLinesCons(r2, "", []);
    assert ProcessLines(r3, []) == r3;
  }

  /** Reading the first frame's lines dispatches its event and leaves the
      buffers clear for the rest. */
  lemma ReadFirstFrame(events: seq<Dispatched>, ws: seq<Written>)
    requires |ws| > 0 && !ws[0].payload.Unencodable?
    ensures ProcessLines(Reader("", "", events), FrameLines(ws)) ==
            ProcessLines(Reader("", "", events + [Dispatched(TypeName(ws[0].eventType), DataText(ws[0].payload))]), FrameLines(ws[1..]))
  {
    var t := ws[0].eventType;
    var data := DataText(ws[0].payload);
    var group := ["event: " + t, "data: " + data, ""];
    assert FrameLines(ws) == group + FrameLines(ws[1..]);
    ProcessLinesAppend(Reader("", "", events), group, FrameLines(ws[1..]));
    ReadFrame(events, t, data);
  }

  lemma {:induction false} ReadFrameLines(events: seq<Dispatched>, ws: seq<Written>)
    ensures ProcessLines(Reader("", "", events), FrameLines(ws)) == Reader("", "", events + Expected(ws))
    decreases |ws|
  {
    if |ws| == 0 {
      assert events + [] == events;
    } else if ws[0].payload.Unencodable? {
      assert FrameLines(ws) == FrameLines(ws[1..]);
      assert Expected(ws) == Expected(ws[1..]);
      ReadFrameLines(events, ws[1..]);
    } else {
      var d := Dispatched(TypeName(ws[0].eventType), DataText(ws[0].payload));
      var later := Expected(ws[1..]);
      assert Expected(ws) == [d] + later;
      assert events + [d] + later == events + ([d] + later);
      ReadFirstFrame(events, ws);
      ReadFrameLines(events + [d], ws[1..]);
    }
  }

  /** A client reading the concatenated frames receives one event per
      encodable written event, in order, with its type and data; events
      whose data could not be encoded are not seen at all. */
  lemma ReadFrames(ws: seq<Written>)
    requires WellFormed(ws)
    ensures Read(Frames(ws)) == Expected(ws)
  {
    SplitFrames(ws);
    assert Lines(Frames(ws)) == FrameLines(ws);
    ReadFrameLines([], ws);
  }

  // ----- a handler's events --------------------------------------------------

  /** `sendSSEEvent` for each event a handler sends, given the event's
      type name, whether it carries data (the others are written with
      "{}"), and `json.Marshal` of its data, `None` when that fails. */
  function Send<E>(typeOf: E -> string, hasData: E -> bool, encode: E -> Option<string>, evs: seq<E>): seq<Written> {
    seq(|evs|, k requires 0 <= k < |evs| =>
      Written(typeOf(evs[k]),
              if !hasData(evs[k]) then NoData
              else match encode(evs[k])
                   case Some(j) => Encoded(j)
                   case None => Unencodable))
  }

  /** What a client should receive for the events sent, one event at a
      time: the type and "{}" for an event without data, the type and the
      marshalled data otherwise, and nothing when marshalling fails. */
  function Delivered<E>(typeOf: E -> string, hasData: E -> bool, encode: E -> Option<string>, evs: seq<E>)
    : seq<Dispatched>
    decreases |evs|
  {
    if |evs| == 0 then []
    else
      var here :=
        if !hasData(evs[0]) then [Dispatched(typeOf(evs[0]), "{}")]
        else match encode(evs[0])
             case Some(j) => [Dispatched(typeOf(evs[0]), j)]
             case None => [];
      here + Delivered(typeOf, hasData, encode, evs[1..])
  }

  lemma {:induction false} ExpectedSend<E>(typeOf: E -> string, hasData: E -> bool, encode: E -> Option<string>,
                                           evs: seq<E>)
    requires forall e :: typeOf(e) != ""
    ensures Expected(Send(typeOf, hasData, encode, evs)) == Delivered(typeOf, hasData, encode, evs)
    decreases |evs|
  {
    if |evs| > 0 {
      var w := Send(typeOf, hasData, encode, evs);
      assert w[1..] == Send(typeOf, hasData, encode, evs[1..]);
      assert TypeName(w[0].eventType) == typeOf(evs[0]);
      ExpectedSend(typeOf, hasData, encode, evs[1..]);
    }
  }

  /** With type names that are non-empty single lines and a marshaller
      that writes no raw line breaks, the client receives exactly the
      events `Delivered` lists. */
  lemma SendReads<E>(typeOf: E -> string, hasData: E -> bool, encode: E -> Option<string>, evs: seq<E>)
    requires forall e :: OneLine(typeOf(e)) && typeOf(e) != ""
    requires forall e :: encode(e).Some? ==> OneLine(encode(e).value)
    ensures Read(Frames(Send(typeOf, hasData, encode, evs))) == Delivered(typeOf, hasData, encode, evs)
  {
    var w := Send(typeOf, hasData, encode, evs);
    assert WellFormed(w);
    ReadFrames(w);
    ExpectedSend(typeOf, hasData, encode, evs);
  }

  /** When marshalling never fails, every event is delivered, one for
      one. */
  lemma {:induction false} DeliveredAll<E>(typeOf: E -> string, hasData: E -> bool, encode: E -> Option<string>,
                                           evs: seq<E>)
    requires forall e :: encode(e).Some?
    ensures var got := Delivered(typeOf, hasData, encode, evs);
            |got| == |evs| &&
            forall k :: 0 <= k < |evs| ==>
              got[k] == Dispatched(typeOf(evs[k]), if hasData(evs[k]) then encode(evs[k]).value else "{}")
    decreases |evs|
  {
    if |evs| > 0 {
      DeliveredAll(typeOf, hasData, encode, evs[1..]);
      var got := Delivered(typeOf, hasData, encode, evs);
      assert encode(evs[0]).Some?;
      assert got == [Dispatched(typeOf(evs[0]), if hasData(evs[0]) then encode(evs[0]).value else "{}")] +
                    Delivered(typeOf, hasData, encode, evs[1..]);
    }
  }
}
