/**
 * The event-stream printer of the web app (apps/web/lib/http.ts) and the parser of the client
 * (packages/cli/src/broker/client.ts). Text is what TextDecoder hands over: any split of the body into
 * chunks decodes to texts whose concatenation is the decoded body.
 */
module Sse {
  import opened Common

  const LF := '\n'

  datatype Disposition = Unknown | Open | Empty | Rotate

  /** The messages of the BrokerError that `sseData` throws. */
  datatype Reason =
    | UnexpectedEnd | BadEmptyMarker | BadRotateMarker | ContinuedAfterEmpty | ContinuedAfterRotate | Reported

  datatype Outcome = Returned | IdleTimeout | Rotated | Failed(reason: Reason)

  datatype Record = Record(event: string, dataLines: seq<string>, comments: seq<string>) {
    function Data(): string { Join(dataLines) }
  }

  /** One settled race of the reader, the watchdog and the abort signal. */
  datatype Read = Chunk(text: string) | Abort | Idle | End(aborted: bool)

  /** What the generator yielded, and how it ended if it has. */
  datatype Reply = Reply(frames: seq<string>, outcome: Option<Outcome>)

  // ---------------------------------------------------------------------------------------------
  // One record
  // ---------------------------------------------------------------------------------------------

  function Join(lines: seq<string>): string {
    if lines == [] then "" else if |lines| == 1 then lines[0] else lines[0] + [LF] + Join(lines[1..])
  }

  /** The index of the first line feed, or the length. */
  function LineEnd(s: string): (n: nat)
    ensures n <= |s| && LF !in s[..n] && (n < |s| ==> s[n] == LF)
    ensures LF !in s ==> n == |s|
  {
    if s == "" || s[0] == LF then 0 else LineEnd(s[1..]) + 1
  }

  /** `split("\n")`. */
  function Lines(s: string): seq<string> {
    if LineEnd(s) == |s| then [s] else [s[..LineEnd(s)]] + Lines(s[LineEnd(s) + 1..])
  }

  /** The rest of the line after a field name and one optional space. */
  function Field(line: string, name: string): string
    requires name <= line
  {
    if name + " " <= line then line[|name| + 1..] else line[|name|..]
  }

  function AddLine(r: Record, line: string): Record {
    if ":" <= line then r.(comments := r.comments + [Field(line, ":")])
    else if "data:" <= line then r.(dataLines := r.dataLines + [Field(line, "data:")])
    else if "event:" <= line then r.(event := Field(line, "event:"))
    else r
  }

  function AddLines(r: Record, lines: seq<string>): Record
    decreases lines
  {
    if lines == [] then r else AddLines(AddLine(r, lines[0]), lines[1..])
  }

  const BLANK := Record("message", [], [])

  function ParseRecord(record: string): Record { AddLines(BLANK, Lines(record)) }

  method ParseSseRecord(record: string) returns (r: Record)
    ensures r == ParseRecord(record)
  {
    r := BLANK;
    var lines := Lines(record);
    var i := 0;
    while i < |lines|
      invariant 0 <= i <= |lines|
      invariant AddLines(r, lines[i..]) == ParseRecord(record)
    {
      var line := lines[i];
      if ":" <= line {
        r := r.(comments := r.comments + [Field(line, ":")]);
      } else if "data:" <= line {
        r := r.(dataLines := r.dataLines + [Field(line, "data:")]);
      } else if "event:" <= line {
        r := r.(event := Field(line, "event:"));
      }
      i := i + 1;
    }
  }

  // ---------------------------------------------------------------------------------------------
  // The record stream
  // ---------------------------------------------------------------------------------------------

  datatype Session = Session(disposition: Disposition, frames: seq<string>, failure: Option<Reason>)

  const FRESH := Session(Unknown, [], None)

  /** A record that carries a control token and nothing else. */
  predicate Bare(r: Record) { |r.comments| == 1 && r.event == "message" && r.Data() == "" }

  /** What the comments of a record do to the disposition. */
  function Mark(d: Disposition, r: Record): Result<Disposition, Reason> {
    if d == Rotate then Err(ContinuedAfterRotate)
    else if "empty" in r.comments then (if d == Unknown && Bare(r) then Ok(Empty) else Err(BadEmptyMarker))
    else if "rotate" in r.comments then (if d == Open && Bare(r) then Ok(Rotate) else Err(BadRotateMarker))
    else if r.comments == [] then Ok(d)
    else if d == Empty then Err(ContinuedAfterEmpty)
    else Ok(Open)
  }

  function Consume(s: Session, record: string): Session {
    var r := ParseRecord(record);
    if s.failure.Some? then s
    else
      match Mark(s.disposition, r)
      case Err(reason) => s.(failure := Some(reason))
      case Ok(d) =>
        if r.event == "error" then s.(disposition := d, failure := Some(Reported))
        else if r.Data() == "" then s.(disposition := d)
        else if d == Empty then s.(disposition := d, failure := Some(ContinuedAfterEmpty))
        else s.(disposition := Open, frames := s.frames + [r.Data()])
  }

  function ConsumeAll(s: Session, records: seq<string>): Session
    decreases records
  {
    if records == [] then s else ConsumeAll(Consume(s, records[0]), records[1..])
  }

  predicate BlankAt(s: string, i: nat) { i + 1 < |s| && s[i] == LF && s[i + 1] == LF }

  /** `indexOf("\n\n")`. */
  function Break(s: string): (r: Option<nat>)
    ensures r.Some? ==> r.value + 2 <= |s|
  {
    if |s| < 2 then None
    else if s[0] == LF && s[1] == LF then Some(0)
    else
      var rest := Break(s[1..]);
      if rest.Some? then Some(rest.value + 1) else None
  }

  /** It is the first blank line, or there is none. */
  lemma {:induction false} BreakIsFirst(s: string)
    ensures Break(s).Some? ==> BlankAt(s, Break(s).value) && forall j :: 0 <= j < Break(s).value ==> !BlankAt(s, j)
    ensures Break(s).None? ==> forall j: nat :: !BlankAt(s, j)
  {
    if |s| >= 2 {
      BreakIsFirst(s[1..]);
      assert forall j: nat :: j > 0 ==> BlankAt(s, j) == BlankAt(s[1..], j - 1);
    }
  }

  /** The complete records of a text. */
  function Records(text: string): seq<string> {
    var b := Break(text);
    if b.None? then [] else [text[..b.value]] + Records(text[b.value + 2..])
  }

  /** What follows the last complete record. */
  function Rest(text: string): string {
    var b := Break(text);
    if b.None? then text else Rest(text[b.value + 2..])
  }

  /** The text of the chunks before the stream ended, and how it ended. */
  function Text(races: seq<Read>): string {
    if races == [] || !races[0].Chunk? then "" else races[0].text + Text(races[1..])
  }

  function Ending(races: seq<Read>): Option<Read> {
    if races == [] then None else if races[0].Chunk? then Ending(races[1..]) else Some(races[0])
  }

  function OutcomeOf(s: Session, rest: string, ending: Option<Read>): Option<Outcome> {
    if s.failure.Some? then Some(Failed(s.failure.value))
    else if ending.None? then None
    else
      match ending.value
      case Chunk(_) => None
      case Abort => Some(Returned)
      case Idle => Some(IdleTimeout)
      case End(aborted) =>
        if aborted || (s.disposition == Empty && rest == "") then Some(Returned)
        else if s.disposition == Rotate && rest == "" then Some(Rotated)
        else Some(Failed(UnexpectedEnd))
  }

  /** The reply to a whole text: no chunk boundary appears in it. */
  function ReplyTo(text: string, ending: Option<Read>): Reply {
    var s := ConsumeAll(FRESH, Records(text));
    Reply(s.frames, OutcomeOf(s, Rest(text), ending))
  }

  lemma BreakAppend(a: string, b: string)
    requires Break(a).Some?
    ensures Break(a + b) == Break(a)
  {
    var t := a + b;
    BreakIsFirst(a);
    BreakIsFirst(t);
    forall j: nat | j + 1 < |a| ensures BlankAt(t, j) == BlankAt(a, j) {
    }
  }

  lemma RecordsFrom(text: string, n: nat)
    requires Break(text) == Some(n)
    ensures Records(text) == [text[..n]] + Records(text[n + 2..]) && Rest(text) == Rest(text[n + 2..])
  {
  }

  lemma SlicesOfAppend(a: string, b: string, n: nat)
    requires n + 2 <= |a|
    ensures (a + b)[..n] == a[..n] && (a + b)[n + 2..] == a[n + 2..] + b
  {
  }

  /** Text that arrives later leaves the complete records alone. */
  lemma {:induction false} RecordsAppend(a: string, b: string)
    ensures Records(a + b) == Records(a) + Records(Rest(a) + b)
    ensures Rest(a + b) == Rest(Rest(a) + b)
  {
    if Break(a).Some? {
      RecordsAppendLonger(a, b, Break(a).value);
      RecordsAppend(a[Break(a).value + 2..], b);
    }
  }

  lemma RecordsAppendLonger(a: string, b: string, n: nat)
    requires Break(a) == Some(n)
    ensures Records(a + b) == [a[..n]] + Records(a[n + 2..] + b) && Rest(a + b) == Rest(a[n + 2..] + b)
  {
    BreakAppend(a, b);
    RecordsFrom(a + b, n);
    SlicesOfAppend(a, b, n);
  }

  lemma {:induction false} ConsumeAppend(s: Session, a: seq<string>, b: seq<string>)
    ensures ConsumeAll(s, a + b) == ConsumeAll(ConsumeAll(s, a), b)
    decreases a
  {
    if a == [] {
      assert a + b == b;
    } else {
      assert (a + b)[1..] == a[1..] + b;
      ConsumeAppend(Consume(s, a[0]), a[1..], b);
    }
  }

  lemma {:induction false} FailureIsFinal(s: Session, records: seq<string>)
    requires s.failure.Some?
    ensures ConsumeAll(s, records) == s
    decreases records
  {
    if records != [] {
      FailureIsFinal(s, records[1..]);
    }
  }

  lemma {:induction false} TextSplit(races: seq<Read>, i: nat)
    requires i <= |races| && forall j :: 0 <= j < i ==> races[j].Chunk?
    ensures Text(races) == Text(races[..i]) + Text(races[i..])
    ensures Ending(races) == Ending(races[i..])
  {
    if i == 0 {
      assert races[..0] == [] && races[0..] == races;
    } else {
      TextSplit(races[1..], i - 1);
      assert races[1..][..i - 1] == races[..i][1..] && races[1..][i - 1..] == races[i..];
      AppendAssociates(races[0].text, Text(races[1..][..i - 1]), Text(races[i..]));
    }
  }

  lemma TextSnoc(races: seq<Read>, i: nat)
    requires i < |races| && forall j :: 0 <= j <= i ==> races[j].Chunk?
    ensures Text(races[..i + 1]) == Text(races[..i]) + races[i].text
  {
    TextSplit(races[..i + 1], i);
    assert races[..i + 1][..i] == races[..i] && races[..i + 1][i..] == [races[i]];
    assert [races[i]][1..] == [];
    assert races[i].text + "" == races[i].text;
  }

  /** Once a record throws, what arrives later does not matter. */
  lemma FailureIsTheReply(seen: string, more: string, ending: Option<Read>, s: Session)
    requires ConsumeAll(FRESH, Records(seen)) == s && s.failure.Some?
    ensures ReplyTo(seen + more, ending) == Reply(s.frames, Some(Failed(s.failure.value)))
  {
    RecordsAppend(seen, more);
    ConsumeAppend(FRESH, Records(seen), Records(Rest(seen) + more));
    FailureIsFinal(s, Records(Rest(seen) + more));
  }

  /** `sseData`: the buffer, the disposition and the frames, read by read. */
  method SseData(races: seq<Read>) returns (frames: seq<string>, outcome: Option<Outcome>)
    ensures Reply(frames, outcome) == ReplyTo(Text(races), Ending(races))
  {
    var buf, disposition := "", Unknown;
    frames := [];
    var i := 0;
    while i < |races|
      invariant 0 <= i <= |races|
      invariant forall j :: 0 <= j < i ==> races[j].Chunk?
      invariant ConsumeAll(FRESH, Records(Text(races[..i]))) == Session(disposition, frames, None)
      invariant Rest(Text(races[..i])) == buf && Break(buf).None?
    {
      TextSplit(races, i);
      match races[i] {
        case Abort =>
          assert Text(races) == Text(races[..i]);
          return frames, Some(Returned);
        case Idle =>
          assert Text(races) == Text(races[..i]);
          return frames, Some(IdleTimeout);
        case End(aborted) =>
          assert Text(races) == Text(races[..i]);
          if aborted || (disposition == Empty && buf == "") {
            return frames, Some(Returned);
          }
          return frames, Some(if disposition == Rotate && buf == "" then Rotated else Failed(UnexpectedEnd));
        case Chunk(text) =>
          ghost var seen := Text(races[..i]);
          ghost var before := Session(disposition, frames, None);
          TextSnoc(races, i);
          RecordsAppend(seen, text);
          buf := buf + text;
          ConsumeAppend(FRESH, Records(seen), Records(buf));
          var failure: Option<Reason>;
          frames, disposition, buf, failure := DrainBuffer(frames, disposition, buf);
          if failure.Some? {
            TextSplit(races, i + 1);
            FailureIsTheReply(Text(races[..i + 1]), Text(races[i + 1..]), Ending(races), Session(disposition, frames, failure));
            return frames, Some(Failed(failure.value));
          }
          i := i + 1;
      }
    }
    TextSplit(races, i);
    assert races[i..] == [] && races[..i] == races;
    outcome := None;
  }

  /** The inner loop: every complete record of the buffer, in order, up to the first that throws. */
  method DrainBuffer(frames0: seq<string>, disposition0: Disposition, buf0: string)
    returns (frames: seq<string>, disposition: Disposition, buf: string, failure: Option<Reason>)
    ensures ConsumeAll(Session(disposition0, frames0, None), Records(buf0)) == Session(disposition, frames, failure)
    ensures failure.None? ==> buf == Rest(buf0) && Break(buf).None?
  {
    frames, disposition, buf, failure := frames0, disposition0, buf0, None;
    ghost var goal := ConsumeAll(Session(disposition0, frames0, None), Records(buf0));
    while Break(buf).Some? && failure.None?
      invariant ConsumeAll(Session(disposition, frames, failure), Records(buf)) == goal
      invariant Rest(buf) == Rest(buf0)
      decreases |buf|
    {
      var idx := Break(buf).value;
      var record := buf[..idx];
      buf := buf[idx + 2..];
      var parsed := ParseSseRecord(record);
      frames, disposition, failure := HandleRecord(frames, disposition, record, parsed);
    }
    if failure.Some? {
      FailureIsFinal(Session(disposition, frames, failure), Records(buf));
    }
  }

  /** The loop body after parsing; a throw becomes `failure`. */
  method HandleRecord(frames0: seq<string>, disposition0: Disposition, ghost record: string, parsed: Record)
    returns (frames: seq<string>, disposition: Disposition, failure: Option<Reason>)
    requires parsed == ParseRecord(record)
    ensures Session(disposition, frames, failure) == Consume(Session(disposition0, frames0, None), record)
  {
    frames, disposition, failure := frames0, disposition0, None;
    if disposition == Rotate {
      return frames, disposition, Some(ContinuedAfterRotate);
    }
    if "empty" in parsed.comments {
      if disposition != Unknown || |parsed.comments| != 1 || parsed.event != "message" || parsed.Data() != "" {
        return frames, disposition, Some(BadEmptyMarker);
      }
      disposition := Empty;
    } else if "rotate" in parsed.comments {
      if disposition != Open || |parsed.comments| != 1 || parsed.event != "message" || parsed.Data() != "" {
        return frames, disposition, Some(BadRotateMarker);
      }
      disposition := Rotate;
    } else if |parsed.comments| > 0 {
      if disposition == Empty {
        return frames, disposition, Some(ContinuedAfterEmpty);
      }
      disposition := Open;
    }
    if parsed.event == "error" {
      return frames, disposition, Some(Reported);
    }
    if parsed.Data() != "" {
      if disposition == Empty {
        return frames, disposition, Some(ContinuedAfterEmpty);
      }
      disposition := Open;
      frames := frames + [parsed.Data()];
    }
  }

  // ---------------------------------------------------------------------------------------------
  // The printer
  // ---------------------------------------------------------------------------------------------

  /** One settled race of the source read, the keepalive and the rotation timer; `json` is stringified. */
  datatype Event = Frame(json: string) | Ping | Rotation | Done | Broken(json: string)

  predicate Last(e: Event) { e.Rotation? || e.Done? || e.Broken? }

  /** What JSON.stringify guarantees of its output: not empty, and no raw line feed. */
  predicate Payload(json: string) { json != "" && LF !in json }

  predicate Printable(events: seq<Event>) {
    forall e :: e in events ==> (e.Frame? ==> Payload(e.json)) && (e.Broken? ==> Payload(e.json))
  }

  const BLANK_LINE := [LF, LF]

  function RecordOf(e: Event): string {
    match e
    case Frame(json) => "data: " + json
    case Ping => ": ping"
    case Rotation => ": rotate"
    case Done => ""
    case Broken(json) => "event: error" + [LF] + ("data: " + json)
  }

  function Shown(e: Event): string { if e.Done? then "" else RecordOf(e) + BLANK_LINE }

  function Printed(events: seq<Event>): string {
    if events == [] then "" else Shown(events[0]) + if Last(events[0]) then "" else Printed(events[1..])
  }

  const OPENING := ": open" + BLANK_LINE
  const EMPTY_BODY := ": empty" + BLANK_LINE

  /** The body of an event stream, from its opening comment to wherever it was cut or ended. */
  function Body(events: seq<Event>): string { OPENING + Printed(events) }

  /** `sseResponse`: the enqueued pieces. */
  method SseResponse(events: seq<Event>) returns (pieces: seq<string>)
    ensures Flatten(pieces) == Body(events)
  {
    pieces := [OPENING];
    assert pieces == [] + [OPENING];
    FlattenSnoc([], OPENING);
    var i := 0;
    assert events[0..] == events;
    while i < |events|
      invariant 0 <= i <= |events|
      invariant Flatten(pieces) + Printed(events[i..]) == Body(events)
    {
      ghost var settled := Flatten(pieces);
      assert events[i..][1..] == events[i + 1..];
      FlattenSnoc(pieces, Shown(events[i]));
      AppendAssociates(settled, Shown(events[i]), if Last(events[i]) then "" else Printed(events[i + 1..]));
      match events[i] {
        case Rotation =>
          pieces := pieces + [": rotate" + BLANK_LINE];
          return;
        case Done =>
          return;
        case Broken(json) =>
          pieces := pieces + ["event: error" + [LF] + ("data: " + json) + BLANK_LINE];
          return;
        case Ping =>
          pieces := pieces + [": ping" + BLANK_LINE];
        case Frame(json) =>
          pieces := pieces + ["data: " + json + BLANK_LINE];
      }
      i := i + 1;
    }
  }

  /** The frames the source delivered before the stream ended. */
  function Payloads(events: seq<Event>): seq<string> {
    if events == [] || Last(events[0]) then []
    else (if events[0].Frame? then [events[0].json] else []) + Payloads(events[1..])
  }

  function EndedBy(events: seq<Event>): Option<Event> {
    if events == [] then None else if Last(events[0]) then Some(events[0]) else EndedBy(events[1..])
  }

  // ---------------------------------------------------------------------------------------------
  // Reading back what was printed
  // ---------------------------------------------------------------------------------------------

  /** A record without blank lines is cut off whole. */
  lemma FirstRecord(record: string, rest: string)
    requires record != "" && record[|record| - 1] != LF && forall j: nat :: !BlankAt(record, j)
    ensures Records(record + BLANK_LINE + rest) == [record] + Records(rest)
    ensures Rest(record + BLANK_LINE + rest) == Rest(rest)
  {
    var t := record + BLANK_LINE + rest;
    var n := |record|;
    BreakIsFirst(t);
    forall j: nat | j < n ensures !BlankAt(t, j) {
      assert !BlankAt(record, j);
      assert t[j] == record[j] && (j + 1 < n ==> t[j + 1] == record[j + 1]);
    }
    assert BlankAt(t, n);
    assert t[..n] == record && t[n + 2..] == rest;
  }

  lemma OneLine(line: string)
    requires LF !in line
    ensures ParseRecord(line) == AddLine(BLANK, line)
  {
    assert [line][1..] == [];
    assert AddLines(BLANK, [line]) == AddLines(AddLine(BLANK, line), []);
  }

  lemma TwoLines(a: string, b: string)
    requires LF !in a && LF !in b
    ensures ParseRecord(a + [LF] + b) == AddLine(AddLine(BLANK, a), b)
  {
    var record := a + [LF] + b;
    var n := LineEnd(record);
    assert record[|a|] == LF;
    assert n == |a|;
    assert record[..n] == a && record[n + 1..] == b;
    assert Lines(record) == [a] + [b];
    assert [a, b][1..] == [b] && [b][1..] == [];
    assert AddLines(BLANK, [a, b]) == AddLines(AddLine(BLANK, a), [b]) == AddLines(AddLine(AddLine(BLANK, a), b), []);
  }

  lemma DataLine(r: Record, json: string)
    ensures AddLine(r, "data: " + json) == r.(dataLines := r.dataLines + [json])
  {
    var line := "data: " + json;
    assert line[0] == 'd' && line[..5] == "data:" && line[..6] == "data:" + " ";
  }

  lemma ConsumesData(frames: seq<string>, json: string)
    requires Payload(json)
    ensures Consume(Session(Open, frames, None), "data: " + json) == Session(Open, frames + [json], None)
  {
    OneLine("data: " + json);
    DataLine(BLANK, json);
    assert ParseRecord("data: " + json) == Record("message", [json], []);
  }

  lemma ConsumesError(frames: seq<string>, json: string)
    requires Payload(json)
    ensures Consume(Session(Open, frames, None), "event: error" + [LF] + ("data: " + json))
         == Session(Open, frames, Some(Reported))
  {
    TwoLines("event: error", "data: " + json);
    var named := AddLine(BLANK, "event: error");
    assert named == Record("error", [], []);
    DataLine(named, json);
  }

  lemma CommentRecord(token: string)
    requires LF !in token
    ensures ParseRecord(": " + token) == Record("message", [], [token])
  {
    var line := ": " + token;
    OneLine(line);
    assert line[..1] == ":" && line[..2] == ":" + " ";
  }

  lemma ConsumesPing(frames: seq<string>)
    ensures Consume(Session(Open, frames, None), ": ping") == Session(Open, frames, None)
  {
    CommentRecord("ping");
    assert ": " + "ping" == ": ping";
  }

  lemma ConsumesRotate(frames: seq<string>)
    ensures Consume(Session(Open, frames, None), ": rotate") == Session(Rotate, frames, None)
  {
    CommentRecord("rotate");
    assert ": " + "rotate" == ": rotate";
    assert "rotate" in ["rotate"] && "empty" !in ["rotate"];
  }

  lemma ConsumesOpen()
    ensures Consume(FRESH, ": open") == Session(Open, [], None)
  {
    CommentRecord("open");
    assert ": " + "open" == ": open";
  }

  lemma ConsumesEmpty()
    ensures Consume(FRESH, ": empty") == Session(Empty, [], None)
  {
    CommentRecord("empty");
    assert ": " + "empty" == ": empty";
    assert "empty" in ["empty"];
  }

  function Yielding(e: Event): seq<string> { if e.Frame? then [e.json] else [] }

  /** A printed event is one record. */
  lemma PrintsOneRecord(e: Event, rest: string)
    requires (e.Frame? || e.Broken?) ==> Payload(e.json)
    requires !e.Done?
    ensures Records(Shown(e) + rest) == [RecordOf(e)] + Records(rest) && Rest(Shown(e) + rest) == Rest(rest)
  {
    var record := RecordOf(e);
    if e.Broken? {
      var head := "event: error";
      assert forall j :: 0 <= j < |record| && j != |head| ==> record[j] != LF;
    }
    FirstRecord(record, rest);
  }

  /** What a printed event does to a session that is open. */
  lemma ConsumesEvent(frames: seq<string>, e: Event)
    requires (e.Frame? || e.Broken?) ==> Payload(e.json)
    requires !e.Done?
    ensures Consume(Session(Open, frames, None), RecordOf(e))
         == Session(if e.Rotation? then Rotate else Open, frames + Yielding(e), if e.Broken? then Some(Reported) else None)
  {
    assert frames + [] == frames;
    match e
    case Frame(json) => ConsumesData(frames, json);
    case Ping => ConsumesPing(frames);
    case Rotation => ConsumesRotate(frames);
    case Broken(json) => ConsumesError(frames, json);
  }

  function SessionAfter(frames: seq<string>, ending: Option<Event>): Session {
    match ending
    case Some(Rotation) => Session(Rotate, frames, None)
    case Some(Broken(_)) => Session(Open, frames, Some(Reported))
    case _ => Session(Open, frames, None)
  }

  lemma {:induction false} ReadsPrinted(frames: seq<string>, events: seq<Event>)
    requires Printable(events)
    ensures ConsumeAll(Session(Open, frames, None), Records(Printed(events)))
         == SessionAfter(frames + Payloads(events), EndedBy(events))
    ensures Rest(Printed(events)) == ""
    decreases events
  {
    if events == [] || events[0].Done? {
      assert frames + [] == frames;
    } else {
      var e, rest := events[0], events[1..];
      assert e in events && forall x :: x in rest ==> x in events;
      var tail := if Last(e) then "" else Printed(rest);
      PrintsOneRecord(e, tail);
      ConsumesEvent(frames, e);
      assert ([RecordOf(e)] + Records(tail))[1..] == Records(tail);
      if !Last(e) {
        ReadsPrinted(frames + Yielding(e), rest);
        AppendAssociates(frames, Yielding(e), Payloads(rest));
      } else {
        assert frames + [] == frames;
      }
    }
  }

  lemma ReadsOpening(rest: string)
    ensures Records(OPENING + rest) == [": open"] + Records(rest) && Rest(OPENING + rest) == Rest(rest)
    ensures Consume(FRESH, ": open") == Session(Open, [], None)
  {
    FirstRecord(": open", rest);
    ConsumesOpen();
  }

  function OutcomeOfBody(ending: Option<Event>): Outcome {
    match ending
    case Some(Rotation) => Rotated
    case Some(Broken(_)) => Failed(Reported)
    case _ => Failed(UnexpectedEnd)
  }

  /**
   * For any frames, any placement of pings, any ending of the printed stream and any split of its text
   * into chunks: exactly the payloads, in order, and then the outcome the ending announces.
   */
  lemma ParserReadsWhatPrinterWrote(events: seq<Event>, races: seq<Read>)
    requires Printable(events) && Text(races) == Body(events) && Ending(races) == Some(End(false))
    ensures ReplyTo(Text(races), Ending(races)) == Reply(Payloads(events), Some(OutcomeOfBody(EndedBy(events))))
  {
    BodyIsConsumed(events);
    ReplyOfSession(Text(races), Ending(races), Payloads(events), EndedBy(events));
  }

  lemma ReplyOfSession(text: string, ending: Option<Read>, frames: seq<string>, endedBy: Option<Event>)
    requires ConsumeAll(FRESH, Records(text)) == SessionAfter(frames, endedBy) && Rest(text) == ""
    requires ending == Some(End(false))
    ensures ReplyTo(text, ending) == Reply(frames, Some(OutcomeOfBody(endedBy)))
  {
  }

  lemma BodyIsConsumed(events: seq<Event>)
    requires Printable(events)
    ensures ConsumeAll(FRESH, Records(Body(events))) == SessionAfter(Payloads(events), EndedBy(events))
    ensures Rest(Body(events)) == "" && |Records(Body(events))| > 0 && Records(Body(events))[0] == ": open"
  {
    var records := Records(Printed(events));
    ReadsOpening(Printed(events));
    assert ([": open"] + records)[1..] == records;
    ReadsPrinted([], events);
    assert [] + Payloads(events) == Payloads(events);
  }

  /** The absent-channel body is the one that completes cleanly, and it frames nothing. */
  lemma EmptyBodyCompletes(races: seq<Read>)
    requires Text(races) == EMPTY_BODY && Ending(races) == Some(End(false))
    ensures ReplyTo(Text(races), Ending(races)) == Reply([], Some(Returned))
  {
    FirstRecord(": empty", "");
    assert EMPTY_BODY + "" == EMPTY_BODY;
    ConsumesEmpty();
    assert Records("") == [] && [": empty"] + [] == [": empty"] && [": empty"][1..] == [];
  }

  /** A stream that has not opened has yielded nothing; one that has opened never turns empty. */
  lemma {:induction false} DispositionTellsYields(s: Session, records: seq<string>)
    requires s.disposition in {Unknown, Empty} ==> s.frames == []
    ensures ConsumeAll(s, records).disposition in {Unknown, Empty} ==> ConsumeAll(s, records).frames == []
    ensures s.disposition in {Open, Rotate} ==> ConsumeAll(s, records).disposition in {Open, Rotate}
    ensures s.frames <= ConsumeAll(s, records).frames
    decreases records
  {
    if records != [] {
      DispositionTellsYields(Consume(s, records[0]), records[1..]);
    }
  }

  /** Whatever the bytes, a normal completion without an abort means nothing was yielded. */
  lemma CompletionMeansSilence(text: string, ending: Option<Read>)
    requires ReplyTo(text, ending).outcome == Some(Returned)
    requires ending != Some(Abort) && ending != Some(End(true))
    ensures ReplyTo(text, ending).frames == []
  {
    DispositionTellsYields(FRESH, Records(text));
  }

  /**
   * A connection lost anywhere in a printed body: the payloads read so far are a prefix, and the end is
   * never mistaken for a clean completion.
   */
  lemma LostConnectionKeepsPrefix(events: seq<Event>, races: seq<Read>)
    requires Printable(events) && Text(races) <= Body(events) && Ending(races) == Some(End(false))
    ensures var reply := ReplyTo(Text(races), Ending(races));
            reply.frames <= Payloads(events) && reply.outcome.Some? && reply.outcome != Some(Returned)
  {
    BodyYieldsPayloads(events);
    CutBodyConsumes(Body(events), Text(races), Payloads(events), Ending(races));
  }

  lemma BodyYieldsPayloads(events: seq<Event>)
    requires Printable(events)
    ensures ConsumeAll(FRESH, Records(Body(events))).frames == Payloads(events)
    ensures |Records(Body(events))| > 0 && Records(Body(events))[0] == ": open"
  {
    BodyIsConsumed(events);
  }

  lemma CutBodyConsumes(body: string, text: string, frames: seq<string>, ending: Option<Read>)
    requires text <= body && |Records(body)| > 0 && Records(body)[0] == ": open"
    requires ConsumeAll(FRESH, Records(body)).frames == frames && ending == Some(End(false))
    ensures ReplyTo(text, ending).frames <= frames
    ensures ReplyTo(text, ending).outcome.Some? && ReplyTo(text, ending).outcome != Some(Returned)
  {
    PrefixConsumes(body, text, body[|text|..]);
  }

  lemma PrefixConsumes(body: string, text: string, more: string)
    requires body == text + more && |Records(body)| > 0 && Records(body)[0] == ": open"
    ensures ConsumeAll(FRESH, Records(text)).frames <= ConsumeAll(FRESH, Records(body)).frames
    ensures ConsumeAll(FRESH, Records(text)).disposition != Empty
  {
    var s, later := ConsumeAll(FRESH, Records(text)), Records(Rest(text) + more);
    RecordsAppend(text, more);
    ConsumeAppend(FRESH, Records(text), later);
    DispositionTellsYields(FRESH, Records(text));
    DispositionTellsYields(s, later);
    PrefixOfBodyIsNotEmpty(text, body, more);
  }

  lemma PrefixOfBodyIsNotEmpty(text: string, body: string, more: string)
    requires |Records(body)| > 0 && Records(body)[0] == ": open"
    requires Records(body) == Records(text) + Records(Rest(text) + more)
    ensures ConsumeAll(FRESH, Records(text)).disposition != Empty
  {
    if Records(text) != [] {
      ConsumesOpen();
      assert Records(text)[0] == ": open";
      DispositionTellsYields(Session(Open, [], None), Records(text)[1..]);
    }
  }
}
