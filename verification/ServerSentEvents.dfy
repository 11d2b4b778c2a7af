/** The chat stream: the backend prints each event as one frame of server-sent events (section
    9.2 of the WHATWG HTML Living Standard, reduced to LF line ends and the fields event and
    data), and the client parses frames out of a buffer fed with arbitrarily cut chunks. */
module ServerSentEvents {

  datatype Event = Event(name: string, data: string)

  // ----- The printer -----

  function Frame(e: Event): string {
    "event: " + e.name + "\ndata: " + e.data + "\n\n"
  }

  function Print(events: seq<Event>): string {
    if events == [] then "" else Frame(events[0]) + Print(events[1..])
  }

  // ----- String operations of the client -----

  /** White space and line terminators removed by String.prototype.trim. */
  predicate IsSpace(c: char) {
    || '\t' <= c <= '\r' || c == ' ' || c == '\U{A0}' || c == '\U{1680}' || '\U{2000}' <= c <= '\U{200A}'
    || c == '\U{2028}' || c == '\U{2029}' || c == '\U{202F}' || c == '\U{205F}' || c == '\U{3000}' || c == '\U{FEFF}'
  }

  function TrimStart(s: string): string {
    if s != "" && IsSpace(s[0]) then TrimStart(s[1..]) else s
  }

  function TrimEnd(s: string): string {
    if s != "" && IsSpace(s[|s| - 1]) then TrimEnd(s[..|s| - 1]) else s
  }

  function Trim(s: string): string {
    TrimEnd(TrimStart(s))
  }

  predicate BreakAt(s: string, i: int) {
    0 <= i && i + 1 < |s| && s[i] == '\n' && s[i + 1] == '\n'
  }

  /** buffer.indexOf of the blank line: the first break, or -1. */
  function FirstBreak(s: string): (i: int)
    ensures i == -1 || BreakAt(s, i)
    ensures i == -1 ==> forall k :: !BreakAt(s, k)
    ensures i >= 0 ==> forall k :: 0 <= k < i ==> !BreakAt(s, k)
  {
    if |s| < 2 then -1
    else if BreakAt(s, 0) then 0
    else
      var rest := s[1..];
      var j := FirstBreak(rest);
      assert forall k :: 0 < k ==> (BreakAt(s, k) <==> BreakAt(rest, k - 1));
      if j < 0 then -1 else j + 1
  }

  /** raw.split on a newline: never empty, pieces free of newlines. */
  function Lines(s: string): (lines: seq<string>)
    ensures lines != []
  {
    if s == "" then [""]
    else
      var rest := Lines(s[1..]);
      if s[0] == '\n' then [""] + rest else [[s[0]] + rest[0]] + rest[1..]
  }

  function Join(values: seq<string>): string {
    if values == [] then ""
    else if |values| == 1 then values[0]
    else Join(values[..|values| - 1]) + "\n" + values[|values| - 1]
  }

  // ----- The meaning of one frame -----

  predicate IsEventLine(line: string) { "event:" <= line }

  predicate IsDataLine(line: string) { !IsEventLine(line) && "data:" <= line }

  /** The last event line names the event. */
  function EventName(lines: seq<string>): string {
    if lines == [] then "message"
    else if IsEventLine(lines[|lines| - 1]) then Trim(lines[|lines| - 1][6..])
    else EventName(lines[..|lines| - 1])
  }

  function DataValues(lines: seq<string>): seq<string> {
    if lines == [] then []
    else
      var last := lines[|lines| - 1];
      DataValues(lines[..|lines| - 1]) + if IsDataLine(last) then [Trim(last[5..])] else []
  }

  function Data(raw: string): string {
    Join(DataValues(Lines(raw)))
  }

  /** A frame without data is skipped. */
  function Received(raw: string): seq<Event> {
    if Data(raw) == "" then [] else [Event(EventName(Lines(raw)), Data(raw))]
  }

  datatype Cutting = Cutting(frames: seq<string>, rest: string)

  /** The complete frames of a text, and the incomplete one after them. */
  function Cut(text: string): Cutting
    decreases |text|
  {
    var i := FirstBreak(text);
    if i < 0 then Cutting([], text)
    else
      var after := Cut(text[i + 2..]);
      Cutting([text[..i]] + after.frames, after.rest)
  }

  /** The events of the frames in order, for any way of receiving one frame. */
  function Deliver(frames: seq<string>, receive: string -> seq<Event>): seq<Event> {
    if frames == [] then [] else Deliver(frames[..|frames| - 1], receive) + receive(frames[|frames| - 1])
  }

  /** The events a text yields. */
  function Parse(text: string): seq<Event> {
    Deliver(Cut(text).frames, Received)
  }

  // ----- The client loop -----

  method ParseFrame(raw: string) returns (event: string, data: string)
    ensures event == EventName(Lines(raw)) && data == Data(raw)
  {
    event := "message";
    var values := [];
    var lines := Lines(raw);
    for i := 0 to |lines|
      invariant event == EventName(lines[..i])
      invariant values == DataValues(lines[..i])
    {
      assert lines[..i + 1][..i] == lines[..i];
      if IsEventLine(lines[i]) {
        event := Trim(lines[i][6..]);
      } else if IsDataLine(lines[i]) {
        values := values + [Trim(lines[i][5..])];
      }
    }
    assert lines[..|lines|] == lines;
    data := Join(values);
  }

  function Concat(chunks: seq<string>): string {
    if chunks == [] then "" else Concat(chunks[..|chunks| - 1]) + chunks[|chunks| - 1]
  }

  method Receive(raw: string) returns (events: seq<Event>)
    ensures events == Received(raw)
  {
    var event, data := ParseFrame(raw);
    events := if data == "" then [] else [Event(event, data)];
  }

  lemma {:induction false} CutStep(text: string, i: nat)
    requires FirstBreak(text) == i
    ensures Cut(text) == Cutting([text[..i]] + Cut(text[i + 2..]).frames, Cut(text[i + 2..]).rest)
  {}

  lemma Regroup(taken: seq<string>, raw: string, more: seq<string>)
    ensures taken + ([raw] + more) == (taken + [raw]) + more
  {}

  /** Takes every complete frame off the buffer. */
  method TakeFrames(start: string) returns (events: seq<Event>, buffer: string)
    ensures events == Parse(start) && buffer == Cut(start).rest
  {
    events, buffer := [], start;
    ghost var taken := [];
    var sep := FirstBreak(buffer);
    while sep >= 0
      invariant sep == FirstBreak(buffer)
      invariant Cut(buffer).rest == Cut(start).rest
      invariant taken + Cut(buffer).frames == Cut(start).frames
      invariant events == Deliver(taken, Received)
      decreases |buffer|
    {
      var raw := buffer[..sep];
      var got := Receive(raw);
      CutStep(buffer, sep);
      Regroup(taken, raw, Cut(buffer[sep + 2..]).frames);
      DeliverOne(taken, raw, Received);
      events, buffer, taken := events + got, buffer[sep + 2..], taken + [raw];
      sep := FirstBreak(buffer);
    }
    assert taken + [] == taken;
  }

  lemma {:induction false} DeliverOne(frames: seq<string>, raw: string, receive: string -> seq<Event>)
    ensures Deliver(frames + [raw], receive) == Deliver(frames, receive) + receive(raw)
  {}

  lemma {:induction false} DeliverAppend(a: seq<string>, b: seq<string>, receive: string -> seq<Event>)
    ensures Deliver(a + b, receive) == Deliver(a, receive) + Deliver(b, receive)
  {
    if b == [] {
      assert a + b == a;
    } else {
      var init, last := b[..|b| - 1], b[|b| - 1];
      assert a + b == (a + init) + [last];
      DeliverOne(a + init, last, receive);
      DeliverAppend(a, init, receive);
    }
  }

  /** The read loop of chatStream. Its result is a function of the concatenated text alone: how
      the text was cut into chunks cannot be observed. */
  method ReadStream(chunks: seq<string>) returns (events: seq<Event>, buffer: string)
    ensures events == Parse(Concat(chunks)) && buffer == Cut(Concat(chunks)).rest
  {
    events, buffer := [], "";
    for n := 0 to |chunks|
      invariant events == Parse(Concat(chunks[..n])) && buffer == Cut(Concat(chunks[..n])).rest
    {
      var seen := Concat(chunks[..n]);
      assert chunks[..n + 1][..n] == chunks[..n];
      CutAppend(seen, chunks[n]);
      DeliverAppend(Cut(seen).frames, Cut(buffer + chunks[n]).frames, Received);
      var more, rest := TakeFrames(buffer + chunks[n]);
      events, buffer := events + more, rest;
    }
    assert chunks[..|chunks|] == chunks;
  }

  lemma {:induction false} FirstBreakAppend(a: string, b: string)
    requires FirstBreak(a) >= 0
    ensures FirstBreak(a + b) == FirstBreak(a)
  {
    var i, j := FirstBreak(a), FirstBreak(a + b);
    assert BreakAt(a + b, i);
    assert j < i ==> BreakAt(a, j);
  }

  /** Cutting a longer text continues where cutting the shorter one stopped. */
  lemma {:induction false} CutAppend(a: string, b: string)
    ensures Cut(a + b).frames == Cut(a).frames + Cut(Cut(a).rest + b).frames
    ensures Cut(a + b).rest == Cut(Cut(a).rest + b).rest
    decreases |a|
  {
    var i := FirstBreak(a);
    if i >= 0 {
      FirstBreakAppend(a, b);
      assert (a + b)[..i] == a[..i];
      assert (a + b)[i + 2..] == a[i + 2..] + b;
      CutStep(a, i);
      CutStep(a + b, i);
      CutAppend(a[i + 2..], b);
      var rest := Cut(a[i + 2..]);
      assert [a[..i]] + (rest.frames + Cut(rest.rest + b).frames) ==
          ([a[..i]] + rest.frames) + Cut(rest.rest + b).frames;
    }
  }

  // ----- Round trip -----

  /** What an event needs to survive: no newline, no white space at the edges, some data. */
  ghost predicate Clean(e: Event) {
    '\n' !in e.name && '\n' !in e.data && Trim(e.name) == e.name && Trim(e.data) == e.data && e.data != ""
  }

  lemma {:induction false} LinesOfPlain(s: string)
    requires '\n' !in s
    ensures Lines(s) == [s]
  {
    if s != "" {
      LinesOfPlain(s[1..]);
      assert [s[0]] + s[1..] == s;
    }
  }

  lemma {:induction false} LinesSplit(a: string, b: string)
    requires '\n' !in a
    ensures Lines(a + "\n" + b) == [a] + Lines(b)
  {
    if a == "" {
      assert a + "\n" + b == "\n" + b;
      assert ("\n" + b)[1..] == b;
    } else {
      assert (a + "\n" + b)[1..] == a[1..] + "\n" + b;
      LinesSplit(a[1..], b);
      assert [a[0]] + a[1..] == a;
    }
  }

  lemma {:induction false} TrimLeadingSpace(s: string)
    ensures Trim(" " + s) == Trim(s)
  {}

  /** The text of a frame up to its break. */
  function Body(name: string, data: string): string {
    "event: " + name + "\n" + ("data: " + data)
  }

  lemma {:induction false} BodyLines(name: string, data: string)
    requires '\n' !in name
    ensures Lines(Body(name, data)) == ["event: " + name] + Lines("data: " + data)
  {
    LinesSplit("event: " + name, "data: " + data);
  }

  lemma ReceivedBody(e: Event)
    requires Clean(e)
    ensures Received(Body(e.name, e.data)) == [e]
  {
    var first, second := "event: " + e.name, "data: " + e.data;
    BodyLines(e.name, e.data);
    LinesOfPlain(second);
    assert first[6..] == " " + e.name && second[5..] == " " + e.data;
    TrimLeadingSpace(e.name);
    TrimLeadingSpace(e.data);
    var lines := [first, second];
    assert lines[..1] == [first] && [first][..0] == [];
    assert second[0] == 'd' && !IsEventLine(second) && IsEventLine(first);
    assert DataValues([first]) == [] && DataValues(lines) == [e.data];
    assert EventName([first]) == e.name;
    assert Lines(Body(e.name, e.data)) == lines;
  }

  /** The first break of a frame is the first break of its payload and the blank line after it. */
  lemma {:induction false} FrameBreak(e: Event, rest: string)
    requires '\n' !in e.name
    ensures FirstBreak(Frame(e) + rest) == 14 + |e.name| + FirstBreak(e.data + "\n\n" + rest)
  {
    var s, t := Frame(e) + rest, e.data + "\n\n" + rest;
    var n := 14 + |e.name|;
    assert s == ("event: " + e.name + "\n" + "data: ") + t;
    assert forall k :: 0 <= k ==> (BreakAt(s, n + k) <==> BreakAt(t, k));
    forall k | 0 <= k < n ensures !BreakAt(s, k) {
      if k < 7 {
        assert s[k] == "event: "[k];
      } else if k < 7 + |e.name| {
        assert s[k] == e.name[k - 7];
      } else if k == 7 + |e.name| {
        assert s[k + 1] == 'd';
      } else {
        assert s[k] == "data: "[k - 8 - |e.name|];
      }
    }
    assert BreakAt(t, |e.data|);
    var i, j := FirstBreak(s), FirstBreak(t);
    assert BreakAt(s, n + j);
    assert BreakAt(t, i - n);
  }

  lemma {:induction false} PlainBreak(data: string, rest: string)
    requires '\n' !in data
    ensures FirstBreak(data + "\n\n" + rest) == |data|
  {
    var t := data + "\n\n" + rest;
    assert BreakAt(t, |data|);
    forall k | 0 <= k < |data| ensures !BreakAt(t, k) {
      assert t[k] == data[k];
    }
  }

  lemma {:induction false} CutFrame(e: Event, rest: string)
    requires '\n' !in e.name && '\n' !in e.data
    ensures Cut(Frame(e) + rest) == Cutting([Body(e.name, e.data)] + Cut(rest).frames, Cut(rest).rest)
  {
    FrameBreak(e, rest);
    PlainBreak(e.data, rest);
    var s, n := Frame(e) + rest, |Body(e.name, e.data)|;
    assert Frame(e) == Body(e.name, e.data) + "\n\n";
    assert s[..n] == Body(e.name, e.data);
    assert s[n + 2..] == rest;
  }

  lemma {:induction false} ParseFirstFrame(e: Event, text: string)
    requires Clean(e)
    ensures Parse(Frame(e) + text) == [e] + Parse(text) && Cut(Frame(e) + text).rest == Cut(text).rest
  {
    var body := Body(e.name, e.data);
    CutFrame(e, text);
    ReceivedBody(e);
    DeliverAppend([body], Cut(text).frames, Received);
    DeliverOne([], body, Received);
    assert [] + [body] == [body];
  }

  lemma {:induction false} ParsePrinted(events: seq<Event>)
    requires forall e :: e in events ==> Clean(e)
    ensures Parse(Print(events)) == events && Cut(Print(events)).rest == ""
  {
    if events != [] {
      assert Clean(events[0]);
      ParseFirstFrame(events[0], Print(events[1..]));
      ParsePrinted(events[1..]);
      assert [events[0]] + events[1..] == events;
    }
  }

  /** Whatever the network does to the cutting of a printed list of clean events, the client
      recovers exactly that list and keeps nothing in its buffer. */
  lemma {:induction false} RoundTrip(events: seq<Event>, chunks: seq<string>)
    requires forall e :: e in events ==> Clean(e)
    requires Concat(chunks) == Print(events)
    ensures Parse(Concat(chunks)) == events && Cut(Concat(chunks)).rest == ""
  {
    ParsePrinted(events);
  }
}
