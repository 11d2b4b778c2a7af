/** Which lists of events survive the stream: exactly those of clean events. */
module StreamExactness {
  import opened ServerSentEvents

  // ----- Trimming -----

  lemma {:induction false} TrimStartFacts(s: string)
    ensures |TrimStart(s)| <= |s| && (forall c :: c in TrimStart(s) ==> c in s)
    ensures TrimStart(s) == "" || !IsSpace(TrimStart(s)[0])
  {
    if s != "" && IsSpace(s[0]) { TrimStartFacts(s[1..]); }
  }

  lemma {:induction false} TrimEndFacts(s: string)
    ensures TrimEnd(s) <= s
    ensures TrimEnd(s) == "" || !IsSpace(TrimEnd(s)[|TrimEnd(s)| - 1])
  {
    if s != "" && IsSpace(s[|s| - 1]) { TrimEndFacts(s[..|s| - 1]); }
  }

  lemma {:induction false} TrimFacts(s: string)
    ensures Trim(Trim(s)) == Trim(s) && |Trim(s)| <= |s|
    ensures '\n' !in s ==> '\n' !in Trim(s)
  {
    TrimStartFacts(s);
    TrimEndFacts(TrimStart(s));
  }

  /** The code points of white space and line terminators in ECMAScript, and no others. */
  lemma {:induction false} SpaceMeaning(c: char)
    ensures IsSpace(c) <==>
            var code := c as int;
            || 0x9 <= code <= 0xD || code == 0x20 || code == 0xA0 || code == 0x1680 || 0x2000 <= code <= 0x200A
            || code == 0x2028 || code == 0x2029 || code == 0x202F || code == 0x205F || code == 0x3000 || code == 0xFEFF
  {}

  /** Trimming takes off white space at both ends, and all of it. */
  lemma {:induction false} TrimMeaning(s: string) returns (before: string, after: string)
    ensures s == before + Trim(s) + after
    ensures (forall c :: c in before ==> IsSpace(c)) && (forall c :: c in after ==> IsSpace(c))
    ensures Trim(s) != "" ==> !IsSpace(Trim(s)[0]) && !IsSpace(Trim(s)[|Trim(s)| - 1])
  {
    before := Lead(s);
    after := Tail(TrimStart(s));
    TrimStartFacts(s);
    TrimEndFacts(TrimStart(s));
    assert before + Trim(s) + after == before + (Trim(s) + after);
  }

  lemma {:induction false} Lead(s: string) returns (before: string)
    ensures s == before + TrimStart(s) && forall c :: c in before ==> IsSpace(c)
  {
    before := "";
    if s != "" && IsSpace(s[0]) {
      before := Lead(s[1..]);
      before := [s[0]] + before;
      assert s == [s[0]] + s[1..];
    }
  }

  lemma {:induction false} Tail(s: string) returns (after: string)
    ensures s == TrimEnd(s) + after && forall c :: c in after ==> IsSpace(c)
  {
    after := "";
    if s != "" && IsSpace(s[|s| - 1]) {
      after := Tail(s[..|s| - 1]);
      after := after + [s[|s| - 1]];
      assert s == s[..|s| - 1] + [s[|s| - 1]];
    }
  }

  predicate Visible(c: char) {
    '!' <= c <= '~'
  }

  lemma {:induction false} TrimKeepsVisibleEdges(s: string)
    requires s != "" ==> Visible(s[0]) && Visible(s[|s| - 1])
    ensures Trim(s) == s
  {}

  /** Every event as the backend prints it is clean: one line of JSON, which begins and ends with a
      visible character, under a name that does. */
  lemma {:induction false} OrdinaryEventsAreClean(e: Event)
    requires '\n' !in e.name && '\n' !in e.data && e.data != "" && Visible(e.data[0]) && Visible(e.data[|e.data| - 1])
    requires e.name != "" ==> Visible(e.name[0]) && Visible(e.name[|e.name| - 1])
    ensures Clean(e)
  {
    TrimKeepsVisibleEdges(e.name);
    TrimKeepsVisibleEdges(e.data);
  }

  // ----- What a received event looks like -----

  lemma {:induction false} LinesAreWhole(s: string)
    ensures forall l :: l in Lines(s) ==> '\n' !in l
  {
    if s != "" { LinesAreWhole(s[1..]); }
  }

  lemma {:induction false} EventNameTrimmed(lines: seq<string>)
    requires forall l :: l in lines ==> '\n' !in l
    ensures '\n' !in EventName(lines) && Trim(EventName(lines)) == EventName(lines)
  {
    if lines != [] {
      var last := lines[|lines| - 1];
      if IsEventLine(last) {
        assert last in lines && forall c :: c in last[6..] ==> c in last;
        TrimFacts(last[6..]);
      } else {
        EventNameTrimmed(lines[..|lines| - 1]);
      }
    }
  }

  lemma {:induction false} DeliveredFrom(frames: seq<string>, receive: string -> seq<Event>, e: Event)
    returns (raw: string)
    requires e in Deliver(frames, receive)
    ensures raw in frames && e in receive(raw)
  {
    raw := frames[|frames| - 1];
    if e !in receive(raw) {
      raw := DeliveredFrom(frames[..|frames| - 1], receive, e);
    }
  }

  /** Splitting is undone by joining, and joining pieces without line ends by splitting. */
  lemma {:induction false} JoinLines(s: string)
    ensures Join(Lines(s)) == s
  {
    if s != "" {
      JoinLines(s[1..]);
      var rest := Lines(s[1..]);
      assert s == [s[0]] + s[1..];
      if s[0] == '\n' { JoinCons("", rest); } else { JoinHead(s[0], rest); }
    }
  }

  lemma {:induction false} JoinHead(c: char, lines: seq<string>)
    requires lines != []
    ensures Join([[c] + lines[0]] + lines[1..]) == [c] + Join(lines)
  {
    if |lines| > 1 {
      assert lines == [lines[0]] + lines[1..];
      JoinCons(lines[0], lines[1..]);
      JoinCons([c] + lines[0], lines[1..]);
    }
  }

  lemma {:induction false} JoinCons(line: string, lines: seq<string>)
    requires lines != []
    ensures Join([line] + lines) == line + "\n" + Join(lines)
  {
    var all, n := [line] + lines, |lines|;
    if n == 1 {
      assert all[..1] == [line];
    } else {
      assert all[..n] == [line] + lines[..n - 1];
      JoinCons(line, lines[..n - 1]);
    }
  }

  lemma {:induction false} LinesJoin(values: seq<string>)
    requires values != [] && forall v :: v in values ==> '\n' !in v
    ensures Lines(Join(values)) == values
  {
    if |values| == 1 {
      LinesOfPlain(values[0]);
    } else {
      var rest := values[1..];
      assert values == [values[0]] + rest;
      JoinCons(values[0], rest);
      LinesSplit(values[0], Join(rest));
      LinesJoin(rest);
    }
  }

  /** How a line is told apart: by its first six characters, or by its first five. */
  lemma {:induction false} LineKinds(line: string)
    ensures IsEventLine(line) <==> |line| >= 6 && line[..6] == "event:"
    ensures IsDataLine(line) <==> |line| >= 5 && line[..5] == "data:"
  {
    if IsEventLine(line) && |line| >= 5 { assert line[0] == 'e'; }
  }

  // ----- Counting characters -----

  /** Characters of the lines, each with its line end. */
  function Weight(lines: seq<string>): nat {
    if lines == [] then 0 else Weight(lines[..|lines| - 1]) + |lines[|lines| - 1]| + 1
  }

  lemma {:induction false} WeightCons(line: string, lines: seq<string>)
    ensures Weight([line] + lines) == |line| + 1 + Weight(lines)
  {
    if lines == [] {
      assert [line] + lines == [line] && [line][..0] == [];
    } else {
      var init := lines[..|lines| - 1];
      assert ([line] + lines)[..|lines|] == [line] + init;
      WeightCons(line, init);
    }
  }

  lemma {:induction false} WeightOfLines(s: string)
    ensures Weight(Lines(s)) == |s| + 1
  {
    if s == "" {
      WeightCons("", []);
      assert [""] + [] == [""];
    } else {
      var rest := Lines(s[1..]);
      WeightOfLines(s[1..]);
      WeightCons("", rest);
      assert [rest[0]] + rest[1..] == rest;
      WeightCons(rest[0], rest[1..]);
      WeightCons([s[0]] + rest[0], rest[1..]);
    }
  }

  lemma {:induction false} JoinWeight(values: seq<string>)
    requires values != []
    ensures |Join(values)| + 1 == Weight(values)
  {
    if |values| == 1 {
      assert values[..0] == [];
    } else {
      JoinWeight(values[..|values| - 1]);
    }
  }

  /** Every data line gives up at least its five characters of field name. */
  lemma {:induction false} DataWeight(lines: seq<string>)
    ensures Weight(DataValues(lines)) + 5 * |DataValues(lines)| <= Weight(lines)
  {
    if lines != [] {
      var init, last := lines[..|lines| - 1], lines[|lines| - 1];
      DataWeight(init);
      if IsDataLine(last) {
        TrimFacts(last[5..]);
        assert DataValues(lines)[..|DataValues(init)|] == DataValues(init);
      } else {
        assert DataValues(lines) == DataValues(init);
      }
    }
  }

  lemma {:induction false} DataValuesCons(line: string, lines: seq<string>)
    ensures DataValues([line] + lines) == DataValues([line]) + DataValues(lines)
  {
    if lines == [] {
      assert [line] + lines == [line];
    } else {
      var init := lines[..|lines| - 1];
      assert ([line] + lines)[..|lines|] == [line] + init;
      DataValuesCons(line, init);
    }
  }

  lemma {:induction false} DataShorter(raw: string)
    ensures Data(raw) == "" || |Data(raw)| + 5 <= |raw|
  {
    DataWeight(Lines(raw));
    WeightOfLines(raw);
    if DataValues(Lines(raw)) != [] { JoinWeight(DataValues(Lines(raw))); }
  }

  lemma {:induction false} DataOfFirstLines(name: string, first: string, lines: seq<string>)
    ensures DataValues(["event: " + name, "data: " + first] + lines) == [Trim(first)] + DataValues(lines)
  {
    var a, b := "event: " + name, "data: " + first;
    assert [a, b] + lines == [a] + ([b] + lines);
    DataValuesCons(a, [b] + lines);
    DataValuesCons(b, lines);
    assert [a][..0] == [] && [b][..0] == [];
    assert IsEventLine(a) && b[0] == 'd' && IsDataLine(b);
    assert b[5..] == " " + first;
    TrimLeadingSpace(first);
  }

  lemma {:induction false} SplitAtNewline(s: string) returns (first: string, rest: string)
    requires '\n' in s
    ensures s == first + "\n" + rest && '\n' !in first
  {
    if s[0] == '\n' {
      first, rest := "", s[1..];
    } else {
      first, rest := SplitAtNewline(s[1..]);
      first := [s[0]] + first;
    }
  }

  /** A payload printed after its field name comes back no longer than it was, and shorter when a
      newline cut it into several lines. */
  lemma {:induction false} BodyDataBound(name: string, data: string)
    requires '\n' !in name
    ensures |Data(Body(name, data))| <= |data|
    ensures '\n' in data ==> |Data(Body(name, data))| < |data|
    ensures '\n' !in data ==> Data(Body(name, data)) == Trim(data)
  {
    BodyLines(name, data);
    if '\n' in data {
      var first, rest := SplitAtNewline(data);
      assert "data: " + data == ("data: " + first) + "\n" + rest;
      LinesSplit("data: " + first, rest);
      var lines := Lines(rest);
      assert ["event: " + name] + (["data: " + first] + lines) == ["event: " + name, "data: " + first] + lines;
      DataOfFirstLines(name, first, lines);
      TrimFacts(first);
      WeightCons(Trim(first), DataValues(lines));
      JoinWeight([Trim(first)] + DataValues(lines));
      DataWeight(lines);
      WeightOfLines(rest);
      if DataValues(lines) == [] { assert Weight([]) == 0; }
    } else {
      LinesOfPlain("data: " + data);
      assert ["event: " + name] + ["data: " + data] == ["event: " + name, "data: " + data] + [];
      DataOfFirstLines(name, data, []);
      TrimFacts(data);
    }
  }

  // ----- Lists of events -----

  function Mass(events: seq<Event>): nat {
    if events == [] then 0 else Mass(events[..|events| - 1]) + |events[|events| - 1].data|
  }

  lemma {:induction false} MassAppend(a: seq<Event>, b: seq<Event>)
    ensures Mass(a + b) == Mass(a) + Mass(b)
  {
    if b == [] {
      assert a + b == a;
    } else {
      var init := b[..|b| - 1];
      assert (a + b)[..|a + b| - 1] == a + init;
      MassAppend(a, init);
    }
  }

  lemma {:induction false} MassOfFrame(raw: string)
    ensures Mass(Received(raw)) == |Data(raw)|
  {
    var got := Received(raw);
    if got != [] { assert got[..0] == []; }
  }

  lemma {:induction false} DeliverCons(raw: string, more: seq<string>, receive: string -> seq<Event>)
    ensures Deliver([raw] + more, receive) == receive(raw) + Deliver(more, receive)
  {
    DeliverAppend([raw], more, receive);
    DeliverOne([], raw, receive);
    assert [] + [raw] == [raw];
  }

  lemma {:induction false} ParseStep(text: string, i: nat)
    requires FirstBreak(text) == i
    ensures Parse(text) == Received(text[..i]) + Parse(text[i + 2..])
  {
    CutStep(text, i);
    DeliverCons(text[..i], Cut(text[i + 2..]).frames, Received);
  }

  lemma {:induction false} ParseAppend(a: string, b: string)
    ensures Parse(a + b) == Parse(a) + Parse(Cut(a).rest + b)
  {
    CutAppend(a, b);
    DeliverAppend(Cut(a).frames, Cut(Cut(a).rest + b).frames, Received);
  }

  /** A text yields less data than it has characters. */
  lemma {:induction false} MassOfText(text: string)
    ensures Mass(Parse(text)) <= |text| && (text != "" ==> Mass(Parse(text)) < |text|)
    decreases |text|
  {
    var i := FirstBreak(text);
    if i >= 0 {
      ParseStep(text, i);
      MassAppend(Received(text[..i]), Parse(text[i + 2..]));
      MassOfFrame(text[..i]);
      DataShorter(text[..i]);
      MassOfText(text[i + 2..]);
    }
  }

  /** Nothing, or the single newline a payload ending in one leaves in the buffer. */
  predicate Leftover(x: string) {
    x == "" || x == "\n"
  }

  ghost predicate EndsIn(text: string, rest: string) {
    |rest| <= |text| && text[|text| - |rest|..] == rest
  }

  lemma {:induction false} CutRest(text: string)
    ensures EndsIn(text, Cut(text).rest) && FirstBreak(Cut(text).rest) < 0
    decreases |text|
  {
    var i := FirstBreak(text);
    if i >= 0 {
      CutStep(text, i);
      CutRest(text[i + 2..]);
      EndOfEnd(text, i + 2, Cut(text[i + 2..]).rest);
    }
  }

  lemma {:induction false} EndOfEnd(text: string, n: nat, rest: string)
    requires n <= |text| && EndsIn(text[n..], rest)
    ensures EndsIn(text, rest)
  {
    assert text[n..][|text| - n - |rest|..] == text[|text| - |rest|..];
  }

  lemma {:induction false} FrameLeavesLittle(x: string, e: Event)
    ensures Leftover(Cut(x + Frame(e)).rest)
  {
    CutRest(x + Frame(e));
    assert (x + Frame(e))[|x + Frame(e)| - 2..] == "\n\n";
    BreakFreeEnd(x + Frame(e), Cut(x + Frame(e)).rest);
  }

  /** The end of a text that closes with a blank line is short if it has none. */
  lemma {:induction false} BreakFreeEnd(text: string, rest: string)
    requires |text| >= 2 && text[|text| - 2] == '\n' && text[|text| - 1] == '\n'
    requires EndsIn(text, rest) && FirstBreak(rest) < 0
    ensures Leftover(rest)
  {
    var n := |text| - |rest|;
    if |rest| >= 2 {
      assert rest[|rest| - 2] == text[n..][|rest| - 2] && rest[|rest| - 1] == text[n..][|rest| - 1];
      assert BreakAt(rest, |rest| - 2);
    } else if |rest| == 1 {
      assert rest[0] == text[n..][0];
    }
  }

  lemma {:induction false} LeftoverIsIgnored(x: string, body: string)
    requires Leftover(x)
    ensures Data(x + body) == Data(body)
  {
    if x == "\n" {
      LinesSplit("", body);
      assert "" + "\n" + body == x + body;
      DataValuesCons("", Lines(body));
      assert [""][..0] == [];
      assert DataValues([""]) == [];
      assert [] + DataValues(Lines(body)) == DataValues(Lines(body));
    } else {
      assert x + body == body;
    }
  }

  lemma {:induction false} LeftoverBreak(x: string, text: string)
    requires Leftover(x) && text != "" && text[0] != '\n' && FirstBreak(text) >= 0
    ensures FirstBreak(x + text) == |x| + FirstBreak(text)
  {
    var i, j := FirstBreak(text), FirstBreak(x + text);
    assert forall k :: 0 <= k ==> (BreakAt(x + text, |x| + k) <==> BreakAt(text, k));
    assert BreakAt(x + text, |x| + i);
    assert j >= |x| ==> BreakAt(text, j - |x|);
  }

  /** The first frame cut out of a printed event is its body with the payload up to its first
      break; what follows lies in the payload. */
  lemma {:induction false} FirstFrameOf(x: string, e: Event) returns (p: string, n: nat)
    requires Leftover(x) && '\n' !in e.name
    ensures FirstBreak(x + Frame(e)) == n && (x + Frame(e))[..n] == x + Body(e.name, p)
    ensures |p| <= |e.data| && p == e.data[..|p|] && n == |x| + 14 + |e.name| + |p|
  {
    var frame, t := Frame(e), e.data + "\n\n";
    assert frame + "" == frame && t + "" == t;
    FrameBreak(e, "");
    assert BreakAt(t, |e.data|);
    LeftoverBreak(x, frame);
    p, n := e.data[..FirstBreak(t)], FirstBreak(x + frame);
    FramePrefix(e, p);
    assert (x + frame)[..n] == x + frame[..n - |x|];
  }

  lemma {:induction false} FramePrefix(e: Event, p: string)
    requires |p| <= |e.data| && p == e.data[..|p|]
    ensures |Frame(e)| == 16 + |e.name| + |e.data| && Frame(e)[..14 + |e.name| + |p|] == Body(e.name, p)
  {
    assert Frame(e) == Body(e.name, e.data) + "\n\n";
  }

  lemma {:induction false} ParsePrintedEvent(x: string, e: Event) returns (p: string, rest: string)
    requires Leftover(x) && '\n' !in e.name
    ensures Parse(x + Frame(e)) == Received(x + Body(e.name, p)) + Parse(rest)
    ensures |p| + |rest| == |e.data| && (rest == "" ==> p == e.data)
  {
    var n;
    p, n := FirstFrameOf(x, e);
    ParseStep(x + Frame(e), n);
    rest := (x + Frame(e))[n + 2..];
    assert |Frame(e)| == 16 + |e.name| + |e.data|;
  }

  /** What one printed event contributes, whatever was left before it: no more data than it has, and
      as much only when its payload is one trimmed line. */
  lemma {:induction false} MassOfPrinted(x: string, e: Event)
    requires Leftover(x) && '\n' !in e.name
    ensures Mass(Parse(x + Frame(e))) <= |e.data|
    ensures Mass(Parse(x + Frame(e))) == |e.data| ==> '\n' !in e.data && Trim(e.data) == e.data
  {
    var p, rest := ParsePrintedEvent(x, e);
    MassAppend(Received(x + Body(e.name, p)), Parse(rest));
    MassOfFrame(x + Body(e.name, p));
    LeftoverIsIgnored(x, Body(e.name, p));
    BodyDataBound(e.name, p);
    MassOfText(rest);
    TrimKeepsLength(e.data);
  }

  lemma {:induction false} TrimKeepsLength(s: string)
    ensures |Trim(s)| == |s| ==> Trim(s) == s
  {
    TrimStartFacts(s);
    TrimEndFacts(TrimStart(s));
    if s != "" && IsSpace(s[0]) { TrimStartFacts(s[1..]); }
  }

  /** Printed events one after the other yield no more data than they have, and as much only if each
      payload is one trimmed line. */
  lemma {:induction false} MassOfList(x: string, events: seq<Event>)
    requires Leftover(x) && forall e :: e in events ==> '\n' !in e.name
    ensures Mass(Parse(x + Print(events))) <= Mass(events)
    ensures Mass(Parse(x + Print(events))) == Mass(events) ==>
              forall e :: e in events ==> '\n' !in e.data && Trim(e.data) == e.data
    decreases |events|
  {
    if events == [] {
      assert x + Print(events) == x;
      LeftoverYieldsNothing(x);
    } else {
      var e, more := events[0], events[1..];
      var y := MassOfFirst(x, e, Print(more));
      assert x + Print(events) == x + (Frame(e) + Print(more));
      MassOfPrinted(x, e);
      MassOfList(y, more);
      MassCons(events);
      assert forall e' :: e' in events <==> e' == e || e' in more;
    }
  }

  lemma {:induction false} LeftoverYieldsNothing(x: string)
    requires Leftover(x)
    ensures Mass(Parse(x)) == 0
  {
    assert FirstBreak(x) < 0;
    assert Cut(x).frames == [];
  }

  lemma {:induction false} MassOfFirst(x: string, e: Event, later: string) returns (y: string)
    ensures Leftover(y) && Mass(Parse(x + (Frame(e) + later))) == Mass(Parse(x + Frame(e))) + Mass(Parse(y + later))
  {
    var text := x + Frame(e);
    y := Cut(text).rest;
    assert x + (Frame(e) + later) == text + later;
    ParseAppend(text, later);
    FrameLeavesLittle(x, e);
    MassAppend(Parse(text), Parse(y + later));
  }

  lemma {:induction false} MassCons(events: seq<Event>)
    requires events != []
    ensures Mass(events) == |events[0].data| + Mass(events[1..])
  {
    var first := [events[0]];
    assert first + events[1..] == events && first[..0] == [];
    MassAppend(first, events[1..]);
  }

  lemma {:induction false} DeliveredLooks(events: seq<Event>, text: string, e: Event)
    requires Parse(text) == events && e in events
    ensures '\n' !in e.name && Trim(e.name) == e.name && e.data != ""
  {
    var raw := DeliveredFrom(Cut(text).frames, Received, e);
    LinesAreWhole(raw);
    EventNameTrimmed(Lines(raw));
  }

  /** A printed list of events is recovered as itself, however it is cut into chunks, exactly when
      every one of them is clean. */
  lemma {:induction false} ListSurvivesIffClean(events: seq<Event>, chunks: seq<string>)
    requires Concat(chunks) == Print(events)
    ensures Parse(Concat(chunks)) == events && Cut(Concat(chunks)).rest == "" <==> forall e :: e in events ==> Clean(e)
  {
    if forall e :: e in events ==> Clean(e) {
      ParsePrinted(events);
    }
    if Parse(Print(events)) == events {
      forall e | e in events ensures '\n' !in e.name && Trim(e.name) == e.name && e.data != "" {
        DeliveredLooks(events, Print(events), e);
      }
      MassOfList("", events);
      assert "" + Print(events) == Print(events);
    }
  }
}
