/**
 The failure log: one JSON object a line in an append-only file, read back with a
 source filter and a limit. The JSON codec is a parameter.
 */
module FailureLog {
  import opened Options

  datatype Detail = Text(text: string) | Number(number: int)

  type Details = map<string, Detail>

  datatype FailureEvent = FailureEvent(source: string, event: string, details: Details, timestamp: string)

  /** The keys of a decoded object that the log looks at; each may be missing. */
  datatype Fields = Fields(
    timestamp: Option<string>, source: Option<string>, event: Option<string>, details: Option<Details>)

  /** What decoding a line can give: no JSON, JSON that is no object, or an object. */
  datatype Json = Malformed | NotAnObject | Object(fields: Fields)

  datatype Codec = Codec(encode: Fields -> string, decode: string -> Json)

  function ToDict(e: FailureEvent): Fields {
    Fields(Some(e.timestamp), Some(e.source), Some(e.event), Some(e.details))
  }

  function FromDict(d: Fields): FailureEvent {
    FailureEvent(d.source.GetOr("unknown"), d.event.GetOr("unknown"), d.details.GetOr(map[]),
                 d.timestamp.GetOr(""))
  }

  // ----- Lines -----

  /** Where reading in text mode ends a line. */
  predicate IsBreak(c: char) {
    c == '\n' || c == '\r'
  }

  predicate IsSpace(c: char) {
    var code := c as int;
    || 0x09 <= code <= 0x0d || 0x1c <= code <= 0x20 || code == 0x85 || code == 0xa0
    || code == 0x1680 || 0x2000 <= code <= 0x200a || code == 0x2028 || code == 0x2029
    || code == 0x202f || code == 0x205f || code == 0x3000
  }

  function StripLeft(s: string): string {
    if s != "" && IsSpace(s[0]) then StripLeft(s[1..]) else s
  }

  function StripRight(s: string): string {
    if s != "" && IsSpace(s[|s| - 1]) then StripRight(s[..|s| - 1]) else s
  }

  function Strip(s: string): string {
    StripRight(StripLeft(s))
  }

  /** The pieces between line breaks; text ending in a break leaves an empty last piece. */
  function Lines(text: string): (lines: seq<string>)
    ensures lines != []
  {
    if text == "" then [""]
    else
      var rest := Lines(text[1..]);
      if IsBreak(text[0]) then [""] + rest else [[text[0]] + rest[0]] + rest[1..]
  }

  /** The line breaks of a text, in order. */
  function Breaks(text: string): seq<char> {
    if text == "" then []
    else (if text[0] == '\n' || text[0] == '\r' then [text[0]] else []) + Breaks(text[1..])
  }

  /** Lines with the breaks put back between them. */
  function Woven(lines: seq<string>, breaks: seq<char>): string
    requires |lines| == |breaks| + 1
  {
    if breaks == [] then lines[0] else lines[0] + [breaks[0]] + Woven(lines[1..], breaks[1..])
  }

  lemma {:induction false} LinesWoven(text: string)
    ensures |Lines(text)| == |Breaks(text)| + 1 && Woven(Lines(text), Breaks(text)) == text
  {
    if text != "" {
      LinesWoven(text[1..]);
      var (rest, breaks) := (Lines(text[1..]), Breaks(text[1..]));
      var first := [text[0]];
      assert text == first + text[1..];
      if IsBreak(text[0]) {
        assert Lines(text)[1..] == rest && Breaks(text)[1..] == breaks;
      } else {
        assert Lines(text) == [first + rest[0]] + rest[1..] && Lines(text)[1..] == rest[1..];
        assert Breaks(text) == breaks;
        assert breaks != [] ==>
            first + rest[0] + [breaks[0]] + Woven(rest[1..], breaks[1..])
            == first + (rest[0] + [breaks[0]] + Woven(rest[1..], breaks[1..]));
      }
    }
  }

  lemma {:induction false} LinesHoldNoBreak(text: string, k: nat)
    requires k < |Lines(text)|
    ensures '\n' !in Lines(text)[k] && '\r' !in Lines(text)[k]
  {
    if text != "" {
      var rest := Lines(text[1..]);
      if IsBreak(text[0]) {
        if k > 0 {
          LinesHoldNoBreak(text[1..], k - 1);
        }
      } else {
        LinesHoldNoBreak(text[1..], k);
        assert Lines(text)[k] == if k == 0 then [text[0]] + rest[0] else rest[k];
      }
    }
  }

  /** The lines are what lies between the breaks: nothing is lost and no break is left in one. */
  lemma {:induction false} LinesAreBetweenBreaks(text: string)
    ensures |Lines(text)| == |Breaks(text)| + 1 && Woven(Lines(text), Breaks(text)) == text
    ensures forall k | 0 <= k < |Lines(text)| :: '\n' !in Lines(text)[k] && '\r' !in Lines(text)[k]
  {
    LinesWoven(text);
    forall k | 0 <= k < |Lines(text)| ensures '\n' !in Lines(text)[k] && '\r' !in Lines(text)[k] {
      LinesHoldNoBreak(text, k);
    }
  }

  /** Stripping cuts off white space at both ends, all of it and nothing else. */
  lemma {:induction false} StripCutsSpace(s: string) returns (i: nat, j: nat)
    ensures i <= j <= |s| && Strip(s) == s[i..j]
    ensures forall k | 0 <= k < |s| && !(i <= k < j) :: IsSpace(s[k])
    ensures Strip(s) != "" ==> !IsSpace(Strip(s)[0]) && !IsSpace(Strip(s)[j - i - 1])
  {
    hide IsSpace, StripLeft, StripRight;
    i := StripLeftCuts(s);
    var left := s[i..];
    var n := StripRightCuts(left);
    j := i + n;
    assert left[..n] == s[i..j];
    forall k | 0 <= k < |s| && !(i <= k < j) ensures IsSpace(s[k]) {
      assert k >= j ==> s[k] == left[k - i];
    }
  }

  lemma {:induction false} StripLeftCuts(s: string) returns (i: nat)
    ensures i <= |s| && StripLeft(s) == s[i..] && forall k | 0 <= k < i :: IsSpace(s[k])
    ensures i < |s| ==> !IsSpace(s[i])
  {
    i := 0;
    if s != "" && IsSpace(s[0]) {
      i := StripLeftCuts(s[1..]);
      i := i + 1;
    }
  }

  lemma {:induction false} StripRightCuts(s: string) returns (j: nat)
    ensures j <= |s| && StripRight(s) == s[..j] && forall k | j <= k < |s| :: IsSpace(s[k])
    ensures j > 0 ==> !IsSpace(s[j - 1])
  {
    j := |s|;
    if s != "" && IsSpace(s[|s| - 1]) {
      j := StripRightCuts(s[..|s| - 1]);
    }
  }

  ghost predicate OneLine(s: string) {
    forall c | c in s :: !IsBreak(c)
  }

  /** What the log relies on: an encoded event is one line, unchanged by stripping, and decodes to itself. */
  ghost predicate Faithful(codec: Codec) {
    forall d ::
      var line := codec.encode(d);
      line != "" && OneLine(line) && Strip(line) == line && codec.decode(line) == Object(d)
  }

  lemma {:induction false} LinesOfLine(s: string, rest: string)
    requires OneLine(s)
    ensures Lines(s + "\n" + rest) == [s] + Lines(rest)
  {
    var text := s + "\n" + rest;
    if s == "" {
      assert text[1..] == rest;
    } else {
      assert text[1..] == s[1..] + "\n" + rest;
      LinesOfLine(s[1..], rest);
      assert [s[0]] + s[1..] == s;
    }
  }

  // ----- Reading -----

  /** Reading raises on JSON that is no object: it has no `get`. */
  datatype ReadResult = Events(events: seq<FailureEvent>) | AttributeError

  /** The event a line holds for a reader of `source`: at most one. */
  function Parsed(codec: Codec, raw: string, source: Option<string>): ReadResult {
    var line := Strip(raw);
    if line == "" then Events([])
    else
      match codec.decode(line)
      case Malformed => Events([])
      case NotAnObject => AttributeError
      case Object(d) =>
        if source.Some? && d.source != source then Events([]) else Events([FromDict(d)])
  }

  function ParsedAll(codec: Codec, lines: seq<string>, source: Option<string>): ReadResult {
    if lines == [] then Events([])
    else
      var n := |lines| - 1;
      match ParsedAll(codec, lines[..n], source)
      case AttributeError => AttributeError
      case Events(before) =>
        match Parsed(codec, lines[n], source)
        case AttributeError => AttributeError
        case Events(last) => Events(before + last)
  }

  /** The slice `events[-limit:]`, for any limit. */
  function Tail<T>(events: seq<T>, limit: int): seq<T> {
    if limit > 0 then (if limit <= |events| then events[|events| - limit..] else events)
    else if -limit <= |events| then events[-limit..]
    else []
  }

  function Limited(result: ReadResult, limit: Option<int>): ReadResult {
    if result.Events? && limit.Some? then Events(Tail(result.events, limit.value)) else result
  }

  function Read(codec: Codec, text: string, limit: Option<int>, source: Option<string>): ReadResult {
    Limited(ParsedAll(codec, Lines(text), source), limit)
  }

  /** The file behind the log; it may not exist yet. */
  class FileFailureStore {
    const codec: Codec
    var file: Option<string>

    constructor (codec: Codec, file: Option<string>)
      ensures this.codec == codec && this.file == file
    {
      this.codec, this.file := codec, file;
    }

    method WriteEvent(e: FailureEvent)
      modifies this
      ensures file == Some(old(file).GetOr("") + codec.encode(ToDict(e)) + "\n")
      ensures ToDict(e) == Fields(Some(e.timestamp), Some(e.source), Some(e.event), Some(e.details))
    {
      var line := codec.encode(ToDict(e));
      file := Some(file.GetOr("") + (line + "\n"));
      assert old(file).GetOr("") + (line + "\n") == old(file).GetOr("") + line + "\n";
    }

    method ReadEvents(limit: Option<int>, source: Option<string>) returns (result: ReadResult)
      ensures result == if file.None? then Events([]) else Read(codec, file.value, limit, source)
    {
      hide Lines, Strip, FromDict, Tail;
      if file.None? {
        return Events([]);
      }
      var events: seq<FailureEvent> := [];
      var lines := Lines(file.value);
      for i := 0 to |lines|
        invariant ParsedAll(codec, lines[..i], source) == Events(events)
      {
        assert lines[..i + 1][..i] == lines[..i];
        var line := Strip(lines[i]);
        if line == "" {
          continue;
        }
        var d := codec.decode(line);
        if d.Malformed? {
          continue;
        }
        if d.NotAnObject? {
          RaisedStays(codec, lines, i, source);
          return AttributeError;
        }
        if source.Some? && d.fields.source != source {
          continue;
        }
        events := events + [FromDict(d.fields)];
      }
      assert lines[..|lines|] == lines;
      return if limit.Some? then Events(Tail(events, limit.value)) else Events(events);
    }

    method ClearEvents()
      modifies this
      ensures file == if old(file).Some? then Some("") else None
    {
      if file.Some? {
        file := Some("");
      }
    }
  }

  lemma {:induction false} RaisedStays(codec: Codec, lines: seq<string>, i: nat, source: Option<string>)
    requires i < |lines| && Parsed(codec, lines[i], source).AttributeError?
    ensures ParsedAll(codec, lines, source).AttributeError?
  {
    var n := |lines| - 1;
    if i < n {
      RaisedStays(codec, lines[..n], i, source);
    }
  }

  /** A read raises exactly when some line decodes to JSON that is no object. */
  lemma {:induction false} RaisesIff(codec: Codec, lines: seq<string>, source: Option<string>)
    ensures ParsedAll(codec, lines, source).AttributeError?
       <==> exists line | line in lines ::
              Strip(line) != "" && codec.decode(Strip(line)) == NotAnObject
  {
    if lines != [] {
      RaisesIff(codec, lines[..|lines| - 1], source);
    }
  }

  /** An object from elsewhere reads with its missing keys defaulted, and is no match for a source it lacks. */
  lemma PartialObjectRead(codec: Codec, raw: string, d: Fields, source: Option<string>)
    requires Strip(raw) != "" && codec.decode(Strip(raw)) == Object(d)
    ensures source.Some? && d.source.None? ==> Parsed(codec, raw, source) == Events([])
    ensures source.None? ==>
              Parsed(codec, raw, source)
              == Events([FailureEvent(if d.source.Some? then d.source.value else "unknown",
                                      if d.event.Some? then d.event.value else "unknown",
                                      if d.details.Some? then d.details.value else map[],
                                      if d.timestamp.Some? then d.timestamp.value else "")])
  {
  }

  // ----- Round trip -----

  /** What a file may hold: events written by the service, and other lines. */
  datatype Chunk = Written(e: FailureEvent) | Noise(text: string)

  /** A line readers skip: blank, or no JSON. */
  ghost predicate Skippable(codec: Codec, text: string) {
    OneLine(text) && (Strip(text) == "" || codec.decode(Strip(text)) == Malformed)
  }

  ghost predicate Benign(codec: Codec, chunks: seq<Chunk>) {
    forall chunk | chunk in chunks && chunk.Noise? :: Skippable(codec, chunk.text)
  }

  function LineOf(codec: Codec, chunk: Chunk): string {
    match chunk
    case Written(e) => codec.encode(ToDict(e))
    case Noise(text) => text
  }

  function TextOf(codec: Codec, chunks: seq<Chunk>): string {
    if chunks == [] then "" else LineOf(codec, chunks[0]) + "\n" + TextOf(codec, chunks[1..])
  }

  function EventsIn(chunks: seq<Chunk>): seq<FailureEvent> {
    if chunks == [] then []
    else
      var n := |chunks| - 1;
      var before := EventsIn(chunks[..n]);
      if chunks[n].Written? then before + [chunks[n].e] else before
  }

  predicate Wanted(e: FailureEvent, source: Option<string>) {
    source == None || source == Some(e.source)
  }

  function Matching(events: seq<FailureEvent>, source: Option<string>): seq<FailureEvent> {
    if events == [] then []
    else
      var n := |events| - 1;
      var before := Matching(events[..n], source);
      if Wanted(events[n], source) then before + [events[n]] else before
  }

  lemma MatchingAppend(events: seq<FailureEvent>, e: FailureEvent, source: Option<string>)
    ensures Matching(events + [e], source)
         == Matching(events, source) + (if Wanted(e, source) then [e] else [])
  {
    assert (events + [e])[..|events|] == events;
  }

  lemma {:induction false} MatchingAnySource(events: seq<FailureEvent>)
    ensures Matching(events, None) == events
  {
    if events != [] {
      MatchingAnySource(events[..|events| - 1]);
    }
  }

  /** Appending a line keeps a file a sequence of chunks: what a write does. */
  lemma {:induction false} TextOfAppend(codec: Codec, chunks: seq<Chunk>, chunk: Chunk)
    ensures TextOf(codec, chunks + [chunk]) == TextOf(codec, chunks) + LineOf(codec, chunk) + "\n"
  {
    if chunks == [] {
      assert chunks + [chunk] == [chunk];
      assert TextOf(codec, [chunk]) == LineOf(codec, chunk) + "\n" + TextOf(codec, []);
    } else {
      assert (chunks + [chunk])[1..] == chunks[1..] + [chunk];
      TextOfAppend(codec, chunks[1..], chunk);
    }
  }

  ghost function ChunkLines(codec: Codec, chunks: seq<Chunk>): seq<string> {
    seq(|chunks|, i requires 0 <= i < |chunks| => LineOf(codec, chunks[i]))
  }

  lemma {:induction false} LinesOfText(codec: Codec, chunks: seq<Chunk>)
    requires Faithful(codec) && Benign(codec, chunks)
    ensures Lines(TextOf(codec, chunks)) == ChunkLines(codec, chunks) + [""]
  {
    if chunks != [] {
      assert chunks[0] in chunks;
      assert OneLine(LineOf(codec, chunks[0]));
      LinesOfLine(LineOf(codec, chunks[0]), TextOf(codec, chunks[1..]));
      LinesOfText(codec, chunks[1..]);
      assert ChunkLines(codec, chunks) == [LineOf(codec, chunks[0])] + ChunkLines(codec, chunks[1..]);
    }
  }

  /** The one line of a chunk parses to the event it was written for, if the reader wants it. */
  lemma ParsedChunk(codec: Codec, chunk: Chunk, source: Option<string>)
    requires Faithful(codec) && (chunk.Noise? ==> Skippable(codec, chunk.text))
    ensures Parsed(codec, LineOf(codec, chunk), source)
         == Events(if chunk.Written? && Wanted(chunk.e, source) then [chunk.e] else [])
  {
    if chunk.Written? {
      var line := codec.encode(ToDict(chunk.e));
      assert Strip(line) == line && codec.decode(line) == Object(ToDict(chunk.e));
    }
  }

  lemma ParsedAppend(codec: Codec, lines: seq<string>, line: string, source: Option<string>)
    requires ParsedAll(codec, lines, source).Events? && Parsed(codec, line, source).Events?
    ensures ParsedAll(codec, lines + [line], source)
         == Events(ParsedAll(codec, lines, source).events + Parsed(codec, line, source).events)
  {
    hide Parsed;
    assert (lines + [line])[..|lines|] == lines;
  }

  lemma ChunkLinesAppend(codec: Codec, chunks: seq<Chunk>, chunk: Chunk)
    ensures ChunkLines(codec, chunks + [chunk]) == ChunkLines(codec, chunks) + [LineOf(codec, chunk)]
  {
  }

  lemma BenignSplits(codec: Codec, chunks: seq<Chunk>, last: Chunk)
    requires Benign(codec, chunks + [last])
    ensures Benign(codec, chunks) && (last.Noise? ==> Skippable(codec, last.text))
  {
    var all := chunks + [last];
    assert all[|chunks|] == last;
    forall chunk | chunk in chunks && chunk.Noise?
      ensures Skippable(codec, chunk.text)
    {
      assert chunk in all;
    }
  }

  lemma EventsInAppend(chunks: seq<Chunk>, last: Chunk)
    ensures EventsIn(chunks + [last]) == if last.Written? then EventsIn(chunks) + [last.e] else EventsIn(chunks)
  {
    assert (chunks + [last])[..|chunks|] == chunks;
  }

  /** One more chunk adds its event, if it is one the reader wants. */
  lemma ParsedOneMore(codec: Codec, before: seq<Chunk>, last: Chunk, source: Option<string>)
    requires Faithful(codec) && (last.Noise? ==> Skippable(codec, last.text))
    requires ParsedAll(codec, ChunkLines(codec, before), source) == Events(Matching(EventsIn(before), source))
    ensures ParsedAll(codec, ChunkLines(codec, before + [last]), source)
         == Events(Matching(EventsIn(before + [last]), source))
  {
    hide Faithful, Skippable, Parsed, ParsedAll, ChunkLines, LineOf, EventsIn, Matching, Wanted;
    ParsedChunk(codec, last, source);
    ChunkLinesAppend(codec, before, last);
    ParsedAppend(codec, ChunkLines(codec, before), LineOf(codec, last), source);
    EventsInAppend(before, last);
    if last.Written? {
      MatchingAppend(EventsIn(before), last.e, source);
    } else {
      assert Matching(EventsIn(before), source) + [] == Matching(EventsIn(before), source);
    }
  }

  lemma {:induction false} ParsedChunks(codec: Codec, chunks: seq<Chunk>, source: Option<string>)
    requires Faithful(codec) && Benign(codec, chunks)
    ensures ParsedAll(codec, ChunkLines(codec, chunks), source) == Events(Matching(EventsIn(chunks), source))
  {
    hide Faithful, Benign;
    if chunks != [] {
      hide ParsedAll, ChunkLines, EventsIn, Matching;
      var (before, last) := (chunks[..|chunks| - 1], chunks[|chunks| - 1]);
      assert chunks == before + [last];
      BenignSplits(codec, before, last);
      ParsedChunks(codec, before, source);
      ParsedOneMore(codec, before, last, source);
    }
  }

  /** A reader gets back exactly the written events of its source, in order, and their last n for a limit n. */
  lemma RoundTrip(codec: Codec, chunks: seq<Chunk>, limit: Option<int>, source: Option<string>)
    requires Faithful(codec) && Benign(codec, chunks)
    ensures var events := Matching(EventsIn(chunks), source);
            Read(codec, TextOf(codec, chunks), limit, source)
            == Events(if limit.None? then events else Tail(events, limit.value))
    ensures limit.None? && source.None? ==>
              Read(codec, TextOf(codec, chunks), limit, source) == Events(EventsIn(chunks))
  {
    hide Faithful, Benign, Lines, ParsedAll, Matching, ChunkLines, TextOf;
    MatchingAnySource(EventsIn(chunks));
    LinesOfText(codec, chunks);
    ParsedChunks(codec, chunks, source);
    ParsedAppend(codec, ChunkLines(codec, chunks), "", source);
  }

  /** A positive limit keeps the latest that many; zero keeps everything; a negative one drops the oldest. */
  lemma TailKeepsLatest<T>(events: seq<T>, limit: int)
    ensures var tail := Tail(events, limit);
            |tail| <= |events| && tail == events[|events| - |tail|..]
    ensures limit > 0 ==> |Tail(events, limit)| == if limit <= |events| then limit else |events|
    ensures limit <= 0 ==> |Tail(events, limit)| == if -limit <= |events| then |events| + limit else 0
    ensures Tail(events, 0) == events
    ensures |Tail(events, limit)| <= (if limit > 0 then limit else 0) <==> limit > 0 || |events| <= -limit
  {
  }
}
