/** Events printed as `data:` frames, and the loop with which the browser reads them back.
    Sections 9.2.5 and 9.2.6 of the WHATWG HTML standard; only `data` lines are used here. */
module SseClient {
  import opened Wrappers
  import opened Text
  import opened StreamQueue
  import StreamRuns

  /** `JSON.parse` followed by reading `type`: None when either throws. */
  type Parser = string -> Option<SseEvent>

  // ----- the printer -----

  function ToSse(e: SseEvent): string { "data: " + e.body + "\n\n" }

  function Wire(events: seq<SseEvent>): string {
    if events == [] then "" else ToSse(events[0]) + Wire(events[1..])
  }

  // ----- the reader's pieces -----

  /** The characters `String.prototype.trim` removes. */
  predicate IsSpace(c: char) {
    var n := c as int;
    9 <= n <= 13 || 0x2000 <= n <= 0x200a
    || n in [0x20, 0xa0, 0x1680, 0x2028, 0x2029, 0x202f, 0x205f, 0x3000, 0xfeff]
  }

  function TrimStart(s: string): string { if s != "" && IsSpace(s[0]) then TrimStart(s[1..]) else s }

  function TrimEnd(s: string): string {
    if s != "" && IsSpace(s[|s| - 1]) then TrimEnd(s[..|s| - 1]) else s
  }

  function Trim(s: string): string { TrimEnd(TrimStart(s)) }

  /** `text.split('\n')`. */
  function Split(text: string): (r: seq<string>)
    ensures |r| > 0
  {
    if text == "" then [""]
    else WithFirst(text[0], Split(text[1..]))
  }

  /** The pieces of a text that starts with `c` and goes on with the text of these pieces. */
  function WithFirst(c: char, parts: seq<string>): (r: seq<string>)
    requires |parts| > 0
    ensures |r| > 0
  {
    if c == '\n' then [""] + parts else [[c] + parts[0]] + parts[1..]
  }

  function Front(parts: seq<string>): seq<string>
    requires parts != []
  {
    parts[..|parts| - 1]
  }

  function Last(parts: seq<string>): string
    requires parts != []
  {
    parts[|parts| - 1]
  }

  function Complete(text: string): seq<string> { Front(Split(text)) }

  function Rest(text: string): string { Last(Split(text)) }

  /** What one line says: the event it carries, or nothing. */
  function ReadLine(line: string, parse: Parser): Option<SseEvent> {
    var trimmed := Trim(line);
    if "data:" <= trimmed then parse(Trim(trimmed[5..])) else None
  }

  function Readable(lines: seq<string>, parse: Parser): seq<SseEvent> {
    if lines == [] then []
    else Heard(lines[0], parse) + Readable(lines[1..], parse)
  }

  function Heard(line: string, parse: Parser): seq<SseEvent> {
    match ReadLine(line, parse) case Some(e) => [e] case None => []
  }

  predicate HasTerminal(events: seq<SseEvent>) {
    events != [] && (IsTerminal(events[0]) || HasTerminal(events[1..]))
  }

  /** Everything up to and including the first done or error event. */
  function UpTo(events: seq<SseEvent>): seq<SseEvent> {
    if events == [] then []
    else if IsTerminal(events[0]) then [events[0]]
    else [events[0]] + UpTo(events[1..])
  }

  /** What a client that had the whole text at once would report. */
  function ReadAtOnce(text: string, parse: Parser): seq<SseEvent> { UpTo(Readable(Complete(text), parse)) }

  // ----- splitting -----

  predicate OneLine(s: string) { '\n' !in s }

  /** The pieces joined by newlines are the text again, and none of them holds a newline. */
  lemma {:induction false} SplitJoins(text: string)
    ensures Join("\n", Split(text)) == text
    ensures forall k :: 0 <= k < |Split(text)| ==> OneLine(Split(text)[k])
  {
    if text != "" {
      SplitJoins(text[1..]);
      WithFirstJoins(text[0], Split(text[1..]));
      assert [text[0]] + text[1..] == text;
    }
  }

  lemma WithFirstJoins(c: char, parts: seq<string>)
    requires |parts| > 0 && forall k :: 0 <= k < |parts| ==> OneLine(parts[k])
    ensures Join("\n", WithFirst(c, parts)) == [c] + Join("\n", parts)
    ensures forall k :: 0 <= k < |WithFirst(c, parts)| ==> OneLine(WithFirst(c, parts)[k])
  {
    if c == '\n' {
      assert ([""] + parts)[1..] == parts;
      assert "" + "\n" + Join("\n", parts) == "\n" + Join("\n", parts);
    } else {
      var result := WithFirst(c, parts);
      assert result[1..] == parts[1..];
      if |parts| > 1 {
        assert [c] + parts[0] + "\n" + Join("\n", parts[1..]) == [c] + (parts[0] + "\n" + Join("\n", parts[1..]));
      }
    }
  }

  lemma FrontCons(x: string, parts: seq<string>)
    requires parts != []
    ensures Front([x] + parts) == [x] + Front(parts) && Last([x] + parts) == Last(parts)
  {
  }

  lemma WithFirstCons(c: char, x: string, more: seq<string>)
    requires c != '\n'
    ensures WithFirst(c, [x] + more) == [[c] + x] + more
  {
    assert ([x] + more)[1..] == more;
  }

  lemma PartsAssociative(a: seq<string>, b: seq<string>, c: seq<string>)
    ensures a + b + c == a + (b + c)
  {
  }

  /** Unless it lengthens the only piece, a character in front leaves the last piece alone. */
  lemma WithFirstApart(c: char, parts: seq<string>, tail: seq<string>)
    requires parts != [] && tail != [] && (c == '\n' || |parts| > 1)
    ensures WithFirst(c, Front(parts) + tail) == Front(WithFirst(c, parts)) + tail
    ensures Last(WithFirst(c, parts)) == Last(parts)
  {
    if c == '\n' {
      FrontCons("", parts);
      PartsAssociative([""], Front(parts), tail);
    } else {
      var x, rest := parts[0], parts[1..];
      assert parts == [x] + rest;
      FrontCons(x, rest);
      FrontCons([c] + x, rest);
      PartsAssociative([x], Front(rest), tail);
      PartsAssociative([[c] + x], Front(rest), tail);
      WithFirstCons(c, x, Front(rest) + tail);
    }
  }

  /** More text only touches the last, unfinished line. */
  lemma {:induction false} SplitAppend(a: string, b: string)
    ensures Split(a + b) == Complete(a) + Split(Rest(a) + b)
  {
    if a == "" {
      assert a + b == b;
      assert Rest(a) + b == b;
    } else {
      SplitAppend(a[1..], b);
      assert (a + b)[0] == a[0] && (a + b)[1..] == a[1..] + b;
      var parts := Split(a[1..]);
      if a[0] != '\n' && |parts| == 1 {
        assert Front(parts) == [] && parts == [Last(parts)];
        SplitAppendFirst(a[0], Last(parts), b);
      } else {
        WithFirstApart(a[0], parts, Split(Last(parts) + b));
      }
    }
  }

  lemma SplitAppendFirst(c: char, last: string, b: string)
    requires c != '\n'
    ensures WithFirst(c, [] + [last]) == [[c] + last]
    ensures WithFirst(c, [] + Split(last + b)) == Split([c] + last + b)
  {
    assert ([c] + last + b)[1..] == last + b;
    assert [] + Split(last + b) == Split(last + b);
  }

  lemma CompleteAppend(a: string, b: string)
    ensures Complete(a + b) == Complete(a) + Complete(Rest(a) + b)
    ensures Rest(a + b) == Rest(Rest(a) + b)
  {
    SplitAppend(a, b);
  }

  lemma AppendAssociative(a: seq<SseEvent>, b: seq<SseEvent>, c: seq<SseEvent>)
    ensures a + b + c == a + (b + c)
  {
  }

  lemma ReadableFirst(line: string, rest: seq<string>, parse: Parser)
    ensures Readable([line] + rest, parse) == Heard(line, parse) + Readable(rest, parse)
  {
    assert ([line] + rest)[1..] == rest;
  }

  lemma {:induction false} ReadableAppend(a: seq<string>, b: seq<string>, parse: Parser)
    ensures Readable(a + b, parse) == Readable(a, parse) + Readable(b, parse)
  {
    if a == [] {
      assert a + b == b;
    } else {
      calc {
        Readable(a + b, parse);
        { assert a + b == [a[0]] + (a[1..] + b); }
        Readable([a[0]] + (a[1..] + b), parse);
        { ReadableFirst(a[0], a[1..] + b, parse); }
        Heard(a[0], parse) + Readable(a[1..] + b, parse);
        { ReadableAppend(a[1..], b, parse); }
        Heard(a[0], parse) + (Readable(a[1..], parse) + Readable(b, parse));
        { AppendAssociative(Heard(a[0], parse), Readable(a[1..], parse), Readable(b, parse)); }
        Readable(a, parse) + Readable(b, parse);
      }
    }
  }

  lemma {:induction false} UpToAppend(a: seq<SseEvent>, b: seq<SseEvent>)
    ensures UpTo(a + b) == if HasTerminal(a) then UpTo(a) else a + UpTo(b)
  {
    if a == [] {
      assert a + b == b;
    } else {
      UpToAppend(a[1..], b);
      assert (a + b)[1..] == a[1..] + b;
      assert a == [a[0]] + a[1..];
      AppendAssociative([a[0]], a[1..], UpTo(b));
    }
  }

  // ----- the read loop -----

  datatype Status = Done | Failed

  lemma NextLine(lines: seq<string>, j: nat, parse: Parser)
    requires j < |lines|
    ensures Readable(lines[..j + 1], parse) == Readable(lines[..j], parse) + Heard(lines[j], parse)
  {
    ReadableAppend(lines[..j], [lines[j]], parse);
    assert lines[..j] + [lines[j]] == lines[..j + 1];
    assert [lines[j]][1..] == [];
    assert Heard(lines[j], parse) + [] == Heard(lines[j], parse);
  }

  /** Once a terminal event was read nothing that follows matters. */
  lemma RestIgnored(seen: seq<string>, more: seq<string>, parse: Parser)
    requires HasTerminal(Readable(seen, parse))
    ensures UpTo(Readable(seen + more, parse)) == UpTo(Readable(seen, parse))
    ensures HasTerminal(Readable(seen + more, parse))
  {
    ReadableAppend(seen, more, parse);
    NoTerminalParts(Readable(seen, parse), Readable(more, parse));
    UpToAppend(Readable(seen, parse), Readable(more, parse));
  }

  lemma UpToWhole(events: seq<SseEvent>)
    ensures !HasTerminal(events) ==> UpTo(events) == events
    ensures forall e :: !HasTerminal(events) && IsTerminal(e) ==> UpTo(events + [e]) == events + [e]
  {
    UpToAppend(events, []);
    assert events + [] == events;
    forall e | !HasTerminal(events) && IsTerminal(e)
      ensures UpTo(events + [e]) == events + [e]
    {
      UpToAppend(events, [e]);
    }
  }

  /** The `for line of lines` loop: the readings so far grow by those of the lines, until a terminal one. */
  method ReadLines(lines: seq<string>, before: seq<SseEvent>, parse: Parser)
    returns (events: seq<SseEvent>, stopped: bool)
    requires !HasTerminal(before)
    ensures stopped == HasTerminal(Readable(lines, parse))
    ensures events == before + UpTo(Readable(lines, parse))
    ensures stopped ==> events != [] && IsTerminal(events[|events| - 1])
    ensures !stopped ==> events == before + Readable(lines, parse) && !HasTerminal(events)
  {
    events := before;
    var j := 0;
    assert lines[..0] == [] && before + [] == before;
    while j < |lines|
      invariant 0 <= j <= |lines|
      invariant events == before + Readable(lines[..j], parse) && !HasTerminal(events)
    {
      LineStep(before, lines, j, j + 1, parse, events);
      match ReadLine(lines[j], parse) {
        case None =>
        case Some(event) =>
          events := events + [event];
          if IsTerminal(event) {
            return events, true;
          }
      }
      j := j + 1;
    }
    assert lines[..j] == lines;
    AllRead(before, Readable(lines, parse), events);
    stopped := false;
  }

  /** When no terminal event was read, everything was. */
  lemma AllRead(before: seq<SseEvent>, read: seq<SseEvent>, events: seq<SseEvent>)
    requires events == before + read && !HasTerminal(events)
    ensures !HasTerminal(read) && events == before + UpTo(read)
  {
    NoTerminalParts(before, read);
    UpToWhole(read);
  }

  /** What reading line `j` does to the events read so far. */
  lemma LineStep(before: seq<SseEvent>, lines: seq<string>, j: nat, next: nat, parse: Parser, events: seq<SseEvent>)
    requires j < |lines| && next == j + 1
    requires events == before + Readable(lines[..j], parse) && !HasTerminal(events)
    ensures ReadLine(lines[j], parse).None? ==> events == before + Readable(lines[..next], parse)
    ensures ReadLine(lines[j], parse).Some? ==>
              (var longer := events + [ReadLine(lines[j], parse).value];
               && longer == before + Readable(lines[..next], parse)
               && (IsTerminal(ReadLine(lines[j], parse).value) <==> HasTerminal(longer))
               && (IsTerminal(ReadLine(lines[j], parse).value) ==>
                     HasTerminal(Readable(lines, parse)) && longer == before + UpTo(Readable(lines, parse))))
  {
    var was := Readable(lines[..j], parse);
    NextLine(lines, j, parse);
    if ReadLine(lines[j], parse).Some? {
      EventStep(before, was, ReadLine(lines[j], parse).value);
      RestIgnoredFrom(lines, next, parse);
    } else {
      assert was + [] == was;
    }
  }

  lemma EventStep(before: seq<SseEvent>, was: seq<SseEvent>, event: SseEvent)
    requires !HasTerminal(before + was)
    ensures before + was + [event] == before + (was + [event])
    ensures IsTerminal(event) <==> HasTerminal(before + (was + [event]))
    ensures IsTerminal(event) ==> HasTerminal(was + [event]) && UpTo(was + [event]) == was + [event]
  {
    assert before + was + [event] == before + (was + [event]);
    NoTerminalParts(before + was, [event]);
    NoTerminalParts(before, was);
    NoTerminalParts(was, [event]);
    assert IsTerminal(event) <==> HasTerminal([event]) by { assert [event][0] == event; }
    UpToWhole(was);
  }

  lemma RestIgnoredFrom(lines: seq<string>, j: nat, parse: Parser)
    requires j <= |lines|
    ensures HasTerminal(Readable(lines[..j], parse)) ==>
              && HasTerminal(Readable(lines, parse))
              && UpTo(Readable(lines, parse)) == UpTo(Readable(lines[..j], parse))
  {
    assert lines == lines[..j] + lines[j..];
    if HasTerminal(Readable(lines[..j], parse)) { RestIgnored(lines[..j], lines[j..], parse); }
  }

  lemma {:induction false} NoTerminalParts(a: seq<SseEvent>, b: seq<SseEvent>)
    ensures HasTerminal(a + b) <==> HasTerminal(a) || HasTerminal(b)
  {
    if a == [] {
      assert a + b == b;
    } else {
      NoTerminalParts(a[1..], b);
      assert (a + b)[1..] == a[1..] + b;
    }
  }

  lemma {:induction false} HasTerminalAt(events: seq<SseEvent>, k: nat)
    requires k < |events| && IsTerminal(events[k])
    ensures HasTerminal(events)
  {
    if k > 0 { HasTerminalAt(events[1..], k - 1); }
  }

  /** Reading the complete lines of the text so far, when none of the earlier ones was terminal. */
  lemma LinesRead(before: seq<string>, lines: seq<string>, whole: seq<string>, parse: Parser)
    requires before + lines <= whole && !HasTerminal(Readable(before, parse))
    ensures Readable(before + lines, parse) == Readable(before, parse) + Readable(lines, parse)
    ensures HasTerminal(Readable(lines, parse)) ==>
              UpTo(Readable(whole, parse)) == Readable(before, parse) + UpTo(Readable(lines, parse))
  {
    ReadableAppend(before, lines, parse);
    UpToAppend(Readable(before, parse), Readable(lines, parse));
    if HasTerminal(Readable(lines, parse)) {
      NoTerminalParts(Readable(before, parse), Readable(lines, parse));
      RestIgnored(before + lines, whole[|before + lines|..], parse);
      assert before + lines + whole[|before + lines|..] == whole;
    }
  }

  /** What one more fragment adds to the text received so far. */
  lemma FragmentStep(text: string, fragment: string, later: string, parse: Parser)
    requires !HasTerminal(Readable(Complete(text), parse))
    ensures Rest(text + fragment) == Rest(Rest(text) + fragment)
    ensures Readable(Complete(text + fragment), parse)
         == Readable(Complete(text), parse) + Readable(Complete(Rest(text) + fragment), parse)
    ensures HasTerminal(Readable(Complete(Rest(text) + fragment), parse)) ==>
              ReadAtOnce(text + fragment + later, parse)
              == Readable(Complete(text), parse) + UpTo(Readable(Complete(Rest(text) + fragment), parse))
  {
    CompleteAppend(text, fragment);
    CompleteAppend(text + fragment, later);
    LinesRead(Complete(text), Complete(Rest(text) + fragment), Complete(text + fragment + later), parse);
  }

  /** Between fragments: every complete line of the text so far was read, none of them terminal, and the rest waits. */
  ghost predicate ReadSoFar(text: string, buffer: string, events: seq<SseEvent>, parse: Parser) {
    events == Readable(Complete(text), parse) && !HasTerminal(events) && buffer == Rest(text)
  }

  /** One turn of the loop; `text` was received before and `later` will be. */
  method ReadFragment(fragment: string, buffer: string, before: seq<SseEvent>, parse: Parser, ghost text: string,
                      ghost later: string)
    returns (events: seq<SseEvent>, waiting: string, stopped: bool)
    requires ReadSoFar(text, buffer, before, parse)
    ensures !stopped ==> ReadSoFar(text + fragment, waiting, events, parse)
    ensures stopped ==> events == ReadAtOnce(text + fragment + later, parse)
    ensures stopped ==> events != [] && IsTerminal(events[|events| - 1])
  {
    FragmentStep(text, fragment, later, parse);
    var lines := Split(buffer + fragment);
    waiting := lines[|lines| - 1];
    events, stopped := ReadLines(lines[..|lines| - 1], before, parse);
  }

  /** The loop reports what a reader of the whole text would, however the text was cut. */
  method ReadStream(fragments: seq<string>, parse: Parser) returns (events: seq<SseEvent>, status: Status)
    ensures events == ReadAtOnce(Concat(fragments), parse)
    ensures status.Failed? <==> events != [] && events[|events| - 1].kind == "error"
  {
    events := [];
    var buffer := "";
    ghost var text := "";
    var i := 0;
    while i < |fragments|
      invariant 0 <= i <= |fragments|
      invariant text + Concat(fragments[i..]) == Concat(fragments)
      invariant ReadSoFar(text, buffer, events, parse)
    {
      ghost var later := Concat(fragments[i + 1..]);
      assert Concat(fragments[i..]) == fragments[i] + later;
      Associative(text, fragments[i], later);
      var stopped;
      events, buffer, stopped := ReadFragment(fragments[i], buffer, events, parse, text, later);
      if stopped {
        return events, if events[|events| - 1].kind == "error" then Failed else Done;
      }
      text := text + fragments[i];
      i := i + 1;
    }
    assert text + "" == text;
    status := Done;
    AllHeard(text, buffer, events, parse);
  }

  /** A text that ends without a terminal event was read to its end. */
  lemma AllHeard(text: string, buffer: string, events: seq<SseEvent>, parse: Parser)
    requires ReadSoFar(text, buffer, events, parse)
    ensures events == ReadAtOnce(text, parse) && (events != [] ==> !IsTerminal(events[|events| - 1]))
  {
    UpToWhole(events);
    if events != [] && IsTerminal(events[|events| - 1]) { HasTerminalAt(events, |events| - 1); }
  }

  // ----- what the server wrote is what the client reports -----

  /** The text of a JSON object on one line, as `json.dumps` writes it. */
  predicate IsObjectText(body: string) {
    |body| >= 2 && body[0] == '{' && body[|body| - 1] == '}' && OneLine(body)
  }

  /** What is asked of JSON: every event of the list is printed as an object on one line and parses back. */
  ghost predicate Codec(events: seq<SseEvent>, parse: Parser) {
    forall k :: 0 <= k < |events| ==> IsObjectText(events[k].body) && parse(events[k].body) == Some(events[k])
  }

  lemma TrimPlain(s: string)
    requires s != "" && !IsSpace(s[0]) && !IsSpace(s[|s| - 1])
    ensures Trim(s) == s && Trim(" " + s) == s
  {
    assert (" " + s)[1..] == s;
  }

  lemma FrameLine(e: SseEvent, parse: Parser)
    requires IsObjectText(e.body)
    ensures ReadLine("data: " + e.body, parse) == parse(e.body) && ReadLine("", parse) == None
  {
    var line := "data: " + e.body;
    TrimPlain(line);
    TrimPlain(e.body);
    assert line[..5] == "data:";
    assert line[5..] == " " + e.body;
  }

  lemma {:induction false} SplitLine(line: string, more: string)
    requires OneLine(line)
    ensures Split(line + "\n" + more) == [line] + Split(more)
  {
    if line == "" {
      assert line + "\n" + more == "\n" + more;
      assert (line + "\n" + more)[1..] == more;
    } else {
      SplitLine(line[1..], more);
      assert (line + "\n" + more)[1..] == line[1..] + "\n" + more;
      assert [line[0]] + line[1..] == line;
    }
  }

  lemma FrameLines(e: SseEvent, more: string)
    requires OneLine(e.body)
    ensures Complete(ToSse(e) + more) == ["data: " + e.body, ""] + Complete(more)
  {
    SplitLine("data: " + e.body, "\n" + more);
    SplitLine("", more);
    assert "" + "\n" + more == "\n" + more;
    assert ToSse(e) + more == "data: " + e.body + "\n" + ("\n" + more);
  }

  lemma {:induction false} WireReads(events: seq<SseEvent>, parse: Parser)
    requires Codec(events, parse)
    ensures Readable(Complete(Wire(events)), parse) == events
  {
    if events == [] {
      assert Complete("") == [];
    } else {
      var e, rest := events[0], Wire(events[1..]);
      WireReads(events[1..], parse);
      FrameLines(e, rest);
      FrameLine(e, parse);
      var lines := ["data: " + e.body, ""];
      ReadableAppend(lines, Complete(rest), parse);
      assert lines[1..] == [""] && [""][1..] == [];
      assert Readable([""], parse) == [];
      assert Readable(lines, parse) == [e] + [];
    }
  }

  /** However the frames are cut, the client reports the events up to and including the first done or error. */
  lemma FramesArrive(events: seq<SseEvent>, fragments: seq<string>, parse: Parser)
    requires Codec(events, parse) && Concat(fragments) == Wire(events)
    ensures ReadAtOnce(Concat(fragments), parse) == UpTo(events)
  {
    WireReads(events, parse);
  }

  lemma {:induction false} UpToIsPrefix(events: seq<SseEvent>)
    ensures UpTo(events) <= events
  {
    if events != [] { UpToIsPrefix(events[1..]); }
  }

  /** A connection that breaks off anywhere, even inside a frame, has reported a prefix. */
  lemma BrokenOffIsPrefix(events: seq<SseEvent>, received: string, parse: Parser)
    requires Codec(events, parse) && received <= Wire(events)
    ensures ReadAtOnce(received, parse) <= UpTo(events)
  {
    WireReads(events, parse);
    var later := Wire(events)[|received|..];
    assert received + later == Wire(events);
    CompleteAppend(received, later);
    var a, b := Complete(received), Complete(Rest(received) + later);
    ReadableAppend(a, b, parse);
    UpToAppend(Readable(a, parse), Readable(b, parse));
    UpToIsPrefix(Readable(a, parse));
    UpToWhole(Readable(a, parse));
  }

  // ----- what one connection gets -----

  /** The events delivered to connection `c`, in order. */
  function EventsTo(ds: seq<StreamRuns.Delivery>, c: nat): seq<SseEvent> {
    if ds == [] then []
    else
      var last := ds[|ds| - 1];
      EventsTo(ds[..|ds| - 1], c) + (if last.to == c then [last.event] else [])
  }

  lemma {:induction false} EventsToFrom(ds: seq<StreamRuns.Delivery>, c: nat)
    ensures forall e :: e in EventsTo(ds, c) ==> e in StreamRuns.Events(ds)
  {
    if ds != [] {
      var front, last := ds[..|ds| - 1], ds[|ds| - 1];
      EventsToFrom(front, c);
      assert StreamRuns.Events(ds) == StreamRuns.Events(front) + [last.event];
    }
  }

  lemma {:induction false} EventsToAll(ds: seq<StreamRuns.Delivery>, c: nat)
    requires forall k :: 0 <= k < |ds| ==> ds[k].to == c
    ensures EventsTo(ds, c) == StreamRuns.Events(ds)
  {
    if ds != [] {
      var front, last := ds[..|ds| - 1], ds[|ds| - 1];
      EventsToAll(front, c);
      assert StreamRuns.Events(ds) == StreamRuns.Events(front) + [last.event];
    }
  }

  lemma {:induction false} NoTerminal(events: seq<SseEvent>)
    requires forall e :: e in events ==> !IsTerminal(e)
    ensures !HasTerminal(events)
  {
    if events != [] { NoTerminal(events[1..]); }
  }

  /** A connection's events have no done or error event before their last, when all deliveries have none. */
  lemma EventsToUpTo(ds: seq<StreamRuns.Delivery>, c: nat)
    requires forall k :: 0 <= k < |ds| - 1 ==> !IsTerminal(ds[k].event)
    ensures UpTo(EventsTo(ds, c)) == EventsTo(ds, c)
  {
    if ds != [] {
      var front, last := ds[..|ds| - 1], ds[|ds| - 1];
      EventsToFrom(front, c);
      forall e | e in EventsTo(front, c)
        ensures !IsTerminal(e)
      {
        var k :| 0 <= k < |front| && StreamRuns.Events(front)[k] == e;
        assert ds[k].event == e;
      }
      NoTerminal(EventsTo(front, c));
      UpToWhole(EventsTo(front, c));
      assert EventsTo(front, c) + [] == EventsTo(front, c);
      if last.to == c && !IsTerminal(last.event) {
        NoTerminalParts(EventsTo(front, c), [last.event]);
        assert [last.event][1..] == [];
        UpToWhole(EventsTo(ds, c));
      }
    }
  }

  lemma CodecPart(script: seq<SseEvent>, events: seq<SseEvent>, parse: Parser)
    requires Codec(script, parse) && forall e :: e in events ==> e in script
    ensures Codec(events, parse)
  {
    forall k | 0 <= k < |events|
      ensures IsObjectText(events[k].body) && parse(events[k].body) == Some(events[k])
    {
      assert events[k] in events;
      var j :| 0 <= j < |script| && script[j] == events[k];
    }
  }

  /** From the job that answers a question to the pages, for every interleaving, any number of connections and any way
      the network cuts the text: a page reports what was delivered to its connection. Once some connection has stopped
      because the id was closed, all that the job sent was delivered if and only if no running connection was dropped
      before the last push; once some connection has ended by itself in whichever way and none waits any more, if and
      only if no step lost an event. */
  lemma AnswerReachesPages(
      work: Work, connections: nat, actions: seq<StreamRuns.Action>, c: nat, fragments: seq<string>, parse: Parser)
    requires WellTyped(work) && Codec(Script(work), parse)
    requires var s := StreamRuns.Run(StreamRuns.Start(Script(work), connections), actions);
             Concat(fragments) == Wire(EventsTo(s.delivered, c))
    ensures var start := StreamRuns.Start(Script(work), connections);
            var s := StreamRuns.Run(start, actions);
            && ReadAtOnce(Concat(fragments), parse) == EventsTo(s.delivered, c)
            && ((exists d :: 0 <= d < |s.consumers| && s.consumers[d].Drained?) ==>
                  (StreamRuns.Events(s.delivered) == Script(work) <==> !StreamRuns.LeftEarly(start, actions)))
            && ((exists d :: 0 <= d < |s.consumers| && StreamRuns.Ended(s.consumers[d]))
                && (forall d :: 0 <= d < |s.consumers| ==> !s.consumers[d].Waiting?) ==>
                  (StreamRuns.Events(s.delivered) == Script(work) <==> !StreamRuns.LostSome(start, actions)))
  {
    var start, script := StreamRuns.Start(Script(work), connections), Script(work);
    var s := StreamRuns.Run(start, actions);
    PageReports(work, connections, actions, c, fragments, parse);
    if exists d :: 0 <= d < |s.consumers| && s.consumers[d].Drained? {
      StreamRuns.AllDeliveredExactly(script, connections, actions);
    }
    if forall d :: 0 <= d < |s.consumers| ==> !s.consumers[d].Waiting? {
      if d: nat :| d < |s.consumers| && StreamRuns.Ended(s.consumers[d]) {
        StreamRuns.EndedExactly(script, connections, actions, d);
      }
    }
  }

  lemma PageReports(
      work: Work, connections: nat, actions: seq<StreamRuns.Action>, c: nat, fragments: seq<string>, parse: Parser)
    requires WellTyped(work) && Codec(Script(work), parse)
    requires var s := StreamRuns.Run(StreamRuns.Start(Script(work), connections), actions);
             Concat(fragments) == Wire(EventsTo(s.delivered, c))
    ensures ReadAtOnce(Concat(fragments), parse)
         == EventsTo(StreamRuns.Run(StreamRuns.Start(Script(work), connections), actions).delivered, c)
  {
    var script := Script(work);
    var s := StreamRuns.Run(StreamRuns.Start(script, connections), actions);
    ScriptEndsOnce(work);
    StreamRuns.DeliveriesArePrefix(script, connections, actions);
    forall k | 0 <= k < |s.delivered| - 1
      ensures !IsTerminal(s.delivered[k].event)
    {
      StreamRuns.TerminalIsLast(script, connections, actions, k);
    }
    EventsToUpTo(s.delivered, c);
    EventsToFrom(s.delivered, c);
    CodecPart(script, EventsTo(s.delivered, c), parse);
    FramesArrive(EventsTo(s.delivered, c), fragments, parse);
  }

  /** In particular, when the one connection has stopped without being dropped, its page has reported exactly what the
      job sent, in order: the rows, if there are any, and then the done event, or the error event when building the done
      event failed; and the error event alone when the graph failed. */
  lemma AnswerReachesPage(work: Work, actions: seq<StreamRuns.Action>, fragments: seq<string>, parse: Parser)
    requires WellTyped(work) && Codec(Script(work), parse)
    requires var s := StreamRuns.Run(StreamRuns.Start(Script(work), 1), actions);
             && |s.consumers| == 1 && !StreamRuns.Active(s.consumers[0]) && !s.consumers[0].Left?
             && Concat(fragments) == Wire(EventsTo(s.delivered, 0))
    ensures ReadAtOnce(Concat(fragments), parse) == Script(work)
    ensures match work
            case GraphFailed(error) => ReadAtOnce(Concat(fragments), parse) == [error]
            case GraphAnswered(Some(row), Some(done), _) => ReadAtOnce(Concat(fragments), parse) == [row, done]
            case GraphAnswered(None, Some(done), _) => ReadAtOnce(Concat(fragments), parse) == [done]
            case GraphAnswered(Some(row), None, error) => ReadAtOnce(Concat(fragments), parse) == [row, error]
            case GraphAnswered(None, None, error) => ReadAtOnce(Concat(fragments), parse) == [error]
  {
    var s := StreamRuns.Run(StreamRuns.Start(Script(work), 1), actions);
    StreamRuns.SoleConnectionGetsEverything(Script(work), actions);
    EventsToAll(s.delivered, 0);
    AnswerReachesPages(work, 1, actions, 0, fragments, parse);
  }
}
