/** The incremental reader of a tag value event stream. Decoding bytes to text and parsing
    a payload are the environment's: `parse` gives a payload's value, if it has one. */
module Sse {

  datatype Parsed<V> = Malformed | Value(value: V)

  type Parser<!V> = string -> Parsed<V>

  datatype Call<V> = Message(value: V) | Retry(milliseconds: string)

  datatype Pending = Pending(data: seq<string>, event: string)

  const EMPTY := Pending([], "")

  /** The first place of a character, or -1. */
  function IndexOf(s: string, c: char): (i: int)
    ensures -1 <= i < |s|
    ensures i == -1 ==> c !in s
    ensures i >= 0 ==> s[i] == c && c !in s[..i]
  {
    if s == "" then -1
    else if s[0] == c then 0
    else
      var i := IndexOf(s[1..], c);
      if i == -1 then -1
      else
        assert s[..i + 1] == [s[0]] + s[1..][..i];
        i + 1
  }

  function WithoutReturn(line: string): string {
    if line != "" && line[|line| - 1] == '\r' then line[..|line| - 1] else line
  }

  function Join(parts: seq<string>): string {
    if parts == [] then "" else if |parts| == 1 then parts[0] else parts[0] + "\n" + Join(parts[1..])
  }

  predicate AllDigits(s: string) {
    s != "" && forall c :: c in s ==> '0' <= c <= '9'
  }

  function Dispatch<V>(parse: Parser<V>, pending: Pending): seq<Call<V>> {
    if pending.event != "tag_value" || pending.data == [] then []
    else Payload(parse, Join(pending.data))
  }

  function Payload<V>(parse: Parser<V>, payload: string): seq<Call<V>> {
    match parse(payload)
    case Malformed => []
    case Value(value) => [Message(value)]
  }

  datatype Field = Field(name: string, value: string)

  /** A field's name ends at the first colon; one space after the colon is dropped. */
  function FieldOf(line: string): Field {
    var separator := IndexOf(line, ':');
    if separator == -1 then Field(line, "")
    else
      var value := line[separator + 1..];
      Field(line[..separator], if value != "" && value[0] == ' ' then value[1..] else value)
  }

  datatype Progress<V> = Progress(pending: Pending, calls: seq<Call<V>>)

  function ProcessLine<V>(parse: Parser<V>, pending: Pending, line: string): Progress<V> {
    if line == "" then Progress(EMPTY, Dispatch(parse, pending))
    else if line[0] == ':' then Progress(pending, [])
    else
      var field := FieldOf(line);
      if field.name == "event" then Progress(pending.(event := field.value), [])
      else if field.name == "data" then Progress(pending.(data := pending.data + [field.value]), [])
      else if field.name == "retry" && AllDigits(field.value) then Progress(pending, [Retry(field.value)])
      else Progress(pending, [])
  }

  // ---------------------------------------------------------------- whole text

  /** The lines a text ends with a newline, and what follows the last of them. */
  function Lines(text: string): seq<string> {
    var newline := IndexOf(text, '\n');
    if newline == -1 then [] else [text[..newline]] + Lines(text[newline + 1..])
  }

  function Rest(text: string): string {
    var newline := IndexOf(text, '\n');
    if newline == -1 then text else Rest(text[newline + 1..])
  }

  function ProcessLines<V>(parse: Parser<V>, pending: Pending, lines: seq<string>): Progress<V>
    decreases lines
  {
    if lines == [] then Progress(pending, [])
    else
      var first := ProcessLine(parse, pending, WithoutReturn(lines[0]));
      var others := ProcessLines(parse, first.pending, lines[1..]);
      Progress(others.pending, first.calls + others.calls)
  }

  /** The callbacks for a whole text: its lines, an unterminated last line, and the event
      still pending at the end. */
  function Calls<V>(parse: Parser<V>, text: string): seq<Call<V>> {
    var whole := ProcessLines(parse, EMPTY, Lines(text));
    var last := if Rest(text) == "" then Progress(whole.pending, [])
                else ProcessLine(parse, whole.pending, WithoutReturn(Rest(text)));
    whole.calls + last.calls + Dispatch(parse, last.pending)
  }

  // ---------------------------------------------------------------- the reader

  function Concat(chunks: seq<string>): string {
    if chunks == [] then "" else Concat(chunks[..|chunks| - 1]) + chunks[|chunks| - 1]
  }

  lemma Associate<T>(a: seq<T>, b: seq<T>, c: seq<T>)
    ensures a + b + c == a + (b + c)
  {
  }

  lemma AppendParts(a: string, b: string, i: nat)
    requires i < |a|
    ensures (a + b)[i] == a[i] && (a + b)[..i] == a[..i] && (a + b)[i + 1..] == a[i + 1..] + b
  {
  }

  lemma PeelLine(a: string, b: string, newline: nat)
    requires newline == IndexOf(a, '\n')
    ensures Lines(a + b) == [a[..newline]] + Lines(a[newline + 1..] + b) && Rest(a + b) == Rest(a[newline + 1..] + b)
  {
    AppendParts(a, b, newline);
    FirstAt(a + b, '\n', newline);
  }

  /** Text that arrives later extends the unterminated line. */
  lemma {:induction false} LinesOfMore(a: string, b: string)
    ensures Lines(a + b) == Lines(a) + Lines(Rest(a) + b) && Rest(a + b) == Rest(Rest(a) + b)
    decreases |a|
  {
    var newline := IndexOf(a, '\n');
    if newline >= 0 {
      PeelLine(a, b, newline);
      LinesOfMore(a[newline + 1..], b);
      Associate([a[..newline]], Lines(a[newline + 1..]), Lines(Rest(a) + b));
    }
  }

  lemma {:induction false} FirstAt(s: string, c: char, i: nat)
    requires i < |s| && s[i] == c && c !in s[..i]
    ensures IndexOf(s, c) == i
  {
    if i > 0 {
      assert s[0] in s[..i];
      assert s[1..][..i - 1] == s[..i][1..];
      FirstAt(s[1..], c, i - 1);
    }
  }

  /** Processing one line more. */
  lemma {:induction false} ProcessAppend<V>(parse: Parser<V>, pending: Pending, lines: seq<string>, line: string)
    ensures var first := ProcessLines(parse, pending, lines);
            var second := ProcessLine(parse, first.pending, WithoutReturn(line));
            ProcessLines(parse, pending, lines + [line]) == Progress(second.pending, first.calls + second.calls)
    decreases lines
  {
    if lines == [] {
      assert lines + [line] == [line];
      var second := ProcessLine(parse, pending, WithoutReturn(line));
      assert ProcessLines(parse, second.pending, [line][1..]) == Progress(second.pending, []);
      assert second.calls + [] == second.calls == [] + second.calls;
    } else {
      var first := ProcessLine(parse, pending, WithoutReturn(lines[0]));
      assert (lines + [line])[1..] == lines[1..] + [line];
      ProcessAppend(parse, first.pending, lines[1..], line);
      var middle := ProcessLines(parse, first.pending, lines[1..]);
      var last := ProcessLine(parse, middle.pending, WithoutReturn(line));
      assert first.calls + (middle.calls + last.calls) == first.calls + middle.calls + last.calls;
    }
  }

  /** `seen` and the buffer are what the text has been cut into. */
  predicate CutInto(text: string, seen: seq<string>, buffer: string) {
    Lines(text) == seen + Lines(buffer) && Rest(text) == Rest(buffer)
  }

  lemma CutMore(text: string, chunk: string, seen: seq<string>, buffer: string)
    requires CutInto(text, seen, buffer) && Lines(buffer) == []
    ensures CutInto(text + chunk, seen, buffer + chunk)
  {
    LinesOfMore(text, chunk);
    var more := Lines(buffer + chunk);
    assert Rest(text) == buffer && Lines(text) == seen;
    assert Lines(text + chunk) == seen + more;
  }

  lemma CutOne(text: string, seen: seq<string>, buffer: string, newline: int)
    requires CutInto(text, seen, buffer) && newline == IndexOf(buffer, '\n') >= 0
    ensures CutInto(text, seen + [buffer[..newline]], buffer[newline + 1..])
  {
    var line, more := buffer[..newline], Lines(buffer[newline + 1..]);
    Associate(seen, [line], more);
  }

  /** The reader's state: the lines seen so far are processed, the rest waits. */
  ghost predicate Behind<V(!new)>(parse: Parser<V>, text: string, seen: seq<string>, buffer: string, now: Progress<V>) {
    CutInto(text, seen, buffer) && ProcessLines(parse, EMPTY, seen) == now
  }

  /** However the text is cut into chunks, the callbacks are those of the whole text. */
  method Consume<V(!new)>(parse: Parser<V>, chunks: seq<string>) returns (calls: seq<Call<V>>)
    ensures calls == Calls(parse, Concat(chunks))
  {
    var buffer, pending := "", EMPTY;
    calls := [];
    ghost var text, seen: seq<string> := "", [];
    for i := 0 to |chunks|
      invariant text == Concat(chunks[..i]) && Lines(buffer) == []
      invariant Behind(parse, text, seen, buffer, Progress(pending, calls))
    {
      assert chunks[..i + 1][..i] == chunks[..i];
      CutMore(text, chunks[i], seen, buffer);
      text := text + chunks[i];
      buffer := buffer + chunks[i];
      var newline := IndexOf(buffer, '\n');
      while newline != -1
        invariant newline == IndexOf(buffer, '\n')
        invariant Behind(parse, text, seen, buffer, Progress(pending, calls))
        decreases |buffer|
      {
        CutOne(text, seen, buffer, newline);
        ProcessAppend(parse, EMPTY, seen, buffer[..newline]);
        seen := seen + [buffer[..newline]];
        var next := ProcessLine(parse, pending, WithoutReturn(buffer[..newline]));
        pending, calls := next.pending, calls + next.calls;
        buffer := buffer[newline + 1..];
        newline := IndexOf(buffer, '\n');
      }
    }
    assert chunks[..|chunks|] == chunks;
    calls := Finish(parse, text, seen, buffer, pending, calls);
  }

  /** The unterminated last line, and the event still pending. */
  method Finish<V(!new)>(parse: Parser<V>, ghost text: string, ghost seen: seq<string>, buffer: string,
                  pending: Pending, before: seq<Call<V>>)
    returns (calls: seq<Call<V>>)
    requires Behind(parse, text, seen, buffer, Progress(pending, before)) && Lines(buffer) == []
    ensures calls == Calls(parse, text)
  {
    assert Lines(text) == seen && Rest(text) == buffer;
    if buffer == "" {
      return before + [] + Dispatch(parse, pending);
    }
    var last := ProcessLine(parse, pending, WithoutReturn(buffer));
    return before + last.calls + Dispatch(parse, last.pending);
  }

  // ---------------------------------------------------------------- what a stream says

  function Payloads<V>(parse: Parser<V>, payloads: seq<string>): seq<Call<V>> {
    if payloads == [] then [] else Payload(parse, payloads[0]) + Payloads(parse, payloads[1..])
  }

  /** One event as a server writes it. */
  function EventLines(payload: string): seq<string> {
    ["event" + ": " + "tag_value", "data" + ": " + payload, ""]
  }

  function Encoded(payloads: seq<string>): string {
    if payloads == [] then "" else Written(EventLines(payloads[0])) + Encoded(payloads[1..])
  }

  function Written(lines: seq<string>): string {
    if lines == [] then "" else lines[0] + "\n" + Written(lines[1..])
  }

  lemma FirstLine(line: string, more: string)
    requires '\n' !in line
    ensures Lines(line + "\n" + more) == [line] + Lines(more) && Rest(line + "\n" + more) == Rest(more)
  {
    var text := line + "\n" + more;
    assert text[..|line|] == line && text[|line| + 1..] == more;
    FirstAt(text, '\n', |line|);
  }

  lemma WrittenMore(lines: seq<string>, more: string)
    requires lines != []
    ensures Written(lines) + more == lines[0] + "\n" + (Written(lines[1..]) + more)
  {
    Associate(lines[0] + "\n", Written(lines[1..]), more);
  }

  lemma HeadAndTail<T>(s: seq<T>, t: seq<T>)
    requires s != []
    ensures [s[0]] + (s[1..] + t) == s + t
  {
    assert [s[0]] + s[1..] == s;
    Associate([s[0]], s[1..], t);
  }

  lemma {:induction false} LinesOfWritten(lines: seq<string>, more: string)
    requires forall line :: line in lines ==> '\n' !in line
    ensures Lines(Written(lines) + more) == lines + Lines(more) && Rest(Written(lines) + more) == Rest(more)
  {
    if lines == [] {
      assert Written(lines) + more == more;
    } else {
      WrittenMore(lines, more);
      FirstLine(lines[0], Written(lines[1..]) + more);
      LinesOfWritten(lines[1..], more);
      HeadAndTail(lines, Lines(more));
    }
  }

  lemma EventLinesAreLines(payload: string)
    requires '\n' !in payload
    ensures forall line :: line in EventLines(payload) ==> '\n' !in line
  {
    var lines := EventLines(payload);
    assert '\n' !in lines[0] && '\n' !in lines[1] && '\n' !in lines[2];
  }

  lemma {:induction false} LinesOfEncoded(payloads: seq<string>)
    requires forall payload :: payload in payloads ==> '\n' !in payload
    ensures Rest(Encoded(payloads)) == ""
    ensures Lines(Encoded(payloads)) == EncodedLines(payloads)
  {
    if payloads != [] {
      LinesOfEncoded(payloads[1..]);
      assert payloads[0] in payloads;
      EventLinesAreLines(payloads[0]);
      LinesOfWritten(EventLines(payloads[0]), Encoded(payloads[1..]));
    }
  }

  function EncodedLines(payloads: seq<string>): seq<string> {
    if payloads == [] then [] else EventLines(payloads[0]) + EncodedLines(payloads[1..])
  }

  lemma FieldWritten(name: string, value: string)
    requires name != "" && ':' !in name
    ensures FieldOf(name + ": " + value) == Field(name, value)
  {
    var line := name + ": " + value;
    assert line[..|name|] == name;
    FirstAt(line, ':', |name|);
    assert line[|name| + 1..] == " " + value;
  }

  predicate Writable(payload: string) {
    '\n' !in payload && (payload != "" ==> payload[|payload| - 1] != '\r')
  }

  lemma NameLine<V>(parse: Parser<V>, pending: Pending, value: string)
    requires value == "" || value[|value| - 1] != '\r'
    ensures ProcessLine(parse, pending, WithoutReturn("event" + ": " + value)) == Progress(pending.(event := value), [])
  {
    FieldWritten("event", value);
    var line := "event" + ": " + value;
    assert line[0] == 'e' && line[|line| - 1] != '\r';
  }

  lemma DataLine<V>(parse: Parser<V>, pending: Pending, value: string)
    requires value == "" || value[|value| - 1] != '\r'
    ensures ProcessLine(parse, pending, WithoutReturn("data" + ": " + value))
         == Progress(pending.(data := pending.data + [value]), [])
  {
    FieldWritten("data", value);
    var line := "data" + ": " + value;
    assert line[0] == 'd' && line[|line| - 1] != '\r';
  }

  lemma OneEvent<V>(parse: Parser<V>, payload: string)
    requires Writable(payload)
    ensures ProcessLines(parse, EMPTY, EventLines(payload)) == Progress(EMPTY, Payload(parse, payload))
  {
    var lines := EventLines(payload);
    NameLine(parse, EMPTY, "tag_value");
    DataLine(parse, Pending([], "tag_value"), payload);
    assert [] + [payload] == [payload];
    ThreeLines(parse, lines);
    assert [] + [] + Payload(parse, payload) == Payload(parse, payload);
  }

  lemma ThreeParts<T>(s: seq<T>)
    requires |s| == 3
    ensures [] + [s[0]] == [s[0]] && [s[0]] + [s[1]] == [s[0], s[1]] && [s[0], s[1]] + [s[2]] == s
  {
  }

  lemma ThreeLines<V>(parse: Parser<V>, lines: seq<string>)
    requires |lines| == 3
    ensures var first := ProcessLine(parse, EMPTY, WithoutReturn(lines[0]));
            var second := ProcessLine(parse, first.pending, WithoutReturn(lines[1]));
            var third := ProcessLine(parse, second.pending, WithoutReturn(lines[2]));
            ProcessLines(parse, EMPTY, lines) == Progress(third.pending, first.calls + second.calls + third.calls)
  {
    assert ProcessLines(parse, EMPTY, []) == Progress(EMPTY, []);
    ProcessAppend(parse, EMPTY, [], lines[0]);
    ProcessAppend(parse, EMPTY, [lines[0]], lines[1]);
    ProcessAppend(parse, EMPTY, [lines[0], lines[1]], lines[2]);
    ThreeParts(lines);
  }

  lemma {:induction false} ProcessBoth<V>(parse: Parser<V>, pending: Pending, a: seq<string>, b: seq<string>)
    ensures var first := ProcessLines(parse, pending, a);
            var second := ProcessLines(parse, first.pending, b);
            ProcessLines(parse, pending, a + b) == Progress(second.pending, first.calls + second.calls)
    decreases a
  {
    if a == [] {
      assert a + b == b;
      assert [] + ProcessLines(parse, pending, b).calls == ProcessLines(parse, pending, b).calls;
    } else {
      var first := ProcessLine(parse, pending, WithoutReturn(a[0]));
      assert (a + b)[0] == a[0] && (a + b)[1..] == a[1..] + b;
      ProcessBoth(parse, first.pending, a[1..], b);
      var middle := ProcessLines(parse, first.pending, a[1..]);
      Associate(first.calls, middle.calls, ProcessLines(parse, middle.pending, b).calls);
    }
  }

  lemma {:induction false} EventsOneByOne<V>(parse: Parser<V>, payloads: seq<string>)
    requires forall payload :: payload in payloads ==> Writable(payload)
    ensures ProcessLines(parse, EMPTY, EncodedLines(payloads)) == Progress(EMPTY, Payloads(parse, payloads))
  {
    if payloads != [] {
      var first, others := EventLines(payloads[0]), EncodedLines(payloads[1..]);
      OneEvent(parse, payloads[0]);
      EventsOneByOne(parse, payloads[1..]);
      ProcessBoth(parse, EMPTY, first, others);
      assert EncodedLines(payloads) == first + others;
    }
  }

  /** Reading what a server wrote gives its payloads, in order. */
  lemma EncodedIsRead<V>(parse: Parser<V>, payloads: seq<string>)
    requires forall payload :: payload in payloads ==> Writable(payload)
    ensures Calls(parse, Encoded(payloads)) == Payloads(parse, payloads)
  {
    LinesOfEncoded(payloads);
    EventsOneByOne(parse, payloads);
    assert Payloads(parse, payloads) + [] + [] == Payloads(parse, payloads);
  }

  /** Cutting into lines loses nothing. */
  lemma {:induction false} LinesKeepText(text: string)
    ensures Written(Lines(text)) + Rest(text) == text
    decreases |text|
  {
    var newline := IndexOf(text, '\n');
    if newline >= 0 {
      LinesKeepText(text[newline + 1..]);
      WrittenMore(Lines(text), Rest(text));
      CutAt(text, newline);
    }
  }

  lemma CutAt(text: string, newline: nat)
    requires newline < |text| && text[newline] == '\n'
    ensures text == text[..newline] + "\n" + text[newline + 1..]
  {
  }

  /** The text with every newline preceded by a carriage return. */
  function WithReturns(text: string): string {
    if text == "" then "" else (if text[0] == '\n' then "\r\n" else [text[0]]) + WithReturns(text[1..])
  }

  function Returned(lines: seq<string>): seq<string> {
    if lines == [] then [] else [lines[0] + "\r"] + Returned(lines[1..])
  }

  lemma {:induction false} ReturnsAppend(a: string, b: string)
    ensures WithReturns(a + b) == WithReturns(a) + WithReturns(b)
    ensures '\n' !in a ==> WithReturns(a) == a
  {
    if a == "" {
      assert a + b == b;
    } else {
      var first := if a[0] == '\n' then "\r\n" else [a[0]];
      AppendParts(a, b, 0);
      ReturnsAppend(a[1..], b);
      Associate(first, WithReturns(a[1..]), WithReturns(b));
      assert '\n' !in a ==> a == [a[0]] + a[1..];
    }
  }

  lemma {:induction false} LinesWithReturns(text: string)
    requires '\r' !in text
    ensures Lines(WithReturns(text)) == Returned(Lines(text)) && Rest(WithReturns(text)) == Rest(text)
    ensures forall line :: line in Lines(text) ==> '\r' !in line
    decreases |text|
  {
    var newline := IndexOf(text, '\n');
    if newline == -1 {
      ReturnsAppend(text, "");
    } else {
      var line, more := text[..newline], text[newline + 1..];
      assert text == line + "\n" + more;
      LinesWithReturns(more);
      OneReturn(text, line, more);
      FirstLine(line + "\r", WithReturns(more));
      assert Returned([line] + Lines(more)) == [line + "\r"] + Returned(Lines(more)) by {
        assert ([line] + Lines(more))[1..] == Lines(more);
      }
    }
  }

  lemma OneReturn(text: string, line: string, more: string)
    requires text == line + "\n" + more && '\n' !in line
    ensures WithReturns(text) == line + "\r" + "\n" + WithReturns(more)
  {
    assert line + "\n" + more == line + ("\n" + more);
    ReturnsAppend(line, "\n" + more);
    ReturnFirst(more);
    assert line + ("\r\n" + WithReturns(more)) == line + "\r" + "\n" + WithReturns(more);
  }

  lemma ReturnFirst(more: string)
    ensures WithReturns("\n" + more) == "\r\n" + WithReturns(more)
  {
    assert ("\n" + more)[1..] == more;
  }

  lemma {:induction false} ProcessReturned<V>(parse: Parser<V>, pending: Pending, lines: seq<string>)
    requires forall line :: line in lines ==> '\r' !in line
    ensures ProcessLines(parse, pending, Returned(lines)) == ProcessLines(parse, pending, lines)
    decreases lines
  {
    if lines != [] {
      assert lines[0] in lines;
      assert WithoutReturn(lines[0] + "\r") == lines[0] == WithoutReturn(lines[0]);
      assert Returned(lines)[0] == lines[0] + "\r" && Returned(lines)[1..] == Returned(lines[1..]);
      ProcessReturned(parse, ProcessLine(parse, pending, lines[0]).pending, lines[1..]);
    }
  }

  /** Line ends may be newlines or carriage returns and newlines. */
  lemma ReturnsDoNotMatter<V>(parse: Parser<V>, text: string)
    requires '\r' !in text
    ensures Calls(parse, WithReturns(text)) == Calls(parse, text)
  {
    LinesWithReturns(text);
    ProcessReturned(parse, EMPTY, Lines(text));
  }

  lemma SkipComment<V>(parse: Parser<V>, before: seq<string>, line: string, after: seq<string>)
    requires line != "" && line[0] == ':'
    ensures ProcessLines(parse, EMPTY, before + [line] + after) == ProcessLines(parse, EMPTY, before + after)
  {
    var first := ProcessLines(parse, EMPTY, before);
    ProcessAppend(parse, EMPTY, before, line);
    assert ProcessLine(parse, first.pending, WithoutReturn(line)) == Progress(first.pending, []);
    assert first.calls + [] == first.calls;
    ProcessBoth(parse, EMPTY, before + [line], after);
    ProcessBoth(parse, EMPTY, before, after);
  }

  lemma LinesAround(before: seq<string>, line: string, after: string)
    requires '\n' !in line && forall l :: l in before ==> '\n' !in l
    ensures Lines(Written(before) + (line + "\n" + after)) == before + [line] + Lines(after)
    ensures Rest(Written(before) + (line + "\n" + after)) == Rest(after)
  {
    LinesOfWritten(before, line + "\n" + after);
    FirstLine(line, after);
    Associate(before, [line], Lines(after));
  }

  /** A comment line anywhere changes nothing. */
  lemma CommentsDoNotMatter<V>(parse: Parser<V>, before: seq<string>, comment: string, after: string)
    requires comment != "" && comment[0] == ':' && '\n' !in comment
    requires forall line :: line in before ==> '\n' !in line
    ensures Calls(parse, Written(before) + (comment + "\n" + after)) == Calls(parse, Written(before) + after)
  {
    LinesAround(before, comment, after);
    LinesOfWritten(before, after);
    SkipComment(parse, before, comment, Lines(after));
  }
}
