/** What any stream of well-formed items makes the reader do: events with any name and any
    number of data lines, reconnection times, comments and other fields. */
module SseItems {
  import opened Sse

  datatype Item =
    | Event(name: string, data: seq<string>)
    | Reconnect(value: string)
    | Comment(text: string)
    | Other(name: string, value: string)

  function FieldLine(name: string, value: string): string {
    name + ": " + value
  }

  function DataLines(data: seq<string>): seq<string> {
    if data == [] then [] else [FieldLine("data", data[0])] + DataLines(data[1..])
  }

  /** An item as a server writes it. */
  function ItemLines(item: Item): seq<string> {
    match item
    case Event(name, data) => [FieldLine("event", name)] + (DataLines(data) + [""])
    case Reconnect(value) => [FieldLine("retry", value)]
    case Comment(text) => [":" + text]
    case Other(name, value) => [FieldLine(name, value)]
  }

  function StreamLines(items: seq<Item>): seq<string> {
    if items == [] then [] else ItemLines(items[0]) + StreamLines(items[1..])
  }

  /** A text of one line, without a carriage return at its end. */
  predicate Plain(text: string) {
    '\n' !in text && (text != "" ==> text[|text| - 1] != '\r')
  }

  predicate WellFormed(item: Item) {
    match item
    case Event(name, data) => Plain(name) && forall d :: d in data ==> Plain(d)
    case Reconnect(value) => Plain(value)
    case Comment(text) => Plain(text)
    case Other(name, value) =>
      name != "" && ':' !in name && '\n' !in name && name !in {"event", "data", "retry"} && Plain(value)
  }

  /** A tag value event with data gives the value of its data lines, joined by newlines, if
      they parse; a reconnection time of digits only is reported; nothing else is. */
  function ItemCalls<V>(parse: Parser<V>, item: Item): seq<Call<V>> {
    match item
    case Event(name, data) =>
      if name == "tag_value" && data != [] && parse(Join(data)).Value? then [Message(parse(Join(data)).value)] else []
    case Reconnect(value) =>
      if value != "" && forall i :: 0 <= i < |value| ==> '0' <= value[i] <= '9' then [Retry(value)] else []
    case _ => []
  }

  function StreamCalls<V>(parse: Parser<V>, items: seq<Item>): seq<Call<V>> {
    if items == [] then [] else ItemCalls(parse, items[0]) + StreamCalls(parse, items[1..])
  }

  /** Joining lines is undone by cutting at newlines. */
  lemma {:induction false} JoinedLines(data: seq<string>)
    requires data != [] && forall d :: d in data ==> '\n' !in d
    ensures Lines(Join(data) + "\n") == data
  {
    assert data[0] in data;
    if |data| == 1 {
      FirstLine(data[0], "");
      Emptied(data[0] + "\n");
      assert Lines("") == [] && data == [data[0]];
    } else {
      JoinedLines(data[1..]);
      Associate(data[0] + "\n", Join(data[1..]), "\n");
      FirstLine(data[0], Join(data[1..]) + "\n");
      assert [data[0]] + data[1..] == data;
    }
  }

  lemma FieldLineIsPlain(name: string, value: string)
    requires name != "" && '\n' !in name && Plain(value)
    ensures Plain(FieldLine(name, value)) && WithoutReturn(FieldLine(name, value)) == FieldLine(name, value)
    ensures FieldLine(name, value)[0] == name[0]
  {
  }

  /** What a field asks for. */
  function FieldProgress<V>(parse: Parser<V>, pending: Pending, name: string, value: string): Progress<V> {
    if name == "event" then Progress(pending.(event := value), [])
    else if name == "data" then Progress(pending.(data := pending.data + [value]), [])
    else Progress(pending, if name == "retry" then ItemCalls(parse, Reconnect(value)) else [])
  }

  lemma LineProgress<V>(parse: Parser<V>, pending: Pending, line: string, name: string, value: string)
    requires line != "" && line[0] != ':' && FieldOf(line) == Field(name, value)
    ensures ProcessLine(parse, pending, line) == FieldProgress(parse, pending, name, value)
  {
    assert forall i :: 0 <= i < |value| ==> value[i] in value;
  }

  lemma FieldIsRead<V>(parse: Parser<V>, pending: Pending, name: string, value: string)
    requires name != "" && ':' !in name && '\n' !in name && Plain(value)
    ensures ProcessLine(parse, pending, WithoutReturn(FieldLine(name, value)))
         == FieldProgress(parse, pending, name, value)
  {
    var line := FieldLine(name, value);
    FieldLineIsPlain(name, value);
    FieldWritten(name, value);
    assert name[0] in name;
    LineProgress(parse, pending, line, name, value);
  }

  lemma {:induction false} DataIsRead<V>(parse: Parser<V>, pending: Pending, data: seq<string>)
    requires forall d :: d in data ==> Plain(d)
    ensures ProcessLines(parse, pending, DataLines(data)) == Progress(pending.(data := pending.data + data), [])
    decreases data
  {
    if data == [] {
      assert pending.data + [] == pending.data;
    } else {
      assert data[0] in data;
      DataLineIsRead(parse, pending, data[0]);
      DataIsRead(parse, pending.(data := pending.data + [data[0]]), data[1..]);
      FirstThenRest(pending.data, data);
      SilentLine(parse, pending, FieldLine("data", data[0]), pending.(data := pending.data + [data[0]]),
                 DataLines(data[1..]), pending.(data := pending.data + data));
    }
  }

  lemma FirstThenRest<T>(a: seq<T>, b: seq<T>)
    requires b != []
    ensures a + [b[0]] + b[1..] == a + b
  {
  }

  lemma SilentLine<V>(parse: Parser<V>, pending: Pending, line: string, after: Pending, more: seq<string>, end: Pending)
    requires ProcessLine(parse, pending, WithoutReturn(line)) == Progress(after, [])
    requires ProcessLines(parse, after, more) == Progress(end, [])
    ensures ProcessLines(parse, pending, [line] + more) == Progress(end, [])
  {
    StartLine(parse, pending, line, more);
  }

  lemma DataLineIsRead<V>(parse: Parser<V>, pending: Pending, d: string)
    requires Plain(d)
    ensures ProcessLine(parse, pending, WithoutReturn(FieldLine("data", d)))
         == Progress(pending.(data := pending.data + [d]), [])
  {
    FieldIsRead(parse, pending, "data", d);
  }

  lemma EventLineIsRead<V>(parse: Parser<V>, name: string)
    requires Plain(name)
    ensures ProcessLine(parse, EMPTY, WithoutReturn(FieldLine("event", name))) == Progress(Pending([], name), [])
  {
    FieldIsRead(parse, EMPTY, "event", name);
  }

  lemma StartLine<V>(parse: Parser<V>, pending: Pending, line: string, more: seq<string>)
    ensures var first := ProcessLine(parse, pending, WithoutReturn(line));
            var others := ProcessLines(parse, first.pending, more);
            ProcessLines(parse, pending, [line] + more) == Progress(others.pending, first.calls + others.calls)
  {
    assert ([line] + more)[0] == line && ([line] + more)[1..] == more;
  }

  lemma EventIsRead<V>(parse: Parser<V>, name: string, data: seq<string>)
    requires WellFormed(Event(name, data))
    ensures ProcessLines(parse, EMPTY, ItemLines(Event(name, data)))
         == Progress(EMPTY, ItemCalls(parse, Event(name, data)))
  {
    EventLineIsRead(parse, name);
    StartLine(parse, EMPTY, FieldLine("event", name), DataLines(data) + [""]);
    DataIsRead(parse, Pending([], name), data);
    assert [] + data == data;
    ProcessAppend(parse, Pending([], name), DataLines(data), "");
    Emptied(Dispatch(parse, Pending(data, name)));
  }

  lemma Emptied<T>(s: seq<T>)
    ensures [] + s == s && [] + ([] + s) == s && s + [] == s
  {
  }

  lemma LineIsRead<V>(parse: Parser<V>, line: string)
    ensures var only := ProcessLine(parse, EMPTY, WithoutReturn(line));
            ProcessLines(parse, EMPTY, [line]) == only
  {
    StartLine(parse, EMPTY, line, []);
    var only := ProcessLine(parse, EMPTY, WithoutReturn(line));
    assert [line] + [] == [line] && only.calls + [] == only.calls;
  }

  /** Every item leaves nothing pending and makes its calls. */
  lemma ItemIsRead<V>(parse: Parser<V>, item: Item)
    requires WellFormed(item)
    ensures ProcessLines(parse, EMPTY, ItemLines(item)) == Progress(EMPTY, ItemCalls(parse, item))
  {
    match item
    case Event(name, data) => EventIsRead(parse, name, data);
    case Reconnect(value) =>
      FieldIsRead(parse, EMPTY, "retry", value);
      LineIsRead(parse, FieldLine("retry", value));
    case Comment(text) =>
      assert WithoutReturn(":" + text) == ":" + text;
      LineIsRead(parse, ":" + text);
    case Other(name, value) =>
      FieldIsRead(parse, EMPTY, name, value);
      LineIsRead(parse, FieldLine(name, value));
  }

  lemma {:induction false} DataLinesAreLines(data: seq<string>)
    requires forall d :: d in data ==> '\n' !in d
    ensures forall line :: line in DataLines(data) ==> '\n' !in line
  {
    if data != [] {
      assert data[0] in data && '\n' !in FieldLine("data", data[0]);
      DataLinesAreLines(data[1..]);
    }
  }

  lemma ItemLinesAreLines(item: Item)
    requires WellFormed(item)
    ensures forall line :: line in ItemLines(item) ==> '\n' !in line
  {
    if item.Event? {
      DataLinesAreLines(item.data);
      assert '\n' !in FieldLine("event", item.name);
    }
  }

  lemma {:induction false} ItemsOneByOne<V>(parse: Parser<V>, items: seq<Item>)
    requires forall item :: item in items ==> WellFormed(item)
    ensures ProcessLines(parse, EMPTY, StreamLines(items)) == Progress(EMPTY, StreamCalls(parse, items))
    ensures forall line :: line in StreamLines(items) ==> '\n' !in line
  {
    if items != [] {
      assert items[0] in items;
      ItemIsRead(parse, items[0]);
      ItemLinesAreLines(items[0]);
      ItemsOneByOne(parse, items[1..]);
      ProcessBoth(parse, EMPTY, ItemLines(items[0]), StreamLines(items[1..]));
    }
  }

  /** Reading a stream of items makes exactly the calls of its items, in order. */
  lemma ItemsAreRead<V>(parse: Parser<V>, items: seq<Item>)
    requires forall item :: item in items ==> WellFormed(item)
    ensures Calls(parse, Written(StreamLines(items))) == StreamCalls(parse, items)
  {
    ItemsOneByOne(parse, items);
    LinesOfWritten(StreamLines(items), "");
    assert Written(StreamLines(items)) + "" == Written(StreamLines(items));
    assert StreamLines(items) + [] == StreamLines(items);
    assert StreamCalls(parse, items) + [] + [] == StreamCalls(parse, items);
  }
}
