/**
  The event parser of the event-stream reader (`events`): every record the
  framer yields is split into lines, each line is decoded and read as a
  `field#value` pair, and a record that set `data` becomes one `Event`.
  The field separator, and the comment marker, is `#`.
 */
module EventStream {
  import opened Wrappers
  import opened ByteLines
  import opened Strings
  import Framer

  const FieldSeparator: char := '#'

  /** An event as the reader yields it; every field holds the text of the
      line that set it (`retry` is not converted to a number). */
  datatype Event = Event(id: Option<string>, event: string, data: string, retry: Option<string>)

  /** `Event()`: the defaults of a fresh event. */
  const NewEvent: Event := Event(None, "message", "", None)

  /** The attribute names of an `Event`, the only fields a line may set. */
  predicate IsKnownField(name: string) {
    name == "id" || name == "event" || name == "data" || name == "retry"
  }

  /** Lines that carry no field: blank ones and comments. */
  predicate IsIgnored(line: string) {
    IsBlank(line) || StartsWith(line, FieldSeparator)
  }

  /** A value loses one leading space, and only one. */
  function DropOneSpace(rest: string): (value: string)
    ensures rest == value || rest == [' '] + value
    ensures StartsWith(rest, ' ') <==> rest == [' '] + value
  {
    if StartsWith(rest, ' ') then rest[1..] else rest
  }

  /** The field name and value of a line that is not ignored: the name is
      the text before the first separator, the value the text after it
      less one leading space, or empty when there is no separator. */
  function LineField(line: string): Option<(string, string)>
  {
    if IsIgnored(line) then None
    else
      var parts := SplitOnce(line, FieldSeparator);
      Some((parts[0], if |parts| > 1 then DropOneSpace(parts[1]) else ""))
  }

  predicate HasField(line: string, name: string) {
    LineField(line).Some? && LineField(line).value.0 == name
  }

  /** The effect of one decoded line on the event being built: `data`
      values accumulate, each followed by a newline; the other known fields
      are overwritten; anything else leaves the event as it was. */
  function ApplyLine(event: Event, line: string): Event
  {
    match LineField(line)
    case None => event
    case Some((name, value)) =>
      if !IsKnownField(name) then event
      else if name == "data" then event.(data := event.data + value + "\n")
      else if name == "id" then event.(id := Some(value))
      else if name == "event" then event.(event := value)
      else event.(retry := Some(value))
  }

  /** The event after all the lines of one record, starting from `Event()`. */
  function Accumulate(lines: seq<string>): Event
    decreases |lines|
  {
    if lines == [] then NewEvent
    else ApplyLine(Accumulate(lines[..|lines| - 1]), lines[|lines| - 1])
  }

  /** After the last line: no event without data; otherwise one trailing
      newline goes, and an empty event name becomes "message". */
  function Finish(event: Event): Option<Event>
  {
    if event.data == "" then None
    else
      var data := if EndsWithChar(event.data, '\n') then event.data[..|event.data| - 1] else event.data;
      Some(event.(data := data, event := if event.event == "" then "message" else event.event))
  }

  /** Dispatch keeps `id` and `retry`, never leaves the name empty, and
      drops at most one trailing newline from the data. */
  lemma FinishDispatch(event: Event)
    ensures Finish(event).None? <==> event.data == ""
    ensures Finish(event).Some? ==>
      var e := Finish(event).value;
      && e.id == event.id && e.retry == event.retry && e.event != ""
      && (event.event != "" ==> e.event == event.event)
      && (event.data == e.data + "\n" || (event.data == e.data && !EndsWithChar(event.data, '\n')))
  {
    if event.data != "" && EndsWithChar(event.data, '\n') {
      assert event.data == event.data[..|event.data| - 1] + "\n";
    }
  }

  /** The event, if any, that one record's decoded lines describe. */
  function ParseLines(lines: seq<string>): Option<Event> {
    Finish(Accumulate(lines))
  }

  /** Each raw line decoded on its own, after splitting. */
  function DecodeAll(lines: seq<seq<Byte>>, decode: seq<Byte> -> string): seq<string>
    decreases |lines|
  {
    if lines == [] then [] else DecodeAll(lines[..|lines| - 1], decode) + [decode(lines[|lines| - 1])]
  }

  /** The event, if any, of one record: split at CR, LF and CR LF only,
      then decoded line by line. */
  function RecordEvent(record: seq<Byte>, decode: seq<Byte> -> string): Option<Event> {
    ParseLines(DecodeAll(SplitLines(record, false), decode))
  }

  /** The events of a sequence of records, in record order. */
  function Dispatched(records: seq<seq<Byte>>, decode: seq<Byte> -> string): seq<Event>
    decreases |records|
  {
    if records == [] then []
    else
      var before := Dispatched(records[..|records| - 1], decode);
      match RecordEvent(records[|records| - 1], decode)
      case Some(event) => before + [event]
      case None => before
  }

  /** The body of the reader's record loop: builds a fresh event from the
      lines of `record` and returns it unless it has no data. */
  method ParseRecord(record: seq<Byte>, decode: seq<Byte> -> string) returns (result: Option<Event>)
    ensures result == RecordEvent(record, decode)
  {
    var lines := SplitLines(record, false);
    var event := NewEvent;
    for i := 0 to |lines|
      invariant event == Accumulate(DecodeAll(lines[..i], decode))
    {
      var line := decode(lines[i]);
      AccumulateStep(lines, i, decode);
      if IsBlank(line) || StartsWith(line, FieldSeparator) {
        continue;
      }
      var parts := SplitOnce(line, FieldSeparator);
      var field := parts[0];
      if !IsKnownField(field) {
        continue;
      }
      var value;
      if |parts| > 1 {
        if StartsWith(parts[1], ' ') {
          value := parts[1][1..];
        } else {
          value := parts[1];
        }
      } else {
        value := "";
      }
      if field == "data" {
        event := event.(data := event.data + value + "\n");
      } else if field == "id" {
        event := event.(id := Some(value));
      } else if field == "event" {
        event := event.(event := value);
      } else {
        event := event.(retry := Some(value));
      }
    }
    assert lines[..|lines|] == lines;
    if event.data == "" {
      return None;
    }
    if EndsWithChar(event.data, '\n') {
      event := event.(data := event.data[..|event.data| - 1]);
    }
    if event.event == "" {
      event := event.(event := "message");
    }
    result := Some(event);
  }

  /** The reader's event generator over a whole stream: frames the chunks
      into records and yields the event of each record that has one. */
  method Events(chunks: seq<seq<Byte>>, decode: seq<Byte> -> string) returns (events: seq<Event>)
    ensures events == Dispatched(Framer.StreamRecords(chunks), decode)
  {
    var records := Framer.Read(chunks);
    events := [];
    for i := 0 to |records|
      invariant events == Dispatched(records[..i], decode)
    {
      DispatchedStep(records, i, decode);
      var event := ParseRecord(records[i], decode);
      if event.Some? {
        events := events + [event.value];
      }
    }
    assert records[..|records|] == records;
  }

  /** One more decoded line applied to the event built so far. */
  lemma AccumulateStep(lines: seq<seq<Byte>>, i: nat, decode: seq<Byte> -> string)
    requires i < |lines|
    ensures Accumulate(DecodeAll(lines[..i + 1], decode))
         == ApplyLine(Accumulate(DecodeAll(lines[..i], decode)), decode(lines[i]))
  {
    assert lines[..i + 1][..i] == lines[..i];
    var decoded := DecodeAll(lines[..i + 1], decode);
    assert decoded == DecodeAll(lines[..i], decode) + [decode(lines[i])];
    assert decoded[..|decoded| - 1] == DecodeAll(lines[..i], decode);
  }

  /** One more record: its event, if any, comes after the earlier ones. */
  lemma DispatchedStep(records: seq<seq<Byte>>, i: nat, decode: seq<Byte> -> string)
    requires i < |records|
    ensures Dispatched(records[..i + 1], decode) == Dispatched(records[..i], decode)
      + match RecordEvent(records[i], decode) case Some(e) => [e] case None => []
  {
    assert records[..i + 1][..i] == records[..i];
  }
}
