/**
  What the event parser promises, stated against definitions that read a
  record's lines directly rather than replaying the parser.
 */
module EventProperties {
  import opened Wrappers
  import opened ByteLines
  import opened Strings
  import opened EventStream

  /** The values of the record's `data` lines, in order. */
  function DataValues(lines: seq<string>): seq<string>
    decreases |lines|
  {
    if lines == [] then []
    else
      var before := DataValues(lines[..|lines| - 1]);
      var last := lines[|lines| - 1];
      if HasField(last, "data") then before + [LineField(last).value.1] else before
  }

  /** Line `i` sets `name` and no later line does. */
  predicate LastSetAt(lines: seq<string>, name: string, i: int) {
    && 0 <= i < |lines| && HasField(lines[i], name)
    && forall j :: i < j < |lines| ==> !HasField(lines[j], name)
  }

  /** The value of the last line that sets `name`, if any line does. */
  function LastValue(lines: seq<string>, name: string): Option<string>
    decreases |lines|
  {
    if lines == [] then None
    else
      var last := lines[|lines| - 1];
      if HasField(last, name) then Some(LineField(last).value.1)
      else LastValue(lines[..|lines| - 1], name)
  }

  /** No value exactly when no line sets `name`. */
  lemma {:induction false} LastValueNoneIff(lines: seq<string>, name: string)
    ensures LastValue(lines, name).None? <==> forall i :: 0 <= i < |lines| ==> !HasField(lines[i], name)
    decreases |lines|
  {
    if lines != [] {
      var init := lines[..|lines| - 1];
      LastValueNoneIff(init, name);
      assert forall i :: 0 <= i < |init| ==> init[i] == lines[i];
    }
  }

  /** Last occurrence wins: the value is that of the last line setting
      `name`. */
  lemma {:induction false} LastValueIsLastSetting(lines: seq<string>, name: string, i: int)
    requires LastSetAt(lines, name, i)
    ensures LastValue(lines, name) == Some(LineField(lines[i]).value.1)
    decreases |lines|
  {
    if i < |lines| - 1 {
      var init := lines[..|lines| - 1];
      assert init[i] == lines[i];
      assert forall j :: i < j < |init| ==> init[j] == lines[j];
      LastValueIsLastSetting(init, name, i);
    }
  }

  /** The name a dispatched event carries: that of the last `event` line,
      or "message" when there is none or its value is empty. */
  function EventName(lines: seq<string>): string {
    match LastValue(lines, "event")
    case Some(name) => if name == "" then "message" else name
    case None => "message"
  }

  /** Every value followed by a newline, all concatenated. */
  function Terminated(values: seq<string>): string
    decreases |values|
  {
    if values == [] then [] else Terminated(values[..|values| - 1]) + values[|values| - 1] + "\n"
  }

  lemma {:induction false} JoinSnoc(parts: seq<string>, part: string, sep: char)
    requires parts != []
    ensures Join(parts + [part], sep) == Join(parts, sep) + [sep] + part
    decreases |parts|
  {
    if |parts| > 1 {
      assert (parts + [part])[1..] == parts[1..] + [part];
      JoinSnoc(parts[1..], part, sep);
    }
  }

  /** Accumulated data is the values joined by newlines, plus one newline. */
  lemma {:induction false} TerminatedIsJoinPlusNewline(values: seq<string>)
    requires values != []
    ensures Terminated(values) == Join(values, '\n') + "\n"
    decreases |values|
  {
    var init, last := values[..|values| - 1], values[|values| - 1];
    if init != [] {
      TerminatedIsJoinPlusNewline(init);
      JoinSnoc(init, last, '\n');
      assert values == init + [last];
    }
  }

  /** Building the event over a record's lines: `data` is every data value
      with a newline after it, and `id`, `event` and `retry` hold the value
      of their last line, or the default when there is none. */
  lemma {:induction false} AccumulateFields(lines: seq<string>)
    ensures Accumulate(lines) == Event(
      LastValue(lines, "id"),
      LastValue(lines, "event").GetOr("message"),
      Terminated(DataValues(lines)),
      LastValue(lines, "retry"))
    decreases |lines|
  {
    if lines != [] {
      var init, last := lines[..|lines| - 1], lines[|lines| - 1];
      AccumulateFields(init);
      var before := Accumulate(init);
      assert Accumulate(lines) == ApplyLine(before, last);
      var values := DataValues(init);
      match LineField(last)
      case None =>
        assert DataValues(lines) == values;
      case Some((name, v)) =>
        if name == "data" {
          assert DataValues(lines) == values + [v];
          assert (values + [v])[..|values|] == values;
        } else {
          assert DataValues(lines) == values;
        }
    }
  }

  /** One record's lines give an event exactly when some line sets `data`;
      its data is the data values joined by newlines, its `id` and `retry`
      those of the last line setting them, and its name never empty. */
  lemma ParseLinesCharacterization(lines: seq<string>)
    ensures ParseLines(lines) ==
      if DataValues(lines) == [] then None
      else Some(Event(LastValue(lines, "id"), EventName(lines),
                      Join(DataValues(lines), '\n'), LastValue(lines, "retry")))
  {
    AccumulateFields(lines);
    var values := DataValues(lines);
    if values != [] {
      TerminatedIsJoinPlusNewline(values);
      var t := Terminated(values);
      assert t[..|t| - 1] == Join(values, '\n');
    } else {
      assert Terminated(values) == [];
    }
  }

  predicate HasDataLine(lines: seq<string>) {
    exists i :: 0 <= i < |lines| && HasField(lines[i], "data")
  }

  lemma {:induction false} DataValuesEmptyIff(lines: seq<string>)
    ensures DataValues(lines) == [] <==> !HasDataLine(lines)
    decreases |lines|
  {
    if lines != [] {
      var init, n := lines[..|lines| - 1], |lines| - 1;
      if HasField(lines[n], "data") {
        assert DataValues(lines) == DataValues(init) + [LineField(lines[n]).value.1];
        assert HasDataLine(lines);
      } else {
        assert DataValues(lines) == DataValues(init);
        DataValuesEmptyIff(init);
        if HasDataLine(lines) {
          var i :| 0 <= i < |lines| && HasField(lines[i], "data");
          assert i != n;
          assert init[i] == lines[i];
          assert HasField(init[i], "data");
        }
        if HasDataLine(init) {
          var i :| 0 <= i < |init| && HasField(init[i], "data");
          assert init[i] == lines[i];
        }
      }
    }
  }

  /** Suppression: a record yields no event exactly when none of its lines
      is a `data` line; blank lines, comments, unknown fields and the other
      fields never make an event on their own. */
  lemma NoDataLineNoEvent(lines: seq<string>)
    ensures ParseLines(lines).None? <==> !HasDataLine(lines)
  {
    ParseLinesCharacterization(lines);
    DataValuesEmptyIff(lines);
  }

  /** Every dispatched event has a name, "message" by default. */
  lemma DispatchedEventHasName(lines: seq<string>)
    ensures ParseLines(lines).Some? ==> ParseLines(lines).value.event != ""
    ensures ParseLines(lines).Some? && LastValue(lines, "event") in {None, Some("")} ==>
      ParseLines(lines).value.event == "message"
  {
    ParseLinesCharacterization(lines);
  }

  // The example lines are parameters fixed by `requires` rather than
  // literals in the body: a literal in a lemma's own context makes the
  // verifier evaluate the parser on it.

  /** Two data lines are joined by one newline. */
  lemma TwoDataLinesJoined(first: string, second: string)
    requires first == "data# foo" && second == "data# bar"
    ensures ParseLines([first, second]) == Some(Event(None, "message", "foo\nbar", None))
  {
    DataLine(first, "foo");
    DataLine(second, "bar");
    DataLinesJoined(first, second, "foo", "bar");
    NewlineJoin("foo", "bar");
  }

  // The literal join sits in a lemma of its own: in the context of
  // `TwoDataLinesJoined` the verifier would also evaluate the parser on it.
  lemma NewlineJoin(v: string, w: string)
    requires v == "foo" && w == "bar"
    ensures v + "\n" + w == "foo\nbar"
  {
  }

  /** A record of two data lines gives an event whose data is their values
      with one newline between them. */
  lemma DataLinesJoined(first: string, second: string, v: string, w: string)
    requires LineField(first) == Some(("data", v)) && LineField(second) == Some(("data", w))
    ensures ParseLines([first, second]) == Some(Event(None, "message", v + "\n" + w, None))
  {
    AccumulateTwo(first, second);
    var once := ApplyLine(NewEvent, first);
    ApplyDataLine(NewEvent, first, v);
    ApplyDataLine(once, second, w);
    assert "" + v + "\n" + w == v + "\n" + w;
    FinishData(ApplyLine(once, second), v + "\n" + w);
  }

  /** A record of one data line gives an event carrying its value. */
  lemma SingleDataLine(line: string, v: string)
    requires LineField(line) == Some(("data", v))
    ensures ParseLines([line]) == Some(Event(None, "message", v, None))
  {
    AccumulateOne(line);
    ApplyDataLine(NewEvent, line, v);
    assert "" + v == v;
    FinishData(ApplyLine(NewEvent, line), v);
  }

  /** `data# v` sets `data` to `v`; only the first separator splits, so `v`
      may itself hold separators. */
  lemma DataLine(line: string, value: string)
    requires line == "data# " + value
    ensures LineField(line) == Some(("data", value))
  {
    var rest := " " + value;
    assert line == "data" + [FieldSeparator] + rest;
    FieldLine(line, "data", rest);
    assert rest[1..] == value;
  }

  /** A `data` line with an empty value still makes an event, whose data is
      empty. */
  lemma EmptyDataValueIsDispatched(bare: string, separated: string)
    requires bare == "data" && separated == "data#"
    ensures ParseLines([bare]) == Some(Event(None, "message", "", None))
    ensures ParseLines([separated]) == Some(Event(None, "message", "", None))
  {
    BareFieldLine(bare);
    SingleDataLine(bare, "");
    assert separated == bare + [FieldSeparator] + "";
    FieldLine(separated, bare, "");
    SingleDataLine(separated, "");
  }

  /** Only the first leading space of a value is dropped. */
  lemma SecondSpaceKept(line: string)
    requires line == "data#  bar"
    ensures LineField(line) == Some(("data", " bar"))
  {
    var rest := "  bar";
    assert line == "data" + [FieldSeparator] + rest;
    FieldLine(line, "data", rest);
    assert rest[1..] == " bar";
  }

  /** A line without a separator, neither blank at its start nor a comment:
      the field named by the whole line, with an empty value. */
  lemma BareFieldLine(line: string)
    requires line != [] && !IsSpace(line[0]) && line[0] != FieldSeparator
    requires FieldSeparator !in line
    ensures LineField(line) == Some((line, ""))
  {
    assert !IsBlank(line);
    LineFieldParts(line);
  }

  /** A line `name#rest`, with a name that is neither blank at its start
      nor a comment: the field `name`, with one leading space of `rest`
      dropped. */
  lemma FieldLine(line: string, name: string, rest: string)
    requires line == name + [FieldSeparator] + rest
    requires name != [] && !IsSpace(name[0]) && name[0] != FieldSeparator
    requires FieldSeparator !in name
    ensures LineField(line) == Some((name, DropOneSpace(rest)))
  {
    assert line[0] == name[0];
    assert !IsIgnored(line);
    forall j | 0 <= j < |name|
      ensures line[j] != FieldSeparator
    {
      assert line[j] == name[j];
    }
    IndexOfAt(line, FieldSeparator, |name|);
    assert line[..|name|] == name && line[|name| + 1..] == rest;
  }

  lemma ApplyDataLine(event: Event, line: string, v: string)
    requires LineField(line) == Some(("data", v))
    ensures ApplyLine(event, line) == event.(data := event.data + v + "\n")
  {
  }

  lemma AccumulateOne(line: string)
    ensures Accumulate([line]) == ApplyLine(NewEvent, line)
  {
    assert [line][..0] == [];
  }

  lemma AccumulateTwo(first: string, second: string)
    ensures Accumulate([first, second]) == ApplyLine(ApplyLine(NewEvent, first), second)
  {
    AccumulateOne(first);
    assert [first, second][..1] == [first];
  }

  /** A named event whose data is `v` plus a newline finishes with data `v`. */
  lemma FinishData(event: Event, v: string)
    requires event.data == v + "\n" && event.event == "message"
    ensures Finish(event) == Some(event.(data := v))
  {
    assert event.data[..|event.data| - 1] == v;
  }

  /** Value extraction: a line is split at its first separator only, so the
      value may itself hold separators; one leading space is dropped; a
      line without a separator is a field with an empty value. */
  lemma LineFieldParts(line: string)
    ensures LineField(line).None? <==> IsIgnored(line)
    ensures LineField(line).Some? && FieldSeparator !in line ==> LineField(line).value == (line, "")
    ensures LineField(line).Some? && FieldSeparator in line ==>
      var (name, value) := LineField(line).value;
      && FieldSeparator !in name
      && |name| < |line| && line[..|name|] == name && line[|name|] == FieldSeparator
      && (line[|name| + 1..] == value || line[|name| + 1..] == [' '] + value)
      && (StartsWith(line[|name| + 1..], ' ') <==> line[|name| + 1..] == [' '] + value)
  {
    if LineField(line).Some? && FieldSeparator in line {
      var parts := SplitOnce(line, FieldSeparator);
      assert line == parts[0] + [FieldSeparator] + parts[1];
      assert line[|parts[0]| + 1..] == parts[1];
    }
  }

  /** One line only adds to `data`, and changes a field only when it sets
      that field. */
  lemma ApplyLineChanges(event: Event, line: string)
    ensures event.data <= ApplyLine(event, line).data
    ensures ApplyLine(event, line).data != event.data ==> HasField(line, "data")
    ensures ApplyLine(event, line).id != event.id ==> HasField(line, "id")
    ensures ApplyLine(event, line).event != event.event ==> HasField(line, "event")
    ensures ApplyLine(event, line).retry != event.retry ==> HasField(line, "retry")
  {
  }

  /** A line naming no known field leaves the event unchanged. */
  lemma UnknownFieldIgnored(event: Event, line: string)
    requires LineField(line).Some? && !IsKnownField(LineField(line).value.0)
    ensures ApplyLine(event, line) == event
  {
  }

  // The whole stream: events come out in record order, at most one each.

  /** The positions of the records that yield an event. */
  function DispatchIndices(records: seq<seq<Byte>>, decode: seq<Byte> -> string): seq<nat>
    decreases |records|
  {
    if records == [] then []
    else
      DispatchIndices(records[..|records| - 1], decode)
      + if RecordEvent(records[|records| - 1], decode).Some? then [|records| - 1] else []
  }

  /** The dispatched events are the events of the records that have one,
      one per such record, in the order of the records. */
  lemma {:induction false} DispatchedInRecordOrder(records: seq<seq<Byte>>, decode: seq<Byte> -> string)
    ensures var idx, events := DispatchIndices(records, decode), Dispatched(records, decode);
      && |idx| == |events| <= |records|
      && (forall k :: 0 <= k < |idx| ==>
            idx[k] < |records| && RecordEvent(records[idx[k]], decode) == Some(events[k]))
      && (forall k, l :: 0 <= k < l < |idx| ==> idx[k] < idx[l])
    decreases |records|
  {
    if records != [] {
      var init, n := records[..|records| - 1], |records| - 1;
      DispatchedInRecordOrder(init, decode);
      var idx, events := DispatchIndices(init, decode), Dispatched(init, decode);
      assert forall i :: 0 <= i < |init| ==> init[i] == records[i];
      match RecordEvent(records[n], decode)
      case Some(e) =>
        assert DispatchIndices(records, decode) == idx + [n];
        assert Dispatched(records, decode) == events + [e];
      case None =>
        assert DispatchIndices(records, decode) == idx;
        assert Dispatched(records, decode) == events;
    }
  }

  /** No record with an event is skipped. */
  lemma DispatchIndicesComplete(records: seq<seq<Byte>>, decode: seq<Byte> -> string)
    ensures forall i :: 0 <= i < |records| && RecordEvent(records[i], decode).Some? ==>
      i in DispatchIndices(records, decode)
  {
    forall i | 0 <= i < |records| && RecordEvent(records[i], decode).Some?
      ensures i in DispatchIndices(records, decode)
    {
      DispatchIndexPresent(records, decode, i);
    }
  }

  /** A record with an event has its position among the dispatched ones. */
  lemma {:induction false} DispatchIndexPresent(records: seq<seq<Byte>>, decode: seq<Byte> -> string, i: nat)
    requires i < |records| && RecordEvent(records[i], decode).Some?
    ensures i in DispatchIndices(records, decode)
    decreases |records|
  {
    var init, n := records[..|records| - 1], |records| - 1;
    var idx, all := DispatchIndices(init, decode), DispatchIndices(records, decode);
    if i == n {
      assert all == idx + [n];
      assert all[|idx|] == n;
    } else {
      assert init[i] == records[i];
      DispatchIndexPresent(init, decode, i);
      assert idx <= all;
      var j :| 0 <= j < |idx| && idx[j] == i;
      assert all[j] == i;
    }
  }
}
