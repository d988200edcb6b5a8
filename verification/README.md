# Event-stream reader of the Authentise session client, in Dafny

`AuthentiseSession` in `AuthSessionExample.py` authenticates against an
Authentise server and then reads a server-pushed event stream over HTTP.
This project models the part of it that does not touch the network: the
pipeline that turns the streamed response body into events, and the
extraction of the session cookie.

- **Chunk framer** (`_read`, module `Framer`). The response arrives in byte
  chunks. Each chunk is split into lines, with their terminators kept, by
  Python's `bytes.splitlines` (module `ByteLines`). The lines are appended
  to a pending buffer. Whenever the buffer ends with CR CR, LF LF or
  CR LF CR LF, it is emitted as a record and cleared. At the end of the
  stream, whatever is left is emitted if it is not empty. The buffer is the
  class `ChunkFramer` with `Feed` and `Flush`. `Read` drives it over a whole
  stream and is proved equal to the function `StreamRecords`.
- **Event parser** (`events` and `Event`, modules `EventStream` and
  `EventProperties`). Each record is split into lines at CR, LF and CR LF.
  Each line is decoded on its own. Blank lines and lines starting with the
  separator `#` are skipped. A line is split at its first `#` into a field
  name and a value. One leading space is dropped from the value. A line
  without `#` has an empty value. Only the four fields of `Event` (`id`,
  `event`, `data`, `retry`) are used, and the rest are ignored. Each `data`
  value is appended with a newline after it. The other fields are
  overwritten, so the last occurrence wins. A record whose accumulated data
  is empty yields no event. Otherwise one trailing newline is dropped and
  an empty event name becomes `"message"`. `ParseRecord` is the loop body
  for one record, and `Events` is the whole generator. Both are proved
  against the specification functions `RecordEvent` and `Dispatched`.
  `EventProperties` then characterises those functions in terms of a
  record's lines.
- **Session cookie** (`_parse_session_cookie`, module `SessionCookie`). The
  cookie header is cut at its first `;`, using Python's `str.split` (module
  `Strings`).

Where the code departs from the WHATWG event-stream rules, or from what one
might expect of it, the model follows the code:

- The field separator and comment marker is `#`, not `:`.
- `retry` stays the string the line carried. It is never converted to an
  integer.
- A record with a `data` line whose value is empty does yield an event,
  with `data == ""` (`EmptyDataValueIsDispatched`). So an event with empty
  data can be dispatched.
- A blank line ends a record only when the buffer ends with CR CR, LF LF
  or CR LF CR LF. A line ended by LF followed by a blank line ended by
  CR LF is not a delimiter, nor is CR LF followed by a lone CR. So such
  text stays in one record (`MixedBlankLineNoDelimiter`).
- Re-chunking the same bytes can change the records
  (`RechunkingChangesRecords`). The framer is not invariant under chunk
  boundaries.

## Model

| member | source | states |
|---|---|---|
| `ByteLines.SplitLinesCount` | AuthSessionExample.py:244 | `splitlines(keepEnds)`, used with ends kept here and without them at line 258: an empty input gives no lines, any other input at least one, and never more lines than bytes |
| `ByteLines.SplitLinesKeepsEveryByte` | AuthSessionExample.py:244 | concatenating the lines of `splitlines(True)` gives back the chunk |
| `ByteLines.SplitLinesShape` | AuthSessionExample.py:244 | each kept line is the bare line plus CR, LF or CR LF, except possibly the last; no line break occurs inside a bare line; no kept line is empty; both forms have the same number of lines; a CR LF pair is one terminator, never split between a line ending with CR and the next line starting with LF |
| `Strings.SplitOnce` | AuthSessionExample.py:267 | `split(sep, 1)` gives one part equal to the input exactly when `sep` does not occur; otherwise two parts with input == first + sep + second and no `sep` in the first |
| `Strings.Split` | AuthSessionExample.py:36 | `split(sep)` gives at least one part, no part contains `sep`, and joining the parts with `sep` gives the input back |
| `SessionCookie.ParseSessionCookie` | AuthSessionExample.py:34-37 | the result is a prefix of the cookie, contains no `;`, and is followed by `;` unless it is the whole cookie |
| `SessionCookie.SessionIsPrefixBeforeFirstSeparator` | AuthSessionExample.py:35-37 | the result is the whole cookie when it has no `;`, and otherwise the text before its first `;` |
| `Framer.ChunkFramer.constructor` | AuthSessionExample.py:242 | a reader starts with an empty buffer |
| `Framer.ChunkFramer.Feed` | AuthSessionExample.py:243-248 | the records returned and the new buffer are those of passing the chunk's lines one by one through the old buffer; the buffer never holds a complete record |
| `Framer.ChunkFramer.Flush` | AuthSessionExample.py:249-250 | at the end of the stream the leftover bytes come out as a last record only when non-empty; the buffer is then empty |
| `Framer.Read` | AuthSessionExample.py:236-250 | reading a stream of chunks yields exactly `StreamRecords(chunks)` |
| `Framer.StepOutcome` | AuthSessionExample.py:245-248 | appending one line emits a record exactly when the old buffer plus the line ends with a delimiter; the record is that text and the buffer is cleared; otherwise the records are unchanged; the buffer never ends with a delimiter afterwards |
| `Framer.FeedLinesConserves` | AuthSessionExample.py:245-248 | records emitted by one chunk's lines plus the new buffer equal the old buffer plus those lines |
| `Framer.FeedChunksConserves` | AuthSessionExample.py:243-248 | records emitted by a chunk sequence plus the buffer equal the old buffer plus all the chunks' bytes |
| `Framer.StreamRecordsConserve` | AuthSessionExample.py:242-250 | concatenating all yielded records gives exactly the concatenation of all chunks: no byte lost or duplicated |
| `Framer.FeedLinesBoundaries` | AuthSessionExample.py:246-248 | every record emitted ends with a delimiter, and a buffer without a delimiter at its end keeps that property |
| `Framer.FeedChunksBoundaries` | AuthSessionExample.py:243-248 | the same over a sequence of chunks |
| `Framer.StreamRecordBoundaries` | AuthSessionExample.py:246-250 | every yielded record is non-empty; all but the last end with a delimiter; a last record without one is the leftover buffer |
| `Framer.RecordsGrow` | AuthSessionExample.py:243-248 | the records yielded while the stream is open, those completed after the chunks so far, are a prefix of the records completed after any further chunks |
| `Framer.RechunkingChangesRecords` | AuthSessionExample.py:243-248 | the same bytes `a CR CR LF` give one record as one chunk and two records as chunks `a CR CR` and `LF` |
| `Framer.MixedBlankLineNoDelimiter` | AuthSessionExample.py:246 | the chunk `a LF CR LF` completes no record: LF followed by CR LF is not one of the three delimiters |
| `EventStream.DropOneSpace` | AuthSessionExample.py:279-282 | the value equals the rest, or the rest is one space plus the value; it is the latter exactly when the rest starts with a space |
| `EventProperties.ApplyLineChanges` | AuthSessionExample.py:288-293 | data only grows, and each of `data`, `id`, `event` and `retry` changes only on a line that sets that field |
| `EventStream.FinishDispatch` | AuthSessionExample.py:295-304 | no event exactly when the data is empty; otherwise `id` and `retry` are kept, the name is never empty and is kept when it was not, and the data loses exactly one trailing newline when it has one |
| `EventStream.ParseRecord` | AuthSessionExample.py:256-308 | the loop over one record's lines returns exactly `RecordEvent(record, decode)` |
| `EventStream.Events` | AuthSessionExample.py:252-308 | the generator yields exactly the events of the framed records, in record order (`Dispatched(StreamRecords(chunks))`) |
| `EventProperties.LastValueNoneIff` | AuthSessionExample.py:271-273 | a field has no last value exactly when no line of the record sets it |
| `EventProperties.LastValueIsLastSetting` | AuthSessionExample.py:293 | the last value of a field is the value on the last line that sets it |
| `EventProperties.AccumulateFields` | AuthSessionExample.py:288-293 | after a record's lines, `data` is every data value followed by a newline; `id`, `event` and `retry` hold their last line's value, or the defaults of `Event()` |
| `EventProperties.TerminatedIsJoinPlusNewline` | AuthSessionExample.py:300-301 | newline-terminated values equal the values joined by newlines plus one newline |
| `EventProperties.ParseLinesCharacterization` | AuthSessionExample.py:256-304 | a record yields an event exactly when it has data values; the data is those values joined by newlines; `id` and `retry` come from the last line setting them; the name is that of the last `event` line or "message" |
| `EventProperties.NoDataLineNoEvent` | AuthSessionExample.py:296-297 | a record yields no event exactly when none of its lines is a `data` line |
| `EventProperties.DispatchedEventHasName` | AuthSessionExample.py:304 | every yielded event has a non-empty name, "message" when no `event` line or an empty one was seen |
| `EventProperties.DataLinesJoined` | AuthSessionExample.py:290-301 | two data lines with values v and w give data `v + "\n" + w` |
| `EventProperties.TwoDataLinesJoined` | AuthSessionExample.py:290-301 | `data# foo` then `data# bar` give the event ("message", data "foo\nbar", no id, no retry) |
| `EventProperties.SingleDataLine` | AuthSessionExample.py:290-301 | one data line with value v gives an event with data v |
| `EventProperties.EmptyDataValueIsDispatched` | AuthSessionExample.py:283-297 | `data` and `data#` each yield an event whose data is empty |
| `EventProperties.SecondSpaceKept` | AuthSessionExample.py:276-282 | `data#  bar` has field `data` and value ` bar`: only one space is dropped |
| `EventProperties.FieldLine` | AuthSessionExample.py:264-282 | a line `name#rest` whose name is not blank at its start and holds no `#` gives the field `name` and the value `rest` less one leading space |
| `EventProperties.DataLine` | AuthSessionExample.py:264-282 | `data# v` gives the field `data` with value `v`, whatever separators `v` holds, since only the first `#` splits |
| `EventProperties.LineFieldParts` | AuthSessionExample.py:264-286 | only blank and comment lines carry no field; the name is the text before the first `#`; the value is the text after it, less one leading space; without `#` the value is empty |
| `EventProperties.UnknownFieldIgnored` | AuthSessionExample.py:270-273 | a line naming an unknown field leaves the event unchanged |
| `EventProperties.DispatchedInRecordOrder` | AuthSessionExample.py:255-308 | each yielded event is the event of one record; record positions strictly increase along the events; there are as many positions as events, and no more events than records |
| `EventProperties.DispatchIndicesComplete` | AuthSessionExample.py:255-308 | every record that has an event is among the dispatched positions: no event is skipped |
| `EventProperties.DispatchIndexPresent` | AuthSessionExample.py:255-308 | the position of any one record that has an event is among the dispatched positions |

## Left out

- Session and API-key acquisition, the CRUD helpers, upload, delete, `streaming_request` and `close` (AuthSessionExample.py:39-221, 310-312): these are HTTP requests and `sys.exit`. The `None` cookie header that `_init_session` can pass to `_parse_session_cookie` is part of that request code. The model's cookie parser takes a string.
- `streaming_events_main` and `get_event_loop` (AuthSessionExample.py:223-234): asyncio event-loop plumbing and `json.loads` of each event's data.
- `get_by_url` timing (AuthSessionExample.py:106-116): wall-clock floating-point arithmetic.
- Character decoding (AuthSessionExample.py:260): `decode` is a parameter mapping a line's bytes to text. UTF-8 validity and decode errors are not modelled. Whitespace is Python's `str.isspace` set of code points.
- The reconnect loop and its session fetch in AsyncStreamReaderLoggingExample.py: network calls, per-line JSON decoding and an endless retry loop with a blocking sleep. Nothing there is modelled.
- The `print` logging (AuthSessionExample.py:272, 307), the command-line block (AuthSessionExample.py:337-349) and `Event.__str__` (AuthSessionExample.py:324-334), which is debug formatting.
- EventStream.ParseRecord: the source mutates a fresh `Event` object through `__dict__` before yielding it. The model updates a local `Event` value instead. No other reference to that object exists before it is yielded, so nothing observable is lost. Aliasing of a yielded event by the consumer is not modelled.
- Framer.Read: the generator yields lazily, interleaved with parsing. `Read`, `StreamRecords` and `Events` model a stream that closes after the given chunks, so they end with the flush of the leftover buffer. Their result for a stream that is still open is not a prefix of the eventual output: the flushed last record may later be completed differently. What the reader has yielded while the stream is still open after the chunks `p` is `FeedChunks([], p).records`, and `RecordsGrow` proves that further chunks only extend it.
