/**
  The chunk framer of the event-stream reader (`_read`): it stitches the
  byte chunks of a streamed HTTP response into records, each ended by a
  blank line, whatever the chunk boundaries.
 */
module Framer {
  import opened Wrappers
  import opened ByteLines

  /** A record ends when the buffer ends with CR CR, LF LF or CR LF CR LF. */
  predicate EndsWithDelimiter(buf: seq<Byte>) {
    EndsWith(buf, [CR, CR]) || EndsWith(buf, [LF, LF]) || EndsWith(buf, [CR, LF, CR, LF])
  }

  /** The records completed so far and the bytes still waiting for a delimiter. */
  datatype Framing = Framing(records: seq<seq<Byte>>, pending: seq<Byte>)

  /** One line through the buffer: append it, and emit and clear the buffer
      when it now ends with a delimiter. */
  function Step(before: Framing, line: seq<Byte>): Framing
  {
    var buf := before.pending + line;
    if EndsWithDelimiter(buf) then Framing(before.records + [buf], [])
    else Framing(before.records, buf)
  }

  /** Appending `lines` one at a time to the buffer `pending`, emitting and
      clearing the buffer each time it ends with a delimiter. */
  function FeedLines(pending: seq<Byte>, lines: seq<seq<Byte>>): Framing
    decreases |lines|
  {
    if lines == [] then Framing([], pending)
    else Step(FeedLines(pending, lines[..|lines| - 1]), lines[|lines| - 1])
  }

  /** Feeding whole chunks: each chunk is split into lines with their
      terminators, and the lines go through the buffer in order. */
  function FeedChunks(pending: seq<Byte>, chunks: seq<seq<Byte>>): Framing
    decreases |chunks|
  {
    if chunks == [] then Framing([], pending)
    else FeedChunk(FeedChunks(pending, chunks[..|chunks| - 1]), chunks[|chunks| - 1])
  }

  /** One chunk through the buffer, after the records already completed. */
  function FeedChunk(before: Framing, chunk: seq<Byte>): Framing {
    var after := FeedLines(before.pending, SplitLines(chunk, true));
    Framing(before.records + after.records, after.pending)
  }

  /** What is left in the buffer when the stream ends, as a last record when
      it is not empty. */
  function Flushed(pending: seq<Byte>): seq<seq<Byte>> {
    if pending == [] then [] else [pending]
  }

  /** Every record the reader yields for a stream made of `chunks`. */
  function StreamRecords(chunks: seq<seq<Byte>>): seq<seq<Byte>> {
    var framing := FeedChunks([], chunks);
    framing.records + Flushed(framing.pending)
  }

  /** The buffer of one running reader. */
  class ChunkFramer {
    var pending: seq<Byte>

    /** A full record never waits in the buffer. */
    ghost predicate Valid()
      reads this
    {
      !EndsWithDelimiter(pending)
    }

    constructor ()
      ensures Valid() && pending == []
    {
      pending := [];
    }

    /** Takes one chunk and returns the records it completes. */
    method Feed(chunk: seq<Byte>) returns (records: seq<seq<Byte>>)
      requires Valid()
      modifies this
      ensures Valid()
      ensures Framing(records, pending) == FeedLines(old(pending), SplitLines(chunk, true))
    {
      var lines := SplitLines(chunk, true);
      ghost var start := pending;
      records := [];
      for i := 0 to |lines|
        invariant Valid()
        invariant Framing(records, pending) == FeedLines(start, lines[..i])
      {
        assert lines[..i + 1][..i] == lines[..i];
        ghost var before := Framing(records, pending);
        pending := pending + lines[i];
        if EndsWithDelimiter(pending) {
          records := records + [pending];
          pending := [];
        }
        assert Framing(records, pending) == Step(before, lines[i]);
        StepOutcome(before, lines[i]);
      }
      assert lines[..|lines|] == lines;
    }

    /** The end of the stream: hands out the bytes left over, if any. */
    method Flush() returns (last: Option<seq<Byte>>)
      modifies this
      ensures Valid() && pending == []
      ensures last == if old(pending) == [] then None else Some(old(pending))
    {
      if pending != [] {
        last := Some(pending);
      } else {
        last := None;
      }
      pending := [];
    }
  }

  /** Reads a whole stream: feeds every chunk in arrival order to a fresh
      buffer, then flushes it. */
  method Read(chunks: seq<seq<Byte>>) returns (records: seq<seq<Byte>>)
    ensures records == StreamRecords(chunks)
  {
    var framer := new ChunkFramer();
    records := [];
    for i := 0 to |chunks|
      invariant fresh(framer) && framer.Valid()
      invariant FeedChunks([], chunks[..i]) == Framing(records, framer.pending)
    {
      assert chunks[..i + 1][..i] == chunks[..i];
      var completed := framer.Feed(chunks[i]);
      records := records + completed;
    }
    assert chunks[..|chunks|] == chunks;
    var last := framer.Flush();
    if last.Some? {
      records := records + [last.value];
    }
  }

  // Conservation: no byte is lost or duplicated.

  lemma {:induction false} FeedLinesConserves(pending: seq<Byte>, lines: seq<seq<Byte>>)
    ensures Concat(FeedLines(pending, lines).records) + FeedLines(pending, lines).pending
         == pending + Concat(lines)
    decreases |lines|
  {
    if lines != [] {
      var init, line := lines[..|lines| - 1], lines[|lines| - 1];
      var before := FeedLines(pending, init);
      var after := FeedLines(pending, lines);
      assert after == Step(before, line);
      FeedLinesConserves(pending, init);
      StepConserves(before, line);
      assert Concat(lines) == Concat(init) + line;
      calc {
        Concat(after.records) + after.pending;
        Concat(before.records) + before.pending + line;
        (pending + Concat(init)) + line;
        pending + (Concat(init) + line);
      }
    }
  }

  /** One line emits at most one record: the old buffer plus the line,
      exactly when that ends with a delimiter, and the buffer is then
      cleared; the buffer never ends with a delimiter afterwards. */
  lemma StepOutcome(before: Framing, line: seq<Byte>)
    ensures !EndsWithDelimiter(Step(before, line).pending)
    ensures Step(before, line).records == before.records
         || Step(before, line).records == before.records + [before.pending + line]
    ensures Step(before, line).records != before.records
        <==> EndsWithDelimiter(before.pending + line)
    ensures Step(before, line).records != before.records ==> Step(before, line).pending == []
  {
    if EndsWithDelimiter(before.pending + line) {
      assert |Step(before, line).records| == |before.records| + 1;
    }
  }

  lemma StepConserves(before: Framing, line: seq<Byte>)
    ensures Concat(Step(before, line).records) + Step(before, line).pending
         == Concat(before.records) + before.pending + line
  {
    var buf := before.pending + line;
    if EndsWithDelimiter(buf) {
      ConcatSnoc(before.records, buf);
    }
  }

  lemma ConcatSnoc(xs: seq<seq<Byte>>, x: seq<Byte>)
    ensures Concat(xs + [x]) == Concat(xs) + x
  {
    assert (xs + [x])[..|xs|] == xs;
  }

  lemma {:induction false} ConcatAppend(xs: seq<seq<Byte>>, ys: seq<seq<Byte>>)
    ensures Concat(xs + ys) == Concat(xs) + Concat(ys)
    decreases |ys|
  {
    if ys == [] {
      assert xs + ys == xs;
    } else {
      var init := ys[..|ys| - 1];
      assert (xs + ys)[..|xs + ys| - 1] == xs + init;
      ConcatAppend(xs, init);
    }
  }

  lemma {:induction false} FeedChunkConserves(before: Framing, chunk: seq<Byte>)
    ensures Concat(FeedChunk(before, chunk).records) + FeedChunk(before, chunk).pending
         == Concat(before.records) + before.pending + chunk
  {
    var lines := SplitLines(chunk, true);
    var after := FeedLines(before.pending, lines);
    FeedLinesConserves(before.pending, lines);
    SplitLinesKeepsEveryByte(chunk);
    Regroup(before.records, after.records, after.pending, before.pending, chunk);
  }

  lemma Regroup(done: seq<seq<Byte>>, more: seq<seq<Byte>>, rest: seq<Byte>, pending: seq<Byte>, chunk: seq<Byte>)
    requires Concat(more) + rest == pending + chunk
    ensures Concat(done + more) + rest == Concat(done) + pending + chunk
  {
    ConcatAppend(done, more);
    calc {
      Concat(done + more) + rest;
      Concat(done) + Concat(more) + rest;
      Concat(done) + (Concat(more) + rest);
      Concat(done) + (pending + chunk);
    }
  }

  lemma {:induction false} FeedChunksConserves(pending: seq<Byte>, chunks: seq<seq<Byte>>)
    ensures Concat(FeedChunks(pending, chunks).records) + FeedChunks(pending, chunks).pending
         == pending + Concat(chunks)
    decreases |chunks|
  {
    if chunks != [] {
      var init, chunk := chunks[..|chunks| - 1], chunks[|chunks| - 1];
      FeedChunksConserves(pending, init);
      FeedChunkConserves(FeedChunks(pending, init), chunk);
    }
  }

  /** Concatenating the yielded records gives back exactly the bytes of the
      stream. */
  lemma StreamRecordsConserve(chunks: seq<seq<Byte>>)
    ensures Concat(StreamRecords(chunks)) == Concat(chunks)
  {
    var framing := FeedChunks([], chunks);
    FeedChunksConserves([], chunks);
    ConcatAppend(framing.records, Flushed(framing.pending));
    assert Concat(Flushed(framing.pending)) == framing.pending by {
      if framing.pending != [] {
        assert Flushed(framing.pending)[..0] == [];
      }
    }
  }

  // Boundaries: what each yielded record ends with.

  lemma {:induction false} FeedLinesBoundaries(pending: seq<Byte>, lines: seq<seq<Byte>>)
    requires !EndsWithDelimiter(pending)
    ensures forall r :: r in FeedLines(pending, lines).records ==> EndsWithDelimiter(r)
    ensures !EndsWithDelimiter(FeedLines(pending, lines).pending)
    decreases |lines|
  {
    if lines != [] {
      FeedLinesBoundaries(pending, lines[..|lines| - 1]);
    }
  }

  lemma {:induction false} FeedChunksBoundaries(pending: seq<Byte>, chunks: seq<seq<Byte>>)
    requires !EndsWithDelimiter(pending)
    ensures forall r :: r in FeedChunks(pending, chunks).records ==> EndsWithDelimiter(r)
    ensures !EndsWithDelimiter(FeedChunks(pending, chunks).pending)
    decreases |chunks|
  {
    if chunks != [] {
      var before := FeedChunks(pending, chunks[..|chunks| - 1]);
      FeedChunksBoundaries(pending, chunks[..|chunks| - 1]);
      assert FeedChunks(pending, chunks) == FeedChunk(before, chunks[|chunks| - 1]);
      FeedLinesBoundaries(before.pending, SplitLines(chunks[|chunks| - 1], true));
    }
  }

  /** Every yielded record is non-empty; all but the last end with a
      delimiter; a last record without a delimiter is the non-empty rest of
      the buffer at the end of the stream. */
  lemma StreamRecordBoundaries(chunks: seq<seq<Byte>>)
    ensures forall r :: r in StreamRecords(chunks) ==> r != []
    ensures forall i :: 0 <= i < |StreamRecords(chunks)| - 1 ==> EndsWithDelimiter(StreamRecords(chunks)[i])
    ensures var records := StreamRecords(chunks);
      records != [] && !EndsWithDelimiter(records[|records| - 1]) ==>
        records[|records| - 1] == FeedChunks([], chunks).pending
  {
    FeedChunksBoundaries([], chunks);
  }

  /** While the stream is still open, the reader has yielded the records
      completed so far, `FeedChunks([], p).records` after the chunks `p`.
      More chunks only add records after those: nothing yielded is taken
      back. */
  lemma {:induction false} RecordsGrow(p: seq<seq<Byte>>, q: seq<seq<Byte>>)
    ensures FeedChunks([], p).records <= FeedChunks([], p + q).records
    decreases |q|
  {
    if q == [] {
      assert p + q == p;
    } else {
      var init := q[..|q| - 1];
      RecordsGrow(p, init);
      assert (p + q)[..|p + q| - 1] == p + init;
      assert (p + q)[|p + q| - 1] == q[|q| - 1];
    }
  }

  /** Re-chunking the same bytes can change the records: a single chunk
      `a CR CR LF` splits into the lines `a CR` and `CR LF` and never shows a
      delimiter, while the chunks `a CR CR` and `LF` complete a record at
      once. */
  lemma RechunkingChangesRecords()
    ensures Concat([[97, CR, CR, LF]]) == Concat([[97, CR, CR], [LF]])
    ensures StreamRecords([[97, CR, CR, LF]]) == [[97, CR, CR, LF]]
    ensures StreamRecords([[97, CR, CR], [LF]]) == [[97, CR, CR], [LF]]
  {
    OneChunkRecords(97);
    TwoChunkRecords(97);
  }

  /** A blank line is seen only as CR CR, LF LF or CR LF CR LF at the end
      of the buffer: a line ended by LF and then a blank line ended by CR LF
      complete no record. */
  lemma MixedBlankLineNoDelimiter(a: Byte)
    requires !IsLineBreak(a)
    ensures FeedChunks([], [[a, LF, CR, LF]]) == Framing([], [a, LF, CR, LF])
  {
    var one: seq<Byte> := [a, LF, CR, LF];
    SplitInTwo(one);
    NotDelimited(one[..2]);
    NotDelimited(one);
    assert one[..2] + one[2..] == one;
    WaitingChunk(one, one[..2], one[2..]);
  }

  /** The same, for any first byte that is not a line break. */
  lemma OneChunkRecords(a: Byte)
    requires !IsLineBreak(a)
    ensures Concat([[a, CR, CR, LF]]) == [a, CR, CR, LF]
    ensures StreamRecords([[a, CR, CR, LF]]) == [[a, CR, CR, LF]]
  {
    var one: seq<Byte> := [a, CR, CR, LF];
    OneChunkWaits(a);
    assert StreamRecords([one]) == [] + Flushed(one);
    assert [one][..0] == [];
  }

  lemma TwoChunkRecords(a: Byte)
    requires !IsLineBreak(a)
    ensures Concat([[a, CR, CR], [LF]]) == [a, CR, CR, LF]
    ensures StreamRecords([[a, CR, CR], [LF]]) == [[a, CR, CR], [LF]]
  {
    var first: seq<Byte>, second: seq<Byte> := [a, CR, CR], [LF];
    TwoChunksComplete(a);
    TwoChunkStream(first, second);
    ConcatPair(first, second);
    assert first + second == [a, CR, CR, LF];
  }

  /** Two chunks, the first completing a record and the second left in the
      buffer: the stream yields each chunk as a record. */
  lemma TwoChunkStream(first: seq<Byte>, second: seq<Byte>)
    requires FeedChunks([], [first, second]) == Framing([first], second) && second != []
    ensures StreamRecords([first, second]) == [first, second]
  {
    assert Flushed(second) == [second];
  }

  lemma ConcatPair(first: seq<Byte>, second: seq<Byte>)
    ensures Concat([first, second]) == first + second
  {
    assert [first, second] == [first] + [second] && [first] == [] + [first];
    ConcatSnoc([], first);
    ConcatSnoc([first], second);
  }

  lemma OneChunkWaits(a: Byte)
    requires !IsLineBreak(a)
    ensures FeedChunks([], [[a, CR, CR, LF]]) == Framing([], [a, CR, CR, LF])
  {
    var one: seq<Byte> := [a, CR, CR, LF];
    SplitInTwo(one);
    NotDelimited(one[..2]);
    NotDelimited(one);
    assert one[..2] + one[2..] == one;
    WaitingChunk(one, one[..2], one[2..]);
  }

  lemma TwoChunksComplete(a: Byte)
    requires !IsLineBreak(a)
    ensures FeedChunks([], [[a, CR, CR], [LF]]) == Framing([[a, CR, CR]], [LF])
  {
    var first: seq<Byte>, second: seq<Byte> := [a, CR, CR], [LF];
    FirstChunkCompletes(a);
    assert FeedLines([], SplitLines(second, true)) == Framing([], second) by {
      SplitLineOnce(second);
      NotDelimited(second);
      FeedOneLine([], second);
    }
    assert [first, second][..1] == [first];
  }

  lemma FirstChunkCompletes(a: Byte)
    requires !IsLineBreak(a)
    ensures FeedChunks([], [[a, CR, CR]]) == Framing([[a, CR, CR]], [])
  {
    var first: seq<Byte> := [a, CR, CR];
    var head, tail := first[..2], first[2..];
    assert FeedChunks([], [first]) == Step(Framing([], head), tail) by {
      SplitInTwo(first);
      NotDelimited(head);
      FeedSplitChunk(first, head, tail);
    }
    assert head + tail == first;
    DelimitedByCRCR(first);
  }

  /** A chunk of two lines whose first line leaves no delimiter: the buffer
      holds the first line when the second arrives. */
  lemma FeedSplitChunk(chunk: seq<Byte>, head: seq<Byte>, tail: seq<Byte>)
    requires SplitLines(chunk, true) == [head, tail] && !EndsWithDelimiter(head)
    ensures FeedChunks([], [chunk]) == Step(Framing([], head), tail)
  {
    assert [] + head == head;
    FeedTwoLines([], head, tail);
    FeedOneChunk([], chunk);
  }

  /** A chunk of two lines, neither of whose prefixes ends with a delimiter,
      stays whole in the buffer. */
  lemma WaitingChunk(chunk: seq<Byte>, head: seq<Byte>, tail: seq<Byte>)
    requires SplitLines(chunk, true) == [head, tail] && head + tail == chunk
    requires !EndsWithDelimiter(head) && !EndsWithDelimiter(chunk)
    ensures FeedChunks([], [chunk]) == Framing([], chunk)
  {
    FeedSplitChunk(chunk, head, tail);
  }

  /** A buffer whose last two bytes differ, and whose fourth byte from the
      end is not CR, does not end with a delimiter. */
  lemma NotDelimited(b: seq<Byte>)
    requires |b| < 2 || (b[|b| - 1] != b[|b| - 2] && (|b| < 4 || b[|b| - 4] != CR))
    ensures !EndsWithDelimiter(b)
  {
    if |b| >= 2 {
      assert b[|b| - 2..][0] == b[|b| - 2] && b[|b| - 2..][1] == b[|b| - 1];
    }
    if |b| >= 4 {
      assert b[|b| - 4..][0] == b[|b| - 4];
    }
  }

  /** A buffer ending with CR CR ends with a delimiter. */
  lemma DelimitedByCRCR(b: seq<Byte>)
    requires |b| >= 2 && b[|b| - 2] == CR && b[|b| - 1] == CR
    ensures EndsWithDelimiter(b)
  {
    assert b[|b| - 2..] == [CR, CR];
  }

  /** `a`, a line break, CR, and possibly LF, for a byte `a` that is not a
      line break: the first line is `a` with its break, the second the rest. */
  lemma SplitInTwo(s: seq<Byte>)
    requires 3 <= |s| <= 4 && !IsLineBreak(s[0]) && IsLineBreak(s[1]) && s[2] == CR
    requires |s| == 4 ==> s[3] == LF
    ensures SplitLines(s, true) == [s[..2], s[2..]]
  {
    assert LineBreakAt(s) == 1;
    assert TerminatorLength(s, 1) == 1;
    SplitLineOnce(s[2..]);
  }

  /** A chunk that is a single line with its terminator. */
  lemma SplitLineOnce(t: seq<Byte>)
    requires t == [CR] || t == [LF] || t == [CR, LF]
    ensures SplitLines(t, true) == [t]
  {
    assert LineBreakAt(t) == 0;
    assert t[..|t|] == t && t[|t|..] == [];
  }

  lemma FeedOneLine(pending: seq<Byte>, line: seq<Byte>)
    ensures FeedLines(pending, [line]) == Step(Framing([], pending), line)
  {
    assert [line][..0] == [];
  }

  lemma FeedTwoLines(pending: seq<Byte>, first: seq<Byte>, second: seq<Byte>)
    ensures FeedLines(pending, [first, second])
         == Step(Step(Framing([], pending), first), second)
  {
    FeedOneLine(pending, first);
    assert [first, second][..1] == [first];
  }

  lemma FeedOneChunk(pending: seq<Byte>, chunk: seq<Byte>)
    ensures FeedChunks(pending, [chunk]) == FeedChunk(Framing([], pending), chunk)
  {
    assert [chunk][..0] == [];
  }
}
