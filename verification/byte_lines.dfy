/**
  Byte strings as the event-stream reader sees them: Python `bytes` values,
  their concatenation, `bytes.endswith`, and `bytes.splitlines`, which for
  byte strings breaks lines only at CR, LF and the pair CR LF.
 */
module ByteLines {

  type Byte = b: int | 0 <= b < 256

  const CR: Byte := 13
  const LF: Byte := 10

  predicate IsLineBreak(b: Byte) {
    b == CR || b == LF
  }

  /** The concatenation of a sequence of byte strings, `b"".join(parts)`. */
  function Concat(parts: seq<seq<Byte>>): seq<Byte>
    decreases |parts|
  {
    if parts == [] then [] else Concat(parts[..|parts| - 1]) + parts[|parts| - 1]
  }

  lemma {:induction false} ConcatPrepend(head: seq<Byte>, tail: seq<seq<Byte>>)
    ensures Concat([head] + tail) == head + Concat(tail)
    decreases |tail|
  {
    if tail != [] {
      var init := tail[..|tail| - 1];
      assert ([head] + tail)[..|tail|] == [head] + init;
      ConcatPrepend(head, init);
    }
  }

  /** `s.endswith(suffix)` */
  predicate EndsWith(s: seq<Byte>, suffix: seq<Byte>) {
    |suffix| <= |s| && s[|s| - |suffix|..] == suffix
  }

  /** Index of the first CR or LF in `s`, or `|s|` when `s` has neither. */
  function LineBreakAt(s: seq<Byte>): (k: nat)
    ensures k <= |s|
    ensures forall i :: 0 <= i < k ==> !IsLineBreak(s[i])
    ensures k < |s| ==> IsLineBreak(s[k])
  {
    if s == [] || IsLineBreak(s[0]) then 0 else 1 + LineBreakAt(s[1..])
  }

  /** Length of the line terminator found at `k`: two bytes for CR LF, one
      for a lone CR or LF, none at the end of the input. */
  function TerminatorLength(s: seq<Byte>, k: nat): (n: nat)
    requires k <= |s|
    requires k < |s| ==> IsLineBreak(s[k])
    ensures k + n <= |s|
    ensures k < |s| ==> n >= 1
  {
    if k == |s| then 0
    else if s[k] == CR && k + 1 < |s| && s[k + 1] == LF then 2
    else 1
  }

  /** `s.splitlines(keepEnds)`: every line, with its terminator when
      `keepEnds` holds; no empty trailing line is produced. */
  function SplitLines(s: seq<Byte>, keepEnds: bool): seq<seq<Byte>>
    decreases |s|
  {
    if s == [] then []
    else
      var k := LineBreakAt(s);
      var next := k + TerminatorLength(s, k);
      [if keepEnds then s[..next] else s[..k]] + SplitLines(s[next..], keepEnds)
  }

  /** No lines exactly for the empty input, and never more lines than
      bytes. */
  lemma {:induction false} SplitLinesCount(s: seq<Byte>, keepEnds: bool)
    ensures SplitLines(s, keepEnds) == [] <==> s == []
    ensures |SplitLines(s, keepEnds)| <= |s|
    decreases |s|
  {
    if s != [] {
      var k := LineBreakAt(s);
      SplitLinesCount(s[k + TerminatorLength(s, k)..], keepEnds);
    }
  }

  /** The terminators `splitlines` recognises. */
  predicate IsTerminator(t: seq<Byte>) {
    t == [CR] || t == [LF] || t == [CR, LF]
  }

  /** Splitting with line ends kept loses and duplicates nothing. */
  lemma {:induction false} SplitLinesKeepsEveryByte(s: seq<Byte>)
    ensures Concat(SplitLines(s, true)) == s
    decreases |s|
  {
    if s != [] {
      var k := LineBreakAt(s);
      var next := k + TerminatorLength(s, k);
      var rest := SplitLines(s[next..], true);
      calc {
        Concat(SplitLines(s, true));
        Concat([s[..next]] + rest);
        { ConcatPrepend(s[..next], rest); }
        s[..next] + Concat(rest);
        { SplitLinesKeepsEveryByte(s[next..]); }
        s[..next] + s[next..];
        s;
      }
    }
  }

  /** `line` holds neither CR nor LF. */
  predicate NoLineBreak(line: seq<Byte>) {
    forall j :: 0 <= j < |line| ==> !IsLineBreak(line[j])
  }

  /** `kept` is `line` with its terminator: `line` holds no line break,
      and the rest of `kept` is CR, LF or CR LF, or nothing for a last line
      that ends the input without one. */
  predicate LineWithEnd(line: seq<Byte>, kept: seq<Byte>, last: bool) {
    && NoLineBreak(line)
    && kept != [] && |line| <= |kept| && kept[..|line|] == line
    && (IsTerminator(kept[|line|..]) || (last && kept == line))
  }

  lemma FirstLineWithEnd(s: seq<Byte>)
    requires s != []
    ensures var k := LineBreakAt(s);
      LineWithEnd(s[..k], s[..k + TerminatorLength(s, k)], k + TerminatorLength(s, k) == |s|)
  {
    LineBeforeBreak(s, LineBreakAt(s));
  }

  /** The line that ends at the break `k`, with and without its terminator. */
  lemma LineBeforeBreak(s: seq<Byte>, k: nat)
    requires s != [] && k <= |s|
    requires forall i :: 0 <= i < k ==> !IsLineBreak(s[i])
    requires k < |s| ==> IsLineBreak(s[k])
    ensures LineWithEnd(s[..k], s[..k + TerminatorLength(s, k)], k + TerminatorLength(s, k) == |s|)
  {
    var n := TerminatorLength(s, k);
    var line, kept := s[..k], s[..k + n];
    assert NoLineBreak(line) by {
      forall j | 0 <= j < |line|
        ensures !IsLineBreak(line[j])
      {
        assert line[j] == s[j];
      }
    }
    assert kept[..|line|] == line;
    if k == |s| {
      assert kept == line;
    } else if n == 2 {
      assert kept[|line|..] == [CR, LF];
    } else {
      assert n == 1 && |kept| == k + 1 && kept[k] == s[k];
      assert kept[|line|..] == [s[k]];
    }
  }

  /** The two forms of `splitlines` give the same lines, except that the
      kept form carries each line's terminator; only the last line may lack
      one, no line holds a break before its terminator, and no kept line is
      empty; a CR LF pair is one terminator, never split between a line
      ending with CR and a next line starting with LF. */
  lemma SplitLinesShape(s: seq<Byte>)
    ensures |SplitLines(s, true)| == |SplitLines(s, false)|
    ensures forall i :: 0 <= i < |SplitLines(s, false)| ==>
      LineWithEnd(SplitLines(s, false)[i], SplitLines(s, true)[i], i == |SplitLines(s, false)| - 1)
    ensures forall i :: 0 <= i < |SplitLines(s, true)| - 1 && EndsWithByte(SplitLines(s, true)[i], CR) ==>
      !StartsWithByte(SplitLines(s, true)[i + 1], LF)
  {
    KeptAndBareLines(s);
    CRLFStaysTogether(s);
  }

  /** Line by line, the kept form is the bare form plus its terminator. */
  lemma {:induction false} KeptAndBareLines(s: seq<Byte>)
    ensures |SplitLines(s, true)| == |SplitLines(s, false)|
    ensures forall i :: 0 <= i < |SplitLines(s, false)| ==>
      LineWithEnd(SplitLines(s, false)[i], SplitLines(s, true)[i], i == |SplitLines(s, false)| - 1)
    decreases |s|
  {
    if s != [] {
      var k := LineBreakAt(s);
      var next := k + TerminatorLength(s, k);
      var rest, keptRest := SplitLines(s[next..], false), SplitLines(s[next..], true);
      assert SplitLines(s, false) == [s[..k]] + rest;
      assert SplitLines(s, true) == [s[..next]] + keptRest;
      KeptAndBareLines(s[next..]);
      assert LineWithEnd(s[..k], s[..next], rest == []) by {
        FirstLineWithEnd(s);
        SplitLinesCount(s[next..], false);
      }
      ConsLinesWithEnd(s[..k], s[..next], rest, keptRest);
    }
  }

  /** A first line with its end, in front of lines that have theirs. */
  lemma ConsLinesWithEnd(line: seq<Byte>, kept: seq<Byte>, rest: seq<seq<Byte>>, keptRest: seq<seq<Byte>>)
    requires |rest| == |keptRest| && LineWithEnd(line, kept, rest == [])
    requires forall j :: 0 <= j < |rest| ==> LineWithEnd(rest[j], keptRest[j], j == |rest| - 1)
    ensures forall i :: 0 <= i <= |rest| ==>
      LineWithEnd(([line] + rest)[i], ([kept] + keptRest)[i], i == |rest|)
  {
    forall i | 0 < i <= |rest|
      ensures LineWithEnd(([line] + rest)[i], ([kept] + keptRest)[i], i == |rest|)
    {
      assert ([line] + rest)[i] == rest[i - 1] && ([kept] + keptRest)[i] == keptRest[i - 1];
    }
  }

  predicate StartsWithByte(s: seq<Byte>, b: Byte) {
    |s| > 0 && s[0] == b
  }

  predicate EndsWithByte(s: seq<Byte>, b: Byte) {
    |s| > 0 && s[|s| - 1] == b
  }

  /** The first kept line starts with the first byte of the input. */
  lemma FirstLineStart(s: seq<Byte>)
    requires s != []
    ensures SplitLines(s, true) != [] && StartsWithByte(SplitLines(s, true)[0], s[0])
  {
    var k := LineBreakAt(s);
    var next := k + TerminatorLength(s, k);
    assert SplitLines(s, true)[0] == s[..next];
  }

  /** No kept line ending with CR is followed by one starting with LF. */
  lemma {:induction false} CRLFStaysTogether(s: seq<Byte>)
    ensures forall i :: 0 <= i < |SplitLines(s, true)| - 1 && EndsWithByte(SplitLines(s, true)[i], CR) ==>
      !StartsWithByte(SplitLines(s, true)[i + 1], LF)
    decreases |s|
  {
    if s != [] {
      var k := LineBreakAt(s);
      var next := k + TerminatorLength(s, k);
      var rest := SplitLines(s[next..], true);
      var kept := SplitLines(s, true);
      assert kept == [s[..next]] + rest;
      CRLFStaysTogether(s[next..]);
      assert next == |s| ==> rest == [];
      if next < |s| && EndsWithByte(s[..next], CR) {
        assert k < |s| && s[next - 1] == CR;
        assert next == k + 1 && s[k] == CR;
        FirstLineStart(s[next..]);
        assert rest[0][0] == s[next];
      }
      forall i | 0 <= i < |kept| - 1 && EndsWithByte(kept[i], CR)
        ensures !StartsWithByte(kept[i + 1], LF)
      {
        if i > 0 {
          assert kept[i] == rest[i - 1] && kept[i + 1] == rest[i];
        }
      }
    }
  }
}
