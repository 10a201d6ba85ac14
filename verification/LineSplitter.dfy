/**
 The line splitter of the streaming tracefile parser: bytes come in chunks of any size, lines
 end in LF, CRLF or a lone CR, and a CR at the end of a chunk has to wait for the next one.
 */
module LineSplitter {
  import opened Wrappers
  import opened Text

  datatype Ending = Lf | Crlf | Cr | NoEnding

  /** A line without its terminator, and the terminator it had. */
  datatype RawLine = RawLine(bytes: Bytes, ending: Ending)

  function Terminator(ending: Ending): Bytes {
    match ending
    case Lf => "\n"
    case Crlf => "\r\n"
    case Cr => "\r"
    case NoEnding => ""
  }

  // ----- What the splitter has to do with one byte -----

  /** What is held back: the bytes of the open line, and whether a CR follows them. */
  datatype Held = Held(buffer: Bytes, pendingCr: bool)

  const NOTHING := Held("", false)

  /** The lines that one more byte completes, and what is held back afterwards. */
  function Step(h: Held, b: char): (seq<RawLine>, Held) {
    if h.pendingCr && b == '\n' then ([RawLine(h.buffer, Crlf)], NOTHING)
    else
      var done := if h.pendingCr then [RawLine(h.buffer, Cr)] else [];
      var buffer := if h.pendingCr then "" else h.buffer;
      if b == '\n' then ([RawLine(buffer, Lf)], NOTHING)
      else if b == '\r' then (done, Held(buffer, true))
      else (done, Held(buffer + [b], false))
  }

  function Run(h: Held, input: Bytes): (seq<RawLine>, Held)
    decreases |input|
  {
    if input == [] then ([], h)
    else
      var first := Step(h, input[0]);
      var rest := Run(first.1, input[1..]);
      (first.0 + rest.0, rest.1)
  }

  function Flushed(h: Held): Option<RawLine> {
    if h.pendingCr then Some(RawLine(h.buffer, Cr))
    else if h.buffer == [] then None
    else Some(RawLine(h.buffer, NoEnding))
  }

  /** All lines of a stream that was fed whole. */
  function AllLines(input: Bytes): seq<RawLine> {
    var (lines, held) := Run(NOTHING, input);
    if Flushed(held).Some? then lines + [Flushed(held).value] else lines
  }

  /** The run hands out exactly these lines and holds exactly this back. */
  ghost predicate Yields(h: Held, input: Bytes, lines: seq<RawLine>, held: Held) {
    Run(h, input).0 == lines && Run(h, input).1 == held
  }

  // ----- Loop progress -----

  /** With `lines` already out and `held` back, the rest of the input completes the whole run. */
  ghost predicate Fed(start: Held, input: Bytes, lines: seq<RawLine>, held: Held, i: nat) {
    i <= |input| && Yields(start, input, lines + Run(held, input[i..]).0, Run(held, input[i..]).1)
  }

  lemma Began(start: Held, input: Bytes)
    ensures Fed(start, input, [], start, 0)
  {
    assert input[0..] == input;
  }

  lemma OneByte(start: Held, input: Bytes, lines: seq<RawLine>, held: Held, i: nat)
    requires i < |input| && Fed(start, input, lines, held, i)
    ensures var (more, next) := Step(held, input[i]); Fed(start, input, lines + more, next, i + 1)
  {
    hide Step;
    assert input[i..][1..] == input[i + 1..];
  }

  /** A CR not followed by LF ends its line at once or one byte later, with the same outcome. */
  lemma LoneCr(start: Held, input: Bytes, lines: seq<RawLine>, buffer: Bytes, i: nat)
    requires i < |input| && input[i] != '\n' && Fed(start, input, lines, Held(buffer, true), i)
    ensures Fed(start, input, lines + [RawLine(buffer, Cr)], NOTHING, i)
  {
    hide Run, Step;
    CrThen(buffer, input[i..]);
  }

  lemma CrThen(buffer: Bytes, rest: Bytes)
    requires rest != [] && rest[0] != '\n'
    ensures Yields(Held(buffer, true), rest, [RawLine(buffer, Cr)] + Run(NOTHING, rest).0, Run(NOTHING, rest).1)
  {
    var late, now := Step(Held(buffer, true), rest[0]), Step(NOTHING, rest[0]);
    assert now.0 == [] && late.0 == [RawLine(buffer, Cr)] && late.1 == now.1;
  }

  lemma FedAll(start: Held, input: Bytes, lines: seq<RawLine>, held: Held)
    requires Fed(start, input, lines, held, |input|)
    ensures Yields(start, input, lines, held)
  {
    assert input[|input|..] == [] && lines + [] == lines;
  }

  // ----- The splitter -----

  class Splitter {
    var buffer: Bytes
    var pendingCr: bool

    constructor ()
      ensures State() == NOTHING
    {
      buffer, pendingCr := "", false;
    }

    function State(): Held
      reads this
    {
      Held(buffer, pendingCr)
    }

    /** `feed`: looks one byte ahead after a CR, so it defers only at the end of the chunk. */
    method Feed(input: Bytes) returns (lines: seq<RawLine>)
      modifies this
      ensures Yields(old(State()), input, lines, State())
    {
      hide Run, Fed, Yields;
      lines := [];
      var i := 0;
      ghost var start := State();
      Began(start, input);
      while i < |input|
        invariant 0 <= i <= |input|
        invariant Fed(start, input, lines, State(), i)
      {
        var b := input[i];
        OneByte(start, input, lines, State(), i);
        if pendingCr && b == '\n' {
          lines := lines + [RawLine(buffer, Crlf)];
          buffer, pendingCr := "", false;
          i := i + 1;
          continue;
        }
        ghost var before := lines;
        if pendingCr {
          lines := lines + [RawLine(buffer, Cr)];
          buffer, pendingCr := "", false;
        } else {
          assert before + [] == before;
        }
        if b == '\n' {
          lines := lines + [RawLine(buffer, Lf)];
          buffer := "";
          i := i + 1;
        } else if b == '\r' {
          assert Fed(start, input, lines, Held(buffer, true), i + 1);
          if i + 1 < |input| {
            if input[i + 1] == '\n' {
              OneByte(start, input, lines, Held(buffer, true), i + 1);
              lines := lines + [RawLine(buffer, Crlf)];
              buffer := "";
              i := i + 2;
            } else {
              LoneCr(start, input, lines, buffer, i + 1);
              lines := lines + [RawLine(buffer, Cr)];
              buffer := "";
              i := i + 1;
            }
          } else {
            pendingCr := true;
            i := i + 1;
          }
        } else {
          buffer := buffer + [b];
          i := i + 1;
        }
      }
      FedAll(start, input, lines, State());
    }

    /** `finish`: flushes an unterminated last line, or one whose CR was still waiting. */
    method Finish() returns (line: Option<RawLine>)
      modifies this
      ensures line == Flushed(old(State())) && State() == NOTHING
    {
      if pendingCr {
        line := Some(RawLine(buffer, Cr));
      } else if buffer == [] {
        line := None;
      } else {
        line := Some(RawLine(buffer, NoEnding));
      }
      buffer, pendingCr := "", false;
    }
  }

  // ----- Chunking does not matter -----

  lemma {:induction false} RunAppend(h: Held, a: Bytes, b: Bytes)
    ensures var first := Run(h, a);
            var rest := Run(first.1, b);
            Yields(h, a + b, first.0 + rest.0, rest.1)
    decreases |a|
  {
    hide Step;
    if a == [] {
      assert a + b == b;
    } else {
      assert (a + b)[1..] == a[1..] + b;
      RunAppend(Step(h, a[0]).1, a[1..], b);
    }
  }

  function Concat(chunks: seq<Bytes>): Bytes {
    if chunks == [] then [] else Concat(chunks[..|chunks| - 1]) + chunks[|chunks| - 1]
  }

  /** Feeds the chunks one after another and finishes: whatever the chunking, the lines are
      those of the stream fed whole. */
  method SplitChunks(chunks: seq<Bytes>) returns (lines: seq<RawLine>)
    ensures lines == AllLines(Concat(chunks))
  {
    hide Run, Flushed;
    var splitter := new Splitter();
    lines := [];
    RunNothing();
    for k := 0 to |chunks|
      invariant Yields(NOTHING, Concat(chunks[..k]), lines, splitter.State())
    {
      assert chunks[..k + 1][..k] == chunks[..k];
      RunAppend(NOTHING, Concat(chunks[..k]), chunks[k]);
      var more := splitter.Feed(chunks[k]);
      lines := lines + more;
    }
    assert chunks[..|chunks|] == chunks;
    var last := splitter.Finish();
    if last.Some? {
      lines := lines + [last.value];
    }
  }

  lemma RunNothing()
    ensures Yields(NOTHING, [], [], NOTHING)
  {}

  // ----- No byte is lost, and lines are lines -----

  function Joined(lines: seq<RawLine>): Bytes {
    if lines == [] then []
    else Joined(lines[..|lines| - 1]) + lines[|lines| - 1].bytes + Terminator(lines[|lines| - 1].ending)
  }

  function HeldBytes(h: Held): Bytes {
    h.buffer + if h.pendingCr then "\r" else ""
  }

  lemma {:induction false} JoinedAppend(a: seq<RawLine>, b: seq<RawLine>)
    ensures Joined(a + b) == Joined(a) + Joined(b)
  {
    hide Joined, Terminator;
    if b == [] {
      assert a + b == a;
      JoinedNone();
    } else {
      var init, last := b[..|b| - 1], b[|b| - 1];
      JoinedAppend(a, init);
      assert a + b == (a + init) + [last] && b == init + [last];
      JoinedSnoc(a + init, last);
      JoinedSnoc(init, last);
    }
  }

  lemma JoinedNone()
    ensures Joined([]) == []
  {}

  lemma JoinedSnoc(lines: seq<RawLine>, last: RawLine)
    ensures Joined(lines + [last]) == Joined(lines) + (last.bytes + Terminator(last.ending))
  {
    hide Terminator;
    assert (lines + [last])[..|lines|] == lines;
  }

  lemma StepLossless(h: Held, b: char)
    ensures Joined(Step(h, b).0) + HeldBytes(Step(h, b).1) == HeldBytes(h) + [b]
  {
    var lines := Step(h, b).0;
    if lines != [] {
      JoinedOne(lines[0]);
      assert lines == [lines[0]];
    }
  }

  lemma {:induction false} RunLossless(h: Held, input: Bytes)
    ensures Joined(Run(h, input).0) + HeldBytes(Run(h, input).1) == HeldBytes(h) + input
    decreases |input|
  {
    hide Step, HeldBytes, Joined;
    if input == [] {
      JoinedNone();
      assert [] + HeldBytes(h) == HeldBytes(h) + [];
    } else {
      var first := Step(h, input[0]);
      var rest := Run(first.1, input[1..]);
      StepLossless(h, input[0]);
      RunLossless(first.1, input[1..]);
      JoinedAppend(first.0, rest.0);
      assert (Joined(first.0) + Joined(rest.0)) + HeldBytes(rest.1)
          == Joined(first.0) + (Joined(rest.0) + HeldBytes(rest.1));
      assert Joined(first.0) + (HeldBytes(first.1) + input[1..])
          == (Joined(first.0) + HeldBytes(first.1)) + input[1..];
      assert (HeldBytes(h) + [input[0]]) + input[1..] == HeldBytes(h) + ([input[0]] + input[1..]);
      assert [input[0]] + input[1..] == input;
    }
  }

  lemma JoinedOne(line: RawLine)
    ensures Joined([line]) == line.bytes + Terminator(line.ending)
  {
    assert [line][..0] == [];
    assert [] + line.bytes == line.bytes;
  }

  /** Writing every line back with its terminator restores the stream. */
  lemma SplitLossless(input: Bytes)
    ensures Joined(AllLines(input)) == input
  {
    hide Run, Joined;
    var (lines, held) := Run(NOTHING, input);
    RunLossless(NOTHING, input);
    assert HeldBytes(NOTHING) + input == input;
    if Flushed(held).Some? {
      var last := Flushed(held).value;
      JoinedAppend(lines, [last]);
      JoinedOne(last);
    }
  }

  /** Every line is free of line endings, only the last can lack one, and an LF line does not
      follow a lone CR, which would have made them one CRLF. */
  ghost predicate WellSplit(lines: seq<RawLine>) {
    && (forall i :: 0 <= i < |lines| ==> LineFree(lines[i].bytes))
    && (forall i :: 0 <= i < |lines| - 1 ==> lines[i].ending != NoEnding)
    && (forall i :: 0 < i < |lines| ==> !(lines[i - 1].ending == Cr && lines[i] == RawLine("", Lf)))
    && (|lines| > 0 && lines[|lines| - 1].ending == NoEnding ==> lines[|lines| - 1].bytes != [])
  }

  /** The lines so far end before what is held; a waiting CR decides how the next one may start. */
  ghost predicate Between(lines: seq<RawLine>, h: Held, first: char) {
    && LineFree(h.buffer)
    && (forall i :: 0 <= i < |lines| ==> LineFree(lines[i].bytes) && lines[i].ending != NoEnding)
    && (forall i :: 0 < i < |lines| ==> !(lines[i - 1].ending == Cr && lines[i] == RawLine("", Lf)))
    && (h.buffer == [] && !h.pendingCr && |lines| > 0 && lines[|lines| - 1].ending == Cr ==> first != '\n')
  }

  lemma BetweenStep(lines: seq<RawLine>, h: Held, b: char, next: char)
    requires Between(lines, h, b)
    ensures Between(lines + Step(h, b).0, Step(h, b).1, next)
  {
    var more := Step(h, b).0;
    var all := lines + more;
    forall i | 0 < i < |all| ensures !(all[i - 1].ending == Cr && all[i] == RawLine("", Lf)) {
      if i < |lines| {
        assert all[i - 1] == lines[i - 1] && all[i] == lines[i];
      }
    }
  }

  lemma {:induction false} RunBetween(lines: seq<RawLine>, h: Held, input: Bytes, next: char)
    requires Between(lines, h, if input == [] then next else input[0])
    ensures Between(lines + Run(h, input).0, Run(h, input).1, next)
    decreases |input|
  {
    hide Step, Between;
    if input == [] {
      assert lines + [] == lines;
    } else {
      var first := Step(h, input[0]);
      BetweenStep(lines, h, input[0], if input[1..] == [] then next else input[1]);
      RunBetween(lines + first.0, first.1, input[1..], next);
      assert (lines + first.0) + Run(first.1, input[1..]).0 == lines + (first.0 + Run(first.1, input[1..]).0);
    }
  }

  lemma SplitIsWell(input: Bytes)
    ensures WellSplit(AllLines(input))
  {
    hide Run, Between, WellSplit;
    var (lines, held) := Run(NOTHING, input);
    NothingBetween(if input == [] then ' ' else input[0]);
    RunBetween([], NOTHING, input, ' ');
    assert [] + lines == lines;
    BetweenEnds(lines, held);
  }

  lemma NothingBetween(first: char)
    ensures Between([], NOTHING, first)
  {}

  lemma BetweenEnds(lines: seq<RawLine>, held: Held)
    requires Between(lines, held, ' ')
    ensures WellSplit(if Flushed(held).Some? then lines + [Flushed(held).value] else lines)
  {
    if Flushed(held).Some? {
      var all := lines + [Flushed(held).value];
      forall i | 0 < i < |all| ensures !(all[i - 1].ending == Cr && all[i] == RawLine("", Lf)) {
        if i < |lines| {
          assert all[i - 1] == lines[i - 1] && all[i] == lines[i];
        }
      }
    }
  }

  // ----- Splitting inverts joining -----

  lemma {:induction false} RunText(buffer: Bytes, text: Bytes)
    requires LineFree(text)
    ensures Yields(Held(buffer, false), text, [], Held(buffer + text, false))
    decreases |text|
  {
    if text == [] {
      assert buffer + text == buffer;
    } else {
      RunText(buffer + [text[0]], text[1..]);
      assert buffer + [text[0]] + text[1..] == buffer + text;
    }
  }

  lemma RunLine(line: RawLine)
    requires LineFree(line.bytes)
    ensures var input := line.bytes + Terminator(line.ending);
            match line.ending
            case NoEnding => Yields(NOTHING, input, [], Held(line.bytes, false))
            case Cr => Yields(NOTHING, input, [], Held(line.bytes, true))
            case _ => Yields(NOTHING, input, [line], NOTHING)
  {
    RunText("", line.bytes);
    assert "" + line.bytes == line.bytes;
    RunAppend(NOTHING, line.bytes, Terminator(line.ending));
    EndRuns(line.bytes);
    hide Run;
    if line.ending.NoEnding? {
      RunNone(Held(line.bytes, false));
    }
  }

  lemma RunNone(h: Held)
    ensures Yields(h, "", [], h)
  {}

  lemma EndRuns(buffer: Bytes)
    ensures Yields(Held(buffer, false), "\n", [RawLine(buffer, Lf)], NOTHING)
    ensures Yields(Held(buffer, false), "\r", [], Held(buffer, true))
    ensures Yields(Held(buffer, false), "\r\n", [RawLine(buffer, Crlf)], NOTHING)
  {
    assert "\n"[1..] == [] && "\r"[1..] == [] && "\r\n"[1..] == "\n";
    assert Yields(Held(buffer, true), "\n", [RawLine(buffer, Crlf)], NOTHING);
  }

  /** What follows a line that ends in a lone CR does not start with LF. */
  lemma AfterCr(lines: seq<RawLine>)
    requires WellSplit(lines) && |lines| > 1 && lines[0].ending == Cr
    ensures Joined(lines[1..]) != [] && Joined(lines[1..])[0] != '\n'
  {
    hide Joined;
    var tail := lines[1..];
    JoinedHead(tail);
    var next := tail[0];
    assert next == lines[1] && !(lines[0].ending == Cr && lines[1] == RawLine("", Lf));
    if next.bytes != [] {
      assert next.bytes[0] != '\n';
    }
  }

  lemma JoinedHead(lines: seq<RawLine>)
    requires lines != []
    ensures Joined(lines) == (lines[0].bytes + Terminator(lines[0].ending)) + Joined(lines[1..])
  {
    JoinedAppend([lines[0]], lines[1..]);
    assert lines == [lines[0]] + lines[1..];
    JoinedOne(lines[0]);
  }

  lemma WellTail(lines: seq<RawLine>)
    requires WellSplit(lines) && lines != []
    ensures WellSplit(lines[1..]) && LineFree(lines[0].bytes)
    ensures lines[0].ending == NoEnding ==> lines == [lines[0]] && lines[0].bytes != []
  {}

  lemma {:induction false} RunJoined(lines: seq<RawLine>)
    requires WellSplit(lines)
    ensures AllLines(Joined(lines)) == lines
  {
    hide Run, Joined, WellSplit;
    if lines == [] {
      JoinedNone();
      RunNothing();
    } else {
      var line, tail := lines[0], lines[1..];
      WellTail(lines);
      JoinedHead(lines);
      RunLine(line);
      RunJoined(tail);
      RunAppend(NOTHING, line.bytes + Terminator(line.ending), Joined(tail));
      assert lines == [line] + tail;
      if tail == [] {
        JoinedNone();
        RunNone(Run(NOTHING, line.bytes + Terminator(line.ending)).1);
      } else if line.ending == Cr {
        AfterCr(lines);
        CrThen(line.bytes, Joined(tail));
      }
    }
  }

  /** The splitter and the joiner are inverse to each other on well-split lists. */
  lemma SplitInvertsJoin(lines: seq<RawLine>)
    ensures WellSplit(lines) <==> AllLines(Joined(lines)) == lines
  {
    hide Joined, AllLines, WellSplit;
    if WellSplit(lines) {
      RunJoined(lines);
    }
    SplitIsWell(Joined(lines));
  }

  // ----- Normalising a line -----

  /** `trim_trailing_perl_ws`. */
  method TrimTrailing(bytes: Bytes) returns (trimmed: Bytes)
    ensures trimmed == Trimmed(bytes)
    ensures trimmed <= bytes
    ensures trimmed == [] || !IsSpace(trimmed[|trimmed| - 1])
    ensures forall i :: |trimmed| <= i < |bytes| ==> IsSpace(bytes[i])
  {
    var end := |bytes|;
    assert bytes[..end] == bytes;
    while end > 0 && IsSpace(bytes[end - 1])
      invariant 0 <= end <= |bytes|
      invariant Trimmed(bytes[..end]) == Trimmed(bytes)
      invariant forall i :: end <= i < |bytes| ==> IsSpace(bytes[i])
    {
      assert bytes[..end][..end - 1] == bytes[..end - 1];
      end := end - 1;
    }
    trimmed := bytes[..end];
  }
}
