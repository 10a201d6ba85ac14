/** Text and bytes: searching, line framing, white space and ASCII case folding. */
module Text {

  /** A byte is represented by the `char` with the same code, so that record tags can be written
      as string literals; nothing depends on the width of a byte. */
  type Bytes = string

  predicate OccursAt(text: string, m: string, p: int) {
    0 <= p <= |text| - |m| && text[p..p + |m|] == m
  }

  // ----- Lines -----

  predicate LineFree(line: Bytes) {
    '\n' !in line && '\r' !in line
  }

  /** Each line followed by a line feed. */
  function Frame(lines: seq<Bytes>): Bytes {
    if lines == [] then []
    else Frame(lines[..|lines| - 1]) + (lines[|lines| - 1] + "\n")
  }

  lemma FrameNone()
    ensures Frame([]) == []
  {}

  lemma FrameSnoc(lines: seq<Bytes>, line: Bytes)
    ensures Frame(lines + [line]) == Frame(lines) + (line + "\n")
  {
    assert (lines + [line])[..|lines|] == lines;
  }

  lemma {:induction false} FrameHead(line: Bytes, lines: seq<Bytes>)
    ensures Frame([line] + lines) == line + "\n" + Frame(lines)
  {
    hide Frame;
    FrameNone();
    if lines == [] {
      assert [line] + lines == [] + [line];
      FrameSnoc([], line);
    } else {
      var init, last := lines[..|lines| - 1], lines[|lines| - 1];
      FrameHead(line, init);
      assert [line] + lines == ([line] + init) + [last];
      FrameSnoc([line] + init, last);
      assert lines == init + [last];
      FrameSnoc(init, last);
    }
  }

  // ----- White space -----

  predicate IsSpace(b: char) {
    b == '\t' || b == '\n' || b as int == 0x0B || b as int == 0x0C || b == '\r' || b == ' '
  }

  /** White space goes at the end. */
  function Trimmed(s: Bytes): (trimmed: Bytes)
    ensures trimmed <= s
    ensures trimmed == [] || !IsSpace(trimmed[|trimmed| - 1])
  {
    if s == [] || !IsSpace(s[|s| - 1]) then s else Trimmed(s[..|s| - 1])
  }

  /** White space goes at both ends. */
  function Stripped(s: string): string {
    if s == [] || !IsSpace(s[0]) then Trimmed(s) else Stripped(s[1..])
  }

  lemma {:induction false} TrimmedAfter(text: string, after: string)
    requires forall i :: 0 <= i < |after| ==> IsSpace(after[i])
    requires text != [] && !IsSpace(text[|text| - 1])
    ensures Trimmed(text + after) == text
  {
    if after == [] {
      assert text + after == text;
    } else {
      assert (text + after)[..|text + after| - 1] == text + after[..|after| - 1];
      TrimmedAfter(text, after[..|after| - 1]);
    }
  }

  // ----- Case -----

  function LowerChar(ch: char): char {
    if 'A' <= ch <= 'Z' then (ch as int + 32) as char else ch
  }

  function Lower(s: string): (r: string)
    ensures |r| == |s|
  {
    seq(|s|, i requires 0 <= i < |s| => LowerChar(s[i]))
  }
}
