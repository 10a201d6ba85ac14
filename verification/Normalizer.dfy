/**
 The reviewed output normalisers. The CRLF rewriter is a two-byte-lookahead loop; its
 specification erases each carriage return that directly precedes a line feed.
 */
module Normalizer {
  import opened Wrappers
  import opened Text
  import opened Tracefile

  datatype NormalizerId = ExactV1 | TextCrlfToLfV1

  /** A carriage return and a line feed at positions `i` and `i + 1`. */
  predicate PairAt(s: Bytes, i: int) {
    0 <= i < |s| - 1 && s[i] == '\r' && s[i + 1] == '\n'
  }

  predicate TripleAt(s: Bytes, i: int) {
    0 <= i < |s| && s[i] == '\r' && PairAt(s, i + 1)
  }

  ghost predicate HasPair(s: Bytes) {
    exists i :: PairAt(s, i)
  }

  /** CR CR LF occurs somewhere. */
  ghost predicate HasTriple(s: Bytes) {
    exists i :: TripleAt(s, i)
  }

  /** How many CRLF pairs start before position `n`. */
  function PairsBefore(s: Bytes, n: int): nat {
    if n <= 0 || s == [] then 0 else (if PairAt(s, 0) then 1 else 0) + PairsBefore(s[1..], n - 1)
  }

  function Erased(s: Bytes): Bytes {
    if s == [] then [] else (if PairAt(s, 0) then [] else [s[0]]) + Erased(s[1..])
  }

  /** `crlf_to_lf`. */
  method CrlfToLf(input: Bytes) returns (output: Bytes)
    ensures output == Erased(input)
  {
    hide Erased, Done;
    output := [];
    var index := 0;
    DoneNothing(input);
    while index < |input|
      invariant 0 <= index <= |input|
      invariant Done(input, index, output)
    {
      DoneMore(input, index, output);
      if input[index] == '\r' && index + 1 < |input| && input[index + 1] == '\n' {
        output := output + ['\n'];
        index := index + 2;
      } else {
        output := output + [input[index]];
        index := index + 1;
      }
    }
    DoneAll(input, output);
  }

  /** The loop has produced the image of `input[..index]`. */
  ghost predicate Done(input: Bytes, index: nat, output: Bytes) {
    index <= |input| && output + Erased(input[index..]) == Erased(input)
  }

  lemma DoneNothing(input: Bytes)
    ensures Done(input, 0, [])
  {
    hide Erased;
    assert input[0..] == input;
  }

  lemma DoneMore(input: Bytes, index: nat, output: Bytes)
    requires index < |input| && Done(input, index, output)
    ensures if PairAt(input, index) then Done(input, index + 2, output + ['\n'])
            else Done(input, index + 1, output + [input[index]])
  {
    var rest := input[index..];
    assert rest[1..] == input[index + 1..];
    if PairAt(input, index) {
      assert rest[1..][1..] == input[index + 2..];
      assert Erased(rest) == ['\n'] + Erased(input[index + 2..]);
    } else {
      assert Erased(rest) == [input[index]] + Erased(input[index + 1..]);
    }
  }

  lemma DoneAll(input: Bytes, output: Bytes)
    requires Done(input, |input|, output)
    ensures output == Erased(input)
  {
    assert Erased([]) == [];
    assert input[|input|..] == [] && output + [] == output;
  }

  method Normalize(id: NormalizerId, input: Bytes) returns (output: Bytes)
    ensures output == if id == ExactV1 then input else Erased(input)
  {
    match id {
      case ExactV1 => output := input;
      case TextCrlfToLfV1 => output := CrlfToLf(input);
    }
  }

  // ----- Length and order -----

  /** The output is shorter by exactly the number of CRLF pairs. */
  lemma {:induction false} ErasedLength(s: Bytes)
    ensures |Erased(s)| == |s| - PairsBefore(s, |s|)
  {
    if s != [] {
      ErasedLength(s[1..]);
    }
  }

  /** Every byte that is not the carriage return of a pair is kept, as many places further to the
      front as there are pairs before it. */
  lemma {:induction false} ErasedPositions(s: Bytes, i: int)
    requires 0 <= i < |s| && !PairAt(s, i)
    ensures 0 <= i - PairsBefore(s, i) < |Erased(s)| && Erased(s)[i - PairsBefore(s, i)] == s[i]
  {
    if i > 0 {
      var t := s[1..];
      assert PairAt(t, i - 1) <==> PairAt(s, i);
      ErasedPositions(t, i - 1);
    }
  }

  // ----- When the output is free of pairs -----

  lemma PairTail(s: Bytes)
    requires s != []
    ensures HasPair(s) <==> PairAt(s, 0) || HasPair(s[1..])
    ensures HasTriple(s) <==> TripleAt(s, 0) || HasTriple(s[1..])
  {
    var t := s[1..];
    assert forall i :: PairAt(t, i) <==> 0 <= i && PairAt(s, i + 1);
    assert forall i :: TripleAt(t, i) <==> 0 <= i && TripleAt(s, i + 1);
    if i :| PairAt(s, i) && i != 0 {
      assert PairAt(t, i - 1);
    }
    if i :| TripleAt(s, i) && i != 0 {
      assert TripleAt(t, i - 1);
    }
    if i :| PairAt(t, i) {
      assert PairAt(s, i + 1);
    }
    if i :| TripleAt(t, i) {
      assert TripleAt(s, i + 1);
    }
  }

  /** The first byte of the output is a line feed iff the input starts with LF or CRLF. */
  lemma ErasedHead(s: Bytes)
    ensures Erased(s) != [] && Erased(s)[0] == '\n' <==> s != [] && (s[0] == '\n' || PairAt(s, 0))
    ensures s != [] ==> Erased(s) != []
  {
    if s != [] && PairAt(s, 0) {
      assert !PairAt(s[1..], 0) && s[1..][0] == '\n';
    }
  }

  lemma {:induction false} ErasedPairs(s: Bytes)
    ensures HasPair(Erased(s)) <==> HasTriple(s)
  {
    if s != [] {
      var t := s[1..];
      ErasedPairs(t);
      PairTail(s);
      ErasedHead(t);
      if PairAt(s, 0) {
        assert Erased(s) == Erased(t);
      } else {
        assert PairAt(t, 0) <==> PairAt(s, 1);
        assert Erased(s)[1..] == Erased(t);
        PairTail(Erased(s));
        assert PairAt(Erased(s), 0) <==> TripleAt(s, 0);
      }
    }
  }

  lemma {:induction false} ErasedUnchanged(s: Bytes)
    ensures Erased(s) == s <==> !HasPair(s)
    ensures |Erased(s)| <= |s|
  {
    if s != [] {
      ErasedUnchanged(s[1..]);
      PairTail(s);
      assert s == [s[0]] + s[1..];
      if !PairAt(s, 0) && Erased(s) == s {
        assert Erased(s)[1..] == Erased(s[1..]) && Erased(s)[1..] == s[1..];
      }
    }
  }

  /** Normalising twice is normalising once exactly on inputs without CR CR LF. */
  lemma IdempotentIff(s: Bytes)
    ensures Erased(Erased(s)) == Erased(s) <==> !HasTriple(s)
  {
    ErasedPairs(s);
    ErasedUnchanged(Erased(s));
  }

  // ----- What normalisation does to the analyser -----

  lemma {:induction false} ErasedJoin(a: Bytes, b: Bytes)
    requires !EndsWith(a, '\r') || b == [] || b[0] != '\n'
    ensures Erased(a + b) == Erased(a) + Erased(b)
  {
    if a == [] {
      assert a + b == b && Erased(a) + Erased(b) == Erased(b);
    } else {
      assert (a + b)[1..] == a[1..] + b;
      ErasedJoin(a[1..], b);
      assert PairAt(a + b, 0) <==> PairAt(a, 0);
    }
  }

  lemma TripleJoin(a: Bytes, b: Bytes)
    requires EndsWith(a, '\n')
    ensures HasTriple(a + b) <==> HasTriple(a) || HasTriple(b)
  {
    var ab := a + b;
    assert ab[|a| - 1] == '\n';
    if i :| TripleAt(ab, i) {
      if i < |a| {
        assert TripleAt(a, i);
      } else {
        assert TripleAt(b, i - |a|);
      }
    }
    if i :| TripleAt(a, i) {
      assert TripleAt(ab, i);
    }
    if i :| TripleAt(b, i) {
      assert TripleAt(ab, i + |a|);
    }
  }

  /** A line body, which holds no line feed, with one appended. */
  lemma ErasedLine(body: Bytes)
    requires '\n' !in body
    ensures Erased(body) == body && !HasTriple(body)
    ensures Erased(body + "\n") == (if EndsWith(body, '\r') then body[..|body| - 1] else body) + "\n"
    ensures HasTriple(body + "\n") <==> EndsWith(body, '\r') && EndsWith(body[..|body| - 1], '\r')
  {
    hide Erased;
    ErasedUnchanged(body);
    FeedsErased();
    if EndsWith(body, '\r') {
      var init := body[..|body| - 1];
      ErasedUnchanged(init);
      ErasedJoin(init, "\r\n");
      assert body + "\n" == init + "\r\n";
      if EndsWith(init, '\r') {
        assert TripleAt(body + "\n", |body| - 2);
      }
    } else {
      ErasedJoin(body, "\n");
    }
  }

  lemma FeedsErased()
    ensures Erased("\n") == "\n" && Erased("\r\n") == "\n"
  {
    assert "\r\n"[1..] == "\n" && "\n"[1..] == "";
  }

  /** Stripping an erased line gives the same record, or one carriage return less after CR CR LF. */
  lemma StripErased(line: Bytes)
    requires line != [] && '\n' !in line[..|line| - 1]
    ensures Erased(line) != [] && '\n' !in Erased(line)[..|Erased(line)| - 1]
    ensures EndsWith(Erased(line), '\n') <==> EndsWith(line, '\n')
    ensures if HasTriple(line) then |Strip(Erased(line))| < |Strip(line)| else Strip(Erased(line)) == Strip(line)
  {
    hide *;
    var body, last := line[..|line| - 1], line[|line| - 1];
    assert line == body + [last];
    if last == '\n' {
      FedErased(body);
      FedEnds(body);
    } else {
      UnfedErased(body, last);
    }
  }

  lemma FedEnds(body: Bytes)
    ensures EndsWith(body + "\n", '\n')
  {}

  /** A complete line: its erasure is complete too, and loses at most the carriage return that
      stripping would have removed, or one more after CR CR LF. */
  lemma FedErased(body: Bytes)
    requires '\n' !in body
    ensures var line := body + ['\n'];
            && Erased(line) != [] && '\n' !in Erased(line)[..|Erased(line)| - 1] && EndsWith(Erased(line), '\n')
            && EndsWith(line, '\n')
            && if HasTriple(line) then |Strip(Erased(line))| < |Strip(line)| else Strip(Erased(line)) == Strip(line)
  {
    hide Erased, Strip, HasTriple;
    ErasedLine(body);
    StripFed(body);
    var kept := if EndsWith(body, '\r') then body[..|body| - 1] else body;
    assert (kept + "\n")[..|kept|] == kept;
    StripFed(kept);
  }

  lemma UnfedErased(body: Bytes, last: char)
    requires '\n' !in body && last != '\n'
    ensures var line := body + [last]; Erased(line) == line && !HasTriple(line) && !EndsWith(line, '\n')
  {
    hide Erased, HasTriple;
    ErasedLine(body + [last]);
  }

  lemma StripFed(body: Bytes)
    ensures Strip(body + "\n") == if EndsWith(body, '\r') then body[..|body| - 1] else body
  {
    assert (body + "\n")[..|body|] == body;
  }

  lemma FirstLineErased(s: Bytes)
    requires s != []
    ensures var line := FirstLine(s);
            && Erased(s) != [] && FirstLine(Erased(s)) == Erased(line)
            && Erased(s)[|Erased(line)|..] == Erased(s[|line|..])
            && (HasTriple(s) <==> HasTriple(line) || HasTriple(s[|line|..]))
  {
    hide Strip, IndexOf, FirstLine, Erased;
    var line, rest := FirstLine(s), s[|FirstLine(s)|..];
    assert s == line + rest;
    StripErased(line);
    if rest == [] {
      assert line == s;
      NoTripleIn(rest);
      ErasedNothing(rest);
    } else {
      TripleJoin(line, rest);
      ErasedJoin(line, rest);
    }
    FirstLineIs(Erased(s), Erased(line));
  }

  lemma NoTripleIn(s: Bytes)
    requires s == []
    ensures !HasTriple(s)
  {}

  lemma ErasedNothing(s: Bytes)
    requires s == []
    ensures Erased(s) == []
  {}

  /** The bytes the records hold in all. */
  function Weight(records: seq<Bytes>): nat {
    if records == [] then 0 else |records[0]| + Weight(records[1..])
  }

  lemma WeightHead(record: Bytes, records: seq<Bytes>)
    ensures Weight((if record == [] then [] else [record]) + records) == |record| + Weight(records)
  {
    if record == [] {
      assert (if record == [] then [] else [record]) + records == records;
    } else {
      assert ([record] + records)[1..] == records;
    }
  }

  /** Normalising keeps the record list exactly on inputs without CR CR LF; elsewhere it loses bytes. */
  lemma {:induction false} RecordsErased(s: Bytes)
    ensures Records(Erased(s)) == Records(s) <==> !HasTriple(s)
    ensures Weight(Records(Erased(s))) <= Weight(Records(s))
    ensures HasTriple(s) ==> Weight(Records(Erased(s))) < Weight(Records(s))
    decreases |s|
  {
    hide Records, Erased, Strip, FirstLine, Weight, HasTriple;
    if s == [] {
      NoTripleIn(s);
      ErasedNothing(s);
    } else {
      var line := FirstLine(s);
      var rest := s[|line|..];
      FirstLineErased(s);
      StripErased(line);
      RecordsErased(rest);
      RecordsHead(s);
      RecordsHead(Erased(s));
      WeightHead(Strip(line), Records(rest));
      WeightHead(Strip(Erased(line)), Records(Erased(rest)));
    }
  }

  /** On inputs without CR CR LF, normalising first changes nothing the analyser reports
      except the byte count and the digest. */
  lemma AnalysisErased(s: Bytes)
    requires !HasTriple(s)
    ensures match Analysis(s)
            case Err(fault) => Analysis(Erased(s)) == Err(fault)
            case Ok(shape) => Analysis(Erased(s)) == Ok(shape.(digested := Erased(s), inputBytes := |Erased(s)|))
  {
    hide Records, Erased, HasTriple, ScanRecords;
    RecordsErased(s);
  }
}
